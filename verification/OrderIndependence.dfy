/** The order in which the next messages of a receiving chain arrive does not matter. */
module OrderIndependence {
  import opened Wrappers
  import opened ByteText
  import opened SymbolicCrypto
  import opened MessageHeader
  import opened SkippedKeys
  import opened RatchetSession
  import opened TwoParty
  import opened Lockstep
  import opened SystemInvariant
  import opened Agreement

  /** `messages[i]` is what the chain's owner sent as the `i`-th message after those already received. */
  predicate NextMessages(s: Session, messages: seq<Sent>) {
    && s.receivingChain.Some? && s.dhRemote.Some?
    && |messages| <= 1000
    && forall i :: 0 <= i < |messages| ==> IsNext(s, messages[i], i)
  }

  predicate IsNext(s: Session, m: Sent, i: nat)
    requires s.receivingChain.Some? && s.dhRemote.Some?
  {
    && m.header.dhPublic == s.dhRemote.value
    && m.header.messageNumber == s.recvNumber + i
    && m.ciphertext.Sealed? && m.ciphertext.key == KeyAt(s.receivingChain.value, i)
    && m.ciphertext.aad == ToBytes(m.header) && m.ciphertext.plaintext == m.plaintext
  }

  predicate Arrivals(order: seq<nat>, count: nat) {
    && (forall k :: 0 <= k < |order| ==> order[k] < count)
    && (forall k, l :: 0 <= k < l < |order| ==> order[k] != order[l])
  }

  /** Decrypt the messages one after the other in the given order. */
  function DeliverAll(s: Session, messages: seq<Sent>, order: seq<nat>, newKey: DhSecret): Session
    requires forall k :: 0 <= k < |order| ==> order[k] < |messages|
  {
    if order == [] then s
    else
      var m := messages[order[|order| - 1]];
      Decrypt(DeliverAll(s, messages, order[..|order| - 1], newKey), m.header, m.ciphertext, newKey).after
  }

  /** One past the largest member below the bound. */
  function Reach(seen: set<nat>, bound: nat): (reach: nat)
    ensures reach <= bound
  {
    if bound == 0 then 0 else if bound - 1 in seen then bound else Reach(seen, bound - 1)
  }

  lemma {:induction false} ReachCovers(seen: set<nat>, bound: nat, i: nat)
    requires i in seen && i < bound
    ensures i < Reach(seen, bound)
  {
    if bound - 1 !in seen {
      ReachCovers(seen, bound - 1, i);
    }
  }

  lemma {:induction false} ReachWith(seen: set<nat>, bound: nat, i: nat)
    requires i < bound
    ensures Reach(seen + {i}, bound) == if i < Reach(seen, bound) then Reach(seen, bound) else i + 1
  {
    if bound - 1 != i && bound - 1 !in seen {
      ReachWith(seen, bound - 1, i);
    }
  }

  function EntryOf(s: Session, i: nat): Entry
    requires s.receivingChain.Some?
  {
    Entry(Slot(RemoteHex(s), s.recvNumber + i), KeyAt(s.receivingChain.value, i))
  }

  /** The keys of the messages below `reach` that were not seen, in order. */
  function Pending(s: Session, seen: set<nat>, reach: nat): Store
    requires s.receivingChain.Some?
  {
    if reach == 0 then []
    else Pending(s, seen, reach - 1) + (if reach - 1 in seen then [] else [EntryOf(s, reach - 1)])
  }

  /** The state is determined by which messages were seen. */
  function StateAfter(s: Session, seen: set<nat>, count: nat): Session
    requires s.receivingChain.Some?
  {
    MovedOn(s, Pending(s, seen, Reach(seen, count)), Reach(seen, count))
  }

  function MovedOn(s: Session, store: Store, reach: nat): Session
    requires s.receivingChain.Some?
  {
    s.(store := store,
       receivingChain := Some(Advance(s.receivingChain.value, reach)),
       recvNumber := s.recvNumber + reach)
  }

  // ----------------------------------------------------------- the pending keys

  lemma {:induction false} PendingFacts(s: Session, seen: set<nat>, reach: nat)
    requires s.receivingChain.Some?
    ensures |Pending(s, seen, reach)| <= reach && Distinct(Pending(s, seen, reach))
    ensures forall k :: 0 <= k < |Pending(s, seen, reach)| ==>
              s.recvNumber <= Pending(s, seen, reach)[k].slot.number < s.recvNumber + reach
  {
    if reach > 0 {
      PendingFacts(s, seen, reach - 1);
    }
  }

  lemma {:induction false} FindPending(s: Session, seen: set<nat>, reach: nat, i: nat)
    requires s.receivingChain.Some?
    ensures Find(Pending(s, seen, reach), EntryOf(s, i).slot) ==
            if i < reach && i !in seen then Some(EntryOf(s, i).key) else None
  {
    if reach > 0 {
      FindPending(s, seen, reach - 1, i);
      var before := Pending(s, seen, reach - 1);
      if reach - 1 in seen {
        assert before + [] == before;
      } else {
        FindAppend(before, EntryOf(s, reach - 1), EntryOf(s, i).slot);
      }
    }
  }

  lemma {:induction false} WithoutAppend(store: Store, entry: Entry, slot: Slot)
    ensures Without(store + [entry], slot) ==
            if Find(store, slot).Some? then Without(store, slot) + [entry]
            else if entry.slot == slot then store else store + [entry]
  {
    if store == [] {
      assert store + [entry] == [entry];
      assert [entry][1..] == [];
    } else {
      assert (store + [entry])[1..] == store[1..] + [entry];
      if store[0].slot != slot {
        WithoutAppend(store[1..], entry, slot);
        if Find(store, slot).None? && entry.slot == slot {
          assert store == [store[0]] + store[1..];
        }
      }
    }
  }

  lemma {:induction false} PendingSame(s: Session, seen: set<nat>, reach: nat, i: nat)
    requires s.receivingChain.Some? && reach <= i
    ensures Pending(s, seen + {i}, reach) == Pending(s, seen, reach)
  {
    if reach > 0 {
      PendingSame(s, seen, reach - 1, i);
    }
  }

  lemma PendingStep(s: Session, seen: set<nat>, reach: nat)
    requires s.receivingChain.Some? && reach > 0
    ensures Pending(s, seen, reach) ==
            if reach - 1 in seen then Pending(s, seen, reach - 1)
            else Pending(s, seen, reach - 1) + [EntryOf(s, reach - 1)]
  {
  }

  lemma {:induction false} PendingTake(s: Session, seen: set<nat>, reach: nat, i: nat)
    requires s.receivingChain.Some? && i < reach && i !in seen
    ensures Without(Pending(s, seen, reach), EntryOf(s, i).slot) == Pending(s, seen + {i}, reach)
    decreases reach
  {
    hide Pending, Without, Find;
    var before := Pending(s, seen, reach - 1);
    PendingStep(s, seen, reach);
    PendingStep(s, seen + {i}, reach);
    FindPending(s, seen, reach - 1, i);
    WithoutAppend(before, EntryOf(s, reach - 1), EntryOf(s, i).slot);
    if i == reach - 1 {
      PendingSame(s, seen, reach - 1, i);
    } else {
      PendingTake(s, seen, reach - 1, i);
    }
  }

  /** Storing the key of the first message not yet reached. */
  lemma PendingPut(s: Session, seen: set<nat>, reach: nat)
    requires s.receivingChain.Some? && reach < MAX_SKIPPED_KEYS && reach !in seen
    ensures Put(Pending(s, seen, reach), EntryOf(s, reach).slot, EntryOf(s, reach).key) == Pending(s, seen, reach + 1)
  {
    FindPending(s, seen, reach, reach);
    PendingFacts(s, seen, reach);
    PendingStep(s, seen, reach + 1);
  }

  lemma NoKeys(store: Store, hex: Bytes, chain: ChainKey, from: nat)
    ensures PutAll(store, ConsecutiveKeys(hex, chain, from, 0)) == store
  {
  }

  /** Jumping from one position to a later one adds exactly the keys in between. */
  lemma {:induction false} PendingGrows(s: Session, seen: set<nat>, from: nat, upTo: nat)
    requires s.receivingChain.Some? && from <= upTo <= MAX_SKIPPED_KEYS
    requires forall i :: from <= i < upTo ==> i !in seen
    ensures PutAll(Pending(s, seen, from),
                   ConsecutiveKeys(RemoteHex(s), Advance(s.receivingChain.value, from), s.recvNumber + from,
                       upTo - from))
            == Pending(s, seen, upTo)
    decreases upTo - from
  {
    hide HexEncode, ConsecutiveKeys, PutAll, Find, RemoteHex, Pending, Put, Advance;
    var hex, chain := RemoteHex(s), Advance(s.receivingChain.value, from);
    var first, next := s.recvNumber + from, s.recvNumber + upTo - 1;
    if from == upTo {
      NoKeys(Pending(s, seen, from), hex, chain, first);
    } else {
      PendingGrows(s, seen, from, upTo - 1);
      assert next - first == upTo - 1 - from && next + 1 - first == upTo - from;
      ConsecutiveKeysStep(Pending(s, seen, from), hex, chain, first, next);
      AdvanceAdds(s.receivingChain.value, from, upTo - 1 - from);
      PendingPut(s, seen, upTo - 1);
    }
  }

  // ------------------------------------------------------------------ one arrival

  lemma LateArrival(s: Session, seen: set<nat>, count: nat, m: Sent, i: nat, newKey: DhSecret)
    requires s.receivingChain.Some? && s.dhRemote.Some? && IsNext(s, m, i)
    requires i < Reach(seen, count) && i !in seen
    ensures Decrypt(StateAfter(s, seen, count), m.header, m.ciphertext, newKey) ==
            Outcome(StateAfter(s, seen + {i}, count), Ok(m.plaintext))
  {
    var reach := Reach(seen, count);
    FindPending(s, seen, reach, i);
    PendingTake(s, seen, reach, i);
    ReachWith(seen, count, i);
    assert SlotOf(m.header) == EntryOf(s, i).slot;
  }

  /** A message ahead on the current chain, opened with its own key. */
  lemma EarlyDecrypt(t: Session, m: Sent, newKey: DhSecret)
    requires Find(t.store, SlotOf(m.header)).None? && t.dhRemote == Some(m.header.dhPublic) && t.receivingChain.Some?
    requires t.recvNumber <= m.header.messageNumber <= t.recvNumber + 1000
    requires OpenSealed(m.ciphertext, KeyAt(t.receivingChain.value, m.header.messageNumber - t.recvNumber),
        ToBytes(m.header))
             == Some(m.plaintext)
    ensures Decrypt(t, m.header, m.ciphertext, newKey) ==
        Outcome(AfterCurrent(t, m.header.messageNumber), Ok(m.plaintext))
  {
    hide ToBytes, PutAll, ConsecutiveKeys, HexEncode;
    ReceiveCurrentAfter(t, m.header, m.ciphertext);
  }

  lemma NothingPastReach(seen: set<nat>, count: nat, i: nat)
    requires Reach(seen, count) <= i < count
    ensures forall k :: Reach(seen, count) <= k < i ==> k !in seen
  {
    forall k | Reach(seen, count) <= k < i ensures k !in seen {
      if k in seen {
        ReachCovers(seen, count, k);
      }
    }
  }

  lemma EarlyStore(s: Session, seen: set<nat>, reach: nat, i: nat)
    requires s.receivingChain.Some? && reach <= i <= MAX_SKIPPED_KEYS && forall k :: reach <= k < i ==> k !in seen
    ensures PutAll(Pending(s, seen, reach),
                   ConsecutiveKeys(RemoteHex(s), Advance(s.receivingChain.value, reach), s.recvNumber + reach,
                       i - reach))
            == Pending(s, seen + {i}, i + 1)
  {
    hide PutAll, ConsecutiveKeys, Advance, Pending, RemoteHex;
    PendingGrows(s, seen, reach, i);
    PendingSame(s, seen, i, i);
    PendingStep(s, seen + {i}, i + 1);
  }

  lemma EarlyState(s: Session, seen: set<nat>, count: nat, i: nat)
    requires s.receivingChain.Some? && s.dhRemote.Some? && Reach(seen, count) <= i < count <= 1000
    ensures AfterCurrent(StateAfter(s, seen, count), s.recvNumber + i) == StateAfter(s, seen + {i}, count)
  {
    var reach := Reach(seen, count);
    NothingPastReach(seen, count, i);
    ReachWith(seen, count, i);
    hide Pending, Reach, PutAll, ConsecutiveKeys, HexEncode, Advance, AfterCurrent, MovedOn;
    EarlyStore(s, seen, reach, i);
    MovedFurther(s, Pending(s, seen, reach), reach, i);
  }

  lemma MovedFurther(s: Session, store: Store, reach: nat, i: nat)
    requires s.receivingChain.Some? && s.dhRemote.Some? && reach <= i
    ensures AfterCurrent(MovedOn(s, store, reach), s.recvNumber + i) ==
            MovedOn(s, PutAll(store, ConsecutiveKeys(RemoteHex(s), Advance(s.receivingChain.value, reach),
                                                     s.recvNumber + reach, i - reach)), i + 1)
  {
    AdvanceAdds(s.receivingChain.value, reach, i - reach + 1);
    hide PutAll, ConsecutiveKeys, HexEncode, Advance;
  }

  lemma EarlyArrival(s: Session, seen: set<nat>, count: nat, m: Sent, i: nat, newKey: DhSecret)
    requires s.receivingChain.Some? && s.dhRemote.Some? && IsNext(s, m, i)
    requires Reach(seen, count) <= i < count <= 1000
    ensures Decrypt(StateAfter(s, seen, count), m.header, m.ciphertext, newKey) ==
            Outcome(StateAfter(s, seen + {i}, count), Ok(m.plaintext))
  {
    var reach := Reach(seen, count);
    FindPending(s, seen, reach, i);
    assert SlotOf(m.header) == EntryOf(s, i).slot;
    AdvanceAdds(s.receivingChain.value, reach, i - reach);
    hide ToBytes, HexEncode, Decrypt, Pending, Reach, Find;
    EarlyDecrypt(StateAfter(s, seen, count), m, newKey);
    EarlyState(s, seen, count, i);
  }

  lemma Arrival(s: Session, seen: set<nat>, count: nat, m: Sent, i: nat, newKey: DhSecret)
    requires s.receivingChain.Some? && s.dhRemote.Some? && IsNext(s, m, i)
    requires i !in seen && i < count <= 1000
    ensures Decrypt(StateAfter(s, seen, count), m.header, m.ciphertext, newKey) ==
            Outcome(StateAfter(s, seen + {i}, count), Ok(m.plaintext))
  {
    hide Decrypt, StateAfter, IsNext;
    if i < Reach(seen, count) {
      LateArrival(s, seen, count, m, i, newKey);
    } else {
      EarlyArrival(s, seen, count, m, i, newKey);
    }
  }

  function Indices(order: seq<nat>): set<nat> {
    set k | 0 <= k < |order| :: order[k]
  }

  lemma IndicesSnoc(order: seq<nat>, k: nat)
    requires k < |order| && forall l, l' :: 0 <= l < l' < |order| ==> order[l] != order[l']
    ensures Indices(order[..k + 1]) == Indices(order[..k]) + {order[k]}
    ensures order[k] !in Indices(order[..k])
  {
    assert order[..k + 1] == order[..k] + [order[k]];
    var longer, shorter := order[..k + 1], order[..k];
    forall i ensures i in Indices(longer) <==> i in Indices(shorter) + {order[k]} {
      if i in Indices(shorter) {
        var l :| 0 <= l < |shorter| && shorter[l] == i;
        assert longer[l] == i;
      }
      assert longer[k] == order[k];
    }
  }

  /** Whatever the order, the state depends only on which messages have arrived. */
  lemma {:induction false} StateDependsOnSet(s: Session, messages: seq<Sent>, order: seq<nat>, k: nat, newKey: DhSecret)
    requires NextMessages(s, messages) && s.store == [] && Arrivals(order, |messages|) && k <= |order|
    ensures DeliverAll(s, messages, order[..k], newKey) == StateAfter(s, Indices(order[..k]), |messages|)
    decreases k
  {
    var count := |messages|;
    if k == 0 {
      assert Indices(order[..k]) == {};
      NothingSeen(s, count);
    } else {
      hide Decrypt, StateAfter, ToBytes, Reach, Indices;
      StateDependsOnSet(s, messages, order, k - 1, newKey);
      IndicesSnoc(order, k - 1);
      var i := order[k - 1];
      assert order[..k][..k - 1] == order[..k - 1];
      Arrival(s, Indices(order[..k - 1]), count, messages[i], i, newKey);
    }
  }

  /** Whatever the order, each message yields its own plaintext. */
  lemma EachYieldsItsPlaintext(s: Session, messages: seq<Sent>, order: seq<nat>, k: nat, newKey: DhSecret)
    requires NextMessages(s, messages) && s.store == [] && Arrivals(order, |messages|) && k < |order|
    ensures var m := messages[order[k]];
            Decrypt(DeliverAll(s, messages, order[..k], newKey), m.header, m.ciphertext, newKey).result ==
                Ok(m.plaintext)
  {
    hide Decrypt, DeliverAll, StateAfter, Indices;
    StateDependsOnSet(s, messages, order, k, newKey);
    IndicesSnoc(order, k);
    Arrival(s, Indices(order[..k]), |messages|, messages[order[k]], order[k], newKey);
  }

  /** The `k`-th message to arrive decrypts to its own plaintext. */
  predicate YieldsItsOwn(s: Session, messages: seq<Sent>, order: seq<nat>, k: nat, newKey: DhSecret)
    requires Arrivals(order, |messages|) && k < |order|
  {
    var m := messages[order[k]];
    Decrypt(DeliverAll(s, messages, order[..k], newKey), m.header, m.ciphertext, newKey).result == Ok(m.plaintext)
  }

  lemma {:induction false} ReachOfNothing(bound: nat)
    ensures Reach({}, bound) == 0
  {
    if bound > 0 {
      ReachOfNothing(bound - 1);
    }
  }

  lemma NothingSeen(s: Session, count: nat)
    requires s.receivingChain.Some? && s.store == []
    ensures StateAfter(s, {}, count) == s
  {
    ReachOfNothing(count);
  }

  lemma {:induction false} NothingPending(s: Session, seen: set<nat>, reach: nat)
    requires s.receivingChain.Some? && forall i :: 0 <= i < reach ==> i in seen
    ensures Pending(s, seen, reach) == []
  {
    if reach > 0 {
      NothingPending(s, seen, reach - 1);
    }
  }

  /** Delivering the next N <= 1000 messages in any two orders ends in the same state, with the store empty again and
      the chain N steps on. */
  lemma AnyPermutation(s: Session, messages: seq<Sent>, order: seq<nat>, other: seq<nat>, newKey: DhSecret)
    requires NextMessages(s, messages) && s.store == []
    requires Arrivals(order, |messages|) && Arrivals(other, |messages|)
    requires forall i :: 0 <= i < |messages| ==> i in order && i in other
    ensures DeliverAll(s, messages, order, newKey) == DeliverAll(s, messages, other, newKey)
    ensures DeliverAll(s, messages, order, newKey) ==
            s.(receivingChain := Some(Advance(s.receivingChain.value, |messages|)), recvNumber := s.recvNumber
                + |messages|)
  {
    var count := |messages|;
    assert order[..|order|] == order && other[..|other|] == other;
    StateDependsOnSet(s, messages, order, |order|, newKey);
    StateDependsOnSet(s, messages, other, |other|, newKey);
    forall i ensures i in Indices(order) <==> i in order {}
    forall i ensures i in Indices(other) <==> i in other {}
    assert Indices(order) == Indices(other);
    NothingPending(s, Indices(order), count);
    assert count > 0 ==> count - 1 in Indices(order);
  }

  // ------------------------------------------------------------------ in a conversation

  predicate AreWaiting(sys: System, p: Party, count: nat) {
    && Shaped(sys.log) && Turn(sys.log, p) >= 2 && count <= 1000
    && SessionOf(sys, p).recvNumber + count <= |sys.log.chains[Turn(sys.log, p) - 1]|
  }

  /** What the peer sent on the chain `p` receives on, after the messages already received or jumped over. */
  function Waiting(sys: System, p: Party, count: nat): seq<Sent>
    requires AreWaiting(sys, p, count)
  {
    var from := SessionOf(sys, p).recvNumber;
    sys.log.chains[Turn(sys.log, p) - 1][from..from + count]
  }

  lemma WaitingIsNext(sys: System, p: Party, count: nat)
    requires Inv(sys) && AreWaiting(sys, p, count)
    ensures NextMessages(SessionOf(sys, p), Waiting(sys, p, count))
  {
    assert Shaped(sys.log);
    hide Inv, PartyOk, StoreOk, AheadUnreceived, ReceiptsOk, LogOk, InStep, NextMessages;
    PartyFacts(sys, p);
    WaitingOnChain(sys.log, Turn(sys.log, p), SessionOf(sys, p), count);
  }

  lemma WaitingOnChain(log: Log, g: nat, s: Session, count: nat)
    requires LogOk(log) && 2 <= g < |log.keys| == |log.chains| && InStep(log, g, s) && count <= 1000
    requires s.recvNumber + count <= |log.chains[g - 1]|
    ensures NextMessages(s, log.chains[g - 1][s.recvNumber..s.recvNumber + count])
  {
    hide LogOk, InStep, IsNext;
    InStepReceives(log, g, s);
    var messages := log.chains[g - 1][s.recvNumber..s.recvNumber + count];
    forall i | 0 <= i < count ensures IsNext(s, messages[i], i) {
      WaitingOne(log, g, s, i);
    }
  }

  lemma InStepReceives(log: Log, g: nat, s: Session)
    requires LogOk(log) && 2 <= g < |log.keys| && InStep(log, g, s)
    ensures s.receivingChain.Some? && s.dhRemote.Some?
  {
  }

  lemma WaitingOne(log: Log, g: nat, s: Session, i: nat)
    requires LogOk(log) && 2 <= g < |log.keys| && InStep(log, g, s) && s.recvNumber + i < |log.chains[g - 1]|
    ensures s.receivingChain.Some? && s.dhRemote.Some? && IsNext(s, log.chains[g - 1][s.recvNumber + i], i)
  {
    assert IsSent(log, g - 1, s.recvNumber + i) && MessageOk(log, g - 1, s.recvNumber + i);
    hide LogOk, ToBytes;
    AdvanceAdds(SeedAt(log, g - 1), s.recvNumber, i);
  }

  /** After every run that leaves a party's store empty, at most 1000 waiting messages of the peer's current chain can
      arrive in any order: each yields its own plaintext, and all orders end in one session with the store empty
      again. */
  lemma ConversationOrder(secret: Bytes, bobKey: Bytes, aliceKey: Bytes, events: seq<Event>, p: Party, count: nat,
                          order: seq<nat>, other: seq<nat>, newKey: DhSecret)
    requires HonestRun(secret, bobKey, aliceKey, events) && |order| == count
    requires var sys := Final(secret, bobKey, aliceKey, events);
             AreWaiting(sys, p, count) && SessionOf(sys, p).store == []
    requires Arrivals(order, count) && Arrivals(other, count)
    requires forall i :: 0 <= i < count ==> i in order && i in other
    ensures var sys := Final(secret, bobKey, aliceKey, events);
            var s, messages := SessionOf(sys, p), Waiting(sys, p, count);
            && DeliverAll(s, messages, order, newKey) == DeliverAll(s, messages, other, newKey)
            && DeliverAll(s, messages, order, newKey).store == []
            && forall k: nat :: k < count ==> YieldsItsOwn(s, messages, order, k, newKey)
  {
    hide Inv, DeliverAll, Decrypt, NextMessages, Run, LegalRun;
    FinalInv(secret, bobKey, aliceKey, events);
    var sys := Final(secret, bobKey, aliceKey, events);
    var s, messages := SessionOf(sys, p), Waiting(sys, p, count);
    WaitingIsNext(sys, p, count);
    AnyPermutation(s, messages, order, other, newKey);
    forall k: nat | k < count ensures YieldsItsOwn(s, messages, order, k, newKey) {
      EachYieldsItsPlaintext(s, messages, order, k, newKey);
    }
  }
}
