/** How long the key of a message jumped over stays usable in a conversation. */
module RunRetention {
  import opened Wrappers
  import opened ByteText
  import opened SymbolicCrypto
  import opened MessageHeader
  import opened SkippedKeys
  import opened StoreRetention
  import opened RatchetSession
  import opened TwoParty
  import opened Acceptance
  import opened Lockstep
  import opened SystemInvariant
  import opened Eviction
  import opened Agreement

  // ----------------------------------------------- a call as operations on the store

  function ChainEntries(dhHex: Bytes, chain: Option<ChainKey>, from: nat, count: nat): seq<Entry> {
    if chain.None? then [] else ConsecutiveKeys(dhHex, chain.value, from, count)
  }

  function NewChainEntries(s: Session, header: Header): seq<Entry> {
    if |header.dhPublic| < KEY_LENGTH then []
    else ConsecutiveKeys(HexEncode(header.dhPublic),
                         Seed(s.root, DiffieHellman(s.dhSecret, X25519Key(header.dhPublic))), 0, header.messageNumber)
  }

  /** The keys a delivery with this header stores, in order. */
  function JumpedEntries(s: Session, header: Header): seq<Entry> {
    if s.dhRemote == Some(header.dhPublic) then
      ChainEntries(RemoteHex(s), s.receivingChain, s.recvNumber, Gap(s, header.messageNumber))
    else
      ChainEntries(RemoteHex(s), s.receivingChain, s.recvNumber, Gap(s, header.previousChainLength))
      + NewChainEntries(s, header)
  }

  function Insertions(entries: seq<Entry>): (ops: seq<Op>)
    ensures |ops| == |entries|
  {
    seq(|entries|, i requires 0 <= i < |entries| => Insert(entries[i].slot, entries[i].key))
  }

  /** What an accepted delivery does to the store. */
  function StoreOps(s: Session, header: Header): seq<Op> {
    if Find(s.store, SlotOf(header)).Some? then [Take(SlotOf(header))] else Insertions(JumpedEntries(s, header))
  }

  lemma {:induction false} ApplyConcat(store: Store, a: seq<Op>, b: seq<Op>)
    ensures ApplyAll(store, a + b) == ApplyAll(ApplyAll(store, a), b)
    decreases |a|
  {
    if a == [] {
      assert a + b == b;
    } else {
      assert (a + b)[0] == a[0] && (a + b)[1..] == a[1..] + b;
      ApplyConcat(Apply(store, a[0]), a[1..], b);
    }
  }

  lemma ApplyOne(store: Store, op: Op)
    ensures ApplyAll(store, [op]) == Apply(store, op)
  {
    assert [op][1..] == [];
  }

  lemma {:induction false} InsertionsPut(store: Store, entries: seq<Entry>)
    ensures ApplyAll(store, Insertions(entries)) == PutAll(store, entries)
  {
    if entries != [] {
      var last, before := entries[|entries| - 1], entries[..|entries| - 1];
      InsertionsPut(store, before);
      assert Insertions(entries) == Insertions(before) + [Insert(last.slot, last.key)];
      ApplyConcat(store, Insertions(before), [Insert(last.slot, last.key)]);
      ApplyOne(PutAll(store, before), Insert(last.slot, last.key));
    }
  }

  lemma SkipStores(s: Session, until: nat)
    requires SkipMissed(s, until).Ok?
    ensures SkipMissed(s, until).value.store ==
            PutAll(s.store, ChainEntries(RemoteHex(s), s.receivingChain, s.recvNumber, Gap(s, until)))
  {
    assert s.receivingChain.Some? ==> ConsecutiveKeys(RemoteHex(s), s.receivingChain.value, s.recvNumber, 0) == [];
  }

  lemma ReceiveStores(s: Session, header: Header, ciphertext: Ciphertext)
    requires ReceiveCurrent(s, header, ciphertext).result.Ok?
    ensures ReceiveCurrent(s, header, ciphertext).after.store ==
            PutAll(s.store, ChainEntries(RemoteHex(s), s.receivingChain, s.recvNumber, Gap(s, header.messageNumber)))
  {
    hide PutAll, ConsecutiveKeys, ToBytes;
    SkipStores(s, header.messageNumber);
  }

  lemma AcceptedStores(s: Session, header: Header, ciphertext: Ciphertext, newKey: DhSecret)
    requires Decrypt(s, header, ciphertext, newKey).result.Ok?
    ensures Decrypt(s, header, ciphertext, newKey).after.store == ApplyAll(s.store, StoreOps(s, header))
  {
    hide PutAll, ConsecutiveKeys, ToBytes, Without, Find, HexEncode, ApplyAll, Insertions;
    if Find(s.store, SlotOf(header)).Some? {
      ApplyOne(s.store, Take(SlotOf(header)));
    } else {
      InsertionsPut(s.store, JumpedEntries(s, header));
      if s.dhRemote == Some(header.dhPublic) {
        ReceiveStores(s, header, ciphertext);
      } else {
        var finished := SkipMissed(s, header.previousChainLength).value;
        SkipStores(s, header.previousChainLength);
        ReceiveStores(DhRatchet(finished, header.dhPublic, newKey), header, ciphertext);
        PutAllConcat(s.store, ChainEntries(RemoteHex(s), s.receivingChain, s.recvNumber,
            Gap(s, header.previousChainLength)),
                     NewChainEntries(s, header));
      }
    }
  }

  // -------------------------------------------------------------------------- runs

  predicate Accepts(sys: System, e: Event, p: Party) {
    e.Deliver? && e.party == p && Delivery(sys, p, e.header, e.ciphertext, e.newKey).Ok?
  }

  /** What a run does to a party's store. */
  function RunOps(sys: System, events: seq<Event>, p: Party): seq<Op>
    requires Shaped(sys.log)
    decreases |events|
  {
    if events == [] then []
    else
      (if Accepts(sys, events[0], p) then StoreOps(SessionOf(sys, p), events[0].header) else [])
      + RunOps(Step(sys, events[0]), events[1..], p)
  }

  /** How many keys the accepted deliveries of a run store for a party. */
  function JumpTotal(sys: System, events: seq<Event>, p: Party): nat
    requires Shaped(sys.log)
    decreases |events|
  {
    if events == [] then 0
    else
      (if Accepts(sys, events[0], p) then SkipCount(SessionOf(sys, p), events[0].header) else 0)
      + JumpTotal(Step(sys, events[0]), events[1..], p)
  }

  lemma StepStores(sys: System, e: Event, p: Party)
    requires Shaped(sys.log)
    ensures SessionOf(Step(sys, e), p).store ==
            ApplyAll(SessionOf(sys, p).store, if Accepts(sys, e, p) then StoreOps(SessionOf(sys, p), e.header) else [])
  {
    hide Decrypt, StoreOps, ApplyAll;
    if Accepts(sys, e, p) {
      AcceptedStores(SessionOf(sys, p), e.header, e.ciphertext, DhSecret(e.newKey));
    } else {
      ApplyNothing(SessionOf(sys, p).store);
    }
  }

  lemma ApplyNothing(store: Store)
    ensures ApplyAll(store, []) == store
  {
  }

  lemma {:induction false} RunStores(sys: System, events: seq<Event>, p: Party)
    requires Shaped(sys.log)
    ensures SessionOf(Run(sys, events), p).store == ApplyAll(SessionOf(sys, p).store, RunOps(sys, events, p))
    decreases |events|
  {
    if events == [] {
      ApplyNothing(SessionOf(sys, p).store);
    } else {
      hide Step, ApplyAll, StoreOps, Accepts;
      StepStores(sys, events[0], p);
      RunStores(Step(sys, events[0]), events[1..], p);
      ApplyConcat(SessionOf(sys, p).store,
                  if Accepts(sys, events[0], p) then StoreOps(SessionOf(sys, p), events[0].header) else [],
                  RunOps(Step(sys, events[0]), events[1..], p));
    }
  }

  function InsertCount(ops: seq<Op>): nat {
    if ops == [] then 0 else InsertCount(ops[..|ops| - 1]) + (if ops[|ops| - 1].Insert? then 1 else 0)
  }

  lemma {:induction false} InsertCountConcat(a: seq<Op>, b: seq<Op>)
    ensures InsertCount(a + b) == InsertCount(a) + InsertCount(b)
    decreases |b|
  {
    if b == [] {
      assert a + b == a;
    } else {
      assert (a + b)[..|a + b| - 1] == a + b[..|b| - 1];
      InsertCountConcat(a, b[..|b| - 1]);
    }
  }

  lemma {:induction false} InsertCountBound(ops: seq<Op>)
    ensures InsertCount(ops) <= |ops|
  {
    if ops != [] {
      InsertCountBound(ops[..|ops| - 1]);
    }
  }

  lemma {:induction false} FewNewInsertions(store: Store, ops: seq<Op>)
    ensures NewInsertions(store, ops) <= InsertCount(ops)
    decreases |ops|
  {
    if ops != [] {
      hide Apply;
      FewNewInsertions(Apply(store, ops[0]), ops[1..]);
      assert ops == [ops[0]] + ops[1..];
      InsertCountConcat([ops[0]], ops[1..]);
      assert InsertCount([ops[0]]) == if ops[0].Insert? then 1 else 0 by {
        assert [ops[0]][..0] == [];
      }
    }
  }

  lemma StoreOpsCount(s: Session, header: Header)
    ensures InsertCount(StoreOps(s, header)) <= SkipCount(s, header)
  {
    if Find(s.store, SlotOf(header)).Some? {
      assert [Take(SlotOf(header))][..0] == [];
    } else {
      InsertCountBound(StoreOps(s, header));
    }
  }

  lemma {:induction false} RunOpsCount(sys: System, events: seq<Event>, p: Party)
    requires Shaped(sys.log)
    ensures InsertCount(RunOps(sys, events, p)) <= JumpTotal(sys, events, p)
    decreases |events|
  {
    if events != [] {
      hide Step, StoreOps, SkipCount, Delivery;
      var ops := if Accepts(sys, events[0], p) then StoreOps(SessionOf(sys, p), events[0].header) else [];
      if Accepts(sys, events[0], p) {
        StoreOpsCount(SessionOf(sys, p), events[0].header);
      }
      RunOpsCount(Step(sys, events[0]), events[1..], p);
      InsertCountConcat(ops, RunOps(Step(sys, events[0]), events[1..], p));
    }
  }

  // --------------------------------------------------------------- taken means received

  lemma {:induction false} ReceivedStays(sys: System, events: seq<Event>, header: Header)
    requires Shaped(sys.log) && Received(sys.receipts, header)
    ensures Received(Run(sys, events).receipts, header)
    decreases |events|
  {
    if events != [] {
      var next := Step(sys, events[0]);
      assert sys.receipts <= next.receipts by {
        hide Encrypt, Decrypt;
      }
      var i :| 0 <= i < |sys.receipts| && sys.receipts[i].header == header;
      assert next.receipts[i].header == header;
      hide Step;
      ReceivedStays(next, events[1..], header);
    }
  }

  /** A delivery that takes the key of a message receives that message. */
  lemma TakeReceives(sys: System, e: Event, p: Party, j: nat, n: nat)
    requires Inv(sys) && Legal(sys, e) && IsSent(sys.log, j, n) && Accepts(sys, e, p)
    requires SlotOf(e.header) == SlotAt(sys.log, j, n)
    ensures e.header == sys.log.chains[j][n].header
    ensures Received(Step(sys, e).receipts, e.header)
  {
    var i, m := AcceptedIsGenuine(sys, p, e.header, e.ciphertext, e.newKey);
    HeaderOf(sys.log, i, m);
    SlotNamesMessage(sys.log, i, m, j, n);
    ReceivedOne(sys.receipts, Receipt(p, e.header, e.ciphertext, sys.log.chains[i][m].plaintext), e.header);
  }

  lemma SlotStays(sys: System, e: Event, j: nat, n: nat)
    requires Inv(sys) && Legal(sys, e) && IsSent(sys.log, j, n)
    ensures var next := Step(sys, e);
            && IsSent(next.log, j, n) && next.log.chains[j][n] == sys.log.chains[j][n]
            && SlotAt(next.log, j, n) == SlotAt(sys.log, j, n)
  {
    hide Inv, Step, Legal;
    StepKeepsInv(sys, e);
    SentStays(sys.log, Step(sys, e).log, j, n);
  }

  lemma OpsTake(s: Session, header: Header, slot: Slot)
    requires SlotOf(header) != slot
    ensures NeverTaken(slot, StoreOps(s, header))
  {
  }

  lemma NeverTakenConcat(slot: Slot, a: seq<Op>, b: seq<Op>)
    ensures NeverTaken(slot, a + b) <==> NeverTaken(slot, a) && NeverTaken(slot, b)
    ensures NeverTaken(slot, [])
  {
    if NeverTaken(slot, a + b) {
      forall i | 0 <= i < |a| ensures a[i] != Take(slot) {
        assert (a + b)[i] == a[i];
      }
      forall i | 0 <= i < |b| ensures b[i] != Take(slot) {
        assert (a + b)[|a| + i] == b[i];
      }
    }
  }

  /** A key is taken in a run only when its message is received. */
  lemma {:induction false} NotReceivedNotTaken(sys: System, events: seq<Event>, p: Party, j: nat, n: nat)
    requires Inv(sys) && LegalRun(sys, events) && IsSent(sys.log, j, n)
    requires !Received(Run(sys, events).receipts, sys.log.chains[j][n].header)
    ensures NeverTaken(SlotAt(sys.log, j, n), RunOps(sys, events, p))
    decreases |events|
  {
    if events != [] {
      assert Shaped(sys.log);
      var e, next, slot := events[0], Step(sys, events[0]), SlotAt(sys.log, j, n);
      hide Inv, Step, Legal, Accepts, StoreOps, Received, NeverTaken, SlotAt, SlotOf;
      NeverTakenConcat(slot, if Accepts(sys, e, p) then StoreOps(SessionOf(sys, p), e.header) else [],
                       RunOps(next, events[1..], p));
      StepKeepsInv(sys, e);
      SlotStays(sys, e, j, n);
      NotReceivedNotTaken(next, events[1..], p, j, n);
      if Accepts(sys, e, p) {
        if SlotOf(e.header) == slot {
          TakeReceives(sys, e, p, j, n);
          ReceivedStays(next, events[1..], e.header);
        } else {
          OpsTake(SessionOf(sys, p), e.header, slot);
        }
      }
    }
  }

  lemma {:induction false} SentStaysOverRun(sys: System, events: seq<Event>, j: nat, n: nat)
    requires Inv(sys) && LegalRun(sys, events) && IsSent(sys.log, j, n)
    ensures Inv(Run(sys, events)) && IsSent(Run(sys, events).log, j, n)
    ensures Run(sys, events).log.chains[j][n] == sys.log.chains[j][n]
    ensures SlotAt(Run(sys, events).log, j, n) == SlotAt(sys.log, j, n)
    decreases |events|
  {
    if events != [] {
      assert Shaped(sys.log);
      hide Inv, Step, Legal;
      StepKeepsInv(sys, events[0]);
      SlotStays(sys, events[0], j, n);
      SentStaysOverRun(Step(sys, events[0]), events[1..], j, n);
    }
  }

  // ------------------------------------------------------------------------ retention

  /** Retention in a conversation: from any reachable state on, a message whose key is stored stays decryptable until it
      is received, as long as the accepted deliveries jump over no more keys than its place in the store allows. */
  lemma RetainedOverRuns(sys: System, events: seq<Event>, p: Party, j: nat, n: nat, newKey: Bytes)
    requires Inv(sys) && LegalRun(sys, events) && IsSent(sys.log, j, n) && j % 2 != Parity(p)
    requires var store := SessionOf(sys, p).store;
             && |store| <= MAX_SKIPPED_KEYS && Find(store, SlotAt(sys.log, j, n)).Some?
             && JumpTotal(sys, events, p) <= Slack(store, SlotAt(sys.log, j, n))
    ensures var t, m := Run(sys, events), sys.log.chains[j][n];
            var result := Delivery(t, p, m.header, m.ciphertext, newKey);
            if Received(t.receipts, m.header) then result.Err? else result == Ok(m.plaintext)
  {
    assert Shaped(sys.log);
    hide Inv, LegalRun, Run, RunOps, ApplyAll, NewInsertions, Slack, Find, JumpTotal, NeverTaken, Received, Delivery;
    SentStaysOverRun(sys, events, j, n);
    var t, m, slot := Run(sys, events), sys.log.chains[j][n], SlotAt(sys.log, j, n);
    GenuineIffReady(t, p, j, n, newKey);
    if Received(t.receipts, m.header) {
      ReceivedNotReady(t, p, j, n);
    } else {
      var store, ops := SessionOf(sys, p).store, RunOps(sys, events, p);
      PartyFacts(sys, p);
      StoreDistinct(sys.log, sys.receipts, Turn(sys.log, p), SessionOf(sys, p).recvNumber, store);
      NotReceivedNotTaken(sys, events, p, j, n);
      FewNewInsertions(store, ops);
      RunOpsCount(sys, events, p);
      SurvivesWithinSlack(store, slot, ops);
      RunStores(sys, events, p);
      assert ReadyFor(t, p, j, n);
    }
  }

  lemma ReceivedNotReady(sys: System, p: Party, j: nat, n: nat)
    requires Inv(sys) && IsSent(sys.log, j, n) && j % 2 != Parity(p)
    requires Received(sys.receipts, sys.log.chains[j][n].header)
    ensures !ReadyFor(sys, p, j, n)
  {
    if ReadyFor(sys, p, j, n) {
      AcceptedNotReceived(sys, p, j, n);
    }
  }

  lemma {:induction false} LastPosition(store: Store)
    requires Distinct(store) && store != []
    ensures Position(store, store[|store| - 1].slot) == |store| - 1
  {
    if |store| > 1 {
      assert store[0].slot != store[|store| - 1].slot;
      LastPosition(store[1..]);
    }
  }

  /** The key stored last survives any further run that jumps over at most 999 keys. */
  lemma LastStoredRetainedFor999(secret: Bytes, bobKey: Bytes, aliceKey: Bytes, before: seq<Event>, events: seq<Event>,
                                 p: Party, j: nat, n: nat, newKey: Bytes)
    requires HonestRun(secret, bobKey, aliceKey, before)
    requires var sys := Final(secret, bobKey, aliceKey, before);
             var store := SessionOf(sys, p).store;
             && LegalRun(sys, events) && IsSent(sys.log, j, n) && j % 2 != Parity(p)
             && store != [] && store[|store| - 1].slot == SlotAt(sys.log, j, n)
             && JumpTotal(sys, events, p) <= MAX_SKIPPED_KEYS - 1
    ensures var sys := Final(secret, bobKey, aliceKey, before);
            var t, m := Run(sys, events), sys.log.chains[j][n];
            var result := Delivery(t, p, m.header, m.ciphertext, newKey);
            if Received(t.receipts, m.header) then result.Err? else result == Ok(m.plaintext)
  {
    hide Inv, LegalRun, Run, Received, Delivery, JumpTotal;
    FinalInv(secret, bobKey, aliceKey, before);
    var sys := Final(secret, bobKey, aliceKey, before);
    var store := SessionOf(sys, p).store;
    PartyFacts(sys, p);
    StoreDistinct(sys.log, sys.receipts, Turn(sys.log, p), SessionOf(sys, p).recvNumber, store);
    LastPosition(store);
    FindIndex(store, |store| - 1);
    RetainedOverRuns(sys, events, p, j, n, newKey);
  }
}
