/** Every step of the two-party system keeps the two sessions in lockstep. */
module Lockstep {
  import opened Wrappers
  import opened ByteText
  import opened SymbolicCrypto
  import opened MessageHeader
  import opened SkippedKeys
  import opened RatchetSession
  import opened TwoParty
  import opened Acceptance

  // ------------------------------------------------------- what catching up stores

  lemma {:induction false} PutAllFinds(store: Store, entries: seq<Entry>, slot: Slot)
    requires Bounded(store)
    ensures Bounded(PutAll(store, entries))
    ensures var found := Find(PutAll(store, entries), slot);
            found.Some? ==> found == Find(store, slot) || Entry(slot, found.value) in entries
  {
    if entries != [] {
      var last, before := entries[|entries| - 1], entries[..|entries| - 1];
      PutAllFinds(store, before, slot);
      PutBounded(PutAll(store, before), last.slot, last.key);
      FindPut(PutAll(store, before), last.slot, last.key, slot);
    }
  }

  lemma SkippedFinds(store: Store, dhHex: Bytes, chain: ChainKey, from: nat, count: nat, slot: Slot)
    requires Bounded(store)
    ensures Bounded(PutAll(store, ConsecutiveKeys(dhHex, chain, from, count)))
    ensures var found := Find(PutAll(store, ConsecutiveKeys(dhHex, chain, from, count)), slot);
            found.Some? ==>
              || found == Find(store, slot)
              || (slot.dhHex == dhHex && from <= slot.number < from + count
                  && found.value == KeyAt(chain, slot.number - from))
  {
    PutAllFinds(store, ConsecutiveKeys(dhHex, chain, from, count), slot);
  }

  /** The state after a success on the receiving chain. */
  function AfterCurrent(s: Session, n: nat): Session
    requires s.receivingChain.Some? && n >= s.recvNumber
  {
    s.(store := PutAll(s.store, ConsecutiveKeys(RemoteHex(s), s.receivingChain.value, s.recvNumber, n - s.recvNumber)),
       receivingChain := Some(Advance(s.receivingChain.value, n - s.recvNumber + 1)),
       recvNumber := n + 1)
  }

  lemma ReceiveCurrentAfter(s: Session, header: Header, ciphertext: Ciphertext)
    requires header.messageNumber >= s.recvNumber && ReceiveCurrent(s, header, ciphertext).result.Ok?
    ensures s.receivingChain.Some?
    ensures ReceiveCurrent(s, header, ciphertext).after == AfterCurrent(s, header.messageNumber)
  {
  }

  /** The old receiving chain, completed up to the announced length. */
  function Completed(s: Session, length: nat): Session
    requires length >= s.recvNumber
  {
    if s.receivingChain.None? then s
    else
      s.(store := PutAll(s.store, ConsecutiveKeys(RemoteHex(s), s.receivingChain.value, s.recvNumber,
          length - s.recvNumber)),
         receivingChain := Some(Advance(s.receivingChain.value, length - s.recvNumber)),
         recvNumber := length)
  }

  // ------------------------------------------------------------- growing the log

  ghost predicate Extends(log: Log, more: Log) {
    && Shaped(log) && Shaped(more)
    && log.secret == more.secret
    && log.keys <= more.keys
    && forall j :: 0 <= j < |log.chains| ==> log.chains[j] <= more.chains[j]
  }

  lemma SentStays(log: Log, more: Log, j: nat, n: nat)
    requires Extends(log, more) && IsSent(log, j, n)
    ensures IsSent(more, j, n) && more.chains[j][n] == log.chains[j][n]
  {
    assert log.chains[j] <= more.chains[j];
  }

  lemma LogWithMessage(log: Log, g: nat, m: Sent)
    requires LogOk(log) && 0 < g < |log.keys| <= g + 2
    requires MessageOk(RecordSent(log, g, m), g, |log.chains[g]|)
    ensures LogOk(RecordSent(log, g, m)) && Extends(log, RecordSent(log, g, m))
  {
    var more := RecordSent(log, g, m);
    forall j: nat, n: nat | IsSent(more, j, n) ensures MessageOk(more, j, n) {
      if !(j == g && n == |log.chains[g]|) {
        assert MessageOk(log, j, n);
        RootPrefix(log, more, j);
      }
    }
  }

  lemma LogWithKey(log: Log, key: Bytes)
    requires LogOk(log) && |key| == 32 && key !in log.keys
    ensures LogOk(RecordKey(log, key)) && Extends(log, RecordKey(log, key))
  {
    var more := RecordKey(log, key);
    forall j: nat, n: nat | IsSent(more, j, n) ensures MessageOk(more, j, n) {
      assert j < |log.keys|;
      assert MessageOk(log, j, n);
      RootPrefix(log, more, j);
    }
  }

  // ------------------------------------------------------------ what is unaffected

  lemma InStepStays(log: Log, more: Log, g: nat, s: Session)
    requires Extends(log, more) && g < |log.keys| && InStep(log, g, s)
    requires |more.chains[g]| == |log.chains[g]| && PreviousLength(more, g) == PreviousLength(log, g)
    ensures InStep(more, g, s)
  {
    RootPrefix(log, more, g);
    if g > 0 {
      RootPrefix(log, more, g - 1);
      assert log.chains[g - 1] <= more.chains[g - 1];
    }
  }

  lemma ReceivedOne(receipts: seq<Receipt>, r: Receipt, header: Header)
    ensures Received(receipts + [r], header) <==> Received(receipts, header) || r.header == header
  {
    var more := receipts + [r];
    assert more[|receipts|] == r;
    if Received(receipts, header) {
      var i :| 0 <= i < |receipts| && receipts[i].header == header;
      assert more[i].header == header;
    }
  }

  lemma StoredStays(log: Log, more: Log, receipts: seq<Receipt>, r: Receipt,
                    g: nat, g': nat, recv: nat, recv': nat, j: nat, slot: Slot, key: MessageKey)
    requires Extends(log, more) && StoredFor(log, receipts, g, recv, j, slot, key)
    requires (g' == g && recv <= recv') || g' == g + 2
    ensures StoredFor(more, receipts, g', recv', j, slot, key)
    ensures log.chains[j][slot.number].header != r.header ==>
              StoredFor(more, receipts + [r], g', recv', j, slot, key)
  {
    SentStays(log, more, j, slot.number);
    RootPrefix(log, more, j);
    ReceivedOne(receipts, r, log.chains[j][slot.number].header);
  }

  /** A stored key stays accounted for when the log grows, the receiver moves on, and another message is received. */
  lemma HeldStays(log: Log, more: Log, receipts: seq<Receipt>,
                  g: nat, g': nat, recv: nat, recv': nat, store: Store, slot: Slot)
    requires Extends(log, more) && StoreOk(log, receipts, g, recv, store) && Find(store, slot).Some?
    requires (g' == g && recv <= recv') || g' == g + 2
    ensures exists j: nat :: StoredFor(more, receipts, g', recv', j, slot, Find(store, slot).value)
  {
    var key := Find(store, slot).value;
    var j: nat :| StoredFor(log, receipts, g, recv, j, slot, key);
    StoredStays(log, more, receipts, Receipt(Alice, log.chains[j][slot.number].header, Garbage([]), []),
                g, g', recv, recv', j, slot, key);
  }

  lemma HeldStaysAfter(log: Log, more: Log, receipts: seq<Receipt>, r: Receipt, i: nat, n: nat,
                       g: nat, recv: nat, recv': nat, store: Store, slot: Slot)
    requires LogOk(log) && Extends(log, more) && StoreOk(log, receipts, g, recv, store) && Find(store, slot).Some?
    requires IsSent(log, i, n) && r.header == log.chains[i][n].header && recv <= recv'
    requires i % 2 == g % 2 || slot != SlotAt(log, i, n)
    ensures exists j: nat :: StoredFor(more, receipts + [r], g, recv', j, slot, Find(store, slot).value)
  {
    var key := Find(store, slot).value;
    var j: nat :| StoredFor(log, receipts, g, recv, j, slot, key);
    if log.chains[j][slot.number].header == r.header {
      HeadersDiffer(log, j, slot.number, i, n);
    }
    StoredStays(log, more, receipts, r, g, g, recv, recv', j, slot, key);
  }

  lemma StoreStays(log: Log, more: Log, receipts: seq<Receipt>, g: nat, g': nat, recv: nat, recv': nat, store: Store)
    requires Extends(log, more) && StoreOk(log, receipts, g, recv, store)
    requires (g' == g && recv <= recv') || g' == g + 2
    ensures StoreOk(more, receipts, g', recv', store)
  {
    forall slot | Find(store, slot).Some?
      ensures exists j: nat :: StoredFor(more, receipts, g', recv', j, slot, Find(store, slot).value)
    {
      HeldStays(log, more, receipts, g, g', recv, recv', store, slot);
    }
  }

  /** A receipt for a message no stored key belongs to keeps the store right: another party's message, or one
      whose key is not held. */
  lemma StoreAfterReceipt(log: Log, more: Log, receipts: seq<Receipt>, r: Receipt, i: nat, n: nat,
                          g: nat, recv: nat, recv': nat, store: Store)
    requires LogOk(log) && Extends(log, more) && StoreOk(log, receipts, g, recv, store)
    requires IsSent(log, i, n) && r.header == log.chains[i][n].header && recv <= recv'
    requires i % 2 == g % 2 || Find(store, SlotAt(log, i, n)).None?
    ensures StoreOk(more, receipts + [r], g, recv', store)
  {
    forall slot | Find(store, slot).Some?
      ensures exists j: nat :: StoredFor(more, receipts + [r], g, recv', j, slot, Find(store, slot).value)
    {
      HeldStaysAfter(log, more, receipts, r, i, n, g, recv, recv', store, slot);
    }
  }

  // ------------------------------------------------- the receiver's store afterwards

  /** Taking a key leaves only keys of other messages. */
  lemma StoreAfterTake(log: Log, receipts: seq<Receipt>, g: nat, recv: nat, store: Store, taken: Slot)
    requires Shaped(log) && StoreOk(log, receipts, g, recv, store)
    ensures StoreOk(log, receipts, g, recv, Without(store, taken))
    ensures Find(Without(store, taken), taken).None?
  {
    WithoutShrinks(store, taken);
    FindWithout(store, taken, taken);
    forall slot | Find(Without(store, taken), slot).Some?
      ensures exists j: nat :: StoredFor(log, receipts, g, recv, j, slot, Find(Without(store, taken), slot).value)
    {
      FindWithout(store, taken, slot);
    }
  }

  /** Nothing ahead of the receiver has been received. */
  ghost predicate AheadUnreceived(log: Log, receipts: seq<Receipt>, g: nat, recv: nat) {
    forall j: nat, n: nat :: IsSent(log, j, n) && j % 2 != g % 2 && !Behind(log, g, recv, j, n) ==>
      !Received(receipts, log.chains[j][n].header)
  }

  /** A key stored while jumping forward on chain `i` belongs to a message that was not received. */
  lemma SkippedStored(log: Log, more: Log, receipts: seq<Receipt>, g: nat, g': nat, recv: nat, recv': nat,
                      i: nat, from: nat, upTo: nat, slot: Slot)
    requires LogOk(log) && Extends(log, more) && AheadUnreceived(log, receipts, g, recv)
    requires 0 < i < g' && i < |log.keys| && i % 2 != g % 2 == g' % 2 && upTo <= |log.chains[i]|
    requires i >= g - 1 && (i == g - 1 ==> recv <= from) && (i == g' - 1 ==> upTo <= recv')
    requires slot.dhHex == HexEncode(log.keys[i]) && from <= slot.number < upTo
    ensures StoredFor(more, receipts, g', recv', i, slot, KeyAt(Advance(SeedAt(log, i), from), slot.number - from))
  {
    AdvanceAdds(SeedAt(log, i), from, slot.number - from);
    RootPrefix(log, more, i);
    SentStays(log, more, i, slot.number);
    assert !Behind(log, g, recv, i, slot.number);
  }

  /** The keys of chain `i` from one position up to another. */
  function KeysOfChain(log: Log, i: nat, from: nat, upTo: nat): seq<Entry>
    requires 0 < i < |log.keys| && from <= upTo
  {
    ConsecutiveKeys(HexEncode(log.keys[i]), Advance(SeedAt(log, i), from), from, upTo - from)
  }

  lemma ChainFinds(log: Log, i: nat, from: nat, upTo: nat, store: Store, slot: Slot)
    requires 0 < i < |log.keys| && from <= upTo && Bounded(store)
    ensures Bounded(PutAll(store, KeysOfChain(log, i, from, upTo)))
    ensures var found := Find(PutAll(store, KeysOfChain(log, i, from, upTo)), slot);
            found.Some? ==>
              || found == Find(store, slot)
              || (slot.dhHex == HexEncode(log.keys[i]) && from <= slot.number < upTo
                  && found.value == KeyAt(Advance(SeedAt(log, i), from), slot.number - from))
  {
    SkippedFinds(store, HexEncode(log.keys[i]), Advance(SeedAt(log, i), from), from, upTo - from, slot);
  }

  lemma HeldAfterSkip(log: Log, more: Log, receipts: seq<Receipt>, g: nat, g': nat, recv: nat, recv': nat,
                      store: Store, store': Store, i: nat, from: nat, upTo: nat, slot: Slot)
    requires LogOk(log) && Extends(log, more) && StoreOk(log, receipts, g, recv, store)
    requires AheadUnreceived(log, receipts, g, recv)
    requires (g' == g && recv <= recv') || g' == g + 2
    requires 0 < i < g' && i < |log.keys| && i % 2 != g % 2 && from <= upTo <= |log.chains[i]|
    requires i >= g - 1 && (i == g - 1 ==> recv <= from) && (i == g' - 1 ==> upTo <= recv')
    requires Find(store', slot).Some?
    requires || Find(store', slot) == Find(store, slot)
             || (slot.dhHex == HexEncode(log.keys[i]) && from <= slot.number < upTo
                 && Find(store', slot).value == KeyAt(Advance(SeedAt(log, i), from), slot.number - from))
    ensures exists j: nat :: StoredFor(more, receipts, g', recv', j, slot, Find(store', slot).value)
  {
    assert Shaped(more);
    hide Find, LogOk, Extends, AheadUnreceived, Advance, HexEncode, StoreOk, StoredFor, SeedAt;
    if Find(store', slot) == Find(store, slot) {
      HeldStays(log, more, receipts, g, g', recv, recv', store, slot);
    } else {
      SkippedStored(log, more, receipts, g, g', recv, recv', i, from, upTo, slot);
    }
  }

  /** Jumping forward on chain `i` stores keys of messages that were not received. */
  lemma StoreAfterSkip(log: Log, more: Log, receipts: seq<Receipt>, g: nat, g': nat, recv: nat, recv': nat,
                       store: Store, i: nat, from: nat, upTo: nat)
    requires LogOk(log) && Extends(log, more) && StoreOk(log, receipts, g, recv, store)
    requires AheadUnreceived(log, receipts, g, recv)
    requires (g' == g && recv <= recv') || g' == g + 2
    requires 0 < i < g' && i < |log.keys| && i % 2 != g % 2 && from <= upTo <= |log.chains[i]|
    requires i >= g - 1 && (i == g - 1 ==> recv <= from) && (i == g' - 1 ==> upTo <= recv')
    ensures StoreOk(more, receipts, g', recv', PutAll(store, KeysOfChain(log, i, from, upTo)))
  {
    assert Shaped(more) && Bounded(store);
    hide PutAll, KeysOfChain, Find, LogOk, Extends, AheadUnreceived, Advance, HexEncode, Bounded, StoredFor, SeedAt;
    var store' := PutAll(store, KeysOfChain(log, i, from, upTo));
    ChainFinds(log, i, from, upTo, store, SlotAt(log, i, 0));
    forall slot | Find(store', slot).Some?
      ensures exists j: nat :: StoredFor(more, receipts, g', recv', j, slot, Find(store', slot).value)
    {
      ChainFinds(log, i, from, upTo, store, slot);
      HeldAfterSkip(log, more, receipts, g, g', recv, recv', store, store', i, from, upTo, slot);
    }
  }
}
