/** A key that was stored for a message jumped over is lost in one way only: the store overflows. Which keys an accepted
    delivery evicts can be told before the call, from the session and the header. */
module Eviction {
  import opened Wrappers
  import opened ByteText
  import opened SymbolicCrypto
  import opened MessageHeader
  import opened SkippedKeys
  import opened RatchetSession
  import opened TwoParty
  import opened Acceptance
  import opened Lockstep
  import opened SystemInvariant

  // ------------------------------------------------------ insertions, all at once

  /** The last 1000 entries. */
  function Newest(entries: seq<Entry>): Store {
    if |entries| <= MAX_SKIPPED_KEYS then entries else entries[|entries| - MAX_SKIPPED_KEYS..]
  }

  function SlotsOf(entries: seq<Entry>): (slots: seq<Slot>)
    ensures |slots| == |entries|
  {
    seq(|entries|, i requires 0 <= i < |entries| => entries[i].slot)
  }

  /** What does not fit: all but the last 1000. */
  function Dropped(slots: seq<Slot>): set<Slot> {
    set i | 0 <= i < |slots| - MAX_SKIPPED_KEYS :: slots[i]
  }

  predicate HasSlot(entries: seq<Entry>, slot: Slot) {
    exists i :: 0 <= i < |entries| && entries[i].slot == slot
  }

  lemma PutNewest(all: seq<Entry>, entry: Entry)
    requires Distinct(all + [entry])
    ensures Put(Newest(all), entry.slot, entry.key) == Newest(all + [entry])
  {
    var more, newest := all + [entry], Newest(all);
    FindMember(newest, entry.slot);
    assert more[|all|] == entry;
    forall i | 0 <= i < |newest| ensures newest[i].slot != entry.slot {
      var k := i + |all| - |newest|;
      assert more[k] == newest[i];
    }
    if |all| >= MAX_SKIPPED_KEYS {
      assert newest[1..] + [entry] == Newest(more);
    } else {
      assert newest + [entry] == Newest(more);
    }
  }

  /** Inserting keys with new slots one after the other leaves the last 1000 of the old entries followed by the new. */
  lemma {:induction false} PutAllIsNewest(store: Store, entries: seq<Entry>)
    requires |store| <= MAX_SKIPPED_KEYS && Distinct(store + entries)
    ensures PutAll(store, entries) == Newest(store + entries)
  {
    if entries == [] {
      assert store + entries == store;
    } else {
      var last, before := entries[|entries| - 1], entries[..|entries| - 1];
      var all := store + before;
      assert store + entries == all + [last];
      forall i, k | 0 <= i < k < |all| ensures all[i].slot != all[k].slot {
        assert (all + [last])[i] == all[i] && (all + [last])[k] == all[k];
      }
      PutAllIsNewest(store, before);
      PutNewest(all, last);
    }
  }

  lemma {:induction false} PutAllConcat(store: Store, a: seq<Entry>, b: seq<Entry>)
    ensures PutAll(store, a + b) == PutAll(PutAll(store, a), b)
    decreases |b|
  {
    if b == [] {
      assert a + b == a;
    } else {
      var last, before := b[|b| - 1], b[..|b| - 1];
      assert a + b == (a + before) + [last] && b == before + [last];
      PutAllSnoc(store, a + before, last);
      PutAllSnoc(PutAll(store, a), before, last);
      PutAllConcat(store, a, before);
    }
  }

  lemma NewestDistinct(all: seq<Entry>)
    requires Distinct(all)
    ensures Bounded(Newest(all))
  {
    var newest := Newest(all);
    forall i, k | 0 <= i < k < |newest| ensures newest[i].slot != newest[k].slot {
      assert newest[i] == all[i + |all| - |newest|] && newest[k] == all[k + |all| - |newest|];
    }
  }

  lemma FindNewest(all: seq<Entry>, slot: Slot)
    requires Distinct(all)
    ensures Find(Newest(all), slot).Some? <==> HasSlot(all, slot) && slot !in Dropped(SlotsOf(all))
  {
    var newest := Newest(all);
    var cut := |all| - |newest|;
    NewestDistinct(all);
    if HasSlot(all, slot) {
      var i :| 0 <= i < |all| && all[i].slot == slot;
      assert SlotsOf(all)[i] == slot;
      if i >= cut {
        assert newest[i - cut] == all[i];
        FindIndex(newest, i - cut);
      } else {
        FindMember(newest, slot);
      }
    } else {
      FindMember(newest, slot);
    }
  }

  /** Which keys are there after an insertion of many with new slots. */
  lemma PutAllExact(store: Store, entries: seq<Entry>, slot: Slot)
    requires Bounded(store) && Distinct(store + entries)
    ensures Bounded(PutAll(store, entries))
    ensures Find(PutAll(store, entries), slot).Some? <==>
            (Find(store, slot).Some? || HasSlot(entries, slot)) && slot !in Dropped(SlotsOf(store + entries))
  {
    var all := store + entries;
    PutAllIsNewest(store, entries);
    NewestDistinct(all);
    FindNewest(all, slot);
    HasSlotConcat(store, entries, slot);
    FindIsHasSlot(store, slot);
  }

  lemma HasSlotConcat(a: seq<Entry>, b: seq<Entry>, slot: Slot)
    ensures HasSlot(a + b, slot) <==> HasSlot(a, slot) || HasSlot(b, slot)
  {
    if HasSlot(a, slot) {
      var i :| 0 <= i < |a| && a[i].slot == slot;
      assert (a + b)[i].slot == slot;
    }
    if HasSlot(b, slot) {
      var i :| 0 <= i < |b| && b[i].slot == slot;
      assert (a + b)[|a| + i].slot == slot;
    }
  }

  lemma FindIsHasSlot(store: Store, slot: Slot)
    ensures Find(store, slot).Some? <==> HasSlot(store, slot)
  {
    FindMember(store, slot);
  }

  // ------------------------------------------------- what a delivery would evict

  function Gap(s: Session, until: nat): nat {
    if s.receivingChain.None? || until < s.recvNumber then 0 else until - s.recvNumber
  }

  /** How many keys a delivery with this header stores, as a caller can tell beforehand. */
  function SkipCount(s: Session, header: Header): nat {
    if Find(s.store, SlotOf(header)).Some? then 0
    else if s.dhRemote == Some(header.dhPublic) then Gap(s, header.messageNumber)
    else Gap(s, header.previousChainLength) + header.messageNumber
  }

  function ConsecutiveSlots(dhHex: Bytes, from: nat, count: nat): (slots: seq<Slot>)
    ensures |slots| == count
  {
    seq(count, i requires 0 <= i < count => Slot(dhHex, from + i))
  }

  /** The slots it stores them in, in order. */
  function JumpedSlots(s: Session, header: Header): (slots: seq<Slot>)
    ensures |slots| == SkipCount(s, header)
  {
    if Find(s.store, SlotOf(header)).Some? then []
    else if s.dhRemote == Some(header.dhPublic) then
      ConsecutiveSlots(RemoteHex(s), s.recvNumber, Gap(s, header.messageNumber))
    else
      ConsecutiveSlots(RemoteHex(s), s.recvNumber, Gap(s, header.previousChainLength))
      + ConsecutiveSlots(HexEncode(header.dhPublic), 0, header.messageNumber)
  }

  /** Its place among the old keys followed by the jumped ones is too far from the end: below |store| + SkipCount -
      1000. */
  function EvictedBy(s: Session, header: Header): set<Slot> {
    Dropped(SlotsOf(s.store) + JumpedSlots(s, header))
  }

  /** What one event evicts from a party's store: an accepted delivery to that party what `EvictedBy` says, any other
      event nothing. */
  function EvictedAt(sys: System, e: Event, p: Party): set<Slot> {
    if e.Deliver? && e.party == p && Delivery(sys, p, e.header, e.ciphertext, e.newKey).Ok? then
      EvictedBy(SessionOf(sys, p), e.header)
    else {}
  }

  /** The slots a run evicts from a party's store. */
  function Evicted(sys: System, events: seq<Event>, p: Party): set<Slot>
    requires Shaped(sys.log)
    decreases |events|
  {
    if events == [] then {} else EvictedAt(sys, events[0], p) + Evicted(Step(sys, events[0]), events[1..], p)
  }

  // ----------------------------------------------------------------- the invariant

  /** Of the messages the receiver passed by and has not received, exactly those not evicted have their key stored. */
  ghost predicate Kept(log: Log, receipts: seq<Receipt>, g: nat, recv: nat, store: Store, gone: set<Slot>)
    requires Shaped(log)
  {
    forall j: nat, n: nat :: Behind(log, g, recv, j, n) && !Received(receipts, log.chains[j][n].header) ==>
      (Find(store, SlotAt(log, j, n)).Some? <==> SlotAt(log, j, n) !in gone)
  }

  predicate BehindSlot(log: Log, g: nat, recv: nat, j: nat, slot: Slot)
    requires Shaped(log)
  {
    Behind(log, g, recv, j, slot.number) && slot == SlotAt(log, j, slot.number)
  }

  /** Only keys of messages passed by can have been evicted. */
  ghost predicate GoneBehind(log: Log, g: nat, recv: nat, gone: set<Slot>)
    requires Shaped(log)
  {
    forall slot :: slot in gone ==> exists j: nat :: BehindSlot(log, g, recv, j, slot)
  }

  ghost predicate KeptFor(sys: System, p: Party, gone: set<Slot>)
    requires Shaped(sys.log)
  {
    var s, g := SessionOf(sys, p), Turn(sys.log, p);
    Kept(sys.log, sys.receipts, g, s.recvNumber, s.store, gone) && GoneBehind(sys.log, g, s.recvNumber, gone)
  }

  lemma SlotNamesMessage(log: Log, i: nat, m: nat, j: nat, n: nat)
    requires KeysOk(log.keys) && i < |log.keys| && j < |log.keys| && SlotAt(log, i, m) == SlotAt(log, j, n)
    ensures i == j && m == n
  {
    assert HexDecode(HexEncode(log.keys[j])) == HexDecode(HexEncode(log.keys[i]));
  }

  /** What was behind stays behind. */
  ghost predicate Grows(log: Log, more: Log, g: nat, recv: nat, g': nat, recv': nat) {
    && Shaped(log) && Shaped(more) && log.keys <= more.keys
    && forall j: nat, n: nat :: Behind(log, g, recv, j, n) ==>
        Behind(more, g', recv', j, n) && more.chains[j][n] == log.chains[j][n]
  }

  lemma GoneStays(log: Log, more: Log, g: nat, recv: nat, g': nat, recv': nat, gone: set<Slot>)
    requires Grows(log, more, g, recv, g', recv') && GoneBehind(log, g, recv, gone)
    ensures GoneBehind(more, g', recv', gone)
  {
    forall slot | slot in gone ensures exists j: nat :: BehindSlot(more, g', recv', j, slot) {
      var j: nat :| BehindSlot(log, g, recv, j, slot);
      assert BehindSlot(more, g', recv', j, slot);
    }
  }

  /** Nothing passes the receiver by, and what is received besides was not sent to it. */
  lemma KeptStays(log: Log, more: Log, receipts: seq<Receipt>, receipts': seq<Receipt>, g: nat, recv: nat, store: Store,
                  gone: set<Slot>)
    requires Grows(log, more, g, recv, g, recv) && Kept(log, receipts, g, recv, store, gone)
    requires forall j: nat, n: nat :: Behind(more, g, recv, j, n) ==> Behind(log, g, recv, j, n)
    requires forall header :: Received(receipts, header) ==> Received(receipts', header)
    ensures Kept(more, receipts', g, recv, store, gone)
  {
    forall j: nat, n: nat | Behind(more, g, recv, j, n) && !Received(receipts', more.chains[j][n].header)
      ensures Find(store, SlotAt(more, j, n)).Some? <==> SlotAt(more, j, n) !in gone
    {
      assert Behind(log, g, recv, j, n) && SlotAt(more, j, n) == SlotAt(log, j, n);
    }
  }

  // ------------------------------------------------------------------ jumping ahead

  /** The message was ahead of the receiver and is behind it now. */
  predicate Passed(log: Log, more: Log, g: nat, recv: nat, g': nat, recv': nat, j: nat, slot: Slot)
    requires Shaped(more)
  {
    BehindSlot(more, g', recv', j, slot) && !Behind(log, g, recv, j, slot.number)
  }

  ghost predicate PassedBy(log: Log, more: Log, g: nat, recv: nat, g': nat, recv': nat, slot: Slot)
    requires Shaped(more)
  {
    exists j: nat :: Passed(log, more, g, recv, g', recv', j, slot)
  }

  ghost predicate Jump(log: Log, more: Log, g: nat, recv: nat, g': nat, recv': nat, entries: seq<Entry>)
    requires Shaped(more)
  {
    && Distinct(entries)
    && forall i :: 0 <= i < |entries| ==> PassedBy(log, more, g, recv, g', recv', entries[i].slot)
  }

  /** Every message passed now is one of the jumped ones or the one received. */
  ghost predicate JumpsAll(log: Log, more: Log, g: nat, recv: nat, g': nat, recv': nat, entries: seq<Entry>, r: Header)
    requires Shaped(more)
  {
    forall j: nat, n: nat :: Behind(more, g', recv', j, n) ==>
      Behind(log, g, recv, j, n) || HasSlot(entries, SlotAt(more, j, n)) || more.chains[j][n].header == r
  }

  lemma JumpIsNew(log: Log, more: Log, receipts: seq<Receipt>, g: nat, recv: nat, g': nat, recv': nat, store: Store,
                  entries: seq<Entry>, i: nat, k: nat)
    requires Shaped(log) && Shaped(more) && KeysOk(more.keys) && log.keys <= more.keys
    requires StoreOk(log, receipts, g, recv, store) && Jump(log, more, g, recv, g', recv', entries)
    requires i < |store| && k < |entries|
    ensures store[i].slot != entries[k].slot
  {
    FindIndex(store, i);
    var slot := store[i].slot;
    var a: nat :| StoredFor(log, receipts, g, recv, a, slot, Find(store, slot).value);
    assert PassedBy(log, more, g, recv, g', recv', entries[k].slot);
    var b: nat :| Passed(log, more, g, recv, g', recv', b, entries[k].slot);
    if slot == entries[k].slot {
      SlotNamesMessage(more, a, slot.number, b, slot.number);
    }
  }

  lemma JumpDistinct(log: Log, more: Log, receipts: seq<Receipt>, g: nat, recv: nat, g': nat, recv': nat, store: Store,
                     entries: seq<Entry>)
    requires Shaped(log) && Shaped(more) && KeysOk(more.keys) && log.keys <= more.keys
    requires StoreOk(log, receipts, g, recv, store) && Jump(log, more, g, recv, g', recv', entries)
    ensures Distinct(store + entries)
  {
    var all := store + entries;
    hide StoreOk, KeysOk;
    forall i, k | 0 <= i < k < |all| ensures all[i].slot != all[k].slot {
      if k < |store| {
        StoreDistinct(log, receipts, g, recv, store);
      } else if i < |store| {
        JumpIsNew(log, more, receipts, g, recv, g', recv', store, entries, i, k - |store|);
      }
    }
  }

  lemma StoreDistinct(log: Log, receipts: seq<Receipt>, g: nat, recv: nat, store: Store)
    requires Shaped(log) && StoreOk(log, receipts, g, recv, store)
    ensures Bounded(store)
  {
  }

  /** After a jump, exactly the keys pushed out of the store are gone besides those that were gone before. */
  lemma KeptAfterJump(log: Log, more: Log, receipts: seq<Receipt>, r: Receipt, g: nat, recv: nat, g': nat, recv': nat,
                      store: Store, gone: set<Slot>, entries: seq<Entry>)
    requires Grows(log, more, g, recv, g', recv') && KeysOk(more.keys)
    requires StoreOk(log, receipts, g, recv, store)
    requires Kept(log, receipts, g, recv, store, gone) && GoneBehind(log, g, recv, gone)
    requires Jump(log, more, g, recv, g', recv', entries)
    requires JumpsAll(log, more, g, recv, g', recv', entries, r.header)
    ensures Kept(more, receipts + [r], g', recv', PutAll(store, entries), gone + Dropped(SlotsOf(store + entries)))
  {
    JumpDistinct(log, more, receipts, g, recv, g', recv', store, entries);
    StoreDistinct(log, receipts, g, recv, store);
    forall j: nat, n: nat | Behind(more, g', recv', j, n) && !Received(receipts + [r], more.chains[j][n].header)
      ensures Find(PutAll(store, entries), SlotAt(more, j, n)).Some? <==>
              SlotAt(more, j, n) !in gone + Dropped(SlotsOf(store + entries))
    {
      var slot := SlotAt(more, j, n);
      ReceivedOne(receipts, r, more.chains[j][n].header);
      hide Find, PutAll, Dropped, SlotsOf, HasSlot, Distinct, Bounded;
      PutAllExact(store, entries, slot);
      if Behind(log, g, recv, j, n) {
        OldIsNotJumped(log, more, g, recv, g', recv', entries, j, n);
      } else {
        NewIsNotGone(log, more, g, recv, gone, j, n);
      }
    }
  }

  lemma OldIsNotJumped(log: Log, more: Log, g: nat, recv: nat, g': nat, recv': nat, entries: seq<Entry>, j: nat, n: nat)
    requires Grows(log, more, g, recv, g', recv') && KeysOk(more.keys)
    requires Jump(log, more, g, recv, g', recv', entries) && Behind(log, g, recv, j, n)
    ensures !HasSlot(entries, SlotAt(more, j, n)) && SlotAt(more, j, n) == SlotAt(log, j, n)
  {
    forall k | 0 <= k < |entries| ensures entries[k].slot != SlotAt(more, j, n) {
      var slot := entries[k].slot;
      assert PassedBy(log, more, g, recv, g', recv', slot);
      var b: nat :| Passed(log, more, g, recv, g', recv', b, slot);
      if slot == SlotAt(more, j, n) {
        SlotNamesMessage(more, b, slot.number, j, n);
      }
    }
  }

  lemma NewIsNotGone(log: Log, more: Log, g: nat, recv: nat, gone: set<Slot>, j: nat, n: nat)
    requires Shaped(log) && Shaped(more) && log.keys <= more.keys && KeysOk(more.keys)
    requires GoneBehind(log, g, recv, gone) && j < |more.keys| && !Behind(log, g, recv, j, n)
    ensures SlotAt(more, j, n) !in gone
  {
    var slot := SlotAt(more, j, n);
    if slot in gone {
      var i: nat :| BehindSlot(log, g, recv, i, slot);
      SlotNamesMessage(more, i, slot.number, j, n);
    }
  }

  /** What a jump evicts is behind the receiver too. */
  lemma GoneAfterJump(log: Log, more: Log, receipts: seq<Receipt>, g: nat, recv: nat, g': nat, recv': nat, store: Store,
                      gone: set<Slot>, entries: seq<Entry>)
    requires Grows(log, more, g, recv, g', recv') && GoneBehind(log, g, recv, gone)
    requires StoreOk(log, receipts, g, recv, store) && Jump(log, more, g, recv, g', recv', entries)
    ensures GoneBehind(more, g', recv', gone + Dropped(SlotsOf(store + entries)))
  {
    GoneStays(log, more, g, recv, g', recv', gone);
    var all := store + entries;
    forall slot | slot in Dropped(SlotsOf(all)) ensures exists j: nat :: BehindSlot(more, g', recv', j, slot) {
      var i :| 0 <= i < |all| && slot == all[i].slot;
      if i < |store| {
        FindIndex(store, i);
        var j: nat :| StoredFor(log, receipts, g, recv, j, slot, Find(store, slot).value);
        assert BehindSlot(more, g', recv', j, slot);
      } else {
        assert PassedBy(log, more, g, recv, g', recv', entries[i - |store|].slot);
        var j: nat :| Passed(log, more, g, recv, g', recv', j, entries[i - |store|].slot);
        assert BehindSlot(more, g', recv', j, slot);
      }
    }
  }

  // ------------------------------------------------------------------ case by case

  lemma KeptAfterTake(log: Log, receipts: seq<Receipt>, r: Receipt, g: nat, recv: nat, store: Store, gone: set<Slot>,
                      j: nat, n: nat)
    requires LogOk(log) && Kept(log, receipts, g, recv, store, gone) && Bounded(store)
    requires IsSent(log, j, n) && r.header == log.chains[j][n].header
    ensures Kept(log, receipts + [r], g, recv, Without(store, SlotAt(log, j, n)), gone)
  {
    var taken := SlotAt(log, j, n);
    forall i: nat, m: nat | Behind(log, g, recv, i, m) && !Received(receipts + [r], log.chains[i][m].header)
      ensures Find(Without(store, taken), SlotAt(log, i, m)).Some? <==> SlotAt(log, i, m) !in gone
    {
      ReceivedOne(receipts, r, log.chains[i][m].header);
      FindWithout(store, taken, SlotAt(log, i, m));
      if SlotAt(log, i, m) == taken {
        SlotNamesMessage(log, i, m, j, n);
      }
    }
  }

  lemma ChainKeysAre(log: Log, i: nat, from: nat, upTo: nat)
    requires 0 < i < |log.keys| && from <= upTo
    ensures var entries := KeysOfChain(log, i, from, upTo);
            && SlotsOf(entries) == ConsecutiveSlots(HexEncode(log.keys[i]), from, upTo - from)
            && |entries| == upTo - from
            && forall k :: 0 <= k < upTo - from ==> entries[k].slot == SlotAt(log, i, from + k)
  {
  }

  lemma HasChainSlot(log: Log, i: nat, from: nat, upTo: nat, n: nat)
    requires 0 < i < |log.keys| && from <= n < upTo
    ensures HasSlot(KeysOfChain(log, i, from, upTo), SlotAt(log, i, n))
  {
    assert KeysOfChain(log, i, from, upTo)[n - from].slot == SlotAt(log, i, n);
  }

  /** Catching up on chain `g - 1` and receiving message `n` of it. */
  lemma CurrentJump(log: Log, g: nat, recv: nat, n: nat)
    requires LogOk(log) && 2 <= g < |log.keys| && recv <= n && IsSent(log, g - 1, n)
    ensures var entries := KeysOfChain(log, g - 1, recv, n);
            && Grows(log, log, g, recv, g, n + 1)
            && Jump(log, log, g, recv, g, n + 1, entries)
            && JumpsAll(log, log, g, recv, g, n + 1, entries, log.chains[g - 1][n].header)
  {
    var entries := KeysOfChain(log, g - 1, recv, n);
    ChainKeysAre(log, g - 1, recv, n);
    hide HexEncode, MessageOk;
    forall i | 0 <= i < |entries| ensures PassedBy(log, log, g, recv, g, n + 1, entries[i].slot) {
      assert Passed(log, log, g, recv, g, n + 1, g - 1, entries[i].slot);
    }
    hide KeysOfChain;
    forall j: nat, m: nat | Behind(log, g, n + 1, j, m)
      ensures Behind(log, g, recv, j, m) || HasSlot(entries, SlotAt(log, j, m))
              || log.chains[j][m].header == log.chains[g - 1][n].header
    {
      if j == g - 1 && recv <= m < n {
        HasChainSlot(log, g - 1, recv, n, m);
      }
    }
  }

  /** The keys a new ratchet key jumps over: the rest of the old chain, then the start of the new one. */
  function NewKeyEntries(log: Log, g: nat, recv: nat, length: nat, n: nat): seq<Entry>
    requires g + 1 < |log.keys| && (g >= 2 ==> recv <= length)
  {
    (if g < 2 then [] else KeysOfChain(log, g - 1, recv, length)) + KeysOfChain(log, g + 1, 0, n)
  }

  lemma NewKeyEntriesAre(log: Log, g: nat, recv: nat, length: nat, n: nat)
    requires g + 1 < |log.keys| && (g >= 2 ==> recv <= length)
    ensures var entries, rest := NewKeyEntries(log, g, recv, length, n), if g < 2 then 0 else length - recv;
            && |entries| == rest + n
            && (forall k :: 0 <= k < rest ==> entries[k].slot == SlotAt(log, g - 1, recv + k))
            && (forall k :: rest <= k < rest + n ==> entries[k].slot == SlotAt(log, g + 1, k - rest))
  {
    if g >= 2 {
      ChainKeysAre(log, g - 1, recv, length);
    }
    ChainKeysAre(log, g + 1, 0, n);
  }

  lemma SlotsDiffer(log: Log, i: nat, m: nat, j: nat, n: nat)
    requires KeysOk(log.keys) && i < |log.keys| && j < |log.keys| && i != j
    ensures SlotAt(log, i, m) != SlotAt(log, j, n)
  {
    if SlotAt(log, i, m) == SlotAt(log, j, n) {
      SlotNamesMessage(log, i, m, j, n);
    }
  }

  lemma NewKeyDistinct(log: Log, g: nat, recv: nat, length: nat, n: nat)
    requires LogOk(log) && g + 1 < |log.keys| && (g >= 2 ==> recv <= length)
    ensures Distinct(NewKeyEntries(log, g, recv, length, n))
  {
    var entries, rest := NewKeyEntries(log, g, recv, length, n), if g < 2 then 0 else length - recv;
    NewKeyEntriesAre(log, g, recv, length, n);
    hide NewKeyEntries;
    forall i, k | 0 <= i < k < |entries| ensures entries[i].slot != entries[k].slot {
      if i < rest <= k {
        SlotsDiffer(log, g - 1, recv + i, g + 1, k - rest);
      }
    }
  }

  lemma NewKeyHasSlot(log: Log, g: nat, recv: nat, length: nat, n: nat, j: nat, m: nat)
    requires g + 1 < |log.keys| && (g >= 2 ==> recv <= length)
    requires (g >= 2 && j == g - 1 && recv <= m < length) || (j == g + 1 && m < n)
    ensures HasSlot(NewKeyEntries(log, g, recv, length, n), SlotAt(log, j, m))
  {
    if j == g + 1 {
      HasChainSlot(log, g + 1, 0, n, m);
      HasSlotConcat(if g < 2 then [] else KeysOfChain(log, g - 1, recv, length), KeysOfChain(log, g + 1, 0, n),
          SlotAt(log, j, m));
    } else {
      HasChainSlot(log, g - 1, recv, length, m);
      HasSlotConcat(KeysOfChain(log, g - 1, recv, length), KeysOfChain(log, g + 1, 0, n), SlotAt(log, j, m));
    }
  }

  lemma NewKeyGrows(log: Log, g: nat, recv: nat, newKey: Bytes, n: nat)
    requires LogOk(log) && |log.keys| == g + 2 && IsSent(log, g + 1, n)
    ensures Grows(log, RecordKey(log, newKey), g, recv, g + 2, n + 1)
  {
  }

  lemma NewKeyPasses(log: Log, g: nat, recv: nat, newKey: Bytes, n: nat, slot: Slot, j: nat)
    requires LogOk(log) && |log.keys| == g + 2 && IsSent(log, g + 1, n) && j < g + 2
    requires slot == SlotAt(RecordKey(log, newKey), j, slot.number)
    requires || (g >= 2 && j == g - 1 && recv <= slot.number < |log.chains[g - 1]|)
             || (j == g + 1 && slot.number < n)
    ensures Passed(log, RecordKey(log, newKey), g, recv, g + 2, n + 1, j, slot)
  {
  }

  lemma NewKeyJump(log: Log, g: nat, recv: nat, newKey: Bytes, n: nat)
    requires LogOk(log) && |log.keys| == g + 2 && IsSent(log, g + 1, n) && |newKey| == 32 && newKey !in log.keys
    requires g >= 2 ==> recv <= |log.chains[g - 1]|
    ensures var more, length := RecordKey(log, newKey), PreviousLength(log, g + 1);
            var entries := NewKeyEntries(more, g, recv, length, n);
            && Jump(log, more, g, recv, g + 2, n + 1, entries)
            && JumpsAll(log, more, g, recv, g + 2, n + 1, entries, log.chains[g + 1][n].header)
  {
    var more, length := RecordKey(log, newKey), PreviousLength(log, g + 1);
    var entries, rest := NewKeyEntries(more, g, recv, length, n), if g < 2 then 0 else length - recv;
    LogWithKey(log, newKey);
    NewKeyEntriesAre(more, g, recv, length, n);
    NewKeyDistinct(more, g, recv, length, n);
    NewKeyPassesAll(log, g, recv, newKey, n);
    hide NewKeyEntries, LogOk, RecordKey, Behind, KeysOk, HasSlot, SlotAt;
    forall j: nat, m: nat | Behind(more, g + 2, n + 1, j, m)
      ensures Behind(log, g, recv, j, m) || HasSlot(entries, SlotAt(more, j, m))
              || more.chains[j][m].header == log.chains[g + 1][n].header
    {
      NewKeyCovers(log, g, recv, newKey, n, j, m);
      if (g >= 2 && j == g - 1 && recv <= m < length) || (j == g + 1 && m < n) {
        NewKeyHasSlot(more, g, recv, length, n, j, m);
      }
    }
  }

  lemma NewKeyPassesAll(log: Log, g: nat, recv: nat, newKey: Bytes, n: nat)
    requires LogOk(log) && |log.keys| == g + 2 && IsSent(log, g + 1, n) && |newKey| == 32 && newKey !in log.keys
    requires g >= 2 ==> recv <= |log.chains[g - 1]|
    ensures var more, length := RecordKey(log, newKey), PreviousLength(log, g + 1);
            var entries := NewKeyEntries(more, g, recv, length, n);
            && Shaped(more)
            && forall i :: 0 <= i < |entries| ==> PassedBy(log, more, g, recv, g + 2, n + 1, entries[i].slot)
  {
    var more, length := RecordKey(log, newKey), PreviousLength(log, g + 1);
    var entries, rest := NewKeyEntries(more, g, recv, length, n), if g < 2 then 0 else length - recv;
    NewKeyEntriesAre(more, g, recv, length, n);
    hide NewKeyEntries, Passed, LogOk;
    forall i | 0 <= i < |entries| ensures PassedBy(log, more, g, recv, g + 2, n + 1, entries[i].slot) {
      NewKeyPasses(log, g, recv, newKey, n, entries[i].slot, if i < rest then g - 1 else g + 1);
    }
  }

  /** Whatever a new ratchet key puts behind the receiver was behind it, is jumped over, or is received. */
  lemma NewKeyCovers(log: Log, g: nat, recv: nat, newKey: Bytes, n: nat, j: nat, m: nat)
    requires Shaped(log) && |log.keys| == g + 2 && IsSent(log, g + 1, n)
    requires Behind(RecordKey(log, newKey), g + 2, n + 1, j, m)
    ensures var more, length := RecordKey(log, newKey), PreviousLength(log, g + 1);
            || Behind(log, g, recv, j, m)
            || (g >= 2 && j == g - 1 && recv <= m < length)
            || (j == g + 1 && m < n)
            || more.chains[j][m].header == log.chains[g + 1][n].header
  {
  }

  // --------------------------------------------------------------------- the step

  lemma CurrentKeys(log: Log, g: nat, s: Session, n: nat)
    requires Shaped(log) && 2 <= g < |log.keys| && InStep(log, g, s) && s.recvNumber <= n
    ensures s.receivingChain.Some? && s.dhRemote == Some(log.keys[g - 1])
    ensures AfterCurrent(s, n).store == PutAll(s.store, KeysOfChain(log, g - 1, s.recvNumber, n))
    ensures AfterCurrent(s, n).recvNumber == n + 1 && AfterCurrent(s, n).dhPublic == s.dhPublic
  {
  }

  lemma SlotsConcat(a: seq<Entry>, b: seq<Entry>)
    ensures SlotsOf(a + b) == SlotsOf(a) + SlotsOf(b)
  {
  }

  lemma CurrentEvicts(log: Log, g: nat, s: Session, header: Header)
    requires Shaped(log) && 2 <= g < |log.keys| && InStep(log, g, s) && s.recvNumber <= header.messageNumber
    requires Find(s.store, SlotOf(header)).None? && s.dhRemote == Some(header.dhPublic)
    ensures EvictedBy(s, header) ==
            Dropped(SlotsOf(s.store + KeysOfChain(log, g - 1, s.recvNumber, header.messageNumber)))
  {
    ChainKeysAre(log, g - 1, s.recvNumber, header.messageNumber);
    SlotsConcat(s.store, KeysOfChain(log, g - 1, s.recvNumber, header.messageNumber));
  }

  lemma CurrentHeader(log: Log, g: nat, n: nat)
    requires LogOk(log) && 2 <= g < |log.keys| && IsSent(log, g - 1, n)
    ensures Shaped(log) && KeysOk(log.keys) && g - 1 < |log.chains| && n < |log.chains[g - 1]|
    ensures log.chains[g - 1][n].header.dhPublic == log.keys[g - 1] && log.chains[g - 1][n].header.messageNumber == n
  {
    HeaderOf(log, g - 1, n);
  }

  lemma CurrentStoreKept(log: Log, receipts: seq<Receipt>, r: Receipt, g: nat, s: Session, n: nat, gone: set<Slot>)
    requires LogOk(log) && 2 <= g < |log.keys| && InStep(log, g, s) && StoreOk(log, receipts, g, s.recvNumber, s.store)
    requires Kept(log, receipts, g, s.recvNumber, s.store, gone) && GoneBehind(log, g, s.recvNumber, gone)
    requires IsSent(log, g - 1, n) && r.header == log.chains[g - 1][n].header && s.recvNumber <= n
    requires Find(s.store, SlotOf(r.header)).None?
    ensures s.receivingChain.Some?
    ensures var after := AfterCurrent(s, n);
            && after.recvNumber == n + 1 && after.dhPublic == s.dhPublic
            && Kept(log, receipts + [r], g, n + 1, after.store, gone + EvictedBy(s, r.header))
            && GoneBehind(log, g, n + 1, gone + EvictedBy(s, r.header))
  {
    hide *;
    CurrentHeader(log, g, n);
    CurrentKeys(log, g, s, n);
    CurrentEvicts(log, g, s, r.header);
    CurrentJump(log, g, s.recvNumber, n);
    var entries := KeysOfChain(log, g - 1, s.recvNumber, n);
    KeptAfterJump(log, log, receipts, r, g, s.recvNumber, g, n + 1, s.store, gone, entries);
    GoneAfterJump(log, log, receipts, g, s.recvNumber, g, n + 1, s.store, gone, entries);
  }

  lemma NewKeyStore(log: Log, g: nat, s: Session, newKey: Bytes, n: nat)
    requires LogOk(log) && |log.keys| == g + 2 && InStep(log, g, s) && |newKey| == 32 && newKey !in log.keys
    requires IsSent(log, g + 1, n)
    ensures var more, length, header := RecordKey(log, newKey), PreviousLength(log, g + 1), log.chains[g + 1][n].header;
            && header == Header(log.keys[g + 1], length, n) && |header.dhPublic| == 32 && s.recvNumber <= length
            && AfterNewKey(s, header, DhSecret(newKey)).store
               == PutAll(s.store, NewKeyEntries(more, g, s.recvNumber, length, n))
            && AfterNewKey(s, header, DhSecret(newKey)).recvNumber == n + 1
            && AfterNewKey(s, header, DhSecret(newKey)).dhPublic == newKey
  {
    HeaderOf(log, g + 1, n);
    var more, length := RecordKey(log, newKey), PreviousLength(log, g + 1);
    var turned := DhRatchet(Completed(s, length), log.keys[g + 1], DhSecret(newKey));
    assert |log.keys[g + 1]| == 32;
    CompletedKeys(log, g, s, newKey, length);
    RatchetInStep(log, g, s, length, newKey);
    hide LogOk, InStep, PutAll, KeysOfChain, AfterCurrent, Completed;
    CurrentKeys(more, g + 2, turned, n);
    if g >= 2 {
      PutAllConcat(s.store, KeysOfChain(more, g - 1, s.recvNumber, length), KeysOfChain(more, g + 1, 0, n));
    } else {
      assert [] + KeysOfChain(more, g + 1, 0, n) == KeysOfChain(more, g + 1, 0, n);
    }
  }

  lemma CompletedKeys(log: Log, g: nat, s: Session, newKey: Bytes, length: nat)
    requires LogOk(log) && g < |log.keys| && InStep(log, g, s) && s.recvNumber <= length
    ensures Shaped(RecordKey(log, newKey))
    ensures Completed(s, length).store ==
            if g < 2 then s.store else PutAll(s.store, KeysOfChain(RecordKey(log, newKey), g - 1, s.recvNumber, length))
    ensures Gap(s, length) == if g < 2 then 0 else length - s.recvNumber
  {
    if g >= 2 {
      RootPrefix(log, RecordKey(log, newKey), g - 1);
    }
  }

  lemma NewKeyEvicts(log: Log, g: nat, s: Session, newKey: Bytes, header: Header)
    requires LogOk(log) && |log.keys| == g + 2 && InStep(log, g, s) && s.recvNumber <= header.previousChainLength
    requires Find(s.store, SlotOf(header)).None? && header.dhPublic == log.keys[g + 1]
    ensures EvictedBy(s, header) ==
            Dropped(SlotsOf(s.store + NewKeyEntries(RecordKey(log, newKey), g, s.recvNumber, header.previousChainLength,
                                                    header.messageNumber)))
  {
    var more, length, n := RecordKey(log, newKey), header.previousChainLength, header.messageNumber;
    var start := KeysOfChain(more, g + 1, 0, n);
    assert s.dhRemote != Some(header.dhPublic);
    ChainKeysAre(more, g + 1, 0, n);
    if g >= 2 {
      ChainKeysAre(more, g - 1, s.recvNumber, length);
      SlotsConcat(KeysOfChain(more, g - 1, s.recvNumber, length), start);
    } else {
      assert ConsecutiveSlots(RemoteHex(s), s.recvNumber, 0) + SlotsOf(start) == SlotsOf(start);
      assert [] + start == start;
    }
    SlotsConcat(s.store, NewKeyEntries(more, g, s.recvNumber, length, n));
  }

  lemma NewKeyStoreKept(log: Log, receipts: seq<Receipt>, r: Receipt, g: nat, s: Session, newKey: Bytes, n: nat,
                        gone: set<Slot>)
    requires LogOk(log) && |log.keys| == g + 2 && InStep(log, g, s) && StoreOk(log, receipts, g, s.recvNumber, s.store)
    requires Kept(log, receipts, g, s.recvNumber, s.store, gone) && GoneBehind(log, g, s.recvNumber, gone)
    requires |newKey| == 32 && newKey !in log.keys
    requires IsSent(log, g + 1, n) && r.header == log.chains[g + 1][n].header
    requires Find(s.store, SlotOf(r.header)).None?
    ensures r.header.previousChainLength >= s.recvNumber && |r.header.dhPublic| == 32
    ensures var after, more := AfterNewKey(s, r.header, DhSecret(newKey)), RecordKey(log, newKey);
            && after.recvNumber == n + 1 && after.dhPublic == newKey && Shaped(more)
            && Kept(more, receipts + [r], g + 2, n + 1, after.store, gone + EvictedBy(s, r.header))
            && GoneBehind(more, g + 2, n + 1, gone + EvictedBy(s, r.header))
  {
    LogWithKey(log, newKey);
    assert KeysOk(RecordKey(log, newKey).keys) && Shaped(log);
    hide LogOk, InStep, Kept, GoneBehind, StoreOk, AfterNewKey, PutAll, NewKeyEntries, Jump, JumpsAll, Grows, Find,
         EvictedBy, Dropped, KeysOk, HexEncode, RecordKey, Extends;
    NewKeyStore(log, g, s, newKey, n);
    NewKeyEvicts(log, g, s, newKey, r.header);
    ReceivedWithinSent(log, g, s);
    NewKeyGrows(log, g, s.recvNumber, newKey, n);
    NewKeyJump(log, g, s.recvNumber, newKey, n);
    var more := RecordKey(log, newKey);
    var entries := NewKeyEntries(more, g, s.recvNumber, PreviousLength(log, g + 1), n);
    KeptAfterJump(log, more, receipts, r, g, s.recvNumber, g + 2, n + 1, s.store, gone, entries);
    GoneAfterJump(log, more, receipts, g, s.recvNumber, g + 2, n + 1, s.store, gone, entries);
  }

  lemma ReceivedWithinSent(log: Log, h: nat, t: Session)
    requires Shaped(log) && h < |log.keys| && InStep(log, h, t)
    ensures h > 0 ==> t.recvNumber <= |log.chains[h - 1]|
  {
  }

  lemma KeptAfterCommit(sys: System, p: Party, after: Session, r: Receipt, gone: set<Slot>)
    requires Shaped(sys.log) && r.receiver == p && after.dhPublic == SessionOf(sys, p).dhPublic
    requires var g := Turn(sys.log, p);
             && Kept(sys.log, sys.receipts + [r], g, after.recvNumber, after.store, gone)
             && GoneBehind(sys.log, g, after.recvNumber, gone)
    ensures Shaped(Commit(sys, after, r).log) && KeptFor(Commit(sys, after, r), p, gone)
  {
  }

  lemma KeptAfterNewCommit(sys: System, p: Party, after: Session, r: Receipt, gone: set<Slot>)
    requires Shaped(sys.log) && r.receiver == p && after.dhPublic != SessionOf(sys, p).dhPublic
    requires Turn(sys.log, p) + 2 == |sys.log.keys|
    requires var more, g := RecordKey(sys.log, after.dhPublic), Turn(sys.log, p) + 2;
             && Kept(more, sys.receipts + [r], g, after.recvNumber, after.store, gone)
             && GoneBehind(more, g, after.recvNumber, gone)
    ensures Shaped(Commit(sys, after, r).log) && KeptFor(Commit(sys, after, r), p, gone)
  {
    assert Turn(RecordKey(sys.log, after.dhPublic), p) == Turn(sys.log, p) + 2;
  }

  lemma TakeKept(sys: System, p: Party, r: Receipt, j: nat, n: nat, gone: set<Slot>)
    requires Inv(sys) && NewReceipt(sys, p, r, j, n) && KeptFor(sys, p, gone)
    requires Find(SessionOf(sys, p).store, SlotOf(r.header)).Some?
    ensures var s := SessionOf(sys, p);
            KeptFor(Commit(sys, s.(store := Without(s.store, SlotOf(r.header))), r), p, gone)
  {
    PartyFacts(sys, p);
    HeaderOf(sys.log, j, n);
    var s, g := SessionOf(sys, p), Turn(sys.log, p);
    StoreDistinct(sys.log, sys.receipts, g, s.recvNumber, s.store);
    hide Inv, PartyOk, LogOk, InStep, StoreOk, ReceiptsOk, AheadUnreceived, Kept, GoneBehind, HexEncode, Without, Find;
    assert SlotOf(r.header) == SlotAt(sys.log, j, n);
    KeptAfterTake(sys.log, sys.receipts, r, g, s.recvNumber, s.store, gone, j, n);
    KeptAfterCommit(sys, p, s.(store := Without(s.store, SlotOf(r.header))), r, gone);
  }

  lemma CurrentKept(sys: System, p: Party, r: Receipt, n: nat, gone: set<Slot>)
    requires Inv(sys) && Turn(sys.log, p) >= 2 && NewReceipt(sys, p, r, Turn(sys.log, p) - 1, n)
    requires KeptFor(sys, p, gone) && SessionOf(sys, p).recvNumber <= n
    requires Find(SessionOf(sys, p).store, SlotOf(r.header)).None?
    ensures SessionOf(sys, p).receivingChain.Some?
    ensures var s := SessionOf(sys, p); KeptFor(Commit(sys, AfterCurrent(s, n), r), p, gone + EvictedBy(s, r.header))
  {
    hide Inv, PartyOk, LogOk, InStep, StoreOk, ReceiptsOk, AheadUnreceived, Kept, GoneBehind, AfterCurrent, Commit,
        Find,
         EvictedBy, HexEncode;
    PartyFacts(sys, p);
    var s, g := SessionOf(sys, p), Turn(sys.log, p);
    CurrentStoreKept(sys.log, sys.receipts, r, g, s, n, gone);
    KeptAfterCommit(sys, p, AfterCurrent(s, n), r, gone + EvictedBy(s, r.header));
  }

  lemma NewKeyKept(sys: System, p: Party, r: Receipt, newKey: Bytes, n: nat, gone: set<Slot>)
    requires Inv(sys) && NewReceipt(sys, p, r, Turn(sys.log, p) + 1, n) && KeptFor(sys, p, gone)
    requires |newKey| == 32 && newKey !in sys.log.keys
    requires Find(SessionOf(sys, p).store, SlotOf(r.header)).None?
    ensures r.header.previousChainLength >= SessionOf(sys, p).recvNumber && |r.header.dhPublic| == 32
    ensures var s := SessionOf(sys, p);
            KeptFor(Commit(sys, AfterNewKey(s, r.header, DhSecret(newKey)), r), p, gone + EvictedBy(s, r.header))
  {
    hide Inv, PartyOk, LogOk, InStep, StoreOk, ReceiptsOk, AheadUnreceived, Kept, GoneBehind, AfterNewKey, Commit, Find,
         EvictedBy, HexEncode;
    PartyFacts(sys, p);
    var s, g := SessionOf(sys, p), Turn(sys.log, p);
    NewKeyStoreKept(sys.log, sys.receipts, r, g, s, newKey, n, gone);
    OwnKey(sys.log, g, s);
    KeptAfterNewCommit(sys, p, AfterNewKey(s, r.header, DhSecret(newKey)), r, gone + EvictedBy(s, r.header));
  }

  lemma TakeEvictsNothing(s: Session, header: Header)
    requires Bounded(s.store) && Find(s.store, SlotOf(header)).Some?
    ensures EvictedBy(s, header) == {}
  {
  }

  lemma ReceiverKept(sys: System, p: Party, r: Receipt, newKey: Bytes, j: nat, n: nat, gone: set<Slot>)
    requires Inv(sys) && NewReceipt(sys, p, r, j, n) && ReadyFor(sys, p, j, n)
    requires |newKey| == 32 && newKey !in sys.log.keys && KeptFor(sys, p, gone)
    ensures CanLeave(SessionOf(sys, p), r.header)
    ensures var s := SessionOf(sys, p);
            KeptFor(Commit(sys, After(s, r.header, DhSecret(newKey)), r), p, gone + EvictedBy(s, r.header))
  {
    hide Inv, PartyOk, LogOk, InStep, StoreOk, ReceiptsOk, AheadUnreceived, KeptFor, AfterNewKey, AfterCurrent,
        HexEncode,
         Find, Commit, MessageOk, ReadyFor, Received, Without, EvictedBy;
    PartyFacts(sys, p);
    var s := SessionOf(sys, p);
    if Find(s.store, SlotOf(r.header)).Some? {
      StoreDistinct(sys.log, sys.receipts, Turn(sys.log, p), s.recvNumber, s.store);
      TakeEvictsNothing(s, r.header);
      TakeKept(sys, p, r, j, n, gone);
      assert gone + {} == gone;
    } else {
      ReadyWhere(sys, p, j, n);
      if s.dhRemote == Some(r.header.dhPublic) {
        CurrentKept(sys, p, r, n, gone);
      } else {
        NewKeyKept(sys, p, r, newKey, n, gone);
      }
    }
  }

  /** A delivery to the other party changes nothing for this one. */
  lemma PeerKept(sys: System, p: Party, after: Session, r: Receipt, gone: set<Slot>)
    requires Shaped(sys.log) && r.receiver == p && KeptFor(sys, Peer(p), gone)
    requires after.dhPublic != SessionOf(sys, p).dhPublic ==> Turn(sys.log, p) + 2 == |sys.log.keys|
    ensures KeptFor(Commit(sys, after, r), Peer(p), gone)
  {
    var next, q := Commit(sys, after, r), Peer(p);
    var s, g := SessionOf(sys, q), Turn(sys.log, q);
    assert Turn(next.log, q) == g && SessionOf(next, q) == s;
    assert Grows(sys.log, next.log, g, s.recvNumber, g, s.recvNumber);
    forall header | Received(sys.receipts, header) ensures Received(next.receipts, header) {
      ReceivedOne(sys.receipts, r, header);
    }
    hide Kept, GoneBehind;
    KeptStays(sys.log, next.log, sys.receipts, next.receipts, g, s.recvNumber, s.store, gone);
    GoneStays(sys.log, next.log, g, s.recvNumber, g, s.recvNumber, gone);
  }

  /** A message just sent is ahead of its receiver. */
  lemma SendKept(sys: System, p: Party, plaintext: Bytes, nonce: Bytes, q: Party, gone: set<Slot>)
    requires Inv(sys) && KeptFor(sys, q, gone)
    ensures KeptFor(Step(sys, Send(p, plaintext, nonce)), q, gone)
  {
    hide Inv, PartyOk, LogOk, InStep, StoreOk, ReceiptsOk, AheadUnreceived, KeptFor, ToBytes, RecordSent;
    PartyFacts(sys, q);
    ReceivedWithinSent(sys.log, Turn(sys.log, q), SessionOf(sys, q));
    var (after, result) := Encrypt(SessionOf(sys, p), plaintext, nonce);
    if result.Ok? {
      KeptAfterSend(sys, p, after, Sent(result.value.1, result.value.0, plaintext), q, gone);
    }
  }

  lemma KeptAfterSend(sys: System, p: Party, after: Session, m: Sent, q: Party, gone: set<Slot>)
    requires Shaped(sys.log) && KeptFor(sys, q, gone)
    requires after.store == SessionOf(sys, p).store && after.recvNumber == SessionOf(sys, p).recvNumber
    requires var h := Turn(sys.log, q); h > 0 ==> SessionOf(sys, q).recvNumber <= |sys.log.chains[h - 1]|
    ensures KeptFor(WithSession(sys, p, after).(log := RecordSent(sys.log, Turn(sys.log, p), m)), q, gone)
  {
    var s, g := SessionOf(sys, q), Turn(sys.log, q);
    var more := RecordSent(sys.log, Turn(sys.log, p), m);
    assert Turn(more, q) == g;
    hide Kept, GoneBehind, RecordSent, Grows, Behind, Received;
    SentIsAhead(sys.log, Turn(sys.log, p), g, s.recvNumber, m);
    KeptStays(sys.log, more, sys.receipts, sys.receipts, g, s.recvNumber, s.store, gone);
    GoneStays(sys.log, more, g, s.recvNumber, g, s.recvNumber, gone);
  }

  lemma SentIsAhead(log: Log, g: nat, h: nat, recv: nat, m: Sent)
    requires Shaped(log) && |log.keys| - 2 <= g < |log.keys| && |log.keys| - 2 <= h < |log.keys|
    requires h > 0 ==> recv <= |log.chains[h - 1]|
    ensures var more := RecordSent(log, g, m);
            && Grows(log, more, h, recv, h, recv)
            && forall j: nat, n: nat :: Behind(more, h, recv, j, n) ==> Behind(log, h, recv, j, n)
  {
  }

  /** A new ratchet key comes only from the party that is behind. */
  lemma NewKeyTurn(sys: System, p: Party, header: Header, newKey: Bytes, j: nat, n: nat)
    requires Inv(sys) && IsSent(sys.log, j, n) && j % 2 != Parity(p) && ReadyFor(sys, p, j, n)
    requires header == sys.log.chains[j][n].header && CanLeave(SessionOf(sys, p), header)
    requires After(SessionOf(sys, p), header, DhSecret(newKey)).dhPublic != SessionOf(sys, p).dhPublic
    ensures Turn(sys.log, p) + 2 == |sys.log.keys|
  {
    if Find(SessionOf(sys, p).store, SlotOf(header)).None? {
      ReadyWhere(sys, p, j, n);
    }
  }

  lemma LeavesBy(sys: System, p: Party, j: nat, n: nat)
    requires Inv(sys) && IsSent(sys.log, j, n) && j % 2 != Parity(p) && ReadyFor(sys, p, j, n)
    ensures CanLeave(SessionOf(sys, p), sys.log.chains[j][n].header)
  {
    if Find(SessionOf(sys, p).store, SlotOf(sys.log.chains[j][n].header)).None? {
      PartyFacts(sys, p);
      HeaderOf(sys.log, j, n);
      ReadyWhere(sys, p, j, n);
    }
  }

  lemma DeliverKept(sys: System, p: Party, header: Header, ciphertext: Ciphertext, newKey: Bytes, q: Party,
                    gone: set<Slot>)
    requires Inv(sys) && Legal(sys, Deliver(p, header, ciphertext, newKey)) && KeptFor(sys, q, gone)
    requires Delivery(sys, p, header, ciphertext, newKey).Ok?
    ensures KeptFor(Step(sys, Deliver(p, header, ciphertext, newKey)), q,
                    if q == p then gone + EvictedBy(SessionOf(sys, p), header) else gone)
  {
    assert Shaped(sys.log);
    hide Inv, KeptFor, Commit, Decrypt, EvictedBy, AfterNewKey, AfterCurrent, Find, HexEncode, Without, ReadyFor,
        Received;
    var j, n := AcceptedIsGenuine(sys, p, header, ciphertext, newKey);
    AcceptedNotReceived(sys, p, j, n);
    LeavesBy(sys, p, j, n);
    var r := Receipt(p, header, ciphertext, sys.log.chains[j][n].plaintext);
    var after := After(SessionOf(sys, p), header, DhSecret(newKey));
    if q == p {
      ReceiverKept(sys, p, r, newKey, j, n, gone);
    } else {
      if after.dhPublic != SessionOf(sys, p).dhPublic {
        NewKeyTurn(sys, p, header, newKey, j, n);
      }
      PeerKept(sys, p, after, r, gone);
    }
    StepCommits(sys, p, header, ciphertext, newKey, r.plaintext);
  }

  /** One event: exactly what it evicts is gone besides. */
  lemma StepKeepsKept(sys: System, e: Event, p: Party, gone: set<Slot>)
    requires Inv(sys) && Legal(sys, e) && KeptFor(sys, p, gone)
    ensures KeptFor(Step(sys, e), p, gone + EvictedAt(sys, e, p))
  {
    hide Inv, KeptFor, Decrypt, EvictedBy, Encrypt, Commit;
    assert gone + {} == gone;
    match e
    case Send(q, plaintext, nonce) => SendKept(sys, q, plaintext, nonce, p, gone);
    case Deliver(q, header, ciphertext, newKey) =>
      if Delivery(sys, q, header, ciphertext, newKey).Ok? {
        DeliverKept(sys, q, header, ciphertext, newKey, p, gone);
      }
  }
}
