/** The limit is real: a legal run in which a genuine message that was never received can no longer be decrypted. */
module Overflow {
  import opened Wrappers
  import opened ByteText
  import opened SymbolicCrypto
  import opened MessageHeader
  import opened SkippedKeys
  import opened RatchetSession
  import opened TwoParty
  import opened Acceptance
  import opened Lockstep
  import opened SystemInvariant
  import opened Eviction
  import opened Agreement

  lemma {:induction false} RunConcat(sys: System, a: seq<Event>, b: seq<Event>)
    requires Shaped(sys.log)
    ensures Run(sys, a + b) == Run(Run(sys, a), b)
    ensures LegalRun(sys, a + b) <==> LegalRun(sys, a) && LegalRun(Run(sys, a), b)
    decreases |a|
  {
    if a == [] {
      assert a + b == b;
    } else {
      hide Step, Legal;
      assert (a + b)[0] == a[0] && (a + b)[1..] == a[1..] + b;
      RunConcat(Step(sys, a[0]), a[1..], b);
    }
  }

  lemma {:induction false} EvictedConcat(sys: System, a: seq<Event>, b: seq<Event>, p: Party)
    requires Shaped(sys.log)
    ensures Evicted(sys, a + b, p) == Evicted(sys, a, p) + Evicted(Run(sys, a), b, p)
    decreases |a|
  {
    if a == [] {
      assert a + b == b;
    } else {
      hide Step, EvictedAt;
      assert (a + b)[0] == a[0] && (a + b)[1..] == a[1..] + b;
      EvictedConcat(Step(sys, a[0]), a[1..], b, p);
    }
  }

  lemma OneEvent(sys: System, e: Event, p: Party)
    requires Shaped(sys.log)
    ensures Run(sys, [e]) == Step(sys, e) && (LegalRun(sys, [e]) <==> Legal(sys, e))
    ensures Evicted(sys, [e], p) == EvictedAt(sys, e, p)
  {
    hide Step, Legal, EvictedAt;
    assert [e][1..] == [];
  }

  /** Alice sends the same text `n` times. */
  function Sends(n: nat, plaintext: Bytes, nonce: Bytes): seq<Event> {
    seq(n, i => Send(Alice, plaintext, nonce))
  }

  /** Alice has sent `n` messages on her first chain and nothing has arrived. */
  ghost predicate Waiting(sys: System, bob: Session, keys: seq<Bytes>, n: nat) {
    && Inv(sys) && sys.log.keys == keys && |keys| == 2 && |sys.log.chains[1]| == n
    && sys.bob == bob && sys.receipts == []
  }

  lemma {:induction false} SendsWait(sys: System, bob: Session, keys: seq<Bytes>, n: nat, plaintext: Bytes,
                                     nonce: Bytes)
    requires Waiting(sys, bob, keys, 0)
    ensures LegalRun(sys, Sends(n, plaintext, nonce))
    ensures Waiting(Run(sys, Sends(n, plaintext, nonce)), bob, keys, n)
  {
    assert Shaped(sys.log);
    if n > 0 {
      var before, e := Sends(n - 1, plaintext, nonce), Send(Alice, plaintext, nonce);
      assert Sends(n, plaintext, nonce) == before + [e];
      hide Inv, Step, Run, LegalRun, Legal;
      SendsWait(sys, bob, keys, n - 1, plaintext, nonce);
      RunConcat(sys, before, [e]);
      OneEvent(Run(sys, before), e, Bob);
      SendWaits(Run(sys, before), bob, keys, n - 1, plaintext, nonce);
    }
  }

  lemma SendWaits(sys: System, bob: Session, keys: seq<Bytes>, n: nat, plaintext: Bytes, nonce: Bytes)
    requires Waiting(sys, bob, keys, n)
    ensures Legal(sys, Send(Alice, plaintext, nonce))
    ensures Waiting(Step(sys, Send(Alice, plaintext, nonce)), bob, keys, n + 1)
  {
    PartyFacts(sys, Alice);
    StepKeepsInv(sys, Send(Alice, plaintext, nonce));
    hide Inv, LogOk, StoreOk, AheadUnreceived, PartyOk, ReceiptsOk, ToBytes;
    assert SessionOf(sys, Alice).sendingChain.Some?;
  }

  function Delivering(sys: System, n: nat, newKey: Bytes): Event
    requires IsSent(sys.log, 1, n)
  {
    Deliver(Bob, sys.log.chains[1][n].header, sys.log.chains[1][n].ciphertext, newKey)
  }

  /** Message 1000 comes first: all it jumps over just fits. */
  lemma FirstArrival(sys: System, bob: Session, keys: seq<Bytes>, newKey: Bytes)
    requires Waiting(sys, bob, keys, 1003) && bob.recvNumber == 0 && bob.store == []
    requires |newKey| == 32 && newKey !in keys
    ensures IsSent(sys.log, 1, 1000)
    ensures var e := Delivering(sys, 1000, newKey);
            var next := Step(sys, e);
            && Legal(sys, e) && Inv(next) && next.log == RecordKey(sys.log, newKey)
            && |next.receipts| == 1 && next.receipts[0].header == sys.log.chains[1][1000].header
            && |next.bob.store| == 1000 && next.bob.store[0].slot == SlotAt(sys.log, 1, 0) && next.bob.recvNumber ==
                1001
  {
    PartyFacts(sys, Bob);
    HeaderOf(sys.log, 1, 1000);
    var m, e := sys.log.chains[1][1000], Delivering(sys, 1000, newKey);
    assert Legal(sys, e);
    assert Find([], SlotAt(sys.log, 1, 1000)).None?;
    assert ReadyFor(sys, Bob, 1, 1000);
    GenuineIffReady(sys, Bob, 1, 1000, newKey);
    StepKeepsInv(sys, e);
    OwnKey(sys.log, 0, sys.bob);
    hide Inv, LogOk, StoreOk, AheadUnreceived, PartyOk, ReceiptsOk, ToBytes, AfterNewKey, PutAll, NewKeyEntries,
        HexEncode,
         Decrypt, Legal;
    NewKeyStore(sys.log, 0, sys.bob, newKey, 1000);
    LeavesBy(sys, Bob, 1, 1000);
    StepCommits(sys, Bob, m.header, m.ciphertext, newKey, m.plaintext);
    var more := RecordKey(sys.log, newKey);
    NewKeyEntriesAre(more, 0, 0, 0, 1000);
    FirstStore(sys.log, newKey);
  }

  lemma FirstStore(log: Log, newKey: Bytes)
    requires LogOk(log) && |log.keys| == 2 && |newKey| == 32 && newKey !in log.keys
    ensures var entries := NewKeyEntries(RecordKey(log, newKey), 0, 0, 0, 1000); PutAll([], entries) == entries
  {
    var more := RecordKey(log, newKey);
    var entries := NewKeyEntries(more, 0, 0, 0, 1000);
    LogWithKey(log, newKey);
    NewKeyDistinct(more, 0, 0, 0, 1000);
    NewKeyEntriesAre(more, 0, 0, 0, 1000);
    hide NewKeyEntries, PutAll;
    assert [] + entries == entries;
    PutAllIsNewest([], entries);
  }

  /** Then message 1002: the key of 1001 pushes out the oldest one. */
  lemma SecondArrival(sys: System, newKey: Bytes)
    requires Inv(sys) && |sys.log.keys| == 3 && IsSent(sys.log, 1, 1002)
    requires |sys.bob.store| == 1000 && sys.bob.store[0].slot == SlotAt(sys.log, 1, 0) && sys.bob.recvNumber == 1001
    requires |newKey| == 32 && newKey !in sys.log.keys
    ensures var e := Delivering(sys, 1002, newKey);
            var next := Step(sys, e);
            && Legal(sys, e) && next.log == sys.log && next.bob.recvNumber == 1003
            && |next.receipts| == |sys.receipts| + 1 && sys.receipts <= next.receipts
            && next.receipts[|sys.receipts|].header == sys.log.chains[1][1002].header
            && SlotAt(sys.log, 1, 0) in EvictedAt(sys, e, Bob)
  {
    PartyFacts(sys, Bob);
    HeaderOf(sys.log, 1, 1002);
    var m, e, s := sys.log.chains[1][1002], Delivering(sys, 1002, newKey), sys.bob;
    assert Legal(sys, e);
    assert ReadyFor(sys, Bob, 1, 1002);
    AheadIsNotHeld(sys, 1002);
    GenuineIffReady(sys, Bob, 1, 1002, newKey);
    hide Inv, LogOk, StoreOk, AheadUnreceived, PartyOk, ReceiptsOk, ToBytes, PutAll, HexEncode, Decrypt, Legal,
        AfterCurrent;
    CurrentKeys(sys.log, 2, s, 1002);
    LeavesBy(sys, Bob, 1, 1002);
    StepCommits(sys, Bob, m.header, m.ciphertext, newKey, m.plaintext);
    var all := SlotsOf(s.store) + JumpedSlots(s, m.header);
    assert |all| == 1001 && all[0] == SlotAt(sys.log, 1, 0);
  }

  lemma AheadIsNotHeld(sys: System, n: nat)
    requires Inv(sys) && |sys.log.keys| == 3 && IsSent(sys.log, 1, n) && sys.bob.recvNumber <= n
    ensures Find(sys.bob.store, SlotOf(sys.log.chains[1][n].header)).None?
  {
    PartyFacts(sys, Bob);
    HeaderOf(sys.log, 1, n);
    assert SlotOf(sys.log.chains[1][n].header) == SlotAt(sys.log, 1, n);
  }

  /** What is left after 1003 messages were sent and numbers 1000 and 1002 have arrived. */
  ghost predicate Overflown(sys: System, gone: set<Slot>) {
    && Shaped(sys.log) && |sys.log.keys| == 3 && IsSent(sys.log, 1, 1002) && sys.bob.recvNumber == 1003
    && |sys.receipts| == 2
    && sys.receipts[0].header == sys.log.chains[1][1000].header
    && sys.receipts[1].header == sys.log.chains[1][1002].header
    && SlotAt(sys.log, 1, 0) in gone
  }

  lemma TwoArrivals(sys: System, bob: Session, keys: seq<Bytes>, first: Bytes,
                    second: Bytes) returns (events: seq<Event>)
    requires Waiting(sys, bob, keys, 1003) && bob.recvNumber == 0 && bob.store == []
    requires |first| == |second| == 32 && first !in keys && second !in keys + [first]
    ensures Shaped(sys.log) && LegalRun(sys, events) && Overflown(Run(sys, events), Evicted(sys, events, Bob))
  {
    hide Inv, Step, Run, LegalRun, Legal, Evicted, EvictedAt;
    FirstArrival(sys, bob, keys, first);
    var e1 := Delivering(sys, 1000, first);
    var sys1 := Step(sys, e1);
    SecondArrival(sys1, second);
    var e2 := Delivering(sys1, 1002, second);
    events := [e1] + [e2];
    OneEvent(sys, e1, Bob);
    OneEvent(sys1, e2, Bob);
    RunConcat(sys, [e1], [e2]);
    EvictedConcat(sys, [e1], [e2], Bob);
  }

  /** Alice sends 1003 messages; the network hands over number 1000, then 1002, and only then number 0. Both gaps are
      within the limit, number 0 was never received, and it is refused: its key was evicted. */
  lemma OverflowLosesAMessage(secret: Bytes, bobKey: Bytes, aliceKey: Bytes, first: Bytes, second: Bytes, third: Bytes,
                              plaintext: Bytes, nonce: Bytes) returns (events: seq<Event>)
    requires |bobKey| == |aliceKey| == |first| == |second| == 32
    requires bobKey != aliceKey && first !in {bobKey, aliceKey} && second !in {bobKey, aliceKey, first}
    ensures HonestRun(secret, bobKey, aliceKey, events)
    ensures var sys := Final(secret, bobKey, aliceKey, events);
            && IsSent(sys.log, 1, 0) && WithinLimits(sys, Bob, 1, 0)
            && !Received(sys.receipts, sys.log.chains[1][0].header)
            && Delivery(sys, Bob, sys.log.chains[1][0].header, sys.log.chains[1][0].ciphertext, third).Err?
  {
    var start, sends := Start(secret, bobKey, aliceKey), Sends(1003, plaintext, nonce);
    StartInv(secret, bobKey, aliceKey);
    SendsWait(start, start.bob, start.log.keys, 1003, plaintext, nonce);
    hide Inv, Step, Run, LegalRun, Legal, Evicted, Sends, Delivery;
    var arrivals := TwoArrivals(Run(start, sends), start.bob, start.log.keys, first, second);
    events := sends + arrivals;
    RunConcat(start, sends, arrivals);
    EvictedConcat(start, sends, arrivals, Bob);
    FinalInv(secret, bobKey, aliceKey, events);
    TwoReceipts(Final(secret, bobKey, aliceKey, events));
    WholeRunAgreement(secret, bobKey, aliceKey, events, Bob, 1, 0, third);
  }

  lemma TwoReceipts(sys: System)
    requires Inv(sys) && |sys.log.keys| == 3 && IsSent(sys.log, 1, 1002) && |sys.receipts| == 2
    requires sys.receipts[0].header == sys.log.chains[1][1000].header
    requires sys.receipts[1].header == sys.log.chains[1][1002].header
    ensures !Received(sys.receipts, sys.log.chains[1][0].header)
  {
    HeaderOf(sys.log, 1, 0);
    HeaderOf(sys.log, 1, 1000);
    HeaderOf(sys.log, 1, 1002);
  }
}
