/** What holds over whole runs, whatever the network does. */
module Agreement {
  import opened Wrappers
  import opened ByteText
  import opened SymbolicCrypto
  import opened MessageHeader
  import opened SkippedKeys
  import opened RatchetSession
  import opened TwoParty
  import opened Acceptance
  import opened SystemInvariant
  import opened Eviction

  lemma {:induction false} RunKeepsInv(sys: System, events: seq<Event>)
    requires Inv(sys) && LegalRun(sys, events)
    ensures Inv(Run(sys, events))
    decreases |events|
  {
    if events != [] {
      StepKeepsInv(sys, events[0]);
      RunKeepsInv(Step(sys, events[0]), events[1..]);
    }
  }

  /** A run that starts with the two sessions agreeing on a secret and on Bob's pre-key. */
  ghost predicate HonestRun(secret: Bytes, bobKey: Bytes, aliceKey: Bytes, events: seq<Event>) {
    && |bobKey| == |aliceKey| == 32 && bobKey != aliceKey
    && LegalRun(Start(secret, bobKey, aliceKey), events)
  }

  function Final(secret: Bytes, bobKey: Bytes, aliceKey: Bytes, events: seq<Event>): System
    requires |bobKey| == 32
  {
    Run(Start(secret, bobKey, aliceKey), events)
  }

  lemma FinalInv(secret: Bytes, bobKey: Bytes, aliceKey: Bytes, events: seq<Event>)
    requires HonestRun(secret, bobKey, aliceKey, events)
    ensures Inv(Final(secret, bobKey, aliceKey, events))
  {
    StartInv(secret, bobKey, aliceKey);
    RunKeepsInv(Start(secret, bobKey, aliceKey), events);
  }

  /** Over every run, with reordering, loss, replay, mixed pairs and foreign ciphertexts: everything a party accepted
      was sent by the other, came back as the plaintext it was sent with, and was accepted once. */
  lemma OnlySentOnce(secret: Bytes, bobKey: Bytes, aliceKey: Bytes, events: seq<Event>)
    requires HonestRun(secret, bobKey, aliceKey, events)
    ensures var sys := Final(secret, bobKey, aliceKey, events);
            && (forall i :: 0 <= i < |sys.receipts| ==> WasSent(sys, sys.receipts[i]))
            && (forall i, k :: 0 <= i < k < |sys.receipts| ==>
                  sys.receipts[i].header != sys.receipts[k].header
                  && sys.receipts[i].ciphertext != sys.receipts[k].ciphertext)
  {
    FinalInv(secret, bobKey, aliceKey, events);
    var sys := Final(secret, bobKey, aliceKey, events);
    forall i | 0 <= i < |sys.receipts| ensures WasSent(sys, sys.receipts[i]) {
      var j, n := SourceOf(sys, sys.receipts[i]);
    }
    forall i, k | 0 <= i < k < |sys.receipts|
      ensures sys.receipts[i].ciphertext != sys.receipts[k].ciphertext
    {
      var j, n := SourceOf(sys, sys.receipts[i]);
      var j', n' := SourceOf(sys, sys.receipts[k]);
      assert MessageOk(sys.log, j, n) && MessageOk(sys.log, j', n');
      ChainKeysDiffer(sys.log, j, n, j', n');
    }
  }

  /** The peer of the receiver sent exactly this. */
  ghost predicate WasSent(sys: System, r: Receipt) {
    exists j: nat, n: nat :: Genuine(sys, r.receiver, r.header, r.ciphertext, j, n)
                             && r.plaintext == sys.log.chains[j][n].plaintext
  }

  lemma SourceOf(sys: System, r: Receipt) returns (j: nat, n: nat)
    requires Shaped(sys.log) && HasSource(sys, r)
    ensures ReceiptFor(sys, r, j, n) && Genuine(sys, r.receiver, r.header, r.ciphertext, j, n)
  {
    j, n :| ReceiptFor(sys, r, j, n);
  }

  /** After every run, the next delivery of any header with any available ciphertext is accepted if and only if it is a
      genuine message the receiver is ready for. */
  lemma NextDeliveryExact(secret: Bytes, bobKey: Bytes, aliceKey: Bytes, events: seq<Event>,
                          p: Party, header: Header, ciphertext: Ciphertext, newKey: Bytes)
    requires HonestRun(secret, bobKey, aliceKey, events)
    requires Available(Final(secret, bobKey, aliceKey, events).log, ciphertext)
    ensures var sys := Final(secret, bobKey, aliceKey, events);
            Delivery(sys, p, header, ciphertext, newKey).Ok? <==>
            exists j: nat, n: nat :: Genuine(sys, p, header, ciphertext, j, n) && ReadyFor(sys, p, j, n)
  {
    FinalInv(secret, bobKey, aliceKey, events);
    AcceptsExactly(Final(secret, bobKey, aliceKey, events), p, header, ciphertext, newKey);
  }

  /** No two messages of a run share a message key, a ciphertext, or a (ratchet key, number) pair. */
  lemma KeysNeverRepeat(secret: Bytes, bobKey: Bytes, aliceKey: Bytes, events: seq<Event>, i: nat, m: nat, j: nat,
                        n: nat)
    requires HonestRun(secret, bobKey, aliceKey, events)
    requires IsSent(Final(secret, bobKey, aliceKey, events).log, i, m)
    requires IsSent(Final(secret, bobKey, aliceKey, events).log, j, n) && (i, m) != (j, n)
    ensures var chains := Final(secret, bobKey, aliceKey, events).log.chains;
            && chains[i][m].ciphertext.Sealed? && chains[j][n].ciphertext.Sealed?
            && chains[i][m].ciphertext.key != chains[j][n].ciphertext.key
            && (chains[i][m].header.dhPublic, chains[i][m].header.messageNumber)
               != (chains[j][n].header.dhPublic, chains[j][n].header.messageNumber)
  {
    FinalInv(secret, bobKey, aliceKey, events);
    var log := Final(secret, bobKey, aliceKey, events).log;
    assert MessageOk(log, i, m) && MessageOk(log, j, n);
    ChainKeysDiffer(log, i, m, j, n);
  }

  /** Lockstep over every run: one party's root is one root step after the other's; the one ahead receives on the
      very chain the other sends on, `recvNumber` steps from where that chain starts, and is never past what was
      sent on it. */
  lemma RootsStayAdjacent(secret: Bytes, bobKey: Bytes, aliceKey: Bytes, events: seq<Event>)
    returns (ahead: Party, dh: SharedSecret, seed: ChainKey)
    requires HonestRun(secret, bobKey, aliceKey, events)
    ensures var sys := Final(secret, bobKey, aliceKey, events);
            var s, t := SessionOf(sys, ahead), SessionOf(sys, Peer(ahead));
            && s.root == NextRoot(t.root, dh) && dh == DiffieHellman(s.dhSecret, t.dhPublic)
            && s.dhRemote == Some(t.dhPublic)
            && s.sendingChain == Some(Advance(Seed(t.root, dh), s.sendNumber))
            && s.recvNumber <= t.sendNumber
            && (t.sendingChain.Some? <==> s.receivingChain.Some?)
            && (t.sendingChain.Some? ==> t.sendingChain == Some(Advance(seed, t.sendNumber))
                                         && s.receivingChain == Some(Advance(seed, s.recvNumber)))
  {
    hide LogOk, StoreOk, Inv, ReceiptsOk, LegalRun, Run;
    FinalInv(secret, bobKey, aliceKey, events);
    var sys := Final(secret, bobKey, aliceKey, events);
    var log := sys.log;
    ahead := if (|log.keys| - 1) % 2 == 1 then Alice else Bob;
    PartyFacts(sys, ahead);
    PartyFacts(sys, Peer(ahead));
    var g := Turn(log, ahead);
    LinkAgrees(log, g);
    dh := Link(log, g);
    seed := SeedAt(log, if g >= 2 then g - 1 else 1);
    assert RootAt(log, g) == NextRoot(RootAt(log, g - 1), dh);
  }

  /** The previous-chain length a header carries is the final number of messages on that party's chain before. */
  lemma PreviousLengthIsFinal(secret: Bytes, bobKey: Bytes, aliceKey: Bytes, events: seq<Event>, j: nat, n: nat)
    requires HonestRun(secret, bobKey, aliceKey, events)
    requires IsSent(Final(secret, bobKey, aliceKey, events).log, j, n)
    ensures var log := Final(secret, bobKey, aliceKey, events).log;
            log.chains[j][n].header.previousChainLength == if j < 2 then 0 else |log.chains[j - 2]|
  {
    FinalInv(secret, bobKey, aliceKey, events);
    HeaderOf(Final(secret, bobKey, aliceKey, events).log, j, n);
  }

  // -------------------------------------------------------- rejected deliveries

  function Rejected(sys: System, e: Event): bool {
    e.Deliver? && Delivery(sys, e.party, e.header, e.ciphertext, e.newKey).Err?
  }

  /** The run without its rejected deliveries. */
  function Effective(sys: System, events: seq<Event>): (kept: seq<Event>)
    requires Shaped(sys.log)
    decreases |events|
  {
    if events == [] then []
    else
      var rest := Effective(Step(sys, events[0]), events[1..]);
      if Rejected(sys, events[0]) then rest else [events[0]] + rest
  }

  /** A step discards a rejected delivery, so the run without them is legal and ends in the same state. What a caller of
      the native calls must do for this to hold is in `Persistence.RefusedCallsLeaveNoTrace`. */
  lemma {:induction false} RejectionLeavesNoTrace(sys: System, events: seq<Event>)
    requires Shaped(sys.log)
    ensures Run(sys, Effective(sys, events)) == Run(sys, events)
    ensures LegalRun(sys, events) ==> LegalRun(sys, Effective(sys, events))
    decreases |events|
  {
    if events != [] {
      var rest := Effective(Step(sys, events[0]), events[1..]);
      RejectionLeavesNoTrace(Step(sys, events[0]), events[1..]);
      if !Rejected(sys, events[0]) {
        assert ([events[0]] + rest)[1..] == rest;
      }
    }
  }

  // -------------------------------------------------------------- full agreement

  lemma {:induction false} RunKeepsKept(sys: System, events: seq<Event>, p: Party, gone: set<Slot>)
    requires Inv(sys) && LegalRun(sys, events) && KeptFor(sys, p, gone)
    ensures KeptFor(Run(sys, events), p, gone + Evicted(sys, events, p))
    decreases |events|
  {
    assert Shaped(sys.log);
    if events == [] {
      hide Inv, KeptFor;
      assert gone + {} == gone;
    } else {
      RunUnfolds(sys, events, p);
      hide *;
      var now, next := EvictedAt(sys, events[0], p), Step(sys, events[0]);
      var later := Evicted(next, events[1..], p);
      StepKeepsInv(sys, events[0]);
      StepKeepsKept(sys, events[0], p, gone);
      RunKeepsKept(next, events[1..], p, gone + now);
      Associative(gone, now, later);
    }
  }

  lemma Associative(a: set<Slot>, b: set<Slot>, c: set<Slot>)
    ensures (a + b) + c == a + (b + c)
  {
  }

  lemma RunUnfolds(sys: System, events: seq<Event>, p: Party)
    requires Shaped(sys.log) && events != []
    ensures var next := Step(sys, events[0]);
            && Run(sys, events) == Run(next, events[1..])
            && (LegalRun(sys, events) ==> Legal(sys, events[0]) && LegalRun(next, events[1..]))
            && Evicted(sys, events, p) == EvictedAt(sys, events[0], p) + Evicted(next, events[1..], p)
  {
    hide Step, Legal, EvictedAt;
  }

  lemma NothingGoneAtStart(secret: Bytes, bobKey: Bytes, aliceKey: Bytes, p: Party)
    requires |bobKey| == |aliceKey| == 32 && bobKey != aliceKey
    ensures KeptFor(Start(secret, bobKey, aliceKey), p, {})
  {
  }

  /** The message was jumped over, or the gap to it is within the limit. */
  predicate WithinLimits(sys: System, p: Party, j: nat, n: nat)
    requires Shaped(sys.log) && IsSent(sys.log, j, n)
  {
    var s, g := SessionOf(sys, p), Turn(sys.log, p);
    || Behind(sys.log, g, s.recvNumber, j, n)
    || (j + 1 == g && n <= s.recvNumber + 1000)
    || (j == g + 1 && PreviousLength(sys.log, j) <= s.recvNumber + 1000 && n <= 1000)
  }

  /** The slots a run from the start evicts from a party's store. */
  function EvictedInRun(secret: Bytes, bobKey: Bytes, aliceKey: Bytes, events: seq<Event>, p: Party): set<Slot>
    requires |bobKey| == 32
  {
    Evicted(Start(secret, bobKey, aliceKey), events, p)
  }

  /** Whole-run agreement, for every run: a message the peer sent is accepted, with exactly its plaintext, if and only
      if it was not received before, no gap to it exceeds 1000, and its key was not evicted. Nothing else can go
      wrong, and an overflow costs exactly the keys it evicts, of that party alone. */
  lemma WholeRunAgreement(secret: Bytes, bobKey: Bytes, aliceKey: Bytes, events: seq<Event>,
                          p: Party, j: nat, n: nat, newKey: Bytes)
    requires HonestRun(secret, bobKey, aliceKey, events)
    requires IsSent(Final(secret, bobKey, aliceKey, events).log, j, n) && j % 2 != Parity(p)
    ensures var sys := Final(secret, bobKey, aliceKey, events);
            var m := sys.log.chains[j][n];
            var result := Delivery(sys, p, m.header, m.ciphertext, newKey);
            if && !Received(sys.receipts, m.header) && WithinLimits(sys, p, j, n)
               && SlotAt(sys.log, j, n) !in EvictedInRun(secret, bobKey, aliceKey, events, p)
            then result == Ok(m.plaintext) else result.Err?
  {
    hide Inv, KeptFor, Delivery, LegalRun, Run, Evicted, ReadyFor, WithinLimits, Received;
    FinalInv(secret, bobKey, aliceKey, events);
    StartInv(secret, bobKey, aliceKey);
    NothingGoneAtStart(secret, bobKey, aliceKey, p);
    var gone := EvictedInRun(secret, bobKey, aliceKey, events, p);
    RunKeepsKept(Start(secret, bobKey, aliceKey), events, p, {});
    assert {} + gone == gone;
    var sys := Final(secret, bobKey, aliceKey, events);
    GenuineIffReady(sys, p, j, n, newKey);
    ReadyWhenKept(sys, p, j, n, gone);
  }

  lemma ReadyWhenKept(sys: System, p: Party, j: nat, n: nat, gone: set<Slot>)
    requires Inv(sys) && KeptFor(sys, p, gone) && IsSent(sys.log, j, n) && j % 2 != Parity(p)
    ensures ReadyFor(sys, p, j, n) <==>
            && !Received(sys.receipts, sys.log.chains[j][n].header) && WithinLimits(sys, p, j, n)
            && SlotAt(sys.log, j, n) !in gone
  {
    var s, g := SessionOf(sys, p), Turn(sys.log, p);
    PartyFacts(sys, p);
    if ReadyFor(sys, p, j, n) {
      AcceptedNotReceived(sys, p, j, n);
    }
    if Find(s.store, SlotAt(sys.log, j, n)).Some? {
      HeldIsBehind(sys.log, sys.receipts, g, s.recvNumber, s.store, j, n);
    }
    if !Behind(sys.log, g, s.recvNumber, j, n) {
      NewIsNotGone(sys.log, sys.log, g, s.recvNumber, gone, j, n);
    }
  }

  predicate Roomy(sys: System, e: Event, p: Party) {
    e.Deliver? && e.party == p && Delivery(sys, p, e.header, e.ciphertext, e.newKey).Ok? ==>
      |SessionOf(sys, p).store| + SkipCount(SessionOf(sys, p), e.header) <= MAX_SKIPPED_KEYS
  }

  predicate RoomyRun(sys: System, events: seq<Event>, p: Party)
    requires Shaped(sys.log)
    decreases |events|
  {
    events == [] || (Roomy(sys, events[0], p) && RoomyRun(Step(sys, events[0]), events[1..], p))
  }

  /** A run evicts nothing from a party's store if and only if each accepted delivery to that party finds room. */
  lemma {:induction false} EvictsNothingIffRoomy(sys: System, events: seq<Event>, p: Party)
    requires Shaped(sys.log)
    ensures Evicted(sys, events, p) == {} <==> RoomyRun(sys, events, p)
    decreases |events|
  {
    if events != [] {
      hide Step, Delivery;
      EvictsNothingIffRoomy(Step(sys, events[0]), events[1..], p);
      RoomForOne(sys, events[0], p);
    }
  }

  lemma RoomForOne(sys: System, e: Event, p: Party)
    ensures EvictedAt(sys, e, p) == {} <==> Roomy(sys, e, p)
  {
    if !Roomy(sys, e, p) {
      var s := SessionOf(sys, p);
      var all := SlotsOf(s.store) + JumpedSlots(s, e.header);
      assert all[0] in Dropped(all);
    }
  }
}
