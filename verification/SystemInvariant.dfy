/** Sends and deliveries keep the invariant of the two-party system. */
module SystemInvariant {
  import opened Wrappers
  import opened ByteText
  import opened SymbolicCrypto
  import opened MessageHeader
  import opened SkippedKeys
  import opened RatchetSession
  import opened TwoParty
  import opened Acceptance
  import opened Lockstep

  // -------------------------------------------------------------------- receipts

  /** The log only grows and neither receiver moves back. */
  ghost predicate Progress(sys: System, next: System) {
    && Extends(sys.log, next.log)
    && forall q :: MovesOn(sys, next, q)
  }

  predicate MovesOn(sys: System, next: System, q: Party)
    requires Shaped(sys.log) && Shaped(next.log)
  {
    || (Turn(next.log, q) == Turn(sys.log, q) && SessionOf(sys, q).recvNumber <= SessionOf(next, q).recvNumber)
    || Turn(next.log, q) == Turn(sys.log, q) + 2
  }

  lemma ReceiptStays(sys: System, next: System, r: Receipt)
    requires Progress(sys, next) && HasSource(sys, r)
    ensures HasSource(next, r)
  {
    var j: nat, n: nat :| ReceiptFor(sys, r, j, n);
    SentStays(sys.log, next.log, j, n);
    assert MovesOn(sys, next, r.receiver);
    assert ReceiptFor(next, r, j, n);
  }

  lemma ReceiptsKept(sys: System, next: System)
    requires Progress(sys, next) && ReceiptsOk(sys) && next.receipts == sys.receipts
    ensures ReceiptsOk(next)
  {
    forall i | 0 <= i < |next.receipts| ensures HasSource(next, next.receipts[i]) {
      ReceiptStays(sys, next, sys.receipts[i]);
    }
  }

  lemma ReceiptsAdded(sys: System, next: System, r: Receipt, j: nat, n: nat)
    requires Progress(sys, next) && ReceiptsOk(sys) && next.receipts == sys.receipts + [r]
    requires ReceiptFor(next, r, j, n) && !Received(sys.receipts, r.header)
    ensures ReceiptsOk(next)
  {
    forall i | 0 <= i < |next.receipts| ensures HasSource(next, next.receipts[i]) {
      if i < |sys.receipts| {
        ReceiptStays(sys, next, sys.receipts[i]);
      }
    }
  }

  /** A message that was received is behind its receiver. */
  lemma ReceivedIsBehind(sys: System, p: Party, j: nat, n: nat)
    requires LogOk(sys.log) && ReceiptsOk(sys) && IsSent(sys.log, j, n) && j % 2 != Parity(p)
    requires Received(sys.receipts, sys.log.chains[j][n].header)
    ensures Behind(sys.log, Turn(sys.log, p), SessionOf(sys, p).recvNumber, j, n)
  {
    var i :| 0 <= i < |sys.receipts| && sys.receipts[i].header == sys.log.chains[j][n].header;
    var j': nat, n': nat :| ReceiptFor(sys, sys.receipts[i], j', n');
    HeadersDiffer(sys.log, j, n, j', n');
    assert sys.receipts[i].receiver == p;
  }

  lemma NothingAheadReceived(sys: System, p: Party)
    requires LogOk(sys.log) && ReceiptsOk(sys)
    ensures AheadUnreceived(sys.log, sys.receipts, Turn(sys.log, p), SessionOf(sys, p).recvNumber)
  {
    var g, recv := Turn(sys.log, p), SessionOf(sys, p).recvNumber;
    forall j: nat, n: nat | IsSent(sys.log, j, n) && j % 2 != g % 2 && !Behind(sys.log, g, recv, j, n)
      ensures !Received(sys.receipts, sys.log.chains[j][n].header)
    {
      if Received(sys.receipts, sys.log.chains[j][n].header) {
        ReceivedIsBehind(sys, p, j, n);
      }
    }
  }

  lemma PartyFacts(sys: System, p: Party)
    requires Inv(sys)
    ensures Shaped(sys.log) && LogOk(sys.log) && ReceiptsOk(sys) && PartyOk(sys, p)
    ensures InStep(sys.log, Turn(sys.log, p), SessionOf(sys, p))
    ensures StoreOk(sys.log, sys.receipts, Turn(sys.log, p), SessionOf(sys, p).recvNumber, SessionOf(sys, p).store)
    ensures AheadUnreceived(sys.log, sys.receipts, Turn(sys.log, p), SessionOf(sys, p).recvNumber)
  {
    NothingAheadReceived(sys, p);
  }

  lemma PartyFromSide(sys: System, p: Party)
    requires Shaped(sys.log) && InStep(sys.log, Turn(sys.log, p), SessionOf(sys, p))
    requires StoreOk(sys.log, sys.receipts, Turn(sys.log, p), SessionOf(sys, p).recvNumber, SessionOf(sys, p).store)
    ensures PartyOk(sys, p)
  {
  }

  lemma InvFromSides(sys: System, p: Party)
    requires LogOk(sys.log) && ReceiptsOk(sys) && PartyOk(sys, Peer(p))
    requires InStep(sys.log, Turn(sys.log, p), SessionOf(sys, p))
    requires StoreOk(sys.log, sys.receipts, Turn(sys.log, p), SessionOf(sys, p).recvNumber, SessionOf(sys, p).store)
    ensures Inv(sys)
  {
    assert PartyOk(sys, p);
  }

  lemma ProgressSelf(sys: System)
    requires Shaped(sys.log)
    ensures Progress(sys, sys)
  {
  }

  lemma ProgressSend(sys: System, next: System, p: Party)
    requires Extends(sys.log, next.log) && next.log.keys == sys.log.keys
    requires SessionOf(next, p).recvNumber == SessionOf(sys, p).recvNumber
    requires SessionOf(next, Peer(p)) == SessionOf(sys, Peer(p))
    ensures Progress(sys, next)
  {
    forall q ensures MovesOn(sys, next, q) {
      assert q == p || q == Peer(p);
    }
  }

  // ------------------------------------------------------------------------ send

  lemma SenderInStep(log: Log, g: nat, s: Session, m: Sent)
    requires LogOk(log) && 0 < g < |log.keys| && InStep(log, g, s)
    ensures InStep(RecordSent(log, g, m), g,
                   s.(sendingChain := Some(Advance(SeedAt(log, g), |log.chains[g]| + 1)),
                     sendNumber := s.sendNumber + 1))
  {
    var more := RecordSent(log, g, m);
    RootPrefix(log, more, g);
    RootPrefix(log, more, g - 1);
  }

  /** What a session in lockstep encrypts is the next message of its chain. */
  lemma EncryptsNext(log: Log, g: nat, s: Session, plaintext: Bytes, nonce: Bytes)
    requires LogOk(log) && 0 < g < |log.keys| && InStep(log, g, s)
    ensures var (after, result) := Encrypt(s, plaintext, nonce);
            && result.Ok?
            && after == s.(sendingChain := Some(Advance(SeedAt(log, g), |log.chains[g]| + 1)),
                        sendNumber := s.sendNumber + 1)
            && MessageOk(RecordSent(log, g, Sent(result.value.1, result.value.0, plaintext)), g, |log.chains[g]|)
  {
    var (after, result) := Encrypt(s, plaintext, nonce);
    RootPrefix(log, RecordSent(log, g, Sent(result.value.1, result.value.0, plaintext)), g);
  }

  /** Both sides after a send. */
  lemma SendSides(log: Log, receipts: seq<Receipt>, g: nat, s: Session, after: Session, h: nat, t: Session, m: Sent)
    requires LogOk(log) && 0 < g < |log.keys| <= g + 2 && h < |log.keys| && h % 2 != g % 2
    requires MessageOk(RecordSent(log, g, m), g, |log.chains[g]|)
    requires StoreOk(log, receipts, g, s.recvNumber, s.store) && after.store == s.store
    requires after.recvNumber == s.recvNumber
    requires InStep(log, h, t) && StoreOk(log, receipts, h, t.recvNumber, t.store)
    ensures LogOk(RecordSent(log, g, m)) && Extends(log, RecordSent(log, g, m))
    ensures StoreOk(RecordSent(log, g, m), receipts, g, after.recvNumber, after.store)
    ensures InStep(RecordSent(log, g, m), h, t) && StoreOk(RecordSent(log, g, m), receipts, h, t.recvNumber, t.store)
  {
    LogWithMessage(log, g, m);
    InStepStays(log, RecordSent(log, g, m), h, t);
    StoreStays(log, RecordSent(log, g, m), receipts, g, g, s.recvNumber, s.recvNumber, s.store);
    StoreStays(log, RecordSent(log, g, m), receipts, h, h, t.recvNumber, t.recvNumber, t.store);
  }

  lemma CommitSend(sys: System, p: Party, after: Session, m: Sent)
    requires Inv(sys) && 0 < Turn(sys.log, p)
    requires MessageOk(RecordSent(sys.log, Turn(sys.log, p), m), Turn(sys.log, p), |sys.log.chains[Turn(sys.log, p)]|)
    requires InStep(RecordSent(sys.log, Turn(sys.log, p), m), Turn(sys.log, p), after)
    requires after.store == SessionOf(sys, p).store && after.recvNumber == SessionOf(sys, p).recvNumber
    ensures var next := WithSession(sys, p, after).(log := RecordSent(sys.log, Turn(sys.log, p), m));
            Inv(next) && Progress(sys, next)
  {
    hide Inv, PartyOk, LogOk, InStep, StoreOk, ReceiptsOk, AheadUnreceived, Progress;
    PartyFacts(sys, p);
    PartyFacts(sys, Peer(p));
    var s, g := SessionOf(sys, p), Turn(sys.log, p);
    var t, h := SessionOf(sys, Peer(p)), Turn(sys.log, Peer(p));
    var more := RecordSent(sys.log, g, m);
    var next := WithSession(sys, p, after).(log := more);
    SendSides(sys.log, sys.receipts, g, s, after, h, t, m);
    ProgressSend(sys, next, p);
    ReceiptsKept(sys, next);
    PartyFromSide(next, Peer(p));
    InvFromSides(next, p);
  }

  lemma SendKeepsInv(sys: System, p: Party, plaintext: Bytes, nonce: Bytes)
    requires Inv(sys)
    ensures Inv(Step(sys, Send(p, plaintext, nonce)))
    ensures Progress(sys, Step(sys, Send(p, plaintext, nonce)))
  {
    var s, g := SessionOf(sys, p), Turn(sys.log, p);
    PartyFacts(sys, p);
    if g > 0 {
      var (after, result) := Encrypt(s, plaintext, nonce);
      EncryptsNext(sys.log, g, s, plaintext, nonce);
      var m := Sent(result.value.1, result.value.0, plaintext);
      SenderInStep(sys.log, g, s, m);
      CommitSend(sys, p, after, m);
    } else {
      assert s.sendingChain.None?;
    }
  }

  // ----------------------------------------------------------- committed deliveries

  /** The receipt is for a message of the peer that was not received before. */
  ghost predicate NewReceipt(sys: System, p: Party, r: Receipt, j: nat, n: nat) {
    && r.receiver == p
    && Genuine(sys, p, r.header, r.ciphertext, j, n)
    && r.plaintext == sys.log.chains[j][n].plaintext
    && !Received(sys.receipts, r.header)
  }

  /** The peer is unaffected. */
  lemma PeerStays(sys: System, next: System, p: Party, r: Receipt, j: nat, n: nat)
    requires Inv(sys) && Extends(sys.log, next.log) && NewReceipt(sys, p, r, j, n)
    requires next.receipts == sys.receipts + [r]
    requires SessionOf(next, Peer(p)) == SessionOf(sys, Peer(p)) && Turn(next.log, Peer(p)) == Turn(sys.log, Peer(p))
    requires forall i :: 0 <= i < |sys.log.chains| ==> next.log.chains[i] == sys.log.chains[i]
    ensures PartyOk(next, Peer(p))
  {
    var q := Peer(p);
    var t, h := SessionOf(sys, q), Turn(sys.log, q);
    PartyFacts(sys, q);
    InStepStays(sys.log, next.log, h, t);
    StoreAfterReceipt(sys.log, next.log, sys.receipts, r, j, n, h, t.recvNumber, t.recvNumber, t.store);
  }

  lemma ProgressSameKey(sys: System, next: System, p: Party)
    requires Shaped(sys.log) && next.log == sys.log
    requires SessionOf(sys, p).recvNumber <= SessionOf(next, p).recvNumber
    requires SessionOf(next, Peer(p)) == SessionOf(sys, Peer(p))
    ensures Extends(sys.log, next.log) && Progress(sys, next)
  {
    forall q ensures MovesOn(sys, next, q) {
      assert q == p || q == Peer(p);
    }
  }

  lemma OwnKey(log: Log, g: nat, s: Session)
    requires Shaped(log) && g < |log.keys| && InStep(log, g, s)
    ensures s.dhPublic == log.keys[g]
  {
  }

  lemma CommitSameKey(sys: System, p: Party, after: Session, r: Receipt, j: nat, n: nat)
    requires Inv(sys) && NewReceipt(sys, p, r, j, n)
    requires InStep(sys.log, Turn(sys.log, p), after)
    requires StoreOk(sys.log, sys.receipts + [r], Turn(sys.log, p), after.recvNumber, after.store)
    requires SessionOf(sys, p).recvNumber <= after.recvNumber
    requires Behind(sys.log, Turn(sys.log, p), after.recvNumber, j, n)
    ensures Inv(Commit(sys, after, r)) && Progress(sys, Commit(sys, after, r))
  {
    hide Inv, PartyOk, LogOk, InStep, StoreOk, ReceiptsOk, AheadUnreceived, Progress, Extends;
    PartyFacts(sys, p);
    OwnKey(sys.log, Turn(sys.log, p), SessionOf(sys, p));
    OwnKey(sys.log, Turn(sys.log, p), after);
    var next := WithSession(sys, p, after).(receipts := sys.receipts + [r]);
    assert Commit(sys, after, r) == next;
    ProgressSameKey(sys, next, p);
    PeerStays(sys, next, p, r, j, n);
    assert ReceiptFor(next, r, j, n);
    ReceiptsAdded(sys, next, r, j, n);
    InvFromSides(next, p);
  }

  lemma ProgressNewKey(sys: System, next: System, p: Party, key: Bytes)
    requires LogOk(sys.log) && next.log == RecordKey(sys.log, key)
    requires |key| == 32 && key !in sys.log.keys && |sys.log.keys| == Turn(sys.log, p) + 2
    requires SessionOf(next, Peer(p)) == SessionOf(sys, Peer(p))
    ensures LogOk(next.log) && Progress(sys, next)
    ensures Turn(next.log, p) == Turn(sys.log, p) + 2 && Turn(next.log, Peer(p)) == Turn(sys.log, Peer(p))
  {
    LogWithKey(sys.log, key);
    forall q ensures MovesOn(sys, next, q) {
      assert q == p || q == Peer(p);
    }
  }

  lemma CommitNewKey(sys: System, p: Party, after: Session, r: Receipt, newKey: Bytes, n: nat)
    requires Inv(sys) && NewReceipt(sys, p, r, Turn(sys.log, p) + 1, n)
    requires |newKey| == 32 && newKey !in sys.log.keys
    requires after.dhPublic == newKey && after.recvNumber == n + 1
    requires InStep(RecordKey(sys.log, newKey), Turn(sys.log, p) + 2, after)
    requires StoreOk(RecordKey(sys.log, newKey), sys.receipts + [r], Turn(sys.log, p) + 2, n + 1, after.store)
    ensures Inv(Commit(sys, after, r)) && Progress(sys, Commit(sys, after, r))
  {
    hide Inv, PartyOk, LogOk, InStep, StoreOk, ReceiptsOk, AheadUnreceived, Progress;
    PartyFacts(sys, p);
    OwnKey(sys.log, Turn(sys.log, p), SessionOf(sys, p));
    var next := WithSession(sys, p, after).(receipts := sys.receipts + [r], log := RecordKey(sys.log, newKey));
    assert Commit(sys, after, r) == next;
    ProgressNewKey(sys, next, p, newKey);
    PeerStays(sys, next, p, r, Turn(sys.log, p) + 1, n);
    NewKeyReceipt(sys, next, r, Turn(sys.log, p) + 1, n);
    InvFromSides(next, p);
  }

  lemma NewKeyReceipt(sys: System, next: System, r: Receipt, j: nat, n: nat)
    requires Progress(sys, next) && ReceiptsOk(sys) && next.receipts == sys.receipts + [r]
    requires NewReceipt(sys, r.receiver, r, j, n)
    requires j + 1 == Turn(next.log, r.receiver) && SessionOf(next, r.receiver).recvNumber == n + 1
    ensures ReceiptsOk(next)
  {
    SentStays(sys.log, next.log, j, n);
    assert ReceiptFor(next, r, j, n);
    ReceiptsAdded(sys, next, r, j, n);
  }

  // --------------------------------------------------- the receiver's side, by case

  lemma StoredReceiver(log: Log, receipts: seq<Receipt>, r: Receipt, g: nat, recv: nat, store: Store, j: nat, n: nat)
    requires LogOk(log) && StoreOk(log, receipts, g, recv, store)
    requires IsSent(log, j, n) && r.header == log.chains[j][n].header
    ensures StoreOk(log, receipts + [r], g, recv, Without(store, SlotAt(log, j, n)))
  {
    var taken := SlotAt(log, j, n);
    StoreAfterTake(log, receipts, g, recv, store, taken);
    StoreAfterReceipt(log, log, receipts, r, j, n, g, recv, recv, Without(store, taken));
  }

  lemma InStepAnyStore(log: Log, g: nat, s: Session, store: Store)
    requires Shaped(log) && g < |log.keys| && InStep(log, g, s)
    ensures InStep(log, g, s.(store := store))
  {
  }

  /** A key the store holds belongs to a message behind the receiver that was not received. */
  lemma HeldIsBehind(log: Log, receipts: seq<Receipt>, g: nat, recv: nat, store: Store, j: nat, n: nat)
    requires LogOk(log) && StoreOk(log, receipts, g, recv, store)
    requires 0 < j < |log.keys| && Find(store, SlotAt(log, j, n)).Some?
    ensures Behind(log, g, recv, j, n) && !Received(receipts, log.chains[j][n].header)
  {
    var slot := SlotAt(log, j, n);
    var i: nat :| StoredFor(log, receipts, g, recv, i, slot, Find(store, slot).value);
    SameKey(log, i, j, n);
  }

  lemma SameKey(log: Log, i: nat, j: nat, n: nat)
    requires LogOk(log) && i < |log.keys| && j < |log.keys| && SlotAt(log, i, n) == SlotAt(log, j, n)
    ensures i == j
  {
    assert HexDecode(HexEncode(log.keys[j])) == HexDecode(HexEncode(log.keys[i]));
  }

  lemma CurrentStore(log: Log, receipts: seq<Receipt>, r: Receipt, g: nat, recv: nat, store: Store, n: nat)
    requires LogOk(log) && 2 <= g < |log.keys|
    requires StoreOk(log, receipts, g, recv, store) && AheadUnreceived(log, receipts, g, recv)
    requires IsSent(log, g - 1, n) && r.header == log.chains[g - 1][n].header && recv <= n
    ensures StoreOk(log, receipts + [r], g, n + 1, PutAll(store, KeysOfChain(log, g - 1, recv, n)))
  {
    StoreAfterSkip(log, log, receipts, g, g, recv, n, store, g - 1, recv, n);
    NextReceived(log, receipts, r, g, PutAll(store, KeysOfChain(log, g - 1, recv, n)), n);
  }

  /** Receiving the very next message of the current chain needs no stored key. */
  lemma NextReceived(log: Log, receipts: seq<Receipt>, r: Receipt, g: nat, store: Store, n: nat)
    requires LogOk(log) && 2 <= g < |log.keys| && StoreOk(log, receipts, g, n, store)
    requires IsSent(log, g - 1, n) && r.header == log.chains[g - 1][n].header
    ensures StoreOk(log, receipts + [r], g, n + 1, store)
  {
    if Find(store, SlotAt(log, g - 1, n)).Some? {
      HeldIsBehind(log, receipts, g, n, store, g - 1, n);
    }
    StoreAfterReceipt(log, log, receipts, r, g - 1, n, g, n, n + 1, store);
  }

  /** The receiver after catching up on the chain of key `g - 1` and receiving message `n` of it. */
  lemma CurrentReceiver(log: Log, receipts: seq<Receipt>, r: Receipt, g: nat, s: Session, n: nat)
    requires LogOk(log) && 2 <= g < |log.keys| && InStep(log, g, s)
    requires StoreOk(log, receipts, g, s.recvNumber, s.store) && AheadUnreceived(log, receipts, g, s.recvNumber)
    requires IsSent(log, g - 1, n) && r.header == log.chains[g - 1][n].header && s.recvNumber <= n
    ensures InStep(log, g, AfterCurrent(s, n))
    ensures StoreOk(log, receipts + [r], g, n + 1, AfterCurrent(s, n).store)
  {
    AdvanceAdds(SeedAt(log, g - 1), s.recvNumber, n - s.recvNumber + 1);
    CurrentStore(log, receipts, r, g, s.recvNumber, s.store, n);
  }

  /** The state after a success on the chain of a new ratchet key. */
  function AfterNewKey(s: Session, header: Header, newKey: DhSecret): Session
    requires header.previousChainLength >= s.recvNumber && |header.dhPublic| >= KEY_LENGTH
  {
    AfterCurrent(DhRatchet(Completed(s, header.previousChainLength), header.dhPublic, newKey), header.messageNumber)
  }

  lemma NewKeyAfter(s: Session, header: Header, ciphertext: Ciphertext, newKey: DhSecret)
    requires header.previousChainLength >= s.recvNumber && s.dhRemote != Some(header.dhPublic)
    requires Find(s.store, SlotOf(header)).None? && Decrypt(s, header, ciphertext, newKey).result.Ok?
    ensures |header.dhPublic| >= KEY_LENGTH
    ensures Decrypt(s, header, ciphertext, newKey).after == AfterNewKey(s, header, newKey)
  {
    ReceiveCurrentAfter(DhRatchet(Completed(s, header.previousChainLength), header.dhPublic, newKey), header,
        ciphertext);
  }

  /** The ratcheted session is in lockstep two keys further on. */
  lemma RatchetInStep(log: Log, g: nat, s: Session, length: nat, newKey: Bytes)
    requires LogOk(log) && |log.keys| == g + 2 && InStep(log, g, s)
    requires |newKey| == 32 && newKey !in log.keys
    requires s.recvNumber <= length == PreviousLength(log, g + 1)
    ensures InStep(RecordKey(log, newKey), g + 2, DhRatchet(Completed(s, length), log.keys[g + 1], DhSecret(newKey)))
  {
    var more := RecordKey(log, newKey);
    LogWithKey(log, newKey);
    var theirs := log.keys[g + 1];
    assert X25519Key(theirs) == theirs;
    LinkAgrees(more, g + 1);
    LinkAgrees(more, g + 2);
    RootPrefix(log, more, g);
    assert RootAt(more, g + 1) == NextRoot(RootAt(more, g), Link(more, g + 1));
    assert RootAt(more, g + 2) == NextRoot(RootAt(more, g + 1), Link(more, g + 2));
  }

  lemma CompletedStore(log: Log, receipts: seq<Receipt>, g: nat, s: Session, length: nat, newKey: Bytes)
    requires LogOk(log) && |log.keys| == g + 2 && InStep(log, g, s)
    requires StoreOk(log, receipts, g, s.recvNumber, s.store) && AheadUnreceived(log, receipts, g, s.recvNumber)
    requires |newKey| == 32 && newKey !in log.keys
    requires s.recvNumber <= length == PreviousLength(log, g + 1)
    ensures StoreOk(RecordKey(log, newKey), receipts, g + 2, 0, Completed(s, length).store)
  {
    var more := RecordKey(log, newKey);
    LogWithKey(log, newKey);
    if g >= 2 {
      StoreAfterSkip(log, more, receipts, g, g + 2, s.recvNumber, 0, s.store, g - 1, s.recvNumber, length);
    } else {
      StoreStays(log, more, receipts, g, g + 2, s.recvNumber, 0, s.store);
    }
  }

  lemma AheadAfterNewKey(log: Log, receipts: seq<Receipt>, g: nat, recv: nat, newKey: Bytes)
    requires LogOk(log) && |log.keys| == g + 2 && AheadUnreceived(log, receipts, g, recv)
    ensures AheadUnreceived(RecordKey(log, newKey), receipts, g + 2, 0)
  {
    var more := RecordKey(log, newKey);
    forall j: nat, n: nat | IsSent(more, j, n) && j % 2 != (g + 2) % 2 && !Behind(more, g + 2, 0, j, n)
      ensures !Received(receipts, more.chains[j][n].header)
    {
      assert IsSent(log, j, n) && !Behind(log, g, recv, j, n);
    }
  }

  lemma NewKeyReceiver(log: Log, receipts: seq<Receipt>, r: Receipt, g: nat, s: Session, newKey: Bytes, n: nat)
    requires LogOk(log) && |log.keys| == g + 2 && InStep(log, g, s)
    requires StoreOk(log, receipts, g, s.recvNumber, s.store) && AheadUnreceived(log, receipts, g, s.recvNumber)
    requires |newKey| == 32 && newKey !in log.keys
    requires IsSent(log, g + 1, n) && r.header == log.chains[g + 1][n].header
    ensures r.header.previousChainLength >= s.recvNumber && |r.header.dhPublic| == 32
    ensures var after := AfterNewKey(s, r.header, DhSecret(newKey));
            && InStep(RecordKey(log, newKey), g + 2, after)
            && StoreOk(RecordKey(log, newKey), receipts + [r], g + 2, n + 1, after.store)
            && after.recvNumber == n + 1 && after.dhPublic == newKey
  {
    var more := RecordKey(log, newKey);
    HeaderOf(log, g + 1, n);
    LogWithKey(log, newKey);
    var length := r.header.previousChainLength;
    RatchetInStep(log, g, s, length, newKey);
    CompletedStore(log, receipts, g, s, length, newKey);
    AheadAfterNewKey(log, receipts, g, s.recvNumber, newKey);
    var ratcheted := DhRatchet(Completed(s, length), r.header.dhPublic, DhSecret(newKey));
    SentStays(log, more, g + 1, n);
    CurrentReceiver(more, receipts, r, g + 2, ratcheted, n);
  }

  // --------------------------------------------------------------------- deliver

  lemma AcceptedNotReceived(sys: System, p: Party, j: nat, n: nat)
    requires Inv(sys) && IsSent(sys.log, j, n) && j % 2 != Parity(p) && ReadyFor(sys, p, j, n)
    ensures !Received(sys.receipts, sys.log.chains[j][n].header)
  {
    var s, g := SessionOf(sys, p), Turn(sys.log, p);
    PartyFacts(sys, p);
    if Find(s.store, SlotAt(sys.log, j, n)).Some? {
      HeldIsBehind(sys.log, sys.receipts, g, s.recvNumber, s.store, j, n);
    } else {
      NothingAheadReceived(sys, p);
      assert !Behind(sys.log, g, s.recvNumber, j, n);
    }
  }

  lemma StoredDelivery(sys: System, p: Party, r: Receipt, j: nat, n: nat)
    requires Inv(sys) && NewReceipt(sys, p, r, j, n)
    requires Find(SessionOf(sys, p).store, SlotOf(r.header)).Some?
    ensures var s := SessionOf(sys, p);
            var after := s.(store := Without(s.store, SlotOf(r.header)));
            Inv(Commit(sys, after, r)) && Progress(sys, Commit(sys, after, r))
  {
    hide Inv, PartyOk, LogOk, InStep, StoreOk, ReceiptsOk, AheadUnreceived, Progress;
    PartyFacts(sys, p);
    var s, g := SessionOf(sys, p), Turn(sys.log, p);
    HeaderOf(sys.log, j, n);
    assert SlotOf(r.header) == SlotAt(sys.log, j, n);
    HeldIsBehind(sys.log, sys.receipts, g, s.recvNumber, s.store, j, n);
    InStepAnyStore(sys.log, g, s, Without(s.store, SlotOf(r.header)));
    StoredReceiver(sys.log, sys.receipts, r, g, s.recvNumber, s.store, j, n);
    CommitSameKey(sys, p, s.(store := Without(s.store, SlotOf(r.header))), r, j, n);
  }

  lemma CurrentDelivery(sys: System, p: Party, r: Receipt, n: nat)
    requires Inv(sys) && Turn(sys.log, p) >= 2 && NewReceipt(sys, p, r, Turn(sys.log, p) - 1, n)
    requires SessionOf(sys, p).recvNumber <= n
    ensures SessionOf(sys, p).receivingChain.Some?
    ensures var after := AfterCurrent(SessionOf(sys, p), n);
            Inv(Commit(sys, after, r)) && Progress(sys, Commit(sys, after, r))
  {
    hide Inv, PartyOk, LogOk, InStep, StoreOk, ReceiptsOk, AheadUnreceived, Progress;
    PartyFacts(sys, p);
    var s, g := SessionOf(sys, p), Turn(sys.log, p);
    CurrentReceiver(sys.log, sys.receipts, r, g, s, n);
    CommitSameKey(sys, p, AfterCurrent(s, n), r, g - 1, n);
  }

  lemma NewKeyDelivery(sys: System, p: Party, r: Receipt, newKey: Bytes, n: nat)
    requires Inv(sys) && NewReceipt(sys, p, r, Turn(sys.log, p) + 1, n)
    requires |newKey| == 32 && newKey !in sys.log.keys
    ensures r.header.previousChainLength >= SessionOf(sys, p).recvNumber && |r.header.dhPublic| == 32
    ensures var after := AfterNewKey(SessionOf(sys, p), r.header, DhSecret(newKey));
            Inv(Commit(sys, after, r)) && Progress(sys, Commit(sys, after, r))
  {
    hide Inv, PartyOk, LogOk, InStep, StoreOk, ReceiptsOk, AheadUnreceived, Progress;
    PartyFacts(sys, p);
    var s, g := SessionOf(sys, p), Turn(sys.log, p);
    NewKeyReceiver(sys.log, sys.receipts, r, g, s, newKey, n);
    CommitNewKey(sys, p, AfterNewKey(s, r.header, DhSecret(newKey)), r, newKey, n);
  }

  predicate CanLeave(s: Session, header: Header) {
    Find(s.store, SlotOf(header)).None? ==>
      if s.dhRemote == Some(header.dhPublic) then s.receivingChain.Some? && s.recvNumber <= header.messageNumber
      else header.previousChainLength >= s.recvNumber && |header.dhPublic| >= KEY_LENGTH
  }

  /** What a successful delivery leaves behind, by the way it found its key. */
  function After(s: Session, header: Header, newKey: DhSecret): Session
    requires CanLeave(s, header)
  {
    if Find(s.store, SlotOf(header)).Some? then s.(store := Without(s.store, SlotOf(header)))
    else if s.dhRemote == Some(header.dhPublic) then AfterCurrent(s, header.messageNumber)
    else AfterNewKey(s, header, newKey)
  }

  lemma StepCommits(sys: System, p: Party, header: Header, ciphertext: Ciphertext, newKey: Bytes, plaintext: Bytes)
    requires Shaped(sys.log) && Delivery(sys, p, header, ciphertext, newKey) == Ok(plaintext)
    requires CanLeave(SessionOf(sys, p), header)
    ensures Step(sys, Deliver(p, header, ciphertext, newKey)) ==
            Commit(sys, After(SessionOf(sys, p), header, DhSecret(newKey)), Receipt(p, header, ciphertext, plaintext))
  {
    var s := SessionOf(sys, p);
    if Find(s.store, SlotOf(header)).None? {
      if s.dhRemote == Some(header.dhPublic) {
        ReceiveCurrentAfter(s, header, ciphertext);
      } else {
        NewKeyAfter(s, header, ciphertext, DhSecret(newKey));
      }
    }
  }

  /** A message the receiver is ready for but does not hold the key of is on its current or the next chain. */
  lemma ReadyWhere(sys: System, p: Party, j: nat, n: nat)
    requires Inv(sys) && IsSent(sys.log, j, n) && j % 2 != Parity(p) && ReadyFor(sys, p, j, n)
    requires Find(SessionOf(sys, p).store, SlotOf(sys.log.chains[j][n].header)).None?
    ensures var s, g, header := SessionOf(sys, p), Turn(sys.log, p), sys.log.chains[j][n].header;
            && header.messageNumber == n
            && (s.dhRemote == Some(header.dhPublic) ==> g >= 2 && j == g - 1 && s.recvNumber <= n)
            && (s.dhRemote != Some(header.dhPublic) ==> j == g + 1)
  {
    PartyFacts(sys, p);
    HeaderOf(sys.log, j, n);
    assert SlotOf(sys.log.chains[j][n].header) == SlotAt(sys.log, j, n);
  }

  /** Whatever is delivered, the invariant holds afterwards. */
  lemma DeliverKeepsInv(sys: System, p: Party, header: Header, ciphertext: Ciphertext, newKey: Bytes)
    requires Inv(sys) && Legal(sys, Deliver(p, header, ciphertext, newKey))
    ensures Inv(Step(sys, Deliver(p, header, ciphertext, newKey)))
    ensures Progress(sys, Step(sys, Deliver(p, header, ciphertext, newKey)))
  {
    hide Inv, PartyOk, LogOk, InStep, StoreOk, ReceiptsOk, AheadUnreceived, Progress, Decrypt, AfterNewKey,
        AfterCurrent,
         HexEncode, Commit, ReadyFor, Received, Without;
    PartyFacts(sys, p);
    ProgressSelf(sys);
    if Delivery(sys, p, header, ciphertext, newKey).Ok? {
      var j, n := AcceptedIsGenuine(sys, p, header, ciphertext, newKey);
      var plaintext := sys.log.chains[j][n].plaintext;
      var r := Receipt(p, header, ciphertext, plaintext);
      AcceptedNotReceived(sys, p, j, n);
      if Find(SessionOf(sys, p).store, SlotOf(header)).Some? {
        StoredDelivery(sys, p, r, j, n);
      } else {
        ReadyWhere(sys, p, j, n);
        if SessionOf(sys, p).dhRemote == Some(header.dhPublic) {
          CurrentDelivery(sys, p, r, n);
        } else {
          NewKeyDelivery(sys, p, r, newKey, n);
        }
      }
      StepCommits(sys, p, header, ciphertext, newKey, plaintext);
    }
  }

  lemma StepKeepsInv(sys: System, e: Event)
    requires Inv(sys) && Legal(sys, e)
    ensures Inv(Step(sys, e)) && Progress(sys, Step(sys, e))
  {
    match e
    case Send(p, plaintext, nonce) => SendKeepsInv(sys, p, plaintext, nonce);
    case Deliver(p, header, ciphertext, newKey) => DeliverKeepsInv(sys, p, header, ciphertext, newKey);
  }
}
