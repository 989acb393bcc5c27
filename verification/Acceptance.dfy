/** Which deliveries a session accepts: exactly the genuine messages it is ready for, with their own plaintext. */
module Acceptance {
  import opened Wrappers
  import opened ByteText
  import opened SymbolicCrypto
  import opened MessageHeader
  import opened SkippedKeys
  import opened RatchetSession
  import opened TwoParty

  /** The header of message `(j, n)` names its chain, its number and the length of the chain before. */
  lemma HeaderOf(log: Log, j: nat, n: nat)
    requires LogOk(log) && IsSent(log, j, n)
    ensures log.chains[j][n].header == Header(log.keys[j], PreviousLength(log, j), n)
  {
    assert MessageOk(log, j, n);
  }

  /** No two messages share a ratchet key and a number. */
  lemma HeadersDiffer(log: Log, i: nat, m: nat, j: nat, n: nat)
    requires LogOk(log) && IsSent(log, i, m) && IsSent(log, j, n)
    requires log.chains[i][m].header.dhPublic == log.chains[j][n].header.dhPublic
    requires log.chains[i][m].header.messageNumber == log.chains[j][n].header.messageNumber
    ensures i == j && m == n
  {
    HeaderOf(log, i, m);
    HeaderOf(log, j, n);
  }

  /** Whatever opens under a key descended from the secret was sent, with this header and this plaintext. */
  lemma OpenedWasSent(log: Log, ciphertext: Ciphertext, key: MessageKey, header: Header) returns (j: nat, n: nat)
    requires LogOk(log) && Available(log, ciphertext)
    requires KeyOrigin(key) == log.secret && OpenResult(ciphertext, key, header).Ok?
    ensures IsSent(log, j, n) && ciphertext == log.chains[j][n].ciphertext
    ensures key == KeyAt(SeedAt(log, j), n)
    ensures header == log.chains[j][n].header
    ensures OpenResult(ciphertext, key, header) == Ok(log.chains[j][n].plaintext)
  {
    j, n :| IsSent(log, j, n) && ciphertext == log.chains[j][n].ciphertext;
    assert MessageOk(log, j, n);
    HeaderBytesInjective(header, log.chains[j][n].header);
  }

  /** A message opens under its own key and header. */
  lemma GenuineOpens(log: Log, j: nat, n: nat)
    requires LogOk(log) && IsSent(log, j, n)
    ensures var m := log.chains[j][n];
            OpenResult(m.ciphertext, KeyAt(SeedAt(log, j), n), m.header) == Ok(m.plaintext)
  {
    assert MessageOk(log, j, n);
  }

  /** The receiver holds the message's key in its store, or can still reach it: on its current receiving chain not
      behind it and at most 1000 ahead, or as the peer's next chain with both gaps at most 1000. */
  predicate Ready(log: Log, g: nat, s: Session, j: nat, n: nat)
    requires Shaped(log) && IsSent(log, j, n)
  {
    || Find(s.store, SlotAt(log, j, n)).Some?
    || (j + 1 == g && s.recvNumber <= n <= s.recvNumber + 1000)
    || (j == g + 1 && PreviousLength(log, j) <= s.recvNumber + 1000 && n <= 1000)
  }

  /** A slot names its ratchet key. */
  lemma SlotNamesKey(header: Header, key: Bytes)
    requires SlotOf(header).dhHex == HexEncode(key)
    ensures header.dhPublic == key
  {
    assert HexDecode(SlotOf(header).dhHex) == header.dhPublic;
  }

  lemma StoredKey(log: Log, receipts: seq<Receipt>, g: nat, s: Session, header: Header) returns (j: nat)
    requires Shaped(log) && StoreOk(log, receipts, g, s.recvNumber, s.store) && Find(s.store, SlotOf(header)).Some?
    ensures StoredFor(log, receipts, g, s.recvNumber, j, SlotOf(header), Find(s.store, SlotOf(header)).value)
    ensures header.dhPublic == log.keys[j]
  {
    j :| StoredFor(log, receipts, g, s.recvNumber, j, SlotOf(header), Find(s.store, SlotOf(header)).value);
    SlotNamesKey(header, log.keys[j]);
  }

  /** The key on the current receiving chain is a key of the peer's chain. */
  lemma CurrentKey(log: Log, g: nat, s: Session, header: Header)
    requires Shaped(log) && g < |log.keys| && InStep(log, g, s)
    requires Find(s.store, SlotOf(header)).None? && s.dhRemote == Some(header.dhPublic)
    ensures g >= 1 && header.dhPublic == log.keys[g - 1]
    ensures var n := header.messageNumber;
            KeyFor(s, header) == if g < 2 || n > s.recvNumber + 1000 then None
                                 else Some(KeyAt(SeedAt(log, g - 1), if n > s.recvNumber then n else s.recvNumber))
  {
    var n := header.messageNumber;
    if g >= 2 && n <= s.recvNumber + 1000 {
      AdvanceAdds(SeedAt(log, g - 1), s.recvNumber, if n > s.recvNumber then n - s.recvNumber else 0);
    }
  }

  /** Every key a session in lockstep opens with descends from the secret; and if it is a key of some chain, that
      chain is the peer's. */
  lemma KeyForDescends(log: Log, receipts: seq<Receipt>, g: nat, s: Session, header: Header, j: nat, n: nat)
    requires LogOk(log) && g < |log.keys| && InStep(log, g, s) && StoreOk(log, receipts, g, s.recvNumber, s.store)
    requires KeyFor(s, header).Some? && 0 < j < |log.keys|
    ensures KeyOrigin(KeyFor(s, header).value) == log.secret
    ensures KeyFor(s, header).value == KeyAt(SeedAt(log, j), n) ==> j % 2 != g % 2
  {
    assert Shaped(log);
    hide LogOk, StoreOk, HexEncode, RootAt, Advance, KeyOrigin, ToBytes;
    var key := KeyFor(s, header).value;
    if Find(s.store, SlotOf(header)).Some? {
      var i := StoredKey(log, receipts, g, s, header);
      ChainKeysDiffer(log, i, header.messageNumber, j, n);
    } else if s.dhRemote == Some(header.dhPublic) {
      CurrentKey(log, g, s, header);
      ChainKeysDiffer(log, g - 1, if header.messageNumber > s.recvNumber then header.messageNumber else s.recvNumber,
          j, n);
    } else {
      NewSeedDescends(log, g, DiffieHellman(s.dhSecret, X25519Key(header.dhPublic)), header.messageNumber, j, n);
    }
  }

  lemma NewSeedDescends(log: Log, g: nat, dh: SharedSecret, m: nat, j: nat, n: nat)
    requires g < |log.keys| && 0 < j < |log.keys|
    ensures KeyOrigin(KeyAt(Seed(RootAt(log, g), dh), m)) == log.secret
    ensures KeyAt(Seed(RootAt(log, g), dh), m) == KeyAt(SeedAt(log, j), n) ==> j == g + 1
  {
    RootFacts(log, g);
    RootFacts(log, j - 1);
    AdvanceRemembers(Seed(RootAt(log, g), dh), m);
    AdvanceRemembers(SeedAt(log, j), n);
  }

  /** For a message of the peer, the session has its key exactly when it is ready for it. */
  lemma KeyForGenuine(log: Log, receipts: seq<Receipt>, g: nat, s: Session, j: nat, n: nat)
    requires LogOk(log) && |log.keys| - 2 <= g < |log.keys| && InStep(log, g, s)
        && StoreOk(log, receipts, g, s.recvNumber, s.store)
    requires IsSent(log, j, n) && j % 2 != g % 2
    ensures KeyFor(s, log.chains[j][n].header) == Some(KeyAt(SeedAt(log, j), n)) <==> Ready(log, g, s, j, n)
  {
    var header := log.chains[j][n].header;
    HeaderOf(log, j, n);
    assert SlotOf(header) == SlotAt(log, j, n);
    if Find(s.store, SlotOf(header)).Some? {
      var i := StoredKey(log, receipts, g, s, header);
      assert i == j;
    } else if s.dhRemote == Some(header.dhPublic) {
      CurrentKey(log, g, s, header);
      assert j == g - 1;
      if KeyFor(s, header).Some? {
        ChainKeysDiffer(log, j, if n > s.recvNumber then n else s.recvNumber, j, n);
      }
    } else {
      NewChainKey(log, g, s, j, n);
    }
  }

  lemma NewChainKey(log: Log, g: nat, s: Session, j: nat, n: nat)
    requires LogOk(log) && |log.keys| - 2 <= g < |log.keys| && InStep(log, g, s)
    requires IsSent(log, j, n) && j % 2 != g % 2
    requires Find(s.store, SlotOf(log.chains[j][n].header)).None?
    requires s.dhRemote != Some(log.chains[j][n].header.dhPublic)
    ensures KeyFor(s, log.chains[j][n].header) == Some(KeyAt(SeedAt(log, j), n)) <==>
            j == g + 1 && PreviousLength(log, j) <= s.recvNumber + 1000 && n <= 1000
    ensures j + 1 != g
  {
    var header := log.chains[j][n].header;
    HeaderOf(log, j, n);
    if KeyFor(s, header).Some? {
      assert X25519Key(header.dhPublic) == header.dhPublic;
      var seed := Seed(s.root, DiffieHellman(s.dhSecret, header.dhPublic));
      NewSeedDescends(log, g, DiffieHellman(s.dhSecret, header.dhPublic), n, j, n);
      if j == g + 1 {
        LinkAgrees(log, j);
        assert seed == SeedAt(log, j);
      }
    }
  }

  // ------------------------------------------------------------------- the system

  /** The pair is, unchanged, message `n` that the peer of `p` sent under key `j`. */
  predicate Genuine(sys: System, p: Party, header: Header, ciphertext: Ciphertext, j: nat, n: nat) {
    && IsSent(sys.log, j, n)
    && j % 2 != Parity(p)
    && header == sys.log.chains[j][n].header
    && ciphertext == sys.log.chains[j][n].ciphertext
  }

  predicate ReadyFor(sys: System, p: Party, j: nat, n: nat)
    requires Shaped(sys.log) && IsSent(sys.log, j, n)
  {
    Ready(sys.log, Turn(sys.log, p), SessionOf(sys, p), j, n)
  }

  function Delivery(sys: System, p: Party, header: Header, ciphertext: Ciphertext, newKey: Bytes)
    : Result<Bytes, RatchetError>
  {
    Delivered(sys, p, header, ciphertext, newKey).result
  }

  /** A delivery that succeeds is a genuine message of the peer, the receiver was ready for it, and what it returns
      is that message's plaintext. */
  lemma AcceptedIsGenuine(sys: System, p: Party, header: Header, ciphertext: Ciphertext, newKey: Bytes)
    returns (j: nat, n: nat)
    requires Inv(sys) && Available(sys.log, ciphertext)
    requires Delivery(sys, p, header, ciphertext, newKey).Ok?
    ensures Genuine(sys, p, header, ciphertext, j, n) && ReadyFor(sys, p, j, n)
    ensures Delivery(sys, p, header, ciphertext, newKey) == Ok(sys.log.chains[j][n].plaintext)
  {
    var s, g := SessionOf(sys, p), Turn(sys.log, p);
    assert PartyOk(sys, p);
    DecryptOpensWith(s, header, ciphertext, DhSecret(newKey));
    KeyForDescends(sys.log, sys.receipts, g, s, header, 1, 0);
    j, n := OpenedWasSent(sys.log, ciphertext, KeyFor(s, header).value, header);
    KeyForDescends(sys.log, sys.receipts, g, s, header, j, n);
    KeyForGenuine(sys.log, sys.receipts, g, s, j, n);
  }

  /** A genuine message is accepted exactly when the receiver is ready for it, and then yields its plaintext. */
  lemma GenuineIffReady(sys: System, p: Party, j: nat, n: nat, newKey: Bytes)
    requires Inv(sys) && IsSent(sys.log, j, n) && j % 2 != Parity(p)
    ensures var m := sys.log.chains[j][n];
            && (Delivery(sys, p, m.header, m.ciphertext, newKey).Ok? <==> ReadyFor(sys, p, j, n))
            && (ReadyFor(sys, p, j, n) ==> Delivery(sys, p, m.header, m.ciphertext, newKey) == Ok(m.plaintext))
  {
    var m := sys.log.chains[j][n];
    var s, g := SessionOf(sys, p), Turn(sys.log, p);
    assert PartyOk(sys, p);
    KeyForGenuine(sys.log, sys.receipts, g, s, j, n);
    DecryptOpensWith(s, m.header, m.ciphertext, DhSecret(newKey));
    GenuineOpens(sys.log, j, n);
    if Delivery(sys, p, m.header, m.ciphertext, newKey).Ok? {
      var j', n' := AcceptedIsGenuine(sys, p, m.header, m.ciphertext, newKey);
      HeadersDiffer(sys.log, j, n, j', n');
    }
  }

  /** For every header and every available ciphertext: the delivery is accepted if and only if the pair is a genuine
      message from the peer that the receiver is ready for. */
  lemma AcceptsExactly(sys: System, p: Party, header: Header, ciphertext: Ciphertext, newKey: Bytes)
    requires Inv(sys) && Available(sys.log, ciphertext)
    ensures Delivery(sys, p, header, ciphertext, newKey).Ok? <==>
            exists j: nat, n: nat :: Genuine(sys, p, header, ciphertext, j, n) && ReadyFor(sys, p, j, n)
  {
    if Delivery(sys, p, header, ciphertext, newKey).Ok? {
      var j, n := AcceptedIsGenuine(sys, p, header, ciphertext, newKey);
    } else {
      forall j: nat, n: nat | Genuine(sys, p, header, ciphertext, j, n) ensures !ReadyFor(sys, p, j, n) {
        GenuineIffReady(sys, p, j, n, newKey);
      }
    }
  }
}
