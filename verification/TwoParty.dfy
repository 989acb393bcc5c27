/** Two sessions that talk over a network that reorders, drops, repeats and invents deliveries.

    Ratchet keys are numbered in the order they were generated: key 0 is Bob's pre-key, key 1 is Alice's first
    key, and from then on the two parties alternate. `chains[j]` lists what was sent under key `j`. */
module TwoParty {
  import opened Wrappers
  import opened ByteText
  import opened SymbolicCrypto
  import opened MessageHeader
  import opened SkippedKeys
  import opened RatchetSession

  datatype Party = Alice | Bob

  datatype Sent = Sent(header: Header, ciphertext: Ciphertext, plaintext: Bytes)

  datatype Receipt = Receipt(receiver: Party, header: Header, ciphertext: Ciphertext, plaintext: Bytes)

  /** The agreed secret, the ratchet keys, and what was sent under each of them. */
  datatype Log = Log(secret: Bytes, keys: seq<Bytes>, chains: seq<seq<Sent>>)

  datatype System = System(log: Log, alice: Session, bob: Session, receipts: seq<Receipt>)

  datatype Event =
    | Send(party: Party, plaintext: Bytes, nonce: Bytes)
    | Deliver(party: Party, header: Header, ciphertext: Ciphertext, newKey: Bytes)

  predicate Shaped(log: Log) {
    |log.keys| == |log.chains| >= 2
  }

  function Peer(p: Party): Party {
    if p.Alice? then Bob else Alice
  }

  function Parity(p: Party): nat {
    if p.Alice? then 1 else 0
  }

  function SessionOf(sys: System, p: Party): Session {
    if p.Alice? then sys.alice else sys.bob
  }

  function WithSession(sys: System, p: Party, s: Session): System {
    if p.Alice? then sys.(alice := s) else sys.(bob := s)
  }

  /** The number of the party's newest ratchet key. */
  function Turn(log: Log, p: Party): (g: nat)
    requires Shaped(log)
    ensures g % 2 == Parity(p) && |log.keys| - 2 <= g < |log.keys|
  {
    if (|log.keys| - 1) % 2 == Parity(p) then |log.keys| - 1 else |log.keys| - 2
  }

  function Start(secret: Bytes, bobKey: Bytes, aliceKey: Bytes): System
    requires |bobKey| >= KEY_LENGTH
  {
    System(Log(secret, [bobKey, aliceKey], [[], []]),
           InitSender(secret, bobKey, DhSecret(aliceKey)),
           InitReceiver(secret, DhSecret(bobKey), bobKey),
           [])
  }

  function RecordSent(log: Log, g: nat, m: Sent): Log
    requires Shaped(log) && g < |log.keys|
  {
    log.(chains := log.chains[g := log.chains[g] + [m]])
  }

  function RecordKey(log: Log, key: Bytes): Log {
    log.(keys := log.keys + [key], chains := log.chains + [[]])
  }

  /** Commit the state a successful delivery left behind. */
  function Commit(sys: System, after: Session, r: Receipt): System {
    WithSession(sys, r.receiver, after).(
      receipts := sys.receipts + [r],
      log := if after.dhPublic == SessionOf(sys, r.receiver).dhPublic then sys.log
             else RecordKey(sys.log, after.dhPublic))
  }

  function Delivered(sys: System, p: Party, header: Header, ciphertext: Ciphertext, newKey: Bytes): Outcome {
    Decrypt(SessionOf(sys, p), header, ciphertext, DhSecret(newKey))
  }

  /** A failed call is discarded with the copy it ran on (`ratchet_decrypt` returns no session), a successful one
      is committed. */
  function Step(sys: System, e: Event): (next: System)
    requires Shaped(sys.log)
    ensures Shaped(next.log)
  {
    match e
    case Send(p, plaintext, nonce) =>
      var (after, result) := Encrypt(SessionOf(sys, p), plaintext, nonce);
      (match result
       case Err(_) => sys
       case Ok((ciphertext, header)) =>
         WithSession(sys, p, after).(
           log := RecordSent(sys.log, Turn(sys.log, p), Sent(header, ciphertext, plaintext))))
    case Deliver(p, header, ciphertext, newKey) =>
      var outcome := Delivered(sys, p, header, ciphertext, newKey);
      (match outcome.result
       case Err(_) => sys
       case Ok(plaintext) => Commit(sys, outcome.after, Receipt(p, header, ciphertext, plaintext)))
  }

  predicate IsSent(log: Log, j: nat, n: nat) {
    0 < j < |log.chains| && n < |log.chains[j]|
  }

  /** What the network can hand over: anything ever sent, bytes that are no ciphertext, and anything sealed under
      a key that does not descend from the agreed secret. */
  ghost predicate Available(log: Log, ciphertext: Ciphertext) {
    || ciphertext.Garbage?
    || KeyOrigin(ciphertext.key) != log.secret
    || exists j: nat, n: nat :: IsSent(log, j, n) && ciphertext == log.chains[j][n].ciphertext
  }

  /** A fresh keypair differs from every keypair generated before. Headers are unrestricted. */
  ghost predicate Legal(sys: System, e: Event) {
    e.Deliver? ==> Available(sys.log, e.ciphertext) && |e.newKey| == 32 && e.newKey !in sys.log.keys
  }

  function Run(sys: System, events: seq<Event>): (final: System)
    requires Shaped(sys.log)
    ensures Shaped(final.log)
    decreases |events|
  {
    if events == [] then sys else Run(Step(sys, events[0]), events[1..])
  }

  ghost predicate LegalRun(sys: System, events: seq<Event>)
    requires Shaped(sys.log)
    decreases |events|
  {
    events == [] || (Legal(sys, events[0]) && LegalRun(Step(sys, events[0]), events[1..]))
  }

  // -------------------------------------------------- the sequence of root keys

  function Link(log: Log, i: nat): SharedSecret
    requires 0 < i < |log.keys|
  {
    SharedSecret({log.keys[i - 1], log.keys[i]})
  }

  function RootAt(log: Log, i: nat): RootKey
    requires i < |log.keys|
  {
    if i == 0 then Initial(log.secret) else NextRoot(RootAt(log, i - 1), Link(log, i))
  }

  function SeedAt(log: Log, i: nat): (chain: ChainKey)
    requires 0 < i < |log.keys|
    ensures chain.Seed?
  {
    Seed(RootAt(log, i - 1), Link(log, i))
  }

  lemma {:induction false} RootPrefix(log: Log, more: Log, i: nat)
    requires log.secret == more.secret && log.keys <= more.keys && i < |log.keys|
    ensures RootAt(more, i) == RootAt(log, i)
    ensures i > 0 ==> SeedAt(more, i) == SeedAt(log, i)
  {
    if i > 0 {
      RootPrefix(log, more, i - 1);
    }
  }

  lemma {:induction false} RootFacts(log: Log, i: nat)
    requires i < |log.keys|
    ensures Depth(RootAt(log, i)) == i
    ensures Origin(RootAt(log, i)) == log.secret
  {
    if i > 0 {
      RootFacts(log, i - 1);
    }
  }

  /** Every key of every chain descends from the secret, and no two are equal. */
  lemma ChainKeysDiffer(log: Log, i: nat, m: nat, j: nat, n: nat)
    requires 0 < i < |log.keys| && 0 < j < |log.keys|
    ensures KeyOrigin(KeyAt(SeedAt(log, i), m)) == log.secret
    ensures KeyAt(SeedAt(log, i), m) == KeyAt(SeedAt(log, j), n) ==> i == j && m == n
  {
    AdvanceRemembers(SeedAt(log, i), m);
    AdvanceRemembers(SeedAt(log, j), n);
    RootFacts(log, i - 1);
    RootFacts(log, j - 1);
  }

  /** The two ends of a link compute the same Diffie-Hellman output. */
  lemma LinkAgrees(log: Log, i: nat)
    requires 0 < i < |log.keys|
    ensures DiffieHellman(DhSecret(log.keys[i]), log.keys[i - 1]) == Link(log, i)
    ensures DiffieHellman(DhSecret(log.keys[i - 1]), log.keys[i]) == Link(log, i)
  {
    assert {log.keys[i], log.keys[i - 1]} == {log.keys[i - 1], log.keys[i]};
  }

  // ------------------------------------------------------------------ invariant

  /** The length of the sender's previous chain: key `j - 2` is the previous key of the same party. */
  function PreviousLength(log: Log, j: nat): nat
    requires j < |log.chains| + 2
  {
    if j < 2 then 0 else |log.chains[j - 2]|
  }

  predicate MessageOk(log: Log, j: nat, n: nat)
    requires Shaped(log) && IsSent(log, j, n)
  {
    var m := log.chains[j][n];
    && m.header == Header(log.keys[j], PreviousLength(log, j), n)
    && m.ciphertext.Sealed?
    && m.ciphertext.key == KeyAt(SeedAt(log, j), n)
    && m.ciphertext.plaintext == m.plaintext
    && m.ciphertext.aad == ToBytes(m.header)
  }

  predicate KeysOk(keys: seq<Bytes>) {
    && (forall i :: 0 <= i < |keys| ==> |keys[i]| == 32)
    && (forall i, k :: 0 <= i < k < |keys| ==> keys[i] != keys[k])
  }

  ghost predicate LogOk(log: Log) {
    && Shaped(log)
    && KeysOk(log.keys)
    && log.chains[0] == []
    && forall j: nat, n: nat :: IsSent(log, j, n) ==> MessageOk(log, j, n)
  }

  /** Lockstep: a session at key `g` holds root `g`, its sending chain is chain `g` advanced once for each message
      sent on it, and its receiving chain is the peer's chain `g - 1` advanced `recvNumber` times. */
  predicate InStep(log: Log, g: nat, s: Session)
    requires Shaped(log) && g < |log.keys|
  {
    && s.root == RootAt(log, g)
    && s.dhPublic == log.keys[g]
    && s.dhSecret == DhSecret(log.keys[g])
    && s.sendNumber == |log.chains[g]|
    && s.sendingChain == (if g == 0 then None else Some(Advance(SeedAt(log, g), |log.chains[g]|)))
    && s.previousLength == PreviousLength(log, g)
    && s.dhRemote == (if g == 0 then None else Some(log.keys[g - 1]))
    && s.receivingChain == (if g < 2 then None else Some(Advance(SeedAt(log, g - 1), s.recvNumber)))
    && s.recvNumber <= (if g == 0 then 0 else |log.chains[g - 1]|)
  }

  /** Message `n` of the peer's chain `j` was already received or jumped over by a session at key `g`. */
  predicate Behind(log: Log, g: nat, recvNumber: nat, j: nat, n: nat) {
    IsSent(log, j, n) && j < g && j % 2 != g % 2 && (j == g - 1 ==> n < recvNumber)
  }

  predicate Received(receipts: seq<Receipt>, header: Header) {
    exists i :: 0 <= i < |receipts| && receipts[i].header == header
  }

  function SlotAt(log: Log, j: nat, n: nat): Slot
    requires j < |log.keys|
  {
    Slot(HexEncode(log.keys[j]), n)
  }

  /** A stored key belongs to a message that was jumped over and has not been received since. */
  predicate StoredFor(log: Log, receipts: seq<Receipt>, g: nat, recvNumber: nat, j: nat, slot: Slot, key: MessageKey)
    requires Shaped(log)
  {
    && Behind(log, g, recvNumber, j, slot.number)
    && slot == SlotAt(log, j, slot.number)
    && key == KeyAt(SeedAt(log, j), slot.number)
    && !Received(receipts, log.chains[j][slot.number].header)
  }

  ghost predicate StoreOk(log: Log, receipts: seq<Receipt>, g: nat, recvNumber: nat, store: Store)
    requires Shaped(log)
  {
    && Bounded(store)
    && forall slot :: Find(store, slot).Some? ==>
        exists j: nat :: StoredFor(log, receipts, g, recvNumber, j, slot, Find(store, slot).value)
  }

  ghost predicate PartyOk(sys: System, p: Party)
    requires Shaped(sys.log)
  {
    var s, g := SessionOf(sys, p), Turn(sys.log, p);
    && InStep(sys.log, g, s)
    && StoreOk(sys.log, sys.receipts, g, s.recvNumber, s.store)
  }

  predicate ReceiptFor(sys: System, r: Receipt, j: nat, n: nat)
    requires Shaped(sys.log)
  {
    && Behind(sys.log, Turn(sys.log, r.receiver), SessionOf(sys, r.receiver).recvNumber, j, n)
    && r.header == sys.log.chains[j][n].header
    && r.ciphertext == sys.log.chains[j][n].ciphertext
    && r.plaintext == sys.log.chains[j][n].plaintext
  }

  ghost predicate HasSource(sys: System, r: Receipt)
    requires Shaped(sys.log)
  {
    exists j: nat, n: nat :: ReceiptFor(sys, r, j, n)
  }

  ghost predicate ReceiptsOk(sys: System)
    requires Shaped(sys.log)
  {
    && (forall i :: 0 <= i < |sys.receipts| ==> HasSource(sys, sys.receipts[i]))
    && (forall i, k :: 0 <= i < k < |sys.receipts| ==> sys.receipts[i].header != sys.receipts[k].header)
  }

  ghost predicate Inv(sys: System) {
    && LogOk(sys.log)
    && PartyOk(sys, Alice)
    && PartyOk(sys, Bob)
    && ReceiptsOk(sys)
  }

  lemma StartInv(secret: Bytes, bobKey: Bytes, aliceKey: Bytes)
    requires |bobKey| == |aliceKey| == 32 && bobKey != aliceKey
    ensures Inv(Start(secret, bobKey, aliceKey))
  {
    var log := Start(secret, bobKey, aliceKey).log;
    LinkAgrees(log, 1);
    assert X25519Key(bobKey) == bobKey;
    assert RootAt(log, 1) == NextRoot(Initial(secret), Link(log, 1));
  }
}
