/** `ratchet/double_ratchet.rs` as a function of its state: what each call leaves behind and returns. */
module RatchetSession {
  import opened Wrappers
  import opened ByteText
  import opened SymbolicCrypto
  import opened MessageHeader
  import opened SkippedKeys

  const MAX_SKIP: nat := 1000
  const KEY_LENGTH: nat := 32

  datatype RatchetError =
    | NoSendingChain
    | TooManySkipped(count: nat)
    | NoReceivingChain
    | OpenFailed
    | ShortPublicKey  // the slice to 32 bytes is out of range

  datatype Session = Session(
    root: RootKey,
    sendingChain: Option<ChainKey>,
    receivingChain: Option<ChainKey>,
    dhSecret: DhSecret,
    dhPublic: Bytes,
    dhRemote: Option<Bytes>,
    sendNumber: nat,
    recvNumber: nat,
    previousLength: nat,
    store: Store)

  datatype Outcome = Outcome(after: Session, result: Result<Bytes, RatchetError>)

  /** The X25519 key read from the first 32 bytes. */
  function X25519Key(bytes: Bytes): Bytes
    requires |bytes| >= KEY_LENGTH
  {
    bytes[..KEY_LENGTH]
  }

  function InitSender(secret: Bytes, recipient: Bytes, newKey: DhSecret): Session
    requires |recipient| >= KEY_LENGTH
  {
    var (root, chain) := DeriveRootKey(Initial(secret), DiffieHellman(newKey, X25519Key(recipient)));
    Session(root, Some(chain), None, newKey, newKey.publicKey, Some(recipient), 0, 0, 0, [])
  }

  function InitReceiver(secret: Bytes, dhSecret: DhSecret, dhPublic: Bytes): Session {
    Session(Initial(secret), None, None, dhSecret, dhPublic, None, 0, 0, 0, [])
  }

  function Encrypt(s: Session, plaintext: Bytes, nonce: Bytes)
    : (Session, Result<(Ciphertext, Header), RatchetError>)
  {
    match s.sendingChain
    case None => (s, Err(NoSendingChain))
    case Some(chain) =>
      var (next, key) := DeriveChainKey(chain);
      var header := Header(s.dhPublic, s.previousLength, s.sendNumber);
      (s.(sendingChain := Some(next), sendNumber := s.sendNumber + 1),
       Ok((Sealed(key, nonce, plaintext, ToBytes(header)), header)))
  }

  /** Insert the entries one after the other, the last one last. */
  function PutAll(store: Store, entries: seq<Entry>): Store {
    if entries == [] then store
    else
      var last := entries[|entries| - 1];
      Put(PutAll(store, entries[..|entries| - 1]), last.slot, last.key)
  }

  /** The keys of `count` consecutive messages of a chain, in order. */
  function ConsecutiveKeys(dhHex: Bytes, chain: ChainKey, from: nat, count: nat): (entries: seq<Entry>)
    ensures |entries| == count
  {
    seq(count, i requires 0 <= i < count => Entry(Slot(dhHex, from + i), KeyAt(chain, i)))
  }

  function RemoteHex(s: Session): Bytes {
    if s.dhRemote.Some? then HexEncode(s.dhRemote.value) else []
  }

  /** Catching up: exactly the keys numbered `recvNumber .. until` are stored, in order, and the chain stands
      where that many single steps leave it. A gap over 1000 changes nothing. */
  function SkipMissed(s: Session, until: nat): Result<Session, RatchetError> {
    if s.recvNumber > until then Ok(s)
    else
      var count := until - s.recvNumber;
      if count > MAX_SKIP then Err(TooManySkipped(count))
      else
        match s.receivingChain
        case None => Ok(s)
        case Some(chain) =>
          Ok(s.(store := PutAll(s.store, ConsecutiveKeys(RemoteHex(s), chain, s.recvNumber, count)),
                receivingChain := Some(Advance(chain, count)),
                recvNumber := until))
  }

  function TurnOver(s: Session, theirs: Bytes): Session {
    s.(dhRemote := Some(theirs), previousLength := s.sendNumber, sendNumber := 0, recvNumber := 0)
  }

  function DhRatchet(s: Session, theirs: Bytes, newKey: DhSecret): Session
    requires |theirs| >= KEY_LENGTH
  {
    var theirKey := X25519Key(theirs);
    var (middle, receiving) := DeriveRootKey(s.root, DiffieHellman(s.dhSecret, theirKey));
    var (root, sending) := DeriveRootKey(middle, DiffieHellman(newKey, theirKey));
    TurnOver(s, theirs).(
      root := root,
      receivingChain := Some(receiving),
      sendingChain := Some(sending),
      dhSecret := newKey,
      dhPublic := newKey.publicKey)
  }

  function OpenResult(ciphertext: Ciphertext, key: MessageKey, header: Header): Result<Bytes, RatchetError> {
    match OpenSealed(ciphertext, key, ToBytes(header))
    case None => Err(OpenFailed)
    case Some(plaintext) => Ok(plaintext)
  }

  /** From the current receiving chain: catch up, derive the next key, open. */
  function ReceiveCurrent(s: Session, header: Header, ciphertext: Ciphertext): Outcome {
    match SkipMissed(s, header.messageNumber)
    case Err(e) => Outcome(s, Err(e))
    case Ok(caughtUp) =>
      match caughtUp.receivingChain
      case None => Outcome(caughtUp, Err(NoReceivingChain))
      case Some(chain) =>
        var (next, key) := DeriveChainKey(chain);
        var stepped := caughtUp.(receivingChain := Some(next));
        var result := OpenResult(ciphertext, key, header);
        Outcome(if result.Ok? then stepped.(recvNumber := stepped.recvNumber + 1) else stepped, result)
  }

  function ReceiveNewKey(s: Session, header: Header, ciphertext: Ciphertext, newKey: DhSecret): Outcome {
    match SkipMissed(s, header.previousChainLength)
    case Err(e) => Outcome(s, Err(e))
    case Ok(finished) =>
      if |header.dhPublic| < KEY_LENGTH then Outcome(TurnOver(finished, header.dhPublic), Err(ShortPublicKey))
      else ReceiveCurrent(DhRatchet(finished, header.dhPublic, newKey), header, ciphertext)
  }

  function SlotOf(header: Header): Slot {
    Slot(HexEncode(header.dhPublic), header.messageNumber)
  }

  /** The state a call leaves behind, also when it fails, and what it returns. */
  function Decrypt(s: Session, header: Header, ciphertext: Ciphertext, newKey: DhSecret): Outcome {
    match Find(s.store, SlotOf(header))
    case Some(key) =>
      Outcome(s.(store := Without(s.store, SlotOf(header))), OpenResult(ciphertext, key, header))
    case None =>
      if s.dhRemote != Some(header.dhPublic) then ReceiveNewKey(s, header, ciphertext, newKey)
      else ReceiveCurrent(s, header, ciphertext)
  }

  /** The key a call opens with, if it gets as far as opening: the stored one, the receiving chain's key at the larger
      of the two numbers, or the key at the header's number of the chain a new ratchet key opens. */
  function KeyFor(s: Session, header: Header): Option<MessageKey> {
    var n := header.messageNumber;
    if Find(s.store, SlotOf(header)).Some? then Find(s.store, SlotOf(header))
    else if s.dhRemote == Some(header.dhPublic) then
      if s.receivingChain.None? || n > s.recvNumber + MAX_SKIP then None
      else Some(KeyAt(s.receivingChain.value, if n > s.recvNumber then n - s.recvNumber else 0))
    else
      if header.previousChainLength > s.recvNumber + MAX_SKIP || |header.dhPublic| < KEY_LENGTH || n > MAX_SKIP
          then None
      else Some(KeyAt(Seed(s.root, DiffieHellman(s.dhSecret, X25519Key(header.dhPublic))), n))
  }

  lemma ReceiveCurrentResult(s: Session, header: Header, ciphertext: Ciphertext)
    ensures var n := header.messageNumber;
            ReceiveCurrent(s, header, ciphertext).result.Ok? ==>
              && s.receivingChain.Some? && n <= s.recvNumber + MAX_SKIP
              && OpenResult(ciphertext,
                  KeyAt(s.receivingChain.value, if n > s.recvNumber then n - s.recvNumber else 0), header)
                 == ReceiveCurrent(s, header, ciphertext).result
    ensures var n := header.messageNumber;
            s.receivingChain.Some? && n <= s.recvNumber + MAX_SKIP ==>
              OpenResult(ciphertext, KeyAt(s.receivingChain.value, if n > s.recvNumber then n - s.recvNumber else 0),
                  header)
              == ReceiveCurrent(s, header, ciphertext).result
  {
  }

  /** A call succeeds exactly when it has a key and the ciphertext opens under it, with that plaintext. */
  lemma DecryptOpensWith(s: Session, header: Header, ciphertext: Ciphertext, newKey: DhSecret)
    ensures var key := KeyFor(s, header);
            var result := Decrypt(s, header, ciphertext, newKey).result;
            if key.Some? then result == OpenResult(ciphertext, key.value, header) else result.Err?
  {
    if Find(s.store, SlotOf(header)).None? {
      if s.dhRemote == Some(header.dhPublic) {
        ReceiveCurrentResult(s, header, ciphertext);
      } else {
        var skip := SkipMissed(s, header.previousChainLength);
        if skip.Ok? && |header.dhPublic| >= KEY_LENGTH {
          ReceiveCurrentResult(DhRatchet(skip.value, header.dhPublic, newKey), header, ciphertext);
        }
      }
    }
  }

  lemma PutAllSnoc(store: Store, entries: seq<Entry>, entry: Entry)
    ensures PutAll(store, entries + [entry]) == Put(PutAll(store, entries), entry.slot, entry.key)
  {
    assert (entries + [entry])[..|entries|] == entries;
  }

  /** One more key is one more insertion. */
  lemma ConsecutiveKeysStep(store: Store, dhHex: Bytes, chain: ChainKey, from: nat, n: nat)
    requires from <= n
    ensures PutAll(store, ConsecutiveKeys(dhHex, chain, from, n + 1 - from)) ==
            Put(PutAll(store, ConsecutiveKeys(dhHex, chain, from, n - from)), Slot(dhHex, n), KeyAt(chain, n - from))
  {
    var shorter := ConsecutiveKeys(dhHex, chain, from, n - from);
    var entry := Entry(Slot(dhHex, n), KeyAt(chain, n - from));
    assert ConsecutiveKeys(dhHex, chain, from, n + 1 - from) == shorter + [entry];
    PutAllSnoc(store, shorter, entry);
  }
}
