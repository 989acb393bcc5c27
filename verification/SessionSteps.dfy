/** Single calls of the ratchet, in terms of the key derivations. */
module SessionSteps {
  import opened Wrappers
  import opened ByteText
  import opened SymbolicCrypto
  import opened MessageHeader
  import opened SkippedKeys
  import opened RatchetSession

  /** The key derivations themselves: a root step gives the next root and the start of a chain from the same two
      inputs, a chain step the next chain key and the message key from the same one, and `n` steps are `n` single
      ones. */
  lemma Derivations(root: RootKey, dh: SharedSecret, chain: ChainKey, n: nat)
    ensures DeriveRootKey(root, dh) == (NextRoot(root, dh), Seed(root, dh))
    ensures DeriveChainKey(chain) == (NextChain(chain), MessageKey(chain))
    ensures Advance(chain, 0) == chain && Advance(chain, n + 1) == NextChain(Advance(chain, n))
    ensures KeyAt(chain, n) == MessageKey(Advance(chain, n))
  {
  }

  /** The sender starts one root step from the secret, with the first 32 bytes of the recipient's key. */
  lemma InitSenderExact(secret: Bytes, recipient: Bytes, newKey: DhSecret)
    requires |recipient| >= 32
    ensures var dh := SharedSecret({newKey.publicKey, recipient[..32]});
            InitSender(secret, recipient, newKey) ==
            Session(NextRoot(Initial(secret), dh), Some(Seed(Initial(secret), dh)), None, newKey, newKey.publicKey,
                    Some(recipient), 0, 0, 0, [])
  {
  }

  lemma InitReceiverExact(secret: Bytes, ours: DhSecret, public: Bytes)
    ensures InitReceiver(secret, ours, public) ==
            Session(Initial(secret), None, None, ours, public, None, 0, 0, 0, [])
  {
  }

  /** Encryption uses the message key of the current chain key, and the header with the current number. */
  lemma EncryptExact(s: Session, plaintext: Bytes, nonce: Bytes)
    ensures s.sendingChain.None? ==> Encrypt(s, plaintext, nonce) == (s, Err(NoSendingChain))
    ensures s.sendingChain.Some? ==>
              var header := Header(s.dhPublic, s.previousLength, s.sendNumber);
              Encrypt(s, plaintext, nonce) ==
              (s.(sendingChain := Some(NextChain(s.sendingChain.value)), sendNumber := s.sendNumber + 1),
               Ok((Sealed(MessageKey(s.sendingChain.value), nonce, plaintext, ToBytes(header)), header)))
  {
  }

  /** A new key of the peer: one root step with our old key for receiving, one with our new key for sending, the
      counters turned over, the store kept. */
  lemma DhRatchetExact(s: Session, theirs: Bytes, newKey: DhSecret)
    requires |theirs| >= 32
    ensures var receiving := SharedSecret({s.dhSecret.publicKey, theirs[..32]});
            var sending := SharedSecret({newKey.publicKey, theirs[..32]});
            DhRatchet(s, theirs, newKey) ==
            Session(NextRoot(NextRoot(s.root, receiving), sending), Some(Seed(NextRoot(s.root, receiving), sending)),
                    Some(Seed(s.root, receiving)), newKey, newKey.publicKey, Some(theirs), 0, 0, s.sendNumber, s.store)
  {
  }

  /** For any two different 32-byte keys and any secret, the first message of the sender decrypts at the receiver to its
      plaintext, and the receiver can then answer: its first message decrypts at the sender. */
  lemma FirstMessagesArrive(secret: Bytes, bobKey: Bytes, aliceKey: Bytes, newKey: Bytes, next: Bytes,
                            plaintext: Bytes, answer: Bytes, nonce: Bytes)
    requires |bobKey| == |aliceKey| == |newKey| == 32
    ensures var alice := InitSender(secret, bobKey, DhSecret(aliceKey));
            var (alice', sent) := Encrypt(alice, plaintext, nonce);
            && sent.Ok? && sent.value.1 == Header(aliceKey, 0, 0)
            && var got := Decrypt(InitReceiver(secret, DhSecret(bobKey), bobKey), sent.value.1, sent.value.0,
                                  DhSecret(newKey));
               var (bob, back) := Encrypt(got.after, answer, nonce);
               && got.result == Ok(plaintext) && back.Ok? && back.value.1 == Header(newKey, 0, 0)
               && (newKey != bobKey ==>
                     Decrypt(alice', back.value.1, back.value.0, DhSecret(next)).result == Ok(answer))
  {
    hide ToBytes, HexEncode;
    assert bobKey[..32] == bobKey && aliceKey[..32] == aliceKey && newKey[..32] == newKey;
    assert {aliceKey, bobKey} == {bobKey, aliceKey} && {newKey, aliceKey} == {aliceKey, newKey};
  }
}
