/** The primitives under the Double Ratchet, as free terms.

    A derived key is the term that says how it was derived, so two keys are equal exactly when they were
    derived the same way. A Diffie-Hellman output is the unordered pair of the public keys at its two ends. */
module SymbolicCrypto {
  import opened Wrappers
  import opened ByteText

  datatype DhSecret = DhSecret(publicKey: Bytes)

  datatype SharedSecret = SharedSecret(ends: set<Bytes>)

  function DiffieHellman(secret: DhSecret, publicKey: Bytes): SharedSecret {
    SharedSecret({secret.publicKey, publicKey})
  }

  datatype RootKey = Initial(secret: Bytes) | NextRoot(previous: RootKey, dh: SharedSecret)

  datatype ChainKey = Seed(root: RootKey, dh: SharedSecret) | NextChain(previous: ChainKey)

  datatype MessageKey = MessageKey(chain: ChainKey)

  function DeriveRootKey(root: RootKey, dh: SharedSecret): (RootKey, ChainKey) {
    (NextRoot(root, dh), Seed(root, dh))
  }

  function DeriveChainKey(chain: ChainKey): (ChainKey, MessageKey) {
    (NextChain(chain), MessageKey(chain))
  }

  /** The chain key after `n` symmetric steps. */
  function Advance(chain: ChainKey, n: nat): ChainKey {
    if n == 0 then chain else NextChain(Advance(chain, n - 1))
  }

  /** The `n`-th message key of a chain. */
  function KeyAt(chain: ChainKey, n: nat): MessageKey {
    MessageKey(Advance(chain, n))
  }

  lemma {:induction false} AdvanceAdds(chain: ChainKey, m: nat, n: nat)
    ensures Advance(Advance(chain, m), n) == Advance(chain, m + n)
  {
    if n > 0 {
      AdvanceAdds(chain, m, n - 1);
    }
  }

  // ------------------------------------------------------- where a key comes from

  function SeedOf(chain: ChainKey): (seed: ChainKey)
    ensures seed.Seed?
  {
    if chain.Seed? then chain else SeedOf(chain.previous)
  }

  function StepsOf(chain: ChainKey): nat {
    if chain.Seed? then 0 else 1 + StepsOf(chain.previous)
  }

  function Depth(root: RootKey): nat {
    if root.Initial? then 0 else 1 + Depth(root.previous)
  }

  function Origin(root: RootKey): Bytes {
    if root.Initial? then root.secret else Origin(root.previous)
  }

  /** The agreed secret a message key descends from. */
  function KeyOrigin(key: MessageKey): Bytes {
    Origin(SeedOf(key.chain).root)
  }

  lemma {:induction false} AdvanceRemembers(seed: ChainKey, n: nat)
    requires seed.Seed?
    ensures SeedOf(Advance(seed, n)) == seed && StepsOf(Advance(seed, n)) == n
  {
    if n > 0 {
      AdvanceRemembers(seed, n - 1);
    }
  }

  // ------------------------------------------------------------------------ AEAD

  /** What can arrive as a ciphertext: the output of a seal, or bytes no seal produced. */
  datatype Ciphertext =
    | Garbage(raw: Bytes)
    | Sealed(key: MessageKey, nonce: Bytes, plaintext: Bytes, aad: Bytes)

  /** Opening succeeds with the sealing key and the sealing associated data, and with nothing else. */
  function OpenSealed(ciphertext: Ciphertext, key: MessageKey, aad: Bytes): Option<Bytes> {
    if ciphertext.Sealed? && ciphertext.key == key && ciphertext.aad == aad then
      Some(ciphertext.plaintext)
    else
      None
  }
}
