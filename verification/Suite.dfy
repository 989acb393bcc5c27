/** The primitives under the envelope and the handshake, on real bytes: any functions that obey their laws. */
module Suite {
  import opened Wrappers
  import opened ByteText

  const KEY_SIZE: nat := 32
  const NONCE_SIZE: nat := 24
  const TAG_SIZE: nat := 16

  datatype CryptoError =
    | InvalidKeyLength(expected: nat, actual: nat)
    | DecryptionFailed
    | DeserializationError
    | OnionError
    | SealedSenderError
    | X3DHError

  datatype Encapsulation = Encapsulation(ciphertext: Bytes, shared: Bytes)

  datatype Suite = Suite(
    publicOf: Bytes -> Bytes,
    dh: (Bytes, Bytes) -> Bytes,
    /** Input keying material, salt, info. */
    hkdf: (Bytes, Bytes, Bytes) -> Bytes,
    /** Key, nonce, plaintext, associated data. */
    seal: (Bytes, Bytes, Bytes, Bytes) -> Bytes,
    open: (Bytes, Bytes, Bytes, Bytes) -> Option<Bytes>,
    kemPublicOf: Bytes -> Bytes,
    /** Public key and coins; `None` for a key of the wrong length. */
    encapsulate: (Bytes, Bytes) -> Option<Encapsulation>,
    decapsulate: (Bytes, Bytes) -> Option<Bytes>,
    isVerifyingKey: Bytes -> bool,
    /** Verifying key, message, signature. */
    verify: (Bytes, Bytes, Bytes) -> bool)

  /** Diffie-Hellman commutes, the AEAD adds a tag and opens what it sealed, decapsulation undoes encapsulation. */
  ghost predicate Lawful(suite: Suite) {
    && (forall s :: |suite.publicOf(s)| == 32)
    && (forall a, b :: suite.dh(a, suite.publicOf(b)) == suite.dh(b, suite.publicOf(a)))
    && (forall a, b :: |suite.dh(a, b)| == 32)
    && (forall k, n, p, a :: |suite.seal(k, n, p, a)| == |p| + 16)
    && (forall k, n, p, a :: suite.open(k, n, suite.seal(k, n, p, a), a) == Some(p))
    && (forall s, coins :: suite.encapsulate(suite.kemPublicOf(s), coins).Some? ==>
          var e := suite.encapsulate(suite.kemPublicOf(s), coins).value;
          suite.decapsulate(e.ciphertext, s) == Some(e.shared))
  }

  function Zeros(n: nat): Bytes {
    seq(n, i => 0)
  }

  function DropTag(text: Bytes): Option<Bytes> {
    if |text| < TAG_SIZE then None else Some(text[..|text| - TAG_SIZE])
  }

  /** The laws have a model. */
  lemma LawsAreConsistent()
    ensures exists suite :: Lawful(suite)
  {
    var suite := Suite(
      (s: Bytes) => Zeros(KEY_SIZE),
      (a: Bytes, b: Bytes) => Zeros(KEY_SIZE),
      (i: Bytes, s: Bytes, f: Bytes) => Zeros(KEY_SIZE),
      (k: Bytes, n: Bytes, p: Bytes, a: Bytes) => p + Zeros(TAG_SIZE),
      (k: Bytes, n: Bytes, c: Bytes, a: Bytes) => DropTag(c),
      (s: Bytes) => s,
      (p: Bytes, coins: Bytes) => Some(Encapsulation(coins, p)),
      (c: Bytes, s: Bytes) => Some(s),
      (k: Bytes) => true,
      (k: Bytes, m: Bytes, s: Bytes) => true);
    forall k: Bytes, n: Bytes, p: Bytes, a: Bytes ensures suite.open(k, n, suite.seal(k, n, p, a), a) == Some(p) {
      assert (p + Zeros(TAG_SIZE))[..|p|] == p;
    }
    assert Lawful(suite);
  }

  // ------------------------------------------------------------------ cipher.rs

  /** Nonce first, then ciphertext and tag. */
  function CipherEncrypt(suite: Suite, plaintext: Bytes, key: Bytes, aad: Bytes, nonce: Bytes): Bytes {
    nonce + suite.seal(key, nonce, plaintext, aad)
  }

  function CipherDecrypt(suite: Suite, text: Bytes, key: Bytes, aad: Bytes): Result<Bytes, CryptoError> {
    if |text| < NONCE_SIZE + TAG_SIZE then Err(DecryptionFailed)
    else
      match suite.open(key, text[..NONCE_SIZE], text[NONCE_SIZE..], aad)
      case None => Err(DecryptionFailed)
      case Some(plaintext) => Ok(plaintext)
  }

  /** The frame costs 40 bytes and comes off again. */
  lemma CipherRoundTrip(suite: Suite, plaintext: Bytes, key: Bytes, aad: Bytes, nonce: Bytes)
    requires Lawful(suite) && |nonce| == 24
    ensures |CipherEncrypt(suite, plaintext, key, aad, nonce)| == |plaintext| + 40
    ensures CipherDecrypt(suite, CipherEncrypt(suite, plaintext, key, aad, nonce), key, aad) == Ok(plaintext)
  {
    var text := CipherEncrypt(suite, plaintext, key, aad, nonce);
    assert text[..NONCE_SIZE] == nonce && text[NONCE_SIZE..] == suite.seal(key, nonce, plaintext, aad);
  }

  // --------------------------------------- the shape sealed sender and onion share

  /** The coins of one sealing: an ephemeral secret and a nonce. */
  datatype Coins = Coins(ephemeral: Bytes, nonce: Bytes)

  function SharedKey(suite: Suite, secret: Bytes, publicKey: Bytes, info: Bytes): Bytes {
    suite.hkdf(suite.dh(secret, publicKey), [], info)
  }

  /** Ephemeral public key, then the text encrypted for the holder of the other end. */
  function Box(suite: Suite, text: Bytes, publicKey: Bytes, info: Bytes, coins: Coins): Bytes {
    suite.publicOf(coins.ephemeral)
    + CipherEncrypt(suite, text, SharedKey(suite, coins.ephemeral, publicKey, info), [], coins.nonce)
  }

  predicate BoxTooShort(blob: Bytes) {
    |blob| < KEY_SIZE + NONCE_SIZE + TAG_SIZE
  }

  function Unbox(suite: Suite, blob: Bytes, secret: Bytes, info: Bytes): Result<Bytes, CryptoError>
    requires !BoxTooShort(blob)
  {
    CipherDecrypt(suite, blob[KEY_SIZE..], SharedKey(suite, secret, blob[..KEY_SIZE], info), [])
  }

  lemma BoxRoundTrip(suite: Suite, text: Bytes, secret: Bytes, info: Bytes, coins: Coins)
    requires Lawful(suite) && |coins.nonce| == 24
    ensures var blob := Box(suite, text, suite.publicOf(secret), info, coins);
            && |blob| == |text| + 72
            && !BoxTooShort(blob)
            && Unbox(suite, blob, secret, info) == Ok(text)
  {
    var blob := Box(suite, text, suite.publicOf(secret), info, coins);
    var key := SharedKey(suite, coins.ephemeral, suite.publicOf(secret), info);
    CipherRoundTrip(suite, text, key, [], coins.nonce);
    assert blob[..KEY_SIZE] == suite.publicOf(coins.ephemeral);
    assert blob[KEY_SIZE..] == CipherEncrypt(suite, text, key, [], coins.nonce);
  }

  /** For every text: shorter than nonce and tag it is refused, and otherwise the AEAD decides, with the first 24
      bytes as the nonce. */
  lemma CipherDecryptExact(suite: Suite, text: Bytes, key: Bytes, aad: Bytes)
    ensures CipherDecrypt(suite, text, key, aad) ==
            if |text| < 40 then Err(DecryptionFailed)
            else if suite.open(key, text[..24], text[24..], aad).None? then Err(DecryptionFailed)
            else Ok(suite.open(key, text[..24], text[24..], aad).value)
  {
  }

  /** The frame in terms of the primitives: the ephemeral public key, the nonce, and the text sealed under the key
      derived from the Diffie-Hellman output of the two, without associated data. */
  lemma BoxFrame(suite: Suite, text: Bytes, publicKey: Bytes, info: Bytes, coins: Coins)
    requires Lawful(suite) && |coins.nonce| == 24
    ensures var blob := Box(suite, text, publicKey, info, coins);
            && |blob| == |text| + 72
            && blob[..32] == suite.publicOf(coins.ephemeral) && blob[32..56] == coins.nonce
            && blob[56..] ==
               suite.seal(suite.hkdf(suite.dh(coins.ephemeral, publicKey), [], info), coins.nonce, text, [])
  {
    var blob := Box(suite, text, publicKey, info, coins);
    var key := suite.hkdf(suite.dh(coins.ephemeral, publicKey), [], info);
    assert blob == suite.publicOf(coins.ephemeral) + (coins.nonce + suite.seal(key, coins.nonce, text, []));
    hide Lawful;
  }

  /** For every blob: it opens exactly when the AEAD opens what follows the first 56 bytes, under the key derived from
      the secret and the first 32, with the next 24 as nonce. */
  lemma UnboxExact(suite: Suite, blob: Bytes, secret: Bytes, info: Bytes)
    requires |blob| >= 72
    ensures !BoxTooShort(blob)
    ensures var plain := suite.open(suite.hkdf(suite.dh(secret, blob[..32]), [], info), blob[32..56], blob[56..], []);
            Unbox(suite, blob, secret, info) == if plain.None? then Err(DecryptionFailed) else Ok(plain.value)
  {
    assert blob[32..][..24] == blob[32..56] && blob[32..][24..] == blob[56..];
  }
}
