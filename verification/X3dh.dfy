/** `x3dh.rs`: the handshake that gives both parties the secret the ratchet starts from. */
module X3dh {
  import opened Wrappers
  import opened ByteText
  import opened Suite

  const X3DH_SALT := Ascii("hysj-x3dh-v2")

  datatype InitResult = InitResult(
    sharedSecret: Bytes, ephemeralPublic: Bytes, kyberCiphertext: Bytes, usedOneTimeKey: bool)

  datatype PreKeyBundle = PreKeyBundle(
    identityPublic: Bytes, signedPreKey: Bytes, signedPreKeySig: Bytes, oneTimePreKey: Option<Bytes>,
    kyberPublic: Bytes)

  function KeyCheck(bytes: Bytes): Option<CryptoError> {
    if |bytes| == KEY_SIZE then None else Some(InvalidKeyLength(KEY_SIZE, |bytes|))
  }

  /** The first key of the wrong length, in the order they are looked at. */
  function FirstBad(keys: seq<Bytes>): Option<CryptoError> {
    if keys == [] then None else if KeyCheck(keys[0]).Some? then KeyCheck(keys[0]) else FirstBad(keys[1..])
  }

  function OptionalKey(key: Option<Bytes>): seq<Bytes> {
    if key.Some? then [key.value] else []
  }

  /** DH1 || DH2 || DH3 || DH4 || KEM secret. */
  function Combined(dh1: Bytes, dh2: Bytes, dh3: Bytes, dh4: Option<Bytes>, kem: Bytes): Bytes {
    dh1 + dh2 + dh3 + (if dh4.Some? then dh4.value else []) + kem
  }

  function Transcript(suite: Suite, identitySecret: Bytes, bundle: PreKeyBundle, ephemeral: Bytes, kem: Bytes): Bytes {
    Combined(suite.dh(identitySecret, bundle.signedPreKey),
             suite.dh(ephemeral, bundle.identityPublic),
             suite.dh(ephemeral, bundle.signedPreKey),
             if bundle.oneTimePreKey.Some? then Some(suite.dh(ephemeral, bundle.oneTimePreKey.value)) else None,
             kem)
  }

  function Initiate(suite: Suite, identitySecret: Bytes, bundle: PreKeyBundle, ephemeral: Bytes, coins: Bytes)
    : Result<InitResult, CryptoError>
  {
    var bad := FirstBad([identitySecret, bundle.identityPublic, bundle.signedPreKey]
        + OptionalKey(bundle.oneTimePreKey));
    if bad.Some? then Err(bad.value)
    else
      match suite.encapsulate(bundle.kyberPublic, coins)
      case None => Err(X3DHError)
      case Some(kem) =>
        Ok(InitResult(suite.hkdf(Transcript(suite, identitySecret, bundle, ephemeral, kem.shared), X3DH_SALT, []),
                      suite.publicOf(ephemeral), kem.ciphertext, bundle.oneTimePreKey.Some?))
  }

  function ResponderTranscript(suite: Suite, identitySecret: Bytes, signedSecret: Bytes, oneTimeSecret: Option<Bytes>,
                               theirIdentity: Bytes, theirEphemeral: Bytes, kem: Bytes): Bytes
  {
    Combined(suite.dh(signedSecret, theirIdentity),
             suite.dh(identitySecret, theirEphemeral),
             suite.dh(signedSecret, theirEphemeral),
             if oneTimeSecret.Some? then Some(suite.dh(oneTimeSecret.value, theirEphemeral)) else None,
             kem)
  }

  function Respond(suite: Suite, identitySecret: Bytes, signedSecret: Bytes, oneTimeSecret: Option<Bytes>,
                   kyberSecret: Bytes, theirIdentity: Bytes, theirEphemeral: Bytes, kyberCiphertext: Bytes)
    : Result<Bytes, CryptoError>
  {
    var bad := FirstBad([identitySecret, signedSecret, theirIdentity, theirEphemeral] + OptionalKey(oneTimeSecret));
    if bad.Some? then Err(bad.value)
    else
      match suite.decapsulate(kyberCiphertext, kyberSecret)
      case None => Err(X3DHError)
      case Some(kem) =>
        Ok(suite.hkdf(ResponderTranscript(suite, identitySecret, signedSecret, oneTimeSecret, theirIdentity,
            theirEphemeral, kem),
                      X3DH_SALT, []))
  }

  function PublicOption(suite: Suite, secret: Option<Bytes>): Option<Bytes> {
    if secret.Some? then Some(suite.publicOf(secret.value)) else None
  }

  /** The bundle a responder publishes for its secrets. */
  function BundleOf(suite: Suite, identitySecret: Bytes, signedSecret: Bytes, signature: Bytes,
                    oneTimeSecret: Option<Bytes>, kyberSecret: Bytes): PreKeyBundle
  {
    PreKeyBundle(suite.publicOf(identitySecret), suite.publicOf(signedSecret), signature,
                 PublicOption(suite, oneTimeSecret), suite.kemPublicOf(kyberSecret))
  }

  /** Both sides concatenate the same secrets in the same order. */
  lemma TranscriptsAgree(suite: Suite, initiator: Bytes, ephemeral: Bytes, identity: Bytes, signed: Bytes,
                         signature: Bytes, oneTime: Option<Bytes>, kyber: Bytes, kem: Bytes)
    requires Lawful(suite)
    ensures Transcript(suite, initiator, BundleOf(suite, identity, signed, signature, oneTime, kyber), ephemeral, kem)
            == ResponderTranscript(suite, identity, signed, oneTime, suite.publicOf(initiator),
                suite.publicOf(ephemeral), kem)
  {
  }

  lemma FirstBadStep(key: Bytes, rest: seq<Bytes>)
    ensures FirstBad([key] + rest).None? <==> |key| == 32 && FirstBad(rest).None?
  {
    assert ([key] + rest)[0] == key && ([key] + rest)[1..] == rest;
  }

  lemma NoneBad(a: Bytes, b: Bytes, c: Bytes, rest: seq<Bytes>)
    ensures FirstBad([a, b, c] + rest).None? <==>
            |a| == 32 && |b| == 32 && |c| == 32 && FirstBad(rest).None?
  {
    FirstBadStep(a, [b, c] + rest);
    FirstBadStep(b, [c] + rest);
    FirstBadStep(c, rest);
    assert [a, b, c] + rest == [a] + ([b, c] + rest);
    assert [b, c] + rest == [b] + ([c] + rest);
  }

  /** Agreement: for matching key material, with or without a one-time pre-key, if the initiation succeeds the response
      to what it sends succeeds with the same shared secret. */
  lemma HandshakeAgrees(suite: Suite, initiator: Bytes, ephemeral: Bytes, coins: Bytes,
                        identity: Bytes, signed: Bytes, signature: Bytes, oneTime: Option<Bytes>, kyber: Bytes)
    requires Lawful(suite)
    requires |initiator| == |identity| == |signed| == 32 && (oneTime.Some? ==> |oneTime.value| == 32)
    ensures var sent := Initiate(suite, initiator, BundleOf(suite, identity, signed, signature, oneTime, kyber),
        ephemeral, coins);
            && (sent.Ok? <==> suite.encapsulate(suite.kemPublicOf(kyber), coins).Some?)
            && (sent.Ok? ==>
                && sent.value.usedOneTimeKey == oneTime.Some?
                && Respond(suite, identity, signed, oneTime, kyber, suite.publicOf(initiator),
                           sent.value.ephemeralPublic, sent.value.kyberCiphertext) == Ok(sent.value.sharedSecret))
  {
    var bundle := BundleOf(suite, identity, signed, signature, oneTime, kyber);
    NoneBad(initiator, bundle.identityPublic, bundle.signedPreKey, OptionalKey(bundle.oneTimePreKey));
    var rest := [suite.publicOf(ephemeral)] + OptionalKey(oneTime);
    NoneBad(identity, signed, suite.publicOf(initiator), rest);
    FirstBadStep(suite.publicOf(ephemeral), OptionalKey(oneTime));
    if oneTime.Some? {
      FirstBadStep(oneTime.value, []);
      FirstBadStep(suite.publicOf(oneTime.value), []);
    }
    assert [identity, signed, suite.publicOf(initiator), suite.publicOf(ephemeral)] + OptionalKey(oneTime)
           == [identity, signed, suite.publicOf(initiator)] + rest;
    var kem := suite.encapsulate(suite.kemPublicOf(kyber), coins);
    if kem.Some? {
      TranscriptsAgree(suite, initiator, ephemeral, identity, signed, signature, oneTime, kyber, kem.value.shared);
    }
  }

  /** The concatenation is unambiguous: with 32-byte parts and KEM secrets of one length, equal transcripts have equal
      parts, and one built with a one-time pre-key never equals one built without. */
  lemma CombinedInjective(a1: Bytes, a2: Bytes, a3: Bytes, a4: Option<Bytes>, a: Bytes,
                          b1: Bytes, b2: Bytes, b3: Bytes, b4: Option<Bytes>, b: Bytes)
    requires |a1| == |a2| == |a3| == |b1| == |b2| == |b3| == 32 && |a| == |b|
    requires (a4.Some? ==> |a4.value| == 32) && (b4.Some? ==> |b4.value| == 32)
    requires Combined(a1, a2, a3, a4, a) == Combined(b1, b2, b3, b4, b)
    ensures a1 == b1 && a2 == b2 && a3 == b3 && a4 == b4 && a == b
  {
    var whole := Combined(a1, a2, a3, a4, a);
    assert whole == Combined(b1, b2, b3, b4, b);
    assert whole[..32] == a1 && whole[..32] == b1;
    assert whole[32..64] == a2 && whole[32..64] == b2;
    assert whole[64..96] == a3 && whole[64..96] == b3;
    assert |whole| == 96 + (if a4.Some? then 32 else 0) + |a|;
    assert |whole| == 96 + (if b4.Some? then 32 else 0) + |b|;
    if a4.Some? {
      assert whole[96..128] == a4.value && whole[96..128] == b4.value;
      assert whole[128..] == a && whole[128..] == b;
    } else {
      assert whole[96..] == a && whole[96..] == b;
    }
  }

  lemma {:induction false} FirstBadNone(keys: seq<Bytes>)
    ensures FirstBad(keys).None? <==> forall k :: 0 <= k < |keys| ==> |keys[k]| == 32
    ensures FirstBad(keys).Some? ==>
              exists i :: 0 <= i < |keys| && |keys[i]| != 32 && (forall k :: 0 <= k < i ==> |keys[k]| == 32)
                          && FirstBad(keys) == Some(InvalidKeyLength(32, |keys[i]|))
  {
    if keys != [] {
      FirstBadNone(keys[1..]);
    }
  }

  /** The keys a side reads, in the order it reads them. */
  function Read(keys: seq<Bytes>, optional: Option<Bytes>): seq<Bytes> {
    if optional.Some? then keys + [optional.value] else keys
  }

  predicate AllSized(keys: seq<Bytes>) {
    forall k :: 0 <= k < |keys| ==> |keys[k]| == 32
  }

  /** The error names the first key of the wrong length. */
  predicate ReportsFirst<T>(r: Result<T, CryptoError>, keys: seq<Bytes>) {
    exists i :: 0 <= i < |keys| && |keys[i]| != 32 && AllSized(keys[..i]) && r == Err(InvalidKeyLength(32, |keys[i]|))
  }

  /** The initiator, in terms of the primitives: the secret is derived from DH(identity, signed pre-key),
      DH(ephemeral, identity), DH(ephemeral, signed pre-key), DH(ephemeral, one-time pre-key) if there is one, and the
      KEM secret, in this order; and these are all the ways it is refused. */
  lemma InitiateExact(suite: Suite, identitySecret: Bytes, bundle: PreKeyBundle, ephemeral: Bytes, coins: Bytes)
    ensures var keys := Read([identitySecret, bundle.identityPublic, bundle.signedPreKey], bundle.oneTimePreKey);
            var kem := suite.encapsulate(bundle.kyberPublic, coins);
            var r := Initiate(suite, identitySecret, bundle, ephemeral, coins);
            if !AllSized(keys) then ReportsFirst(r, keys)
            else if kem.None? then r == Err(X3DHError)
            else
              && r.Ok?
              && r.value.sharedSecret ==
                 suite.hkdf(suite.dh(identitySecret, bundle.signedPreKey) + suite.dh(ephemeral, bundle.identityPublic)
                            + suite.dh(ephemeral, bundle.signedPreKey)
                            + (if bundle.oneTimePreKey.Some? then suite.dh(ephemeral, bundle.oneTimePreKey.value)
                                else [])
                            + kem.value.shared, Ascii("hysj-x3dh-v2"), [])
              && r.value.ephemeralPublic == suite.publicOf(ephemeral)
              && r.value.kyberCiphertext == kem.value.ciphertext
              && r.value.usedOneTimeKey == bundle.oneTimePreKey.Some?
  {
    var keys := Read([identitySecret, bundle.identityPublic, bundle.signedPreKey], bundle.oneTimePreKey);
    assert keys == [identitySecret, bundle.identityPublic, bundle.signedPreKey] + OptionalKey(bundle.oneTimePreKey);
    FirstReported(keys);
  }

  lemma FirstReported(keys: seq<Bytes>)
    ensures FirstBad(keys).None? <==> AllSized(keys)
    ensures FirstBad(keys).Some? ==>
              exists i :: 0 <= i < |keys| && |keys[i]| != 32 && AllSized(keys[..i])
                          && FirstBad(keys).value == InvalidKeyLength(32, |keys[i]|)
  {
    FirstBadNone(keys);
    if FirstBad(keys).Some? {
      var i :| 0 <= i < |keys| && |keys[i]| != 32 && (forall k :: 0 <= k < i ==> |keys[k]| == 32)
               && FirstBad(keys) == Some(InvalidKeyLength(32, |keys[i]|));
      assert AllSized(keys[..i]);
    }
  }

  /** The responder likewise, with its own secrets and the initiator's public keys at the other ends. */
  lemma RespondExact(suite: Suite, identitySecret: Bytes, signedSecret: Bytes, oneTimeSecret: Option<Bytes>,
                     kyberSecret: Bytes, theirIdentity: Bytes, theirEphemeral: Bytes, kyberCiphertext: Bytes)
    ensures var keys := Read([identitySecret, signedSecret, theirIdentity, theirEphemeral], oneTimeSecret);
            var kem := suite.decapsulate(kyberCiphertext, kyberSecret);
            var r := Respond(suite, identitySecret, signedSecret, oneTimeSecret, kyberSecret, theirIdentity,
                             theirEphemeral, kyberCiphertext);
            if !AllSized(keys) then ReportsFirst(r, keys)
            else if kem.None? then r == Err(X3DHError)
            else
              r == Ok(suite.hkdf(suite.dh(signedSecret, theirIdentity) + suite.dh(identitySecret, theirEphemeral)
                                 + suite.dh(signedSecret, theirEphemeral)
                                 + (if oneTimeSecret.Some? then suite.dh(oneTimeSecret.value, theirEphemeral) else [])
                                 + kem.value, Ascii("hysj-x3dh-v2"), []))
  {
    var keys := Read([identitySecret, signedSecret, theirIdentity, theirEphemeral], oneTimeSecret);
    assert keys == [identitySecret, signedSecret, theirIdentity, theirEphemeral] + OptionalKey(oneTimeSecret);
    FirstReported(keys);
  }
}
