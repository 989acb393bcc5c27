/** `sealed.rs`: the envelope that hides who sent a message. */
module Sealed {
  import opened Wrappers
  import opened ByteText
  import opened Suite

  const SEALED_INFO := Ascii("hysj-sealed-enc")
  const SIGNATURE_SIZE: nat := 64
  const ID_FIELD := Ascii("{\"sender_id\":")
  const CERT_FIELD := Ascii(",\"sender_cert\":")
  const PLAINTEXT_FIELD := Ascii(",\"plaintext\":")
  const END := Ascii("}")

  datatype SealedContent = SealedContent(senderId: Bytes, senderCertificate: Bytes, plaintext: Bytes)

  function InnerBytes(c: SealedContent): Bytes {
    ID_FIELD + JsonString(c.senderId) + CERT_FIELD + JsonBytes(c.senderCertificate)
    + PLAINTEXT_FIELD + JsonBytes(c.plaintext) + END
  }

  function ReadPlaintext(senderId: Bytes, cert: Bytes, text: Bytes): Option<SealedContent> {
    match Expect(PLAINTEXT_FIELD, text)
    case None => None
    case Some(t1) =>
      match ReadBytes(t1)
      case None => None
      case Some((plaintext, t2)) => if t2 == END then Some(SealedContent(senderId, cert, plaintext)) else None
  }

  function ReadCert(senderId: Bytes, text: Bytes): Option<SealedContent> {
    match Expect(CERT_FIELD, text)
    case None => None
    case Some(t1) =>
      match ReadBytes(t1)
      case None => None
      case Some((cert, t2)) => ReadPlaintext(senderId, cert, t2)
  }

  function ReadInner(text: Bytes): Option<SealedContent> {
    match Expect(ID_FIELD, text)
    case None => None
    case Some(t1) =>
      match ReadString(t1)
      case None => None
      case Some((senderId, t2)) => ReadCert(senderId, t2)
  }

  lemma PlaintextRoundTrip(c: SealedContent)
    ensures ReadPlaintext(c.senderId, c.senderCertificate, PLAINTEXT_FIELD + (JsonBytes(c.plaintext) + END)) == Some(c)
  {
    hide JsonBytes, ReadBytes;
    ExpectPrefix(PLAINTEXT_FIELD, JsonBytes(c.plaintext) + END);
    BytesRoundTrip(c.plaintext, END);
  }

  lemma CertRoundTrip(c: SealedContent)
    ensures ReadCert(c.senderId, CERT_FIELD + (JsonBytes(c.senderCertificate)
                                               + (PLAINTEXT_FIELD + (JsonBytes(c.plaintext) + END)))) == Some(c)
  {
    hide JsonBytes, ReadBytes, ReadPlaintext;
    var t2 := PLAINTEXT_FIELD + (JsonBytes(c.plaintext) + END);
    ExpectPrefix(CERT_FIELD, JsonBytes(c.senderCertificate) + t2);
    BytesRoundTrip(c.senderCertificate, t2);
    PlaintextRoundTrip(c);
  }

  lemma InnerRoundTrip(c: SealedContent)
    ensures ReadInner(InnerBytes(c)) == Some(c)
  {
    hide JsonBytes, JsonString, ReadBytes, ReadString, ReadCert;
    var t2 := CERT_FIELD + (JsonBytes(c.senderCertificate) + (PLAINTEXT_FIELD + (JsonBytes(c.plaintext) + END)));
    var t1 := JsonString(c.senderId) + t2;
    assert InnerBytes(c) == ID_FIELD + t1;
    ExpectPrefix(ID_FIELD, t1);
    StringRoundTrip(c.senderId, t2);
    CertRoundTrip(c);
  }

  function Seal(suite: Suite, content: SealedContent, recipientPublic: Bytes, coins: Coins)
    : Result<Bytes, CryptoError>
  {
    if |recipientPublic| != KEY_SIZE then Err(InvalidKeyLength(KEY_SIZE, |recipientPublic|))
    else Ok(Box(suite, InnerBytes(content), recipientPublic, SEALED_INFO, coins))
  }

  /** A certificate is looked at only when the verification key has 32 bytes and the certificate 64. */
  predicate CertificateAccepted(suite: Suite, verificationKey: Bytes, content: SealedContent) {
    |verificationKey| == KEY_SIZE && |content.senderCertificate| == SIGNATURE_SIZE ==>
      && suite.isVerifyingKey(verificationKey)
      && suite.verify(verificationKey, content.senderId, content.senderCertificate)
  }

  function Open(suite: Suite, blob: Bytes, secret: Bytes, verificationKey: Bytes): Result<SealedContent, CryptoError> {
    if BoxTooShort(blob) then Err(SealedSenderError)
    else if |secret| != KEY_SIZE then Err(InvalidKeyLength(KEY_SIZE, |secret|))
    else
      match Unbox(suite, blob, secret, SEALED_INFO)
      case Err(e) => Err(e)
      case Ok(text) =>
        match ReadInner(text)
        case None => Err(DeserializationError)
        case Some(content) =>
          if CertificateAccepted(suite, verificationKey, content) then Ok(content) else Err(SealedSenderError)
  }

  lemma Reassemble(a: Bytes, b: Bytes, c: Bytes, d: Bytes, e: Bytes, f: Bytes, g: Bytes)
    ensures a + (b + (c + (d + (e + (f + g))))) == a + b + c + d + e + f + g
  {
  }

  lemma CertExact(text: Bytes, c: SealedContent)
    requires ReadCert(c.senderId, text) == Some(c)
    ensures text == CERT_FIELD + (JsonBytes(c.senderCertificate) + (PLAINTEXT_FIELD + (JsonBytes(c.plaintext) + END)))
  {
    hide JsonBytes, ReadBytes;
    var t1 := Expect(CERT_FIELD, text).value;
    var (cert, t2) := ReadBytes(t1).value;
    BytesExact(t1, cert, t2);
    var t3 := Expect(PLAINTEXT_FIELD, t2).value;
    var (plaintext, t4) := ReadBytes(t3).value;
    BytesExact(t3, plaintext, t4);
  }

  lemma ReadCertKeepsId(senderId: Bytes, text: Bytes)
    ensures ReadCert(senderId, text).Some? ==> ReadCert(senderId, text).value.senderId == senderId
  {
    hide ReadBytes;
  }

  /** Exactly the text of an inner record reads as that record: three fields by name, in this order, without spaces. */
  lemma InnerExact(text: Bytes, c: SealedContent)
    ensures ReadInner(text) == Some(c) <==>
            text == Ascii("{\"sender_id\":") + JsonString(c.senderId) + Ascii(",\"sender_cert\":")
                    + JsonBytes(c.senderCertificate) + Ascii(",\"plaintext\":") + JsonBytes(c.plaintext) + Ascii("}")
  {
    hide JsonBytes, JsonString, ReadBytes, ReadString, ReadCert;
    InnerRoundTrip(c);
    if ReadInner(text) == Some(c) {
      var t1 := Expect(ID_FIELD, text).value;
      var (senderId, t2) := ReadString(t1).value;
      StringExact(t1, senderId, t2);
      ReadCertKeepsId(senderId, t2);
      CertExact(t2, c);
      Reassemble(ID_FIELD, JsonString(senderId), CERT_FIELD, JsonBytes(c.senderCertificate), PLAINTEXT_FIELD,
                 JsonBytes(c.plaintext), END);
    }
  }

  /** What is sealed, in terms of the primitives: an ephemeral public key, a nonce, and the record's text sealed under
      the key derived from the Diffie-Hellman output of the ephemeral secret and the recipient's key. A key that is
      not 32 bytes long is refused. */
  lemma SealFrame(suite: Suite, c: SealedContent, recipientPublic: Bytes, coins: Coins)
    requires Lawful(suite) && |coins.nonce| == 24
    ensures var sealed := Seal(suite, c, recipientPublic, coins);
            if |recipientPublic| != 32 then sealed == Err(InvalidKeyLength(32, |recipientPublic|))
            else
              var key := suite.hkdf(suite.dh(coins.ephemeral, recipientPublic), [], Ascii("hysj-sealed-enc"));
              && sealed.Ok? && |sealed.value| >= 72
              && sealed.value[..32] == suite.publicOf(coins.ephemeral) && sealed.value[32..56] == coins.nonce
              && sealed.value[56..] ==
                 suite.seal(key, coins.nonce,
                            Ascii("{\"sender_id\":") + JsonString(c.senderId) + Ascii(",\"sender_cert\":")
                            + JsonBytes(c.senderCertificate) + Ascii(",\"plaintext\":") + JsonBytes(c.plaintext)
                            + Ascii("}"), [])
  {
    hide Lawful, JsonString, JsonBytes, Box;
    BoxFrame(suite, InnerBytes(c), recipientPublic, SEALED_INFO, coins);
    InnerExact(InnerBytes(c), c);
    InnerRoundTrip(c);
  }

  /** For every blob, secret and verification key: a content is returned exactly when the AEAD opens the blob under the
      key derived from the secret and the first 32 bytes, the text is that content's, and the certificate does not
      fail: with a 32-byte verification key and a 64-byte certificate the key must be one and must verify the
      certificate over the sender id, and with any other length nothing is checked. */
  lemma OpenExact(suite: Suite, blob: Bytes, secret: Bytes, verificationKey: Bytes, c: SealedContent)
    ensures |blob| < 72 ==> Open(suite, blob, secret, verificationKey) == Err(SealedSenderError)
    ensures |blob| >= 72 && |secret| != 32 ==>
              Open(suite, blob, secret, verificationKey) == Err(InvalidKeyLength(32, |secret|))
    ensures |blob| >= 72 && |secret| == 32 ==>
              var key := suite.hkdf(suite.dh(secret, blob[..32]), [], Ascii("hysj-sealed-enc"));
              var plain := suite.open(key, blob[32..56], blob[56..], []);
              var text := Ascii("{\"sender_id\":") + JsonString(c.senderId) + Ascii(",\"sender_cert\":")
                          + JsonBytes(c.senderCertificate) + Ascii(",\"plaintext\":") + JsonBytes(c.plaintext)
                          + Ascii("}");
              var refused := |verificationKey| == 32 && |c.senderCertificate| == 64
                             && !(suite.isVerifyingKey(verificationKey)
                                  && suite.verify(verificationKey, c.senderId, c.senderCertificate));
              var r := Open(suite, blob, secret, verificationKey);
              && (plain.None? ==> r == Err(DecryptionFailed))
              && (plain.Some? && ReadInner(plain.value).None? ==> r == Err(DeserializationError))
              && (plain == Some(text) ==> r == if refused then Err(SealedSenderError) else Ok(c))
              && (r == Ok(c) ==> plain == Some(text) && !refused)
  {
    hide JsonString, JsonBytes, Unbox, ReadInner;
    if |blob| >= 72 && |secret| == 32 {
      UnboxExact(suite, blob, secret, SEALED_INFO);
      var r := Unbox(suite, blob, secret, SEALED_INFO);
      if r.Ok? {
        InnerExact(r.value, c);
      }
    }
  }

  /** Opening what was sealed for the recipient returns sender, certificate and plaintext, or refuses them: with a
      32-byte verification key and a 64-byte certificate exactly when the key is none or does not verify the
      certificate over the sender id, and with any other length never. */
  lemma OpenUndoesSeal(suite: Suite, content: SealedContent, secret: Bytes, coins: Coins, verificationKey: Bytes)
    requires Lawful(suite) && |secret| == 32 && |coins.nonce| == 24
    ensures var sealed := Seal(suite, content, suite.publicOf(secret), coins);
            && sealed.Ok?
            && Open(suite, sealed.value, secret, verificationKey) ==
               if && |verificationKey| == 32 && |content.senderCertificate| == 64
                  && !(suite.isVerifyingKey(verificationKey)
                       && suite.verify(verificationKey, content.senderId, content.senderCertificate))
               then Err(SealedSenderError) else Ok(content)
  {
    hide InnerBytes, ReadInner, Box, Unbox;
    BoxRoundTrip(suite, InnerBytes(content), secret, SEALED_INFO, coins);
    InnerRoundTrip(content);
  }
}
