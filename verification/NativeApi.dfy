/** `native/src/api.rs`: every call reads a session, works on its own copy, and returns the next session or an error. */
module NativeApi {
  import opened Wrappers
  import opened ByteText
  import opened SymbolicCrypto
  import opened MessageHeader
  import opened SkippedKeys
  import opened RatchetSession
  import opened TwoParty
  import opened SessionJson
  import R = RatchetState

  datatype ApiError = BadSession | BadHeader | Ratchet(error: RatchetError) | Panic

  function EncryptCall(json: Json, plaintext: Bytes, nonce: Bytes): Result<(Json, Bytes, Ciphertext), ApiError> {
    match Deserialize(json)
    case None => Err(BadSession)
    case Some(s) =>
      var (after, result) := Encrypt(s, plaintext, nonce);
      match result
      case Err(e) => Err(Ratchet(e))
      case Ok((ciphertext, header)) =>
        match Serialize(after)
        case None => Err(Panic)
        case Some(next) => Ok((next, ToBytes(header), ciphertext))
  }

  /** The header comes as its JSON text. */
  function DecryptCall(json: Json, headerText: Bytes, ciphertext: Ciphertext, newKey: DhSecret)
    : Result<(Json, Bytes), ApiError>
  {
    match Deserialize(json)
    case None => Err(BadSession)
    case Some(s) =>
      match FromBytes(headerText)
      case None => Err(BadHeader)
      case Some(header) =>
        var outcome := Decrypt(s, header, ciphertext, newKey);
        match outcome.result
        case Err(e) => Err(Ratchet(e))
        case Ok(plaintext) =>
          match Serialize(outcome.after)
          case None => Err(Panic)
          case Some(next) => Ok((next, plaintext))
  }

  lemma EncryptCallExact(json: Json, plaintext: Bytes, nonce: Bytes)
    ensures var read, r := Deserialize(json), EncryptCall(json, plaintext, nonce);
            && (read.None? ==> r == Err(BadSession))
            && (read.Some? && read.value.sendingChain.None? ==> r == Err(Ratchet(NoSendingChain)))
            && (read.Some? && read.value.sendingChain.Some? ==>
                  var (after, sent) := Encrypt(read.value, plaintext, nonce);
                  && r.Ok? && sent.Ok? && Deserialize(r.value.0) == Some(after)
                  && FromBytes(r.value.1) == Some(sent.value.1) && r.value.2 == sent.value.0)
  {
    hide Deserialize, Serialize, FromBytes, ToBytes;
    if Deserialize(json).Some? {
      var s := Deserialize(json).value;
      SessionExact(json, s);
      SerializableIffNothingSkipped(s);
      var (after, sent) := Encrypt(s, plaintext, nonce);
      PersistenceRoundTrip(after);
      if sent.Ok? {
        HeaderRoundTrip(sent.value.1);
      }
    }
  }

  lemma DecryptCallExact(json: Json, headerText: Bytes, ciphertext: Ciphertext, newKey: DhSecret)
    ensures var r := DecryptCall(json, headerText, ciphertext, newKey);
            && (Deserialize(json).None? ==> r == Err(BadSession))
            && (Deserialize(json).Some? && FromBytes(headerText).None? ==> r == Err(BadHeader))
            && (Deserialize(json).Some? && FromBytes(headerText).Some? ==>
                  var outcome := Decrypt(Deserialize(json).value, FromBytes(headerText).value, ciphertext, newKey);
                  && (outcome.result.Err? ==> r == Err(Ratchet(outcome.result.error)))
                  && (outcome.result.Ok? && outcome.after.store != [] ==> r == Err(Panic))
                  && (outcome.result.Ok? && outcome.after.store == [] ==>
                        r.Ok? && Deserialize(r.value.0) == Some(outcome.after) && outcome.result == Ok(r.value.1)))
  {
    hide Deserialize, Serialize, FromBytes, Decrypt;
    if Deserialize(json).Some? && FromBytes(headerText).Some? {
      var outcome := Decrypt(Deserialize(json).value, FromBytes(headerText).value, ciphertext, newKey);
      PersistenceRoundTrip(outcome.after);
    }
  }

  /** `ratchet_encrypt`: refused when the session does not read or has no sending chain; otherwise the ratchet's header
      text and ciphertext, and the session it leaves. */
  method RatchetEncrypt(json: Json, plaintext: Bytes, nonce: Bytes)
    returns (r: Result<(Json, Bytes, Ciphertext), ApiError>)
    ensures r == EncryptCall(json, plaintext, nonce)
    ensures var read := Deserialize(json);
            && (read.None? ==> r == Err(BadSession))
            && (read.Some? && read.value.sendingChain.None? ==> r == Err(Ratchet(NoSendingChain)))
            && (read.Some? && read.value.sendingChain.Some? ==>
                  var (after, sent) := Encrypt(read.value, plaintext, nonce);
                  && r.Ok? && sent.Ok? && Deserialize(r.value.0) == Some(after)
                  && FromBytes(r.value.1) == Some(sent.value.1) && r.value.2 == sent.value.0)
  {
    EncryptCallExact(json, plaintext, nonce);
    var read := Deserialize(json);
    if read.None? {
      return Err(BadSession);
    }
    var session := new R.RatchetState.Restore(read.value);
    var encrypted := session.Encrypt(plaintext, nonce);
    if encrypted.Err? {
      return Err(Ratchet(encrypted.error));
    }
    var written := WriteSession(session);
    if written.None? {
      return Err(Panic);
    }
    r := Ok((written.value, ToBytes(encrypted.value.1), encrypted.value.0));
  }

  /** `ratchet_decrypt`: a success if and only if the session reads, the header text is that of a header, the ratchet
      decrypts under it, and it leaves no skipped key behind; then that plaintext and that session are returned. Each
      refusal has its own error, and a session that cannot be written panics. */
  method RatchetDecrypt(json: Json, headerText: Bytes, ciphertext: Ciphertext, newKey: DhSecret)
    returns (r: Result<(Json, Bytes), ApiError>)
    ensures r == DecryptCall(json, headerText, ciphertext, newKey)
    ensures r.Ok? <==>
            && Deserialize(json).Some? && FromBytes(headerText).Some?
            && var outcome := Decrypt(Deserialize(json).value, FromBytes(headerText).value, ciphertext, newKey);
               outcome.result.Ok? && outcome.after.store == []
    ensures r.Ok? ==>
              var outcome := Decrypt(Deserialize(json).value, FromBytes(headerText).value, ciphertext, newKey);
              Deserialize(r.value.0) == Some(outcome.after) && outcome.result == Ok(r.value.1)
    ensures Deserialize(json).None? ==> r == Err(BadSession)
    ensures Deserialize(json).Some? && FromBytes(headerText).None? ==> r == Err(BadHeader)
    ensures Deserialize(json).Some? && FromBytes(headerText).Some? ==>
              var outcome := Decrypt(Deserialize(json).value, FromBytes(headerText).value, ciphertext, newKey);
              && (outcome.result.Err? ==> r == Err(Ratchet(outcome.result.error)))
              && (outcome.result.Ok? && outcome.after.store != [] ==> r == Err(Panic))
  {
    DecryptCallExact(json, headerText, ciphertext, newKey);
    hide Decrypt, FromBytes;
    var read := Deserialize(json);
    if read.None? {
      return Err(BadSession);
    }
    var session := new R.RatchetState.Restore(read.value);
    var header := FromBytes(headerText);
    if header.None? {
      return Err(BadHeader);
    }
    var decrypted := session.Decrypt(ciphertext, header.value, newKey);
    if decrypted.Err? {
      return Err(Ratchet(decrypted.error));
    }
    var written := WriteSession(session);
    if written.None? {
      return Err(Panic);
    }
    r := Ok((written.value, decrypted.value));
  }

  method WriteSession(session: R.RatchetState) returns (json: Option<Json>)
    requires session.Valid()
    ensures json == Serialize(session.State())
  {
    SameSize(session.skippedKeys.insertionOrder, session.skippedKeys.keys);
    if session.skippedKeys.keys != map[] {
      return None;
    }
    json := Serialize(Session(
      session.rootKey, session.sendingChainKey, session.receivingChainKey, session.dhSendSecret, session.dhSendPublic,
      session.dhReceivePublic, session.sendMessageNumber, session.recvMessageNumber,
      session.previousSendingChainLength, []));
  }
}
