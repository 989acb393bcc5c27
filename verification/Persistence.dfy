/** Passing every session through the written form: when it changes nothing, and when it stops the run. */
module Persistence {
  import opened Wrappers
  import opened ByteText
  import opened SymbolicCrypto
  import opened MessageHeader
  import opened SkippedKeys
  import opened RatchetSession
  import opened TwoParty
  import opened Acceptance
  import opened SystemInvariant
  import opened Eviction
  import opened SessionJson
  import opened NativeApi

  // -------------------------------------------------- what an accepted call stores

  lemma PutLeavesSomething(store: Store, slot: Slot, key: MessageKey)
    ensures Put(store, slot, key) != []
  {
  }

  lemma PutAllEmptyIff(store: Store, entries: seq<Entry>)
    ensures PutAll(store, entries) == [] <==> store == [] && entries == []
  {
    if entries != [] {
      var last, before := entries[|entries| - 1], entries[..|entries| - 1];
      PutLeavesSomething(PutAll(store, before), last.slot, last.key);
    }
  }

  lemma SkipEmptyIff(s: Session, until: nat)
    requires SkipMissed(s, until).Ok?
    ensures SkipMissed(s, until).value.store == [] <==> s.store == [] && Gap(s, until) == 0
  {
    if s.receivingChain.Some? && until >= s.recvNumber {
      PutAllEmptyIff(s.store, ConsecutiveKeys(RemoteHex(s), s.receivingChain.value, s.recvNumber,
          until - s.recvNumber));
    }
  }

  lemma CurrentEmptyIff(s: Session, header: Header, ciphertext: Ciphertext)
    requires ReceiveCurrent(s, header, ciphertext).result.Ok?
    ensures ReceiveCurrent(s, header, ciphertext).after.store == [] <==>
            s.store == [] && Gap(s, header.messageNumber) == 0
  {
    hide ToBytes;
    SkipEmptyIff(s, header.messageNumber);
  }

  /** From a session without skipped keys, an accepted call ends in one exactly when it jumps over no message. */
  lemma StaysEmptyIff(s: Session, header: Header, ciphertext: Ciphertext, newKey: DhSecret)
    requires s.store == [] && Decrypt(s, header, ciphertext, newKey).result.Ok?
    ensures Decrypt(s, header, ciphertext, newKey).after.store == [] <==> SkipCount(s, header) == 0
  {
    hide ToBytes, HexEncode, PutAll, ConsecutiveKeys;
    if s.dhRemote == Some(header.dhPublic) {
      CurrentEmptyIff(s, header, ciphertext);
    } else {
      var finished := SkipMissed(s, header.previousChainLength).value;
      SkipEmptyIff(s, header.previousChainLength);
      CurrentEmptyIff(DhRatchet(finished, header.dhPublic, newKey), header, ciphertext);
    }
  }

  // ---------------------------------------------------------------- the two ways

  /** What a caller sees: the header as its text, as it goes over the wire. */
  datatype Output =
    | Encrypted(headerText: Bytes, ciphertext: Ciphertext)
    | Decrypted(plaintext: Bytes)
    | Refused(error: ApiError)

  /** A call of a party. A header arrives as any text. */
  datatype Call =
    | Encrypting(party: Party, plaintext: Bytes, nonce: Bytes)
    | Decrypting(party: Party, headerText: Bytes, ciphertext: Ciphertext, newKey: Bytes)

  /** A party's call on its session in memory: the next session and what the caller sees. */
  function MemoryCall(s: Session, e: Call): (Session, Output) {
    match e
    case Encrypting(_, plaintext, nonce) =>
      var (after, result) := Encrypt(s, plaintext, nonce);
      (match result
       case Ok((ciphertext, header)) => (after, Encrypted(ToBytes(header), ciphertext))
       case Err(error) => (s, Refused(Ratchet(error))))
    case Decrypting(_, headerText, ciphertext, newKey) =>
      (match FromBytes(headerText)
       case None => (s, Refused(BadHeader))
       case Some(header) =>
         var outcome := Decrypt(s, header, ciphertext, DhSecret(newKey));
         match outcome.result
         case Ok(plaintext) => (outcome.after, Decrypted(plaintext))
         case Err(error) => (s, Refused(Ratchet(error))))
  }

  function AfterError(json: Json, error: ApiError): Option<(Json, Output)> {
    if error.BadSession? || error.Panic? then None else Some((json, Refused(error)))
  }

  /** The same call on the written session; the caller keeps the old one on an error, and there is no result after a
      panic or an unreadable session. */
  function WrittenCall(json: Json, e: Call): Option<(Json, Output)> {
    match e
    case Encrypting(_, plaintext, nonce) =>
      (match EncryptCall(json, plaintext, nonce)
       case Ok((next, headerText, ciphertext)) => Some((next, Encrypted(headerText, ciphertext)))
       case Err(error) => AfterError(json, error))
    case Decrypting(_, headerText, ciphertext, newKey) =>
      (match DecryptCall(json, headerText, ciphertext, DhSecret(newKey))
       case Ok((next, plaintext)) => Some((next, Decrypted(plaintext)))
       case Err(error) => AfterError(json, error))
  }

  /** The call is not an accepted delivery that jumps over a message. */
  predicate InOrder(s: Session, e: Call) {
    e.Decrypting? && FromBytes(e.headerText).Some? ==>
      var header := FromBytes(e.headerText).value;
      Decrypt(s, header, e.ciphertext, DhSecret(e.newKey)).result.Ok? ==> SkipCount(s, header) == 0
  }

  /** On a session without skipped keys the written call does what the call in memory does, unless it jumps over a
      message, and then it panics. */
  lemma WrittenCallExact(s: Session, e: Call)
    requires s.store == []
    ensures Serialize(s).Some?
    ensures var (after, output) := MemoryCall(s, e);
            && (after.store == [] <==> InOrder(s, e))
            && WrittenCall(Serialize(s).value, e) ==
               if InOrder(s, e) then Some((Serialize(after).value, output)) else None
  {
    PersistenceRoundTrip(s);
    PersistenceRoundTrip(MemoryCall(s, e).0);
    hide Decrypt, Deserialize, HasFields, ToBytes, FromBytes, FIELDS, WriteMap, Serialize;
    match e
    case Encrypting(_, plaintext, nonce) =>
    case Decrypting(_, headerText, ciphertext, newKey) =>
      if FromBytes(headerText).Some? {
        var header := FromBytes(headerText).value;
        if Decrypt(s, header, ciphertext, DhSecret(newKey)).result.Ok? {
          StaysEmptyIff(s, header, ciphertext, DhSecret(newKey));
        }
      }
  }

  // ------------------------------------------------------------------------ runs

  datatype Sessions<T> = Sessions(alice: T, bob: T)

  function Of<T>(both: Sessions<T>, p: Party): T {
    if p.Alice? then both.alice else both.bob
  }

  function With<T>(both: Sessions<T>, p: Party, t: T): Sessions<T> {
    if p.Alice? then both.(alice := t) else both.(bob := t)
  }

  function MemoryRun(both: Sessions<Session>, calls: seq<Call>): (Sessions<Session>, seq<Output>)
    decreases |calls|
  {
    if calls == [] then (both, [])
    else
      var e := calls[0];
      var (after, output) := MemoryCall(Of(both, e.party), e);
      var (final, outputs) := MemoryRun(With(both, e.party, after), calls[1..]);
      (final, [output] + outputs)
  }

  function WrittenRun(both: Sessions<Json>, calls: seq<Call>): Option<(Sessions<Json>, seq<Output>)>
    decreases |calls|
  {
    if calls == [] then Some((both, []))
    else
      var e := calls[0];
      match WrittenCall(Of(both, e.party), e)
      case None => None
      case Some((after, output)) =>
        match WrittenRun(With(both, e.party, after), calls[1..])
        case None => None
        case Some((final, outputs)) => Some((final, [output] + outputs))
  }

  predicate InOrderRun(both: Sessions<Session>, calls: seq<Call>)
    decreases |calls|
  {
    calls == [] ||
    (var e := calls[0];
     InOrder(Of(both, e.party), e) && InOrderRun(With(both, e.party, MemoryCall(Of(both, e.party), e).0), calls[1..]))
  }

  predicate NothingSkipped(both: Sessions<Session>) {
    both.alice.store == [] && both.bob.store == []
  }

  function Written(both: Sessions<Session>): Sessions<Json>
    requires NothingSkipped(both)
  {
    Sessions(Serialize(both.alice).value, Serialize(both.bob).value)
  }

  /** Passing every session through its written form changes no output and no state of a run if and only if the run
      never accepts a message ahead of another; otherwise the run ends in a panic. */
  lemma {:induction false} PersistenceTransparentIffInOrder(both: Sessions<Session>, calls: seq<Call>)
    requires NothingSkipped(both)
    ensures var (final, outputs) := MemoryRun(both, calls);
            if InOrderRun(both, calls)
            then NothingSkipped(final) && WrittenRun(Written(both), calls) == Some((Written(final), outputs))
            else WrittenRun(Written(both), calls) == None
    decreases |calls|
  {
    if calls != [] {
      hide MemoryCall, WrittenCall, InOrder, Serialize;
      var e := calls[0];
      var s := Of(both, e.party);
      WrittenCallExact(s, e);
      var (after, output) := MemoryCall(s, e);
      if InOrder(s, e) {
        SerializableIffNothingSkipped(after);
        PersistenceTransparentIffInOrder(With(both, e.party, after), calls[1..]);
      }
    }
  }

  /** The calls of a run that were answered with a session. */
  function AnsweredCalls(both: Sessions<Json>, calls: seq<Call>): seq<Call>
    decreases |calls|
  {
    if calls == [] then []
    else
      match WrittenCall(Of(both, calls[0].party), calls[0])
      case None => calls
      case Some((after, output)) =>
        (if output.Refused? then [] else [calls[0]])
        + AnsweredCalls(With(both, calls[0].party, after), calls[1..])
  }

  function Answers(outputs: seq<Output>): seq<Output> {
    if outputs == [] then [] else (if outputs[0].Refused? then [] else [outputs[0]]) + Answers(outputs[1..])
  }

  lemma RefusedKeepsSession(json: Json, e: Call)
    ensures var call := WrittenCall(json, e); call.Some? && call.value.1.Refused? ==> call.value.0 == json
  {
    hide EncryptCall, DecryptCall;
  }

  lemma RunOneCall(both: Sessions<Json>, e: Call, rest: seq<Call>)
    ensures var call, run := WrittenCall(Of(both, e.party), e), WrittenRun(both, [e] + rest);
            if call.None? then run.None?
            else
              var later := WrittenRun(With(both, e.party, call.value.0), rest);
              if later.None? then run.None? else run == Some((later.value.0, [call.value.1] + later.value.1))
  {
    assert ([e] + rest)[1..] == rest;
  }

  lemma AnswersCons(output: Output, rest: seq<Output>)
    ensures Answers([output] + rest) == if output.Refused? then Answers(rest) else [output] + Answers(rest)
  {
    assert ([output] + rest)[1..] == rest;
  }

  /** Calls on written sessions that are refused leave no trace: as the call returns no session and the caller keeps the
      one it has, leaving them out gives the same sessions and the same answers to all the others, or the same panic. */
  lemma {:induction false} RefusedCallsLeaveNoTrace(both: Sessions<Json>, calls: seq<Call>)
    ensures var run, answered := WrittenRun(both, calls), WrittenRun(both, AnsweredCalls(both, calls));
            if run.None? then answered.None? else answered == Some((run.value.0, Answers(run.value.1)))
    decreases |calls|
  {
    if calls != [] {
      var e := calls[0];
      var call := WrittenCall(Of(both, e.party), e);
      RefusedKeepsSession(Of(both, e.party), e);
      hide WrittenCall;
      assert calls == [e] + calls[1..];
      RunOneCall(both, e, calls[1..]);
      if call.Some? {
        var next := With(both, e.party, call.value.0);
        var rest := AnsweredCalls(next, calls[1..]);
        RefusedCallsLeaveNoTrace(next, calls[1..]);
        if call.value.1.Refused? {
          assert next == both && AnsweredCalls(both, calls) == rest;
        } else {
          assert AnsweredCalls(both, calls) == [e] + rest;
          RunOneCall(both, e, rest);
        }
        if WrittenRun(next, calls[1..]).Some? {
          AnswersCons(call.value.1, WrittenRun(next, calls[1..]).value.1);
        }
      }
    }
  }

  /** The call an event of the two-party system is, with the header as it is sent. */
  function CallOf(e: Event): Call {
    match e
    case Send(p, plaintext, nonce) => Encrypting(p, plaintext, nonce)
    case Deliver(p, header, ciphertext, newKey) => Decrypting(p, ToBytes(header), ciphertext, newKey)
  }

  /** A text that is no header is refused and moves nothing; and every text that is one is an event of the two-party
      system. So its theorems cover deliveries of arbitrary texts. */
  lemma TextsAreCovered(s: Session, p: Party, headerText: Bytes, ciphertext: Ciphertext, newKey: Bytes)
    ensures var call := Decrypting(p, headerText, ciphertext, newKey);
            if exists h :: headerText == ToBytes(h)
            then exists h :: call == CallOf(Deliver(p, h, ciphertext, newKey))
            else MemoryCall(s, call) == (s, Refused(BadHeader))
  {
    hide ToBytes, FromBytes, Decrypt;
    if FromBytes(headerText).Some? {
      HeaderExact(headerText, FromBytes(headerText).value);
      assert Decrypting(p, headerText, ciphertext, newKey) ==
          CallOf(Deliver(p, FromBytes(headerText).value, ciphertext, newKey));
    } else {
      forall h ensures headerText != ToBytes(h) {
        HeaderExact(headerText, h);
      }
    }
  }

  /** The sessions of the two-party system move as these calls do. */
  lemma StepMovesSessions(sys: System, e: Event)
    requires Shaped(sys.log)
    ensures var next := Step(sys, e);
            Sessions(next.alice, next.bob) ==
            With(Sessions(sys.alice, sys.bob), e.party, MemoryCall(SessionOf(sys, e.party), CallOf(e)).0)
  {
    hide Decrypt, Encrypt, ToBytes, FromBytes;
    if e.Deliver? {
      HeaderRoundTrip(e.header);
    }
  }

  /** In terms of the conversation: with nothing skipped so far, a message the receiver is ready for keeps it that way
      exactly when it is the very next one, on the current chain or at the start of the peer's next chain once the
      current one is complete. */
  lemma InOrderIsTheNextMessage(sys: System, p: Party, j: nat, n: nat)
    requires Inv(sys) && IsSent(sys.log, j, n) && j % 2 != Parity(p) && ReadyFor(sys, p, j, n)
    requires SessionOf(sys, p).store == []
    ensures var s, g := SessionOf(sys, p), Turn(sys.log, p);
            SkipCount(s, sys.log.chains[j][n].header) == 0 <==>
            || (j + 1 == g && n == s.recvNumber)
            || (j == g + 1 && n == 0 && s.recvNumber == PreviousLength(sys.log, j))
  {
    assert Shaped(sys.log) && sys.log.chains[0] == [];
    hide Inv, PartyOk, LogOk, StoreOk, ReceiptsOk, InStep, ReadyFor, HexEncode, SkipCount;
    PartyFacts(sys, p);
    HeaderOf(sys.log, j, n);
    ReadyWhere(sys, p, j, n);
    InOrderCount(sys.log, Turn(sys.log, p), SessionOf(sys, p), sys.log.chains[j][n].header, j, n);
  }

  lemma InOrderCount(log: Log, g: nat, s: Session, header: Header, j: nat, n: nat)
    requires Shaped(log) && log.chains[0] == [] && g < |log.keys| && InStep(log, g, s) && s.store == []
    requires j < |log.keys|
    requires header == Header(log.keys[j], PreviousLength(log, j), n)
    requires s.dhRemote == Some(header.dhPublic) ==> g >= 2 && j == g - 1 && s.recvNumber <= n
    requires s.dhRemote != Some(header.dhPublic) ==> j == g + 1
    ensures SkipCount(s, header) == 0 <==>
            || (j + 1 == g && n == s.recvNumber)
            || (j == g + 1 && n == 0 && s.recvNumber == PreviousLength(log, j))
  {
    hide HexEncode, RootAt, SeedAt, Advance;
  }
}
