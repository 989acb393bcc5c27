/** `RatchetState::serialize` and `deserialize`, at the level of JSON values. */
module SessionJson {
  import opened Wrappers
  import opened ByteText
  import opened SymbolicCrypto
  import opened SkippedKeys
  import opened RatchetSession

  /** A byte vector: plain bytes, or the bytes of a symbolic key. */
  datatype Vector =
    | Plain(bytes: Bytes)
    | OfRoot(root: RootKey)
    | OfChain(chain: ChainKey)
    | OfMessage(key: MessageKey)
    | OfSecret(secret: DhSecret)

  datatype Json =
    | JNull
    | JNumber(n: nat)
    | JText(text: Bytes)
    | JVector(vector: Vector)
    | JArray(items: seq<Json>)
    | JObject(members: seq<(Bytes, Json)>)

  // ------------------------------------------------------------------------- maps

  /** What can name a member of an object: a string, or a number written as one. */
  function MemberName(key: Json): Option<Bytes> {
    match key
    case JText(text) => Some(text)
    case JNumber(n) => Some(Decimal(n))
    case _ => None
  }

  /** Any map becomes an object, if every key can name a member (section 4 of RFC 8259: names are strings). */
  function WriteMap(entries: seq<(Json, Json)>): Option<Json> {
    if entries == [] then Some(JObject([]))
    else
      match (MemberName(entries[0].0), WriteMap(entries[1..]))
      case (Some(name), Some(JObject(members))) => Some(JObject([(name, entries[0].1)] + members))
      case _ => None
  }

  lemma {:induction false} WriteMapIff(entries: seq<(Json, Json)>)
    ensures WriteMap(entries).Some? <==> forall i :: 0 <= i < |entries| ==> MemberName(entries[i].0).Some?
    ensures WriteMap(entries).Some? ==> WriteMap(entries).value.JObject?
  {
    if entries != [] {
      WriteMapIff(entries[1..]);
      assert forall i :: 0 < i < |entries| ==> entries[i] == entries[1..][i - 1];
    }
  }

  // ---------------------------------------------------------------------- sessions

  function JOption(o: Option<Vector>): Json {
    if o.Some? then JVector(o.value) else JNull
  }

  function ChainVector(o: Option<ChainKey>): Option<Vector> {
    if o.Some? then Some(OfChain(o.value)) else None
  }

  function PlainVector(o: Option<Bytes>): Option<Vector> {
    if o.Some? then Some(Plain(o.value)) else None
  }

  /** A slot is a tuple, so it is written as an array. */
  function SlotJson(slot: Slot): Json {
    JArray([JText(slot.dhHex), JNumber(slot.number)])
  }

  function OrderJson(store: Store): seq<Json> {
    seq(|store|, i requires 0 <= i < |store| => SlotJson(store[i].slot))
  }

  function KeyEntries(store: Store): (entries: seq<(Json, Json)>)
    ensures |entries| == |store|
  {
    seq(|store|, i requires 0 <= i < |store| => (SlotJson(store[i].slot), JVector(OfMessage(store[i].key))))
  }

  /** `None` is the panic of the `expect`. */
  function Serialize(s: Session): Option<Json> {
    match WriteMap(KeyEntries(s.store))
    case None => None
    case Some(keys) =>
      Some(JObject([
        (FIELDS[0], JVector(OfRoot(s.root))),
        (FIELDS[1], JOption(ChainVector(s.sendingChain))),
        (FIELDS[2], JOption(ChainVector(s.receivingChain))),
        (FIELDS[3], JVector(OfSecret(s.dhSecret))),
        (FIELDS[4], JVector(Plain(s.dhPublic))),
        (FIELDS[5], JOption(PlainVector(s.dhRemote))),
        (FIELDS[6], JNumber(s.sendNumber)),
        (FIELDS[7], JNumber(s.recvNumber)),
        (FIELDS[8], JNumber(s.previousLength)),
        (FIELDS[9], JObject([(Ascii("keys"), keys), (Ascii("insertion_order"), JArray(OrderJson(s.store)))]))]))
  }

  const FIELDS: seq<Bytes> := [
    Ascii("root_key"), Ascii("sending_chain_key"), Ascii("receiving_chain_key"), Ascii("dh_send_secret"),
    Ascii("dh_send_public"), Ascii("dh_receive_public"), Ascii("send_message_number"), Ascii("recv_message_number"),
    Ascii("previous_sending_chain_length"), Ascii("skipped_keys")]

  /** The members are the session's fields, in the order they are written. */
  predicate HasFields(json: Json) {
    && json.JObject?
    && |json.members| == |FIELDS|
    && forall i :: 0 <= i < |FIELDS| ==> json.members[i].0 == FIELDS[i]
  }

  function ReadChain(json: Json): Option<Option<ChainKey>> {
    if json.JNull? then Some(None)
    else if json.JVector? && json.vector.OfChain? then Some(Some(json.vector.chain))
    else None
  }

  function ReadPlain(json: Json): Option<Option<Bytes>> {
    if json.JNull? then Some(None)
    else if json.JVector? && json.vector.Plain? then Some(Some(json.vector.bytes))
    else None
  }

  /** A string is no tuple, so only the object without members is a map of skipped keys. */
  predicate ReadsAsNoKeys(json: Json) {
    json == JObject([(Ascii("keys"), JObject([])), (Ascii("insertion_order"), JArray([]))])
  }

  function Deserialize(json: Json): Option<Session> {
    if !HasFields(json) then None
    else
      var root, secret, public := json.members[0].1, json.members[3].1, ReadPlain(json.members[4].1);
      var sending, receiving := ReadChain(json.members[1].1), ReadChain(json.members[2].1);
      var remote := ReadPlain(json.members[5].1);
      var sent, received, previous := json.members[6].1, json.members[7].1, json.members[8].1;
      if && root.JVector? && root.vector.OfRoot? && secret.JVector? && secret.vector.OfSecret?
         && sending.Some? && receiving.Some? && public.Some? && public.value.Some? && remote.Some?
         && sent.JNumber? && received.JNumber? && previous.JNumber?
         && ReadsAsNoKeys(json.members[9].1)
      then Some(Session(root.vector.root, sending.value, receiving.value, secret.vector.secret, public.value.value,
                        remote.value, sent.n, received.n, previous.n, []))
      else None
  }

  /** A session can be written if and only if it holds no skipped key: the key of the map is a tuple, and no tuple can
      name a member. */
  lemma SerializableIffNothingSkipped(s: Session)
    ensures Serialize(s).Some? <==> s.store == []
  {
    WriteMapIff(KeyEntries(s.store));
    if s.store != [] {
      assert MemberName(KeyEntries(s.store)[0].0).None?;
    }
  }

  /** Exactly the sessions without skipped keys can be written, and reading back what was written gives the session. */
  lemma PersistenceRoundTrip(s: Session)
    ensures if s.store == [] then Serialize(s).Some? && Deserialize(Serialize(s).value) == Some(s)
        else Serialize(s).None?
  {
    SerializableIffNothingSkipped(s);
    if s.store == [] {
      assert OrderJson(s.store) == [];
      assert HasFields(Serialize(s).value);
    }
  }

  /** The document: the ten fields by name, in this order; what is absent is null. */
  lemma SessionText(s: Session)
    requires s.store == []
    ensures Serialize(s) == Some(JObject([
              (Ascii("root_key"), JVector(OfRoot(s.root))),
              (Ascii("sending_chain_key"), if s.sendingChain.Some? then JVector(OfChain(s.sendingChain.value))
                  else JNull),
              (Ascii("receiving_chain_key"),
               if s.receivingChain.Some? then JVector(OfChain(s.receivingChain.value)) else JNull),
              (Ascii("dh_send_secret"), JVector(OfSecret(s.dhSecret))),
              (Ascii("dh_send_public"), JVector(Plain(s.dhPublic))),
              (Ascii("dh_receive_public"), if s.dhRemote.Some? then JVector(Plain(s.dhRemote.value)) else JNull),
              (Ascii("send_message_number"), JNumber(s.sendNumber)),
              (Ascii("recv_message_number"), JNumber(s.recvNumber)),
              (Ascii("previous_sending_chain_length"), JNumber(s.previousLength)),
              (Ascii("skipped_keys"),
               JObject([(Ascii("keys"), JObject([])), (Ascii("insertion_order"), JArray([]))]))]))
  {
    assert OrderJson(s.store) == [];
  }

  /** Exactly what is written for a session reads as that session. */
  lemma SessionExact(json: Json, s: Session)
    ensures Deserialize(json) == Some(s) <==> Serialize(s) == Some(json)
  {
    PersistenceRoundTrip(s);
    if Deserialize(json) == Some(s) {
      SessionText(s);
      var members := Serialize(s).value.members;
      assert |members| == |json.members|;
      forall i | 0 <= i < |members| ensures members[i] == json.members[i] {
        assert json.members[i].0 == FIELDS[i];
      }
      assert members == json.members;
    }
  }
}
