/** `ratchet/header.rs`: the header sent beside every ratchet message. */
module MessageHeader {
  import opened Wrappers
  import opened ByteText

  datatype Header = Header(dhPublic: Bytes, previousChainLength: nat, messageNumber: nat)

  const DH_FIELD := Ascii("{\"dh_public\":")
  const LENGTH_FIELD := Ascii(",\"previous_chain_length\":")
  const NUMBER_FIELD := Ascii(",\"message_number\":")
  const END := Ascii("}")

  /** The JSON text used as the associated data of the message. */
  function ToBytes(h: Header): Bytes {
    DH_FIELD + JsonBytes(h.dhPublic)
    + LENGTH_FIELD + Decimal(h.previousChainLength)
    + NUMBER_FIELD + Decimal(h.messageNumber)
    + END
  }

  function ReadTail(dhPublic: Bytes, text: Bytes): Option<Header> {
    match Expect(LENGTH_FIELD, text)
    case None => None
    case Some(t1) =>
      match ReadNat(t1)
      case None => None
      case Some((length, t2)) =>
        match Expect(NUMBER_FIELD, t2)
        case None => None
        case Some(t3) =>
          match ReadNat(t3)
          case None => None
          case Some((number, t4)) =>
            if t4 == END then Some(Header(dhPublic, length, number)) else None
  }

  function FromBytes(text: Bytes): Option<Header> {
    match Expect(DH_FIELD, text)
    case None => None
    case Some(t1) =>
      match ReadBytes(t1)
      case None => None
      case Some((dhPublic, t2)) => ReadTail(dhPublic, t2)
  }

  lemma TailRoundTrip(h: Header)
    ensures ReadTail(h.dhPublic,
                     LENGTH_FIELD + (Decimal(h.previousChainLength)
                                     + (NUMBER_FIELD + (Decimal(h.messageNumber) + END)))) == Some(h)
  {
    var t3 := Decimal(h.messageNumber) + END;
    var t2 := NUMBER_FIELD + t3;
    var t1 := Decimal(h.previousChainLength) + t2;
    ExpectPrefix(LENGTH_FIELD, t1);
    assert t2[0] == COMMA;
    NatRoundTrip(h.previousChainLength, t2);
    ExpectPrefix(NUMBER_FIELD, t3);
    assert END[0] == 125;
    NatRoundTrip(h.messageNumber, END);
  }

  lemma HeaderRoundTrip(h: Header)
    ensures FromBytes(ToBytes(h)) == Some(h)
  {
    hide JsonBytes, Decimal, ReadBytes, Expect, ReadTail, Ascii;
    var t2 := LENGTH_FIELD + (Decimal(h.previousChainLength)
                              + (NUMBER_FIELD + (Decimal(h.messageNumber) + END)));
    var t1 := JsonBytes(h.dhPublic) + t2;
    assert ToBytes(h) == DH_FIELD + t1;
    ExpectPrefix(DH_FIELD, t1);
    BytesRoundTrip(h.dhPublic, t2);
    TailRoundTrip(h);
  }

  /** Equal associated data means equal headers, so the tag authenticates every header field. */
  lemma HeaderBytesInjective(a: Header, b: Header)
    requires ToBytes(a) == ToBytes(b)
    ensures a == b
  {
    HeaderRoundTrip(a);
    HeaderRoundTrip(b);
  }

  lemma TailExact(h: Header, text: Bytes)
    requires ReadTail(h.dhPublic, text) == Some(h)
    ensures text == LENGTH_FIELD + (Decimal(h.previousChainLength) + (NUMBER_FIELD + (Decimal(h.messageNumber) + END)))
  {
    hide Decimal, ReadNat, ReadDigits;
    var t1 := Expect(LENGTH_FIELD, text).value;
    var (length, t2) := ReadNat(t1).value;
    NatExact(t1, length, t2);
    var t3 := Expect(NUMBER_FIELD, t2).value;
    var (number, t4) := ReadNat(t3).value;
    NatExact(t3, number, t4);
  }

  /** Exactly the text of a header reads as that header. */
  lemma HeaderExact(text: Bytes, h: Header)
    ensures FromBytes(text) == Some(h) <==> text == ToBytes(h)
  {
    hide JsonBytes, Decimal, ReadBytes, ReadTail;
    HeaderRoundTrip(h);
    if FromBytes(text) == Some(h) {
      var t1 := Expect(DH_FIELD, text).value;
      var (dhPublic, t2) := ReadBytes(t1).value;
      BytesExact(t1, dhPublic, t2);
      ReadTailKeepsKey(dhPublic, t2);
      TailExact(h, t2);
    }
  }

  lemma ReadTailKeepsKey(dhPublic: Bytes, text: Bytes)
    ensures ReadTail(dhPublic, text).Some? ==> ReadTail(dhPublic, text).value.dhPublic == dhPublic
  {
    hide ReadNat;
  }

  /** The text itself: the three fields by name, in this order, without spaces. */
  lemma HeaderText(h: Header)
    ensures ToBytes(h) ==
            Ascii("{\"dh_public\":") + JsonBytes(h.dhPublic)
            + Ascii(",\"previous_chain_length\":") + Decimal(h.previousChainLength)
            + Ascii(",\"message_number\":") + Decimal(h.messageNumber) + Ascii("}")
  {
    hide JsonBytes, Decimal;
  }
}
