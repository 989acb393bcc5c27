/** Bytes, and the compact text that serde_json writes for them.

    A Rust `String` is modelled as its UTF-8 bytes, so every text here is a `Bytes`. The readers accept
    exactly the compact form the writers produce and hand back what follows it. */
module ByteText {
  import opened Wrappers

  type byte = n: int | 0 <= n < 256

  type Bytes = seq<byte>

  const QUOTE: byte := 34
  const COMMA: byte := 44
  const OPEN_BRACKET: byte := 91
  const BACKSLASH: byte := 92
  const CLOSE_BRACKET: byte := 93

  /** The bytes of a fixed piece of text. */
  function Ascii(text: string): (bytes: Bytes)
    ensures |bytes| == |text|
    ensures forall i :: 0 <= i < |text| && text[i] as int < 256 ==> bytes[i] == text[i] as int
  {
    seq(|text|, i requires 0 <= i < |text| => text[i] as int % 256)
  }

  /** Drop a fixed prefix, or fail. */
  function Expect(prefix: Bytes, text: Bytes): (rest: Option<Bytes>)
    ensures rest.Some? <==> exists tail :: text == prefix + tail
    ensures rest.Some? ==> text == prefix + rest.value
  {
    if prefix <= text then
      assert text == prefix + text[|prefix|..];
      Some(text[|prefix|..])
    else
      None
  }

  lemma ExpectPrefix(prefix: Bytes, rest: Bytes)
    ensures Expect(prefix, prefix + rest) == Some(rest)
  {
    assert (prefix + rest)[|prefix|..] == rest;
  }

  lemma Regroup(a: Bytes, b: Bytes, c: Bytes, d: Bytes)
    ensures a + (b + c + d) == (a + b) + c + d
    ensures b + (c + d) == b + c + d
  {
  }

  // ---------------------------------------------------------------- numbers

  predicate IsDigit(b: byte) {
    48 <= b <= 57
  }

  predicate StartsWithDigit(text: Bytes) {
    text != [] && IsDigit(text[0])
  }

  function Decimal(n: nat): (text: Bytes)
    ensures StartsWithDigit(text)
    ensures n < 10 ==> |text| == 1
    ensures n < 100 ==> |text| <= 2
    ensures n < 256 ==> |text| <= 3
  {
    if n < 10 then [48 + n] else Decimal(n / 10) + [48 + n % 10]
  }

  function ReadDigits(text: Bytes, acc: nat): (nat, Bytes)
  {
    if StartsWithDigit(text) then
      ReadDigits(text[1..], 10 * acc + (text[0] - 48))
    else
      (acc, text)
  }

  /** A number without superfluous zeros. */
  function ReadNat(text: Bytes): Option<(nat, Bytes)>
  {
    var (n, rest) := ReadDigits(text, 0);
    if text == Decimal(n) + rest then Some((n, rest)) else None
  }

  lemma {:induction false} DigitsAccumulate(n: nat, rest: Bytes)
    ensures ReadDigits(Decimal(n) + rest, 0) == ReadDigits(rest, n)
  {
    if n < 10 {
      assert (Decimal(n) + rest)[1..] == rest;
    } else {
      var last: byte := 48 + n % 10;
      assert Decimal(n) + rest == Decimal(n / 10) + ([last] + rest);
      DigitsAccumulate(n / 10, [last] + rest);
      assert ([last] + rest)[1..] == rest;
    }
  }

  /** A written number followed by anything but a digit reads back as itself. */
  lemma NatRoundTrip(n: nat, rest: Bytes)
    requires !StartsWithDigit(rest)
    ensures ReadNat(Decimal(n) + rest) == Some((n, rest))
  {
    DigitsAccumulate(n, rest);
  }

  lemma {:induction false} DigitsStop(text: Bytes, acc: nat)
    ensures !StartsWithDigit(ReadDigits(text, acc).1)
    ensures |ReadDigits(text, acc).1| <= |text|
  {
    if StartsWithDigit(text) {
      DigitsStop(text[1..], 10 * acc + (text[0] - 48));
    }
  }

  /** Nothing else reads as that number. */
  lemma NatExact(text: Bytes, n: nat, rest: Bytes)
    ensures ReadNat(text) == Some((n, rest)) <==> text == Decimal(n) + rest && !StartsWithDigit(rest)
  {
    DigitsStop(text, 0);
    if text == Decimal(n) + rest && !StartsWithDigit(rest) {
      NatRoundTrip(n, rest);
    }
  }

  // ------------------------------------------------------------ byte arrays

  /** `1,2,3` */
  function Elements(bytes: Bytes): (text: Bytes)
    ensures bytes != [] ==> 2 * |bytes| - 1 <= |text| <= 4 * |bytes| - 1
    ensures bytes != [] ==> StartsWithDigit(text)
    ensures bytes == [] ==> text == []
  {
    if bytes == [] then []
    else if |bytes| == 1 then Decimal(bytes[0])
    else Decimal(bytes[0]) + [COMMA] + Elements(bytes[1..])
  }

  /** `[1,2,3]`: the way a `Vec<u8>` is written. */
  function JsonBytes(bytes: Bytes): (text: Bytes)
    ensures 2 * |bytes| + 1 <= |text| <= 4 * |bytes| + 2
  {
    [OPEN_BRACKET] + Elements(bytes) + [CLOSE_BRACKET]
  }

  function ReadElements(text: Bytes): Option<(Bytes, Bytes)>
    decreases |text|
  {
    match ReadNat(text)
    case None => None
    case Some((n, rest)) =>
      if n >= 256 || rest == [] || |rest| >= |text| then None
      else
        var b: byte := n;
        if rest[0] == CLOSE_BRACKET then Some(([b], rest[1..]))
        else if rest[0] != COMMA then None
        else
          match ReadElements(rest[1..])
          case None => None
          case Some((tail, after)) => Some(([b] + tail, after))
  }

  function ReadBytes(text: Bytes): Option<(Bytes, Bytes)>
  {
    if text == [] || text[0] != OPEN_BRACKET then None
    else if |text| >= 2 && text[1] == CLOSE_BRACKET then Some(([], text[2..]))
    else ReadElements(text[1..])
  }

  /** One element and its terminator. */
  lemma ElementThenEnd(b: byte, rest: Bytes)
    ensures ReadElements(Decimal(b) + ([CLOSE_BRACKET] + rest)) == Some(([b], rest))
  {
    var after := [CLOSE_BRACKET] + rest;
    NatRoundTrip(b, after);
    assert after[1..] == rest;
    var text := Decimal(b) + after;
    assert ReadNat(text) == Some((b as nat, after));
  }

  lemma ElementThenMore(b: byte, tail: Bytes, bytes: Bytes, rest: Bytes)
    requires ReadElements(tail) == Some((bytes, rest))
    ensures ReadElements(Decimal(b) + ([COMMA] + tail)) == Some(([b] + bytes, rest))
  {
    var after := [COMMA] + tail;
    NatRoundTrip(b, after);
    assert after[1..] == tail;
    var text := Decimal(b) + after;
    assert ReadNat(text) == Some((b as nat, after));
  }

  lemma {:induction false} ElementsRoundTrip(bytes: Bytes, rest: Bytes)
    requires bytes != []
    ensures ReadElements(Elements(bytes) + [CLOSE_BRACKET] + rest) == Some((bytes, rest))
    decreases |bytes|
  {
    hide ReadElements, Decimal;
    var text := Elements(bytes) + [CLOSE_BRACKET] + rest;
    var first := Decimal(bytes[0]);
    if |bytes| == 1 {
      assert text == first + ([CLOSE_BRACKET] + rest);
      ElementThenEnd(bytes[0], rest);
      assert bytes == [bytes[0]];
    } else {
      var tail := Elements(bytes[1..]) + [CLOSE_BRACKET] + rest;
      assert text == first + ([COMMA] + tail);
      ElementsRoundTrip(bytes[1..], rest);
      ElementThenMore(bytes[0], tail, bytes[1..], rest);
      assert bytes == [bytes[0]] + bytes[1..];
    }
  }

  /** A written byte array reads back as itself, whatever follows. */
  lemma BytesRoundTrip(bytes: Bytes, rest: Bytes)
    ensures ReadBytes(JsonBytes(bytes) + rest) == Some((bytes, rest))
  {
    var text := JsonBytes(bytes) + rest;
    if bytes == [] {
      assert text == [OPEN_BRACKET, CLOSE_BRACKET] + rest;
      assert text[2..] == rest;
    } else {
      assert text[1..] == Elements(bytes) + [CLOSE_BRACKET] + rest;
      ElementsRoundTrip(bytes, rest);
    }
  }

  lemma ElementsCons(b: byte, bytes: Bytes)
    ensures Elements([b]) == Decimal(b)
    ensures bytes != [] ==> Elements([b] + bytes) == Decimal(b) + [COMMA] + Elements(bytes)
  {
    hide Decimal;
    assert ([b] + bytes)[1..] == bytes;
  }

  lemma ReadElementsStep(text: Bytes, bytes: Bytes, rest: Bytes) returns (b: byte, after: Bytes)
    requires ReadElements(text) == Some((bytes, rest))
    ensures text == Decimal(b) + after && after != [] && |after| < |text|
    ensures if after[0] == CLOSE_BRACKET then bytes == [b] && after == [CLOSE_BRACKET] + rest
            else
              && after[0] == COMMA && |bytes| > 0 && bytes == [b] + bytes[1..]
              && ReadElements(after[1..]) == Some((bytes[1..], rest))
  {
    hide Decimal, ReadNat;
    var n: nat;
    n, after := ReadNat(text).value.0, ReadNat(text).value.1;
    NatExact(text, n, after);
    b := n;
    if after[0] == COMMA {
      var tail := ReadElements(after[1..]).value.0;
      assert bytes == [b] + tail && bytes[1..] == tail;
    }
  }

  lemma ElementsMore(b: byte, tail: Bytes, bytes: Bytes, rest: Bytes)
    requires bytes != [] && tail == Elements(bytes) + [CLOSE_BRACKET] + rest
    ensures Decimal(b) + ([COMMA] + tail) == Elements([b] + bytes) + [CLOSE_BRACKET] + rest
  {
    hide Decimal, Elements;
    ElementsCons(b, bytes);
    Regroup(Decimal(b) + [COMMA], Elements(bytes), [CLOSE_BRACKET], rest);
    assert Decimal(b) + ([COMMA] + tail) == (Decimal(b) + [COMMA]) + tail;
  }

  lemma {:induction false} ElementsRead(text: Bytes, bytes: Bytes, rest: Bytes)
    requires ReadElements(text) == Some((bytes, rest))
    ensures bytes != [] && text == Elements(bytes) + [CLOSE_BRACKET] + rest
    decreases |text|
  {
    var b, after := ReadElementsStep(text, bytes, rest);
    hide Decimal, ReadElements, Elements;
    if after[0] == CLOSE_BRACKET {
      ElementsCons(b, []);
      Regroup([], Decimal(b), [CLOSE_BRACKET], rest);
    } else {
      ElementsRead(after[1..], bytes[1..], rest);
      ElementsMore(b, after[1..], bytes[1..], rest);
      assert after == [COMMA] + after[1..];
    }
  }

  /** Exactly the written form of a byte array reads as that array. */
  lemma BytesExact(text: Bytes, bytes: Bytes, rest: Bytes)
    ensures ReadBytes(text) == Some((bytes, rest)) <==> text == JsonBytes(bytes) + rest
  {
    if ReadBytes(text) == Some((bytes, rest)) {
      if |text| >= 2 && text[1] == CLOSE_BRACKET {
        assert text == [OPEN_BRACKET, CLOSE_BRACKET] + text[2..];
      } else {
        ElementsRead(text[1..], bytes, rest);
        assert text == [OPEN_BRACKET] + text[1..];
      }
    }
    if text == JsonBytes(bytes) + rest {
      BytesRoundTrip(bytes, rest);
    }
  }

  // -------------------------------------------------------------------- hex

  function HexDigit(v: nat): byte
    requires v < 16
  {
    if v < 10 then 48 + v else 87 + v
  }

  function HexValue(b: byte): (v: nat)
    ensures v < 16
  {
    if 48 <= b <= 57 then b - 48 else if 97 <= b <= 102 then b - 87 else 0
  }

  function HexDecode(text: Bytes): Bytes
  {
    if |text| < 2 then [] else [16 * HexValue(text[0]) + HexValue(text[1])] + HexDecode(text[2..])
  }

  /** Lower-case hex, two digits a byte. It can be decoded, so distinct inputs have distinct texts. */
  function HexEncode(bytes: Bytes): (text: Bytes)
    ensures |text| == 2 * |bytes|
    ensures HexDecode(text) == bytes
  {
    if bytes == [] then []
    else
      var text := [HexDigit(bytes[0] / 16), HexDigit(bytes[0] % 16)] + HexEncode(bytes[1..]);
      assert text[2..] == HexEncode(bytes[1..]);
      text
  }

  // ---------------------------------------------------------------- strings

  function EscapeByte(b: byte): (text: Bytes)
    ensures 1 <= |text| <= 6
  {
    if b == QUOTE || b == BACKSLASH then [BACKSLASH, b]
    else if b == 8 then [BACKSLASH, 98]
    else if b == 9 then [BACKSLASH, 116]
    else if b == 10 then [BACKSLASH, 110]
    else if b == 12 then [BACKSLASH, 102]
    else if b == 13 then [BACKSLASH, 114]
    else if b < 32 then [BACKSLASH, 117, 48, 48, HexDigit(b / 16), HexDigit(b % 16)]
    else [b]
  }

  function Escaped(s: Bytes): (text: Bytes)
    ensures |s| <= |text| <= 6 * |s|
  {
    if s == [] then [] else EscapeByte(s[0]) + Escaped(s[1..])
  }

  function JsonString(s: Bytes): (text: Bytes)
    ensures |text| == |Escaped(s)| + 2
  {
    [QUOTE] + Escaped(s) + [QUOTE]
  }

  /** What the start of a string body decodes to. */
  function DecodeUnit(text: Bytes): (unit: Option<(byte, Bytes)>)
    ensures unit.Some? ==> |unit.value.1| < |text|
  {
    if text == [] || text[0] == QUOTE then None
    else if text[0] != BACKSLASH then Some((text[0], text[1..]))
    else if |text| < 2 then None
    else if text[1] == QUOTE || text[1] == BACKSLASH then Some((text[1], text[2..]))
    else if text[1] == 98 then Some((8, text[2..]))
    else if text[1] == 116 then Some((9, text[2..]))
    else if text[1] == 110 then Some((10, text[2..]))
    else if text[1] == 102 then Some((12, text[2..]))
    else if text[1] == 114 then Some((13, text[2..]))
    else if |text| < 6 || text[1] != 117 || text[2] != 48 || text[3] != 48 then None
    else Some((16 * HexValue(text[4]) + HexValue(text[5]), text[6..]))
  }

  /** One character of a string body, escaped the way it is written. */
  function ReadUnit(text: Bytes): (unit: Option<(byte, Bytes)>)
    ensures unit.Some? ==> |unit.value.1| < |text|
    ensures unit.Some? ==> text == EscapeByte(unit.value.0) + unit.value.1
  {
    match DecodeUnit(text)
    case None => None
    case Some((b, rest)) => if text == EscapeByte(b) + rest then Some((b, rest)) else None
  }

  function ReadStringBody(text: Bytes): Option<(Bytes, Bytes)>
    decreases |text|
  {
    if text != [] && text[0] == QUOTE then Some(([], text[1..]))
    else
      match ReadUnit(text)
      case None => None
      case Some((b, rest)) =>
        match ReadStringBody(rest)
        case None => None
        case Some((tail, after)) => Some(([b] + tail, after))
  }

  function ReadString(text: Bytes): Option<(Bytes, Bytes)>
  {
    if text == [] || text[0] != QUOTE then None else ReadStringBody(text[1..])
  }

  lemma UnitRoundTrip(b: byte, rest: Bytes)
    ensures ReadUnit(EscapeByte(b) + rest) == Some((b, rest))
    ensures (EscapeByte(b) + rest)[0] != QUOTE
  {
    var text := EscapeByte(b) + rest;
    assert text[|EscapeByte(b)|..] == rest;
  }

  lemma UnitThenMore(text: Bytes, b: byte, tail: Bytes, s: Bytes, rest: Bytes)
    requires text != [] && text[0] != QUOTE && ReadUnit(text) == Some((b, tail))
    requires ReadStringBody(tail) == Some((s, rest))
    ensures ReadStringBody(text) == Some(([b] + s, rest))
  {
  }

  lemma {:induction false} StringBodyRoundTrip(s: Bytes, rest: Bytes)
    ensures ReadStringBody(Escaped(s) + [QUOTE] + rest) == Some((s, rest))
    decreases |s|
  {
    var text := Escaped(s) + [QUOTE] + rest;
    if s == [] {
      assert text == [QUOTE] + rest;
      assert text[1..] == rest;
    } else {
      hide EscapeByte, ReadUnit, ReadStringBody;
      var tail := Escaped(s[1..]) + [QUOTE] + rest;
      Regroup(EscapeByte(s[0]), Escaped(s[1..]), [QUOTE], rest);
      UnitRoundTrip(s[0], tail);
      StringBodyRoundTrip(s[1..], rest);
      UnitThenMore(text, s[0], tail, s[1..], rest);
      assert s == [s[0]] + s[1..];
    }
  }

  /** A written string, with every quote, backslash and control byte escaped, reads back as itself. */
  lemma StringRoundTrip(s: Bytes, rest: Bytes)
    ensures ReadString(JsonString(s) + rest) == Some((s, rest))
  {
    var text := JsonString(s) + rest;
    assert text[1..] == Escaped(s) + [QUOTE] + rest;
    StringBodyRoundTrip(s, rest);
  }

  lemma {:induction false} StringBodyRead(text: Bytes, s: Bytes, rest: Bytes)
    requires ReadStringBody(text) == Some((s, rest))
    ensures text == Escaped(s) + [QUOTE] + rest
    decreases |text|
  {
    if text != [] && text[0] == QUOTE {
      assert text == [QUOTE] + text[1..];
    } else {
      hide EscapeByte, ReadUnit;
      var (b, after) := ReadUnit(text).value;
      var tail := ReadStringBody(after).value.0;
      StringBodyRead(after, tail, rest);
      assert s == [b] + tail && s[1..] == tail;
    }
  }

  /** Exactly the written form of a string reads as that string. */
  lemma StringExact(text: Bytes, s: Bytes, rest: Bytes)
    ensures ReadString(text) == Some((s, rest)) <==> text == JsonString(s) + rest
  {
    if ReadString(text) == Some((s, rest)) {
      StringBodyRead(text[1..], s, rest);
      assert text == [QUOTE] + text[1..];
    }
    if text == JsonString(s) + rest {
      StringRoundTrip(s, rest);
    }
  }

  // -------------------------------------------------- what the texts look like

  /** Decimal digits, most significant first. */
  lemma DecimalDigits(n: nat, digit: nat)
    requires digit < 10
    ensures Decimal(digit) == [48 + digit]
    ensures n > 0 ==> Decimal(10 * n + digit) == Decimal(n) + [48 + digit]
  {
    assert (10 * n + digit) / 10 == n && (10 * n + digit) % 10 == digit;
  }

  /** Byte arrays in brackets, separated by commas. */
  lemma ArrayText(b: byte, bytes: Bytes)
    ensures JsonBytes([]) == Ascii("[]")
    ensures JsonBytes([b]) == Ascii("[") + Decimal(b) + Ascii("]")
    ensures bytes != [] ==> JsonBytes([b] + bytes) == Ascii("[") + Decimal(b) + Ascii(",") + JsonBytes(bytes)[1..]
  {
    hide Decimal, Elements;
    ElementsCons(b, bytes);
    if bytes != [] {
      assert JsonBytes(bytes)[1..] == Elements(bytes) + [CLOSE_BRACKET];
      assert Ascii(",") == [COMMA];
    }
  }

  /** Strings in quotes. */
  lemma StringText(b: byte, s: Bytes)
    ensures JsonString([]) == Ascii("\"\"")
    ensures JsonString([b] + s) == Ascii("\"") + EscapeByte(b) + JsonString(s)[1..]
  {
    hide EscapeByte;
    assert ([b] + s)[1..] == s;
  }

  /** The short escapes where there are any, and six characters for the other control bytes. */
  lemma EscapeText(b: byte)
    ensures EscapeByte(8) == Ascii("\\b") && EscapeByte(9) == Ascii("\\t") && EscapeByte(10) == Ascii("\\n")
    ensures EscapeByte(12) == Ascii("\\f") && EscapeByte(13) == Ascii("\\r")
    ensures EscapeByte(34) == Ascii("\\\"") && EscapeByte(92) == Ascii("\\\\")
    ensures b >= 32 && b != 34 && b != 92 ==> EscapeByte(b) == [b]
    ensures b < 32 && b !in {8, 9, 10, 12, 13} ==>
              EscapeByte(b) == Ascii("\\u00") + [HEX_DIGITS[b / 16], HEX_DIGITS[b % 16]]
  {
    HexDigits(b / 16);
    HexDigits(b % 16);
  }

  const HEX_DIGITS := Ascii("0123456789abcdef")

  lemma HexDigits(v: nat)
    requires v < 16
    ensures HexDigit(v) == HEX_DIGITS[v]
  {
  }

  /** Two lower-case digits a byte, the high one first. */
  lemma HexText(b: byte, bytes: Bytes)
    ensures HexEncode([]) == []
    ensures HexEncode([b] + bytes) == [HEX_DIGITS[b / 16], HEX_DIGITS[b % 16]] + HexEncode(bytes)
  {
    assert ([b] + bytes)[1..] == bytes;
    HexDigits(b / 16);
    HexDigits(b % 16);
  }
}
