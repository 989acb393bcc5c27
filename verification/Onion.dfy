/** `onion.rs`: nested layers, one for each relay of a route. */
module Onion {
  import opened Wrappers
  import opened ByteText
  import opened Suite

  datatype RelayNode = RelayNode(address: Bytes, publicKey: Bytes)

  datatype OnionLayer = OnionLayer(nextHop: Bytes, payload: Bytes)

  const FINAL := Ascii("FINAL")
  const LAYER_INFO := Ascii("hysj-onion-layer")
  const HOP_FIELD := Ascii("{\"next_hop\":")
  const PAYLOAD_FIELD := Ascii(",\"payload\":")
  const END := Ascii("}")

  function LayerBytes(layer: OnionLayer): Bytes {
    HOP_FIELD + JsonString(layer.nextHop) + PAYLOAD_FIELD + JsonBytes(layer.payload) + END
  }

  function ReadPayload(nextHop: Bytes, text: Bytes): Option<OnionLayer> {
    match Expect(PAYLOAD_FIELD, text)
    case None => None
    case Some(t1) =>
      match ReadBytes(t1)
      case None => None
      case Some((payload, t2)) => if t2 == END then Some(OnionLayer(nextHop, payload)) else None
  }

  function ReadLayer(text: Bytes): Option<OnionLayer> {
    match Expect(HOP_FIELD, text)
    case None => None
    case Some(t1) =>
      match ReadString(t1)
      case None => None
      case Some((nextHop, t2)) => ReadPayload(nextHop, t2)
  }

  lemma PayloadRoundTrip(layer: OnionLayer)
    ensures ReadPayload(layer.nextHop, PAYLOAD_FIELD + (JsonBytes(layer.payload) + END)) == Some(layer)
  {
    ExpectPrefix(PAYLOAD_FIELD, JsonBytes(layer.payload) + END);
    BytesRoundTrip(layer.payload, END);
  }

  /** The written layer reads back as itself, whatever bytes the address holds. */
  lemma LayerRoundTrip(layer: OnionLayer)
    ensures ReadLayer(LayerBytes(layer)) == Some(layer)
  {
    hide JsonBytes, JsonString, ReadBytes, ReadString, ReadPayload;
    var t2 := PAYLOAD_FIELD + (JsonBytes(layer.payload) + END);
    var t1 := JsonString(layer.nextHop) + t2;
    assert LayerBytes(layer) == HOP_FIELD + t1;
    ExpectPrefix(HOP_FIELD, t1);
    StringRoundTrip(layer.nextHop, t2);
    PayloadRoundTrip(layer);
  }

  // ----------------------------------------------------------------- wrap and peel

  function NextHop(route: seq<RelayNode>, i: nat): Bytes
    requires i < |route|
  {
    if i == |route| - 1 then FINAL else route[i + 1].address
  }

  function WrapLayer(suite: Suite, nextHop: Bytes, payload: Bytes, publicKey: Bytes, coins: Coins): Bytes {
    Box(suite, LayerBytes(OnionLayer(nextHop, payload)), publicKey, LAYER_INFO, coins)
  }

  /** The packet addressed to relay `i`: the wrapping of the rest of the route. */
  function Wrapped(suite: Suite, payload: Bytes, route: seq<RelayNode>, coins: seq<Coins>, i: nat): Bytes
    requires i <= |route| == |coins|
    decreases |route| - i
  {
    if i == |route| then payload
    else WrapLayer(suite, NextHop(route, i), Wrapped(suite, payload, route, coins, i + 1), route[i].publicKey, coins[i])
  }

  predicate KeysFit(route: seq<RelayNode>, i: nat)
    requires i <= |route|
  {
    forall j :: i <= j < |route| ==> |route[j].publicKey| == 32
  }

  /** `wrap_onion`: from the last relay to the first. An empty route is refused, and so is a key that is not 32 bytes
      long: the last such key of the route is reported. */
  method WrapOnion(suite: Suite, payload: Bytes, route: seq<RelayNode>, coins: seq<Coins>)
    returns (r: Result<Bytes, CryptoError>)
    requires |coins| == |route|
    ensures r.Ok? <==> route != [] && KeysFit(route, 0)
    ensures r.Ok? ==> r.value == Wrapped(suite, payload, route, coins, 0)
    ensures route == [] ==> r == Err(OnionError)
    ensures route != [] && r.Err? ==>
              exists i :: 0 <= i < |route| && KeysFit(route, i + 1) && |route[i].publicKey| != 32
                          && r == Err(InvalidKeyLength(32, |route[i].publicKey|))
  {
    if route == [] {
      return Err(OnionError);
    }
    var currentPacket := payload;
    var i: nat := |route|;
    while i > 0
      invariant i <= |route|
      invariant KeysFit(route, i)
      invariant currentPacket == Wrapped(suite, payload, route, coins, i)
    {
      i := i - 1;
      if |route[i].publicKey| != KEY_SIZE {
        return Err(InvalidKeyLength(KEY_SIZE, |route[i].publicKey|));
      }
      var nextHop := if i == |route| - 1 then FINAL else route[i + 1].address;
      ghost var inner := currentPacket;
      var layer := OnionLayer(nextHop, currentPacket);
      var key := SharedKey(suite, coins[i].ephemeral, route[i].publicKey, LAYER_INFO);
      var encrypted := CipherEncrypt(suite, LayerBytes(layer), key, [], coins[i].nonce);
      currentPacket := suite.publicOf(coins[i].ephemeral) + encrypted;
      assert currentPacket == WrapLayer(suite, NextHop(route, i), inner, route[i].publicKey, coins[i]);
    }
    r := Ok(currentPacket);
  }

  function UnwrapLayer(suite: Suite, packet: Bytes, secret: Bytes): Result<OnionLayer, CryptoError> {
    if BoxTooShort(packet) then Err(OnionError)
    else if |secret| != KEY_SIZE then Err(InvalidKeyLength(KEY_SIZE, |secret|))
    else
      match Unbox(suite, packet, secret, LAYER_INFO)
      case Err(e) => Err(e)
      case Ok(text) =>
        match ReadLayer(text)
        case None => Err(DeserializationError)
        case Some(layer) => Ok(layer)
  }

  /** One peel undoes one wrap. */
  lemma UnwrapUndoesWrap(suite: Suite, nextHop: Bytes, payload: Bytes, secret: Bytes, coins: Coins)
    requires Lawful(suite) && |secret| == 32 && |coins.nonce| == 24
    ensures UnwrapLayer(suite, WrapLayer(suite, nextHop, payload, suite.publicOf(secret), coins), secret)
            == Ok(OnionLayer(nextHop, payload))
  {
    hide LayerBytes, ReadLayer, Box, Unbox;
    var layer := OnionLayer(nextHop, payload);
    BoxRoundTrip(suite, LayerBytes(layer), secret, LAYER_INFO, coins);
    LayerRoundTrip(layer);
  }

  /** The relays of the route hold the secrets of its keys. */
  ghost predicate Holds(suite: Suite, route: seq<RelayNode>, secrets: seq<Bytes>, coins: seq<Coins>) {
    && |route| == |secrets| == |coins|
    && forall i :: 0 <= i < |route| ==>
        |secrets[i]| == 32 && route[i].publicKey == suite.publicOf(secrets[i]) && |coins[i].nonce| == 24
  }

  /** What relay `i` sees: where to send on, and what. */
  lemma RelaySees(suite: Suite, payload: Bytes, route: seq<RelayNode>, secrets: seq<Bytes>, coins: seq<Coins>, i: nat)
    requires Lawful(suite) && Holds(suite, route, secrets, coins) && i < |route|
    ensures UnwrapLayer(suite, Wrapped(suite, payload, route, coins, i), secrets[i]) ==
            Ok(OnionLayer(NextHop(route, i), Wrapped(suite, payload, route, coins, i + 1)))
  {
    hide WrapLayer, UnwrapLayer;
    UnwrapUndoesWrap(suite, NextHop(route, i), Wrapped(suite, payload, route, coins, i + 1), secrets[i], coins[i]);
  }

  /** Peel with one secret after the other: the revealed hops in order, and what is left. */
  function PeelAll(suite: Suite, packet: Bytes, secrets: seq<Bytes>): Result<(seq<Bytes>, Bytes), CryptoError>
    decreases |secrets|
  {
    if secrets == [] then Ok(([], packet))
    else
      match UnwrapLayer(suite, packet, secrets[0])
      case Err(e) => Err(e)
      case Ok(layer) =>
        match PeelAll(suite, layer.payload, secrets[1..])
        case Err(e) => Err(e)
        case Ok((hops, rest)) => Ok(([layer.nextHop] + hops, rest))
  }

  /** The addresses of the relays after `i`, then "FINAL". */
  function HopsFrom(route: seq<RelayNode>, i: nat): seq<Bytes>
    requires i <= |route|
    decreases |route| - i
  {
    if i == |route| then [] else [NextHop(route, i)] + HopsFrom(route, i + 1)
  }

  lemma WrappedStep(suite: Suite, payload: Bytes, route: seq<RelayNode>, coins: seq<Coins>, i: nat)
    requires i < |route| == |coins|
    ensures Wrapped(suite, payload, route, coins, i) ==
            WrapLayer(suite, NextHop(route, i), Wrapped(suite, payload, route, coins, i + 1), route[i].publicKey,
                coins[i])
  {
  }

  lemma WrappedEnds(suite: Suite, payload: Bytes, route: seq<RelayNode>, coins: seq<Coins>)
    requires |route| == |coins|
    ensures Wrapped(suite, payload, route, coins, |route|) == payload
  {
  }

  lemma {:induction false} PeelsFrom(suite: Suite, payload: Bytes, route: seq<RelayNode>, secrets: seq<Bytes>,
                                     coins: seq<Coins>, i: nat)
    requires Lawful(suite) && Holds(suite, route, secrets, coins) && i <= |route|
    ensures PeelAll(suite, Wrapped(suite, payload, route, coins, i), secrets[i..]) == Ok((HopsFrom(route, i), payload))
    decreases |route| - i
  {
    if i < |route| {
      hide UnwrapLayer, Lawful, WrapLayer;
      RelaySees(suite, payload, route, secrets, coins, i);
      PeelsFrom(suite, payload, route, secrets, coins, i + 1);
      assert secrets[i..][1..] == secrets[i + 1..];
    }
  }

  lemma {:induction false} HopsAre(route: seq<RelayNode>, i: nat)
    requires i <= |route|
    ensures |HopsFrom(route, i)| == |route| - i
    ensures forall k :: 0 <= k < |route| - i ==> HopsFrom(route, i)[k] == NextHop(route, i + k)
    decreases |route| - i
  {
    if i < |route| {
      hide NextHop;
      HopsAre(route, i + 1);
      var rest := HopsFrom(route, i + 1);
      assert HopsFrom(route, i) == [NextHop(route, i)] + rest;
      forall k | 0 <= k < |route| - i ensures HopsFrom(route, i)[k] == NextHop(route, i + k) {
        if k > 0 {
          assert ([NextHop(route, i)] + rest)[k] == rest[k - 1];
        }
      }
    }
  }

  /** For every route: peeling with the relays' secrets in order reveals the addresses of relays 2 to k, then "FINAL",
      and leaves the payload. */
  lemma OnionInverse(suite: Suite, payload: Bytes, route: seq<RelayNode>, secrets: seq<Bytes>, coins: seq<Coins>)
    requires Lawful(suite) && Holds(suite, route, secrets, coins) && route != []
    ensures var peeled := PeelAll(suite, Wrapped(suite, payload, route, coins, 0), secrets);
            && peeled.Ok? && peeled.value.1 == payload
            && |peeled.value.0| == |route|
            && (forall k :: 0 <= k < |route| - 1 ==> peeled.value.0[k] == route[k + 1].address)
            && peeled.value.0[|route| - 1] == Ascii("FINAL")
  {
    hide Lawful, Wrapped, PeelAll, HopsFrom, Holds;
    PeelsFrom(suite, payload, route, secrets, coins, 0);
    HopsAre(route, 0);
    assert secrets[0..] == secrets;
  }

  // -------------------------------------------------------------- relays in a row

  /** The relays pass the packet on until one reads "FINAL" as the next hop and hands over what it unwrapped. */
  function Relayed(suite: Suite, packet: Bytes, secrets: seq<Bytes>): Result<Bytes, CryptoError>
    decreases |secrets|
  {
    if secrets == [] then Err(OnionError)
    else
      match UnwrapLayer(suite, packet, secrets[0])
      case Err(e) => Err(e)
      case Ok(layer) =>
        if layer.nextHop == FINAL then Ok(layer.payload) else Relayed(suite, layer.payload, secrets[1..])
  }

  /** The first relay from `i` on that is told "FINAL". */
  function FirstFinal(route: seq<RelayNode>, i: nat): (stop: nat)
    requires i < |route|
    ensures i <= stop < |route| && NextHop(route, stop) == FINAL
    ensures forall k :: i <= k < stop ==> NextHop(route, k) != FINAL
    decreases |route| - i
  {
    if NextHop(route, i) == FINAL then i else FirstFinal(route, i + 1)
  }

  lemma {:induction false} RelayedStops(suite: Suite, payload: Bytes, route: seq<RelayNode>, secrets: seq<Bytes>,
                                        coins: seq<Coins>, i: nat)
    requires Lawful(suite) && Holds(suite, route, secrets, coins) && i < |route|
    ensures Relayed(suite, Wrapped(suite, payload, route, coins, i), secrets[i..]) ==
            Ok(Wrapped(suite, payload, route, coins, FirstFinal(route, i) + 1))
    decreases |route| - i
  {
    hide UnwrapLayer, Lawful, WrapLayer;
    RelaySees(suite, payload, route, secrets, coins, i);
    if NextHop(route, i) != FINAL {
      RelayedStops(suite, payload, route, secrets, coins, i + 1);
      assert secrets[i..][1..] == secrets[i + 1..];
    }
  }

  /** The relays deliver the payload if and only if none of them but the first has the address "FINAL"; otherwise the
      one before it hands over a packet that is still wrapped. */
  lemma DeliversIffNoFinalAddress(suite: Suite, payload: Bytes, route: seq<RelayNode>, secrets: seq<Bytes>,
                                  coins: seq<Coins>)
    requires Lawful(suite) && Holds(suite, route, secrets, coins) && route != []
    ensures Relayed(suite, Wrapped(suite, payload, route, coins, 0), secrets) == Ok(payload) <==>
            forall k :: 1 <= k < |route| ==> route[k].address != Ascii("FINAL")
  {
    hide Lawful, Wrapped, Relayed, WrapLayer, FirstFinal;
    WrappedEnds(suite, payload, route, coins);
    RelayedStops(suite, payload, route, secrets, coins, 0);
    assert secrets[0..] == secrets;
    var stop := FirstFinal(route, 0);
    forall k | 1 <= k < |route| ensures route[k].address == NextHop(route, k - 1) {}
    if stop + 1 < |route| {
      WrappedLonger(suite, payload, route, secrets, coins, stop + 1);
    }
  }

  // ------------------------------------------------------------------------- size

  /** The frame of one layer: ephemeral key, nonce, tag and the fixed text around the two fields. */
  const LAYER_FRAME: nat := 98

  /** A payload byte costs two to four characters. */
  lemma LayerSize(suite: Suite, nextHop: Bytes, payload: Bytes, secret: Bytes, coins: Coins)
    requires Lawful(suite) && |coins.nonce| == 24
    ensures var size := |WrapLayer(suite, nextHop, payload, suite.publicOf(secret), coins)|;
            && 2 * |payload| + LAYER_FRAME + |Escaped(nextHop)| + 1 <= size
            && size <= 4 * |payload| + LAYER_FRAME + |Escaped(nextHop)| + 2
  {
    hide Escaped, Box, Unbox, Lawful, Elements;
    BoxRoundTrip(suite, LayerBytes(OnionLayer(nextHop, payload)), secret, LAYER_INFO, coins);
    assert |HOP_FIELD| == 12 && |PAYLOAD_FIELD| == 11 && |END| == 1;
  }

  lemma {:induction false} WrappedLonger(suite: Suite, payload: Bytes, route: seq<RelayNode>, secrets: seq<Bytes>,
                                         coins: seq<Coins>, i: nat)
    requires Lawful(suite) && Holds(suite, route, secrets, coins) && i < |route|
    ensures |Wrapped(suite, payload, route, coins, i)| > |payload|
    decreases |route| - i
  {
    hide Lawful, Wrapped, WrapLayer, Escaped, NextHop;
    WrappedStep(suite, payload, route, coins, i);
    LayerSize(suite, NextHop(route, i), Wrapped(suite, payload, route, coins, i + 1), secrets[i], coins[i]);
    if i + 1 == |route| {
      WrappedEnds(suite, payload, route, coins);
    } else {
      WrappedLonger(suite, payload, route, secrets, coins, i + 1);
    }
  }

  function Power(base: nat, n: nat): (p: nat)
    ensures base >= 1 ==> p >= 1
  {
    if n == 0 then 1 else base * Power(base, n - 1)
  }

  /** Over k hops, with escaped addresses of at most `longest` bytes, the packet has at least
      2^k * (|payload| + f) - f bytes and at most 4^k * |payload| + c * (4^k - 1) / 3, where f is the frame and one byte
      and c is the frame, two bytes and the longest address. */
  lemma {:induction false} OnionSize(suite: Suite, payload: Bytes, route: seq<RelayNode>, secrets: seq<Bytes>,
                                     coins: seq<Coins>, longest: nat, i: nat)
    requires Lawful(suite) && Holds(suite, route, secrets, coins) && i <= |route|
    requires forall k :: 0 <= k < |route| ==> |Escaped(NextHop(route, k))| <= longest
    ensures var size, hops := |Wrapped(suite, payload, route, coins, i)|, |route| - i;
            var f, c := LAYER_FRAME + 1, LAYER_FRAME + 2 + longest;
            && Power(2, hops) * (|payload| + f) <= size + f
            && 3 * size + c <= Power(4, hops) * (3 * |payload| + c)
    decreases |route| - i
  {
    hide Lawful, Wrapped, WrapLayer, Escaped, NextHop;
    if i == |route| {
      WrappedEnds(suite, payload, route, coins);
    } else {
      var inner := Wrapped(suite, payload, route, coins, i + 1);
      WrappedStep(suite, payload, route, coins, i);
      LayerSize(suite, NextHop(route, i), inner, secrets[i], coins[i]);
      OnionSize(suite, payload, route, secrets, coins, longest, i + 1);
      SizeStep(|route| - i, |payload|, |inner|, |Wrapped(suite, payload, route, coins, i)|, LAYER_FRAME + 1,
               LAYER_FRAME + 2 + longest);
    }
  }

  lemma SizeStep(hops: nat, payload: nat, inner: nat, outer: nat, f: nat, c: nat)
    requires hops > 0
    requires 2 * inner + f <= outer <= 4 * inner + c
    requires Power(2, hops - 1) * (payload + f) <= inner + f
    requires 3 * inner + c <= Power(4, hops - 1) * (3 * payload + c)
    ensures Power(2, hops) * (payload + f) <= outer + f
    ensures 3 * outer + c <= Power(4, hops) * (3 * payload + c)
  {
    Doubling(Power(2, hops - 1), payload + f, inner + f, outer + f);
    Quadrupling(Power(4, hops - 1), 3 * payload + c, 3 * inner + c, 3 * outer + c);
  }

  lemma Doubling(p: nat, x: nat, inner: nat, outer: nat)
    requires p * x <= inner && 2 * inner <= outer
    ensures (2 * p) * x <= outer
  {
    assert (2 * p) * x == 2 * (p * x);
  }

  lemma Quadrupling(p: nat, x: nat, inner: nat, outer: nat)
    requires inner <= p * x && outer <= 4 * inner
    ensures outer <= (4 * p) * x
  {
    assert (4 * p) * x == 4 * (p * x);
  }

  // ------------------------------------------------------------ the packets themselves

  /** Exactly the text of a layer reads as that layer: two fields by name, in this order, without spaces. */
  lemma LayerExact(text: Bytes, layer: OnionLayer)
    ensures ReadLayer(text) == Some(layer) <==>
            text == Ascii("{\"next_hop\":") + JsonString(layer.nextHop) + Ascii(",\"payload\":")
                    + JsonBytes(layer.payload) + Ascii("}")
  {
    hide JsonBytes, JsonString, ReadBytes, ReadString;
    LayerRoundTrip(layer);
    if ReadLayer(text) == Some(layer) {
      var t1 := Expect(HOP_FIELD, text).value;
      var (nextHop, t2) := ReadString(t1).value;
      StringExact(t1, nextHop, t2);
      var t3 := Expect(PAYLOAD_FIELD, t2).value;
      var (payload, t4) := ReadBytes(t3).value;
      BytesExact(t3, payload, t4);
      Reassemble(HOP_FIELD, JsonString(nextHop), PAYLOAD_FIELD, JsonBytes(payload), END);
    }
  }

  lemma Reassemble(a: Bytes, b: Bytes, c: Bytes, d: Bytes, e: Bytes)
    ensures a + (b + (c + (d + e))) == a + b + c + d + e
  {
  }

  /** The packet for relay `i`, in terms of the primitives: an ephemeral public key, a nonce, and the layer's text
      sealed under the key derived from the Diffie-Hellman output of the ephemeral secret and the relay's key. The
      layer names the next relay, or "FINAL", and holds the packet for it, or the payload. */
  lemma PacketFrame(suite: Suite, payload: Bytes, route: seq<RelayNode>, coins: seq<Coins>, i: nat)
    requires Lawful(suite) && i < |route| == |coins| && |coins[i].nonce| == 24
    ensures var packet, inner := Wrapped(suite, payload, route, coins, i), Wrapped(suite, payload, route, coins, i + 1);
            var hop := if i == |route| - 1 then Ascii("FINAL") else route[i + 1].address;
            var key := suite.hkdf(suite.dh(coins[i].ephemeral, route[i].publicKey), [], Ascii("hysj-onion-layer"));
            && |packet| >= 72
            && packet[..32] == suite.publicOf(coins[i].ephemeral) && packet[32..56] == coins[i].nonce
            && packet[56..] ==
               suite.seal(key, coins[i].nonce,
                          Ascii("{\"next_hop\":") + JsonString(hop) + Ascii(",\"payload\":") + JsonBytes(inner)
                          + Ascii("}"), [])
            && (i == |route| - 1 ==> inner == payload)
  {
    hide Lawful, JsonString, JsonBytes, Box;
    WrappedStep(suite, payload, route, coins, i);
    var inner := Wrapped(suite, payload, route, coins, i + 1);
    BoxFrame(suite, LayerBytes(OnionLayer(NextHop(route, i), inner)), route[i].publicKey, LAYER_INFO, coins[i]);
    LayerExact(LayerBytes(OnionLayer(NextHop(route, i), inner)), OnionLayer(NextHop(route, i), inner));
    LayerRoundTrip(OnionLayer(NextHop(route, i), inner));
  }

  /** For every packet and secret: a layer is peeled exactly when the AEAD opens the packet under the key derived from
      the secret and the first 32 bytes, and the opened text is that layer's; and this is how each refusal reads. */
  lemma UnwrapExact(suite: Suite, packet: Bytes, secret: Bytes, layer: OnionLayer)
    ensures |packet| < 72 ==> UnwrapLayer(suite, packet, secret) == Err(OnionError)
    ensures |packet| >= 72 && |secret| != 32 ==>
              UnwrapLayer(suite, packet, secret) == Err(InvalidKeyLength(32, |secret|))
    ensures |packet| >= 72 && |secret| == 32 ==>
              var key := suite.hkdf(suite.dh(secret, packet[..32]), [], Ascii("hysj-onion-layer"));
              var plain := suite.open(key, packet[32..56], packet[56..], []);
              var r := UnwrapLayer(suite, packet, secret);
              && (plain.None? ==> r == Err(DecryptionFailed))
              && (r.Err? && plain.Some? ==> r == Err(DeserializationError))
              && (r == Ok(layer) <==>
                  plain == Some(Ascii("{\"next_hop\":") + JsonString(layer.nextHop) + Ascii(",\"payload\":")
                                 + JsonBytes(layer.payload) + Ascii("}")))
  {
    hide JsonString, JsonBytes, Unbox, ReadLayer;
    if |packet| >= 72 && |secret| == 32 {
      UnboxExact(suite, packet, secret, LAYER_INFO);
      var r := Unbox(suite, packet, secret, LAYER_INFO);
      if r.Ok? {
        LayerExact(r.value, layer);
      }
    }
  }
}
