/** From the handshake to the last relay: a ratchet message sealed for its recipient and wrapped for a route. */
module Envelope {
  import opened Wrappers
  import opened ByteText
  import opened SymbolicCrypto
  import opened MessageHeader
  import opened RatchetSession
  import opened TwoParty
  import opened Acceptance
  import opened Eviction
  import opened Agreement
  import Suite
  import Sealed
  import Onion
  import X3dh

  /** Any way to turn a header and a ciphertext into one byte string that can be taken apart again. */
  datatype Packing = Packing(pack: (Header, Ciphertext) -> Bytes, unpack: Bytes -> Option<(Header, Ciphertext)>)

  ghost predicate Invertible(packing: Packing) {
    forall h, c :: packing.unpack(packing.pack(h, c)) == Some((h, c))
  }

  /** Who sends, to whom, over which relays, and the coins of every layer. */
  datatype Path = Path(
    senderId: Bytes,
    certificate: Bytes,
    recipientSecret: Bytes,
    verificationKey: Bytes,
    sealCoins: Suite.Coins,
    route: seq<Onion.RelayNode>,
    relaySecrets: seq<Bytes>,
    coins: seq<Suite.Coins>)

  ghost predicate Prepared(suite: Suite.Suite, path: Path) {
    && Suite.Lawful(suite)
    && |path.recipientSecret| == 32 && |path.sealCoins.nonce| == 24
    && path.route != [] && Onion.Holds(suite, path.route, path.relaySecrets, path.coins)
  }

  function ContentOf(path: Path, payload: Bytes): Sealed.SealedContent {
    Sealed.SealedContent(path.senderId, path.certificate, payload)
  }

  function SealedFor(suite: Suite.Suite, path: Path, payload: Bytes): Bytes {
    Suite.Box(suite, Sealed.InnerBytes(ContentOf(path, payload)), suite.publicOf(path.recipientSecret),
              Sealed.SEALED_INFO, path.sealCoins)
  }

  /** The packet handed to the first relay. */
  function Outgoing(suite: Suite.Suite, path: Path, payload: Bytes): Bytes
    requires |path.route| == |path.coins|
  {
    Onion.Wrapped(suite, SealedFor(suite, path, payload), path.route, path.coins, 0)
  }

  function Opened(suite: Suite.Suite, path: Path, blob: Bytes): Result<Sealed.SealedContent, Suite.CryptoError> {
    Sealed.Open(suite, blob, path.recipientSecret, path.verificationKey)
  }

  /** The certificate is not one that fails: a 64-byte certificate passes under a 32-byte verification key if that is
      one and verifies it over the sender id. */
  predicate Trusted(suite: Suite.Suite, path: Path) {
    |path.verificationKey| == 32 && |path.certificate| == 64 ==>
      && suite.isVerifyingKey(path.verificationKey)
      && suite.verify(path.verificationKey, path.senderId, path.certificate)
  }

  lemma SealedOpens(suite: Suite.Suite, path: Path, payload: Bytes)
    requires Prepared(suite, path)
    ensures Sealed.Seal(suite, ContentOf(path, payload), suite.publicOf(path.recipientSecret), path.sealCoins)
            == Ok(SealedFor(suite, path, payload))
    ensures Opened(suite, path, SealedFor(suite, path, payload)) ==
            if Trusted(suite, path) then Ok(ContentOf(path, payload)) else Err(Suite.SealedSenderError)
  {
    hide Sealed.InnerBytes, Suite.Box, Suite.Unbox, Sealed.ReadInner, Onion.Holds;
    Sealed.OpenUndoesSeal(suite, ContentOf(path, payload), path.recipientSecret, path.sealCoins, path.verificationKey);
  }

  /** Seal, wrap, peel every layer, open: the same sender, certificate and payload come back if and only if the
      certificate passes, for every payload and every route. */
  lemma EnvelopeRoundTrip(suite: Suite.Suite, path: Path, payload: Bytes)
    requires Prepared(suite, path)
    ensures var peeled := Onion.PeelAll(suite, Outgoing(suite, path, payload), path.relaySecrets);
            && peeled.Ok?
            && Opened(suite, path, peeled.value.1) ==
               if Trusted(suite, path) then Ok(ContentOf(path, payload)) else Err(Suite.SealedSenderError)
  {
    hide Suite.Lawful, Onion.Wrapped, Onion.PeelAll, SealedFor, Opened, Trusted;
    Onion.OnionInverse(suite, SealedFor(suite, path, payload), path.route, path.relaySecrets, path.coins);
    SealedOpens(suite, path, payload);
  }

  /** What the recipient gets from the relays and takes apart. */
  function Arriving(suite: Suite.Suite, packing: Packing, path: Path, packet: Bytes): Option<(Header, Ciphertext)> {
    match Onion.Relayed(suite, packet, path.relaySecrets)
    case Err(_) => None
    case Ok(blob) =>
      match Opened(suite, path, blob)
      case Err(_) => None
      case Ok(content) => packing.unpack(content.plaintext)
  }

  predicate NoFinalRelay(route: seq<Onion.RelayNode>) {
    forall k :: 1 <= k < |route| ==> route[k].address != Ascii("FINAL")
  }

  /** Relays that act on the hops they read carry a header and a ciphertext through unchanged, and the recipient sees
      them if and only if the certificate passes. */
  lemma CarriesMessages(suite: Suite.Suite, packing: Packing, path: Path, header: Header, ciphertext: Ciphertext)
    requires Prepared(suite, path) && Invertible(packing) && NoFinalRelay(path.route)
    ensures Arriving(suite, packing, path, Outgoing(suite, path, packing.pack(header, ciphertext))) ==
            if Trusted(suite, path) then Some((header, ciphertext)) else None
  {
    hide Suite.Lawful, Onion.Wrapped, Onion.Relayed, SealedFor, Opened, Trusted;
    var payload := packing.pack(header, ciphertext);
    Onion.DeliversIffNoFinalAddress(suite, SealedFor(suite, path, payload), path.route, path.relaySecrets, path.coins);
    SealedOpens(suite, path, payload);
  }

  /** Two sessions, each started from its own result of the handshake. */
  function StartFrom(aliceSecret: Bytes, bobSecret: Bytes, bobKey: Bytes, aliceKey: Bytes): System
    requires |bobKey| >= KEY_LENGTH
  {
    System(Log(aliceSecret, [bobKey, aliceKey], [[], []]),
           InitSender(aliceSecret, bobKey, DhSecret(aliceKey)),
           InitReceiver(bobSecret, DhSecret(bobKey), bobKey),
           [])
  }

  /** The secret material of both ends of a handshake. */
  datatype Handshake = Handshake(initiator: Bytes, ephemeral: Bytes, kemCoins: Bytes, identity: Bytes, signed: Bytes,
                                 signature: Bytes, oneTime: Option<Bytes>, kyber: Bytes)

  predicate WellSized(h: Handshake) {
    && |h.initiator| == |h.identity| == |h.signed| == 32
    && (h.oneTime.Some? ==> |h.oneTime.value| == 32)
  }

  function Initiated(suite: Suite.Suite, h: Handshake): Result<X3dh.InitResult, Suite.CryptoError> {
    X3dh.Initiate(suite, h.initiator, X3dh.BundleOf(suite, h.identity, h.signed, h.signature, h.oneTime, h.kyber),
                  h.ephemeral, h.kemCoins)
  }

  function Responded(suite: Suite.Suite, h: Handshake, sent: X3dh.InitResult): Result<Bytes, Suite.CryptoError> {
    X3dh.Respond(suite, h.identity, h.signed, h.oneTime, h.kyber, suite.publicOf(h.initiator), sent.ephemeralPublic,
                 sent.kyberCiphertext)
  }

  /** Sessions started from the two ends of one handshake are sessions started from one secret. */
  lemma HandshakeStarts(suite: Suite.Suite, h: Handshake, bobKey: Bytes, aliceKey: Bytes)
    requires Suite.Lawful(suite) && WellSized(h) && Initiated(suite, h).Ok? && |bobKey| >= KEY_LENGTH
    ensures var sent := Initiated(suite, h).value;
            && Responded(suite, h, sent).Ok?
            && StartFrom(sent.sharedSecret, Responded(suite, h, sent).value, bobKey, aliceKey)
               == Start(sent.sharedSecret, bobKey, aliceKey)
  {
    hide Suite.Lawful, X3dh.Initiate, X3dh.Respond;
    X3dh.HandshakeAgrees(suite, h.initiator, h.ephemeral, h.kemCoins, h.identity, h.signed, h.signature, h.oneTime,
        h.kyber);
  }

  /** Agreement through all layers: from a handshake, in every run, a message sealed, wrapped and relayed decrypts to
      exactly its plaintext if and only if the certificate passes, the message was not received before, no gap to it
      exceeds 1000, and its key was not evicted. */
  lemma AgreementThroughTheEnvelope(suite: Suite.Suite, packing: Packing, path: Path, h: Handshake,
                                    bobKey: Bytes, aliceKey: Bytes, events: seq<Event>,
                                    p: Party, j: nat, n: nat, newKey: Bytes)
    requires Prepared(suite, path) && Invertible(packing) && NoFinalRelay(path.route)
    requires WellSized(h) && Initiated(suite, h).Ok? && |bobKey| == |aliceKey| == 32 && bobKey != aliceKey
    requires Responded(suite, h, Initiated(suite, h).value).Ok?
    requires var start := StartFrom(Initiated(suite, h).value.sharedSecret,
                                    Responded(suite, h, Initiated(suite, h).value).value, bobKey, aliceKey);
             && LegalRun(start, events)
             && IsSent(Run(start, events).log, j, n) && j % 2 != Parity(p)
    ensures var start := StartFrom(Initiated(suite, h).value.sharedSecret,
                                   Responded(suite, h, Initiated(suite, h).value).value, bobKey, aliceKey);
            var sys := Run(start, events);
            var m := sys.log.chains[j][n];
            var arrived := Arriving(suite, packing, path, Outgoing(suite, path, packing.pack(m.header, m.ciphertext)));
            (arrived.Some? && Delivery(sys, p, arrived.value.0, arrived.value.1, newKey) == Ok(m.plaintext)) <==>
            && Trusted(suite, path) && !Received(sys.receipts, m.header) && WithinLimits(sys, p, j, n)
            && SlotAt(sys.log, j, n) !in Evicted(start, events, p)
  {
    hide Prepared, LegalRun, Evicted, Run, Arriving, Outgoing, Initiated, Responded, StartFrom, Start,
         Delivery, Received, WithinLimits, Trusted, Invertible, NoFinalRelay;
    StartsLegal(suite, path);
    HandshakeStarts(suite, h, bobKey, aliceKey);
    var secret := Initiated(suite, h).value.sharedSecret;
    WholeRunAgreement(secret, bobKey, aliceKey, events, p, j, n, newKey);
    var m := Final(secret, bobKey, aliceKey, events).log.chains[j][n];
    CarriesMessages(suite, packing, path, m.header, m.ciphertext);
  }

  lemma StartsLegal(suite: Suite.Suite, path: Path)
    requires Prepared(suite, path)
    ensures Suite.Lawful(suite) && |path.route| == |path.coins|
  {
    hide Suite.Lawful;
  }
}
