/** `ratchet/double_ratchet.rs`: the session object, updated in place. */
module RatchetState {
  import opened Wrappers
  import opened ByteText
  import opened SymbolicCrypto
  import opened MessageHeader
  import opened SkippedKeys
  import S = RatchetSession

  class RatchetState {
    var rootKey: RootKey
    var sendingChainKey: Option<ChainKey>
    var receivingChainKey: Option<ChainKey>
    var dhSendSecret: DhSecret
    var dhSendPublic: Bytes
    var dhReceivePublic: Option<Bytes>
    var sendMessageNumber: nat
    var recvMessageNumber: nat
    var previousSendingChainLength: nat
    const skippedKeys: Cache

    ghost predicate Valid()
      reads this, skippedKeys
    {
      skippedKeys.Valid()
    }

    ghost function State(): S.Session
      reads this, skippedKeys
      requires Valid()
    {
      S.Session(rootKey, sendingChainKey, receivingChainKey, dhSendSecret, dhSendPublic, dhReceivePublic,
                sendMessageNumber, recvMessageNumber, previousSendingChainLength, skippedKeys.Contents())
    }

    constructor InitSender(sharedSecret: Bytes, recipientDhPublic: Bytes, newKey: DhSecret)
      requires |recipientDhPublic| >= S.KEY_LENGTH
      ensures Valid() && fresh(this.skippedKeys)
      ensures State() == S.InitSender(sharedSecret, recipientDhPublic, newKey)
    {
      var dhOutput := DiffieHellman(newKey, S.X25519Key(recipientDhPublic));
      var (root, chain) := DeriveRootKey(Initial(sharedSecret), dhOutput);
      rootKey := root;
      sendingChainKey := Some(chain);
      receivingChainKey := None;
      dhSendSecret := newKey;
      dhSendPublic := newKey.publicKey;
      dhReceivePublic := Some(recipientDhPublic);
      sendMessageNumber := 0;
      recvMessageNumber := 0;
      previousSendingChainLength := 0;
      skippedKeys := new Cache();
    }

    constructor InitReceiver(sharedSecret: Bytes, secret: DhSecret, public: Bytes)
      ensures Valid() && fresh(this.skippedKeys)
      ensures State() == S.InitReceiver(sharedSecret, secret, public)
    {
      rootKey := Initial(sharedSecret);
      sendingChainKey := None;
      receivingChainKey := None;
      dhSendSecret := secret;
      dhSendPublic := public;
      dhReceivePublic := None;
      sendMessageNumber := 0;
      recvMessageNumber := 0;
      previousSendingChainLength := 0;
      skippedKeys := new Cache();
    }

    /** A session read back from storage, which never holds skipped keys. */
    constructor Restore(s: S.Session)
      requires s.store == []
      ensures Valid() && fresh(this.skippedKeys)
      ensures State() == s
    {
      rootKey := s.root;
      sendingChainKey := s.sendingChain;
      receivingChainKey := s.receivingChain;
      dhSendSecret := s.dhSecret;
      dhSendPublic := s.dhPublic;
      dhReceivePublic := s.dhRemote;
      sendMessageNumber := s.sendNumber;
      recvMessageNumber := s.recvNumber;
      previousSendingChainLength := s.previousLength;
      skippedKeys := new Cache();
    }

    method Encrypt(plaintext: Bytes, nonce: Bytes)
      returns (r: Result<(Ciphertext, Header), S.RatchetError>)
      requires Valid()
      modifies this
      ensures Valid()
      ensures (State(), r) == S.Encrypt(old(State()), plaintext, nonce)
    {
      if sendingChainKey.None? {
        return Err(S.NoSendingChain);
      }
      var (newChainKey, messageKey) := DeriveChainKey(sendingChainKey.value);
      sendingChainKey := Some(newChainKey);
      var header := Header(dhSendPublic, previousSendingChainLength, sendMessageNumber);
      var aad := ToBytes(header);
      var ciphertext := Sealed(messageKey, nonce, plaintext, aad);
      sendMessageNumber := sendMessageNumber + 1;
      r := Ok((ciphertext, header));
    }

    method Decrypt(ciphertext: Ciphertext, header: Header, newKey: DhSecret)
      returns (r: Result<Bytes, S.RatchetError>)
      requires Valid()
      modifies this, skippedKeys
      ensures Valid()
      ensures S.Outcome(State(), r) == S.Decrypt(old(State()), header, ciphertext, newKey)
    {
      hide HexEncode, ToBytes, Listing, Find, Without, S.PutAll, S.ConsecutiveKeys, Advance, S.ReceiveCurrent,
          S.SkipMissed, S.DhRatchet;
      var headerDhHex := HexEncode(header.dhPublic);
      var stored := skippedKeys.Take(Slot(headerDhHex, header.messageNumber));
      if stored.Some? {
        r := S.OpenResult(ciphertext, stored.value, header);
        return;
      }
      AbsentUnchanged(old(skippedKeys.Contents()), Slot(headerDhHex, header.messageNumber));
      assert State() == old(State());
      var needRatchet := dhReceivePublic != Some(header.dhPublic);
      if needRatchet {
        var skipped := SkipMissedMessages(header.previousChainLength);
        if skipped.Err? {
          return Err(skipped.error);
        }
        var turned := DhRatchet(header.dhPublic, newKey);
        if turned.Err? {
          return Err(turned.error);
        }
      }
      r := ReceiveFromChain(ciphertext, header);
    }

    /** Steps 3 to 5 of `decrypt`: catch up on the receiving chain, derive the next key, open. */
    method ReceiveFromChain(ciphertext: Ciphertext, header: Header) returns (r: Result<Bytes, S.RatchetError>)
      requires Valid()
      modifies this, skippedKeys
      ensures Valid()
      ensures S.Outcome(State(), r) == S.ReceiveCurrent(old(State()), header, ciphertext)
    {
      hide HexEncode, ToBytes, Listing, S.PutAll, S.ConsecutiveKeys, Advance;
      var caughtUp := SkipMissedMessages(header.messageNumber);
      if caughtUp.Err? {
        return Err(caughtUp.error);
      }
      if receivingChainKey.None? {
        return Err(S.NoReceivingChain);
      }
      var (newChainKey, messageKey) := DeriveChainKey(receivingChainKey.value);
      receivingChainKey := Some(newChainKey);
      r := S.OpenResult(ciphertext, messageKey, header);
      if r.Ok? {
        recvMessageNumber := recvMessageNumber + 1;
      }
    }

    method DhRatchet(theirs: Bytes, newKey: DhSecret) returns (r: Result<(), S.RatchetError>)
      requires Valid()
      modifies this
      ensures Valid() && (r.Ok? <==> |theirs| >= S.KEY_LENGTH)
      ensures State() == if r.Ok? then S.DhRatchet(old(State()), theirs, newKey) else S.TurnOver(old(State()), theirs)
      ensures r.Err? ==> r.error == S.ShortPublicKey
    {
      dhReceivePublic := Some(theirs);
      previousSendingChainLength := sendMessageNumber;
      sendMessageNumber := 0;
      recvMessageNumber := 0;
      if |theirs| < S.KEY_LENGTH {
        return Err(S.ShortPublicKey);
      }
      var theirKey := S.X25519Key(theirs);
      var (newRootKey, receiving) := DeriveRootKey(rootKey, DiffieHellman(dhSendSecret, theirKey));
      rootKey := newRootKey;
      receivingChainKey := Some(receiving);
      dhSendSecret := newKey;
      dhSendPublic := newKey.publicKey;
      var (newRootKey2, sending) := DeriveRootKey(rootKey, DiffieHellman(newKey, theirKey));
      rootKey := newRootKey2;
      sendingChainKey := Some(sending);
      r := Ok(());
    }

    method SkipMissedMessages(until: nat) returns (r: Result<(), S.RatchetError>)
      requires Valid()
      modifies this`receivingChainKey, this`recvMessageNumber, skippedKeys
      ensures Valid()
      ensures S.SkipMissed(old(State()), until) == if r.Ok? then Ok(State()) else Err(r.error)
      ensures r.Err? ==> State() == old(State())
    {
      hide S.PutAll, S.ConsecutiveKeys, HexEncode, Advance, Listing;
      if recvMessageNumber > until {
        return Ok(());
      }
      var skipCount := until - recvMessageNumber;
      if skipCount > S.MAX_SKIP {
        return Err(S.TooManySkipped(skipCount));
      }
      if receivingChainKey.Some? {
        var dhHex := if dhReceivePublic.Some? then HexEncode(dhReceivePublic.value) else [];
        var currentCk := StoreSkipped(dhHex, receivingChainKey.value, recvMessageNumber, until);
        receivingChainKey := Some(currentCk);
        recvMessageNumber := until;
      }
      r := Ok(());
    }

    /** The loop of the catch-up: one derivation and one insertion for each number in `from .. until`. */
    method StoreSkipped(dhHex: Bytes, chain: ChainKey, from: nat, until: nat) returns (currentCk: ChainKey)
      requires Valid() && from <= until
      modifies skippedKeys
      ensures Valid()
      ensures skippedKeys.Contents() ==
              S.PutAll(old(skippedKeys.Contents()), S.ConsecutiveKeys(dhHex, chain, from, until - from))
      ensures currentCk == Advance(chain, until - from)
    {
      ghost var store := skippedKeys.Contents();
      assert S.PutAll(store, S.ConsecutiveKeys(dhHex, chain, from, 0)) == store;
      hide S.PutAll, S.ConsecutiveKeys, Listing, Put;
      currentCk := chain;
      for n := from to until
        invariant Valid()
        invariant currentCk == Advance(chain, n - from)
        invariant skippedKeys.Contents() == S.PutAll(store, S.ConsecutiveKeys(dhHex, chain, from, n - from))
      {
        var (newCk, messageKey) := DeriveChainKey(currentCk);
        ghost var before := skippedKeys.Contents();
        skippedKeys.Insert(Slot(dhHex, n), messageKey);
        assert skippedKeys.Contents() == Put(before, Slot(dhHex, n), messageKey);
        S.ConsecutiveKeysStep(store, dhHex, chain, from, n);
        currentCk := newCk;
      }
    }
  }

  /** A lookup that finds nothing removes nothing. */
  lemma {:induction false} AbsentUnchanged(store: Store, slot: Slot)
    requires Find(store, slot).None?
    ensures Without(store, slot) == store
  {
    if store != [] {
      AbsentUnchanged(store[1..], slot);
    }
  }
}
