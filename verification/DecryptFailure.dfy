/** What a failed `decrypt` does to the object it was called on, and why the caller must throw that object away. */
module DecryptFailure {
  import opened Wrappers
  import opened ByteText
  import opened SymbolicCrypto
  import opened MessageHeader
  import opened SkippedKeys
  import opened RatchetSession
  import opened TwoParty
  import opened Acceptance
  import opened Lockstep
  import opened SystemInvariant

  lemma AdvanceGrows(chain: ChainKey, n: nat)
    ensures StepsOf(Advance(chain, n)) == StepsOf(chain) + n
  {
  }

  /** The call was refused before its first update: on the current chain for a missing chain or too long a gap, with a
      new ratchet key for too long a gap on the old chain. */
  predicate RefusedAtOnce(s: Session, header: Header) {
    && Find(s.store, SlotOf(header)).None?
    && if s.dhRemote == Some(header.dhPublic)
       then s.receivingChain.None? || header.messageNumber > s.recvNumber + 1000
       else header.previousChainLength > s.recvNumber + 1000
  }

  lemma SkipKeepsRemote(s: Session, until: nat)
    ensures SkipMissed(s, until).Ok? ==> SkipMissed(s, until).value.dhRemote == s.dhRemote
    ensures SkipMissed(s, until).Ok? && s.receivingChain.Some? ==>
              && SkipMissed(s, until).value.receivingChain.Some?
              && StepsOf(SkipMissed(s, until).value.receivingChain.value) >= StepsOf(s.receivingChain.value)
  {
    if s.receivingChain.Some? && until >= s.recvNumber {
      AdvanceGrows(s.receivingChain.value, until - s.recvNumber);
    }
  }

  /** A failed call leaves the session as it was if and only if it was refused before its first update. */
  lemma UnchangedIffRefusedAtOnce(s: Session, header: Header, ciphertext: Ciphertext, newKey: DhSecret)
    requires Bounded(s.store) && Decrypt(s, header, ciphertext, newKey).result.Err?
    ensures Decrypt(s, header, ciphertext, newKey).after == s <==> RefusedAtOnce(s, header)
  {
    var after := Decrypt(s, header, ciphertext, newKey).after;
    if Find(s.store, SlotOf(header)).Some? {
      FindWithout(s.store, SlotOf(header), SlotOf(header));
      assert after.store != s.store;
    } else if s.dhRemote == Some(header.dhPublic) {
      SkipKeepsRemote(s, header.messageNumber);
    } else {
      var skip := SkipMissed(s, header.previousChainLength);
      SkipKeepsRemote(s, header.previousChainLength);
      if skip.Ok? {
        if |header.dhPublic| >= KEY_LENGTH {
          SkipKeepsRemote(DhRatchet(skip.value, header.dhPublic, newKey), header.messageNumber);
        }
        assert after.dhRemote == Some(header.dhPublic);
      }
    }
  }

  // ------------------------------------------------------- what each failure leaves

  function Beyond(s: Session, n: nat): nat {
    if n > s.recvNumber then n - s.recvNumber else 0
  }

  /** A key that was taken from the store is gone from it, and nothing else has changed. */
  lemma StoredKeyFailure(s: Session, header: Header, ciphertext: Ciphertext, newKey: DhSecret, other: Slot)
    requires Bounded(s.store) && Find(s.store, SlotOf(header)).Some?
    requires Decrypt(s, header, ciphertext, newKey).result.Err?
    ensures var failed := Decrypt(s, header, ciphertext, newKey);
            && failed.result == Err(OpenFailed) && failed.after == s.(store := failed.after.store)
            && Find(failed.after.store, other) == if other == SlotOf(header) then None else Find(s.store, other)
  {
    FindWithout(s.store, SlotOf(header), other);
  }

  /** On the receiving chain: too long a gap or a missing chain changes nothing. A call that gets as far as opening
      leaves the counter at the header's number, if that is ahead, and the chain one step further, with the keys in
      between stored. */
  lemma ChainFailure(s: Session, header: Header, ciphertext: Ciphertext)
    requires ReceiveCurrent(s, header, ciphertext).result.Err?
    ensures var failed, gap := ReceiveCurrent(s, header, ciphertext), Beyond(s, header.messageNumber);
            if gap > 1000 then failed.after == s && failed.result == Err(TooManySkipped(gap))
            else if s.receivingChain.None? then failed.after == s && failed.result == Err(NoReceivingChain)
            else
              && failed.result == Err(OpenFailed)
              && failed.after == s.(recvNumber := s.recvNumber + gap,
                                    receivingChain := Some(Advance(s.receivingChain.value, gap + 1)),
                                    store := failed.after.store)
              && failed.after.store ==
                 PutAll(s.store, ConsecutiveKeys(RemoteHex(s), s.receivingChain.value, s.recvNumber, gap))
  {
    hide ToBytes, HexEncode;
    assert s.receivingChain.Some? ==> ConsecutiveKeys(RemoteHex(s), s.receivingChain.value, s.recvNumber, 0) == [];
  }

  /** With a new ratchet key: too long a gap on the old chain changes nothing; a key too short is found out after the
      old chain is completed and the counters are turned over; and after the root has moved on, the call fails on the
      new chain as `ChainFailure` says. */
  lemma NewKeyFailure(s: Session, header: Header, ciphertext: Ciphertext, newKey: DhSecret)
    requires Find(s.store, SlotOf(header)).None? && s.dhRemote != Some(header.dhPublic)
    requires Decrypt(s, header, ciphertext, newKey).result.Err?
    ensures var failed, gap := Decrypt(s, header, ciphertext, newKey), Beyond(s, header.previousChainLength);
            if gap > 1000 then failed.after == s && failed.result == Err(TooManySkipped(gap))
            else
              var completed := if s.receivingChain.None? then s
                               else s.(receivingChain := Some(Advance(s.receivingChain.value, gap)),
                                       recvNumber := s.recvNumber + gap,
                                       store := PutAll(s.store, ConsecutiveKeys(RemoteHex(s), s.receivingChain.value,
                                                                                s.recvNumber, gap)));
              if |header.dhPublic| < 32
              then failed.result == Err(ShortPublicKey)
                   && failed.after == completed.(dhRemote := Some(header.dhPublic), previousLength := s.sendNumber,
                                                 sendNumber := 0, recvNumber := 0)
              else failed == ReceiveCurrent(DhRatchet(completed, header.dhPublic, newKey), header, ciphertext)
  {
    hide ToBytes, HexEncode, ReceiveCurrent;
    assert s.receivingChain.Some? ==> ConsecutiveKeys(RemoteHex(s), s.receivingChain.value, s.recvNumber, 0) == [];
  }

  // -------------------------------------------------------------- keeping a failed state

  /** The key one step further on is another key. */
  lemma NextKeyDiffers(chain: ChainKey, n: nat)
    ensures KeyAt(chain, n + 1) != KeyAt(chain, n)
  {
    AdvanceGrows(chain, n);
    AdvanceGrows(chain, n + 1);
  }

  /** A failed opening on the receiving chain leaves the chain one step past the counter: the next call for the same
      header opens with the key after the right one. */
  lemma StuckOnChain(s: Session, header: Header, raw: Bytes)
    requires s.receivingChain.Some? && s.dhRemote == Some(header.dhPublic) && Bounded(s.store)
    requires Find(s.store, SlotOf(header)).None?
    requires s.recvNumber <= header.messageNumber <= s.recvNumber + 1000
    ensures var failed := ReceiveCurrent(s, header, Garbage(raw));
            && failed.result == Err(OpenFailed)
            && KeyFor(failed.after, header) ==
               Some(KeyAt(s.receivingChain.value, header.messageNumber - s.recvNumber + 1))
  {
    hide PutAll, ConsecutiveKeys, HexEncode, Find, ToBytes;
    var chain, count := s.receivingChain.value, header.messageNumber - s.recvNumber;
    SkippedFinds(s.store, RemoteHex(s), chain, s.recvNumber, count, SlotOf(header));
    AdvanceAdds(chain, count, 1);
    var failed := ReceiveCurrent(s, header, Garbage(raw));
    assert failed.after.receivingChain == Some(Advance(chain, count + 1));
    AdvanceAdds(chain, count + 1, 0);
  }

  /** Completing the old chain stores nothing under the new ratchet key. */
  lemma TurnedHoldsNothing(s: Session, header: Header, newKey: DhSecret)
    requires Bounded(s.store) && Find(s.store, SlotOf(header)).None? && s.dhRemote != Some(header.dhPublic)
    requires |header.dhPublic| >= KEY_LENGTH && SkipMissed(s, header.previousChainLength).Ok?
    ensures var turned := DhRatchet(SkipMissed(s, header.previousChainLength).value, header.dhPublic, newKey);
            && Bounded(turned.store) && Find(turned.store, SlotOf(header)).None? && turned.recvNumber == 0
            && turned.receivingChain == Some(Seed(s.root, DiffieHellman(s.dhSecret, X25519Key(header.dhPublic))))
            && turned.dhRemote == Some(header.dhPublic)
  {
    if s.receivingChain.Some? && header.previousChainLength >= s.recvNumber {
      SkippedFinds(s.store, RemoteHex(s), s.receivingChain.value, s.recvNumber,
                   header.previousChainLength - s.recvNumber, SlotOf(header));
      assert HexDecode(RemoteHex(s)) == if s.dhRemote.Some? then s.dhRemote.value else [];
      assert HexDecode(SlotOf(header).dhHex) == header.dhPublic;
    }
  }

  /** Whatever the way to the key, after the failure the session no longer has it. */
  lemma FailureForgetsTheKey(s: Session, header: Header, raw: Bytes, newKey: DhSecret)
    requires Bounded(s.store) && Find(s.store, SlotOf(header)).None? && KeyFor(s, header).Some?
    requires s.dhRemote == Some(header.dhPublic) ==> s.recvNumber <= header.messageNumber
    ensures var failed := Decrypt(s, header, Garbage(raw), newKey);
            failed.result == Err(OpenFailed) && KeyFor(failed.after, header) != KeyFor(s, header)
  {
    hide Bounded, Find, PutAll, ConsecutiveKeys, HexEncode, ToBytes, ReceiveCurrent;
    var n := header.messageNumber;
    if s.dhRemote == Some(header.dhPublic) {
      StuckOnChain(s, header, raw);
      NextKeyDiffers(s.receivingChain.value, n - s.recvNumber);
    } else {
      TurnedHoldsNothing(s, header, newKey);
      var turned := DhRatchet(SkipMissed(s, header.previousChainLength).value, header.dhPublic, newKey);
      StuckOnChain(turned, header, raw);
      NextKeyDiffers(turned.receivingChain.value, n);
    }
  }

  lemma TakenKeyIsGone(sys: System, p: Party, j: nat, n: nat, raw: Bytes, newKey: DhSecret)
    requires Inv(sys) && IsSent(sys.log, j, n) && j % 2 != Parity(p)
    requires Find(SessionOf(sys, p).store, SlotOf(sys.log.chains[j][n].header)).Some?
    ensures var s, header := SessionOf(sys, p), sys.log.chains[j][n].header;
            var failed := Decrypt(s, header, Garbage(raw), newKey);
            failed.result == Err(OpenFailed) && KeyFor(failed.after, header) != Some(KeyAt(SeedAt(sys.log, j), n))
  {
    PartyFacts(sys, p);
    HeaderOf(sys.log, j, n);
    hide HexEncode, ToBytes, Find, Without;
    var s, g, slot := SessionOf(sys, p), Turn(sys.log, p), SlotAt(sys.log, j, n);
    assert SlotOf(sys.log.chains[j][n].header) == slot;
    var after := s.(store := Without(s.store, slot));
    HeldIsBehind(sys.log, sys.receipts, g, s.recvNumber, s.store, j, n);
    StoreAfterTake(sys.log, sys.receipts, g, s.recvNumber, s.store, slot);
    assert InStep(sys.log, g, after);
    KeyForGenuine(sys.log, sys.receipts, g, after, j, n);
  }

  /** In every reachable state and for every message the receiver is ready for, whether its key is stored, lies ahead on
      the current chain, or is on a new chain: one undecryptable ciphertext under its header, and the object that kept
      the failed call's state refuses the genuine message, which the untouched session accepts. */
  lemma KeepingTheFailedStateLosesTheMessage(sys: System, p: Party, j: nat, n: nat, raw: Bytes, newKey: Bytes,
                                             nextKey: Bytes)
    requires Inv(sys) && IsSent(sys.log, j, n) && j % 2 != Parity(p) && ReadyFor(sys, p, j, n)
    ensures var s, m := SessionOf(sys, p), sys.log.chains[j][n];
            var failed := Decrypt(s, m.header, Garbage(raw), DhSecret(newKey));
            && failed.result == Err(OpenFailed)
            && Decrypt(s, m.header, m.ciphertext, DhSecret(newKey)).result == Ok(m.plaintext)
            && Decrypt(failed.after, m.header, m.ciphertext, DhSecret(nextKey)).result.Err?
  {
    assert Shaped(sys.log);
    hide *;
    var s, m := SessionOf(sys, p), sys.log.chains[j][n];
    var failed := Decrypt(s, m.header, Garbage(raw), DhSecret(newKey));
    GenuineIffReady(sys, p, j, n, newKey);
    ReadyHasKey(sys, p, j, n);
    if Find(s.store, SlotOf(m.header)).Some? {
      TakenKeyIsGone(sys, p, j, n, raw, DhSecret(newKey));
    } else {
      ReadyWhere(sys, p, j, n);
      FailureForgetsTheKey(s, m.header, raw, DhSecret(newKey));
    }
    DecryptOpensWith(failed.after, m.header, m.ciphertext, DhSecret(nextKey));
    OpensWithItsKeyOnly(m.ciphertext, KeyAt(SeedAt(sys.log, j), n), KeyFor(failed.after, m.header), m.header);
  }

  lemma ReadyHasKey(sys: System, p: Party, j: nat, n: nat)
    requires Inv(sys) && IsSent(sys.log, j, n) && j % 2 != Parity(p) && ReadyFor(sys, p, j, n)
    ensures 0 < j < |sys.log.keys| && Bounded(SessionOf(sys, p).store)
    ensures KeyFor(SessionOf(sys, p), sys.log.chains[j][n].header) == Some(KeyAt(SeedAt(sys.log, j), n))
    ensures sys.log.chains[j][n].ciphertext.Sealed?
    ensures sys.log.chains[j][n].ciphertext.key == KeyAt(SeedAt(sys.log, j), n)
  {
    PartyFacts(sys, p);
    assert MessageOk(sys.log, j, n);
    KeyForGenuine(sys.log, sys.receipts, Turn(sys.log, p), SessionOf(sys, p), j, n);
  }

  lemma OpensWithItsKeyOnly(ciphertext: Ciphertext, right: MessageKey, key: Option<MessageKey>, header: Header)
    requires ciphertext.Sealed? && ciphertext.key == right && key != Some(right)
    ensures key.Some? ==> OpenResult(ciphertext, key.value, header).Err?
  {
  }
}
