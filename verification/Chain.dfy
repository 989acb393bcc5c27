/** `ratchet/chain.rs`: one symmetric step at a time. */
module Chain {
  import opened SymbolicCrypto

  class Chain {
    ghost const seed: ChainKey
    var chainKey: ChainKey
    var messageNumber: nat

    /** The chain key is the seed advanced once for every key handed out. */
    ghost predicate Valid()
      reads this
    {
      chainKey == Advance(seed, messageNumber)
    }

    constructor (chainKey: ChainKey)
      ensures Valid() && seed == chainKey && messageNumber == 0
    {
      this.seed := chainKey;
      this.chainKey := chainKey;
      this.messageNumber := 0;
    }

    method AdvanceOnce() returns (key: MessageKey)
      requires Valid()
      modifies this
      ensures Valid() && messageNumber == old(messageNumber) + 1
      ensures key == KeyAt(seed, old(messageNumber)) == MessageKey(old(chainKey)) && chainKey ==
          NextChain(old(chainKey))
    {
      var (next, messageKey) := DeriveChainKey(chainKey);
      chainKey := next;
      messageNumber := messageNumber + 1;
      key := messageKey;
    }
  }
}
