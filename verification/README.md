# Verified model of the hysj protocol core

This project models the parts of hysj whose correctness depends on many calls working together, and proves what they
promise over whole runs.

**The Double Ratchet session.** `RatchetSession` says what each call of `ratchet/double_ratchet.rs` leaves behind and
returns; `RatchetState` is the object that is updated in place, `SkippedKeys.Cache` its bounded store of skipped keys
and `Chain.Chain` the one-step chain. Keys are free terms (`SymbolicCrypto`): a key is the way it was derived, a
Diffie-Hellman output is the unordered pair of its two public keys, and a ciphertext opens with the key and the
associated data it was sealed with and with nothing else. The associated data is the real JSON text of the header, byte
by byte, and so is the hex text that names a stored key (`ByteText`, `MessageHeader`). `SessionSteps` states
single calls in terms of the key derivations.

`TwoParty` puts two sessions on a network that reorders, drops, repeats and recombines. In every step a party
encrypts, or is handed any header with any ciphertext the network can have: one that was sent, bytes that are no
ciphertext, or one sealed under a key that does not descend from the agreed secret. A failed call is discarded with the
copy it ran on, as `native/src/api.rs` does. `TwoParty.Inv` is the invariant: both sessions are in lockstep with one
sequence of root keys, every stored key belongs to a message that was jumped over and not received, and every receipt is
a message of the peer. `SystemInvariant` shows that every step keeps it, `Eviction` that of the messages passed by and
not received exactly those whose key overflowed out of the store are out of reach, and `Agreement` draws the conclusions
for runs. `RunRetention` says how long a stored key lasts in a conversation, and `Overflow` gives a run that loses one.

**The envelope.** `Suite` stands for any primitives that obey their laws, on real bytes. `X3dh`, `Sealed` and `Onion`
model the handshake, the sealed envelope and the onion with their real framing, and `Envelope` composes them with the
ratchet: from the handshake to the plaintext behind the last relay.

**The rate limiter.** `RateLimiter.Limiter` is the pruned log of admissions, and its reference is a limiter that never
forgets and is never swept.

**The message queue.** `Queue` models the drain as a protocol of single Redis commands interleaved with enqueues,
acknowledgements, expiry and failing commands. An entry is one SET, so an id may be sent again at any time.
`RedisQueue.Store` runs the commands and loops of `queue.rs` and is proved to follow the protocol.

## What is true only under a condition

Where the code does not do what one might expect of it, the model follows the code and the exact condition is proved.

- `serialize` panics on a session that holds a skipped key, because a map with tuple keys has no JSON form
  (`SessionJson.PersistenceRoundTrip`). Passing every session through its written form is invisible if and only if no
  accepted message is ahead of another (`Persistence.PersistenceTransparentIffInOrder`).
- A skipped key is evicted when a delivery stores more keys than fit. Which keys that costs can be told before the
  call (`Eviction.EvictedBy`), and a message is out of reach for exactly that reason besides the two gap limits and
  having been received (`Agreement.WholeRunAgreement`); `Overflow.OverflowLosesAMessage` is an input.
- `decrypt` leaves the object changed on most errors (`DecryptFailure.UnchangedIffRefusedAtOnce`), and a caller that
  kept it would refuse a genuine message later (`DecryptFailure.KeepingTheFailedStateLosesTheMessage`).
- Relays that act on the hops they read deliver if and only if no relay after the first has the address "FINAL"
  (`Onion.DeliversIffNoFinalAddress`).
- A queued message is lost in three ways and no other (`Queue.Conservation`, `Queue.NothingLostIffHarmless`): a SET
  overwrites an entry that was not read, which takes two clients that enqueue one id at the same time
  (`RedisQueue.RacingEnqueuesLoseOne`); the DEL of a drain deletes an entry that was set after its GET
  (`Queue.ResentIdVanishes`); or a command of `dequeue_all` fails after it has deleted an entry, or after the one
  it has read was removed.
- A sweep of the rate limiter can be observed for exactly the keys whose window is longer than the sweep age and whose
  limit is not zero (`RateLimiter.SweepsUnobservableIff`).

Two comments of the repository say more than the code does. `THREAT_MODEL.md:15` speaks of new Diffie-Hellman keys
with every message; the code makes one when the peer's key has changed. `crates/hysj-crypto/src/sealed.rs:122` speaks
of verifying when a key is provided; the code verifies only with a key of 32 bytes and a certificate of 64.

## Model

| member | source | states |
|---|---|---|
| ByteText.HexEncode | crates/hysj-crypto/src/ratchet/double_ratchet.rs:292-294 | the hex text has two characters a byte and decodes to the input, so keys with different bytes never share a place in the store |
| ByteText.HexText | crates/hysj-crypto/src/ratchet/double_ratchet.rs:292-294 | each byte is two lower-case digits, the high one first |
| ByteText.BytesRoundTrip | crates/hysj-crypto/src/onion.rs:72-77 | a byte vector in compact JSON reads back as itself whatever follows it |
| ByteText.BytesExact | crates/hysj-crypto/src/onion.rs:72-77 | exactly the text of a byte vector reads as it, so the reader accepts nothing else |
| ByteText.ArrayText | crates/hysj-crypto/src/onion.rs:72-77 | the text: decimal numbers in brackets, separated by commas, without spaces |
| ByteText.StringRoundTrip | crates/hysj-crypto/src/sealed.rs:58-64 | a JSON string with every quote, backslash and control byte escaped reads back as itself whatever follows it |
| ByteText.StringExact | crates/hysj-crypto/src/sealed.rs:58-64 | exactly the text of a string reads as it |
| ByteText.EscapeText | crates/hysj-crypto/src/sealed.rs:58-64 | the text of each byte: the short escapes where there are any, six characters for the other control bytes, itself otherwise |
| SymbolicCrypto.AdvanceRemembers | crates/hysj-crypto/src/kdf.rs:42-46 | from a chain key one can tell the chain it belongs to and the number of steps taken, so no two positions share a key |
| MessageHeader.HeaderRoundTrip | crates/hysj-crypto/src/ratchet/header.rs:25-27 | the header text can be read back into all three fields |
| MessageHeader.HeaderBytesInjective | crates/hysj-crypto/src/ratchet/header.rs:25-27 | two headers with the same associated data are equal, so the tag authenticates every field |
| MessageHeader.HeaderText | crates/hysj-crypto/src/ratchet/header.rs:25-27 | the text used as associated data has the three fields by name, in this order, without spaces |
| MessageHeader.HeaderExact | native/src/api.rs:157-158 | exactly the text of a header reads as that header |
| SkippedKeys.PutBounded | crates/hysj-crypto/src/ratchet/skipped.rs:30-53 | insertion keeps the store free of duplicates and at 1000 entries at most |
| SkippedKeys.FindPut | crates/hysj-crypto/src/ratchet/skipped.rs:30-53 | after an insertion the new key is found and every other lookup is as before, except that a new key in a full store costs exactly the oldest entry |
| SkippedKeys.FindWithout | crates/hysj-crypto/src/ratchet/skipped.rs:56-64 | after a take the slot is gone and every other lookup is as before |
| SkippedKeys.EvictKeepsPairing | crates/hysj-crypto/src/ratchet/skipped.rs:39-49 | evicting the head of the order vector removes the same, oldest entry from map and vector and shrinks the map by one |
| SkippedKeys.Cache.constructor | crates/hysj-crypto/src/ratchet/skipped.rs:22-27 | a new store is empty |
| SkippedKeys.Cache.Insert | crates/hysj-crypto/src/ratchet/skipped.rs:30-53 | map and order vector together refine insertion into the bounded first-in-first-out list; the `break` of the eviction loop is never reached |
| SkippedKeys.Cache.Take | crates/hysj-crypto/src/ratchet/skipped.rs:56-64 | returns what the list holds for the slot and removes exactly that entry from both fields |
| SkippedKeys.Cache.Contains | crates/hysj-crypto/src/ratchet/skipped.rs:67-70 | true exactly for the slots a take would return |
| SkippedKeys.Cache.Len | crates/hysj-crypto/src/ratchet/skipped.rs:73-75 | the size of the map is the length of the list and never exceeds 1000 |
| StoreRetention.SurvivesWithinSlack | crates/hysj-crypto/src/ratchet/skipped.rs:39-64 | a key that is not taken survives any interleaving of takes, overwrites and as many new insertions as there is free room plus older entries |
| StoreRetention.RetainedFor999 | crates/hysj-crypto/src/ratchet/skipped.rs:39-52 | a newly skipped key survives any 999 further insertions of new keys |
| StoreRetention.EvictedBeyondSlack | crates/hysj-crypto/src/ratchet/skipped.rs:39-52 | the bound is exact: with nothing taken, the key is there if and only if the new insertions did not exceed it |
| Chain.Chain.AdvanceOnce | crates/hysj-crypto/src/ratchet/chain.rs:23-34 | the n-th call returns the n-th message key of the seed |
| RatchetSession.DecryptOpensWith | crates/hysj-crypto/src/ratchet/double_ratchet.rs:123-178 | decryption succeeds exactly when the state and header determine a key and the ciphertext opens under it, and then with that plaintext |
| RatchetSession.ConsecutiveKeysStep | crates/hysj-crypto/src/ratchet/double_ratchet.rs:239-244 | one more number to catch up on is one more insertion of the next key of the chain, after all the others |
| SessionSteps.Derivations | crates/hysj-crypto/src/kdf.rs:28-46 | a root step gives the next root and a chain from the same inputs, a chain step the next chain key and the message key of the current one |
| SessionSteps.InitSenderExact | crates/hysj-crypto/src/ratchet/double_ratchet.rs:41-65 | the sender starts one root step from the secret with the first 32 bytes of the recipient's key, and remembers the whole key |
| SessionSteps.InitReceiverExact | crates/hysj-crypto/src/ratchet/double_ratchet.rs:71-86 | the receiver starts at the secret, with its key pair and no chain |
| SessionSteps.EncryptExact | crates/hysj-crypto/src/ratchet/double_ratchet.rs:91-120 | the ciphertext is sealed under the message key of the current chain key with the header's text, the header carries the current numbers, and without a chain nothing changes |
| SessionSteps.DhRatchetExact | crates/hysj-crypto/src/ratchet/double_ratchet.rs:181-216 | the receiving chain comes from the old key, the sending chain from the new one and the root in between, with the counters turned over |
| SessionSteps.FirstMessagesArrive | crates/hysj-crypto/src/ratchet/double_ratchet.rs:41-178 | for any two 32-byte keys the first message decrypts at the receiver, and the receiver's first answer at the sender |
| RatchetState.RatchetState.InitSender | crates/hysj-crypto/src/ratchet/double_ratchet.rs:41-65 | the sender's object stands for the session after one root step with the recipient's key |
| RatchetState.RatchetState.InitReceiver | crates/hysj-crypto/src/ratchet/double_ratchet.rs:71-86 | the receiver's object stands for the session with the bare secret and no chain |
| RatchetState.RatchetState.Encrypt | crates/hysj-crypto/src/ratchet/double_ratchet.rs:91-120 | the object moves as the session function says; without a sending chain it is refused and unchanged |
| RatchetState.RatchetState.Decrypt | crates/hysj-crypto/src/ratchet/double_ratchet.rs:123-178 | in-place updates, early exits and partial changes on errors give exactly the state and result of the session function |
| RatchetState.RatchetState.ReceiveFromChain | crates/hysj-crypto/src/ratchet/double_ratchet.rs:154-177 | catch up, derive and open on the receiving chain; the chain moves even if opening fails, the counter only if it succeeds |
| RatchetState.RatchetState.DhRatchet | crates/hysj-crypto/src/ratchet/double_ratchet.rs:181-216 | two root steps, one with the old key and one with the new; a short peer key stops it with the counters already turned over |
| RatchetState.RatchetState.SkipMissedMessages | crates/hysj-crypto/src/ratchet/double_ratchet.rs:219-250 | stores exactly the keys numbered from the counter up to the target, in order, and leaves the chain where single steps would; a gap over 1000 changes nothing |
| RatchetState.RatchetState.StoreSkipped | crates/hysj-crypto/src/ratchet/double_ratchet.rs:239-244 | the loop of single derivations and insertions equals inserting the whole list of consecutive keys |
| TwoParty.StartInv | crates/hysj-crypto/src/ratchet/double_ratchet.rs:41-86 | two sessions initialised from one secret satisfy the system invariant |
| TwoParty.LinkAgrees | crates/hysj-crypto/src/ratchet/double_ratchet.rs:189-207 | the two ends of each link in the sequence of ratchet keys compute the same Diffie-Hellman output |
| TwoParty.ChainKeysDiffer | crates/hysj-crypto/src/kdf.rs:28-46 | keys at different positions of any chains of a conversation differ, and all descend from its secret |
| Acceptance.OpenedWasSent | crates/hysj-crypto/src/cipher.rs:39-63 | a ciphertext that opens under a key descending from the secret is a sent message, with its header and its plaintext |
| Acceptance.AcceptedIsGenuine | crates/hysj-crypto/src/ratchet/double_ratchet.rs:123-178 | whatever pair is delivered, a success is one unchanged message of the peer that the receiver was ready for |
| Acceptance.GenuineIffReady | crates/hysj-crypto/src/ratchet/double_ratchet.rs:123-178 | a message of the peer decrypts to its plaintext exactly when its key is stored, or it lies ahead on the current or the next chain within the gap limits |
| Acceptance.AcceptsExactly | crates/hysj-crypto/src/ratchet/double_ratchet.rs:123-178 | both directions for every header and every available ciphertext |
| SystemInvariant.StepKeepsInv | crates/hysj-crypto/src/ratchet/double_ratchet.rs:91-250 | every encryption and every delivery, accepted or not, keeps both sessions in lockstep, the stores sound and the receipts genuine and distinct |
| Eviction.PutAllIsNewest | crates/hysj-crypto/src/ratchet/skipped.rs:39-52 | storing keys with new slots one after the other leaves the last 1000 of the old entries followed by the new ones |
| Eviction.PutAllExact | crates/hysj-crypto/src/ratchet/double_ratchet.rs:239-244 | after a catch-up a key is there exactly if it was stored or jumped over and its place is among the last 1000 |
| Eviction.StepKeepsKept | crates/hysj-crypto/src/ratchet/double_ratchet.rs:123-250 | every event keeps that of the messages a party passed by and has not received exactly those not evicted have their key stored, and adds to the evicted ones just what the session and header announce |
| Agreement.OnlySentOnce | native/src/api.rs:145-165 | in every run with reordering, loss, replay and recombined pairs, what a party accepted was sent by the other, came back as sent, and was accepted once |
| Agreement.NextDeliveryExact | native/src/api.rs:145-165 | after every run, the next delivery is accepted if and only if it is a genuine message the receiver is ready for |
| Agreement.KeysNeverRepeat | crates/hysj-crypto/src/ratchet/double_ratchet.rs:91-120 | no two encryptions of a run use the same message key, nor the same pair of ratchet key and number |
| Agreement.RootsStayAdjacent | crates/hysj-crypto/src/ratchet/double_ratchet.rs:181-216 | at every point one root is one root step after the other, and the party ahead receives on the very chain its peer sends on, advanced by its counter |
| Agreement.PreviousLengthIsFinal | crates/hysj-crypto/src/ratchet/double_ratchet.rs:184-186 | the previous-chain length of every header is the final number of messages on that party's chain before |
| Agreement.WholeRunAgreement | crates/hysj-crypto/src/ratchet/double_ratchet.rs:41-250 | in every run, a message of the peer decrypts to exactly its plaintext if and only if it was not received before, no gap to it exceeds 1000, and its key was not evicted |
| Agreement.EvictsNothingIffRoomy | crates/hysj-crypto/src/ratchet/skipped.rs:39-49 | a run evicts nothing of a party if and only if each delivery accepted by that party finds room for the keys it jumps over |
| RunRetention.AcceptedStores | crates/hysj-crypto/src/ratchet/double_ratchet.rs:130-155 | what an accepted call does to the store is one take, or the insertions of the keys it jumps over, old chain first |
| RunRetention.RetainedOverRuns | crates/hysj-crypto/src/ratchet/skipped.rs:39-64 | from any reachable state a message with a stored key stays decryptable until it is received, as long as no more keys are jumped over than its place in the store allows |
| RunRetention.LastStoredRetainedFor999 | crates/hysj-crypto/src/ratchet/skipped.rs:39-52 | in every conversation the key stored last survives any further run that jumps over at most 999 keys |
| Overflow.OverflowLosesAMessage | crates/hysj-crypto/src/ratchet/skipped.rs:39-49 | there is a legal run with both gaps within the limit after which a genuine message that was never received is refused |
| DecryptFailure.UnchangedIffRefusedAtOnce | crates/hysj-crypto/src/ratchet/double_ratchet.rs:123-178 | a failed call leaves the session unchanged if and only if it was refused before its first update |
| DecryptFailure.StoredKeyFailure | crates/hysj-crypto/src/ratchet/double_ratchet.rs:130-141 | a failed opening with a stored key removes that key and changes nothing else |
| DecryptFailure.ChainFailure | crates/hysj-crypto/src/ratchet/double_ratchet.rs:154-172 | too long a gap or a missing chain changes nothing; a failed opening leaves the counter at the header's number, the chain one step further, and the keys in between stored |
| DecryptFailure.NewKeyFailure | crates/hysj-crypto/src/ratchet/double_ratchet.rs:149-178 | with a new ratchet key: which error comes first, and what each leaves behind |
| DecryptFailure.KeepingTheFailedStateLosesTheMessage | crates/hysj-crypto/src/ratchet/double_ratchet.rs:123-178 | in every reachable state and for every message the receiver is ready for, stored, ahead or on a new chain, one undecryptable ciphertext under its header makes the kept object refuse the message the untouched one accepts |
| OrderIndependence.StateDependsOnSet | crates/hysj-crypto/src/ratchet/double_ratchet.rs:123-250 | among the next messages of a chain, in whatever order they arrive, the session is determined by the set that has arrived |
| OrderIndependence.EachYieldsItsPlaintext | crates/hysj-crypto/src/ratchet/double_ratchet.rs:123-178 | in any order, each of them decrypts to its own plaintext |
| OrderIndependence.AnyPermutation | crates/hysj-crypto/src/ratchet/double_ratchet.rs:123-250 | any two orders of the next N at most 1000 messages end in the same session, with the store empty again and the chain N steps on |
| OrderIndependence.ConversationOrder | crates/hysj-crypto/src/ratchet/double_ratchet.rs:123-250 | after every run that leaves a party's store empty, its waiting messages of the peer's chain can arrive in any order with the same plaintexts and the same final session |
| SessionJson.WriteMapIff | crates/hysj-crypto/src/ratchet/skipped.rs:13-18 | any map can be written exactly if each of its keys can name a member of an object |
| SessionJson.PersistenceRoundTrip | crates/hysj-crypto/src/ratchet/double_ratchet.rs:253-261 | exactly the sessions without skipped keys can be written, and reading one back gives the session |
| SessionJson.SessionText | crates/hysj-crypto/src/ratchet/double_ratchet.rs:20-34 | the document has the ten fields by name, in this order, null where there is nothing |
| SessionJson.SessionExact | crates/hysj-crypto/src/ratchet/double_ratchet.rs:253-261 | exactly what is written for a session reads as that session |
| NativeApi.RatchetEncrypt | native/src/api.rs:121-141 | refused when the session does not read or has no sending chain; otherwise the ratchet's ciphertext, its header as text, and the session it leaves, written |
| NativeApi.RatchetDecrypt | native/src/api.rs:145-165 | a success if and only if the session and the header text read, the ratchet decrypts, and no skipped key is left; then that plaintext and that session, and each refusal has its own error |
| Persistence.StaysEmptyIff | crates/hysj-crypto/src/ratchet/double_ratchet.rs:123-250 | an accepted call keeps the store empty exactly when it jumps over no message |
| Persistence.WrittenCallExact | native/src/api.rs:121-165 | a call on a written session does what the call in memory does unless it jumps over a message, and then it gives nothing |
| Persistence.PersistenceTransparentIffInOrder | native/src/api.rs:121-165 | passing every session of a run through its written form changes no output if and only if no accepted message is ahead of another |
| Persistence.TextsAreCovered | native/src/api.rs:157-162 | a text that is no header is refused and moves nothing, and every other text is a delivery of the two-party system |
| Persistence.InOrderIsTheNextMessage | crates/hysj-crypto/src/ratchet/double_ratchet.rs:143-155 | in the conversation that means: the very next message of the current chain, or the first of the next chain after the current one is complete |
| Persistence.RefusedCallsLeaveNoTrace | native/src/api.rs:121-165 | leaving the refused calls out of a run on written sessions gives the same sessions and the same answers to all others |
| Persistence.StepMovesSessions | native/src/api.rs:121-165 | the sessions of the two-party system move exactly as these calls do |
| Suite.LawsAreConsistent | crates/hysj-crypto/src/cipher.rs:12-63 | the laws asked of the primitives can be met together |
| Suite.CipherRoundTrip | crates/hysj-crypto/src/cipher.rs:12-63 | nonce, ciphertext and tag cost 40 bytes and come apart again into the plaintext |
| Suite.BoxRoundTrip | crates/hysj-crypto/src/sealed.rs:43-74 | the holder of the secret recovers the text from ephemeral key and ciphertext, at a cost of 72 bytes |
| Suite.CipherDecryptExact | crates/hysj-crypto/src/cipher.rs:39-63 | below 40 bytes refused, otherwise the AEAD decides with the first 24 bytes as nonce |
| Suite.BoxFrame | crates/hysj-crypto/src/sealed.rs:43-74 | ephemeral public key, nonce, and the text sealed under the key derived from the Diffie-Hellman output of the two, with no associated data |
| Suite.UnboxExact | crates/hysj-crypto/src/sealed.rs:98-116 | for every blob, it opens exactly when the AEAD opens what follows the first 56 bytes under the key derived from the secret and the first 32 |
| X3dh.TranscriptsAgree | crates/hysj-crypto/src/x3dh.rs:65-172 | both sides concatenate the same Diffie-Hellman and KEM secrets in the same order, with or without a one-time pre-key |
| X3dh.HandshakeAgrees | crates/hysj-crypto/src/x3dh.rs:65-172 | for matching key material the response to what the initiator sends succeeds with the same shared secret |
| X3dh.InitiateExact | crates/hysj-crypto/src/x3dh.rs:65-118 | the secret is derived from DH1, DH2, DH3, DH4 if there is one, and the KEM secret, in this order, under the fixed salt; and all the ways it is refused, the first key of the wrong length being reported |
| X3dh.RespondExact | crates/hysj-crypto/src/x3dh.rs:123-172 | the same for the responder with its secrets at the other ends, including the refusal when decapsulation fails |
| X3dh.CombinedInjective | crates/hysj-crypto/src/x3dh.rs:99-107 | equal concatenations have equal parts, and one with a one-time pre-key never equals one without |
| Sealed.InnerRoundTrip | crates/hysj-crypto/src/sealed.rs:57-64 | the inner record reads back as itself for every sender id, certificate and plaintext |
| Sealed.InnerExact | crates/hysj-crypto/src/sealed.rs:57-64 | exactly the text with the three fields by name, in this order, reads as the record |
| Sealed.SealFrame | crates/hysj-crypto/src/sealed.rs:30-75 | the blob in terms of the primitives, under the label of sealed sender; a recipient key of another length than 32 is refused |
| Sealed.OpenExact | crates/hysj-crypto/src/sealed.rs:81-151 | for every blob, secret and verification key: a content is returned exactly when the AEAD opens the blob, the text is that content's, and a 64-byte certificate does not fail under a 32-byte key; and how each refusal reads |
| Sealed.OpenUndoesSeal | crates/hysj-crypto/src/sealed.rs:30-151 | opening what was sealed is refused exactly when key and certificate have 32 and 64 bytes and the key is none or does not verify the certificate over the sender id; otherwise the content comes back |
| Onion.WrapOnion | crates/hysj-crypto/src/onion.rs:34-90 | the reverse loop's packet is the wrapping of the remaining route; an empty route is refused, and so is a wrong key, the last one of the route being reported |
| Onion.LayerRoundTrip | crates/hysj-crypto/src/onion.rs:71-77 | a layer reads back as itself, whatever bytes the address holds |
| Onion.LayerExact | crates/hysj-crypto/src/onion.rs:71-77 | exactly the text with the two fields by name, in this order, reads as the layer |
| Onion.PacketFrame | crates/hysj-crypto/src/onion.rs:42-87 | each packet in terms of the primitives: ephemeral key, nonce, and the layer naming the next relay or "FINAL" and holding the next packet or the payload, sealed under the key derived for that relay |
| Onion.UnwrapUndoesWrap | crates/hysj-crypto/src/onion.rs:96-132 | a relay that holds the secret recovers the next hop and the inner packet |
| Onion.UnwrapExact | crates/hysj-crypto/src/onion.rs:96-132 | for every packet and secret: a layer is peeled exactly when the AEAD opens the packet under the derived key and the text is that layer's; and how each refusal reads |
| Onion.OnionInverse | crates/hysj-crypto/src/onion.rs:34-132 | for every route, peeling in order reveals the addresses of relays 2 to k, then "FINAL", and leaves the payload |
| Onion.DeliversIffNoFinalAddress | crates/hysj-crypto/src/onion.rs:50-55 | relays that act on the hops deliver the payload if and only if no relay after the first is called "FINAL" |
| Onion.LayerSize | crates/hysj-crypto/src/onion.rs:71-86 | one layer maps n bytes to between 2n and 4n, plus a frame of 98 bytes, the escaped address and one or two more |
| Onion.OnionSize | crates/hysj-crypto/src/onion.rs:42-87 | over k hops the packet has at most 4^k times the payload plus c(4^k - 1)/3 bytes, and at least 2^k times the payload plus (2^k - 1) frames |
| Envelope.EnvelopeRoundTrip | crates/hysj-crypto/src/sealed.rs:30-151 | seal, wrap, peel every layer and open returns the same sender, certificate and payload if and only if the certificate passes |
| Envelope.CarriesMessages | crates/hysj-crypto/src/onion.rs:96-132 | with any packing that can be undone, relays carry header and ciphertext to the recipient unchanged |
| Envelope.HandshakeStarts | crates/hysj-crypto/src/x3dh.rs:123-172 | sessions started from the two ends of one handshake are sessions started from one secret |
| Envelope.AgreementThroughTheEnvelope | native/src/api.rs:145-257 | from a handshake through sealing, wrapping, relaying and decrypting, in every run, the plaintext arrives if and only if the certificate passes, the message is new, no gap to it exceeds 1000, and its key was not evicted |
| RateLimiter.Limiter.CheckRateLimit | crates/hysj-api/src/middleware/rate_limit.rs:24-44 | prunes the key's log in place, refuses at the limit, records an admission, and touches no other key |
| RateLimiter.Limiter.Cleanup | crates/hysj-api/src/middleware/rate_limit.rs:48-55 | prunes every log by age and drops exactly the keys left without times |
| RateLimiter.SweptKeeps | crates/hysj-api/src/middleware/rate_limit.rs:51-54 | a key remains exactly if one of its times is later than the cutoff, with exactly those times |
| RateLimiter.RefinesFullHistory | crates/hysj-api/src/middleware/rate_limit.rs:24-55 | over every run with sweeps of at least the key's window, the pruned log decides as "fewer than max admissions of the whole history within the window" |
| RateLimiter.NeverMoreThanMax | crates/hysj-api/src/middleware/rate_limit.rs:24-44 | every half-open interval as long as the window holds at most max admissions |
| RateLimiter.SweepsUnobservableIff | crates/hysj-api/src/middleware/rate_limit.rs:48-55 | no run lets a key's answers tell whether sweeps took place if and only if its window fits the sweep age or its limit is zero |
| RateLimiter.DeployedSweepUnobservable | crates/hysj-api/src/background/rate_limit_cleanup.rs:8-19 | the deployed hour covers every configured window, and one second less would show for the hour-long ones |
| RateLimiter.DeployedBounds | crates/hysj-shared/src/constants.rs:44-66 | with the configured limits and the deployed sweep, for every run: the number of admissions of each kind within any minute or hour |
| Queue.IdRecovered | crates/hysj-messaging/src/queue.rs:82-85 | the id comes back from the key, also when it contains ':', and a key that matches is the key of its id |
| Queue.KeyText | crates/hysj-messaging/src/queue.rs:24 | the key is `msg:`, the device, a colon and the id, and the pattern selects exactly the keys of this form |
| Queue.DevicesApart | crates/hysj-messaging/src/queue.rs:61-62 | no device's pattern selects another device's entry, and different device or message ids have different keys |
| Queue.StepKeepsInv | crates/hysj-messaging/src/queue.rs:17-122 | whatever the commands are, each entry is read at most once and what was read is not waiting to be read again |
| Queue.Conservation | crates/hysj-messaging/src/queue.rs:17-122 | after every run, with ids sent again at will, each entry ever set is in exactly one of four places (queued, with the drain, returned, removed before it was read), unless an event destroyed it, and then it is in none |
| Queue.NothingLostIffHarmless | crates/hysj-messaging/src/queue.rs:17-122 | all entries are in one of these places if and only if no SET met an unread entry, no DEL met an entry other than the one its GET returned, and no command failed with something at stake |
| Queue.ReturnedOnce | crates/hysj-messaging/src/queue.rs:57-109 | over all drains no entry is returned twice, and a returned message has the id and the bytes that were set and is no longer stored |
| Queue.PresentIsReturned | crates/hysj-messaging/src/queue.rs:57-109 | an entry queued when a drain begins, whose key others neither remove nor overwrite, is returned by the time it has finished, and is gone |
| Queue.ResentIdVanishes | crates/hysj-messaging/src/queue.rs:77-80 | an entry acknowledged and sent again between GET and DEL: the new one ends up in no place at all |
| RedisQueue.EnqueueHarmsOnlyInARace | crates/hysj-messaging/src/queue.rs:26-41 | the SET of an enqueue that found nothing stored destroys something only if another client set the same key in between |
| RedisQueue.RacingEnqueuesLoseOne | crates/hysj-messaging/src/queue.rs:26-41 | two clients that both find nothing stored under an id leave one entry, and the other is in no place |
| RedisQueue.Store.Enqueue | crates/hysj-messaging/src/queue.rs:17-51 | EXISTS and SET with others moving before each follow the protocol; an entry still queued is left alone, and no drain notices |
| RedisQueue.Store.DeleteMessage | crates/hysj-messaging/src/queue.rs:114-122 | true exactly if the entry was there when the command came; it is the protocol's removal of that key and nothing else |
| RedisQueue.Store.TakeKey | crates/hysj-messaging/src/queue.rs:77-92 | one key of a reply, read and deleted with others moving before each command, follows the protocol |
| RedisQueue.Store.DequeueAll | crates/hysj-messaging/src/queue.rs:57-109 | for any replies, interference and failures the loops give a run of the protocol that ends in this store and returns what that run returns |
| RedisQueue.CallReturnsWhatStayed | crates/hysj-messaging/src/queue.rs:57-109 | a finished call returns, once, every entry that was queued when it began and that nobody removed or overwrote meanwhile |

## Left out

- Integer width: message numbers and lengths are unbounded; the source's 32-bit counters would wrap after 2^32 messages on one chain.
- RatchetState.RatchetState.InitSender: requires a recipient key of at least 32 bytes; the source panics on a shorter one. In `decrypt` the shorter key is modelled, as the error `ShortPublicKey` in place of the panic.
- RatchetState.RatchetState.Decrypt: its steps 3 to 5 are a method of their own, and so is the loop of the catch-up.
- NativeApi.RatchetEncrypt: base64 around the arguments and results is outside the model; bytes and texts are passed as they are.
- NativeApi.RatchetDecrypt: base64 around the arguments and results is outside the model; bytes and texts are passed as they are.
- SessionJson.PersistenceRoundTrip: the session's JSON is a tree of values, not text, whose leaves are the symbolic keys themselves; a hand-made document with an order vector but no keys is read as malformed.
- Queue.PresentIsReturned: assumes that SCAN names every key present throughout a full iteration and that one drain at a time runs for a device.
- RateLimiter.RefinesFullHistory: calls come in the order of a clock that does not go back, and a key always comes with the same limit and window.
- X25519, Ed25519, ML-KEM, HKDF, HMAC and XChaCha20-Poly1305: free terms in the ratchet, any functions with the stated laws in the envelope. The labels of `kdf.rs`, clearing bits of X25519 keys, failures of the AEAD on encryption, and secrecy are not modelled.
- JSON readers accept exactly the compact form the writers produce, with members in the written order and escapes as written; serde_json also reads spaces, other orders and other escapes. Texts are bytes and UTF-8 validity is not checked.
- Randomness: keypairs, nonces and KEM coins are inputs; new ratchet keys differ from all earlier ones.
- Zeroisation and `Drop`, which have no effect on results.
- Signed pre-key signatures, which the handshake does not read.
- `count_pending`, and expiry times in seconds: an entry may expire at any time.
- A clock so young that subtracting the window fails, and concurrent limiter calls that read the clock out of order.
- The WebSocket handler, SQL and REST routes, VPN address allocation, push, media and the Flutter app: thin wrappers or one-branch checks.
