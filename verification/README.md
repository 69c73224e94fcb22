# MeshSage core: a verified model

This project models the stateful core of MeshSage, a peer-to-peer messenger written in Go, and proves what
its protocols keep over whole runs. `dafny verify dfyconfig.toml` checks everything. Nothing here runs the
Go program: the code that updates sessions, tables, slices and arrays is a class or a method with loops,
proved equal to a specification function, and the theorems are lemmas about runs of those functions.

| file | what it covers |
|---|---|
| `SymbolicCrypto`, `Ratchet`, `SessionStore` | the Double Ratchet session, the session and skipped-key tables, sending and receiving |
| `TwoParty`, `SessionRuns`, `SendCounter`, `AlteredHeaders` | a two-party session over a network that loses, reorders and repeats messages, delivers foreign ones, and may change a header |
| `Handshakes` | a handshake over the remains of an older session; the cooldown |
| `Text`, `Wire` | decimal numbers, splitting, the envelope formats |
| `Ledger`, `LedgerRuns`, `LedgerClaims`, `LedgerOrigins`, `ValidatorRuns` | the alias ledger: appending, replay, ownership, mempool, block production |
| `LedgerAnswers`, `LedgerNames`, `LedgerTexts` | what the ledger accepts, refuses and reports; its two name tables; what its texts and hashes commit to |
| `Group`, `GroupRuns`, `GroupBundles` | the group sender-key ratchet and the shared key bundles |
| `Buffers` | the three retry buffers with a time to live |
| `Delivery`, `DeliveryRuns`, `DeliveryAnswers`, `FetchResults` | deduplication of envelopes from direct streams, relay fetches and retries; the record of each outcome; whole fetches |
| `ProofOfWork`, `MinedEnvelopes`, `Clock` | leading zero bits, the nonce search, the envelopes that carry it; the clock offset |

## How the source is read

- Cryptography is symbolic. A key pair is a fresh number, a Diffie-Hellman secret an unordered pair, every
  key derivation a free constructor, and opening succeeds exactly under the sealing key. As in the code, the
  root key is not mixed into the next step, unlike section 3.5 of the Signal Double Ratchet specification:
  each chain comes from one Diffie-Hellman output alone.
- A run is any finite sequence of events; the network chooses them. An event is atomic, as the per-peer
  session lock makes a send or a receive. Of a receive it is the synchronous part, without the deferred work
  that a failure starts (pkg/protocol/messaging_receive.go:230-240, 274-305).
- Both sides of a session begin with any supply of pre-keys, and the supply may be filled up at any time.
- Hashes, signatures, base64, JSON and key decoding are parameters. Where a theorem needs more of them than
  that they are functions (no collisions, no separator in hexadecimal text), a named predicate says so:
  `LedgerRuns.Sound`, `LedgerTexts.SoundBytes`, `LedgerTexts.ColonFree`, `LedgerNames.ExactBase64`, `Ledger.Trusted`,
  `Wire.Faithful`, `GroupBundles.FaithfulKeys`, `DeliveryAnswers.CollisionFree`. About a hash to 32 bytes nothing is
  assumed: there the theorems give the collision.
- docs/protocol.md:60 says skipped keys are indexed by peer and counter. The code adds the ratchet public key
  to the index (pkg/storage/db_sessions.go:65-89), and the model follows the code. Without it the exact
  accounting below would not hold.

## What turned out to be limited

- A stored skipped key is deleted before it is tried on the payload, and a handshake that names a pre-key its
  receiver still holds replaces the session before its payload is tried; if the payload does not open, session
  and skipped keys are deleted. So the first delivery of a message to a peer that has begun its session decrypts
  if and only if neither has happened: no foreign envelope with its header arrived while its key was stored, and
  no foreign handshake naming a held pre-key arrived while the addressee had a session
  (`SessionRuns.FirstDeliveryDecrypts`); without foreign envelopes it always does (`SessionRuns.NothingSpoiled`).
  In the synchronous part a foreign envelope leaves the addressee's session as it is if and only if it is not
  such a handshake or there is no session (`SessionRuns.InjectionExactly`), and all messages but one whose stored
  key it named are received as before (`SessionRuns.InjectionSparesTheRest`). In the other case nothing of session
  and skipped keys is left, and no message of that session is received again (`SessionRuns.WipedForGood`).
- Headers are not authenticated. A genuine payload opens under a changed header of the current epoch exactly when
  it is the message that comes up at or after the index the header claims, and then with the same effect; in the
  peer's next epoch only its own key and index open it, but the header alone decides how many keys are filed for
  the old one (`AlteredHeaders.AlteredHeaderExactly`).
- First-owner stability holds from block to block, not inside one: claims of different keys to one free alias
  in the same block all pass, since each is judged against the state before the block, and the last one wins.
  The first claim stands, then and in every later state, if and only if the block's first and last claim to
  the alias carry the same key (`LedgerClaims.FirstClaimStandsExactly`, `LedgerClaims.FirstClaimStandsForEver`);
  otherwise the block is accepted all the same (`LedgerClaims.LastClaimInBlockWins`, with one such block, under
  libraries that meet every assumption, in `LedgerClaims.ContestedBlockExample`).
- Inside such a block the two name tables part as well: they agree after a block, every key standing for an alias
  bound to it, if and only if the last claim to the alias of each key's own last claim carries that key too
  (`LedgerNames.OwnersAgreeExactly`, with one block that leaves them apart in `LedgerNames.OwnersDisagreeExample`).
- Double signing at or below the tip is reported exactly when the texts of the two headers differ
  (`LedgerAnswers.HeaderComparedExactly`), which for headers without stray colons means that the headers do.
- Neither a transaction's ID nor the base hash of a mined envelope separates its text fields: the first fixes type,
  alias, owner and key only as joined (`LedgerTexts.TxIdBindsExactly`), the second ID, kind, content and sender
  (`MinedEnvelopes.BaseHashBindsExactly`). No single field can be exchanged. The signature of a transaction that
  verifies fixes every field (`LedgerTexts.TxTextBindsExactly`).
- The group look-ahead is paid for: after a hit at index j no message from just above the old active index up
  to j itself opens again while no new bundle arrives (`GroupRuns.PassedOverNeverOpens`), and with arrivals in
  order a gap of more than ten messages stops decryption for good (`GroupRuns.GapIsFatal`).
- A bundle that reaches a receiver with keys always makes its newest key active, even if that is a step back.
  What the receiver would open from its own active index on survives if and only if the bundle is not older
  than that index nor twenty or more ahead of it; an older one leaves nothing above that index but what lies at
  most ten above its own (`GroupBundles.BundleMidRun`). With a bundle that carries a newly drawn key, exactly the
  sender's last twenty keys, over both chains, and the next ten of the new chain open
  (`GroupBundles.BundleAfterRenewal`).
- "Done everywhere or recorded nowhere" after a mailbox fetch fails for exactly one hash, the empty one, which
  a line with two spaces after MSG carries: any such good line marks it, and from then on it is never settled
  and blocks every later line like it until a restart (`DeliveryRuns.SettledUnlessEmpty`,
  `DeliveryRuns.EmptyHashNeverSettles`).
- The search for a nonce stops short of the largest 64-bit number and then answers zero, so a mined envelope
  verifies exactly when some smaller nonce solves its puzzle.

## Model

| member | source | states |
|---|---|---|
| SessionRuns.FirstDeliveryDecrypts | pkg/protocol/messaging_receive.go:183-461 | with any pre-keys on both sides, after any run, the first delivery of any message to an addressee that has begun its session yields exactly the text sent, however late or out of order, within or across epochs, if and only if no foreign envelope with its header arrived while its key was stored and no foreign handshake wiped the addressee |
| SessionRuns.NothingSpoiled | pkg/protocol/messaging_receive.go:183-332 | on a network that only loses, reorders and repeats, every first delivery decrypts |
| SessionRuns.InjectionExactly | pkg/protocol/messaging_receive.go:183-461 | a foreign envelope leaves the addressee's session alone if and only if it is not a handshake naming a pre-key the addressee holds, or there is no session; otherwise the whole node is wiped; a ratchet message takes at most the one skipped key its header names; the other side and all pre-keys are untouched |
| SessionRuns.InjectionSparesTheRest | pkg/protocol/messaging_receive.go:183-461 | every message sent so far is received after a foreign envelope as it would have been before, unless the envelope wiped its addressee or took its key |
| SessionRuns.WipedForGood | pkg/protocol/messaging_receive.go:338-461 | a side wiped by such a handshake stays without session and skipped keys, and receives nothing of that session, in every continuation |
| SessionRuns.SessionStands | pkg/protocol/messaging_receive.go:432-456 | after any run a side has a session if and only if it has begun one and was not wiped |
| SessionRuns.RepeatedDeliveryFails | pkg/protocol/messaging_receive.go:204-283 | a delivery after the first, or of a spoiled message, or to a wiped side or one that has not begun, fails and leaves session row, skipped keys and pre-keys as they were |
| SessionRuns.ReceptionExactly | pkg/protocol/messaging_receive.go:183-461 | what any delivery, first or not, yields after any run: the text sent, or nothing, decided by the events alone |
| SessionRuns.SpentExactly | pkg/protocol/messaging_receive.go:206-222 | a message's key is used up exactly when the run handed the message to an addressee that had its session (Bob, for the handshake, when he had none yet), or a foreign envelope took it |
| SessionRuns.MessageKeysNeverRepeat | pkg/crypto/ratchet.go:37-48 | no two messages of a session, in either direction, are sealed with the same key |
| SessionRuns.EndsAgree | pkg/crypto/ratchet.go:77-114 | on a side that was not wiped the stored remote key is the peer's current or previous one, the local key its own newest one and the root key made from the two; while neither was wiped at most one side lags, and a side that is current receives at M on the chain the peer sends on |
| SessionRuns.SkippedKeysExact | pkg/crypto/ratchet.go:79-134 | for an addressee that was not wiped, a message's key is stored, under its own epoch, if and only if its index was walked past and it has been neither decrypted nor spoiled; nothing is decrypted ahead of the walk |
| SessionRuns.NoStraySkippedKey | pkg/storage/db_sessions.go:65-89 | every stored skipped key belongs to one message sent to that side, neither decrypted nor spoiled |
| AlteredHeaders.AlteredHeaderExactly | pkg/crypto/ratchet.go:63-141 | after any run, for a genuine payload under any header: exactly when it opens, to which text, and what it does to session and skipped keys |
| SendCounter.OutboundExactly | pkg/crypto/ratchet.go:45-47 | after any run the outbound counter is the number of messages sent since the session began or last decrypted one on the ratchet, as far as five |
| Handshakes.ReceivedWithoutRegard | pkg/protocol/messaging_receive.go:360-461 | a handshake is received in the same way whatever session and skipped keys the node has: it opens exactly for a pre-key still held under the key agreed with it |
| Handshakes.HandshakeReplacesSession | pkg/protocol/messaging_receive.go:424-470 | over any older session, after a handshake for a held pre-key no skipped key is left, the sender's next message opens for the receiver and the receiver's reply for the sender |
| Handshakes.SessionStartsOver | pkg/protocol/messaging_receive.go:338-470 | whatever is left of an older session on either side, once the new handshake has arrived both sides are, after any run, in every respect where a first session would have them |
| Handshakes.RenewedSessionDecrypts | pkg/protocol/messaging_receive.go:183-470 | so in the renewed session the first delivery of every message decrypts under the same exact condition as in a first one |
| Handshakes.HandshakesFarApart | pkg/protocol/messaging_transmit.go:255-262 | two handshakes sent to one peer are at least five seconds apart, whatever the clock and the session table do in between |
| Handshakes.AttemptSends | pkg/protocol/messaging_transmit.go:207-300 | an attempt sends on a usable session, and otherwise exactly with a pre-key at hand and no cooldown running; when nothing is sent the session stays |
| TwoParty.LookupIsExact | pkg/protocol/messaging_receive.go:204-207 | the table lookup answers for a packet exactly when its message is waiting |
| TwoParty.ReceiveWaiting | pkg/protocol/messaging_receive.go:206-217 | a waiting message opens with its stored key, and only that row is consumed |
| TwoParty.ReceiveAhead | pkg/crypto/ratchet.go:116-140 | a message further along the current chain opens and the keys between are filed |
| TwoParty.FileRange | pkg/storage/db_sessions.go:65-73 | filing a skipped range adds exactly its indices, each with its own key, and touches no other row |
| SessionStore.Store.SaveSession | pkg/storage/db_sessions.go:9-35 | replaces one peer's row and no other |
| SessionStore.Store.SaveSkippedKey | pkg/storage/db_sessions.go:65-73 | replaces the row of one peer, epoch and counter |
| SessionStore.Store.GetSkippedKey | pkg/storage/db_sessions.go:76-89 | returns the row if there is one and deletes it |
| SessionStore.Store.ClearSkippedKeys | pkg/storage/db_sessions.go:93-99 | deletes all skipped keys of one peer |
| SessionStore.Store.DeleteSession | pkg/storage/db_sessions.go:102-113 | deletes one peer's session and skipped keys |
| SessionStore.Store.PrepareSecureEnvelope | pkg/protocol/messaging_transmit.go:196-371 | sends on the stored session, or starts a handshake with a fetched pre-key unless one was begun less than five seconds ago, or gives up; other peers untouched |
| SessionStore.Store.SaveSkippedKeys | pkg/protocol/messaging_receive.go:319-322 | the saving loop files the keys in order |
| SessionStore.Store.ProcessDR | pkg/protocol/messaging_receive.go:183-332 | skipped key first, then the ratchet on a copy that is stored only on success |
| SessionStore.Store.ProcessX3DH | pkg/protocol/messaging_receive.go:338-470 | the receiver's session setup: stale keys cleared, session saved whatever was there before, and undone again when the payload does not open |
| SessionStore.Store.ProcessSecureEnvelope | pkg/protocol/messaging_receive.go:182-470 | the two branches together, for one peer |
| Ratchet.SessionState.EncryptWithRatchet | pkg/crypto/ratchet.go:36-59 | advances the send chain by one and prints the header of the index it used |
| Ratchet.SessionState.SkipMessageKeys | pkg/crypto/ratchet.go:79-88 | the skip loop, equal to one jump of the chain with the passed keys listed |
| Ratchet.SessionState.AdvanceDhRatchet | pkg/crypto/ratchet.go:90-114 | the Diffie-Hellman step |
| Ratchet.SessionState.DecryptWithRatchet | pkg/crypto/ratchet.go:63-141 | the whole receive step: new session fields, skipped keys, plaintext |
| Ratchet.SkippedRangeContents | pkg/crypto/ratchet.go:117-126 | the skip loop files every index up to N, in order, each with the key of that index |
| Wire.HeaderRoundTrip | pkg/crypto/ratchet.go:56-72 | for all 32-bit PN and N the printed header parses back to the same fields |
| Wire.HeaderIs | pkg/crypto/ratchet.go:56-58 | the printed header is key, PN, N and ciphertext in this order |
| Wire.HeaderParsesExactly | pkg/crypto/ratchet.go:64-67 | a payload is taken as a header exactly when it has three separators or more |
| Wire.PacketRoundTrip | pkg/protocol/messaging_receive.go:191-205 | the packets of the session model are what arrives |
| Wire.X3DHRoundTrip | pkg/protocol/messaging_receive.go:342-358 | the five-field handshake parses back to the same fields |
| Wire.X3DHParsesExactly | pkg/protocol/messaging_receive.go:342-346 | an envelope is taken as a handshake exactly when it has three separators or more |
| Wire.OldX3DHReads | pkg/protocol/messaging_receive.go:350-358 | the older four-field form is read without a ratchet key |
| Wire.TypeIsItsPrefix | pkg/protocol/messaging_receive.go:88-97 | the four envelope prefixes exclude each other |
| Text.ParseDecimal | pkg/crypto/ratchet.go:70-71 | reading back a printed 32-bit number gives the number |
| Text.ParseExactly | pkg/crypto/ratchet.go:70-71 | what any string parses to: the largest value as soon as its leading digits exceed the range, else zero if it holds anything but digits, else the number |
| Text.ParseDigits | pkg/crypto/ratchet.go:70-71 | the digits of any number, of any size, parse to the number or the largest value |
| LedgerRuns.ReplayRefinesRun | pkg/protocol/blockchain.go:350-398 | after any mixed run of blocks and headers, replay from storage gives the very alias and owner tables, height and tip hash built step by step |
| LedgerRuns.LogIsLinked | pkg/protocol/blockchain.go:666-715 | the stored log has no gap and is hash-linked from height 0, with empty previous hash, to the tip |
| LedgerRuns.LogIsAppendOnly | pkg/protocol/blockchain.go:833-896 | a stored row never changes or disappears |
| LedgerRuns.NothingEvicted | pkg/storage/db_blockchain.go:9-18 | replacing on a unique hash column evicts no older row |
| LedgerRuns.HeaderTextInjective | pkg/protocol/blockchain.go:224-234 | two headers with the same hashed text are equal |
| LedgerRuns.TipFixesHistory | pkg/protocol/blockchain.go:224-234 | two nodes with the same tip hash hold the same header at every height, even with different validator lists and known keys |
| LedgerRuns.FirstOwnerStays | pkg/protocol/blockchain.go:209-218 | once bound, an alias keeps its key and peer ID through every later event |
| LedgerRuns.BlockDecidesOwner | pkg/protocol/blockchain.go:316-347 | an accepted block binds an alias to the last claim it holds for it and leaves all others alone |
| LedgerClaims.FirstClaimStandsExactly | pkg/protocol/blockchain.go:302-306 | in any accepted block the first claimant of an alias becomes its owner, key and peer ID alike, if and only if the block's first and last claim to it carry the same key |
| LedgerClaims.LastClaimInBlockWins | pkg/protocol/blockchain.go:302-347 | a block in order whose claims all verify is accepted even when they contest an alias; the alias was free and goes to the last claimant, not the first |
| LedgerClaims.FirstClaimStandsForEver | pkg/protocol/blockchain.go:833-896 | over whole runs, the first claim brought to a free alias stands in every later state if and only if its block is not contested |
| LedgerClaims.ContestedBlockExample | pkg/protocol/blockchain.go:833-896 | one such block, accepted as the first of a ledger; its alias stays with the second claimant in every later state |
| LedgerClaims.PlainEnvIsSound | pkg/protocol/blockchain.go:224-234 | the libraries of the example hash without a collision or a colon, so the assumptions of the ledger theorems can be met |
| LedgerOrigins.EveryBindingHasItsClaim | pkg/protocol/blockchain.go:154-221 | in every reachable ledger each alias goes back to a stored transaction signed by the very key it is bound to, with its work done, and each header to a listed validator |
| LedgerOrigins.BlockAcceptedExactly | pkg/protocol/blockchain.go:237-309 | a block is accepted if and only if it is next, authorised, correctly hashed, and each of its transactions is a claim, signed with its own key and paid for with work, to a free alias or one of that key |
| LedgerAnswers.SubmissionExactly | pkg/protocol/blockchain.go:404-425 | a transaction joins the mempool, at its end, if and only if it is a standing claim whose ID and alias are not pending; otherwise nothing changes, and the first pending one that clashes decides whether that is an error |
| LedgerAnswers.RefusedForFirstFailure | pkg/protocol/blockchain.go:154-221 | a transaction is refused with an error if and only if that check is the first one it fails |
| LedgerAnswers.HeaderAcceptedExactly | pkg/protocol/blockchain.go:686-715 | above the tip a header is accepted if and only if it is next, linked and authorised; then it is stored without transactions and becomes the tip, and names and mempool stay; otherwise nothing changes |
| LedgerAnswers.HeaderComparedExactly | pkg/protocol/blockchain.go:670-684 | at or below the tip of a reachable ledger nothing changes, and double signing is reported exactly when the header's text is not the stored one's |
| LedgerAnswers.DoubleSigningExactly | pkg/protocol/blockchain.go:670-684 | for a header without colons in previous hash and validator that is exactly when it differs from the stored header |
| LedgerAnswers.HeaderRefusedForFirstFailure | pkg/protocol/blockchain.go:619-664 | a header is refused with an error if and only if that check is the first one it fails |
| LedgerAnswers.BlockRefusedForFirstBad | pkg/protocol/blockchain.go:288-309 | the next block with a fitting header is refused for its hash, or else with the error of its first transaction that does not verify |
| LedgerAnswers.RemainingExactly | pkg/protocol/blockchain.go:873-889 | of any mempool, after any block, exactly the transactions whose ID is not in the block remain, in their order |
| LedgerAnswers.BlockEffect | pkg/protocol/blockchain.go:833-896 | an accepted block sets height, tip, row, names and mempool; a refused or old one changes nothing |
| LedgerNames.NamesExactly | pkg/protocol/blockchain.go:316-347 | what any list of transactions does to both tables: the last registration of an alias owns it, and a key stands for the alias of its own last registration |
| LedgerNames.OwnersAgreeExactly | pkg/protocol/blockchain.go:316-347 | after an accepted block every key stands for an alias bound to it if and only if the last claim to the alias of each key's last claim carries that key |
| LedgerNames.OwnersAgreeAlways | pkg/protocol/blockchain.go:316-347 | over whole runs whose blocks have one key for each alias the two tables agree in every state |
| LedgerNames.OwnersDisagreeExample | pkg/protocol/blockchain.go:316-347 | one accepted block after which a key stands for an alias that is bound to another key |
| LedgerTexts.TxTextBindsExactly | pkg/protocol/blockchain.go:179-190 | two transactions that verify have the same signed text if and only if they agree in type, alias, owner, key and time |
| LedgerTexts.TxIdBindsExactly | pkg/protocol/blockchain.go:124-151 | two IDs are equal if and only if the joined text fields are, and time, nonce and difficulty each |
| LedgerTexts.CoordinateExactly | pkg/protocol/utils.go:64-70 | an alias with and without its sign have one coordinate, and no other two have |
| LedgerTexts.SignedTextBindsExactly | pkg/protocol/blockchain.go:645-664 | a validator signs exactly height, previous hash, time and validator |
| LedgerTexts.HeaderTextsAre | pkg/protocol/blockchain.go:224-234 | the hashed text is the signed one followed by the signature |
| Ledger.LedgerNode.VerifyBlockHere | pkg/protocol/blockchain.go:237-309 | the transaction loop returns the first error in order |
| Ledger.LedgerNode.ApplyBlockTransactions | pkg/protocol/blockchain.go:316-347 | updates both tables transaction by transaction, skipping what does not decode |
| Ledger.LedgerNode.CleanMempool | pkg/protocol/blockchain.go:873-889 | removes exactly the transactions whose ID is in the block, keeping the order |
| Ledger.LedgerNode.VerifyAndAddBlock | pkg/protocol/blockchain.go:833-896 | old blocks ignored, future ones refused, the next one verified, stored and applied |
| Ledger.LedgerNode.VerifyAndAddHeader | pkg/protocol/blockchain.go:666-715 | the same for a header, with the double-signing comparison at and below the tip |
| Ledger.LedgerNode.SubmitTransaction | pkg/protocol/blockchain.go:404-425 | verifies, then lets the first pending transaction with the same ID or alias decide |
| Ledger.LedgerNode.SnapshotBlock | pkg/protocol/blockchain.go:996-1051 | there is a block exactly when something is pending; it holds all of it in order, is hashed and signed over its own header, and for a trusted validator passes the node's own header check |
| Ledger.LedgerNode.ReplayAllBlocks | pkg/protocol/blockchain.go:350-398 | rebuilds the state; a missing height stops it with the tables rebuilt up to the gap |
| ValidatorRuns.MempoolNeverStale | pkg/protocol/blockchain.go:404-425 | on a single validator every pending transaction still verifies in every reachable state, and no alias is pending twice |
| ValidatorRuns.CommitTakesWholeSnapshot | pkg/protocol/blockchain.go:996-1057 | each production step succeeds, binds every alias of its snapshot, and leaves exactly the transactions added after it |
| ValidatorRuns.PendingOrBound | pkg/protocol/blockchain.go:404-425 | what was ever pending is pending still or bound to its claimant, after any run |
| ValidatorRuns.SubmittedIsBound | pkg/protocol/blockchain.go:996-1057 | a standing claim that clashes with nothing pending, once submitted, is bound to its key and peer ID by the next round of production, whatever happens before, in between and afterwards |
| ValidatorRuns.RemainingIsTail | pkg/protocol/blockchain.go:873-889 | taking out a snapshot leaves the rest of the mempool in order |
| Group.WindowExact | pkg/protocol/group.go:353-414 | message j opens if and only if it is the active index, in the history or at most ten ahead; the active index becomes j+1 except after a history hit |
| Group.AheadExact | pkg/protocol/group.go:388-406 | the look-ahead loop finds exactly the next ten indices |
| Group.KeyTable.SaveGroupSenderKey | pkg/storage/db_groups.go:173-187 | replaces the active key, keeps a known key in its place, prunes to the last twenty |
| Group.SaveKeyExactly | pkg/storage/db_groups.go:173-187 | a saved key becomes active; a known one keeps its place in the history, a new one goes to the end and drives out the oldest of twenty; none is there twice |
| Group.KeyTable.SearchHistory | pkg/protocol/group.go:377-385 | the history loop finds the key if and only if it is there |
| Group.KeyTable.LookAhead | pkg/protocol/group.go:388-406 | the loop over the temporary key |
| Group.KeyTable.DecryptGroupMsg | pkg/protocol/group.go:353-414 | the whole step on the tables; an unsecured group passes the payload through |
| Group.KeyTable.SaveSharedKeys | pkg/protocol/messaging_receive.go:643-651 | saves the fields of a bundle from the last to the first, skipping what does not decode |
| GroupRuns.HistoryIsLastTwenty | pkg/storage/db_groups.go:173-187 | from one saved key on, the history is always the last twenty values of the active index |
| GroupRuns.IncreasingArrivalsDecrypt | pkg/protocol/group.go:366-407 | increasing arrivals all open, to the texts sent, if and only if no more than ten consecutive messages are ever missing |
| GroupRuns.GapIsFatal | pkg/protocol/group.go:388-412 | from the first larger gap on nothing opens any more |
| GroupRuns.ActiveNeverPassesSender | pkg/protocol/group.go:574-590 | the receiver's active key never passes the sender's, whatever arrives |
| GroupRuns.SenderOnChain | pkg/protocol/group.go:574-590 | after n messages the sender's active key is key n, its history the last twenty, and message k was sealed with key k |
| GroupRuns.LostStaysLost | pkg/protocol/group.go:353-414 | an index below the active one and outside the history never comes back into the window |
| GroupRuns.PassedOverNeverOpens | pkg/protocol/group.go:399-404 | what a look-ahead hit passes over never opens again |
| GroupBundles.BundleRoundTrip | pkg/protocol/group.go:271-285 | a receiver without keys for the sender ends with the sender's active key and the same history in the same order |
| GroupBundles.FirstBundle | pkg/protocol/group.go:271-285 | a member without a history shares the given key alone |
| GroupBundles.BundleParsesExactly | pkg/protocol/messaging_receive.go:636-642 | a text is a bundle exactly when it begins like one and has a second separator |
| GroupBundles.SenderBundleArrives | pkg/protocol/group.go:943-975 | the round trip for every real sender, however many messages it sent and new keys it drew when members left |
| GroupBundles.ChainBundleArrives | pkg/protocol/group.go:574-590 | the round trip after any number of messages on one chain |
| GroupBundles.SaveReversed | pkg/protocol/messaging_receive.go:643-651 | printing newest first and saving last to first cancel out, on top of any rows |
| GroupBundles.BundleMidRun | pkg/protocol/messaging_receive.go:636-655 | a bundle in the middle of a run: its index becomes active, and exactly which messages open afterwards, whether it is newer or older; the window from the receiver's active index on survives if and only if the bundle is not older nor twenty or more ahead |
| GroupBundles.BundleAfterRenewal | pkg/protocol/group.go:943-975 | a bundle with a newly drawn key that reaches a receiver still on the old chain: of both chains exactly the sender's last twenty keys open, and the next ten of the new one |
| GroupBundles.BundleReplacesHistory | pkg/storage/db_groups.go:173-187 | a bundle that is not older leaves exactly its own indices in the history |
| Buffers.QueueIsLastTwenty | pkg/protocol/messaging_init.go:74-92 | after any run of enqueues with a clock that does not run backwards the buffer holds the new entry and, before it in order, the latest unexpired ones, twenty in all |
| Buffers.QueueIsLastTwentyLive | pkg/protocol/messaging_transmit.go:55-73 | with entries stamped as they are put in: the last twenty of all unexpired entries, in order |
| Buffers.HandedOverAtMostOnce | pkg/protocol/messaging_transmit.go:77-93 | over any mix of enqueues and drains, what was handed over and what waits is a subsequence of what was put in: nothing twice, nothing reordered |
| Buffers.DrainExactly | pkg/protocol/messaging_transmit.go:77-93 | a drain hands over, in order, exactly the last twenty of all unexpired entries put in since the drain before, and leaves nothing |
| Buffers.PruneInPlace | pkg/protocol/group.go:87-94 | filtering over the front of the array that is being read keeps exactly the unexpired entries, in order |
| Buffers.RetryBuffer.Enqueue | pkg/protocol/group.go:76-104 | prune, drop the oldest when full, append |
| Buffers.RetryBuffer.Drain | pkg/protocol/messaging_init.go:98-116 | hands over the unexpired entries in order and empties the buffer |
| Buffers.RetryBuffer.Append | pkg/protocol/messaging_init.go:90-91 | append, in place or into a larger copy |
| DeliveryRuns.DispatchedAtMostOnce | pkg/protocol/messaging_receive.go:64-86 | through any mix of direct streams, interleaved relay fetches, retries and restarts an envelope text is dispatched at most once |
| DeliveryRuns.DispatchedUnlessBefore | pkg/protocol/messaging_receive.go:64-86 | with a collision-free hash an arriving text is dispatched exactly when it was not before and this attempt succeeds |
| DeliveryAnswers.OutcomeRecorded | pkg/protocol/messaging_receive.go:52-86 | after any run, the hash an envelope came under is done in memory and storage if and only if its text is now among the dispatched ones, and otherwise in neither; no other record changes |
| DeliveryAnswers.StorageRemembersExactly | pkg/protocol/messaging_receive.go:67-79 | over whole runs, restarts included, storage has a hash if and only if the last envelope processed under it was dispatched |
| DeliveryAnswers.FailedIsTakenAgain | pkg/protocol/mailbox_client.go:387-497 | a hash under which nothing was dispatched last, and that no open fetch holds, is taken again by the next good line |
| DeliveryAnswers.WrappedOrBare | pkg/protocol/messaging_receive.go:52-62 | an envelope in a mailbox wrapper and the bare one are one and the same: dispatched once, either way |
| DeliveryRuns.MarkedHashesSettle | pkg/protocol/mailbox_client.go:393-511 | a non-empty hash that a fetch marked is, once no open fetch holds it, done in memory and storage or absent from both |
| DeliveryRuns.SettledUnlessEmpty | pkg/protocol/mailbox_client.go:444-448 | with no fetch open a marked hash is settled if and only if it is not empty |
| DeliveryRuns.EmptyHashIsTaken | pkg/protocol/mailbox_client.go:387-497 | after any run, reading a good line with an empty hash marks the empty hash |
| DeliveryRuns.EmptyHashNeverSettles | pkg/protocol/mailbox_client.go:387-511 | from such a line on, and whatever follows short of a restart, the empty hash is not settled and every later line with it is ignored |
| DeliveryRuns.ShownAgainAtMostOnce | pkg/protocol/mailbox_client.go:394-442 | between restarts no stored message is shown again more than once |
| DeliveryRuns.FetchIsARun | pkg/protocol/mailbox_client.go:353-511 | a fetch done in one go is one of the interleaved runs |
| DeliveryRuns.FetchSettles | pkg/protocol/mailbox_client.go:353-511 | after a fetch every non-empty hash it took, unless another fetch holds it, is settled |
| FetchResults.FetchDispatches | pkg/protocol/mailbox_client.go:353-511 | a fetch that comes to the line of a new, readable message ends with its text dispatched if the attempts for it succeed, whatever else the answer holds |
| FetchResults.FetchExactly | pkg/protocol/mailbox_client.go:353-511 | an answer of new, readable messages dispatches exactly those whose attempts succeed, bare handshakes first and each kind in order, and records each hash as done or nowhere accordingly |
| DeliveryAnswers.GoodLineExactly | pkg/protocol/mailbox_client.go:387-497 | a message line under an unknown hash queues exactly its payload from its sender under that hash; under one that storage has it shows the stored message again; otherwise it does nothing |
| DeliveryAnswers.OtherLineIgnored | pkg/protocol/mailbox_client.go:386-390 | a line of any other form does nothing |
| DeliveryAnswers.NothingAfterTheEnd | pkg/protocol/mailbox_client.go:374-385 | what follows DONE or an error is not read |
| DeliveryRuns.HandshakesFirstIsStableSort | pkg/protocol/mailbox_client.go:499-507 | the sort is a stable permutation with bare handshakes in front |
| Delivery.Receiver.ProcessSecureEnvelope | pkg/protocol/messaging_receive.go:52-86 | unwraps, skips a processed text, otherwise tries it, and records the outcome in all three places |
| Delivery.Receiver.TakeLine | pkg/protocol/mailbox_client.go:387-497 | one line of the answer: skipped, noted from storage and shown again, dropped as unreadable, or taken |
| Delivery.Receiver.SortHandshakesFirst | pkg/protocol/mailbox_client.go:499-507 | two sweeps, equal to the stable sort |
| Delivery.Receiver.FetchMailboxMessages | pkg/protocol/mailbox_client.go:353-511 | the two loops of a fetch |
| ProofOfWork.ZerosAreABound | pkg/protocol/pow.go:74-92 | at least d leading zero bits if and only if the big-endian value is below 2^(256-d), for every length and d |
| ProofOfWork.CountLeadingZeroBits | pkg/protocol/pow.go:74-92 | the byte and bit loops return the number of zero bits in front of the highest one bit of the value |
| ProofOfWork.VerifyPoW | pkg/protocol/pow.go:32-46 | accepts if and only if the digest is below 2^(256-difficulty), or nothing is asked |
| ProofOfWork.MinePoW | pkg/protocol/pow.go:49-71 | the least solving nonce below 2^64-1, zero when there is none |
| ProofOfWork.BigEndianRoundTrip | pkg/protocol/pow.go:40-42 | a nonce can be read back from its eight bytes |
| ProofOfWork.DigestBindsExactly | pkg/protocol/pow.go:37-44 | one digest for two base hashes or two nonces is a collision of the hash function |
| MinedEnvelopes.MessageEnvelope.CalculateBaseHash | pkg/protocol/types.go:24-48 | does not depend on the two proof fields and leaves them as they were |
| MinedEnvelopes.BaseHashBindsExactly | pkg/protocol/types.go:24-48 | the base hash is the same whenever ID, kind, content and sender joined, and the time, are, whatever the other fields; and if it is the same otherwise there is a collision |
| MinedEnvelopes.OneFieldChangesBaseHash | pkg/protocol/types.go:31-38 | exchanging a single one of the five fields without changing the base hash takes a collision |
| MinedEnvelopes.MessageEnvelope.MinePoW | pkg/protocol/types.go:51-58 | a mined envelope passes its own check if and only if some nonce in range solves the puzzle, although mining wrote into it |
| MinedEnvelopes.MessageEnvelope.VerifyPoW | pkg/protocol/types.go:61-67 | the check, leaving the envelope as it was |
| MinedEnvelopes.WrapEnvelopeWithSignature | pkg/protocol/mailbox_client.go:63-80 | signs and mines at difficulty 16 |
| MinedEnvelopes.VerifySignedEnvelope | pkg/protocol/mailbox_client.go:83-106 | returns the payload if and only if signature, difficulty and work are in order |
| MinedEnvelopes.WrapThenVerify | pkg/protocol/mailbox_client.go:63-106 | what an honest sender wraps is accepted, with the same payload, exactly when the nonce search could succeed |
| Clock.SortOffsets | pkg/protocol/time.go:215-223 | sorts in place and loses nothing |
| Clock.MajorityDecides | pkg/protocol/time.go:208-209 | when more than half of the offsets lie in an interval, so does the element at index len/2, for odd and even numbers |
| Clock.ChooseOffset | pkg/protocol/time.go:203-211 | sort and choose: the element at index len/2 of the sorted offsets, inside every interval that holds a strict majority |

## Left out

- SessionRuns.FirstDeliveryDecrypts: a side stops sending in an epoch at 2^32-1 messages, because the code's counter then wraps around and reuses headers.
- SessionRuns.InjectionExactly: the synchronous part only; a foreign envelope is one whose payload no key of the session opens. A genuine payload under an altered header is judged as one reception after any run, in `AlteredHeaders`, not as an event of the run.
- SessionRuns.WipedForGood: a wiped side sends no more in a run; the new handshake that it may start afterwards begins another run, by `Handshakes.SessionStartsOver`.
- Handshakes.SessionStartsOver: between the new handshake and its arrival the receiver neither sends on its old session nor gets foreign envelopes.
- Expiry, rotation and publication of pre-keys.
- SessionStore.Store.ProcessDR: the synchronous part only; the three-second background retry, and the deletion of a session that keeps failing, depend on sleeps and wall clocks.
- SessionStore.Store.ProcessX3DH: the older four-field handshake is parsed in `Wire` but starts no session; neither the acknowledgement nor the request for a new handshake is sent.
- SessionStore.Store.ProcessSecureEnvelope: the RESET and REQUEST_X3DH envelopes, for the same reason as the retry.
- SessionStore.Store.PrepareSecureEnvelope: the search for a pre-key among the connected relays is a parameter; the timer that clears cooldown entries older than ten seconds, which matters only to a clock that is set back.
- Simultaneous handshakes from both sides; the remote identity key column, which no decision reads.
- The insides of X25519, HKDF, AES-GCM (nonces, gzip) and signatures; failing random generators and database errors.
- Ledger.LedgerNode.VerifyAndAddBlock: one atomic step, although the code drops its lock while it verifies and does not check again afterwards; likewise SubmitTransaction.
- LedgerRuns.TipFixesHistory: agreement on headers, not on transactions, which the block hash does not cover.
- Ledger.LedgerNode.VerifyBlockHere: the lower proof-of-work difficulty of the test mode is not modelled; the list of validators is fixed for a run.
- The database copy of the alias table, optimistic registrations and alias caching; mempools of several validators.
- Group membership, group message signatures and duplicate suppression, control messages, GREQ; `FlushPendingGroupMessages` hands over by `Drain`, what then happens to a message is `DecryptGroupMsg`.
- Buffers.RetryBuffer.Enqueue: one peer's buffer; the maps from peers (and groups) to buffers are not modelled, nor what is sent after a drain.
- Delivery.Receiver.ProcessSecureEnvelope: whether an attempt succeeds is an arbitrary function of sender, text and attempt number; two attempts never overlap, while the code only locks the ratchet branch, per sender.
- Delivery.Receiver.TakeLine: whether the stored message is one to show again is a parameter; peer store updates.
- Storing in a mailbox: the choice of relays, retries and the two-copy minimum; the relay's own table with its eviction loop; loss between FETCH and ACK.
- MinedEnvelopes.VerifySignedEnvelope: JSON and base64 of the wrapper are taken as exact.
- Collecting offsets from peers, NTP, and the mutex around the offset.
- libp2p, the DHT, gossip, file exchange, the user interfaces, logging, reputation, rate limits and statistics.
