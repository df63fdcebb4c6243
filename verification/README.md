# Verification of witan's key lineages, handshake and gossip engine

This project models, in Dafny, the stateful core of witan and proves what it is meant to guarantee:

* **Key lineages** (`Rotation`, `Chains`, `Succession`, `Provenance`, `LineageCodec`, `Layouts`, `Lineages`). A node
  keeps its id while its keys change, by a chain of signed records that anyone can check. Proved over every run: the
  chain stays valid, replicas converge, forks are accountable, commitments lock out other keys, a record that a key of
  the system stands behind was drafted by its holder's own step, and the byte form is an exact bijection with valid
  lineages.
* **The four-message handshake** (`Messages`, `Handshake`, `HandshakeOutcomes`, `HandshakeRuns`, `HandshakeAgreement`,
  `SessionIds`, `Handshakes`). Proved over every run on a network that may deliver any bytes: agreement on the
  transcript, exactly when the session ids agree, no session without its pending entry and no second one, conservation
  of entries, and success of honest runs.
* **The engine and the API** (`Dedup`, `Quorum`, `Envelopes`, `Engine`, `Api`). The exact condition for a lazily evicting
  cache to agree with the plain history, exact quorum intersection, the mesh invariant with exact grafting, and an
  engine whose identity and lineage never come apart, across every call, rotations, failures and restarts.

`dafny verify dfyconfig.toml` checks everything.

## How it is modelled

The objects the program updates in place are classes: `KeyLineage`, `HandshakeManager`, `DedupCache`, `QuorumTracker`,
`SessionStore`, `GossipEngine`, and `Node` for the two global cells. Each method is proved against a function of the
old state; the theorems are about those functions, over all inputs and all runs. Records, states and messages are
values. Each of these functions is pinned by a lemma that says exactly when it succeeds and what it gives, in terms of
its inputs, the bytes and the cryptographic functions. Integers are unbounded except where a `u8`, `u32` or `u64` type says otherwise; the counters and the cache's
time-to-live wrap explicitly.

**Cryptography.** Nothing is assumed about it. Every function takes a `Primitives` value, a record of the foreign
functions, and every theorem holds for all of them:

* Hash: no injectivity is assumed. Conclusions that rest on it have the form "this holds, or these two different
  inputs have one hash".
* Signatures: where signing must succeed, a theorem asks that signing with that seed verifies under its public key.
  Where signatures must mean something, it is relative to the set of signed messages: the theorem
  (agreement, provenance) says that the signature shown is of a message in the set, or exhibits it as forged.
* KEM: the honest run and the session-id theorem ask that decapsulation inverts encapsulation for the server's key
  pair. Nothing else does.

Key pairs are represented by the seeds that generate them. Time, nonces and encapsulation randomness are arguments.

## Where code and documentation differ

The model follows the code.

* `witan/src/rotation.rs:18-19` says that a record cannot be replayed onto a different chain. The digest covers the id and
  the state replaced, not the records before it, so a record pins that state and not the history
  (`Succession.ReplayedOntoExactly`; `Succession.RecordOnTwoChains` shows two chains and the record).
* `witan/src/rotation.rs:27` writes the commitment as a plain hash of the key; the code hashes a tag before it (lines 89-94).
* A fork is reported for any different record at a past sequence, before any signature is looked at
  (`Chains.ForkReportedExactly`).
* `witan/README.md:1452` and the comments at `witan/src/config.rs:50` and `witan/src/types.rs:221` describe two-sided windows.
  The subtraction saturates, so only messages from too long ago are refused, and none from the future
  (`Envelopes.DocumentedWindowExactly`, `Envelopes.FutureEnvelopeAccepted`, `HandshakeRuns.FreshnessExactly`).
* `witan/README.md:808` offers `node_id` as an override, which no code reads; `witan/README.md:1003` says that both sides
  derive the session id, and the client copies it from the finish ack instead (`witan/src/handshake.rs:618`), which
  neither its MAC nor its signature covers (`SessionIds.SessionIdUnchecked`). The two ids agree exactly when the received
  one is what the client's stored fields derive (`SessionIds.SessionIdsAgreeExactly`).
* `witan/README.md:920` promises mutual authentication. The finish is not signed, so the server's session names whatever
  the finish claims (`SessionIds.ServerNamesTheClaim`); over the same three messages that is what the client's own
  finish names (`SessionIds.SessionsNameEachOther`).
* The finish ack magic has no other magic as a prefix, contrary to the comment in `classify_incoming`; the order of the
  tests does not matter (`Messages.OneMagic`).
* The mesh is bounded when peers are added, and never pruned. Completing a handshake through `gossip_build_finish_ack`
  does not add the peer to the mesh.
* `witan/README.md:1456-1458` says that a quorum of at least two thirds tolerates floor((N-1)/3) faulty peers. For
  agreement that is exact (`Quorum.QuorumIntersection`, `Quorum.TwoThirdsNeeded`), but configuration accepts smaller
  fractions too; and with the default 0.67 the non-faulty peers alone reach the threshold only up to N = 100, 200 or 300,
  as N is 1, 2 or 0 modulo 3 (`Quorum.DefaultThresholdReachable`).
* The time comes from a wall clock. One that goes back can make the cache forget an id early (`Dedup.ClockBackForgets`),
  exactly when a sweep has read it too far ahead (`Dedup.AgreesWithHistoryExactly`).

## Model

| member | source | states |
|---|---|---|
| `Chains.VerifyNextMeetsRules` | witan/src/rotation.rs:483-542 | a record is accepted as the next one exactly when it names this node, the next sequence and the digest of the state it replaces, has keys of the right lengths, is signed by the new key as a proof of possession, and either reveals the committed key with an empty authorization or, without a commitment, is authorized by the current key |
| `Chains.ChainInvariant` | witan/src/rotation.rs:323-338 | over any run of apply, rotate and recover, accepted or refused, the lineage stays a valid chain with the same id and inception, records are only appended, and the current sequence is their number |
| `Chains.AdvanceKeepsValid` | witan/src/rotation.rs:418-480 | one call, accepted or refused, keeps the chain valid and its records a prefix of the new ones |
| `Chains.SequenceIsIndex` | witan/src/rotation.rs:323-338 | in a valid chain the state after i records has sequence i, so the lookup of an existing record is always in bounds |
| `Chains.TruncateValid` | witan/src/rotation.rs:374-411 | every prefix of a valid chain is a valid lineage |
| `Chains.InceptionValid` | witan/src/rotation.rs:229-248 | an inception with keys of the right lengths is a valid chain of no records; any others are refused |
| `Chains.ApplyKeepsValid` | witan/src/rotation.rs:323-338 | an accepted record gives a valid chain that is the old one or the old one with just that record at its end |
| `Chains.FromIdentityExactly` | witan/src/rotation.rs:255-267 | an identity has a lineage exactly when its id is the hash of its keys; it is the one of no records with those keys and its label |
| `Chains.Convergence` | witan/src/rotation.rs:323-338 | a replica holding k records of a valid chain, given records of that chain in any order, with losses and repeats and refusals ignored, always holds a prefix of it no shorter than before; once the missing records have come as a subsequence in order, it holds the whole chain |
| `Chains.ForkAccountability` | witan/src/rotation.rs:323-338 | two valid chains from one inception, neither a prefix of the other, differ first at some i where both records follow from the same state: both authorized by its one key, or both revealing the one committed key, or a hash collision is exhibited, over two different inputs or with nothing but the signatures different; each record is refused as a fork by the other lineage |
| `Chains.SharedStateAccounts` | witan/src/rotation.rs:483-542 | two records accepted against one state are both authorized by its signing key, or reveal one committed key, or exhibit a collision; they are signed over different inputs or differ only in their signatures |
| `Chains.ForkReportedExactly` | witan/src/rotation.rs:323-332 | a fork is reported exactly when the chain has a different record at that sequence, whether or not the offered one is valid |
| `Rotation.SigningInputInjective` | witan/src/rotation.rs:151-169 | two records with one signing input agree in every field but the two signatures |
| `Rotation.DigestInputInjective` | witan/src/rotation.rs:185-197 | two id and state pairs with one digest input are equal |
| `Succession.RecordPinsState` | witan/src/rotation.rs:483-500 | a record accepted by two lineages as the next one means they have the same id and the same current state, and the same inception keys, or a collision is exhibited |
| `Succession.ReplayedOntoExactly` | witan/src/rotation.rs:18-19 | the next record of one lineage is the next record of another exactly when they have the same id and current state, or a collision is exhibited |
| `Succession.RecordOnTwoChains` | witan/src/rotation.rs:185-197 | two chains whose first rotations differ only in their time end in one state, and one record continues both: the documented claim fails here |
| `Succession.EndorsementIsExact` | witan/src/identity.rs:132-186 | a signature under one context over one record endorses no other context and no other record |
| `Succession.PossessionIsNotAuthorization` | witan/src/rotation.rs:58-61 | for any two records, what is signed to prove possession is never what is signed to authorize |
| `Provenance.RecordsComeFromHolders` | witan/src/rotation.rs:418-542 | over any run of replicas that apply any records, load any bytes, rotate and recover, a path of records leads from the inception keys to the current ones: each record onto a key of the system was drafted by a step that moved its holder onto it, and each replaces a key of the system by its holder's own rotate step or reveals a committed key; or the signature shown is forged |
| `Provenance.HappensKeepsSound` | witan/src/rotation.rs:450-480 | every event keeps: all replicas valid, and every signature accounted for by a rotate or recover step, as authorization or as possession, or by another context |
| `Provenance.ChainStaysOwn` | witan/src/rotation.rs:514-541 | a chain from a key of the system that commits only to keys of the system and rests on no forged signature stays among them, each record its holder's own step; or a collision with a commitment is exhibited |
| `Provenance.NoSuccessorWithoutConsent` | witan/src/rotation.rs:516-541 | with no commitment in force and no rotate step taken by the holder of the current key, a lineage accepts the records it has, and no new one unless its authorization is forged |
| `Succession.CommitmentLockOut` | witan/src/rotation.rs:514-533 | once a state carries a commitment, every record following it, in any two replicas, has the same new signing key, or exhibits a collision, and an empty authorization |
| `Succession.RotateSucceedsExactly` | witan/src/rotation.rs:418-480 | with signing that works, rotate succeeds exactly for the current key and a next key that meets the commitment, if any; the record is the one asked for and apply accepts it on the starting lineage |
| `Succession.RecoverSucceedsExactly` | witan/src/rotation.rs:436-480 | with signing that works, recover succeeds exactly when there is a commitment and it is met |
| `Lineages.KeyLineage.Apply` | witan/src/rotation.rs:323-338 | the object does what the apply rule says; a refused record leaves it as it was; the chain stays valid |
| `Lineages.KeyLineage.Decode` | witan/src/rotation.rs:374-411 | replaying the records in a loop gives the lineage the decoding rule gives, and it is valid |
| `Lineages.KeyLineage.Encode` | witan/src/rotation.rs:361-371 | the bytes are the encoding of the lineage, and its record count fits the length prefix |
| `Lineages.KeyLineage.FromIdentity` | witan/src/rotation.rs:255-267 | the lineage of an identity whose id is derived from its keys; otherwise refused |
| `Lineages.KeyLineage.Rotate` | witan/src/rotation.rs:418-431 | rotates as the rule says, or fails and changes nothing; the chain stays valid |
| `Lineages.KeyLineage.Recover` | witan/src/rotation.rs:436-448 | recovers as the rule says, or fails and changes nothing; the chain stays valid |
| `Lineages.KeyLineage.BuildAndApply` | witan/src/rotation.rs:450-480 | drafts, signs and applies one record, or fails and changes nothing |
| `Lineages.KeyLineage.PreviousKey` | witan/src/rotation.rs:304-310 | the key before the current one is the signing key of the state before last |
| `LineageCodec.RoundTrip` | witan/src/rotation.rs:361-411 | bytes decode to a lineage exactly when it is valid, they are its encoding, and they are within the size limit |
| `LineageCodec.DecodeIsEncoding` | witan/src/rotation.rs:374-411 | any bytes that decode re-encode to themselves |
| `LineageCodec.EncodeInjective` | witan/src/rotation.rs:361-371 | two valid lineages with one encoding are equal |
| `LineageCodec.EncodedSize` | witan/src/rotation.rs:83 | an encoding is 3201 bytes, plus the inception label, plus 3330 for each record and its label, commitment and signatures; this fixes which lineages fit the limit |
| `LineageCodec.ReplayRebuilds` | witan/src/rotation.rs:395-410 | replaying the rest of a valid chain onto a prefix of it rebuilds the whole lineage, current state included |
| `Wire.TakeAllPutAll` | witan/src/rotation.rs:547-560 | fields written one after another are read back, with whatever follows left over |
| `Wire.PutAllTakeAll` | witan/src/rotation.rs:547-560 | whatever is read, written again, gives the bytes that were read |
| `Wire.PutAllInjective` | witan/src/rotation.rs:547-560 | length-prefixed field lists of the same kinds that are equal as bytes, whatever follows them, are equal as fields |
| `Identity.TaggedInjective` | witan/src/identity.rs:132-186 | a tagged message determines its context and its message |
| `Identity.NodeIdPinsKeys` | witan/src/identity.rs:99-104 | equal node ids mean equal keys, or a collision is exhibited |
| `Layouts.SigningInputLayout` | witan/src/rotation.rs:151-169 | what is signed for a record is the tag and its nine unsigned fields in order, with big-endian numbers and lengths |
| `Layouts.DigestInputLayout` | witan/src/rotation.rs:185-197 | what is hashed for a state is the tag, the id and its five fields in order, with big-endian numbers and lengths |
| `Layouts.LineageLayout` | witan/src/rotation.rs:200-216 | an encoded lineage is the version, the inception keys and label, the record count and the records, each its eleven fields in order, little-endian |
| `Layouts.ProbeLayout` | witan/src/types.rs:202-222 | an encoded probe is its six fields in order, little-endian, with eight-byte lengths |
| `Layouts.AckLayout` | witan/src/types.rs:232-259 | an encoded ack is its eight fields in order |
| `Layouts.FinishLayout` | witan/src/types.rs:266-288 | an encoded finish is its six fields in order |
| `Layouts.FinishAckLayout` | witan/src/types.rs:294-320 | an encoded finish ack is its seven fields in order |
| `Layouts.EnvelopeLayout` | witan/src/types.rs:82-117 | an encoded envelope is its nine fields in order, the payload type as a four-byte index |
| `Layouts.PayloadTypeCodes` | witan/src/types.rs:39-73 | the five payload types have codes 0 to 4, and no other code is a type |
| `Layouts.ProbeDecodesExactly` | witan/src/handshake.rs:202-215 | bytes decode to a probe exactly when they start with its encoding |
| `Layouts.AckDecodesExactly` | witan/src/handshake.rs:279-295 | bytes decode to an ack exactly when they start with its encoding |
| `Layouts.FinishDecodesExactly` | witan/src/handshake.rs:398-412 | bytes decode to a finish exactly when they start with its encoding |
| `Layouts.FinishAckDecodesExactly` | witan/src/handshake.rs:521-533 | bytes decode to a finish ack exactly when they start with its encoding |
| `Layouts.EnvelopeDecodesExactly` | witan/src/envelope.rs:66-69 | bytes decode to an envelope exactly when they start with its encoding |
| `Messages.ProbeRoundTrip` | witan/src/types.rs:202-229 | an encoded probe decodes to itself, whatever bytes follow it |
| `Messages.AckRoundTrip` | witan/src/types.rs:232-263 | an encoded ack decodes to itself, whatever bytes follow it |
| `Messages.FinishRoundTrip` | witan/src/types.rs:266-291 | an encoded finish decodes to itself, whatever bytes follow it |
| `Messages.FinishAckRoundTrip` | witan/src/types.rs:294-322 | an encoded finish ack decodes to itself, whatever bytes follow it |
| `Messages.OneMagic` | witan/src/types.rs:10-20 | no bytes start with the magics of two kinds, so the order of the tests does not matter |
| `Messages.ClassifiedByMagic` | witan/src/types.rs:338-355 | bytes are classified as a handshake kind exactly when its magic follows the length prefix |
| `Messages.DispatchIsCorrect` | witan/src/types.rs:338-355 | bytes that decode as a message with its right magic are classified as that message |
| `Messages.TranscriptSplits` | witan/src/session.rs:126-137 | a concatenated probe, ack and finish whose probe and ack are exact encodings determines all three |
| `HandshakeOutcomes.HeaderCheckedExactly` | witan/src/handshake.rs:209-232 | a header passes exactly with the right magic, version 1 and an age of at most 30 s; a wrong magic is reported first, then a wrong version |
| `HandshakeOutcomes.ProbeCheckedExactly` | witan/src/handshake.rs:208-232 | a probe passes its checks exactly when it decodes and its header is right |
| `HandshakeOutcomes.AckCheckedExactly` | witan/src/handshake.rs:285-315 | an ack passes its checks exactly when it decodes, its header is right and its signing key has the right length |
| `HandshakeOutcomes.FinishCheckedExactly` | witan/src/handshake.rs:405-436 | a finish passes its checks exactly when it decodes, its header is right and its signing key has the right length |
| `HandshakeOutcomes.FinishAckCheckedExactly` | witan/src/handshake.rs:527-556 | a finish ack passes its checks exactly when it decodes and its header is right |
| `HandshakeOutcomes.ProbeSays` | witan/src/handshake.rs:162-196 | the probe carries the nonce, address, id and time, and the entry waiting for its answer that nonce and time |
| `HandshakeOutcomes.ProbeAnswered` | witan/src/handshake.rs:202-273 | a probe is answered exactly when it passes its checks; the ack echoes the nonce and carries the server's nonce, keys and id; the entry holds both nonces, both messages and the time |
| `HandshakeOutcomes.AckAnswered` | witan/src/handshake.rs:279-392 | an ack is answered exactly when it passes its checks, echoes the nonce of the probe sent there and its key can be encapsulated to; what the finish and the entry then hold |
| `HandshakeOutcomes.FinishAnswered` | witan/src/handshake.rs:398-515 | a finish is answered exactly when it passes its checks, a probe was answered there, its ciphertext decapsulates and the hash can be signed; the finish ack's session id, hash, MAC and signature, and the session, in terms of the cryptographic functions |
| `HandshakeOutcomes.FinishAckAcceptedExactly` | witan/src/handshake.rs:521-628 | a finish ack completes the handshake exactly when it passes its checks, a finish was sent there, it has the hash of the three messages, the MAC of that hash under the shared secret, and a signature of it that verifies under the server's key; what the session then holds |
| `HandshakeOutcomes.FinishAckRefusedExactly` | witan/src/handshake.rs:583-601 | a wrong hash is reported first, and a wrong MAC exactly when the hash is right |
| `HandshakeOutcomes.SessionIdPins` | witan/src/session.rs:103-123 | one session id means one secret, nonces, ciphertext and server id, for ciphertexts of one length, or the key derivation collides |
| `HandshakeRuns.CountedExactly` | witan/src/handshake.rs:162-628 | what the balance counts: entries created by probes sent or answered, sessions returned, entries over ten seconds old evicted, removed and overwritten ones |
| `HandshakeRuns.PendingConserved` | witan/src/handshake.rs:162-628 | over any run, probes and acks built plus entries at the start equal entries still pending plus sessions, evicted, removed, overwritten and discarded entries |
| `HandshakeRuns.SessionConsumesEntry` | witan/src/handshake.rs:440-453 | a session takes with it the entry of the right role for its address, and nothing else |
| `HandshakeRuns.NoSecondSession` | witan/src/handshake.rs:440-582 | while no probe arrives from an address, no finish from it can give a session unless one was awaited before; while none is sent to it, no finish ack can: replaying either never gives a second session |
| `HandshakeRuns.RolesArise` | witan/src/handshake.rs:162-273 | only a received probe makes a server entry, and only a sent probe a client entry |
| `HandshakeRuns.HonestHandshake` | witan/src/handshake.rs:162-628 | for all identities, nonces and clocks within the freshness checks, untampered delivery to untouched entries makes all five steps succeed; both entries are gone, session ids and transcript hashes agree, each side records the other's id and signing key, and the client's stored fields derive the same session id |
| `HandshakeAgreement.HandshakeAgreement` | witan/src/handshake.rs:521-628 | on a network that may deliver any bytes, over any interleaving of calls, evictions and key rotations, a client that completes a handshake under a key of the system has the transcript of a finish that key's holder answered, and the same transcript hash in both records, or a hash collision is exhibited, or the finish ack's signature is forged |
| `HandshakeRuns.FreshnessExactly` | witan/src/handshake.rs:225-232 | a handshake message is out of the window exactly when it is from too long ago; this meets the documented two-sided check exactly when it is not from further ahead than the window, and any future time passes |
| `SessionIds.SessionIdUnchecked` | witan/src/handshake.rs:521-628 | a finish ack that is accepted would be accepted with any other session id, and the session would carry that id |
| `SessionIds.SessionIdsAgreeExactly` | witan/src/handshake.rs:495-628 | in every run, over the same three messages, with a KEM that inverts and a server that did not rotate in between, both records carry one session id exactly when the received id is the one the client's own stored fields derive |
| `SessionIds.ServerNamesTheClaim` | witan/src/handshake.rs:398-515 | the server's session names the id and key the finish claims, and a finish it answers it would answer with any other id and any other key of the right length |
| `SessionIds.SessionsNameEachOther` | witan/src/handshake.rs:490-628 | in every run, over the same three messages, the server's session names the id and key of the client's own finish, and the client's session those of the server's own ack |
| `SessionIds.OneNoncePerAnswer` | witan/src/handshake.rs:398-628 | two client entries that agree with the same answered finish have the same client nonce, or a collision of transcripts is exhibited |
| `SessionIds.HappensKeepsDerived` | witan/src/handshake.rs:279-515 | every event keeps: client entries hold their probe's nonce, repeat their ack and hold what they encapsulated, server entries hold their ack's nonces, and server sessions are derived from those |
| `HandshakeAgreement.HappensKeepsSound` | witan/src/handshake.rs:398-515 | every event keeps: each signature is accounted for by an answered finish or another context, and each answered finish is truthful |
| `HandshakeAgreement.SameMessages` | witan/src/handshake.rs:398-628 | when the probe the server received and the ack the client received have no trailing bytes, the agreed transcript is the same three messages |
| `Handshakes.HandshakeManager.BuildProbe` | witan/src/handshake.rs:162-196 | puts one client entry at the address and returns its probe |
| `Handshakes.HandshakeManager.ProcessProbeBuildAck` | witan/src/handshake.rs:202-273 | the server's first step: result and pending table, in every branch |
| `Handshakes.HandshakeManager.ProcessAckBuildFinish` | witan/src/handshake.rs:279-392 | the client's second step: result and pending table, in every branch |
| `Handshakes.HandshakeManager.ProcessFinishBuildFinishAck` | witan/src/handshake.rs:398-515 | the server's second step: the pending entry is taken before its role is looked at |
| `Handshakes.HandshakeManager.ProcessFinishAck` | witan/src/handshake.rs:521-628 | the client's last step: the pending entry is taken before its role is looked at |
| `Handshakes.HandshakeManager.ProcessIncoming` | witan/src/handshake.rs:634-679 | the step the classified bytes call for; a completed session is stored under its address |
| `Handshakes.HandshakeManager.EvictTimedOut` | witan/src/handshake.rs:713-724 | removes and reports exactly the entries older than ten seconds |
| `ConstantTime.ConstantTimeEq` | witan/src/handshake.rs:746-749 | accumulating differences over every byte answers whether the two are equal |
| `Dedup.TableExactly` | witan/src/dedup.rs:28-42 | whatever the clock does, the table holds exactly the ids inserted and not swept since, each with its latest insertion |
| `Dedup.AgreesWithHistoryExactly` | witan/src/dedup.rs:28-42 | whatever the clock does, a lookup agrees with the plain history exactly when the id was never inserted, or its latest insertion has expired by now, or no sweep since read the clock at a time by which it had |
| `Dedup.LookupExactly` | witan/src/dedup.rs:28-31 | a lookup answers yes exactly when the latest insertion of the id is recent and has not been swept |
| `Dedup.SweptByPosition` | witan/src/dedup.rs:39-42 | to have been swept is to have, after the latest insertion, a lookup or an eviction that read the clock more than the time-to-live past it |
| `Dedup.LazyCacheRefinesHistory` | witan/src/dedup.rs:28-42 | so with a clock that never goes back a lookup answers whether the latest insertion is at most the time-to-live old |
| `Dedup.AcceptedAgainOnlyLate` | witan/src/gossip.rs:211-221 | whatever the clock reads next, a published message is only accepted again more than the time-to-live later, exactly when its publication has not been swept |
| `Dedup.AcceptedExactly` | witan/src/gossip.rs:211-221 | of two consecutive offers of one message, the second is accepted exactly when it is more than the time-to-live after the first or a sweep between them read the clock that far ahead |
| `Dedup.AcceptedFarApart` | witan/src/gossip.rs:211-221 | so with a clock that never goes back any two accepted publications of one message are more than the time-to-live apart |
| `Dedup.ClockBackForgets` | witan/src/dedup.rs:28-42 | a concrete history, with a clock that goes back, in which a recent id has been swept and is forgotten |
| `Dedup.DedupCache.IsDuplicate` | witan/src/dedup.rs:28-31 | the lookup evicts, and answers whether the id is recent and not swept, for any clock |
| `Dedup.DedupCache.Insert` | witan/src/dedup.rs:34-36 | the insert is recorded in the table and the history |
| `Dedup.DedupCache.EvictExpired` | witan/src/dedup.rs:39-42 | eviction changes only the table's stale part |
| `Quorum.RecordedAreAckers` | witan/src/quorum.rs:29-34 | after any log of acks, the peers counted for a message are exactly those that acked it |
| `Quorum.OrderIrrelevant` | witan/src/quorum.rs:29-46 | two logs with the same acks, in any order and multiplicity, decide quorum alike |
| `Quorum.QuorumKept` | witan/src/quorum.rs:29-46 | recording an ack never loses a quorum |
| `Quorum.QuorumReachedExactly` | witan/src/quorum.rs:39-46 | quorum is reached exactly with an ack count of at least the fraction of the peers, and never with no peers |
| `Quorum.QuorumsMeetExactly` | witan/src/quorum.rs:39-46 | any two quorums among the known peers share more than t of them exactly when twice the threshold exceeds the number of peers by more than t |
| `Quorum.QuorumIntersection` | witan/src/quorum.rs:39-46 | with a fraction of at least two thirds, any two messages with quorum share at least a third of the peers, more above it, and so one outside any floor((N-1)/3) faulty ones |
| `Quorum.TwoThirdsNeeded` | witan/src/quorum.rs:39-46 | for every fraction below two thirds there is a number of peers at which two quorums can share only faulty ones, so two thirds is the exact condition for the documented bound |
| `Quorum.DefaultThresholdReachable` | witan/src/quorum.rs:39-46 | with the default fraction, the peers left when floor((N-1)/3) are silent reach the threshold exactly up to N = 100, 200 or 300, as N is 1, 2 or 0 modulo 3 |
| `Quorum.QuorumTracker.RecordAck` | witan/src/quorum.rs:29-34 | the ack is recorded as the rule says |
| `Quorum.QuorumTracker.HasQuorum` | witan/src/quorum.rs:39-46 | decides quorum as the rule says, never for no peers |
| `Quorum.QuorumTracker.Prune` | witan/src/quorum.rs:54-57 | keeps exactly the known messages and their ackers |
| `Envelopes.EnvelopeRoundTrip` | witan/src/envelope.rs:60-69 | an encoded envelope decodes to itself, whatever bytes follow it |
| `Envelopes.MessageIdPins` | witan/src/envelope.rs:11-16 | one message id means one type and payload, or a collision is exhibited |
| `Envelopes.VerifiedExactly` | witan/src/envelope.rs:80-131 | verification succeeds exactly for version 1, the hash of type and payload as id, an age within the window, hops left, a payload within the limit and a signature of id, type and payload that verifies under the sender's key; it never answers false |
| `Envelopes.BuiltCarries` | witan/src/envelope.rs:29-57 | a built envelope carries the given type, payload, time and hops, the hash of type and payload as id, and the sender's id, key and signature of them; building fails exactly when signing does |
| `Envelopes.SenderCheckedExactly` | witan/src/rotation.rs:344-358 | the sender check passes exactly for the lineage's id and current key; another id is reported first, then another key |
| `Envelopes.ReplayedExactly` | witan/src/envelope.rs:101-105 | an intact envelope is a replay exactly when it is older than the window |
| `Envelopes.DocumentedWindowExactly` | witan/src/envelope.rs:101-105 | the documented two-sided window is met exactly when the envelope is not an intact one from further ahead than the window |
| `Envelopes.FutureEnvelopeAccepted` | witan/src/envelope.rs:80-131 | an envelope dated any distance beyond the window in the future is accepted |
| `Envelopes.SentEnvelopeAccepted` | witan/src/envelope.rs:29-131 | a built envelope within the limits decodes to the given type, payload, time and hops from this sender, verifies anywhere in the window, and passes the sender check exactly against lineages of its id that end in its key |
| `Envelopes.SenderAgainstPrefix` | witan/src/rotation.rs:344-358 | against a prefix of the sender's own lineage the check passes exactly when that prefix ends in the same key, and otherwise fails as a stale key |
| `Engine.GossipEngine.ProcessHandshakeBytes` | witan/src/gossip.rs:79-137 | bytes are handled by the step of their kind; a completed handshake files its session and offers the peer to the mesh, everything else leaves sessions and mesh alone |
| `Engine.GossipEngine.ConnectPeer` | witan/src/gossip.rs:60-74 | a peer without a session has a new probe pending; a connected one is refused and nothing changes |
| `Engine.GossipEngine.EncodeEnvelope` | witan/src/gossip.rs:231-243 | the encoding of an envelope built under the identity in use, or the error of building it |
| `Engine.DispatchedExactly` | witan/src/gossip.rs:79-137 | bytes go to the step of their kind with its table, reply or fault; a session comes of them exactly when they are a finish that is answered or a finish ack that is accepted |
| `Engine.DispatchFiles` | witan/src/gossip.rs:106-131 | a completed handshake is active, filed under its address, and used up the entry of the role its reply belongs to |
| `Engine.GossipEngine.CompleteHandshake` | witan/src/gossip.rs:145-151 | the session is stored, the peer joins the mesh if there is room, and the mesh invariant holds |
| `Engine.GossipEngine.DisconnectPeer` | witan/src/gossip.rs:154-163 | a known peer leaves sessions, mesh and pending handshakes together; an unknown one changes nothing |
| `Engine.OfferedExactly` | witan/src/gossip.rs:167-173 | an offered peer is in the mesh exactly when it already was or there was room; it comes last and nothing else changes |
| `Engine.WithoutSplits` | witan/src/gossip.rs:175-177 | removal goes element by element, so it keeps the order and multiplicity of everything else |
| `Engine.WithoutWithin` | witan/src/gossip.rs:175-177 | removing a peer removes just it from the mesh and keeps the mesh within the remaining sessions |
| `Engine.GossipEngine.Publish` | witan/src/gossip.rs:193-228 | a message is accepted exactly when the cache does not remember it; its id enters the cache before it is signed; counters follow the outcome |
| `Engine.GossipEngine.VerifyEnvelopeBytes` | witan/src/gossip.rs:248-281 | undecodable bytes are not counted; every other envelope counts once, as received or as dropped |
| `Engine.GossipEngine.Heartbeat` | witan/src/gossip.rs:337-373 | afterwards every tracked quorum is of a live cache id, timed-out handshakes are gone, and a mesh that was below its low mark has exactly the smaller of its target and the number of sessions; any other mesh is unchanged in size and content |
| `Engine.GraftedWithin` | witan/src/gossip.rs:350-367 | adding the candidates keeps the mesh distinct, within sessions and bound, and of exactly the target size or all sessions |
| `Engine.GossipEngine.Graft` | witan/src/gossip.rs:350-367 | the loop adds exactly the candidates, after the peers already there |
| `Engine.CountersAreSizes` | witan/src/gossip.rs:145-163 | the mesh counter is the mesh size, and the peer counter the number of sessions below the counter's width |
| `Engine.GossipEngine.RotateKeysUnderId` | witan/src/gossip.rs:394-410 | lineage and identity move together, or neither changes |
| `Api.Node.Init` | witan/src/api.rs:76-102 | a first start installs an engine and a lineage of the same keys; a second start changes nothing |
| `Api.Node.InitWithLineage` | witan/src/api.rs:109-136 | a start with a stored lineage installs it under its own id exactly when the seeds are its current keys; a failed start installs nothing |
| `Api.Node.RotateKeys` | witan/src/api.rs:274-284 | fresh keys, their id and their lineage are installed together |
| `Api.Node.RotateKeysUnderId` | witan/src/api.rs:294-314 | success appends one record onto the keys of the given seeds with the given label, time and commitment, installs those seeds under the old id, and returns the encoding of the lineage now held; failure leaves identity and lineage as they were; the two stay coupled |
| `Api.Node.VerifyEnvelopeFromLineage` | witan/src/api.rs:358-372 | as plain verification, and the sender must be the lineage's node with its current key; each decodable envelope counts once, nothing else counts, and identity and mesh stay |
| `Api.Node.BuildFinishAck` | witan/src/api.rs:245-263 | completes a handshake, counts it and files its session without touching the mesh; a failure changes neither sessions nor counters; keeps the mesh invariant and the coupling |
| `Api.Node.Publish` | witan/src/api.rs:159-162 | publishes as the engine does, leaving identity and lineage coupled |
| `Api.Node.ConnectPeer` | witan/src/api.rs:168-171 | connects as the engine does, leaving identity and lineage coupled |
| `Api.Node.DisconnectPeer` | witan/src/api.rs:174-176 | disconnects as the engine does, leaving identity and lineage coupled |
| `Api.Node.ProcessHandshakeBytes` | witan/src/api.rs:217-223 | handles handshake bytes as the engine does, leaving identity and lineage coupled |
| `Api.Node.VerifyEnvelope` | witan/src/api.rs:189-192 | verifies as the engine does, leaving identity and lineage coupled |
| `Api.Node.EncodeEnvelope` | witan/src/api.rs:195-198 | encodes as the engine does, changing nothing |
| `Api.Node.GetStats` | witan/src/api.rs:206-212 | maintains as the engine does and returns the counters, leaving identity and lineage coupled |
| `Api.Node.BuildHandshakeAck` | witan/src/api.rs:229-239 | answers a probe as the manager does, leaving identity and lineage coupled |
| `Api.Node.GetKeyLineage` | witan/src/api.rs:334-336 | the encoding of the lineage held, and nothing changes |
| `Api.RecoverLineage` | witan/src/api.rs:320-331 | recovers from stored bytes as the rule says, errors in the program's order; on success the bytes encode the stored lineage with one more record onto the keys of the given seeds, with the given label, time and commitment |
| `Api.RecoverySucceedsExactly` | witan/src/api.rs:320-331 | with signing that works, recovery succeeds exactly when the bytes hold a valid lineage whose current state commits to the key of the given seed, and seeds and commitment have their lengths |
| `Api.SeedBytesExactly` | witan/src/api.rs:380-390 | seeds are taken exactly at 96 and 32 bytes, and give the keys they generate, the hash of those as id, and the label |
| `Api.CommitmentParsedExactly` | witan/src/api.rs:400-410 | a commitment is taken exactly when absent or 32 bytes, and as it is |
| `Api.FreshIsCoupled` | witan/src/rotation.rs:255-267 | an identity just made from seeds always has a lineage, and is coupled to it |
| `Api.RotationInstalls` | witan/src/gossip.rs:394-410 | a successful rotation leaves the next keys coupled to the lineage under the old id, one record longer |
| `Api.CoupledNodeRotates` | witan/src/api.rs:294-314 | a coupled node is never refused for its id or key: it rotates exactly when the next key meets the commitment in force |
| `Api.RestartReproduces` | witan/src/api.rs:109-136 | a restart with the current seeds and the stored bytes gives the same identity and lineage, exactly when the bytes fit the size limit |
| `Api.RestartRefusedExactly` | witan/src/api.rs:109-136 | a restart is refused for missing seeds, bytes that do not decode, or seeds that are not the current keys', in that order, and otherwise installs the lineage |
| `Api.RestartedIsCoupled` | witan/src/api.rs:109-136 | whatever a restart installs is coupled, has the given seeds, and encodes to the given bytes |
| `Api.PlainStartLosesId` | witan/src/api.rs:76-102 | after a change of keys a plain start with the current seeds gets another id, or a collision is exhibited |
| `Api.RecoveredNodeStarts` | witan/src/api.rs:320-331 | recovered bytes within the limit start a node with the recovered seeds under its old id, one record on |
| `Api.PinnedSenderAccepted` | witan/src/gossip.rs:231-243 | an envelope of a coupled node within the limits is accepted everywhere, and against the first k records of its lineage exactly when the key they end in is still the node's |

## Left out

- ML-DSA-65, ML-KEM-768, X25519, SHA-256, HKDF and HMAC themselves: foreign libraries, abstract here.
- Generating or restoring keys from seeds of the right length, reading random bytes, and computing the canonical KEM public key: taken to succeed.
- KEM public keys and ciphertexts as JSON text: an abstract text, with an encapsulation that may fail on it.
- bincode's encoder failing: encoding is total, so the branch after a rotation where it would fail cannot be taken.
- Sequence overflow: the program adds 1 to a 64-bit sequence without a check; the model refuses a record past 2^64 - 1, which no lineage within the size limit can reach.
- Quorum.Required: uses exact arithmetic on the fraction; the program multiplies and rounds up in floating point, which can differ by one near an integer.
- ConstantTime.ConstantTimeEq: models the result and the loop over every byte, not the time it takes.
- HandshakeContext states `Idle`, `Complete` and `Failed`: never stored in the table by any step; for the same reason `take_session` finds nothing in this table, which is what its model returns.
- HandshakeAgreement.HandshakeAgreement: is about the transcript; the session id, which it does not cover, is the subject of SessionIds.
- SessionIds.SessionIdsAgreeExactly: asks that the server did not rotate between its ack and its answer; after a rotation its KEM key or its id is another one.
- Handshakes.HandshakeManager.EvictTimedOut: the evicted addresses are a set, not a list in the map's order.
- Engine.GossipEngine.Heartbeat: which peers are grafted depends on a hash map's order in the program; here it is any choice of the exact number.
- The API calls that only render JSON (peers, identity, session, envelope, lineage summary) or only hash a key: they change nothing.
- Configuration: parsing, hex seeds and defaults; the model starts from the resolved configuration with the order of the mesh degrees it guarantees.
- The configured node id override and the heartbeat interval, which no modelled code reads.
- Buffers that the program fills byte by byte (signing inputs, digests, tagged messages): built by concatenation.
- Mutex poisoning and threads: the two cells are fields of one object, used by one caller at a time.
- Error texts, JSON responses and version strings: only the kind of error is kept, with the reason as a label.
- 32-bit `usize`: lengths and counts are not truncated.
- `witan/src/component.rs`, `witan/src/wasi_exports.rs` and the interface files: delegation and memory marshalling.
