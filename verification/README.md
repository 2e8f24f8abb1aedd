# Soroban SAS: a verified model

A Dafny model of the Soroban attestation service: its indexer, its attestation
contract, its schema registry, its Merkle batches, its cross-chain verifier and
its did:key encoder. The proofs are about whole runs: what a sequence of calls
keeps, which readings of stored data are right, and which are not.

`dafny verify dfyconfig.toml` checks everything.

## How it is built

- A panic is an `Err` that leaves the state as it was. Where a contract writes
  before it panics, the class does too, and rolls back.
- Storage is one field per kind of key: maps for persistent entries, sets for
  flags. Host authorisation, signatures, resolver answers, registry answers,
  ledger numbers and hashes are parameters, and every theorem holds for all of
  them. A hash is any function.
- Loops in the contracts are loops here, each proved against a function; the
  run theorems are about those functions.
- What an operation asks for and what it writes is said in terms of arguments and
  stored fields, beside the functions the methods are proved against.
- `ghost` fields record the accepted calls, so that a class invariant is a
  statement about every run. The attestation contract keeps the whole run of
  committed operations; its storage is always the last state of that run.

| file | what it models |
|---|---|
| `Base.dfy`, `Bytes.dfy` | shared types, big-endian numbers |
| `Chunks.dfy`, `ReverseWalk.dfy`, `IndexLog.dfy`, `Indexer.dfy` | the indexer: chunked histories, forward and backward readers, the storage as a mirror of the log, the contract |
| `Sas.dfy`, `SasRuns.dfy`, `SasRules.dfy`, `SasBatch.dfy`, `SasStore.dfy`, `SasCalls.dfy`, `SasContract.dfy` | the attestation contract: its operations, its runs, what each operation asks for, batch revocation, the two storage layouts, the entry points as functions and as methods |
| `RateLimit.dfy`, `SasQuota.dfy` | the sliding-window issuance quota, and what it means for runs of the contract |
| `Ownership.dfy`, `Forest.dfy`, `SchemaText.dfy`, `Registry.dfy` | the schema registry: owner sets and transfers, link forests, schema fields, registration |
| `Merkle.dfy` | batch trees and inclusion proofs |
| `CrossChain.dfy` | the wire format and the revision machine |
| `DidKey.dfy` | base58 in place |

## Properties that are false of the code

Each has a concrete counterexample or an exact condition, for all inputs.

- Recipient and attester histories share chunk keys. Both readings of an address
  are right if and only if it has one role, or its only entry is a single
  self-attestation (`IndexLog.BothReadingsExact`, `IndexLog.SharedKeysMislead`).
- The expiration index is written in chunks of 100 and read with the configured
  capacity. The complete read is right if and only if the capacity is 100 or at
  most 100 entries are stored (`Indexer.ExpiryReadingExact`,
  `Indexer.ExpiryMisleads`); at another capacity a non-empty page is right if and
  only if it starts below the capacity and ends within the first 100
  (`Indexer.ExpiryPageExact`), so that all pages are right if and only if
  everything fits one configured chunk (`ReverseWalk.ExpiryPagesExact`).
- The newest-first read divides by 100 whatever the capacity. An unfiltered page
  is right if and only if the capacity is 100 or its cursor is below the capacity
  (`Indexer.ReverseReadingExact`, `Indexer.ReverseMisleads`).
- Migrating a legacy record changes a reading unless the record has no activation
  time, or the side entry holds it already, or neither a side entry nor a packed
  row exists (`SasStore.MigrateExact`, `SasStore.MigrationMisreads`).
- Pruning keeps references closed if and only if nothing refers to the pruned
  record (`SasRuns.PruneClosedExact`), and otherwise can lead to a reference cycle
  (`SasRuns.PruneCanCloseCycle`).
- Revocation at close time 0 leaves the record verifying, and only then
  (`SasRuns.RevokeTakesEffect`); it then verifies for good
  (`SasRuns.RevokedAtZero`).
- A schema with an approval threshold above 1 can change hands without it, in two
  ways. Its creator can offer it and the other side claim it
  (`Ownership.ClaimBypassesThreshold`). And any single owner can lower the
  threshold, because configuring the owner set asks for one owner only, and then
  hand the schema over (`Ownership.ReconfigurationBypassesThreshold`);
  `Ownership.OneOwnerSuffices` says exactly who can. Over a stretch without
  configurations and claims the threshold holds (`Ownership.ThresholdHolds`), and
  `Ownership.MovesExactly` says which single calls move such a schema.

## Where the documentation and the code differ

The model follows the code.

- The delegation nonce is documented to start at 1
  (contracts/sas/src/lib.rs:3700-3713); the code also accepts 0 first
  (`SasRuns.NonceAccepted`).
- A second approval by one owner is documented as `SchemaAlreadyExists`
  (contracts/schema-registry/src/lib.rs:1563-1569); the code answers
  `InvalidValue`.
- Schemas with several owners are documented to move only through
  propose and approve, so that no individual owner can bypass the set
  (contracts/schema-registry/src/lib.rs:572-576); the claim path does not ask the
  owner set, and one owner can lower the threshold by configuring the set anew.
- `get_proof` is documented to return the latest V2 proof
  (contracts/cross-chain-verifier/src/lib.rs:329); a later V1 update removes it
  (`CrossChain.Verifier.GetProof`).

## Model

| member | source | states |
|---|---|---|
| `Chunks.ChunkCapacity` | contracts/indexer/src/lib.rs:194-204 | the capacity in force is the setting brought into 25 to 100, and the default when none is set |
| `Chunks.Quotient` | contracts/indexer/src/lib.rs:355-364 | the chunk number and offset defined by counting chunks are the quotient and the remainder |
| `Chunks.AppendExtends` | contracts/indexer/src/lib.rs:355-401 | an append at the counter extends the represented history by the UID, spilling into the next chunk when one is full |
| `Chunks.AppendExact` | contracts/indexer/src/lib.rs:365-401 | whatever is stored, the UID goes to the end of the chunk the counter points at, or of the next one if that is full, and no other chunk changes |
| `Chunks.AppendFrame` | contracts/indexer/src/lib.rs:465-511 | an append under one key leaves all chunks of every other key alone |
| `Chunks.ScanIsSlice` | contracts/indexer/src/lib.rs:608-646 | the chunk-skipping forward read of a window is exactly that slice of the history, at any capacity |
| `Chunks.CollectFiltered` | contracts/indexer/src/lib.rs:568-600 | the complete read is the forward scan without inactive entries; the loop terminates although it skips chunks |
| `Chunks.CollectPage` | contracts/indexer/src/lib.rs:608-646 | a page is the scan of `[cursor, min(cursor + limit, total))`, empty beyond the end |
| `Chunks.CollectPageFiltered` | contracts/indexer/src/lib.rs:1718-1769 | the active-only page is the first `limit` active entries of the suffix at the cursor, with the chunk in hand reused across turns |
| `Chunks.KeptMember` | contracts/indexer/src/lib.rs:559-567 | the entries an active-only read keeps are those without a status or with status `Active` |
| `ReverseWalk.CollectReversePage` | contracts/indexer/src/lib.rs:671-719 | the backward loop returns the entries and the cursor of the backward scan, and nothing for empty, zero-limit and out-of-range reads |
| `ReverseWalk.ScanIsPage` | contracts/indexer/src/lib.rs:671-719 | on chunks of 100, and below the capacity of smaller ones, the backward scan is the page of the plain history: chunk boundaries do not show |
| `ReverseWalk.PageCursor` | contracts/indexer/src/lib.rs:694-718 | a page with a next cursor is full, and the cursor moves strictly down |
| `ReverseWalk.PageMember` | contracts/indexer/src/lib.rs:671-719 | a newest-first page shows entries of the history, and only active ones unless all are asked for |
| `ReverseWalk.PageExact` | contracts/indexer/src/lib.rs:671-719 | a page followed by what its cursor leaves is everything that was pending: no gap and no repeat |
| `ReverseWalk.WalkNewestFirst` | contracts/indexer/src/lib.rs:671-719 | following the cursor with any positive limits terminates and yields the reverse of the filtered history |
| `ReverseWalk.NewestIsReversal` | contracts/indexer/src/lib.rs:648-670 | newest-first order is the reverse of the kept entries |
| `ReverseWalk.ExpiryWindowExact` | contracts/indexer/src/lib.rs:608-646 | a non-empty window of chunks of 100, read at a smaller capacity, is right if and only if it starts below the capacity and ends within the first 100 |
| `ReverseWalk.ExpiryReadExact` | contracts/indexer/src/lib.rs:513-543 | chunks of 100 read at another capacity give the history if and only if the capacity is 100 or one chunk holds it |
| `ReverseWalk.ExpiryPagesExact` | contracts/indexer/src/lib.rs:1179-1191 | all pages of chunks of 100 are right if and only if the capacity is 100 or everything fits one chunk of the capacity |
| `ReverseWalk.ReverseReadExact` | contracts/indexer/src/lib.rs:694-718 | at every cursor an unfiltered backward page is right, in entries and cursor, if and only if the capacity is 100 or the cursor is below the capacity |
| `IndexLog.InsertHolds` | contracts/indexer/src/lib.rs:910-921 | the four appends of an entry, seen from a key with one role, append the UID exactly when the entry selects that key |
| `IndexLog.SoleExact` | contracts/indexer/src/lib.rs:355-401 | a key has one role if and only if no indexed record names the address in the other role |
| `IndexLog.InsertMirrors` | contracts/indexer/src/lib.rs:863-938 | every first insertion keeps all counters and, for keys with one role, all chunks equal to the log |
| `IndexLog.InsertSum` | contracts/indexer/src/lib.rs:910-921 | an insertion adds exactly one to the sum of the counters of each dimension |
| `IndexLog.BothReadingsExact` | contracts/indexer/src/lib.rs:355-401 | both readings of an address are right if and only if its roles are separate |
| `IndexLog.SharedKeysMislead` | contracts/indexer/src/lib.rs:910-914 | any run of two calls in which an address receives one attestation and issues another is misread, at every capacity |
| `Indexer.RecordedGrows` | contracts/indexer/src/lib.rs:863-903 | over any calls the log only grows at its end, by at most one entry a call |
| `Indexer.FiledUnderFour` | contracts/indexer/src/lib.rs:904-921 | an entry is listed under its recipient, its schema, its attester and its expiration bucket, at the end, and under no other key |
| `Indexer.FirstCallCounts` | contracts/indexer/src/lib.rs:863-903 | over any calls, the first that indexes a UID decides what is recorded about it |
| `Indexer.EnrollConsistent` | contracts/indexer/src/lib.rs:408-463 | membership flags and direct counts keep agreeing with the idempotency records and the log |
| `Indexer.InsertFaithful` | contracts/indexer/src/lib.rs:863-938 | a first insertion keeps everything the storage promises: records, flags, counts, counters, chunks and the equal sums |
| `Indexer.ExpiryReadingExact` | contracts/indexer/src/lib.rs:1179-1191 | in every reachable state the complete read of an expiration bucket is right if and only if the capacity is 100 or it holds at most 100 |
| `Indexer.ExpiryPageExact` | contracts/indexer/src/lib.rs:1179-1191 | in every reachable state at a smaller capacity than 100 a non-empty page of an expiration bucket is right if and only if it starts below the capacity and ends within the first 100 |
| `Indexer.ExpiryMisleads` | contracts/indexer/src/lib.rs:513-543 | a run of 101 insertions after which the complete read of the bucket is wrong, at every capacity below 100 |
| `Indexer.ReverseReadingExact` | contracts/indexer/src/lib.rs:1291-1305 | in every reachable state an unfiltered newest-first page of a key with one role is right, at every cursor, if and only if the capacity is 100 or the cursor is below the capacity |
| `Indexer.ReverseMisleads` | contracts/indexer/src/lib.rs:1291-1305 | the same run of 101 insertions makes the newest-first reader show a wrong first entry, at every capacity below 100 |
| `Indexer.Indexer.constructor` | contracts/indexer/src/lib.rs:194-204 | a new indexer has an empty log and the clamped capacity |
| `Indexer.Indexer.AppendUid` | contracts/indexer/src/lib.rs:355-401 | reading the counter, loading the chunk, spilling, storing and counting is one append |
| `Indexer.Indexer.FlagRecipient` | contracts/indexer/src/lib.rs:408-432 | a repeated recipient pair is not counted twice |
| `Indexer.Indexer.FlagSchema` | contracts/indexer/src/lib.rs:439-463 | a repeated schema pair is not counted twice |
| `Indexer.Indexer.IndexAttestation` | contracts/indexer/src/lib.rs:863-938 | a first call records the metadata and adds the UID to the four lists its fields name and to no other; an identical retry changes nothing, and a call with other metadata is refused |
| `Indexer.Indexer.HandleRevoke` | contracts/indexer/src/lib.rs:943-946 | the UID counts as closed from now on, and all histories stay |
| `Indexer.Indexer.HandleReplace` | contracts/indexer/src/lib.rs:951-955 | the old UID counts as closed from now on, and all histories stay |
| `Indexer.Indexer.Serve` | contracts/indexer/src/lib.rs:863-955 | after any calls, each UID is recorded with the metadata of its first call, and exactly the UIDs a callback has named are closed |
| `Indexer.Indexer.Listing` | contracts/indexer/src/lib.rs:863-921 | in every reachable state a key lists exactly the UIDs that were indexed with it |
| `Indexer.Indexer.GetFiltered` | contracts/indexer/src/lib.rs:1131-1140 | where the exact condition holds, which for expiration buckets is capacity 100 or at most 100 entries, the read lists the UIDs of the key in first-insertion order, without the closed ones if asked; a closed UID is in no active-only read, whatever the condition |
| `Indexer.Indexer.GetPage` | contracts/indexer/src/lib.rs:1193-1230 | where the exact condition on the window holds, the paginated read equals the slice of the history at the cursor |
| `Indexer.Indexer.GetPageFiltered` | contracts/indexer/src/lib.rs:1718-1769 | for a key with one role the page holds the first UIDs from the cursor on, at most `limit`, and no closed one if only active ones are asked for |
| `Indexer.Indexer.GetReversePage` | contracts/indexer/src/lib.rs:1291-1305 | where the exact condition on the cursor holds, the newest-first page is the right one for every limit and filter, and shows no closed UID if only active ones are asked for |
| `Indexer.Indexer.PageWhileServing` | contracts/indexer/src/lib.rs:1193-1230 | a page walk interleaved with arbitrary calls has seen exactly the first entries of the final history that its limits allow: nothing skipped, repeated, changed or held back |
| `Indexer.Indexer.ServeAndPage` | contracts/indexer/src/lib.rs:1193-1230 | one turn of that walk: other calls come in, then the next page extends what was seen |
| `Indexer.CatchesUp` | contracts/indexer/src/lib.rs:1193-1230 | once other calls pause, positive limits take the walk to the end of the history |
| `SasRuns.CallExtendsRun` | contracts/sas/src/lib.rs:1286-1320 | a call that commits extends a run by exactly its operations, so what holds of runs holds of sequences of calls |
| `SasRuns.RecordEvolves` | contracts/sas/src/lib.rs:1531-1740 | in every run, from any state, while a record is stored its content is frozen, its revocation time changes at most once, from 0 to the close time and only if revocable, and its expiration only rises |
| `SasRuns.NeverReopens` | contracts/sas/src/lib.rs:586-604 | the times at which a stored record verifies form one interval |
| `SasRuns.RevocationSticks` | contracts/sas/src/lib.rs:2159-2226 | a record revoked at a positive close time never verifies again |
| `SasRuns.RevokeTakesEffect` | contracts/sas/src/lib.rs:2159-2226 | a revocation leaves a verifying record verifying if and only if the close time is 0 |
| `SasRuns.RevokedAtZero` | contracts/sas/src/lib.rs:2159-2226 | a run at close time 0 issues and revokes a record that verifies ever after and can never be revoked again |
| `SasRules.VerifiesExactly` | contracts/sas/src/lib.rs:586-604 | over every run, a stored record verifies exactly from its activation time until the expiration set last, by its issuance or its last renewal, unless it was issued as revoked or revoked since at a positive close time |
| `SasRules.Provenance` | contracts/sas/src/lib.rs:1531-1740 | every record stored in a run comes from a step that issued it under the hash of its content, between two different parties, in time, with a stored reference, and with the consent of registry, quota and resolver; only its expiration and revocation have changed since |
| `SasRules.IssueReports` | contracts/sas/src/lib.rs:1531-1740 | issuing is refused for the first of seventeen faults, each said in terms of the arguments and the records, and for no other reason |
| `SasRules.RevokeReports` | contracts/sas/src/lib.rs:2159-2226 | the same for revoking |
| `SasRules.RenewReports` | contracts/sas/src/lib.rs:2375-2470 | the same for renewing: an expiration can be moved out or removed, of a revocable, unrevoked and unexpired record |
| `SasRules.Writes` | contracts/sas/src/lib.rs:1531-2226 | which records and anchors an operation writes |
| `SasRuns.RunAnchored` | contracts/sas/src/timestamp.rs:98-124 | in every state reached from the empty contract each record, and nothing else, has an issuance anchor at its time; a revocation anchor never precedes it and carries its revocation time; the UID is the hash of the content |
| `SasRuns.CheckClaim` | contracts/sas/src/timestamp.rs:160-227 | a claim is accepted if and only if it is a recorded anchor, not ahead of the ledger, and the anchors are in order; a missing anchor is told apart |
| `SasRuns.PruneClosedExact` | contracts/sas/src/lib.rs:1867-1891 | pruning keeps references closed if and only if nothing else refers to the record |
| `SasRuns.RefsAcyclic` | contracts/sas/src/lib.rs:1590-1598 | without pruning of referenced records the references are closed and no walk along them meets a record twice |
| `SasRuns.ReplacementChains` | contracts/sas/src/lib.rs:2314-2358 | a replacement chain has no repeats, keeps one attester and recipient, and all its replaced members carry a revocation anchor at their revocation time, so that they are revoked if close times are positive |
| `SasRuns.PruneCanCloseCycle` | contracts/sas/src/lib.rs:1867-1891 | issue, refer, prune and re-issue closes a cycle of two references, for any hash that tells the two contents apart |
| `SasRuns.WatermarkRises` | contracts/sas/src/lib.rs:3195-3238 | the watermark of an attester, and that of a recipient, never falls in any run |
| `SasRuns.SpentForever` | contracts/sas/src/lib.rs:3195-3323 | a nonce at or below one that was used or invalidated is refused forever, by use and by invalidation, for attesters and for recipients |
| `SasRuns.NoncesIncrease` | contracts/sas/src/lib.rs:3195-3323 | the nonces that are used or invalidated of one attester, or used of one recipient, strictly increase over any interleaving of the paths that take them |
| `SasRuns.NonceAccepted` | contracts/sas/src/lib.rs:3195-3238 | in every run a use of a nonce is accepted if and only if it is above every nonce the run has taken from that series; at first even 0 is |
| `SasBatch.CommitTouches` | contracts/sas/src/lib.rs:2159-2226 | a batch commit keeps the set of records and their attesters, touches only its own, leaves each of them anchored, and lowers no watermark |
| `SasBatch.BatchExact` | contracts/sas/src/lib.rs:2073-2157 | validating all against the starting state and then committing in order succeeds if and only if revoking one by one does, with the same records, anchors and nonces, for every list, signed or not, including duplicates and nonces that do not increase |
| `SasBatch.ProblemExact` | contracts/sas/src/lib.rs:2097-2140 | the first pass reports no problem if and only if the batch passes |
| `SasBatch.CommitIsDoAll` | contracts/sas/src/lib.rs:2142-2152 | the second pass is the nonces and revocations of the batch in order, charged to the attesters recorded at the start |
| `SasStore.PackRoundTrip` | packages/soroban-sas-common/src/lib.rs:333-428 | packing and unpacking a record keeps everything but the activation time |
| `SasStore.MetaLayout` | packages/soroban-sas-common/src/lib.rs:333-428 | the flag bits and the big-endian times are at their places in the 25 bytes |
| `SasStore.AbsReads` | contracts/sas/src/lib.rs:489-521 | the two layouts read as one map, and `has` agrees with `read` |
| `SasStore.WriteIsUpdate` | contracts/sas/src/lib.rs:524-549 | a write is an update of that map, whichever layout held the record |
| `SasStore.RemoveIsDelete` | contracts/sas/src/lib.rs:570-576 | a removal is a deletion from that map: no layout lets the record linger |
| `SasStore.MigrateExact` | contracts/sas/src/lib.rs:3544-3566 | migration leaves every reading unchanged if and only if the stated condition on the row and its side entry holds |
| `SasStore.MigrationMisreads` | contracts/sas/src/lib.rs:3544-3566 | a legacy row with a different side entry reads with that entry before a migration and with its own time after it |
| `SasStore.MigrateKeepsMap` | contracts/sas/src/lib.rs:3544-3566 | the same of the map the layouts stand for, for every UID |
| `SasCalls.ReplaceLinks` | contracts/sas/src/lib.rs:2314-2358 | once revocation and issuance are through, the link between the two records is always well-formed |
| `SasCalls.ReplaceReports` | contracts/sas/src/lib.rs:2314-2358 | a replacement is refused for the first of five faults of the record and its successor |
| `SasCalls.ReplaceWrites` | contracts/sas/src/lib.rs:2314-2358 | one that goes through keeps both parties, does not shorten the life, revokes the old record and stores the new one, which refers to it |
| `SasCalls.ConsentWrites` | contracts/sas/src/lib.rs:2267-2312 | one by consent also uses both nonces, each above its watermark |
| `SasCalls.ConsentIsDoAll` | contracts/sas/src/lib.rs:2267-2312 | a replacement by consent that goes through is its two nonces, revocation, issuance and link in order |
| `SasCalls.IssuedIsDoAll` | contracts/sas/src/lib.rs:1464-1529 | a delegated batch that goes through is its nonces and issuances in order |
| `SasCalls.DelegatedReports` | contracts/sas/src/lib.rs:1286-1320 | the checks before a delegated issuance, in order |
| `SasCalls.ScopedReports` | contracts/sas/src/lib.rs:1326-1367 | the checks before a scoped one, in order |
| `SasCalls.DelegatedWrites` | contracts/sas/src/lib.rs:1286-1320 | nonce and record of a delegated issuance come together, and the nonce was above the watermark |
| `SasCalls.IssuedStores` | contracts/sas/src/lib.rs:1464-1529 | a delegated batch that goes through stores each of its records, none of which was there |
| `SasCalls.IssuedKeeps` | contracts/sas/src/lib.rs:1464-1529 | and leaves all others alone |
| `SasCalls.BatchRevokedExact` | contracts/sas/src/lib.rs:2073-2157 | cap, first pass and second pass together succeed if and only if, within the cap, revoking one by one does, and commit the operations of the batch |
| `SasCalls.BatchAsksAttesters` | contracts/sas/src/lib.rs:2771-2817 | an unsigned batch whose first pass finds nothing is refused for want of authorisation if and only if some recorded attester has not authorised; when it goes through, all have |
| `SasCalls.NothingToReport` | contracts/sas/src/lib.rs:2771-2817 | the first pass finds nothing if and only if the records are distinct, stored, revocable and unrevoked |
| `SasCalls.ItemReports` | contracts/sas/src/lib.rs:2097-2140 | what the first pass finds at an item, in order |
| `SasCalls.BatchWrites` | contracts/sas/src/lib.rs:2142-2152 | a batch that goes through revokes exactly its records, now |
| `SasCalls.SignedBatch` | contracts/sas/src/lib.rs:2073-2157 | a signed batch that goes through had valid signatures and nonces above the watermarks it started from |
| `SasCalls.BatchNoncesIncrease` | contracts/sas/src/lib.rs:2073-2157 | the nonces of one attester in a batch increase |
| `SasCalls.PruneWrites` | contracts/sas/src/lib.rs:1867-1891 | pruning removes exactly the named records that have expired |
| `SasContract.Contract.constructor` | contracts/sas/src/lib.rs:489-515 | a deployment may start with rows of either layout; its run starts at what they read as, which is the empty contract for an empty store |
| `SasContract.Contract.Record` | contracts/sas/src/lib.rs:1255-2470 | every committed call extends the recorded run, so that the storage is always the last state of the run of all calls |
| `SasContract.Contract.WriteAnchor` | contracts/sas/src/timestamp.rs:98-117 | an anchor is never replaced |
| `SasContract.Contract.RemoveAttestation` | contracts/sas/src/lib.rs:570-576 | record, side entry, anchors and link go together |
| `SasContract.Contract.MigrateAttestation` | contracts/sas/src/lib.rs:3544-3566 | says whether it migrated; the invariant stays; the view stays, and the run goes on, under the exact condition only |
| `SasContract.Contract.AttestInternal` | contracts/sas/src/lib.rs:1531-1740 | issues, anchors and files the record exactly when all checks and the resolver pass, with the first error otherwise and nothing left behind |
| `SasContract.Contract.RevokeInternal` | contracts/sas/src/lib.rs:2159-2226 | revokes and anchors exactly when the record is there, revocable, unrevoked and the resolver agrees; otherwise the early writes are undone |
| `SasContract.Contract.Attest` | contracts/sas/src/lib.rs:1255-1263 | without the attester's authorisation refused; otherwise commits the issuance, the record with the close time, or reports the first error and changes nothing |
| `SasContract.Contract.ConsumeNonce` | contracts/sas/src/lib.rs:3195-3222 | a nonce moves the watermark to itself if and only if it is above it |
| `SasContract.Contract.AttestByDelegation` | contracts/sas/src/lib.rs:1286-1320 | the nonce and the record are written together, or neither with the first error: a replay is found before the signature is looked at |
| `SasContract.Contract.AttestByScopedDelegation` | contracts/sas/src/lib.rs:1326-1367 | the same for scoped delegations, whose scope and signature are looked at before the nonce |
| `SasContract.Contract.MultiAttestByDelegation` | contracts/sas/src/lib.rs:1464-1529 | a delegated batch is all or nothing, equals its items one after the other, one nonce each, and reports the first error of the first item that fails |
| `SasContract.Contract.RevokeAttestation` | contracts/sas/src/lib.rs:1960-2003 | ends exactly as the single revocation by an authorised address, in state and in error |
| `SasContract.Contract.RevokeByDelegation` | contracts/sas/src/lib.rs:2020-2056 | the nonce is charged to the recorded attester, together with the revocation or not at all, with the first error |
| `SasContract.Contract.ReplaceInternal` | contracts/sas/src/lib.rs:2314-2358 | replacement is revoke, issue with the reference set, and link, atomically |
| `SasContract.Contract.ReplaceAttestation` | contracts/sas/src/lib.rs:2245-2259 | the three steps if the recorded attester authorised them and they are legal, with the first error otherwise |
| `SasContract.Contract.ReplaceByConsent` | contracts/sas/src/lib.rs:2267-2312 | both parties' nonces and the replacement are written together or not at all, with the first error |
| `SasContract.Contract.MultiRevoke` | contracts/sas/src/lib.rs:2771-2817 | it succeeds if and only if revoking one by one does, with the same state; then every recorded attester has authorised and exactly the named records are revoked; with distinct, stored, revocable, unrevoked records it reports a missing authorisation if and only if some recorded attester has not authorised |
| `SasContract.Contract.MultiRevokeByDelegation` | contracts/sas/src/lib.rs:2073-2157 | the same for signed items, whose nonces are checked first against the starting watermarks and then used in order |
| `SasContract.Contract.PruneExpired` | contracts/sas/src/lib.rs:1867-1891 | removes exactly the expired records among those named, and counts them, repeats included once |
| `SasContract.Contract.InvalidateNonces` | contracts/sas/src/lib.rs:3241-3252 | raises the watermark to the maximum if and only if the range is legal and authorised |
| `SasContract.Contract.SetHighwaterMark` | contracts/sas/src/lib.rs:3256-3270 | raises the watermark to the mark if and only if that is authorised and above it, asking for the authorisation first |
| `SasContract.Contract.InvalidateByDelegation` | contracts/sas/src/lib.rs:3273-3303 | spends a nonce of its own and raises the watermark beyond it, or does nothing |
| `SasContract.Contract.RenewAttestation` | contracts/sas/src/lib.rs:2375-2470 | without the recorded attester's authorisation refused; otherwise moves the expiration and nothing else, or reports the first error |
| `SasContract.Contract.VerifyAttestation` | contracts/sas/src/lib.rs:586-604 | true if and only if the stored record is unrevoked, activated and not expired; and a record that verifies has verified at every step since it first did |
| `SasContract.Contract.VerifyTimestamp` | contracts/sas/src/timestamp.rs:160-227 | in every run of the contract from the empty store exactly the recorded anchors are accepted |
| `RateLimit.EveryWindow` | contracts/sas/src/lib.rs:421-455 | if each issuance found its window below the maximum then no interval of that width holds more |
| `RateLimit.CountOf` | contracts/sas/src/lib.rs:421-455 | the counts are numbers of recorded issuances |
| `RateLimit.RecentTwice` | contracts/sas/src/lib.rs:441-454 | trimming at one ledger changes nothing for any later one |
| `RateLimit.ReadEither` | contracts/sas/src/lib.rs:435-454 | the quota reads the same whether or not the host has dropped the expired history entry |
| `RateLimit.Trim` | contracts/sas/src/lib.rs:441-448 | the filtering loop keeps exactly the issuances of the current window, with subtraction saturating at 0 |
| `RateLimit.Limiter.Consume` | contracts/sas/src/lib.rs:421-455 | an issuance of a limited attester is rejected if and only if the attester already has the maximum of issuances within the window; others always pass |
| `RateLimit.Limiter.QuotaHolds` | contracts/sas/src/lib.rs:421-455 | in every run every interval of `window` ledgers holds at most `max` accepted issuances of an attester |
| `SasQuota.RunQuota` | contracts/sas/src/lib.rs:421-455 | in every run of the contract in which issuances of an attester carry the quota's own answers, every interval of `window` ledgers holds at most `max` of them |
| `SasQuota.QuotaRefuses` | contracts/sas/src/lib.rs:421-455 | such an issuance is refused if the window is full, and with the quota error only then |
| `Ownership.MembersContain` | contracts/schema-registry/src/lib.rs:434-445 | the search finds exactly the members |
| `Ownership.ValidateOwnerSet` | contracts/schema-registry/src/lib.rs:525-546 | accepts exactly 1 to 10 distinct owners with a reachable threshold, and tells the limit error from the others |
| `Ownership.OwnerCallReports` | contracts/schema-registry/src/lib.rs:504-636 | configuring, proposing, approving and cancelling are for the administrator, the creator and listed owners only, and are refused for the first fault in order |
| `Ownership.SoloCallReports` | contracts/schema-registry/src/lib.rs:1204-1392 | the calls of one signature, which are refused above threshold 1 except for the claim path, and their faults |
| `Ownership.CreatorAfter` | contracts/schema-registry/src/lib.rs:1204-1605 | who owns the schema after each call that goes through |
| `Ownership.ApplyPendingOk` | contracts/schema-registry/src/lib.rs:1414-1630 | every ownership call keeps a stored transfer distinct in approvals, between 1 and one below the threshold, and stamped with the current version |
| `Ownership.RunPendingOk` | contracts/schema-registry/src/lib.rs:1414-1630 | so does every run since registration |
| `Ownership.PendingBacked` | contracts/schema-registry/src/lib.rs:600-636 | in every run each stored approval goes back to a vote by an address that was then an owner, since the last proposal and configuration |
| `Ownership.OwnersStay` | contracts/schema-registry/src/lib.rs:1414-1460 | only a configuration changes the owner set |
| `Ownership.LastConfigured` | contracts/schema-registry/src/lib.rs:1414-1460 | over every run the owner set is the one configured last, and its version is the number of configurations, up to 2^32 - 1 |
| `Ownership.DeprecatedForGood` | contracts/schema-registry/src/lib.rs:798-841 | over every run, nothing about the ownership of a deprecated schema changes again |
| `Ownership.OwnershipMoves` | contracts/schema-registry/src/lib.rs:1570-1605 | a schema with threshold above 1 moves, other than by a claim, only by the approval that completes `threshold` distinct votes for the new owner since the last proposal, under one owner set; each was cast by the administrator, the creator of the time, or a listed owner |
| `Ownership.ClaimBypassesThreshold` | contracts/schema-registry/src/lib.rs:1335-1371 | the creator of a 2-of-2 schema alone can hand it over by offer and claim |
| `Ownership.ReconfigurationBypassesThreshold` | contracts/schema-registry/src/lib.rs:1414-1460 | a member of a 2-of-2 set who is not the creator alone installs a set of its own and hands the schema over, without a claim |
| `Ownership.OneOwnerSuffices` | contracts/schema-registry/src/lib.rs:1414-1561 | whatever the threshold, an address alone can do so if and only if it is the administrator, the creator or a listed owner of a schema that is not deprecated |
| `Ownership.ThresholdHolds` | contracts/schema-registry/src/lib.rs:1414-1605 | over every stretch of a run without configuration and claim, a schema with threshold above 1 that changed hands did so last by the approval that completed `threshold` distinct votes, each of the administrator, the creator of the time, or a listed owner |
| `Ownership.MovesExactly` | contracts/schema-registry/src/lib.rs:1204-1371 | a call moves a schema with threshold above 1 if and only if it claims a standing offer or casts the last missing vote |
| `Ownership.RecordedOn` | contracts/schema-registry/src/lib.rs:1414-1630 | a committed call extends the run of its schema and leaves all other runs alone |
| `Ownership.Owners.constructor` | contracts/schema-registry/src/lib.rs:645-651 | a new registry has an administrator and no schemas |
| `Ownership.Owners.Register` | contracts/schema-registry/src/lib.rs:2586-2592 | a registered schema starts with its creator and nothing pending |
| `Ownership.Owners.ActsFor` | contracts/schema-registry/src/lib.rs:504-522 | true if and only if the address is the administrator, the creator or listed in the stored owner set |
| `Ownership.Owners.ConfigureOwnerSet` | contracts/schema-registry/src/lib.rs:1414-1460 | installs the set under the next version and drops the pending transfer, or changes nothing |
| `Ownership.Owners.ProposeOwnershipTransfer` | contracts/schema-registry/src/lib.rs:1498-1561 | executes at once at threshold 1, otherwise stores the transfer with the proposer's vote; reports which |
| `Ownership.Owners.RecordApproval` | contracts/schema-registry/src/lib.rs:600-636 | one more distinct approval of an owner under the owner set in force, or the first error |
| `Ownership.Owners.ApproveOwnershipTransfer` | contracts/schema-registry/src/lib.rs:1570-1605 | goes through only for the administrator, the creator or a listed owner who has not approved yet; executes, for the proposed new owner, exactly with the approval that completes the threshold |
| `Ownership.Owners.CancelOwnershipTransfer` | contracts/schema-registry/src/lib.rs:1611-1630 | an owner drops the pending transfer and nothing else |
| `Ownership.Owners.TransferSchemaOwnership` | contracts/schema-registry/src/lib.rs:1204-1250 | the single-signature transfer is refused above threshold 1 |
| `Ownership.Owners.TransferOwnership` | contracts/schema-registry/src/lib.rs:1254-1299 | the same for the creator or the administrator |
| `Ownership.Owners.ProposeSchemaOwner` | contracts/schema-registry/src/lib.rs:1303-1332 | stores an offer, whatever the owner set |
| `Ownership.Owners.ClaimSchemaOwnership` | contracts/schema-registry/src/lib.rs:1335-1371 | a standing offer moves the schema, whatever the owner set |
| `Ownership.Owners.CancelSchemaOwnershipTransfer` | contracts/schema-registry/src/lib.rs:1375-1392 | withdraws the offer and nothing else |
| `Ownership.Owners.MarkDeprecated` | contracts/schema-registry/src/lib.rs:798-841 | the creator or the administrator closes a schema to transfers |
| `Forest.ChainShape` | contracts/schema-registry/src/lib.rs:304-318 | in a link forest every chain follows the links to a root, is bounded, and never meets a node twice |
| `Forest.NoCycle` | contracts/schema-registry/src/lib.rs:320-339 | no walk along the links leads back to where it started |
| `Forest.ChainStays` | contracts/schema-registry/src/lib.rs:2557-2571 | a new schema leaves every older chain alone |
| `Forest.NewChain` | contracts/schema-registry/src/lib.rs:1120-1154 | the chain of a new schema is itself and then the chain of its parent: ancestors(child) = [parent] + ancestors(parent) |
| `Forest.RoomIsShortChain` | contracts/schema-registry/src/lib.rs:328-339 | the depth test admits a child exactly when the chain is not full |
| `SchemaText.AppendOnlyExact` | contracts/schema-registry/src/lib.rs:80-92 | the byte comparison accepts a successor if and only if its comma-separated fields properly extend the predecessor's, within 1024 bytes |
| `SchemaText.JoinFields` | contracts/schema-registry/src/lib.rs:80-92 | splitting into fields loses nothing |
| `SchemaText.FieldsClean` | contracts/schema-registry/src/lib.rs:80-92 | no field holds a comma, so the fields are what the commas leave |
| `Registry.LineageRoot` | contracts/schema-registry/src/lib.rs:304-318 | on any stored links: the root and its distance, or the limit error if and only if there are more than 32 links |
| `Registry.RootDepth` | contracts/schema-registry/src/lib.rs:304-318 | on registered links the limit is never hit and the distance is the length of the chain |
| `Registry.WalkParents` | contracts/schema-registry/src/lib.rs:1120-1154 | the loop lists all ancestors in order, with root and depth |
| `Registry.WalkPredecessors` | contracts/schema-registry/src/lib.rs:96-118 | the loop lists all versions, newest first |
| `Registry.FieldsNest` | contracts/schema-registry/src/lib.rs:1658-1710 | the fields of every earlier version are a proper leading segment of those of every later one |
| `Registry.AddKeepsSound` | contracts/schema-registry/src/lib.rs:2528-2571 | adding a schema keeps parents a forest of depth at most 32, versions at most 64 and append-only, and schemas filed under their hash |
| `Registry.SchemaRegistry.ParentReports` | contracts/schema-registry/src/lib.rs:328-339 | a parent is refused if it is not stored, if the new owner is neither the administrator nor its creator nor a listed owner, or if its chain to the root has more than 32 members, in that order |
| `Registry.SchemaRegistry.Admits` | contracts/schema-registry/src/lib.rs:2528-2571 | what a registration needs: both text checks, such a parent, and a fresh content hash |
| `Registry.SchemaRegistry.DerivativeReports` | contracts/schema-registry/src/lib.rs:1658-1710 | why a derivative is refused, in order, in terms of fields, authorisations and the length of the version chain |
| `Registry.PerformedKeepsSchemas` | contracts/schema-registry/src/lib.rs:1204-1630 | ownership calls neither add nor remove schemas |
| `Registry.SchemaRegistry.constructor` | contracts/schema-registry/src/lib.rs:645-651 | an empty registry is sound |
| `Registry.SchemaRegistry.GetSchemaLineage` | contracts/schema-registry/src/lib.rs:1120-1154 | the ancestors are what the stored parents say, up to a schema without one, without repeats; no limit is ever hit |
| `Registry.SchemaRegistry.GetSchemaHistory` | contracts/schema-registry/src/lib.rs:1714-1717 | the versions are what the stored predecessors say, newest first, up to the first, without repeats; no limit or missing record is ever hit |
| `Registry.SchemaRegistry.ValidateParent` | contracts/schema-registry/src/lib.rs:328-339 | a parent is refused if missing, not owned, or at depth 32, in that order |
| `Registry.SchemaRegistry.RegisterInternal` | contracts/schema-registry/src/lib.rs:2528-2650 | refuses for the first reason that applies and changes nothing, or adds exactly one schema under its hash, below its parent, owned by its creator |
| `Registry.SchemaRegistry.RegisterSchema` | contracts/schema-registry/src/lib.rs:1803-1845 | the same once the owner has authorised |
| `Registry.SchemaRegistry.RegisterWithPredecessor` | contracts/schema-registry/src/lib.rs:1658-1710 | the same with an append-only predecessor, at most 64 versions, and the authorisations of the predecessor's owner and of the new owner |
| `Merkle.PairInjective` | packages/soroban-sas-common/src/merkle.rs:66-77 | a hashed pair can be read back, up to order |
| `Merkle.PairOrder` | packages/soroban-sas-common/src/merkle.rs:66-77 | the digest that is the smaller big-endian number is hashed first |
| `Merkle.Complete` | fuzz/fuzz_targets/merkle_fuzz.rs:105-195 | every proof of the tree folds to the root, promotion of odd nodes included |
| `Merkle.RootSplits` | packages/soroban-sas-common/src/merkle.rs:91-117 | seen from above, the tree splits after the largest power of two below its size and hashes the two roots, the smaller first: promotion of odd nodes is that split |
| `Merkle.PathDepth` | fuzz/fuzz_targets/merkle_fuzz.rs:105-195 | a proof has at most ceil(log2 n) steps |
| `Merkle.Sound` | contracts/sas/src/lib.rs:3653-3679 | whatever folds to the root is a leaf of the batch, unless the hash confuses a string the builder hashed with a different one the verifier hashed |
| `Merkle.MerkleRoot` | packages/soroban-sas-common/src/merkle.rs:91-117 | the level loop computes the root of the tree |
| `Merkle.VerifyProof` | packages/soroban-sas-common/src/merkle.rs:120-131 | accepts exactly what folds to the root |
| `Merkle.VerifyProofWith` | packages/soroban-sas-common/src/merkle.rs:140-155 | the same with at most 32 steps |
| `Merkle.ContractLevel` | fuzz/fuzz_targets/merkle_fuzz.rs:105-195 | one pass builds the next level, moves every leaf to its parent and notes its sibling, if any |
| `Merkle.BuildProofs` | fuzz/fuzz_targets/merkle_fuzz.rs:105-195 | the nested loops give every leaf its path |
| `Merkle.BuiltProofVerifies` | fuzz/fuzz_targets/merkle_fuzz.rs:105-195 | every built proof verifies, within the depth bound for up to 2^32 leaves |
| `Merkle.ProofIsForItsLeaf` | contracts/sas/src/lib.rs:3653-3679 | the proof of one leaf verifies no other data, unless the hash confuses strings of the two verifications |
| `CrossChain.ReadBack` | contracts/cross-chain-verifier/src/lib.rs:120-188 | everything encodable decodes to itself |
| `CrossChain.ReadExact` | contracts/cross-chain-verifier/src/lib.rs:120-188 | whatever decodes is, byte for byte, the encoding of what it decodes to |
| `CrossChain.DecodeStatus` | contracts/cross-chain-verifier/src/lib.rs:120-151 | accepts exactly the well-formed payloads, and reads UID, revision, expiry and verdict from their places in them |
| `CrossChain.DecodeProof` | contracts/cross-chain-verifier/src/lib.rs:153-188 | accepts exactly the payloads with a proof of the length they announce, and reads the fields from their places |
| `CrossChain.LatestIsHighest` | contracts/cross-chain-verifier/src/lib.rs:262-267 | in an accepted log the newest update of a UID has the highest revision |
| `CrossChain.AcceptGrows` | contracts/cross-chain-verifier/src/lib.rs:236-314 | accepting a higher revision keeps revisions strictly increasing per UID |
| `CrossChain.Verifier.RevisionsIncrease` | contracts/cross-chain-verifier/src/lib.rs:262-267 | in every run the accepted revisions of one UID strictly increase, and their times do not go back |
| `CrossChain.Verifier.constructor` | contracts/cross-chain-verifier/src/lib.rs:197-226 | a new verifier has accepted nothing |
| `CrossChain.Verifier.Accept` | contracts/cross-chain-verifier/src/lib.rs:250-303 | an update is refused for its encoding, its revision 0 or its validity, a revision that is not newer, or a missing approval, in that order; otherwise it replaces status and proof |
| `CrossChain.Verifier.Execute` | contracts/cross-chain-verifier/src/lib.rs:236-314 | the gateway path accepts if and only if source, message id, approval and update are right |
| `CrossChain.Verifier.LzReceive` | contracts/cross-chain-verifier/src/lib.rs:399-466 | the endpoint path accepts if and only if endpoint, source, sender, guid and update are right |
| `CrossChain.Verifier.VerifyRemote` | contracts/cross-chain-verifier/src/lib.rs:343-348 | over any interleaving a true verdict rests on the newest update, accepted less than 24 hours before |
| `CrossChain.Verifier.GetProof` | contracts/cross-chain-verifier/src/lib.rs:330-340 | the proof is that of the newest update, or none if it was V1 |
| `DidKey.EncodeValue` | examples/did_vc_resolver/resolver.rs:20-46 | the digits always denote the big-endian value of the bytes consumed, without leading zeros |
| `DidKey.EncodeLength` | examples/did_vc_resolver/resolver.rs:20-46 | 34 bytes never need more than 47 digits, so the array bound is never reached |
| `DidKey.Fits` | examples/did_vc_resolver/resolver.rs:20-46 | 256^34 < 58^47 |
| `DidKey.MulAddInPlace` | examples/did_vc_resolver/resolver.rs:20-46 | the inner loop multiplies the digits in use by 256 and adds the byte, in place, with the carry below 256 |
| `DidKey.AppendCarry` | examples/did_vc_resolver/resolver.rs:20-46 | the carry loop appends the digits of the carry |
| `DidKey.DidForKey` | examples/did_vc_resolver/resolver.rs:20-46 | the identifier is the prefix and the base58 letters of the tagged key, 56 characters that start with did:key:z6Mk, and no array access is out of bounds |
| `DidKey.DidSpells` | examples/did_vc_resolver/resolver.rs:20-46 | the 47 letters spell the big-endian number of the key behind its tag bytes in base 58, most significant first, and start with 6Mk |
| `DidKey.Alphabet` | examples/did_vc_resolver/resolver.rs:20-46 | the alphabet is all digits and letters but 0, O, I and l, in the order of their codes |
| `DidKey.DidInjective` | examples/did_vc_resolver/resolver.rs:20-46 | distinct keys have distinct identifiers |

## Left out

- Fees and token movement (`attest_with_value`, `distribute_attestation_fee`): foreign token contracts.
- Storage rent and archival, except the expiry of the rate limiter's temporary entry: host behaviour.
- Signatures, threshold keys, zero-knowledge proofs and hash internals: parameters of the model.
- A change of `set_chunk_tier` in the middle of a history, and the query limit: the capacity is fixed for a run.
- Overflow of the indexer's 32-bit counters: counters are unbounded, and `GetPage` asks for a counter that fits.
- Events, pause flags, upgrade, getters, categories, metadata, access lists and delegates: single checks or I/O.
- `revoke_by_schema`, `multi_attest` and the broadcast and zero-knowledge wrappers: loops over the modelled steps.
- Parallel argument vectors of different lengths (`InvalidValue`): batches arrive as one list of items.
- A contract whose registry was never set (`NotInitialized`): the registry always answers.
- Which error the host raises for a missing authorisation: reported as `Unauthorized`.
- Host authorisation of the ownership calls: each names the address that has authorised it.
- `deprecate_schema`, `register_with_ttl` and quarantine: flags no modelled property reads.
- The rules of `validate_schema_syntax` and `validate_schema_lexical`: arbitrary verdicts here.
- The creation time of a pending ownership transfer: stored and never read.
- The other resolvers, the command line, the web clients and the envelope reader of the did:key example: wrappers.
