# Verified model of the challenger service

The challenger watches a chain for data challenges, verifies each challenged object against its storage provider, votes on
the outcome together with the other validators, and submits an attestation once enough validators agree. Seven loops run
at once and share one database. They coordinate only through the `status` column of the `events` table and through the
`votes` table, with plain `UPDATE`s: there is no compare-and-swap anywhere.

This project models that service in Dafny at two levels and connects them.

**The running system** (`Pipeline.dfy`) is a step system. Each loop fetches a snapshot of rows in one step and writes in
later ones, so every write may be based on stale data. Steps of all loops interleave freely, and any call may fail, which
shows as a task that is dropped or a write that has no effect. A database call may also take effect and still report an
error. For the submitter, which then submits once more, that is a step of its own; for every other loop it is the ordinary
write, followed by steps that drop the rest of the batch or evict the cached vote. A batch ends only when none of its tasks can
still write. The attest monitor
has its remembered ids and its counter, so a tick starts work on new ids only, until the counter has passed its limit and
every tick forgets them. At any time the service may be restarted, which leaves it its tables and nothing else.
LRU caches are maps from which any entry may vanish at any time. A ghost record keeps every status ever written to a row,
and every signature, collation and `AttestChallenge` call of this node. Theorems are about every run from the empty
database and, where they need it, state a hypothesis on the steps of the run.

| file | what is proved about every run |
|---|---|
| `PipelineOrder.dfy` | the invariant of one row: which loop may hold a task for it, and what a step can do to it |
| `Settlement.dfy` | the verdict is final, and pipeline statuses are written in order |
| `WriteBounds.dfy` | the status settles: how often a row is written at most |
| `Finality.dfy` | exactly when `Attested` and `SelfAttested` are final, and when each status is written at most once |
| `AttainedRuns.dfy` | concrete runs that attain the bounds, and that overwrite a status one might think final |
| `VoteSafety.dfy` | no equivocation, sound votes table, caches agree, submissions match what was signed |
| `Justification.dfy` | votes are cast for proven faults and heartbeats only |
| `Quorum.dfy` | submissions carry more than two thirds of a fixed validator list |
| `Ingest.dfy` | exactly-once ingest of announced challenges, and the deduplication window |

**The sequential code** keeps the shape of the Go code: classes whose methods update a shared `Database` object, loops
over rows and votes, an in-place array update. Each method is proved against functions that the step system uses too, and what
these functions mean is stated without them: by decoding what was encoded, by counting, or in terms of what the rows hold and
what chain, provider and database answered.

| file | Go code |
|---|---|
| `Types.dfy`, `Store.dfy`, `Dao.dfy` | `db/model`, `db/dao` |
| `HashVerifier.dfy`, `RootHash.dfy` | `verifier` |
| `EventHash.dfy`, `Certification.dfy`, `VoteStages.dfy` | `vote` |
| `TxSubmitter.dfy` | `submitter` |
| `AttestLoop.dfy` | `attest` |
| `BlockMonitor.dfy` | `monitor` |
| `ClientSelection.dfy` | `executor/client.go` |
| `StageRuns.dfy` | undisturbed runs of the step system do what the classes do |

Five properties one might expect are false of the code, and the model says exactly when they hold:

- A challenge with a challenger address and one without can have the same event-hash preimage
  (`EventHash.MixedPresenceCollision`); preimages are injective iff both have a challenger or neither has, or addresses had 32
  bytes or more, so that no object id of 256 bits could absorb one (`EventHash.InjectiveIffSamePresence`).
- `Attested` is not final: a stage that fetched the row earlier overwrites it (`AttainedRuns.InFlightReached`). In a
  reachable state it is final iff no stage holds a task of the event that can still write, and no goroutine of the current
  tick is about to store `SelfAttested` (`Finality.AttestedFinalIff`).
- `SelfAttested` is not final: if the chain lists a new id twice in one answer, it can be overwritten
  (`AttainedRuns.RepeatedIdReached`). In a reachable state it is final iff no goroutine is about to store `Attested` and the
  submitter is not still submitting the event (`Finality.SelfAttestedFinalIff`).
- A pipeline status can be written more than once: when storing `Submitted` takes effect but reports an error, the event is
  submitted again, and `Submitted` is written twice or `DuplicatedSlash` after it (`AttainedRuns.LostAnswerReached`). Nothing
  else repeats (`Settlement.PipelineInOrder`), and each status stays written at most once, as long as no answer is lost from
  there on, iff that is so up to now and no such resubmission is under way (`Finality.AtMostOnceIff`). All results in
  `VoteSafety.dfy`, `Justification.dfy`, `Quorum.dfy` and `Ingest.dfy`, and `Settlement.VerdictIsFinal`, hold with lost
  answers too.
- Saved heights can have a gap: a saved block of height zero looks like a fresh database (`Ingest.GapReached`). They have none
  iff height one was saved too or nothing above zero was (`Ingest.GaplessIff`), and in particular if the chain never reports
  height zero (`Ingest.NoGap`). A CometBFT chain starts at height one and serves no block below it, so with such a node the
  gap cannot occur.

The repository's README says that the broadcaster votes on mismatched events; the code also votes on every heartbeat id,
whatever its verdict (`vote/data_provider.go:45-54`). The model follows the code.

How the outside world enters:

- a signature is a pair (signer, message), and an aggregate is a multiset of signatures; hash functions are arbitrary
  functions, of fixed output length where that matters;
- addresses are byte strings and object ids numbers, as they are after `MustAccAddressFromHex` and `NewUintFromString`;
- the challenges announced by a block are a given function of its height, as is the height of the block that is returned;
- chain, storage provider and database answers are parameters, with `None` or a fault flag for an error;
- a panic is a flag of the step system, proved unreachable for `CalculateEventHash`, and a precondition elsewhere: an index
  outside the lists that chain or provider returned, a zero heartbeat interval, an undecodable checksum.

## Model

| member | source | states |
|---|---|---|
| Settlement.VerdictIsFinal | verifier/hash_verifier.go:97-137 | in every run a row is never deleted, its announcement never changes, and once its verify result has left `Unknown` it keeps that result |
| Settlement.PipelineInOrder | db/dao/event_dao.go:78-90 | in every interleaving the pipeline statuses are written in order, each at most once except `Submitted`, and each at most once altogether if no answer was lost; the stored status is the newest of them unless the attest monitor wrote last; a verdict exists iff `Verified` was written; at most one stage holds a task of the event that may still write |
| PipelineOrder.OrderStep | app/app.go:119-131 | any step of any loop keeps the row invariant, and does to a row only one thing: nothing, its creation, the next pipeline write, or an attest write |
| PipelineOrder.OrderHolds | app/app.go:119-131 | in every reachable state each task holds a snapshot with current announcement and verdict, of an event exactly at its own stage, or already `Submitted` while it is being resubmitted |
| Settlement.SelfAttestedWasSubmitted | submitter/tx_submitter.go:196-218 | `SelfAttested` is written only after `Submitted` was, and `Submitted` only after this node's own `AttestChallenge` call succeeded |
| WriteBounds.StatusSettles | attest/attest_monitor.go:73-93 | with distinct ids per tick at most four pipeline writes and five attest writes, nine in all, hit a row in any run, restarts included, and one more of each for every lost answer of the submitter |
| WriteBounds.HandledOnce | attest/attest_monitor.go:44-54 | from a start or restart of the service, until the monitor first forgets its ids, at most one attest write is added to a row; so without a restart there are five writes in all |
| AttainedRuns.BoundsAttained | attest/attest_monitor.go:44-56 | both bounds are attained: every challenge alone in its block has a run with five writes before, and one with nine after the counter has reached its limit |
| Finality.AttestedFinalIff | attest/attest_monitor.go:79-88 | for every reachable state: all continuations keep `Attested` iff no stage holds a task of the event that can still write (a broadcaster whose own vote is already stored cannot), and no pending write of `SelfAttested` exists |
| Finality.AttestedFinalWhenIdle | attest/attest_monitor.go:79-88 | with distinct ids in the ticks so far, `Attested` stays from the moment no stage has the event in flight, and no stage picks it up again |
| Finality.SelfAttestedFinalIff | attest/attest_monitor.go:79-86 | for every reachable state: all continuations keep `SelfAttested` iff no pending write of `Attested` exists and the submitter is not still submitting the event |
| Finality.SelfAttestedIsFinal | attest/attest_monitor.go:79-86 | it is final if the ticks so far listed no id twice and no answer of the submitter was lost, whatever later ticks list |
| Finality.AtMostOnceIff | submitter/tx_submitter.go:218-223 | for every reachable state: each pipeline status is written at most once in all continuations without further lost answers iff that holds so far and no event whose row is `Submitted` is being submitted |
| AttainedRuns.RepeatedIdOverwrites | attest/attest_monitor.go:61-71 | from any state in which the chain just accepted the event: a tick that lists its id twice, and it is new, can replace `SelfAttested` by `Attested` |
| AttainedRuns.RepeatedIdReached | attest/attest_monitor.go:61-71 | a run from the empty database, with one tick, in which that happens |
| AttainedRuns.AttestedOverwrittenInFlight | db/dao/vote_dao.go:26-37 | a broadcaster holding a stale row writes `SelfVoted` over `Attested` |
| AttainedRuns.InFlightReached | db/dao/event_dao.go:85-90 | a run from the empty database, with one tick, in which the verifier writes `Verified` over `Attested` |
| AttainedRuns.LostAnswerReached | submitter/tx_submitter.go:218-223 | runs from the empty database in which `Submitted` is written twice, and in which `DuplicatedSlash` is written after it |
| VoteSafety.NoEquivocation | vote/vote_broadcaster.go:144-154 | all event hashes this node signs, collates or submits for one challenge id in a run are equal |
| VoteSafety.PanicUnreachable | vote/util.go:60-71 | no run reaches the branch of `CalculateEventHash` that panics |
| VoteSafety.SubmissionMatchesSignatures | submitter/tx_submitter.go:144-196 | every aggregated signature of an `AttestChallenge` call signed the preimage of exactly the arguments passed; the arguments are those of the stored event, `CHALLENGE_SUCCEED` iff mismatched and `CHALLENGE_FAILED` iff matched; the bitset names only keys that signed |
| VoteSafety.SharedSignature | vote/util.go:60-89 | a signature aggregated in two `AttestChallenge` calls, also of different nodes, with different ids is a hash collision; with comparable addresses the two calls have the same arguments, or there is a collision |
| VoteSafety.VotesTableSound | vote/vote_collector.go:70-97 | with inserts of collector and broadcaster racing, (key, hash) pairs stay unique, every row has a valid signature over its own hash, and an event that ever was `SelfVoted` has this node's vote |
| VoteSafety.VotesStep | db/model/vote.go:10-13 | every step keeps the votes table sound and only appends to it |
| VoteSafety.CachesAgree | submitter/tx_submitter.go:134-142 | for every eviction schedule a cached event hash is the stored event's hash, and a cached local vote is this node's signature over it |
| VoteSafety.CertHolds | submitter/tx_submitter.go:177-181 | the invariant behind these: facts, caches and the prepared submission agree with the stored row |
| Justification.VotesJustified | vote/data_provider.go:45-57 | with a constant heartbeat interval, every event signed, collated or submitted is a mismatch or a heartbeat, and one submitted as failed is a heartbeat |
| Quorum.QuorumTestExact | vote/vote_collator.go:107-109 | the integer test is the exact two-thirds test for any numbers; and for every reachable event waiting for votes, the early return for a single validator gives the answer the count gives |
| Quorum.SingleValidatorShortcut | vote/vote_collator.go:107-109 | the own vote alone passes the test against one validator |
| Quorum.SubmittedWithQuorum | submitter/tx_submitter.go:144-162 | with a fixed list of distinct validators, every call carries a bitset naming more than two thirds of them, one bit per aggregated signature, and exactly the signers |
| Quorum.SubmittersOverlap | vote/vote_collator.go:145-147 | any two submissions, also of two nodes, share more than a third of the validators |
| Certification.AggregateSignatureAndValidatorBitSet | vote/util.go:37-58 | both loops compute the aggregate of all votes and the set of validator positions with a vote; the bitset is returned even when decoding fails |
| Certification.BitsetNamesSigners | vote/util.go:41-50 | the keys named by the bitset are among the signers, and are all the signers iff every voter is in the validator list |
| Certification.AggregateCounts | vote/util.go:41-44 | each signature is aggregated as often as votes carry it |
| Certification.BitsetSize | vote/util.go:46-50 | with distinct keys on both sides and every voter a validator, there are as many bits as votes |
| Certification.QuorumsIntersect | vote/vote_collator.go:145-147 | two sets of positions that pass the integer test share more than a third of the positions |
| EventHash.CalculateEventHash | vote/util.go:60-89 | the hashed bytes decode, in this order, to chain id, challenge id, object id, 1 for a mismatch or 0 for a match, provider and challenger; the panic branch is taken iff there is no verdict |
| EventHash.PreimageLayout | vote/util.go:80-86 | reading the preimage from the front and from the back gives each field at its place |
| EventHash.ValueOfBoth | vote/util.go:61-62 | what decoding means: of two byte strings in a row, the first weighs more by a factor of 256 for each byte of the second |
| EventHash.HexAt | vote/converter.go:31-33 | a byte is two lower-case digits, the high one first |
| EventHash.BigEndianRoundTrip | vote/util.go:61-62 | the fixed-width encoding can be decoded |
| EventHash.MinimalRoundTrip | vote/util.go:63-63 | the shortest big-endian form of any object id can be decoded |
| EventHash.DistinctIdsDistinctPreimages | vote/util.go:80-86 | distinct challenge ids have distinct preimages, whatever the other fields |
| EventHash.PreimageInjective | vote/util.go:80-86 | with addresses of equal length a preimage determines id, object, result and addresses |
| EventHash.MixedPresenceCollision | vote/util.go:74-77 | a challenge with and one without a challenger that share a preimage, with object ids of 256 bits for addresses shorter than 32 bytes |
| EventHash.InjectiveIffSamePresence | vote/util.go:74-86 | for object ids of 256 bits and addresses of one length, preimages are injective iff both challenges have a challenger or neither has, or addresses have at least 32 bytes |
| EventHash.HexInjective | vote/util.go:47-47 | comparing hexadecimal keys is comparing keys |
| RootHash.ComputeRootHash | verifier/hash_verifier.go:297-304 | the challenged entry alone is overwritten in place, and the result is the hash of the joined list |
| RootHash.JoinOfBoth | verifier/hash_verifier.go:301-301 | entries are joined in list order with nothing between them |
| RootHash.VerdictExact | verifier/hash_verifier.go:234-246 | `HashMatched` iff the provider's list agrees with the original off the challenged index and the piece hashes to the original entry, or the two joined lists are a hash collision |
| RootHash.OwnEntryIrrelevant | verifier/hash_verifier.go:297-304 | what the provider claims for the challenged segment never changes the verdict |
| RootHash.JoinInjective | verifier/hash_verifier.go:300-301 | joined lists of equal-length checksums determine the list |
| HashVerifier.Verifier.PreCheck | verifier/hash_verifier.go:260-295 | exactly when an event is expired, undecidable, or a duplicate: nobody raised it, it is no heartbeat, its id exceeds the interval, and a stored row of its object and provider has an id below its own and at most the interval before it; only a duplicate is written |
| HashVerifier.Verifier.VerifyForSingleEvent | verifier/hash_verifier.go:142-258 | at most one write, and exactly when it is a verdict, a failure or a duplicate; a provider that does not answer is at fault, an unreadable piece is no verdict, and otherwise the comparison with the checksum at `redundancyIndex + 1` decides |
| HashVerifier.OutcomeMeaning | verifier/hash_verifier.go:142-327 | which write is made, in terms of the stored rows and of every answer of chain, provider and database |
| HashVerifier.ClearedExactly | verifier/hash_verifier.go:205-246 | with the root of the original list on chain, an answering provider is cleared iff its list agrees with the original off the challenged index and its piece hashes to the original entry, or the two lists collide |
| HashVerifier.WithVerdictMeaning | db/dao/event_dao.go:78-90 | a write hits the status of one row, and its verdict only when there is one |
| HashVerifier.EarlierTwin | verifier/hash_verifier.go:282-283 | the looked-up range holds exactly the earlier challenges within the interval, so never the event itself |
| HashVerifier.Verifier.CompareHashAndUpdate | verifier/hash_verifier.go:306-327 | stores `HashMatched` iff the roots agree |
| HashVerifier.Verifier.VerifyHash | verifier/hash_verifier.go:73-140 | whatever the cache evicted and in whatever order the lookups and writes of a batch interleave, each fetched row not cached at its turn gets its own outcome against the table before the batch, and nothing else changes; what ends up cached |
| HashVerifier.BatchMeaning | verifier/hash_verifier.go:97-137 | a batch writes to exactly the unexpired unprocessed rows not cached at their turn, each by its own verification |
| HashVerifier.Verifier.StartAll | verifier/hash_verifier.go:97-135 | goroutines are started for exactly the rows whose id is not cached at its turn, under any evictions |
| HashVerifier.Verifier.RunAll | verifier/hash_verifier.go:117-137 | every interleaving of lookups and writes up to the barrier leads to the same table |
| HashVerifier.BatchAnnouncements | verifier/hash_verifier.go:117-137 | verifications of one batch do not influence each other |
| HashVerifier.VerificationIsSteps | verifier/hash_verifier.go:142-258 | every write a verification can make is made by two steps of the step system, with the same effect |
| Ingest.ExactlyOnceIngest | db/dao/event_dao.go:18-33 | saved heights have no gaps, unless the chain reported height zero, and positive ones have none even then; a row with this announcement and height exists iff a saved block of that height announced it |
| Ingest.IngestInOrder | monitor/monitor.go:178-205 | blocks saved later lie above all blocks saved before, so the first saved height is the lowest |
| Ingest.GaplessIff | monitor/monitor.go:184-192 | in every run the saved heights, zero included, have no gap iff height one was saved whenever zero and something above it were |
| Ingest.NoGap | monitor/monitor.go:184-192 | there is no gap at all if the chain never reports height zero |
| Ingest.ZeroWasReported | monitor/monitor.go:184-192 | height zero is saved only if the chain reported it as its height |
| Ingest.GapReached | monitor/monitor.go:184-192 | a run with a gap, for a chain that serves a block of height zero |
| Ingest.LaterEventNeverVerified | verifier/hash_verifier.go:281-292 | of two stored events for one object and provider within the window, the later never gets a verdict and is never voted on, if it has no challenger, is no heartbeat and its id exceeds the interval |
| Ingest.PreCheckExact | verifier/hash_verifier.go:281-292 | in every run the pre-check passes an event iff somebody raised it, it is a heartbeat, its id is within the interval, or no earlier row of its object and provider is in its window |
| Ingest.OnlyMonitorAnnounces | app/app.go:119-131 | no other loop adds, removes or re-announces a row, and only the verifier changes verdicts |
| Dao.Database.SaveBlockAndEvents | db/dao/event_dao.go:18-33 | succeeds iff the height and all ids are new and no id comes twice, and then inserts each announcement as an unprocessed row without verdict and keeps all others; otherwise changes nothing |
| Dao.Database.GetUnexpiredEventsByStatus | db/dao/event_dao.go:44-54 | exactly the rows with this status that expire above the height, in id order |
| Dao.Database.GetEventByChallengeId | db/dao/event_dao.go:69-76 | a row with this challenge id is found unless the call fails or no row has it |
| Dao.Database.UpdateEventStatus | db/dao/event_dao.go:78-83 | sets the status of that row only, also when it took effect but reports an error; a missing row is no error |
| Dao.Database.UpdateEventStatusVerifyResult | db/dao/event_dao.go:85-90 | sets status and verdict of that row only |
| Dao.Database.IsEventExistsBetween | db/dao/event_dao.go:92-100 | true iff some row of this object and provider has its id in the closed range |
| Dao.Database.GetLatestBlock | db/dao/block_dao.go:18-25 | the greatest saved height, or zero when nothing is saved |
| Dao.Database.SaveVote | db/dao/vote_dao.go:18-24 | appends the vote iff its (key, hash) pair is new |
| Dao.Database.SaveVoteAndUpdateEventStatus | db/dao/vote_dao.go:26-37 | vote and status are stored together or not at all, also when only the second statement fails |
| Dao.Database.GetVotesByEventHash | db/dao/vote_dao.go:39-48 | the filter of the votes table by hash |
| Dao.Database.IsVoteExists | db/dao/vote_dao.go:50-58 | true iff some stored vote has this hash and key |
| Store.VotesForSpec | db/dao/vote_dao.go:39-48 | the query returns exactly the rows of the hash, with distinct keys when pairs are unique |
| Store.VotesForCount | db/dao/vote_dao.go:39-48 | it returns one vote for every stored row of the hash |
| Store.AddRowsAt | db/dao/event_dao.go:25-30 | inserting rows creates exactly the announced ones and keeps all others |
| VoteStages.DataHandler.FetchEventsForSelfVote | vote/data_provider.go:33-58 | exactly the unexpired verified rows whose result is a mismatch or whose id is a multiple of the heartbeat interval, in id order, with the number of those that are no mismatch; the last id is the greatest of all fetched rows |
| VoteStages.SelfVotesMembers | vote/data_provider.go:45-57 | the filter keeps exactly the votable rows, in id order |
| VoteStages.SelfVotesAscending | vote/data_provider.go:45-57 | filtering a query's rows is the query for votable rows, and the last row has the greatest id |
| VoteStages.FilterMeaning | vote/data_provider.go:45-57 | the filter of the ordered rows is that list, that number and that last id |
| VoteStages.VoteBroadcaster.ConstructVoteAndSign | vote/vote_broadcaster.go:144-154 | the vote row names the event and carries this node's key and its signature over the event's hash; it is saved with the status in one transaction, and the vote is returned even when that fails |
| VoteStages.VoteBroadcaster.HandleEvent | vote/vote_broadcaster.go:74-128 | what is saved, cached and sent for one event, in every combination of cache, duplicate, failure and expiry |
| VoteStages.VoteCollator.CollateForSingleEvent | vote/vote_collator.go:75-98 | succeeds, and stores `EnoughVotesCollected`, iff unexpired and 3 times the votes exceed 2 times the validators or there is one validator |
| VoteStages.VoteCollator.PrepareEnoughValidVotesForEvent | vote/vote_collator.go:101-150 | the same condition for the part that only reads |
| VoteStages.VoteCollector.IsVotePubKeyValid | vote/vote_collector.go:101-108 | the search finds the key iff a validator has it |
| VoteStages.VoteCollector.CollectOne | vote/vote_collector.go:70-96 | stores the vote only if its key is a validator's, it is signed over its own hash, and it is new; afterwards such a vote is stored unless a call failed |
| VoteStages.VoteCollector.CollectVotes | vote/vote_collector.go:45-99 | rows are only appended, stay unique and come from genuine pool votes; a successful pass leaves no genuine vote out unless its lookup failed |
| TxSubmitter.Submitter.GetEventHash | submitter/tx_submitter.go:134-142 | the cached hash or the computed one, which is then cached |
| TxSubmitter.Submitter.GetSignatureAndBitSet | submitter/tx_submitter.go:144-162 | aggregate and bitset come from one list of stored votes for the event's hash, which is cached afterwards, whether or not the call fails |
| TxSubmitter.Submitter.SubmitTransactionLoop | submitter/tx_submitter.go:165-231 | ends at a duplicated slash, at an accepted call whose `Submitted` is known to be stored, after the period, or after six refused calls, and at nothing else; returns nil iff the last call was accepted and its update acknowledged; only an accepted call stores `Submitted`, only a duplicated slash stores that |
| TxSubmitter.IterationMeaning | submitter/tx_submitter.go:182-229 | what each answer of chain and database makes of an iteration: whether it ends the loop, counts as refused, or stores something |
| TxSubmitter.EffectMeaning | submitter/tx_submitter.go:196-223 | a refused call or a missing nonce changes no table; any other iteration at most the status of the event's row |
| TxSubmitter.TraceMeaning | submitter/tx_submitter.go:168-176 | any trace the loop stops at has stopped for one of these reasons |
| TxSubmitter.StoredByMeaning | submitter/tx_submitter.go:200-223 | of the tables the loop changes only the status of its row: `DuplicatedSlash` if the last iteration stored that, else `Submitted` if any iteration did, acknowledged or not |
| TxSubmitter.LoopIsRun | submitter/tx_submitter.go:165-231 | every trace of the loop is a run of the submitter's steps with the same effect |
| AttestLoop.AttestMonitor.UpdateEventStatus | attest/attest_monitor.go:73-93 | a submitted row becomes `SelfAttested`, an attested one stays, any other becomes `Attested`; other rows stay |
| AttestLoop.AttestMonitor.UpdateAttestedCacheAndEventStatus | attest/attest_monitor.go:61-71 | in every interleaving of the goroutines' reads and writes, repeated ids included, exactly the new ids whose calls succeed are marked |
| AttestLoop.AttestMonitor.Tick | attest/attest_monitor.go:37-57 | one tick marks exactly the new ids; all ids are remembered, even after a failed lookup, until the counter passes its limit |
| BlockMonitor.Monitor.CalNextHeight | monitor/monitor.go:178-205 | one past the newest block, or the chain's or the cached height on a fresh database; exactly when it fails |
| BlockMonitor.Monitor.Poll | monitor/monitor.go:122-136 | a poll saves the block `calNextHeight` asks for with all its announcements, also on a fresh database, or changes nothing; it fails without a fault only when the unique indexes refuse |
| StageRuns.CollateIsSteps | vote/vote_collator.go:75-98 | two undisturbed steps store `EnoughVotesCollected` under the condition of the collator's method |
| StageRuns.AttestIsSteps | attest/attest_monitor.go:73-93 | two undisturbed steps mark the row as the method does |
| StageRuns.CollectIsSteps | vote/vote_collector.go:70-96 | two undisturbed steps store a vote iff it is genuine and new |
| StageRuns.PollIsSteps | monitor/monitor.go:122-136 | two undisturbed steps save the next block iff the indexes accept it |
| StageRuns.VoteIsStep | vote/vote_broadcaster.go:144-154 | the broadcaster's step signs, stores, marks and caches what its method and loop do |
| StageRuns.PrepareIsStep | submitter/tx_submitter.go:144-162 | the submitter's preparing step takes the aggregate, bitset and cached hash its method takes |
| StageRuns.AnswerIsSteps | submitter/tx_submitter.go:196-229 | what one answer makes of the event under way: a refusal changes nothing, a duplicated slash ends it, a success ends it once its store is acknowledged |
| StageRuns.FetchedForVerification | db/dao/event_dao.go:44-54 | the verifier picks up exactly the unexpired unprocessed rows |
| StageRuns.FetchedForVote | vote/data_provider.go:45-57 | every unexpired verified mismatch and heartbeat reaches the broadcaster, and nothing else does |
| StageRuns.FetchedForCollate | db/dao/event_dao.go:44-54 | the collator picks up exactly the unexpired self-voted rows |
| StageRuns.FetchedForSubmit | db/dao/event_dao.go:44-54 | the submitter picks up exactly the unexpired rows with enough votes |
| StageRuns.TickStarts | attest/attest_monitor.go:44-71 | a tick of the step system starts work on exactly the ids the method handles, and remembers and counts the same |
| ClientSelection.PicksMostAdvanced | executor/client.go:50-75 | in every schedule the channel closes only after all answers were received, so the result has the greatest height, or is the first client when no height is positive; at most one iteration more than clients |
| ClientSelection.AlwaysReturns | executor/client.go:77-88 | no schedule gets stuck before the loop returns, and none goes on forever |
| ClientSelection.GetClient | executor/client.go:62-74 | for every order of arrival the loop returns such a client |

## Left out

- WriteBounds.StatusSettles: assumes distinct ids per answer of the chain; with repeated ids several goroutines of one tick write the same row.
- Quorum.SubmittedWithQuorum: assumes one fixed validator list, because votes are checked against the list at collection time and aggregated against a later one (`vote/vote_collector.go:81`, `submitter/tx_submitter.go:151-156`).
- Justification.VotesJustified: assumes a constant heartbeat interval, as the filter and a later reader may see different ones.
- Ingest.LaterEventNeverVerified: assumes constant intervals and chain ids that grow with the height.
- Dao.Database.SaveVoteAndUpdateEventStatus: a commit that takes effect although the client sees an error is modelled in the step system (the write, then a dropped task), and in the classes for the submitter's updates only; this method and the other writes have no flag for it.
- TxSubmitter.Submitter.SubmitTransactionLoop: that the clock passes the end of the period at some iteration is a hypothesis; nonces, gas and fees are not modelled.
- ClientSelection.PicksMostAdvanced: two `GetClient` calls at once, which share each client's `Height` field, are not modelled.
- Other loops running during one batch of `VerifyHash` or one tick of `UpdateAttestedCacheAndEventStatus`: the step system has them.
- That every `Unprocessed` event is verified in the end: the code does not promise it, since a failed id stays cached and is skipped.
- Agreement of the attested-id cache with the database: ids are remembered although their lookup failed.
- The wiper, which is never started, and with it every deletion.
- Columns for row ids, event types and timestamps.
- `DtoToEntity`, which is never called, and the parsing of chain events, decimal object ids and hexadecimal addresses.
- BLS, SHA-256 and Keccak internals, RPC clients, storage-provider requests and their retries, secrets, metrics, alerts, configuration, sleeps and tickers.
