/** The running service as one step system: seven loops that share the database and interleave freely.
    A stage fetches a snapshot of rows in one step and writes in later ones; any call may fail, and the service may be
    restarted at any time, which leaves it nothing but its tables. */
module Pipeline {
  import opened Types
  import opened Store
  import opened EventHash
  import opened Certification

  /** What stays fixed in a run: identity, hash function, and the challenges each block announces. */
  datatype Config = Config(chainId: Bytes, ownKey: Bytes, keccak: Bytes -> Bytes, chain: nat -> seq<Challenge>)

  datatype VerifyPhase = Fetched | MarkDuplicate | Passed
  datatype VerifyTask = VerifyTask(ev: Event, phase: VerifyPhase)
  datatype CollateTask = CollateTask(ev: Event, enough: bool)
  datatype SubmitPhase = Trying | Accepted | Slashed
  datatype SubmitTask =
    SubmitTask(ev: Event, digest: Bytes, votes: seq<Vote>, validators: seq<Bytes>, phase: SubmitPhase)
  datatype AttestTask = Lookup(id: uint64) | Store(id: uint64, status: EventStatus) | Finished
  datatype AttestReply = Rejected | DuplicatedSlashError | Success

  /** How the store after an answered call ends: with an error, the row may have been updated all the same. */
  datatype StoreOutcome = Stored | Lost | Unacknowledged

  /** One status written to a row, and whether a pipeline stage or the attest monitor wrote it. */
  datatype Write = Write(byPipeline: bool, status: EventStatus)

  /** Ghost history of a row: every status written to it, oldest first, and the last one a pipeline stage wrote. */
  datatype Trail = Trail(writes: seq<Write>, stage: EventStatus)

  /** Everything this node certifies to the outside, or relies on, while it runs. */
  datatype Fact =
    | Signed(id: uint64, digest: Bytes)
    | Collated(id: uint64, digest: Bytes)
    | AttestCall(id: uint64, digest: Bytes, args: AttestArgs, votes: seq<Vote>, validators: seq<Bytes>)
    | AttestSucceeded(id: uint64)

  /** The arguments of the AttestChallenge message; the aggregate covers the signatures of `votes` in AttestCall. */
  datatype AttestArgs =
    AttestArgs(challengeId: uint64, objectId: nat, result: VoteResult, sp: Bytes, challenger: Bytes, bits: set<nat>)

  // Each loop owns its part of the memory; only `db` is shared.

  /** Height about to be saved. */
  datatype MonitorState = MonitorState(planned: Option<nat>)

  /** Tasks of the current batch that may still write. */
  datatype VerifierState = VerifierState(tasks: map<uint64, VerifyTask>)

  /** Events of the current batch, and cachedLocalVote. */
  datatype BroadcasterState = BroadcasterState(batch: map<uint64, Event>, cache: map<uint64, Signature>)

  datatype CollatorState = CollatorState(tasks: map<uint64, CollateTask>)

  /** Votes and validator keys of the current query, and a vote that passed the checks but is not inserted yet. */
  datatype CollectorState = CollectorState(polled: seq<PoolVote>, validators: seq<Bytes>, checked: Option<Vote>)

  /** Events of the current batch, the one being submitted, and cachedEventHash. */
  datatype SubmitterState =
    SubmitterState(batch: map<uint64, Event>, current: Option<SubmitTask>, cache: map<uint64, Bytes>)

  /** Goroutines of the current tick, attestedChallengeIds, and queryCount. */
  datatype AttestState = AttestState(tasks: seq<AttestTask>, remembered: set<uint64>, queryCount: nat)

  const MAX_QUERY_COUNT := 3000

  /** Ghost record of the run: what was written to each row, and what this node certified. */
  datatype Record = Record(history: map<uint64, Trail>, facts: set<Fact>)

  datatype System = System(
    db: Tables,
    monitor: MonitorState,
    verifier: VerifierState,
    broadcaster: BroadcasterState,
    collator: CollatorState,
    collector: CollectorState,
    submitter: SubmitterState,
    attest: AttestState,
    record: Record,
    panicked: bool)

  const INIT := System(
    EMPTY, MonitorState(None), VerifierState(map[]), BroadcasterState(map[], map[]), CollatorState(map[]),
    CollectorState([], [], None), SubmitterState(map[], None, map[]), AttestState([], {}, 0), Record(map[], {}), false)

  datatype MonitorStep =
    | Plan(latest: nat)
    | SaveBlock(ok: bool)

  datatype VerifierStep =
    | FetchUnverified(height: nat)
    | CheckDuplicate(id: uint64, dedup: nat, heartbeat: nat)
    | StoreVerdict(id: uint64, status: EventStatus, result: VerifyResult)
    | DropVerify(id: uint64)

  datatype BroadcasterStep =
    | FetchForVote(height: nat, heartbeat: nat)
    | SignAndSave(id: uint64, fault: bool)
    | DropVote(id: uint64)
    | EvictLocalVote(id: uint64)

  datatype CollatorStep =
    | FetchForCollate(height: nat)
    | CountVotes(id: uint64, validators: seq<Bytes>)
    | StoreEnough(id: uint64)
    | DropCollate(id: uint64)

  datatype CollectorStep =
    | PollVotes(votes: seq<PoolVote>, validators: seq<Bytes>)
    | CheckVote
    | InsertVote(fault: bool)
    | SkipVote

  datatype SubmitterStep =
    | FetchForSubmit(height: nat)
    | Prepare(id: uint64, validators: seq<Bytes>)
    | Attest(reply: AttestReply)
    | StoreSubmitted(outcome: StoreOutcome)
    | Abandon
    | DropSubmit(id: uint64)
    | EvictEventHash(id: uint64)

  datatype AttestStep =
    | AttestTick(ids: seq<uint64>)
    | AttestRead(task: nat)
    | AttestWrite(task: nat, ok: bool)

  datatype Step =
    | Monitor(m: MonitorStep)
    | Verifier(v: VerifierStep)
    | Broadcaster(b: BroadcasterStep)
    | Collator(l: CollatorStep)
    | Collector(k: CollectorStep)
    | Submitter(t: SubmitterStep)
    | AttestMonitor(a: AttestStep)
    | Restart

  function Digest(c: Config, e: Event): Option<Bytes> {
    EventDigest(c.keccak, c.chainId, e)
  }

  /** Height the monitor asks for: one past the newest saved block, or the chain's height on a fresh database. */
  function NextHeight(blocks: set<nat>, latest: nat): nat {
    if LatestHeight(blocks) == 0 then latest else LatestHeight(blocks) + 1
  }

  /** The verdicts a verifier task can store once its pre-check has passed or found a duplicate. */
  predicate VerdictAllowed(phase: VerifyPhase, status: EventStatus, result: VerifyResult) {
    || (phase == MarkDuplicate && status == Duplicated && result == Unknown)
    || (phase == Passed && status == VerificationFailed && result == Unknown)
    || (phase == Passed && status == Verified && result != Unknown)
  }

  /** The attest monitor's choice for a row it read, or None when the row already counts as attested. */
  function AttestedStatus(read: EventStatus): Option<EventStatus> {
    if read == SelfAttested || read == Attested then None
    else if read == Submitted then Some(SelfAttested)
    else Some(Attested)
  }

  /** Anything but a mismatch is submitted as a failed challenge. */
  function SubmittedResult(e: Event): VoteResult {
    if e.verifyResult == HashMismatched then ChallengeSucceed else ChallengeFailed
  }

  function ArgsOf(t: SubmitTask): AttestArgs {
    AttestArgs(t.ev.info.challengeId, t.ev.info.objectId, SubmittedResult(t.ev), t.ev.info.sp, t.ev.info.challenger,
               SignerBits(t.votes, t.validators))
  }

  function OwnVote(c: Config, id: uint64, digest: Bytes): Vote {
    EntityToDto(PoolVote(c.ownKey, Signature(c.ownKey, digest), digest), id)
  }

  function History(s: System, id: uint64): Trail {
    if id in s.record.history then s.record.history[id] else Trail([], Unprocessed)
  }

  function Extend(t: Trail, byPipeline: bool, status: EventStatus): Trail {
    Trail(t.writes + [Write(byPipeline, status)], if byPipeline then status else t.stage)
  }

  /** Appends a stored status to the row's history. */
  function Written(s: System, id: uint64, byPipeline: bool, status: EventStatus): Record {
    if id in s.db.events
    then s.record.(history := s.record.history[id := Extend(History(s, id), byPipeline, status)])
    else s.record
  }

  /** A verdict column is written together with the status, or left alone when there is no result. */
  function PutVerdict(s: System, id: uint64, status: EventStatus, result: VerifyResult): System {
    var events := if result == Unknown then SetStatus(s.db.events, id, status)
      else SetVerdict(s.db.events, id, status, result);
    s.(db := s.db.(events := events), record := Written(s, id, true, status))
  }

  function Note(r: Record, f: Fact): Record {
    r.(facts := r.facts + {f})
  }

  // ---------------------------------------------------------------------------------------------
  // The seven loops

  predicate MonitorEnabled(s: System, step: MonitorStep) {
    match step
    case Plan(_) => s.monitor.planned == None
    case SaveBlock(_) => s.monitor.planned.Some?
  }

  function MonitorNext(c: Config, s: System, step: MonitorStep): System
    requires MonitorEnabled(s, step)
  {
    match step
    case Plan(latest) => s.(monitor := MonitorState(Some(NextHeight(s.db.blocks, latest))))
    case SaveBlock(ok) =>
      var h := s.monitor.planned.value;
      var accepted := ok && Insertable(s.db, h, c.chain(h));
      s.(monitor := MonitorState(None), db := if accepted then InsertBlock(s.db, h, c.chain(h)) else s.db)
  }

  predicate VerifierEnabled(s: System, step: VerifierStep) {
    match step
    case FetchUnverified(_) => s.verifier.tasks == map[]
    case CheckDuplicate(id, _, heartbeat) =>
      id in s.verifier.tasks && s.verifier.tasks[id].phase == Fetched && heartbeat > 0
    case StoreVerdict(id, status, result) =>
      id in s.verifier.tasks && VerdictAllowed(s.verifier.tasks[id].phase, status, result)
    case DropVerify(id) => id in s.verifier.tasks
  }

  function VerifierNext(s: System, step: VerifierStep): System
    requires VerifierEnabled(s, step)
  {
    var tasks := s.verifier.tasks;
    match step
    case FetchUnverified(height) =>
      var rows := Unexpired(s.db.events, height, Unprocessed);
      s.(verifier := VerifierState(map id | id in rows :: VerifyTask(rows[id], Fetched)))
    case CheckDuplicate(id, dedup, heartbeat) =>
      var phase := if IsDuplicate(s.db.events, tasks[id].ev.info, dedup, heartbeat) then MarkDuplicate else Passed;
      s.(verifier := VerifierState(tasks[id := tasks[id].(phase := phase)]))
    case StoreVerdict(id, status, result) =>
      PutVerdict(s, id, status, result).(verifier := VerifierState(tasks - {id}))
    case DropVerify(id) => s.(verifier := VerifierState(tasks - {id}))
  }

  predicate BroadcasterEnabled(s: System, step: BroadcasterStep) {
    match step
    case FetchForVote(_, heartbeat) => s.broadcaster.batch == map[] && heartbeat > 0
    case SignAndSave(id, _) => id in s.broadcaster.batch && id !in s.broadcaster.cache
    case DropVote(id) => id in s.broadcaster.batch
    case EvictLocalVote(id) => id in s.broadcaster.cache
  }

  function BroadcasterNext(c: Config, s: System, step: BroadcasterStep): System
    requires BroadcasterEnabled(s, step)
  {
    var b := s.broadcaster;
    match step
    case FetchForVote(height, heartbeat) =>
      var rows := Unexpired(s.db.events, height, Verified);
      s.(broadcaster := b.(batch := map id | id in rows && Votable(rows[id], heartbeat) :: rows[id]))
    case SignAndSave(id, fault) => (
      match Digest(c, b.batch[id])
      case None => s.(panicked := true)
      case Some(d) => SaveOwnVote(s, OwnVote(c, id, d), id, d, fault))
    case DropVote(id) => s.(broadcaster := b.(batch := b.batch - {id}))
    case EvictLocalVote(id) => s.(broadcaster := b.(cache := b.cache - {id}))
  }

  /** The vote row and the status are one transaction; a vote refused as duplicate is cached all the same. */
  function SaveOwnVote(s: System, v: Vote, id: uint64, digest: Bytes, fault: bool): System {
    var b := s.broadcaster;
    var saved := !fault && !VoteExists(s.db.votes, v.eventHash, v.pubKey);
    var record := if saved then Written(s, id, true, SelfVoted) else s.record;
    s.(db := if saved then AddOwnVote(s.db, v, id) else s.db,
       broadcaster := BroadcasterState(b.batch - {id}, if fault then b.cache else b.cache[id := v.signature]),
       record := Note(record, Signed(id, digest)))
  }

  predicate CollatorEnabled(s: System, step: CollatorStep) {
    match step
    case FetchForCollate(_) => s.collator.tasks == map[]
    case CountVotes(id, _) => id in s.collator.tasks && !s.collator.tasks[id].enough
    case StoreEnough(id) => id in s.collator.tasks && s.collator.tasks[id].enough
    case DropCollate(id) => id in s.collator.tasks
  }

  function CollatorNext(c: Config, s: System, step: CollatorStep): System
    requires CollatorEnabled(s, step)
  {
    var tasks := s.collator.tasks;
    match step
    case FetchForCollate(height) =>
      var rows := Unexpired(s.db.events, height, SelfVoted);
      s.(collator := CollatorState(map id | id in rows :: CollateTask(rows[id], false)))
    case CountVotes(id, validators) => Count(c, s, id, validators)
    case StoreEnough(id) =>
      s.(db := s.db.(events := SetStatus(s.db.events, id, EnoughVotesCollected)),
         collator := CollatorState(tasks - {id}),
         record := Written(s, id, true, EnoughVotesCollected))
    case DropCollate(id) => s.(collator := CollatorState(tasks - {id}))
  }

  /** The quorum test is against the validators known at that moment; one validator needs no count at all. */
  function Count(c: Config, s: System, id: uint64, validators: seq<Bytes>): System
    requires id in s.collator.tasks
  {
    var tasks := s.collator.tasks;
    var passed := CollatorState(tasks[id := tasks[id].(enough := true)]);
    if |validators| == 1 then s.(collator := passed)
    else
      match Digest(c, tasks[id].ev)
      case None => s.(panicked := true)
      case Some(d) =>
        var enough := MoreThanTwoThirds(|VotesFor(s.db.votes, Hex(d))|, |validators|);
        s.(collator := if enough then passed else CollatorState(tasks - {id}),
           record := if enough then Note(s.record, Collated(id, d)) else s.record)
  }

  predicate CollectorEnabled(s: System, step: CollectorStep) {
    var k := s.collector;
    match step
    case PollVotes(_, _) => k.polled == [] && k.checked == None
    case CheckVote => k.polled != [] && k.checked == None
    case InsertVote(_) => k.polled != [] && k.checked.Some?
    case SkipVote => k.polled != [] && k.checked == None
  }

  /** The vote is not stored yet, its key is a validator's, and it is signed. */
  predicate Acceptable(votes: seq<Vote>, validators: seq<Bytes>, v: PoolVote) {
    !VoteExists(votes, Hex(v.eventHash), Hex(v.pubKey)) && v.pubKey in validators && VerifySignature(v)
  }

  function CollectorNext(s: System, step: CollectorStep): System
    requires CollectorEnabled(s, step)
  {
    var k := s.collector;
    match step
    case PollVotes(votes, validators) => s.(collector := CollectorState(votes, validators, None))
    case CheckVote =>
      s.(collector := if Acceptable(s.db.votes, k.validators, k.polled[0])
                      then k.(checked := Some(EntityToDto(k.polled[0], 0)))
                      else k.(polled := k.polled[1..]))
    case InsertVote(fault) =>
      var v := k.checked.value;
      var saved := !fault && !VoteExists(s.db.votes, v.eventHash, v.pubKey);
      s.(db := if saved then AddVote(s.db, v) else s.db,
         collector := k.(checked := None, polled := if saved then k.polled[1..] else []))
    case SkipVote => s.(collector := k.(polled := k.polled[1..]))
  }

  predicate SubmitterEnabled(s: System, step: SubmitterStep) {
    var t := s.submitter;
    match step
    case FetchForSubmit(_) => t.batch == map[] && t.current == None
    case Prepare(id, _) => id in t.batch && t.current == None
    case Attest(_) => t.current.Some? && t.current.value.phase == Trying
    case StoreSubmitted(_) => t.current.Some? && t.current.value.phase != Trying
    case Abandon => t.current.Some? && t.current.value.phase == Trying
    case DropSubmit(id) => id in t.batch
    case EvictEventHash(id) => id in t.cache
  }

  function SubmitterNext(c: Config, s: System, step: SubmitterStep): System
    requires SubmitterEnabled(s, step)
  {
    var t := s.submitter;
    match step
    case FetchForSubmit(height) => s.(submitter := t.(batch := Unexpired(s.db.events, height, EnoughVotesCollected)))
    case Prepare(id, validators) => (
      match CachedDigest(c, t.cache, id, t.batch[id])
      case None => s.(panicked := true)
      case Some(d) =>
        var task := SubmitTask(t.batch[id], d, VotesFor(s.db.votes, Hex(d)), validators, Trying);
        s.(submitter := SubmitterState(t.batch - {id}, Some(task), t.cache[id := d])))
    case Attest(reply) =>
      var task := t.current.value;
      var record := Note(s.record, CallOf(task));
      s.(submitter := t.(current := Some(task.(phase := PhaseAfter(reply)))),
         record := if reply == Success then Note(record, AttestSucceeded(task.ev.info.challengeId)) else record)
    case StoreSubmitted(outcome) => Finish(s, t.current.value, outcome)
    case Abandon => s.(submitter := t.(current := None))
    case DropSubmit(id) => s.(submitter := t.(batch := t.batch - {id}))
    case EvictEventHash(id) => s.(submitter := t.(cache := t.cache - {id}))
  }

  /** getEventHash: the cached digest when there is one. */
  function CachedDigest(c: Config, cache: map<uint64, Bytes>, id: uint64, ev: Event): Option<Bytes> {
    if id in cache then Some(cache[id]) else Digest(c, ev)
  }

  /** Storing the outcome; a store that reports an error sends an accepted event round the loop again. */
  function Finish(s: System, task: SubmitTask, outcome: StoreOutcome): System {
    var id := task.ev.info.challengeId;
    var status := if task.phase == Accepted then Submitted else DuplicatedSlash;
    var retry := if outcome != Stored && task.phase == Accepted then Some(task.(phase := Trying)) else None;
    s.(db := if outcome != Lost then s.db.(events := SetStatus(s.db.events, id, status)) else s.db,
       submitter := s.submitter.(current := retry),
       record := if outcome != Lost then Written(s, id, true, status) else s.record)
  }

  function PhaseAfter(reply: AttestReply): SubmitPhase {
    match reply
    case Rejected => Trying
    case DuplicatedSlashError => Slashed
    case Success => Accepted
  }

  function CallOf(t: SubmitTask): Fact {
    AttestCall(t.ev.info.challengeId, t.digest, ArgsOf(t), t.votes, t.validators)
  }

  predicate AttestEnabled(s: System, step: AttestStep) {
    var tasks := s.attest.tasks;
    match step
    case AttestTick(_) => forall i :: 0 <= i < |tasks| ==> tasks[i].Finished?
    case AttestRead(i) => i < |tasks| && tasks[i].Lookup?
    case AttestWrite(i, _) => i < |tasks| && tasks[i].Store?
  }

  function AttestNext(s: System, step: AttestStep): System
    requires AttestEnabled(s, step)
  {
    var tasks := s.attest.tasks;
    match step
    case AttestTick(ids) => s.(attest := AfterTick(s.attest, ids))
    case AttestRead(i) => s.(attest := s.attest.(tasks := tasks[i := AfterRead(s.db.events, tasks[i].id)]))
    case AttestWrite(i, ok) =>
      s.(db := if ok then s.db.(events := SetStatus(s.db.events, tasks[i].id, tasks[i].status)) else s.db,
         attest := s.attest.(tasks := tasks[i := Finished]),
         record := if ok then Written(s, tasks[i].id, false, tasks[i].status) else s.record)
  }

  /** A goroutine for every listed id that is not remembered; one that is listed twice gets two. */
  function Goroutines(ids: seq<uint64>, remembered: set<uint64>): (tasks: seq<AttestTask>)
    ensures forall i :: 0 <= i < |tasks| ==> tasks[i].Lookup? && tasks[i].id in ids && tasks[i].id !in remembered
    ensures DistinctList(ids) ==> forall i, j :: 0 <= i < j < |tasks| ==> tasks[i].id != tasks[j].id
  {
    if ids == [] then [] else
      var last := ids[|ids| - 1];
      Goroutines(ids[..|ids| - 1], remembered) + if last in remembered then [] else [Lookup(last)]
  }

  predicate DistinctList(ids: seq<uint64>) {
    forall i, j :: 0 <= i < j < |ids| ==> ids[i] != ids[j]
  }

  /** A tick remembers what it lists, and forgets everything once the counter has passed its limit. */
  function AfterTick(a: AttestState, ids: seq<uint64>): AttestState {
    var listed := set id | id in ids;
    AttestState(Goroutines(ids, a.remembered),
                if a.queryCount + 1 > MAX_QUERY_COUNT then {} else a.remembered + listed,
                a.queryCount + 1)
  }

  function AfterRead(events: map<uint64, Event>, id: uint64): AttestTask {
    if id !in events then Finished
    else
      match AttestedStatus(events[id].status)
      case None => Finished
      case Some(status) => Store(id, status)
  }

  ghost predicate Enabled(s: System, step: Step) {
    !s.panicked &&
    match step
    case Monitor(m) => MonitorEnabled(s, m)
    case Verifier(v) => VerifierEnabled(s, v)
    case Broadcaster(b) => BroadcasterEnabled(s, b)
    case Collator(l) => CollatorEnabled(s, l)
    case Collector(k) => CollectorEnabled(s, k)
    case Submitter(t) => SubmitterEnabled(s, t)
    case AttestMonitor(a) => AttestEnabled(s, a)
    case Restart => true
  }

  function Next(c: Config, s: System, step: Step): System
    requires Enabled(s, step)
  {
    match step
    case Monitor(m) => MonitorNext(c, s, m)
    case Verifier(v) => VerifierNext(s, v)
    case Broadcaster(b) => BroadcasterNext(c, s, b)
    case Collator(l) => CollatorNext(c, s, l)
    case Collector(k) => CollectorNext(s, k)
    case Submitter(t) => SubmitterNext(c, s, t)
    case AttestMonitor(a) => AttestNext(s, a)
    case Restart => INIT.(db := s.db, record := s.record)
  }

  // ---------------------------------------------------------------------------------------------
  // Runs

  /** The state after executing `steps` one after the other, or None when one of them is not enabled. */
  ghost function RunFrom(c: Config, s: System, steps: seq<Step>): Option<System> {
    if steps == [] then Some(s)
    else
      match RunFrom(c, s, steps[..|steps| - 1])
      case None => None
      case Some(t) => if Enabled(t, steps[|steps| - 1]) then Some(Next(c, t, steps[|steps| - 1])) else None
  }

  lemma RunAppend(c: Config, s: System, steps: seq<Step>, step: Step)
    requires RunFrom(c, s, steps).Some? && Enabled(RunFrom(c, s, steps).value, step)
    ensures RunFrom(c, s, steps + [step]) == Some(Next(c, RunFrom(c, s, steps).value, step))
  {
    assert (steps + [step])[..|steps|] == steps;
  }

  lemma RunTwo(c: Config, s: System, first: Step, second: Step)
    requires Enabled(s, first) && Enabled(Next(c, s, first), second)
    ensures RunFrom(c, s, [first, second]) == Some(Next(c, Next(c, s, first), second))
  {
    RunAppend(c, s, [], first);
    assert [] + [first] == [first] && [first] + [second] == [first, second];
    RunAppend(c, s, [first], second);
  }

  lemma {:induction false} RunConcat(c: Config, s: System, first: seq<Step>, second: seq<Step>)
    requires RunFrom(c, s, first).Some?
    ensures RunFrom(c, s, first + second) == RunFrom(c, RunFrom(c, s, first).value, second)
  {
    if second == [] {
      assert first + second == first;
    } else {
      RunConcat(c, s, first, second[..|second| - 1]);
      assert (first + second)[..|first + second| - 1] == first + second[..|second| - 1];
    }
  }

  ghost predicate Possible(c: Config, steps: seq<Step>) {
    RunFrom(c, INIT, steps).Some?
  }

  /** The state a run from the empty database has reached. */
  ghost function Exec(c: Config, steps: seq<Step>): System
    requires Possible(c, steps)
  {
    RunFrom(c, INIT, steps).value
  }

  /** Peels the last step off a run. */
  lemma LastStep(c: Config, steps: seq<Step>)
    requires Possible(c, steps) && steps != []
    ensures var front, step := steps[..|steps| - 1], steps[|steps| - 1];
      Possible(c, front) && Enabled(Exec(c, front), step) && Exec(c, steps) == Next(c, Exec(c, front), step)
  {
  }
}
