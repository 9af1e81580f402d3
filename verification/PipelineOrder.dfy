/** Per event, the pipeline stages write in order, however stale their snapshots get; only the submitter can repeat
    itself. Everything is proved for one arbitrary event id, so no invariant quantifies over the table. */
module PipelineOrder {
  import opened Types
  import opened Store
  import opened Pipeline

  // ---------------------------------------------------------------------------------------------
  // What happens to a single row

  /** The way the pipeline reaches a stage when every store that reports an error had no effect. */
  function PathTo(stage: EventStatus): seq<EventStatus> {
    match stage
    case Verified => [Verified]
    case SelfVoted => [Verified, SelfVoted]
    case EnoughVotesCollected => [Verified, SelfVoted, EnoughVotesCollected]
    case Submitted => [Verified, SelfVoted, EnoughVotesCollected, Submitted]
    case DuplicatedSlash => [Verified, SelfVoted, EnoughVotesCollected, DuplicatedSlash]
    case Duplicated => [Duplicated]
    case VerificationFailed => [VerificationFailed]
    case _ => []
  }

  /** `next` is a pipeline write that may come right after `stage`. Only the submitter can come back to an event: when a
      store took effect but reported an error, it submits once more. */
  predicate Follows(stage: EventStatus, next: EventStatus) {
    match next
    case Verified => stage == Unprocessed
    case Duplicated => stage == Unprocessed
    case VerificationFailed => stage == Unprocessed
    case SelfVoted => stage == Verified
    case EnoughVotesCollected => stage == SelfVoted
    case Submitted => stage == EnoughVotesCollected || stage == Submitted
    case DuplicatedSlash => stage == EnoughVotesCollected || stage == Submitted
    case _ => false
  }

  /** Stages at which the verify result is known. */
  predicate HasVerdict(stage: EventStatus) {
    stage in {Verified, SelfVoted, EnoughVotesCollected, Submitted, DuplicatedSlash}
  }

  /** Stages an event can be at once Submitted was written. */
  predicate WasSubmitted(stage: EventStatus) {
    stage == Submitted || stage == DuplicatedSlash
  }

  function Row(s: System, id: uint64): Option<Event> {
    if id in s.db.events then Some(s.db.events[id]) else None
  }

  function StageOf(s: System, id: uint64): EventStatus {
    History(s, id).stage
  }

  /** A pipeline write: the next stage, and the verify result together with Verified only. */
  predicate PipelineWrite(e: Event, h: Trail, e': Event, h': Trail) {
    && Follows(h.stage, e'.status)
    && h' == Extend(h, true, e'.status)
    && e' == e.(status := e'.status, verifyResult := e'.verifyResult)
    && (if e'.status == Verified then e'.verifyResult != Unknown else e'.verifyResult == e.verifyResult)
  }

  /** An attest-monitor write. */
  predicate AttestedWrite(e: Event, h: Trail, e': Event, h': Trail) {
    && (e'.status == Attested || (e'.status == SelfAttested && WasSubmitted(h.stage)))
    && h' == Extend(h, false, e'.status)
    && e' == e.(status := e'.status)
  }

  /** All that one step of the attest monitor, or of any other loop, can do to one row. */
  predicate RowMoves(s: System, s': System, id: uint64, byAttest: bool) {
    match (Row(s, id), Row(s', id))
    case (None, None) => History(s', id) == History(s, id)
    case (None, Some(e')) =>
      History(s', id) == History(s, id) && e'.info.challengeId == id && e' == EventRow(e'.height, e'.info)
    case (Some(e), None) => false
    case (Some(e), Some(e')) =>
      || (e' == e && History(s', id) == History(s, id))
      || (byAttest && AttestedWrite(e, History(s, id), e', History(s', id)))
      || (!byAttest && PipelineWrite(e, History(s, id), e', History(s', id)))
  }

  // ---------------------------------------------------------------------------------------------
  // The invariant

  ghost predicate RowInv(s: System, id: uint64) {
    var h := History(s, id);
    match Row(s, id)
    case None => h == Trail([], Unprocessed)
    case Some(e) =>
      && e.info.challengeId == id
      && (e.status == h.stage || e.status == Attested || (e.status == SelfAttested && WasSubmitted(h.stage)))
      && (h.stage == Unprocessed || PathTo(h.stage) != [])
      && (e.verifyResult != Unknown <==> HasVerdict(h.stage))
  }

  /** A task that may still write holds a faithful snapshot of an event that is exactly at its stage:
      announcement and verdict are current, only the status may be stale. */
  predicate AtStage(s: System, id: uint64, ev: Event, stage: EventStatus) {
    && id in s.db.events
    && StageOf(s, id) == stage
    && ev.(status := stage) == s.db.events[id].(status := stage)
  }

  predicate TaskInv(s: System, id: uint64) {
    && (id in s.verifier.tasks ==> AtStage(s, id, s.verifier.tasks[id].ev, Unprocessed))
    && (id in s.broadcaster.batch ==> AtStage(s, id, s.broadcaster.batch[id], Verified))
    && (id in s.collator.tasks ==> AtStage(s, id, s.collator.tasks[id].ev, SelfVoted))
    && (id in s.submitter.batch ==> AtStage(s, id, s.submitter.batch[id], EnoughVotesCollected))
    && (Submitting(s, id) ==>
          && (StageOf(s, id) == EnoughVotesCollected || StageOf(s, id) == Submitted)
          && AtStage(s, id, s.submitter.current.value.ev, StageOf(s, id))
          && id !in s.submitter.batch)
  }

  predicate Submitting(s: System, id: uint64) {
    s.submitter.current.Some? && s.submitter.current.value.ev.info.challengeId == id
  }

  ghost predicate AttestInv(s: System, id: uint64) {
    forall i :: 0 <= i < |s.attest.tasks| && s.attest.tasks[i].Store? && s.attest.tasks[i].id == id ==>
      && id in s.db.events
      && s.attest.tasks[i].status in {Attested, SelfAttested}
      && (s.attest.tasks[i].status == SelfAttested ==> WasSubmitted(StageOf(s, id)))
  }

  ghost predicate OrderInv(s: System, id: uint64) {
    RowInv(s, id) && TaskInv(s, id) && AttestInv(s, id)
  }

  // ---------------------------------------------------------------------------------------------
  // Each loop keeps it

  /** Tasks and attest writes survive a step that leaves them and the row alone. */
  lemma {:induction false} FrameOrder(s: System, s': System, id: uint64)
    requires OrderInv(s, id)
    requires Row(s', id) == Row(s, id) && History(s', id) == History(s, id)
    requires id in s'.verifier.tasks ==> id in s.verifier.tasks && s'.verifier.tasks[id].ev == s.verifier.tasks[id].ev
    requires id in s'.broadcaster.batch ==>
      id in s.broadcaster.batch && s'.broadcaster.batch[id] == s.broadcaster.batch[id]
    requires id in s'.collator.tasks ==> id in s.collator.tasks && s'.collator.tasks[id].ev == s.collator.tasks[id].ev
    requires s'.submitter.batch == s.submitter.batch
    requires Submitting(s', id) ==> Submitting(s, id) && s'.submitter.current.value.ev == s.submitter.current.value.ev
    requires s'.attest == s.attest
    ensures OrderInv(s', id)
  {
  }

  lemma {:induction false} MonitorKeepsOrder(c: Config, s: System, step: MonitorStep, id: uint64)
    requires MonitorEnabled(s, step) && OrderInv(s, id)
    ensures RowMoves(s, MonitorNext(c, s, step), id, false) && OrderInv(MonitorNext(c, s, step), id)
  {
    if step.SaveBlock? && step.ok && Insertable(s.db, s.monitor.planned.value, c.chain(s.monitor.planned.value)) {
      AddRowsAt(s.db.events, s.monitor.planned.value, c.chain(s.monitor.planned.value), id);
    }
  }

  lemma {:induction false} StoreVerdictKeepsOrder(s: System, step: VerifierStep, id: uint64)
    requires VerifierEnabled(s, step) && OrderInv(s, id) && step.StoreVerdict?
    ensures RowMoves(s, VerifierNext(s, step), id, false) && OrderInv(VerifierNext(s, step), id)
  {
  }

  lemma {:induction false} VerifierKeepsOrder(s: System, step: VerifierStep, id: uint64)
    requires VerifierEnabled(s, step) && OrderInv(s, id)
    ensures RowMoves(s, VerifierNext(s, step), id, false) && OrderInv(VerifierNext(s, step), id)
  {
    if step.StoreVerdict? {
      StoreVerdictKeepsOrder(s, step, id);
    }
  }

  lemma {:induction false} SaveOwnVoteKeepsOrder(s: System, v: Vote, other: uint64, digest: Bytes, fault: bool,
      id: uint64)
    requires other in s.broadcaster.batch && OrderInv(s, id)
    ensures RowMoves(s, SaveOwnVote(s, v, other, digest, fault), id, false)
    ensures OrderInv(SaveOwnVote(s, v, other, digest, fault), id)
  {
  }

  lemma {:induction false} BroadcasterKeepsOrder(c: Config, s: System, step: BroadcasterStep, id: uint64)
    requires BroadcasterEnabled(s, step) && OrderInv(s, id)
    ensures RowMoves(s, BroadcasterNext(c, s, step), id, false) && OrderInv(BroadcasterNext(c, s, step), id)
  {
    if step.SignAndSave? {
      match Digest(c, s.broadcaster.batch[step.id])
      case None => FrameOrder(s, BroadcasterNext(c, s, step), id);
      case Some(d) => SaveOwnVoteKeepsOrder(s, OwnVote(c, step.id, d), step.id, d, step.fault, id);
    }
  }

  lemma {:induction false} StoreEnoughKeepsOrder(c: Config, s: System, step: CollatorStep, id: uint64)
    requires CollatorEnabled(s, step) && OrderInv(s, id) && step.StoreEnough?
    ensures RowMoves(s, CollatorNext(c, s, step), id, false) && OrderInv(CollatorNext(c, s, step), id)
  {
  }

  lemma {:induction false} CountKeepsOrder(c: Config, s: System, other: uint64, validators: seq<Bytes>, id: uint64)
    requires other in s.collator.tasks && OrderInv(s, id)
    ensures RowMoves(s, Count(c, s, other, validators), id, false) && OrderInv(Count(c, s, other, validators), id)
  {
    FrameOrder(s, Count(c, s, other, validators), id);
  }

  lemma {:induction false} CollatorKeepsOrder(c: Config, s: System, step: CollatorStep, id: uint64)
    requires CollatorEnabled(s, step) && OrderInv(s, id)
    ensures RowMoves(s, CollatorNext(c, s, step), id, false) && OrderInv(CollatorNext(c, s, step), id)
  {
    if step.CountVotes? {
      CountKeepsOrder(c, s, step.id, step.validators, id);
    } else if step.StoreEnough? {
      StoreEnoughKeepsOrder(c, s, step, id);
    } else if step.DropCollate? {
      FrameOrder(s, CollatorNext(c, s, step), id);
    }
  }

  lemma {:induction false} CollectorKeepsOrder(s: System, step: CollectorStep, id: uint64)
    requires CollectorEnabled(s, step) && OrderInv(s, id)
    ensures RowMoves(s, CollectorNext(s, step), id, false) && OrderInv(CollectorNext(s, step), id)
  {
    FrameOrder(s, CollectorNext(s, step), id);
  }

  lemma {:induction false} FinishKeepsOrder(s: System, outcome: StoreOutcome, id: uint64)
    requires s.submitter.current.Some? && OrderInv(s, id)
    ensures RowMoves(s, Finish(s, s.submitter.current.value, outcome), id, false)
    ensures OrderInv(Finish(s, s.submitter.current.value, outcome), id)
  {
  }

  lemma {:induction false} PrepareKeepsOrder(c: Config, s: System, step: SubmitterStep, id: uint64)
    requires SubmitterEnabled(s, step) && step.Prepare? && OrderInv(s, id) && OrderInv(s, step.id)
    ensures RowMoves(s, SubmitterNext(c, s, step), id, false) && OrderInv(SubmitterNext(c, s, step), id)
  {
  }

  lemma {:induction false} SubmitterKeepsOrder(c: Config, s: System, step: SubmitterStep, id: uint64)
    requires SubmitterEnabled(s, step) && OrderInv(s, id)
    requires step.Prepare? ==> OrderInv(s, step.id)
    ensures RowMoves(s, SubmitterNext(c, s, step), id, false) && OrderInv(SubmitterNext(c, s, step), id)
  {
    if step.Attest? || step.Abandon? || step.EvictEventHash? {
      FrameOrder(s, SubmitterNext(c, s, step), id);
    } else if step.StoreSubmitted? {
      FinishKeepsOrder(s, step.outcome, id);
    } else if step.Prepare? {
      PrepareKeepsOrder(c, s, step, id);
    }
  }

  lemma {:induction false} AttestKeepsOrder(s: System, step: AttestStep, id: uint64)
    requires AttestEnabled(s, step) && OrderInv(s, id)
    ensures RowMoves(s, AttestNext(s, step), id, true) && OrderInv(AttestNext(s, step), id)
  {
  }

  lemma {:induction false} OrderStep(c: Config, s: System, step: Step, id: uint64)
    requires Enabled(s, step) && OrderInv(s, id)
    requires step.Submitter? && step.t.Prepare? ==> OrderInv(s, step.t.id)
    ensures RowMoves(s, Next(c, s, step), id, step.AttestMonitor?) && OrderInv(Next(c, s, step), id)
  {
    match step
    case Monitor(m) => MonitorKeepsOrder(c, s, m, id);
    case Verifier(v) => VerifierKeepsOrder(s, v, id);
    case Broadcaster(b) => BroadcasterKeepsOrder(c, s, b, id);
    case Collator(l) => CollatorKeepsOrder(c, s, l, id);
    case Collector(k) => CollectorKeepsOrder(s, k, id);
    case Submitter(t) => SubmitterKeepsOrder(c, s, t, id);
    case AttestMonitor(a) => AttestKeepsOrder(s, a, id);
    case Restart =>
  }

  lemma {:induction false} OrderHolds(c: Config, steps: seq<Step>, id: uint64)
    requires Possible(c, steps)
    ensures OrderInv(Exec(c, steps), id)
  {
    if steps != [] {
      var front, step := steps[..|steps| - 1], steps[|steps| - 1];
      LastStep(c, steps);
      OrderHolds(c, front, id);
      if step.Submitter? && step.t.Prepare? { OrderHolds(c, front, step.t.id); }
      OrderStep(c, Exec(c, front), step, id);
    }
  }
}
