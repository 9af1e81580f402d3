/** What whole runs do to one row: the verdict is final, and the pipeline writes in order. */
module Settlement {
  import opened Types
  import opened Pipeline
  import opened PipelineOrder

  function PipelineWrites(h: seq<Write>): seq<EventStatus> {
    if h == [] then [] else
      PipelineWrites(h[..|h| - 1]) + if h[|h| - 1].byPipeline then [h[|h| - 1].status] else []
  }

  function AttestWrites(h: seq<Write>): nat {
    if h == [] then 0 else AttestWrites(h[..|h| - 1]) + if h[|h| - 1].byPipeline then 0 else 1
  }

  function LastWritten(h: seq<Write>): EventStatus {
    if h == [] then Unprocessed else h[|h| - 1].status
  }

  /** Stage after these pipeline writes. */
  function StageAfter(path: seq<EventStatus>): EventStatus {
    if path == [] then Unprocessed else path[|path| - 1]
  }

  /** Every write follows the one before it. */
  predicate Ordered(path: seq<EventStatus>) {
    path == [] || (Ordered(path[..|path| - 1]) && Follows(StageAfter(path[..|path| - 1]), path[|path| - 1]))
  }

  /** Being in order leaves no choice, except that Submitted may be written again and DuplicatedSlash may come after
      it. */
  lemma {:induction false} OrderedPath(path: seq<EventStatus>)
    requires Ordered(path)
    ensures var stage := StageAfter(path);
      && (!WasSubmitted(stage) ==> path == PathTo(stage))
      && (WasSubmitted(stage) ==>
            && |path| >= 4 && path[..3] == PathTo(EnoughVotesCollected)
            && forall i :: 3 <= i < |path| - 1 ==> path[i] == Submitted)
      && (stage == Unprocessed || PathTo(stage) != [])
  {
    if path != [] {
      var front := path[..|path| - 1];
      OrderedPath(front);
      assert path == front + [path[|path| - 1]];
      if WasSubmitted(StageAfter(front)) { assert path[..3] == front[..3]; }
    }
  }

  /** The history explains stage and status: the pipeline writes lead to the stage, the newest write is stored. */
  ghost predicate TrailOk(h: Trail, status: EventStatus) {
    && Ordered(PipelineWrites(h.writes)) && StageAfter(PipelineWrites(h.writes)) == h.stage
    && LastWritten(h.writes) == status
    && |h.writes| == |PipelineWrites(h.writes)| + AttestWrites(h.writes)
  }

  function StatusOf(s: System, id: uint64): EventStatus {
    if id in s.db.events then s.db.events[id].status else Unprocessed
  }

  ghost predicate TrailInv(s: System, id: uint64) {
    TrailOk(History(s, id), StatusOf(s, id))
  }

  lemma {:induction false} ExtendTrail(t: Trail, byPipeline: bool, status: EventStatus)
    ensures var w := Extend(t, byPipeline, status).writes;
      && PipelineWrites(w) == (if byPipeline then PipelineWrites(t.writes) + [status] else PipelineWrites(t.writes))
      && AttestWrites(w) == AttestWrites(t.writes) + (if byPipeline then 0 else 1)
      && LastWritten(w) == status
  {
    assert Extend(t, byPipeline, status).writes[..|t.writes|] == t.writes;
  }

  lemma {:induction false} ExtendKeepsTrail(t: Trail, was: EventStatus, byPipeline: bool, status: EventStatus)
    requires TrailOk(t, was) && (byPipeline ==> Follows(t.stage, status))
    ensures TrailOk(Extend(t, byPipeline, status), status)
  {
    ExtendTrail(t, byPipeline, status);
    if byPipeline { OrderedMore(PipelineWrites(t.writes), status); }
  }

  lemma {:induction false} OrderedMore(path: seq<EventStatus>, next: EventStatus)
    requires Ordered(path) && Follows(StageAfter(path), next)
    ensures Ordered(path + [next]) && StageAfter(path + [next]) == next
  {
    var more := path + [next];
    assert more[..|more| - 1] == path;
  }

  lemma {:induction false} TrailStep(s: System, s': System, id: uint64, byAttest: bool)
    requires TrailInv(s, id) && RowMoves(s, s', id, byAttest)
    ensures TrailInv(s', id)
  {
    if Row(s, id).Some? && History(s', id) != History(s, id) {
      ExtendKeepsTrail(History(s, id), StatusOf(s, id), !byAttest, StatusOf(s', id));
    }
  }

  lemma {:induction false} TrailHolds(c: Config, steps: seq<Step>, id: uint64)
    requires Possible(c, steps)
    ensures TrailInv(Exec(c, steps), id)
  {
    if steps != [] {
      var front := steps[..|steps| - 1];
      LastStep(c, steps);
      TrailHolds(c, front, id);
      StepFacts(c, steps, id);
      TrailStep(Exec(c, front), Exec(c, steps), id, steps[|steps| - 1].AttestMonitor?);
    }
  }

  /** The last step of a run, seen from one row. */
  lemma {:induction false} StepFacts(c: Config, steps: seq<Step>, id: uint64)
    requires Possible(c, steps) && steps != []
    ensures Possible(c, steps[..|steps| - 1])
    ensures OrderInv(Exec(c, steps[..|steps| - 1]), id) && OrderInv(Exec(c, steps), id)
    ensures RowMoves(Exec(c, steps[..|steps| - 1]), Exec(c, steps), id, steps[|steps| - 1].AttestMonitor?)
  {
    var front, step := steps[..|steps| - 1], steps[|steps| - 1];
    LastStep(c, steps);
    OrderHolds(c, front, id);
    if step.Submitter? && step.t.Prepare? { OrderHolds(c, front, step.t.id); }
    OrderStep(c, Exec(c, front), step, id);
  }

  // ---------------------------------------------------------------------------------------------
  // Main results, for every run

  /** No equivocation: a row never disappears, its announcement never changes, and once it has a verify result it keeps
      it. */
  lemma {:induction false} VerdictIsFinal(c: Config, steps: seq<Step>, i: nat, id: uint64)
    requires Possible(c, steps) && i <= |steps|
    ensures Possible(c, steps[..i])
    ensures var before, after := Exec(c, steps[..i]).db.events, Exec(c, steps).db.events;
      id in before ==>
        && id in after
        && after[id].info == before[id].info && after[id].height == before[id].height
        && (before[id].verifyResult != Unknown ==> after[id].verifyResult == before[id].verifyResult)
  {
    if i == |steps| {
      assert steps[..i] == steps;
    } else {
      var front := steps[..|steps| - 1];
      StepFacts(c, steps, id);
      VerdictIsFinal(c, front, i, id);
      assert front[..i] == steps[..i];
    }
  }

  /** The stage a task of each loop needs; None when the loop holds no task of the event that may still write. */
  predicate InFlight(s: System, id: uint64, stage: EventStatus) {
    match stage
    case Unprocessed => id in s.verifier.tasks
    case Verified => id in s.broadcaster.batch
    case SelfVoted => id in s.collator.tasks
    case EnoughVotesCollected => id in s.submitter.batch || Submitting(s, id)
    case _ => false
  }

  /** In every interleaving the pipeline statuses are written in order, each at most once except for Submitted; each at
      most once altogether when no store of the submitter took effect and reported an error. What is stored is the
      newest of them unless the attest monitor wrote last, and no two stages hold a task that may still write. */
  lemma {:induction false} PipelineInOrder(c: Config, steps: seq<Step>, id: uint64)
    requires Possible(c, steps)
    ensures var path, h := PipelineWrites(History(Exec(c, steps), id).writes), History(Exec(c, steps), id);
      && Ordered(path) && StageAfter(path) == h.stage
      && (forall i, j :: 0 <= i < j < |path| && path[i] == path[j] ==> path[i] == Submitted)
      && (!WasSubmitted(h.stage) || LostAnswers(steps) == 0 ==> path == PathTo(h.stage))
    ensures var s := Exec(c, steps); var h := History(s, id);
      id in s.db.events ==>
        && s.db.events[id].status == LastWritten(h.writes)
        && s.db.events[id].status in {h.stage, Attested, SelfAttested}
        && (s.db.events[id].verifyResult != Unknown <==> Verified in PipelineWrites(h.writes))
    ensures var s := Exec(c, steps);
      && (forall x, y :: InFlight(s, id, x) && InFlight(s, id, y) ==> x == y)
      && (forall x :: InFlight(s, id, x) ==> x == StageOf(s, id) || (Submitting(s, id) && StageOf(s, id) == Submitted))
      && (LostAnswers(steps) == 0 ==> forall x :: InFlight(s, id, x) ==> x == StageOf(s, id))
    ensures !(id in Exec(c, steps).submitter.batch && Submitting(Exec(c, steps), id))
  {
    OrderHolds(c, steps, id);
    TrailHolds(c, steps, id);
    RepeatsHold(c, steps, id);
    ShortestPath(Exec(c, steps), id);
    PathFacts(PipelineWrites(History(Exec(c, steps), id).writes));
  }

  lemma {:induction false} PathFacts(path: seq<EventStatus>)
    requires Ordered(path)
    ensures forall i, j :: 0 <= i < j < |path| && path[i] == path[j] ==> path[i] == Submitted
    ensures !WasSubmitted(StageAfter(path)) ==> path == PathTo(StageAfter(path))
    ensures HasVerdict(StageAfter(path)) <==> Verified in path
    ensures SelfVoted in path ==> HasVerdict(StageAfter(path)) && StageAfter(path) != Verified
  {
    OrderedPath(path);
    if WasSubmitted(StageAfter(path)) {
      assert path[0] == path[..3][0] && path[1] == path[..3][1] && path[2] == path[..3][2];
    }
  }

  // ---------------------------------------------------------------------------------------------
  // Stores that took effect but reported an error

  predicate LosesAnswer(step: Step) {
    step == Submitter(StoreSubmitted(Unacknowledged))
  }

  function LostAnswers(steps: seq<Step>): nat {
    if steps == [] then 0 else
      LostAnswers(steps[..|steps| - 1]) + if LosesAnswer(steps[|steps| - 1]) then 1 else 0
  }

  /** The submitter will submit an event again whose row says that it was submitted. */
  predicate Resubmitting(s: System, id: uint64) {
    Submitting(s, id) && StageOf(s, id) == Submitted
  }

  /** At most `n` pipeline writes more than the shortest path, one of them still to come while the event is
      resubmitted. */
  ghost predicate RepeatsInv(s: System, id: uint64, n: nat) {
    |PipelineWrites(History(s, id).writes)| + (if Resubmitting(s, id) then 1 else 0) <= |PathTo(StageOf(s, id))| + n
  }

  /** A loop that writes to a row holds a task of its event. */
  lemma {:induction false} WriterHoldsTask(c: Config, s: System, step: Step, id: uint64)
    requires Enabled(s, step) && !step.Submitter? && !step.AttestMonitor?
    ensures Next(c, s, step).submitter == s.submitter || Next(c, s, step).submitter == INIT.submitter
    ensures History(Next(c, s, step), id) == History(s, id)
      || id in s.verifier.tasks || id in s.broadcaster.batch || id in s.collator.tasks
  {
    match step
    case Monitor(m) =>
    case Verifier(v) =>
    case Broadcaster(b) =>
    case Collator(l) =>
    case Collector(k) =>
    case Restart =>
  }

  lemma {:induction false} SubmitterResubmits(c: Config, s: System, step: SubmitterStep, id: uint64)
    requires SubmitterEnabled(s, step) && OrderInv(s, id)
    requires step.Prepare? ==> OrderInv(s, step.id)
    ensures var s' := SubmitterNext(c, s, step);
      && (History(s', id) == History(s, id) || (Submitting(s, id) && step.StoreSubmitted?))
      && (Submitting(s', id) && step.Prepare? ==> StageOf(s', id) == EnoughVotesCollected)
      && (Submitting(s', id) && !step.Prepare? ==> Submitting(s, id))
      && (Submitting(s', id) && History(s', id) != History(s, id) ==> step.outcome == Unacknowledged)
  {
    match step
    case FetchForSubmit(_) =>
    case Prepare(_, _) =>
    case Attest(_) =>
    case StoreSubmitted(_) =>
    case Abandon =>
    case DropSubmit(_) =>
    case EvictEventHash(_) =>
  }

  /** Past Submitted only the submitter writes, and only a lost answer makes it come back. */
  lemma {:induction false} ResubmitSource(c: Config, s: System, step: Step, id: uint64)
    requires Enabled(s, step) && OrderInv(s, id) && !step.AttestMonitor?
    requires step.Submitter? && step.t.Prepare? ==> OrderInv(s, step.t.id)
    ensures StageOf(s, id) == Submitted && History(Next(c, s, step), id) != History(s, id) ==> Resubmitting(s, id)
    ensures Resubmitting(Next(c, s, step), id) ==>
      (LosesAnswer(step) && History(Next(c, s, step), id) != History(s, id))
      || (Resubmitting(s, id) && History(Next(c, s, step), id) == History(s, id))
  {
    if step.Submitter? { SubmitterResubmits(c, s, step.t, id); } else { WriterHoldsTask(c, s, step, id); }
  }

  /** Pipeline writes reach the stage; a write past Submitted makes the path one longer than needed. */
  lemma {:induction false} ExtendLength(t: Trail, byPipeline: bool, status: EventStatus)
    requires byPipeline ==> Follows(t.stage, status)
    ensures var t' := Extend(t, byPipeline, status);
      |PipelineWrites(t'.writes)| - |PathTo(t'.stage)| ==
        |PipelineWrites(t.writes)| - |PathTo(t.stage)| + if byPipeline && t.stage == Submitted then 1 else 0
  {
    ExtendTrail(t, byPipeline, status);
  }

  lemma {:induction false} RepeatsStep(c: Config, s: System, step: Step, id: uint64, n: nat)
    requires Enabled(s, step) && OrderInv(s, id) && RepeatsInv(s, id, n)
    requires step.Submitter? && step.t.Prepare? ==> OrderInv(s, step.t.id)
    requires RowMoves(s, Next(c, s, step), id, step.AttestMonitor?)
    ensures RepeatsInv(Next(c, s, step), id, n + if LosesAnswer(step) then 1 else 0)
  {
    var s' := Next(c, s, step);
    if !step.AttestMonitor? { ResubmitSource(c, s, step, id); }
    if History(s', id) != History(s, id) {
      ExtendLength(History(s, id), !step.AttestMonitor?, StatusOf(s', id));
    }
  }

  lemma {:induction false} RepeatsHold(c: Config, steps: seq<Step>, id: uint64)
    requires Possible(c, steps)
    ensures RepeatsInv(Exec(c, steps), id, LostAnswers(steps))
  {
    if steps != [] {
      var front, step := steps[..|steps| - 1], steps[|steps| - 1];
      LastStep(c, steps);
      RepeatsHold(c, front, id);
      StepFacts(c, steps, id);
      if step.Submitter? && step.t.Prepare? { OrderHolds(c, front, step.t.id); }
      RepeatsStep(c, Exec(c, front), step, id, LostAnswers(front));
    }
  }

  /** Without repeats the path is the shortest one, and nothing is resubmitted. */
  lemma {:induction false} ShortestPath(s: System, id: uint64)
    requires TrailInv(s, id)
    ensures RepeatsInv(s, id, 0) <==>
      PipelineWrites(History(s, id).writes) == PathTo(StageOf(s, id)) && !Resubmitting(s, id)
  {
    OrderedPath(PipelineWrites(History(s, id).writes));
  }

  // ---------------------------------------------------------------------------------------------
  // SelfAttested

  predicate AcceptedFor(s: System, id: uint64) {
    Submitting(s, id) && s.submitter.current.value.phase == Accepted
  }

  predicate Pending(s: System, id: uint64, status: EventStatus) {
    Store(id, status) in s.attest.tasks
  }

  /** Only the submitter brings an event to Submitted, after the chain accepted it; facts are never forgotten. */
  lemma {:induction false} SubmittedSource(c: Config, s: System, step: Step, id: uint64)
    requires Enabled(s, step)
    ensures s.record.facts <= Next(c, s, step).record.facts
    ensures StageOf(Next(c, s, step), id) == Submitted ==> StageOf(s, id) == Submitted || AcceptedFor(s, id)
    ensures AcceptedFor(Next(c, s, step), id) ==>
      AcceptedFor(s, id) || AttestSucceeded(id) in Next(c, s, step).record.facts
    ensures !step.AttestMonitor? ==> Next(c, s, step).attest == if step.Restart? then INIT.attest else s.attest
  {
    match step
    case Monitor(m) =>
    case Verifier(v) =>
    case Broadcaster(b) =>
    case Collator(l) =>
    case Collector(k) =>
    case Submitter(t) =>
    case AttestMonitor(a) =>
    case Restart =>
  }

  /** Until the call succeeds, Submitted is out of reach; until Submitted is written, SelfAttested is. */
  ghost predicate SelfAttestInv(s: System, id: uint64) {
    var w := History(s, id).writes;
    && (AttestSucceeded(id) !in s.record.facts ==>
          StageOf(s, id) != Submitted && !AcceptedFor(s, id) && Write(true, Submitted) !in w)
    && (StageOf(s, id) == Submitted ==> Write(true, Submitted) in w)
    && (Pending(s, id, SelfAttested) || Write(false, SelfAttested) in w ==> Write(true, Submitted) in w)
  }

  lemma {:induction false} SelfAttestStep(c: Config, s: System, step: Step, id: uint64)
    requires Enabled(s, step) && SelfAttestInv(s, id) && OrderInv(s, id)
    requires RowMoves(s, Next(c, s, step), id, step.AttestMonitor?)
    ensures SelfAttestInv(Next(c, s, step), id)
  {
    SubmittedSource(c, s, step, id);
  }

  lemma {:induction false} SelfAttestHolds(c: Config, steps: seq<Step>, id: uint64)
    requires Possible(c, steps)
    ensures SelfAttestInv(Exec(c, steps), id)
  {
    if steps != [] {
      var front := steps[..|steps| - 1];
      LastStep(c, steps);
      SelfAttestHolds(c, front, id);
      StepFacts(c, steps, id);
      SelfAttestStep(c, Exec(c, front), steps[|steps| - 1], id);
    }
  }

  lemma {:induction false} WritesListed(h: seq<Write>, status: EventStatus)
    ensures Write(true, status) in h <==> status in PipelineWrites(h)
  {
    if h != [] {
      WritesListed(h[..|h| - 1], status);
      assert h == h[..|h| - 1] + [h[|h| - 1]];
    }
  }

  /** SelfAttested is written only after Submitted was, and Submitted only after this node's own AttestChallenge call
      succeeded; without lost answers the event is still at the stage Submitted then. */
  lemma SelfAttestedWasSubmitted(c: Config, steps: seq<Step>, id: uint64)
    requires Possible(c, steps)
    ensures var s := Exec(c, steps); var w := History(s, id).writes;
      && (Write(false, SelfAttested) in w ==> Submitted in PipelineWrites(w) && WasSubmitted(StageOf(s, id)))
      && (Submitted in PipelineWrites(w) ==> AttestSucceeded(id) in s.record.facts)
      && (Write(false, SelfAttested) in w && LostAnswers(steps) == 0 ==> StageOf(s, id) == Submitted)
  {
    var s := Exec(c, steps);
    SelfAttestHolds(c, steps, id);
    WritesListed(History(s, id).writes, Submitted);
    TrailHolds(c, steps, id);
    RepeatsHold(c, steps, id);
    ShortestPath(s, id);
    PathFacts(PipelineWrites(History(s, id).writes));
  }
}
