/** Exactly when an attested status is final, and exactly when the pipeline writes every status at most once. */
module Finality {
  import opened Types
  import opened Store
  import opened EventHash
  import opened Pipeline
  import opened PipelineOrder
  import opened Settlement
  import opened WriteBounds
  import opened VoteSafety

  /** Whatever happens next, the row keeps this status. */
  ghost predicate KeepsStatus(c: Config, s: System, id: uint64, status: EventStatus) {
    forall more :: RunFrom(c, s, more).Some? ==> StatusOf(RunFrom(c, s, more).value, id) == status
  }

  /** Going on from the end of a run is a run. */
  lemma Continued(c: Config, steps: seq<Step>, more: seq<Step>)
    requires Possible(c, steps) && RunFrom(c, Exec(c, steps), more).Some?
    ensures Possible(c, steps + more) && Exec(c, steps + more) == RunFrom(c, Exec(c, steps), more).value
  {
    RunConcat(c, INIT, steps, more);
  }

  /** A step that stores another status shows that the status is not kept. */
  lemma OverwrittenNow(c: Config, s: System, step: Step, id: uint64, status: EventStatus)
    requires Enabled(s, step) && StatusOf(Next(c, s, step), id) != status
    ensures !KeepsStatus(c, s, id, status)
  {
    RunAppend(c, s, [], step);
    assert [] + [step] == [step];
    assert RunFrom(c, s, [step]).Some?;
  }

  /** If it is not kept after a step, it is not kept now. */
  lemma OverwrittenLater(c: Config, s: System, step: Step, id: uint64, status: EventStatus)
    requires Enabled(s, step) && !KeepsStatus(c, Next(c, s, step), id, status)
    ensures !KeepsStatus(c, s, id, status)
  {
    var more :| RunFrom(c, Next(c, s, step), more).Some? &&
      StatusOf(RunFrom(c, Next(c, s, step), more).value, id) != status;
    RunAppend(c, s, [], step);
    assert [] + [step] == [step];
    RunConcat(c, s, [step], more);
    assert RunFrom(c, s, [step] + more).Some?;
  }

  // ---------------------------------------------------------------------------------------------
  // Attested

  /** This node's vote for the event the broadcaster holds is in the table already, so its transaction will be
      refused. */
  predicate VoteRefused(c: Config, s: System, id: uint64)
    requires id in s.broadcaster.batch
  {
    var digest := Digest(c, s.broadcaster.batch[id]);
    digest.Some? && VoteExists(s.db.votes, Hex(digest.value), Hex(c.ownKey))
  }

  /** No stage holds a task of the event that can still write, and no goroutine is about to store SelfAttested. */
  predicate NothingOverwrites(c: Config, s: System, id: uint64) {
    && id !in s.verifier.tasks && id !in s.collator.tasks && id !in s.submitter.batch && !Submitting(s, id)
    && (id in s.broadcaster.batch ==> VoteRefused(c, s, id))
    && !Pending(s, id, SelfAttested)
  }

  /** Loops other than broadcaster and submitter neither write an attested row nor pick it up. */
  lemma {:induction false} OthersLeaveAttested(c: Config, s: System, step: Step, id: uint64)
    requires Enabled(s, step) && StatusOf(s, id) == Attested && NothingOverwrites(c, s, id) && OrderInv(s, id)
    requires !step.Broadcaster? && !step.Submitter? && RowMoves(s, Next(c, s, step), id, step.AttestMonitor?)
    requires s.db.votes <= Next(c, s, step).db.votes
    ensures StatusOf(Next(c, s, step), id) == Attested && NothingOverwrites(c, Next(c, s, step), id)
    ensures id in Next(c, s, step).broadcaster.batch ==> id in s.broadcaster.batch
  {
    match step
    case Monitor(m) =>
    case Verifier(v) => VerifierLeavesAttested(c, s, v, id);
    case Collator(l) => CollatorLeavesAttested(c, s, l, id);
    case Collector(k) => CollectorLeavesAttested(c, s, k, id);
    case AttestMonitor(a) => MonitorLeavesAttested(c, s, a, id);
    case Restart => RestartLeavesAttested(c, s, id);
  }

  lemma {:induction false} RestartLeavesAttested(c: Config, s: System, id: uint64)
    requires !s.panicked && StatusOf(s, id) == Attested
    ensures StatusOf(Next(c, s, Restart), id) == Attested && NothingOverwrites(c, Next(c, s, Restart), id)
  {
  }

  lemma {:induction false} CollectorLeavesAttested(c: Config, s: System, step: CollectorStep, id: uint64)
    requires CollectorEnabled(s, step) && StatusOf(s, id) == Attested && NothingOverwrites(c, s, id)
    requires s.db.votes <= CollectorNext(s, step).db.votes
    ensures StatusOf(CollectorNext(s, step), id) == Attested && NothingOverwrites(c, CollectorNext(s, step), id)
  {
  }

  lemma {:induction false} VerifierLeavesAttested(c: Config, s: System, step: VerifierStep, id: uint64)
    requires VerifierEnabled(s, step) && StatusOf(s, id) == Attested && NothingOverwrites(c, s, id)
    ensures StatusOf(VerifierNext(s, step), id) == Attested && NothingOverwrites(c, VerifierNext(s, step), id)
  {
  }

  lemma {:induction false} CollatorLeavesAttested(c: Config, s: System, step: CollatorStep, id: uint64)
    requires CollatorEnabled(s, step) && StatusOf(s, id) == Attested && NothingOverwrites(c, s, id)
    ensures StatusOf(CollatorNext(c, s, step), id) == Attested && NothingOverwrites(c, CollatorNext(c, s, step), id)
  {
  }

  lemma {:induction false} MonitorLeavesAttested(c: Config, s: System, step: AttestStep, id: uint64)
    requires AttestEnabled(s, step) && StatusOf(s, id) == Attested && NothingOverwrites(c, s, id) && OrderInv(s, id)
    ensures StatusOf(AttestNext(s, step), id) == Attested && NothingOverwrites(c, AttestNext(s, step), id)
  {
  }

  lemma {:induction false} SubmitterLeavesAttested(c: Config, s: System, step: SubmitterStep, id: uint64)
    requires SubmitterEnabled(s, step) && StatusOf(s, id) == Attested && NothingOverwrites(c, s, id)
    requires step.Prepare? ==> OrderInv(s, step.id)
    ensures StatusOf(SubmitterNext(c, s, step), id) == Attested && NothingOverwrites(c, SubmitterNext(c, s, step), id)
    ensures SubmitterNext(c, s, step).broadcaster == s.broadcaster
  {
  }

  lemma {:induction false} BroadcasterLeavesAttested(c: Config, s: System, step: BroadcasterStep, id: uint64)
    requires BroadcasterEnabled(s, step) && StatusOf(s, id) == Attested && NothingOverwrites(c, s, id)
    requires s.db.votes <= BroadcasterNext(c, s, step).db.votes
    ensures StatusOf(BroadcasterNext(c, s, step), id) == Attested
    ensures NothingOverwrites(c, BroadcasterNext(c, s, step), id)
    ensures id in BroadcasterNext(c, s, step).broadcaster.batch ==> id in s.broadcaster.batch
  {
  }

  lemma {:induction false} AttestedKept(c: Config, steps: seq<Step>, more: seq<Step>, id: uint64)
    requires Possible(c, steps) && RunFrom(c, Exec(c, steps), more).Some?
    requires StatusOf(Exec(c, steps), id) == Attested && NothingOverwrites(c, Exec(c, steps), id)
    ensures var s' := RunFrom(c, Exec(c, steps), more).value;
      && StatusOf(s', id) == Attested && NothingOverwrites(c, s', id)
      && (id in s'.broadcaster.batch ==> id in Exec(c, steps).broadcaster.batch)
  {
    if more != [] {
      var front, step := more[..|more| - 1], more[|more| - 1];
      AttestedKept(c, steps, front, id);
      Continued(c, steps, front);
      AttestedStep(c, steps + front, step, id);
    }
  }

  lemma {:induction false} AttestedStep(c: Config, run: seq<Step>, step: Step, id: uint64)
    requires Possible(c, run) && Enabled(Exec(c, run), step)
    requires StatusOf(Exec(c, run), id) == Attested && NothingOverwrites(c, Exec(c, run), id)
    ensures var s' := Next(c, Exec(c, run), step);
      && StatusOf(s', id) == Attested && NothingOverwrites(c, s', id)
      && (id in s'.broadcaster.batch ==> id in Exec(c, run).broadcaster.batch)
  {
    var s := Exec(c, run);
    VotesHold(c, run);
    VotesStep(c, s, step);
    OrderHolds(c, run, id);
    if step.Broadcaster? {
      BroadcasterLeavesAttested(c, s, step.b, id);
    } else if step.Submitter? {
      if step.t.Prepare? { OrderHolds(c, run, step.t.id); }
      SubmitterLeavesAttested(c, s, step.t, id);
    } else {
      OrderStep(c, s, step, id);
      OthersLeaveAttested(c, s, step, id);
    }
  }

  // The converse: every violated clause has a continuation that overwrites the status.

  lemma VerifierOverwrites(c: Config, s: System, id: uint64)
    requires !s.panicked && id in s.verifier.tasks && id in s.db.events
    ensures !KeepsStatus(c, s, id, Attested)
  {
    match s.verifier.tasks[id].phase
    case MarkDuplicate => OverwrittenNow(c, s, Verifier(StoreVerdict(id, Duplicated, Unknown)), id, Attested);
    case Passed => OverwrittenNow(c, s, Verifier(StoreVerdict(id, Verified, HashMatched)), id, Attested);
    case Fetched =>
      var check := Verifier(CheckDuplicate(id, 0, 1));
      OverwrittenNow(c, Next(c, s, check), Verifier(StoreVerdict(id, Verified, HashMatched)), id, Attested);
      OverwrittenLater(c, s, check, id, Attested);
  }

  lemma CollatorOverwrites(c: Config, s: System, id: uint64)
    requires !s.panicked && id in s.collator.tasks && id in s.db.events
    ensures !KeepsStatus(c, s, id, Attested)
  {
    if s.collator.tasks[id].enough {
      OverwrittenNow(c, s, Collator(StoreEnough(id)), id, Attested);
    } else {
      var count := Collator(CountVotes(id, [c.ownKey]));
      OverwrittenNow(c, Next(c, s, count), Collator(StoreEnough(id)), id, Attested);
      OverwrittenLater(c, s, count, id, Attested);
    }
  }

  /** A cached vote can be evicted, after which the transaction is tried. */
  lemma BroadcasterOverwrites(c: Config, s: System, id: uint64)
    requires !s.panicked && id in s.broadcaster.batch && id in s.db.events
    requires Digest(c, s.broadcaster.batch[id]).Some? && !VoteRefused(c, s, id)
    ensures !KeepsStatus(c, s, id, Attested)
  {
    var sign := Broadcaster(SignAndSave(id, false));
    if id in s.broadcaster.cache {
      var evict := Broadcaster(EvictLocalVote(id));
      OverwrittenNow(c, Next(c, s, evict), sign, id, Attested);
      OverwrittenLater(c, s, evict, id, Attested);
    } else {
      OverwrittenNow(c, s, sign, id, Attested);
    }
  }

  lemma SubmissionOverwrites(c: Config, s: System, id: uint64, status: EventStatus)
    requires !s.panicked && Submitting(s, id) && id in s.db.events && status in {Attested, SelfAttested}
    ensures !KeepsStatus(c, s, id, status)
  {
    var store := Submitter(StoreSubmitted(Stored));
    if s.submitter.current.value.phase == Trying {
      var call := Submitter(Attest(Success));
      OverwrittenNow(c, Next(c, s, call), store, id, status);
      OverwrittenLater(c, s, call, id, status);
    } else {
      OverwrittenNow(c, s, store, id, status);
    }
  }

  /** With no event under way, the submitter can start on this one. */
  lemma BatchOverwrites(c: Config, s: System, id: uint64)
    requires !s.panicked && id in s.submitter.batch && s.submitter.current == None && id in s.db.events
    requires OrderInv(s, id) && CertInv(c, s, id)
    ensures !KeepsStatus(c, s, id, Attested)
  {
    var prepare := Submitter(Prepare(id, []));
    SubmitDigest(c, s, id);
    SubmissionOverwrites(c, Next(c, s, prepare), id, Attested);
    OverwrittenLater(c, s, prepare, id, Attested);
  }

  /** The event under way can be brought to an end first. */
  lemma QueueOverwrites(c: Config, run: seq<Step>, id: uint64)
    requires Possible(c, run) && id in Exec(c, run).submitter.batch
    ensures !KeepsStatus(c, Exec(c, run), id, Attested)
  {
    var s := Exec(c, run);
    OrderHolds(c, run, id);
    CertHolds(c, run, id);
    if s.submitter.current == None {
      BatchOverwrites(c, s, id);
    } else {
      var drain := if s.submitter.current.value.phase == Trying then Submitter(Abandon)
        else Submitter(StoreSubmitted(Stored));
      RunAppend(c, INIT, run, drain);
      OrderHolds(c, run + [drain], id);
      CertHolds(c, run + [drain], id);
      BatchOverwrites(c, Next(c, s, drain), id);
      OverwrittenLater(c, s, drain, id, Attested);
    }
  }

  lemma PendingOverwrites(c: Config, s: System, id: uint64, pending: EventStatus, status: EventStatus)
    requires !s.panicked && Pending(s, id, pending) && id in s.db.events && pending != status
    ensures !KeepsStatus(c, s, id, status)
  {
    var i :| 0 <= i < |s.attest.tasks| && s.attest.tasks[i] == Store(id, pending);
    OverwrittenNow(c, s, AttestMonitor(AttestWrite(i, true)), id, status);
  }

  /** The exact condition, for every reachable state: an attested row stays attested whatever happens next iff no stage
      holds a task of the event that can still write, and no goroutine is about to store SelfAttested. */
  lemma AttestedFinalIff(c: Config, steps: seq<Step>, id: uint64)
    requires Possible(c, steps) && StatusOf(Exec(c, steps), id) == Attested
    ensures KeepsStatus(c, Exec(c, steps), id, Attested) <==> NothingOverwrites(c, Exec(c, steps), id)
  {
    var s := Exec(c, steps);
    OrderHolds(c, steps, id);
    PanicUnreachable(c, steps);
    if NothingOverwrites(c, s, id) {
      forall more | RunFrom(c, s, more).Some? ensures StatusOf(RunFrom(c, s, more).value, id) == Attested {
        AttestedKept(c, steps, more, id);
      }
    } else if id in s.verifier.tasks {
      VerifierOverwrites(c, s, id);
    } else if id in s.collator.tasks {
      CollatorOverwrites(c, s, id);
    } else if id in s.submitter.batch {
      QueueOverwrites(c, steps, id);
    } else if Submitting(s, id) {
      SubmissionOverwrites(c, s, id, Attested);
    } else if Pending(s, id, SelfAttested) {
      PendingOverwrites(c, s, id, SelfAttested, Attested);
    } else {
      SnapshotDigest(c, s, id, s.broadcaster.batch[id], Verified);
      BroadcasterOverwrites(c, s, id);
    }
  }

  /** No stage holds a task of the event. */
  predicate Idle(s: System, id: uint64) {
    && id !in s.verifier.tasks && id !in s.broadcaster.batch && id !in s.collator.tasks
    && id !in s.submitter.batch && !Submitting(s, id)
  }

  /** In particular, with distinct ids in every tick so far, Attested is final from the moment no stage has the event in
      flight, and no stage picks it up again. */
  lemma AttestedFinalWhenIdle(c: Config, steps: seq<Step>, i: nat, id: uint64)
    requires Possible(c, steps) && i <= |steps| && forall k :: 0 <= k < i ==> DistinctTick(steps[k])
    ensures Possible(c, steps[..i])
    ensures StatusOf(Exec(c, steps[..i]), id) == Attested && Idle(Exec(c, steps[..i]), id) ==>
              StatusOf(Exec(c, steps), id) == Attested && Idle(Exec(c, steps), id)
  {
    SplitRun(c, steps, i);
    SettleHolds(c, steps[..i], id);
    if StatusOf(Exec(c, steps[..i]), id) == Attested && Idle(Exec(c, steps[..i]), id) {
      AttestedKept(c, steps[..i], steps[i..], id);
    }
  }

  /** A run is its beginning, continued. */
  lemma {:induction false} SplitRun(c: Config, steps: seq<Step>, i: nat)
    requires Possible(c, steps) && i <= |steps|
    ensures Possible(c, steps[..i]) && RunFrom(c, Exec(c, steps[..i]), steps[i..]) == Some(Exec(c, steps))
  {
    PrefixPossible(c, steps, i);
    RunConcat(c, INIT, steps[..i], steps[i..]);
    assert steps[..i] + steps[i..] == steps;
  }

  lemma {:induction false} PrefixPossible(c: Config, steps: seq<Step>, i: nat)
    requires Possible(c, steps) && i <= |steps|
    ensures Possible(c, steps[..i])
  {
    if i == |steps| {
      assert steps[..i] == steps;
    } else {
      var front := steps[..|steps| - 1];
      PrefixPossible(c, front, i);
      assert front[..i] == steps[..i];
    }
  }

  // ---------------------------------------------------------------------------------------------
  // SelfAttested

  lemma {:induction false} SelfAttestedStep(c: Config, run: seq<Step>, step: Step, id: uint64)
    requires Possible(c, run) && Enabled(Exec(c, run), step)
    requires var s := Exec(c, run); StatusOf(s, id) == SelfAttested && !Pending(s, id, Attested) && !Submitting(s, id)
    ensures var s' := Next(c, Exec(c, run), step);
      StatusOf(s', id) == SelfAttested && !Pending(s', id, Attested) && !Submitting(s', id)
  {
    var s := Exec(c, run);
    OrderHolds(c, run, id);
    if step.Submitter? && step.t.Prepare? { OrderHolds(c, run, step.t.id); }
    OrderStep(c, s, step, id);
    if step.Submitter? {
      SubmitterResubmits(c, s, step.t, id);
      SubmittedSource(c, s, step, id);
    } else if step.AttestMonitor? {
      MonitorLeavesSelfAttested(s, step.a, id);
    } else {
      WriterHoldsTask(c, s, step, id);
    }
  }

  lemma {:induction false} MonitorLeavesSelfAttested(s: System, step: AttestStep, id: uint64)
    requires AttestEnabled(s, step) && OrderInv(s, id)
    requires StatusOf(s, id) == SelfAttested && !Pending(s, id, Attested)
    ensures var s' := AttestNext(s, step);
      StatusOf(s', id) == SelfAttested && !Pending(s', id, Attested) && s'.submitter == s.submitter
  {
  }

  lemma {:induction false} SelfAttestedKept(c: Config, steps: seq<Step>, more: seq<Step>, id: uint64)
    requires Possible(c, steps) && RunFrom(c, Exec(c, steps), more).Some?
    requires var s := Exec(c, steps); StatusOf(s, id) == SelfAttested && !Pending(s, id, Attested) && !Submitting(s, id)
    ensures var s' := RunFrom(c, Exec(c, steps), more).value;
      StatusOf(s', id) == SelfAttested && !Pending(s', id, Attested) && !Submitting(s', id)
  {
    if more != [] {
      var front, step := more[..|more| - 1], more[|more| - 1];
      SelfAttestedKept(c, steps, front, id);
      Continued(c, steps, front);
      SelfAttestedStep(c, steps + front, step, id);
    }
  }

  /** The exact condition, for every reachable state: SelfAttested stays whatever happens next iff no goroutine is about
      to store Attested and the submitter is not still submitting the event. */
  lemma SelfAttestedFinalIff(c: Config, steps: seq<Step>, id: uint64)
    requires Possible(c, steps) && StatusOf(Exec(c, steps), id) == SelfAttested
    ensures var s := Exec(c, steps);
      KeepsStatus(c, s, id, SelfAttested) <==> !Pending(s, id, Attested) && !Submitting(s, id)
  {
    var s := Exec(c, steps);
    PanicUnreachable(c, steps);
    if Pending(s, id, Attested) {
      PendingOverwrites(c, s, id, Attested, SelfAttested);
    } else if Submitting(s, id) {
      SubmissionOverwrites(c, s, id, SelfAttested);
    } else {
      forall more | RunFrom(c, s, more).Some? ensures StatusOf(RunFrom(c, s, more).value, id) == SelfAttested {
        SelfAttestedKept(c, steps, more, id);
      }
    }
  }

  /** In particular, once stored it stays if the ticks so far listed no id twice and no store of the submitter so far
      lost its answer; what later ticks list does not matter. */
  lemma SelfAttestedIsFinal(c: Config, steps: seq<Step>, i: nat, id: uint64)
    requires Possible(c, steps) && i <= |steps| && forall k :: 0 <= k < i ==> DistinctTick(steps[k])
    ensures Possible(c, steps[..i])
    ensures var s := Exec(c, steps[..i]);
      StatusOf(s, id) == SelfAttested && !Submitting(s, id) ==> StatusOf(Exec(c, steps), id) == SelfAttested
    ensures StatusOf(Exec(c, steps[..i]), id) == SelfAttested && LostAnswers(steps[..i]) == 0 ==>
              !Submitting(Exec(c, steps[..i]), id)
  {
    SplitRun(c, steps, i);
    SettleHolds(c, steps[..i], id);
    OrderHolds(c, steps[..i], id);
    TrailHolds(c, steps[..i], id);
    RepeatsHold(c, steps[..i], id);
    ShortestPath(Exec(c, steps[..i]), id);
    var s := Exec(c, steps[..i]);
    if StatusOf(s, id) == SelfAttested && !Submitting(s, id) {
      SelfAttestedKept(c, steps[..i], steps[i..], id);
    }
  }

  // ---------------------------------------------------------------------------------------------
  // At most once

  /** As long as no further answer is lost, the pipeline has written each status of the way to its stage once. */
  ghost predicate StaysShortest(c: Config, s: System, id: uint64) {
    forall more :: RunFrom(c, s, more).Some? && LostAnswers(more) == 0 ==>
      var s' := RunFrom(c, s, more).value; PipelineWrites(History(s', id).writes) == PathTo(StageOf(s', id))
  }

  lemma {:induction false} RepeatsKept(c: Config, steps: seq<Step>, more: seq<Step>, id: uint64)
    requires Possible(c, steps) && RunFrom(c, Exec(c, steps), more).Some? && LostAnswers(more) == 0
    requires RepeatsInv(Exec(c, steps), id, 0)
    ensures RepeatsInv(RunFrom(c, Exec(c, steps), more).value, id, 0)
  {
    if more != [] {
      var front, step := more[..|more| - 1], more[|more| - 1];
      RepeatsKept(c, steps, front, id);
      Continued(c, steps, front);
      var s := Exec(c, steps + front);
      OrderHolds(c, steps + front, id);
      if step.Submitter? && step.t.Prepare? { OrderHolds(c, steps + front, step.t.id); }
      OrderStep(c, s, step, id);
      RepeatsStep(c, s, step, id, 0);
    }
  }

  lemma {:induction false} NothingLost(more: seq<Step>)
    requires forall k :: 0 <= k < |more| ==> !LosesAnswer(more[k])
    ensures LostAnswers(more) == 0
  {
    if more != [] { NothingLost(more[..|more| - 1]); }
  }

  /** One write more than the shortest path, and one more again, is not the shortest path. */
  lemma RepeatedTooLong(h: Trail, status: EventStatus)
    requires Ordered(PipelineWrites(h.writes)) && StageAfter(PipelineWrites(h.writes)) == h.stage
    requires h.stage == Submitted && WasSubmitted(status)
    ensures PipelineWrites(Extend(h, true, status).writes) != PathTo(status)
  {
    ExtendTrail(h, true, status);
    OrderedPath(PipelineWrites(h.writes));
  }

  /** A continuation without lost answers that adds one pipeline write past Submitted. */
  lemma NotShortest(c: Config, s: System, id: uint64, more: seq<Step>, status: EventStatus)
    requires TrailInv(s, id) && StageOf(s, id) == Submitted && WasSubmitted(status)
    requires RunFrom(c, s, more).Some? && forall k :: 0 <= k < |more| ==> !LosesAnswer(more[k])
    requires History(RunFrom(c, s, more).value, id) == Extend(History(s, id), true, status)
    ensures !StaysShortest(c, s, id)
  {
    NothingLost(more);
    RepeatedTooLong(History(s, id), status);
  }

  /** Resubmitting an event writes its status once more. */
  lemma ResubmissionRepeats(c: Config, s: System, id: uint64)
    requires !s.panicked && Resubmitting(s, id) && id in s.db.events && TrailInv(s, id)
    ensures !StaysShortest(c, s, id)
  {
    var call, store := Submitter(Attest(Success)), Submitter(StoreSubmitted(Stored));
    if s.submitter.current.value.phase == Trying {
      RunTwo(c, s, call, store);
      NotShortest(c, s, id, [call, store], Submitted);
    } else {
      RunAppend(c, s, [], store);
      assert [] + [store] == [store];
      NotShortest(c, s, id, [store], if AcceptedFor(s, id) then Submitted else DuplicatedSlash);
    }
  }

  /** The exact condition, for every reachable state: every status is written at most once, as long as no further answer
      is lost, iff that is so up to now and the submitter is not submitting an event whose row is already Submitted. */
  lemma AtMostOnceIff(c: Config, steps: seq<Step>, id: uint64)
    requires Possible(c, steps)
    ensures var s := Exec(c, steps);
      StaysShortest(c, s, id) <==>
        PipelineWrites(History(s, id).writes) == PathTo(StageOf(s, id)) && !Resubmitting(s, id)
  {
    var s := Exec(c, steps);
    OrderHolds(c, steps, id);
    TrailHolds(c, steps, id);
    PanicUnreachable(c, steps);
    ShortestPath(s, id);
    if RepeatsInv(s, id, 0) {
      forall more | RunFrom(c, s, more).Some? && LostAnswers(more) == 0
        ensures var s' := RunFrom(c, s, more).value; PipelineWrites(History(s', id).writes) == PathTo(StageOf(s', id))
      {
        RepeatsKept(c, steps, more, id);
        Continued(c, steps, more);
        TrailHolds(c, steps + more, id);
        ShortestPath(RunFrom(c, s, more).value, id);
      }
    } else if Resubmitting(s, id) {
      ResubmissionRepeats(c, s, id);
    } else {
      assert RunFrom(c, s, []).value == s && LostAnswers([]) == 0;
    }
  }
}
