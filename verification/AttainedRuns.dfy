/** Runs from the empty database that attain the bounds on writes, and runs that overwrite a status one might think
    final. They exist for every challenge that is alone in its block. */
module AttainedRuns {
  import opened Types
  import opened Store
  import opened Pipeline
  import opened PipelineOrder
  import opened Settlement
  import opened WriteBounds

  // ---------------------------------------------------------------------------------------------
  // Ticks

  /** The next tick that lists the id starts a goroutine for it. */
  predicate Hears(s: System, id: uint64) {
    AttestEnabled(s, AttestTick([id])) && id !in s.attest.remembered
  }

  /** The monitor's counter has reached its limit: from now on every tick ends with nothing remembered. */
  predicate Forgetful(s: System) {
    s.attest.queryCount >= MAX_QUERY_COUNT
  }

  function TickSteps(id: uint64): seq<Step> {
    [AttestMonitor(AttestTick([id])), AttestMonitor(AttestRead(0)), AttestMonitor(AttestWrite(0, true))]
  }

  /** The state after a tick for one id, handled without interruption. */
  function Heard(s: System, id: uint64): System
    requires id in s.db.events && AttestedStatus(s.db.events[id].status).Some?
  {
    var status := AttestedStatus(s.db.events[id].status).value;
    s.(db := s.db.(events := SetStatus(s.db.events, id, status)),
       attest := AfterTick(s.attest, [id]).(tasks := [Finished]),
       record := Written(s, id, false, status))
  }

  lemma TickStarted(a: AttestState, id: uint64)
    requires id !in a.remembered
    ensures AfterTick(a, [id]).tasks == [Lookup(id)]
  {
    assert [id][..0] == [] && Goroutines([], a.remembered) == [];
  }

  /** The only goroutine of a tick reads its row and stores what it decided. */
  lemma GoroutineRun(c: Config, s: System, id: uint64, status: EventStatus)
    requires !s.panicked && s.attest.tasks == [Lookup(id)]
    requires id in s.db.events && AttestedStatus(s.db.events[id].status) == Some(status)
    ensures RunFrom(c, s, [AttestMonitor(AttestRead(0)), AttestMonitor(AttestWrite(0, true))])
         == Some(s.(db := s.db.(events := SetStatus(s.db.events, id, status)),
                    attest := s.attest.(tasks := [Finished]),
                    record := Written(s, id, false, status)))
  {
    var read, write := AttestMonitor(AttestRead(0)), AttestMonitor(AttestWrite(0, true));
    assert [Lookup(id)][0 := Store(id, status)] == [Store(id, status)] &&
      [Store(id, status)][0 := Finished] == [Finished];
    RunTwo(c, s, read, write);
    assert Next(c, s, read) == s.(attest := s.attest.(tasks := [Store(id, status)]));
  }

  lemma {:induction false} TickRun(c: Config, s: System, id: uint64)
    requires !s.panicked && id in s.db.events && AttestedStatus(s.db.events[id].status).Some? && Hears(s, id)
    ensures RunFrom(c, s, TickSteps(id)) == Some(Heard(s, id))
  {
    var tick, rest := AttestMonitor(AttestTick([id])), TickSteps(id)[1..];
    var s1 := s.(attest := AfterTick(s.attest, [id]));
    RunAppend(c, s, [], tick);
    assert [] + [tick] == [tick];
    TickStarted(s.attest, id);
    GoroutineRun(c, s1, id, AttestedStatus(s.db.events[id].status).value);
    RunConcat(c, s, [tick], rest);
    assert rest == [AttestMonitor(AttestRead(0)), AttestMonitor(AttestWrite(0, true))] &&
      [tick] + rest == TickSteps(id);
  }

  function IdleTicks(n: nat): seq<Step> {
    if n == 0 then [] else IdleTicks(n - 1) + [AttestMonitor(AttestTick([]))]
  }

  lemma IdleTick(n: nat)
    ensures AfterTick(AttestState([], {}, n), []) == AttestState([], {}, n + 1)
  {
    assert (set id: uint64 | id in [] :: id) == {};
  }

  /** Ticks without any id only count. */
  lemma {:induction false} IdleTicksRun(c: Config, n: nat)
    ensures RunFrom(c, INIT, IdleTicks(n)) == Some(INIT.(attest := AttestState([], {}, n)))
  {
    if n > 0 {
      IdleTicksRun(c, n - 1);
      RunAppend(c, INIT, IdleTicks(n - 1), AttestMonitor(AttestTick([])));
      IdleTick(n - 1);
    }
  }

  // ---------------------------------------------------------------------------------------------
  // Stages: each fetches the event and does its work, and if `heard`, a tick marks the row in between

  /** Between stages: one event in the table, no task in flight, and this history. */
  predicate Resting(s: System, e: Event, h: Trail) {
    var id := e.info.challengeId;
    && !s.panicked && s.db.events == map[id := e] && History(s, id) == h
    && AllIdle(s) && AttestEnabled(s, AttestTick([id])) && (h.stage in {Unprocessed, Verified} ==> Unvoted(s))
  }

  /** No loop but the attest monitor has anything to do. */
  predicate AllIdle(s: System) {
    && s.verifier.tasks == map[] && s.broadcaster.batch == map[] && s.collator.tasks == map[]
    && s.submitter.batch == map[] && s.submitter.current == None && s.submitter.cache == map[]
  }

  predicate Unvoted(s: System) {
    s.db.votes == [] && s.broadcaster.cache == map[]
  }

  function Stage(heard: bool, fetch: Step, id: uint64, work: Step, store: Step): seq<Step> {
    [fetch] + (if heard then TickSteps(id) else []) + [work, store]
  }

  function Marked(heard: bool, s: System, id: uint64): System
    requires id in s.db.events && AttestedStatus(s.db.events[id].status).Some?
  {
    if heard then Heard(s, id) else s
  }

  lemma StageRun(c: Config, heard: bool, s: System, fetch: Step, id: uint64, work: Step, store: Step)
    requires Enabled(s, fetch) && Next(c, s, fetch).attest == s.attest && Next(c, s, fetch).db == s.db
    requires !Next(c, s, fetch).panicked
    requires id in s.db.events && AttestedStatus(s.db.events[id].status).Some? && (heard ==> Hears(s, id))
    requires var s2 := Marked(heard, Next(c, s, fetch), id);
      Enabled(s2, work) && Enabled(Next(c, s2, work), store)
    ensures RunFrom(c, s, Stage(heard, fetch, id, work, store))
         == Some(Next(c, Next(c, Marked(heard, Next(c, s, fetch), id), work), store))
  {
    var s1, tick := Next(c, s, fetch), if heard then TickSteps(id) else [];
    RunAppend(c, s, [], fetch);
    assert [] + [fetch] == [fetch];
    if heard { TickRun(c, s1, id); }
    RunConcat(c, s, [fetch], tick);
    RunConcat(c, s, [fetch] + tick, [work, store]);
    RunTwo(c, Marked(heard, s1, id), work, store);
  }

  function VerifyStage(heard: bool, id: uint64): seq<Step> {
    Stage(heard, Verifier(FetchUnverified(0)), id, Verifier(CheckDuplicate(id, 0, 1)),
          Verifier(StoreVerdict(id, Verified, HashMismatched)))
  }

  function VoteStage(heard: bool, id: uint64): seq<Step> {
    Stage(heard, Broadcaster(FetchForVote(0, 1)), id, Broadcaster(SignAndSave(id, false)),
      Broadcaster(EvictLocalVote(id)))
  }

  function CollateStage(c: Config, heard: bool, id: uint64): seq<Step> {
    Stage(heard, Collator(FetchForCollate(0)), id, Collator(CountVotes(id, [c.ownKey])), Collator(StoreEnough(id)))
  }

  /** The submitter's call for the event is accepted. */
  function CallStage(c: Config, heard: bool, id: uint64): seq<Step> {
    Stage(heard, Submitter(FetchForSubmit(0)), id, Submitter(Prepare(id, [c.ownKey])), Submitter(Attest(Success)))
  }

  function MarkedTrail(heard: bool, h: Trail): Trail {
    if heard then Extend(h, false, Attested) else h
  }

  /** The trail after a stage wrote `status`. */
  function After(heard: bool, h: Trail, status: EventStatus): Trail {
    Extend(MarkedTrail(heard, h), true, status)
  }

  /** What a stage does to the monitor: nothing, or it keeps it forgetful. */
  predicate MonitorAfter(heard: bool, id: uint64, s: System, s': System) {
    && (heard && Forgetful(s) ==> Forgetful(s') && Hears(s', id))
    && (!heard ==> s'.attest == s.attest)
  }

  /** After a fetch that led to `s1` and the work on the marked row, the event rests again, one stage further. */
  lemma StageRests(heard: bool, s: System, s1: System, s': System, e: Event, e': Event, h: Trail)
    requires Resting(s, e, h) && AttestedStatus(e.status) == Some(Attested) && (heard ==> Hears(s, e.info.challengeId))
    requires s1.db == s.db && s1.attest == s.attest && s1.record == s.record
    requires var m := Marked(heard, s1, e.info.challengeId);
      s'.attest == m.attest && s'.record.history == Written(m, e.info.challengeId, true, e'.status).history
    requires e'.info == e.info && s'.db.events == map[e.info.challengeId := e']
    requires !s'.panicked && AllIdle(s') && (e'.status in {Unprocessed, Verified} ==> Unvoted(s'))
    ensures Resting(s', e', After(heard, h, e'.status)) && MonitorAfter(heard, e.info.challengeId, s, s')
  {
  }

  lemma VerifyWork(c: Config, s: System, id: uint64)
    requires !s.panicked && id in s.verifier.tasks && s.verifier.tasks[id].phase == Fetched && id in s.db.events
    ensures var check := Verifier(CheckDuplicate(id, 0, 1));
      var store := Verifier(StoreVerdict(id, Verified, HashMismatched));
      && Enabled(s, check) && Enabled(Next(c, s, check), store)
      && Next(c, Next(c, s, check), store) ==
           s.(db := s.db.(events := SetVerdict(s.db.events, id, Verified, HashMismatched)),
              verifier := VerifierState(s.verifier.tasks - {id}),
              record := Written(s, id, true, Verified))
  {
    var phase := if IsDuplicate(s.db.events, s.verifier.tasks[id].ev.info, 0, 1) then MarkDuplicate else Passed;
    var tasks := s.verifier.tasks;
    assert tasks[id := tasks[id].(phase := phase)] - {id} == tasks - {id};
  }

  lemma VerifyRun(c: Config, heard: bool, s: System, e: Event, h: Trail)
    requires Resting(s, e, h) && h.stage == e.status == Unprocessed && e.info.expiredHeight > 0
    requires heard ==> Hears(s, e.info.challengeId)
    ensures var id := e.info.challengeId; var r := RunFrom(c, s, VerifyStage(heard, id));
      && r.Some? && Resting(r.value, e.(status := Verified, verifyResult := HashMismatched), After(heard, h, Verified))
      && MonitorAfter(heard, id, s, r.value)
  {
    var id, fetch := e.info.challengeId, Verifier(FetchUnverified(0));
    assert Next(c, s, fetch).verifier.tasks == map[id := VerifyTask(e, Fetched)];
    var s1, check := Next(c, s, fetch), Verifier(CheckDuplicate(id, 0, 1));
    var store := Verifier(StoreVerdict(id, Verified, HashMismatched));
    var m := Marked(heard, s1, id);
    VerifyWork(c, m, id);
    StageRun(c, heard, s, fetch, id, check, store);
    StageRests(heard, s, s1, Next(c, Next(c, m, check), store), e,
      e.(status := Verified, verifyResult := HashMismatched), h);
  }

  lemma VoteWork(c: Config, s: System, id: uint64)
    requires !s.panicked && id in s.broadcaster.batch && id in s.db.events && s.broadcaster.cache == map[]
    requires s.db.votes == []
    requires s.broadcaster.batch[id].verifyResult != Unknown
    ensures var sign, evict := Broadcaster(SignAndSave(id, false)), Broadcaster(EvictLocalVote(id));
      && Enabled(s, sign) && Enabled(Next(c, s, sign), evict)
      && var s' := Next(c, Next(c, s, sign), evict);
      && s' == s.(db := s'.db, broadcaster := s'.broadcaster, record := s'.record)
      && s'.db.events == SetStatus(s.db.events, id, SelfVoted) && s'.broadcaster.batch == s.broadcaster.batch - {id}
      && s'.record.history == Written(s, id, true, SelfVoted).history
  {
  }

  lemma VoteRun(c: Config, heard: bool, s: System, e: Event, h: Trail)
    requires Resting(s, e, h) && h.stage == e.status == Verified && e.verifyResult == HashMismatched
    requires e.info.expiredHeight > 0
    requires heard ==> Hears(s, e.info.challengeId)
    ensures var id := e.info.challengeId; var r := RunFrom(c, s, VoteStage(heard, id));
      && r.Some? && Resting(r.value, e.(status := SelfVoted), After(heard, h, SelfVoted))
      && MonitorAfter(heard, id, s, r.value)
  {
    var id, fetch := e.info.challengeId, Broadcaster(FetchForVote(0, 1));
    assert Next(c, s, fetch).broadcaster.batch == map[id := e];
    var s1, sign, evict := Next(c, s, fetch), Broadcaster(SignAndSave(id, false)), Broadcaster(EvictLocalVote(id));
    var m := Marked(heard, s1, id);
    VoteWork(c, m, id);
    StageRun(c, heard, s, fetch, id, sign, evict);
    StageRests(heard, s, s1, Next(c, Next(c, m, sign), evict), e, e.(status := SelfVoted), h);
  }

  lemma CollateWork(c: Config, s: System, id: uint64)
    requires !s.panicked && id in s.collator.tasks && !s.collator.tasks[id].enough && id in s.db.events
    ensures var count, store := Collator(CountVotes(id, [c.ownKey])), Collator(StoreEnough(id));
      && Enabled(s, count) && Enabled(Next(c, s, count), store)
      && Next(c, Next(c, s, count), store) ==
           s.(db := s.db.(events := SetStatus(s.db.events, id, EnoughVotesCollected)),
              collator := CollatorState(s.collator.tasks - {id}),
              record := Written(s, id, true, EnoughVotesCollected))
  {
    var tasks := s.collator.tasks;
    assert tasks[id := tasks[id].(enough := true)] - {id} == tasks - {id};
  }

  lemma CollateRun(c: Config, heard: bool, s: System, e: Event, h: Trail)
    requires Resting(s, e, h) && h.stage == e.status == SelfVoted && e.info.expiredHeight > 0
    requires heard ==> Hears(s, e.info.challengeId)
    ensures var id := e.info.challengeId; var r := RunFrom(c, s, CollateStage(c, heard, id));
      && r.Some? && Resting(r.value, e.(status := EnoughVotesCollected), After(heard, h, EnoughVotesCollected))
      && MonitorAfter(heard, id, s, r.value)
  {
    var id, fetch := e.info.challengeId, Collator(FetchForCollate(0));
    assert Next(c, s, fetch).collator.tasks == map[id := CollateTask(e, false)];
    var s1, count, store := Next(c, s, fetch), Collator(CountVotes(id, [c.ownKey])), Collator(StoreEnough(id));
    var m := Marked(heard, s1, id);
    CollateWork(c, m, id);
    StageRun(c, heard, s, fetch, id, count, store);
    StageRests(heard, s, s1, Next(c, Next(c, m, count), store), e, e.(status := EnoughVotesCollected), h);
  }

  /** The chain has accepted the call, and the outcome is not stored yet. */
  predicate Called(s: System, e: Event, h: Trail) {
    var id := e.info.challengeId;
    && !s.panicked && s.db.events == map[id := e] && History(s, id) == h
    && AcceptedFor(s, id) && AttestEnabled(s, AttestTick([id]))
  }

  lemma CallRun(c: Config, heard: bool, s: System, e: Event, h: Trail)
    requires Resting(s, e, h) && h.stage == e.status == EnoughVotesCollected
    requires e.verifyResult == HashMismatched && e.info.expiredHeight > 0
    requires heard ==> Hears(s, e.info.challengeId)
    ensures var id := e.info.challengeId; var r := RunFrom(c, s, CallStage(c, heard, id));
      && r.Some? && Called(r.value, e.(status := if heard then Attested else e.status), MarkedTrail(heard, h))
      && MonitorAfter(heard, id, s, r.value)
  {
    var id, fetch := e.info.challengeId, Submitter(FetchForSubmit(0));
    var s1 := Next(c, s, fetch);
    assert s1.submitter.batch == map[id := e];
    CallAccepted(c, Marked(heard, s1, id), id);
    StageRun(c, heard, s, fetch, id, Submitter(Prepare(id, [c.ownKey])), Submitter(Attest(Success)));
  }

  lemma CallAccepted(c: Config, s: System, id: uint64)
    requires !s.panicked && s.submitter.current == None && s.submitter.cache == map[]
    requires id in s.submitter.batch && s.submitter.batch[id].verifyResult == HashMismatched
    requires s.submitter.batch[id].info.challengeId == id
    ensures var prepare, attest := Submitter(Prepare(id, [c.ownKey])), Submitter(Attest(Success));
      && Enabled(s, prepare) && Enabled(Next(c, s, prepare), attest)
      && var s' := Next(c, Next(c, s, prepare), attest);
      && !s'.panicked && AcceptedFor(s', id)
      && s'.db == s.db && s'.record.history == s.record.history && s'.attest == s.attest
  {
  }

  // ---------------------------------------------------------------------------------------------
  // Longer and longer runs

  /** Enough idle ticks to make the monitor forgetful, or none. */
  function Start(heard: bool): seq<Step> {
    if heard then IdleTicks(MAX_QUERY_COUNT) else []
  }

  function Announced(heard: bool, height: nat): seq<Step> {
    Start(heard) + [Monitor(Plan(height)), Monitor(SaveBlock(true))]
  }

  function VerifiedPart(heard: bool, height: nat, id: uint64): seq<Step> {
    Announced(heard, height) + VerifyStage(heard, id)
  }

  function VotedPart(heard: bool, height: nat, id: uint64): seq<Step> {
    VerifiedPart(heard, height, id) + VoteStage(heard, id)
  }

  function CollatedPart(c: Config, heard: bool, height: nat, id: uint64): seq<Step> {
    VotedPart(heard, height, id) + CollateStage(c, heard, id)
  }

  function CalledPart(c: Config, heard: bool, height: nat, id: uint64): seq<Step> {
    CollatedPart(c, heard, height, id) + CallStage(c, heard, id)
  }

  /** The trail of the event after so many stages. */
  function TrailOf(heard: bool, stage: EventStatus): Trail
    requires stage in {Unprocessed, Verified, SelfVoted, EnoughVotesCollected}
  {
    match stage
    case Unprocessed => Trail([], Unprocessed)
    case Verified => After(heard, Trail([], Unprocessed), Verified)
    case SelfVoted => After(heard, After(heard, Trail([], Unprocessed), Verified), SelfVoted)
    case EnoughVotesCollected =>
      After(heard, After(heard, After(heard, Trail([], Unprocessed), Verified), SelfVoted), EnoughVotesCollected)
  }

  /** The run gets there, with the monitor ready to hear of the id. */
  ghost predicate Reaches(c: Config, heard: bool, run: seq<Step>, e: Event, h: Trail) {
    && Possible(c, run) && Resting(Exec(c, run), e, h)
    && Hears(Exec(c, run), e.info.challengeId)
    && (if heard then Forgetful(Exec(c, run)) else Exec(c, run).attest == INIT.attest)
  }

  predicate Alone(c: Config, height: nat, info: Challenge) {
    height > 0 && c.chain(height) == [info] && info.expiredHeight > 0
  }

  lemma AnnouncedRun(c: Config, heard: bool, height: nat, info: Challenge)
    requires Alone(c, height, info)
    ensures Reaches(c, heard, Announced(heard, height), EventRow(height, info), TrailOf(heard, Unprocessed))
  {
    var n := if heard then MAX_QUERY_COUNT else 0;
    assert Start(heard) == IdleTicks(n);
    IdleTicksRun(c, n);
    var s := INIT.(attest := AttestState([], {}, n));
    RunTwo(c, s, Monitor(Plan(height)), Monitor(SaveBlock(true)));
    assert [info][..0] == [] && AddRows(map[], height, []) == map[];
    RunConcat(c, INIT, Start(heard), [Monitor(Plan(height)), Monitor(SaveBlock(true))]);
  }

  lemma VerifiedPartRun(c: Config, heard: bool, height: nat, info: Challenge)
    requires Alone(c, height, info)
    ensures Reaches(c, heard, VerifiedPart(heard, height, info.challengeId),
                    Event(info, height, Verified, HashMismatched), TrailOf(heard, Verified))
  {
    var run := Announced(heard, height);
    AnnouncedRun(c, heard, height, info);
    VerifyRun(c, heard, Exec(c, run), EventRow(height, info), TrailOf(heard, Unprocessed));
    RunConcat(c, INIT, run, VerifyStage(heard, info.challengeId));
  }

  lemma VotedPartRun(c: Config, heard: bool, height: nat, info: Challenge)
    requires Alone(c, height, info)
    ensures Reaches(c, heard, VotedPart(heard, height, info.challengeId),
                    Event(info, height, SelfVoted, HashMismatched), TrailOf(heard, SelfVoted))
  {
    var run := VerifiedPart(heard, height, info.challengeId);
    VerifiedPartRun(c, heard, height, info);
    VoteRun(c, heard, Exec(c, run), Event(info, height, Verified, HashMismatched), TrailOf(heard, Verified));
    RunConcat(c, INIT, run, VoteStage(heard, info.challengeId));
  }

  lemma CollatedPartRun(c: Config, heard: bool, height: nat, info: Challenge)
    requires Alone(c, height, info)
    ensures Reaches(c, heard, CollatedPart(c, heard, height, info.challengeId),
                    Event(info, height, EnoughVotesCollected, HashMismatched), TrailOf(heard, EnoughVotesCollected))
  {
    var run := VotedPart(heard, height, info.challengeId);
    VotedPartRun(c, heard, height, info);
    CollateRun(c, heard, Exec(c, run), Event(info, height, SelfVoted, HashMismatched), TrailOf(heard, SelfVoted));
    RunConcat(c, INIT, run, CollateStage(c, heard, info.challengeId));
  }

  lemma CalledPartRun(c: Config, heard: bool, height: nat, info: Challenge)
    requires Alone(c, height, info)
    ensures var run := CalledPart(c, heard, height, info.challengeId);
      && Possible(c, run)
      && Called(Exec(c, run), Event(info, height, if heard then Attested else EnoughVotesCollected, HashMismatched),
                MarkedTrail(heard, TrailOf(heard, EnoughVotesCollected)))
      && Hears(Exec(c, run), info.challengeId)
      && (!heard ==> Exec(c, run).attest == INIT.attest)
  {
    var run := CollatedPart(c, heard, height, info.challengeId);
    CollatedPartRun(c, heard, height, info);
    CallRun(c, heard, Exec(c, run), Event(info, height, EnoughVotesCollected, HashMismatched),
      TrailOf(heard, EnoughVotesCollected));
    RunConcat(c, INIT, run, CallStage(c, heard, info.challengeId));
  }

  // ---------------------------------------------------------------------------------------------
  // The bounds are attained

  function WholeRun(c: Config, heard: bool, height: nat, id: uint64): seq<Step> {
    CalledPart(c, heard, height, id) + [Submitter(StoreSubmitted(Stored))] + TickSteps(id)
  }

  /** A tick that lists nothing or the id once, or no tick at all; and no answer is lost. */
  predicate Harmless(step: Step, id: uint64) {
    && (step.AttestMonitor? && step.a.AttestTick? ==> step.a.ids == [] || step.a.ids == [id])
    && !LosesAnswer(step)
  }

  predicate AllHarmless(run: seq<Step>, id: uint64) {
    forall k :: 0 <= k < |run| ==> Harmless(run[k], id)
  }

  lemma BothHarmless(first: seq<Step>, second: seq<Step>, id: uint64)
    requires AllHarmless(first, id) && AllHarmless(second, id)
    ensures AllHarmless(first + second, id)
  {
  }

  lemma {:induction false} IdleTicksHarmless(n: nat, id: uint64)
    ensures AllHarmless(IdleTicks(n), id)
  {
    if n > 0 { IdleTicksHarmless(n - 1, id); }
  }

  lemma StageHarmless(heard: bool, fetch: Step, id: uint64, work: Step, store: Step)
    requires Harmless(fetch, id) && Harmless(work, id) && Harmless(store, id)
    ensures AllHarmless(Stage(heard, fetch, id, work, store), id)
  {
  }

  lemma VotedPartHarmless(heard: bool, height: nat, id: uint64)
    ensures AllHarmless(VotedPart(heard, height, id), id)
  {
    IdleTicksHarmless(MAX_QUERY_COUNT, id);
    BothHarmless(Start(heard), [Monitor(Plan(height)), Monitor(SaveBlock(true))], id);
    StageHarmless(heard, Verifier(FetchUnverified(0)), id, Verifier(CheckDuplicate(id, 0, 1)),
                  Verifier(StoreVerdict(id, Verified, HashMismatched)));
    BothHarmless(Announced(heard, height), VerifyStage(heard, id), id);
    StageHarmless(heard, Broadcaster(FetchForVote(0, 1)), id, Broadcaster(SignAndSave(id, false)),
      Broadcaster(EvictLocalVote(id)));
    BothHarmless(VerifiedPart(heard, height, id), VoteStage(heard, id), id);
  }

  lemma WholeRunHarmless(c: Config, heard: bool, height: nat, id: uint64)
    ensures AllHarmless(WholeRun(c, heard, height, id), id)
  {
    var done := [Submitter(StoreSubmitted(Stored))];
    VotedPartHarmless(heard, height, id);
    StageHarmless(heard, Collator(FetchForCollate(0)), id, Collator(CountVotes(id, [c.ownKey])),
      Collator(StoreEnough(id)));
    BothHarmless(VotedPart(heard, height, id), CollateStage(c, heard, id), id);
    StageHarmless(heard, Submitter(FetchForSubmit(0)), id, Submitter(Prepare(id, [c.ownKey])),
      Submitter(Attest(Success)));
    BothHarmless(CollatedPart(c, heard, height, id), CallStage(c, heard, id), id);
    BothHarmless(CalledPart(c, heard, height, id), done, id);
    BothHarmless(CalledPart(c, heard, height, id) + done, TickSteps(id), id);
  }

  lemma {:induction false} HarmlessLosesNothing(run: seq<Step>, id: uint64)
    requires AllHarmless(run, id)
    ensures LostAnswers(run) == 0
  {
    if run != [] { HarmlessLosesNothing(run[..|run| - 1], id); }
  }

  /** The bounds of StatusSettles and HandledOnce are attained, without lost answers and with distinct ids in every
      tick: nine writes once the monitor has forgotten what it remembered, five before. Both runs end in
      SelfAttested. */
  lemma BoundsAttained(c: Config, heard: bool, height: nat, info: Challenge)
    requires Alone(c, height, info)
    ensures var run := WholeRun(c, heard, height, info.challengeId);
      && Possible(c, run) && LostAnswers(run) == 0
      && (forall k :: 0 <= k < |run| ==> DistinctTick(run[k]))
      && |History(Exec(c, run), info.challengeId).writes| == (if heard then 9 else 5)
      && (!heard ==> Exec(c, run).attest.queryCount <= MAX_QUERY_COUNT)
      && StatusOf(Exec(c, run), info.challengeId) == SelfAttested
  {
    var id := info.challengeId;
    CalledPartRun(c, heard, height, info);
    var status := if heard then Attested else EnoughVotesCollected;
    SubmittedAndHeard(c, CalledPart(c, heard, height, id), Event(info, height, status, HashMismatched),
                      MarkedTrail(heard, TrailOf(heard, EnoughVotesCollected)));
    WholeRunHarmless(c, heard, height, id);
    HarmlessLosesNothing(WholeRun(c, heard, height, id), id);
  }

  /** After an accepted call the submitter stores Submitted, and a tick then stores SelfAttested. */
  lemma SubmittedAndHeard(c: Config, run: seq<Step>, e: Event, h: Trail)
    requires Possible(c, run) && Called(Exec(c, run), e, h) && Hears(Exec(c, run), e.info.challengeId)
    ensures var id := e.info.challengeId;
      var all := run + [Submitter(StoreSubmitted(Stored))] + TickSteps(id);
      && Possible(c, all)
      && History(Exec(c, all), id) == Extend(Extend(h, true, Submitted), false, SelfAttested)
      && StatusOf(Exec(c, all), id) == SelfAttested
      && Exec(c, all).attest.queryCount == Exec(c, run).attest.queryCount + 1
  {
    var id, store := e.info.challengeId, Submitter(StoreSubmitted(Stored));
    RunAppend(c, INIT, run, store);
    TickRun(c, Exec(c, run + [store]), id);
    RunConcat(c, INIT, run + [store], TickSteps(id));
  }

  // ---------------------------------------------------------------------------------------------
  // Overwritten statuses

  /** Attested is not final while a task is in flight: from a state in which the broadcaster holds a stale row. */
  lemma AttestedOverwrittenInFlight(c: Config, s: System, id: uint64)
    requires !s.panicked && Hears(s, id) && id in s.db.events && s.db.events[id].status == Verified
    requires id in s.broadcaster.batch && id !in s.broadcaster.cache && Digest(c, s.broadcaster.batch[id]).Some?
    requires var v := OwnVote(c, id, Digest(c, s.broadcaster.batch[id]).value);
      !VoteExists(s.db.votes, v.eventHash, v.pubKey)
    ensures var r1 := RunFrom(c, s, TickSteps(id));
      var r2 := RunFrom(c, s, TickSteps(id) + [Broadcaster(SignAndSave(id, false))]);
      r1.Some? && StatusOf(r1.value, id) == Attested && r2.Some? && StatusOf(r2.value, id) == SelfVoted
  {
    TickRun(c, s, id);
    RunAppend(c, s, TickSteps(id), Broadcaster(SignAndSave(id, false)));
  }

  /** Such an overwriting from the empty database, with the very first tick: the verifier has fetched the event, the
      tick stores Attested, and two steps later the verifier stores Verified. */
  lemma InFlightReached(c: Config, height: nat, info: Challenge)
    requires Alone(c, height, info)
    ensures var run := Announced(false, height) + VerifyStage(true, info.challengeId);
      && Possible(c, run[..|run| - 2]) && StatusOf(Exec(c, run[..|run| - 2]), info.challengeId) == Attested
      && Possible(c, run) && StatusOf(Exec(c, run), info.challengeId) == Verified
  {
    var id, run := info.challengeId, Announced(false, height);
    AnnouncedRun(c, false, height, info);
    StaleVerification(c, Exec(c, run), EventRow(height, info));
    RunConcat(c, INIT, run, VerifyStage(true, id));
    RunConcat(c, INIT, run, VerifyStage(true, id)[..4]);
    assert (run + VerifyStage(true, id))[..|run| + 4] == run + VerifyStage(true, id)[..4];
  }

  lemma StaleVerification(c: Config, s: System, e: Event)
    requires Resting(s, e, Trail([], Unprocessed)) && e.status == Unprocessed && e.info.expiredHeight > 0
    requires Hears(s, e.info.challengeId)
    ensures var id := e.info.challengeId;
      var r1, r2 := RunFrom(c, s, VerifyStage(true, id)[..4]), RunFrom(c, s, VerifyStage(true, id));
      r1.Some? && StatusOf(r1.value, id) == Attested && r2.Some? && StatusOf(r2.value, id) == Verified
  {
    var id, fetch := e.info.challengeId, Verifier(FetchUnverified(0));
    VerifyRun(c, true, s, e, Trail([], Unprocessed));
    RunAppend(c, s, [], fetch);
    assert [] + [fetch] == [fetch] && [fetch] + TickSteps(id) == VerifyStage(true, id)[..4];
    TickRun(c, Next(c, s, fetch), id);
    RunConcat(c, s, [fetch], TickSteps(id));
  }

  /** A schedule in which the attest monitor handles one id twice, once before and once after the submitter's write. */
  function Race(id: uint64): seq<Step> {
    [AttestMonitor(AttestTick([id, id])), AttestMonitor(AttestRead(0)), Submitter(StoreSubmitted(Stored)),
     AttestMonitor(AttestRead(1)), AttestMonitor(AttestWrite(1, true)), AttestMonitor(AttestWrite(0, true))]
  }

  /** Both goroutines read the row, one before and one after it became Submitted. */
  lemma {:induction false} RaceReads(c: Config, s: System, id: uint64)
    requires !s.panicked && Hears(s, id)
    requires id in s.db.events && s.db.events[id].status == EnoughVotesCollected && AcceptedFor(s, id)
    ensures var r := RunFrom(c, s, Race(id)[..4]);
      && r.Some? && !r.value.panicked && id in r.value.db.events
      && r.value.attest.tasks == [Store(id, Attested), Store(id, SelfAttested)]
  {
    var race, a := Race(id), AfterTick(s.attest, [id, id]);
    assert [race[0], race[1]] + [race[2], race[3]] == race[..4];
    assert a.tasks == [Lookup(id), Lookup(id)] by {
      assert [id, id][..1] == [id] && [id][..0] == [];
      assert Goroutines([id], s.attest.remembered) == [Lookup(id)];
    }
    var s1 := Next(c, s, race[0]);
    assert s1 == s.(attest := a);
    RunTwo(c, s, race[0], race[1]);
    var s2 := Next(c, s1, race[1]);
    assert s2 == s.(attest := a.(tasks := [Store(id, Attested), Lookup(id)])) by {
      assert s2.attest.tasks == [Store(id, Attested), Lookup(id)];
    }
    SubmittedRead(c, s2, id);
    RunConcat(c, s, [race[0], race[1]], [race[2], race[3]]);
  }

  lemma {:induction false} SubmittedRead(c: Config, s: System, id: uint64)
    requires !s.panicked && s.attest.tasks == [Store(id, Attested), Lookup(id)]
    requires id in s.db.events && AcceptedFor(s, id)
    ensures var r := RunFrom(c, s, [Submitter(StoreSubmitted(Stored)), AttestMonitor(AttestRead(1))]);
      && r.Some? && !r.value.panicked && id in r.value.db.events
      && r.value.attest.tasks == [Store(id, Attested), Store(id, SelfAttested)]
  {
    RunTwo(c, s, Submitter(StoreSubmitted(Stored)), AttestMonitor(AttestRead(1)));
  }

  /** When a tick lists an id twice that is not remembered, the late goroutine stores Attested over SelfAttested. */
  lemma {:induction false} RepeatedIdOverwrites(c: Config, s: System, id: uint64)
    requires !s.panicked && Hears(s, id)
    requires id in s.db.events && s.db.events[id].status == EnoughVotesCollected && AcceptedFor(s, id)
    ensures var r1, r2 := RunFrom(c, s, Race(id)[..5]), RunFrom(c, s, Race(id));
      r1.Some? && StatusOf(r1.value, id) == SelfAttested && r2.Some? && StatusOf(r2.value, id) == Attested
  {
    RaceReads(c, s, id);
    var race := Race(id);
    assert race[..5] == race[..4] + [race[4]] && race == race[..5] + [race[5]];
    RunAppend(c, s, race[..4], race[4]);
    RunAppend(c, s, race[..5], race[5]);
  }

  /** SelfAttested is not final when an id is listed twice: this run has one tick only, and its last step replaces
      SelfAttested by Attested. */
  lemma RepeatedIdReached(c: Config, height: nat, info: Challenge)
    requires Alone(c, height, info)
    ensures var run := CalledPart(c, false, height, info.challengeId) + Race(info.challengeId);
      && Possible(c, run[..|run| - 1]) && StatusOf(Exec(c, run[..|run| - 1]), info.challengeId) == SelfAttested
      && Possible(c, run) && StatusOf(Exec(c, run), info.challengeId) == Attested
  {
    CalledPartRun(c, false, height, info);
    RaceAfter(c, CalledPart(c, false, height, info.challengeId), info.challengeId);
  }

  lemma RaceAfter(c: Config, run: seq<Step>, id: uint64)
    requires Possible(c, run)
    requires var s := Exec(c, run);
      && !s.panicked && Hears(s, id)
      && id in s.db.events && s.db.events[id].status == EnoughVotesCollected && AcceptedFor(s, id)
    ensures var all := run + Race(id);
      && Possible(c, all[..|all| - 1]) && StatusOf(Exec(c, all[..|all| - 1]), id) == SelfAttested
      && Possible(c, all) && StatusOf(Exec(c, all), id) == Attested
  {
    RepeatedIdOverwrites(c, Exec(c, run), id);
    RunConcat(c, INIT, run, Race(id));
    RunConcat(c, INIT, run, Race(id)[..5]);
    WithoutLast(run, Race(id));
  }

  lemma WithoutLast(first: seq<Step>, second: seq<Step>)
    requires |second| == 6
    ensures (first + second)[..|first + second| - 1] == first + second[..5]
  {
  }

  /** The submitter stores Submitted, does not learn of it, calls again, and stores what that call leads to. */
  function SecondCall(reply: AttestReply): seq<Step> {
    [Submitter(StoreSubmitted(Unacknowledged)), Submitter(Attest(reply)), Submitter(StoreSubmitted(Stored))]
  }

  /** Statuses are written at most once only while no answer is lost: after one lost answer, Submitted is written twice,
      or DuplicatedSlash after Submitted. */
  lemma LostAnswerReached(c: Config, height: nat, info: Challenge, reply: AttestReply)
    requires Alone(c, height, info) && reply != Rejected
    ensures var run := CalledPart(c, false, height, info.challengeId) + SecondCall(reply);
      && Possible(c, run)
      && PipelineWrites(History(Exec(c, run), info.challengeId).writes) ==
           PathTo(Submitted) + [StoredAfter(reply)]
  {
    var id, h := info.challengeId, TrailOf(false, EnoughVotesCollected);
    var run := CalledPart(c, false, height, id);
    CalledPartRun(c, false, height, info);
    SecondCallRun(c, Exec(c, run), Event(info, height, EnoughVotesCollected, HashMismatched), h, reply);
    RunConcat(c, INIT, run, SecondCall(reply));
    RepeatedWrites(reply);
  }

  lemma RepeatedWrites(reply: AttestReply)
    ensures var h := Extend(Extend(TrailOf(false, EnoughVotesCollected), true, Submitted), true, StoredAfter(reply));
      PipelineWrites(h.writes) == PathTo(Submitted) + [StoredAfter(reply)]
  {
    var h := TrailOf(false, EnoughVotesCollected);
    CollatedWrites();
    ExtendTrail(h, true, Submitted);
    ExtendTrail(Extend(h, true, Submitted), true, StoredAfter(reply));
  }

  function StoredAfter(reply: AttestReply): EventStatus {
    if reply == Success then Submitted else DuplicatedSlash
  }

  lemma SecondCallRun(c: Config, s: System, e: Event, h: Trail, reply: AttestReply)
    requires Called(s, e, h) && reply != Rejected
    ensures var r := RunFrom(c, s, SecondCall(reply));
      r.Some? && History(r.value, e.info.challengeId) == Extend(Extend(h, true, Submitted), true, StoredAfter(reply))
  {
    var second := SecondCall(reply);
    var s1 := Next(c, s, second[0]);
    assert s1.submitter.current == Some(s.submitter.current.value.(phase := Trying));
    RunAppend(c, s, [], second[0]);
    assert [] + [second[0]] == [second[0]] && [second[0]] + [second[1], second[2]] == second;
    RunTwo(c, s1, second[1], second[2]);
    RunConcat(c, s, [second[0]], [second[1], second[2]]);
  }

  lemma CollatedWrites()
    ensures PipelineWrites(TrailOf(false, EnoughVotesCollected).writes) == PathTo(EnoughVotesCollected)
  {
    ExtendTrail(TrailOf(false, Unprocessed), true, Verified);
    ExtendTrail(TrailOf(false, Verified), true, SelfVoted);
    ExtendTrail(TrailOf(false, SelfVoted), true, EnoughVotesCollected);
  }
}
