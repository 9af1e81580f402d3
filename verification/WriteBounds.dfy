/** How often a row is written: with distinct ids per tick its status settles. */
module WriteBounds {
  import opened Types
  import opened Pipeline
  import opened PipelineOrder
  import opened Settlement

  /** The chain lists no challenge id twice in one answer. */
  predicate DistinctTick(step: Step) {
    step.AttestMonitor? && step.a.AttestTick? ==> DistinctList(step.a.ids)
  }

  predicate DistinctTicks(steps: seq<Step>) {
    forall k :: 0 <= k < |steps| ==> DistinctTick(steps[k])
  }

  predicate Attests(t: AttestTask, id: uint64) {
    !t.Finished? && t.id == id
  }

  /** A goroutine of the current tick is still at work on the event. */
  predicate Handling(s: System, id: uint64) {
    exists i :: 0 <= i < |s.attest.tasks| && Attests(s.attest.tasks[i], id)
  }

  predicate CountsAsAttested(status: EventStatus) {
    status == Attested || status == SelfAttested
  }

  /** Attest writes never outnumber pipeline writes by more than the one that is stored now. */
  ghost predicate AttestBound(h: Trail, status: EventStatus) {
    AttestWrites(h.writes) <= |PipelineWrites(h.writes)| + if CountsAsAttested(status) then 1 else 0
  }

  /** In one life of the service, which began with `n` attest writes in the row's history: until the remembered ids are
      forgotten for the first time, each id is handled once. */
  ghost predicate HandledOnceInv(s: System, id: uint64, n: nat) {
    s.attest.queryCount <= MAX_QUERY_COUNT ==>
      var writes := AttestWrites(History(s, id).writes);
      && writes <= n + 1
      && (Handling(s, id) ==> writes <= n)
      && (id !in s.attest.remembered ==> writes <= n && !Handling(s, id))
  }

  ghost predicate SettleInv(s: System, id: uint64) {
    var tasks := s.attest.tasks;
    && (forall i, j :: 0 <= i < j < |tasks| ==> !(Attests(tasks[i], id) && Attests(tasks[j], id)))
    && (forall i :: 0 <= i < |tasks| && Attests(tasks[i], id) && tasks[i].Store? ==> !CountsAsAttested(StatusOf(s, id)))
    && AttestBound(History(s, id), StatusOf(s, id))
  }

  // ---------------------------------------------------------------------------------------------
  // The attest monitor's steps

  /** A write that fails, or hits no row or another one, leaves the event as it was. */
  lemma {:induction false} OtherWriteKeepsSettled(s: System, task: nat, ok: bool, id: uint64, n: nat)
    requires AttestEnabled(s, AttestWrite(task, ok)) && SettleInv(s, id)
    requires s.attest.tasks[task].id != id || !ok || id !in s.db.events
    ensures SettleInv(AttestNext(s, AttestWrite(task, ok)), id)
    ensures HandledOnceInv(s, id, n) ==> HandledOnceInv(AttestNext(s, AttestWrite(task, ok)), id, n)
  {
    var s' := AttestNext(s, AttestWrite(task, ok));
    assert forall i :: 0 <= i < |s'.attest.tasks| && Attests(s'.attest.tasks[i], id) ==>
      s'.attest.tasks[i] == s.attest.tasks[i];
    assert History(s', id) == History(s, id) && StatusOf(s', id) == StatusOf(s, id);
  }

  /** The one goroutine that handles the event stores its status. */
  lemma {:induction false} OwnWriteKeepsSettled(s: System, task: nat, id: uint64, n: nat)
    requires AttestEnabled(s, AttestWrite(task, true)) && SettleInv(s, id) && AttestInv(s, id)
    requires s.attest.tasks[task].id == id && id in s.db.events
    ensures SettleInv(AttestNext(s, AttestWrite(task, true)), id)
    ensures HandledOnceInv(s, id, n) ==> HandledOnceInv(AttestNext(s, AttestWrite(task, true)), id, n)
  {
    var s', status := AttestNext(s, AttestWrite(task, true)), s.attest.tasks[task].status;
    assert Attests(s.attest.tasks[task], id) && Handling(s, id);
    forall i | 0 <= i < |s'.attest.tasks| ensures !Attests(s'.attest.tasks[i], id) {
      if i != task { assert s'.attest.tasks[i] == s.attest.tasks[i]; }
    }
    assert !Handling(s', id);
    ExtendTrail(History(s, id), false, status);
    assert History(s', id) == Extend(History(s, id), false, status) && StatusOf(s', id) == status;
  }

  lemma {:induction false} AttestReadKeepsSettled(s: System, task: nat, id: uint64, n: nat)
    requires AttestEnabled(s, AttestRead(task)) && SettleInv(s, id)
    requires OrderInv(s, s.attest.tasks[task].id)
    ensures SettleInv(AttestNext(s, AttestRead(task)), id)
    ensures HandledOnceInv(s, id, n) ==> HandledOnceInv(AttestNext(s, AttestRead(task)), id, n)
  {
    var s' := AttestNext(s, AttestRead(task));
    assert forall i :: 0 <= i < |s'.attest.tasks| && Attests(s'.attest.tasks[i], id) ==> Attests(s.attest.tasks[i], id);
  }

  lemma {:induction false} TickKeepsSettled(s: System, ids: seq<uint64>, id: uint64, n: nat)
    requires AttestEnabled(s, AttestTick(ids)) && DistinctList(ids) && SettleInv(s, id)
    ensures SettleInv(AttestNext(s, AttestTick(ids)), id)
    ensures HandledOnceInv(s, id, n) ==> HandledOnceInv(AttestNext(s, AttestTick(ids)), id, n)
  {
    var s' := AttestNext(s, AttestTick(ids));
    assert forall i :: 0 <= i < |s'.attest.tasks| && Attests(s'.attest.tasks[i], id) ==>
      id in ids && id !in s.attest.remembered;
  }

  lemma {:induction false} AttestKeepsSettled(s: System, step: AttestStep, id: uint64, n: nat)
    requires AttestEnabled(s, step) && DistinctTick(AttestMonitor(step))
    requires OrderInv(s, id) && SettleInv(s, id)
    requires step.AttestRead? ==> OrderInv(s, s.attest.tasks[step.task].id)
    ensures SettleInv(AttestNext(s, step), id)
    ensures HandledOnceInv(s, id, n) ==> HandledOnceInv(AttestNext(s, step), id, n)
  {
    match step
    case AttestTick(ids) => TickKeepsSettled(s, ids, id, n);
    case AttestRead(i) => AttestReadKeepsSettled(s, i, id, n);
    case AttestWrite(i, ok) =>
      if s.attest.tasks[i].id == id && ok && id in s.db.events {
        OwnWriteKeepsSettled(s, i, id, n);
      } else {
        OtherWriteKeepsSettled(s, i, ok, id, n);
      }
  }

  // ---------------------------------------------------------------------------------------------
  // All other steps

  lemma {:induction false} RoomForOneMore(h: Trail, was: EventStatus, status: EventStatus)
    requires AttestBound(h, was) && Follows(h.stage, status)
    ensures AttestBound(Extend(h, true, status), status)
    ensures AttestWrites(Extend(h, true, status).writes) == AttestWrites(h.writes)
  {
    ExtendTrail(h, true, status);
  }

  /** Every other step makes at most one pipeline write, which makes room for one more attest write. */
  lemma {:induction false} OthersKeepSettled(s: System, s': System, id: uint64)
    requires OrderInv(s, id) && SettleInv(s, id) && RowMoves(s, s', id, false)
    requires s'.attest == s.attest || s'.attest == INIT.attest
    ensures SettleInv(s', id) && AttestWrites(History(s', id).writes) == AttestWrites(History(s, id).writes)
  {
    var h, h' := History(s, id), History(s', id);
    if h' != h { RoomForOneMore(h, StatusOf(s, id), StatusOf(s', id)); }
    assert StatusOf(s', id) == StatusOf(s, id) || !CountsAsAttested(StatusOf(s', id));
  }

  lemma {:induction false} SettleStep(c: Config, run: seq<Step>, step: Step, id: uint64, n: nat)
    requires Possible(c, run) && Enabled(Exec(c, run), step) && DistinctTick(step)
    requires SettleInv(Exec(c, run), id)
    ensures SettleInv(Next(c, Exec(c, run), step), id)
    ensures HandledOnceInv(Exec(c, run), id, n) && !step.Restart? ==> HandledOnceInv(Next(c, Exec(c, run), step), id, n)
  {
    var s := Exec(c, run);
    OrderHolds(c, run, id);
    if step.AttestMonitor? {
      if step.a.AttestRead? { OrderHolds(c, run, s.attest.tasks[step.a.task].id); }
      AttestKeepsSettled(s, step.a, id, n);
    } else {
      if step.Submitter? && step.t.Prepare? { OrderHolds(c, run, step.t.id); }
      OrderStep(c, s, step, id);
      SubmittedSource(c, s, step, id);
      OthersKeepSettled(s, Next(c, s, step), id);
    }
  }

  lemma {:induction false} SettleHolds(c: Config, steps: seq<Step>, id: uint64)
    requires Possible(c, steps) && forall k :: 0 <= k < |steps| ==> DistinctTick(steps[k])
    ensures SettleInv(Exec(c, steps), id)
  {
    if steps != [] {
      var front := steps[..|steps| - 1];
      LastStep(c, steps);
      SettleHolds(c, front, id);
      SettleStep(c, front, steps[|steps| - 1], id, 0);
    }
  }

  /** The status of a row settles: in any run at most four pipeline writes and five attest writes hit it, and one more
      of each for every store of the submitter whose answer was lost. */
  lemma StatusSettles(c: Config, steps: seq<Step>, id: uint64)
    requires Possible(c, steps) && forall k :: 0 <= k < |steps| ==> DistinctTick(steps[k])
    ensures var w, lost := History(Exec(c, steps), id).writes, LostAnswers(steps);
      && |PipelineWrites(w)| <= 4 + lost && AttestWrites(w) <= 5 + lost
      && |w| == |PipelineWrites(w)| + AttestWrites(w) <= 9 + 2 * lost
  {
    TrailHolds(c, steps, id);
    SettleHolds(c, steps, id);
    RepeatsHold(c, steps, id);
  }

  /** A life of the service is what happens from its start or a restart, with nothing in memory, to the next restart. */
  predicate OneLife(life: seq<Step>) {
    Restart !in life
  }

  lemma {:induction false} LifeHolds(c: Config, before: seq<Step>, life: seq<Step>, id: uint64)
    requires Possible(c, before) && Exec(c, before).attest == INIT.attest
    requires RunFrom(c, Exec(c, before), life).Some? && OneLife(life)
    requires SettleInv(Exec(c, before), id) && DistinctTicks(life)
    ensures var s := RunFrom(c, Exec(c, before), life).value;
      SettleInv(s, id) && HandledOnceInv(s, id, AttestWrites(History(Exec(c, before), id).writes))
  {
    if life != [] {
      var front, step := life[..|life| - 1], life[|life| - 1];
      LifeHolds(c, before, front, id);
      RunConcat(c, INIT, before, front);
      SettleStep(c, before + front, step, id, AttestWrites(History(Exec(c, before), id).writes));
    }
  }

  /** As long as the monitor has not forgotten what it remembers, one life adds at most one attest write to a row; so
      with no restart there are five writes in all. */
  lemma HandledOnce(c: Config, before: seq<Step>, life: seq<Step>, id: uint64)
    requires Possible(c, before) && (before == [] || before[|before| - 1] == Restart)
    requires Possible(c, before + life) && OneLife(life)
    requires DistinctTicks(before) && DistinctTicks(life)
    requires Exec(c, before + life).attest.queryCount <= MAX_QUERY_COUNT
    ensures var w := History(Exec(c, before + life), id).writes;
      && AttestWrites(w) <= AttestWrites(History(Exec(c, before), id).writes) + 1
      && (before == [] ==> |w| <= 5 + LostAnswers(life))
  {
    if before != [] { LastStep(c, before); }
    SettleHolds(c, before, id);
    RunConcat(c, INIT, before, life);
    LifeHolds(c, before, life, id);
    if before == [] { FirstLife(c, life, id); }
  }

  lemma FirstLife(c: Config, life: seq<Step>, id: uint64)
    requires Possible(c, life) && AttestWrites(History(Exec(c, life), id).writes) <= 1
    ensures [] + life == life && |History(Exec(c, life), id).writes| <= 5 + LostAnswers(life)
  {
    TrailHolds(c, life, id);
    RepeatsHold(c, life, id);
  }
}
