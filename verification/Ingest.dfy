/** Which blocks and events are in the database, and what the deduplication window therefore guarantees. */
module Ingest {
  import opened Types
  import opened Store
  import opened Pipeline
  import opened PipelineOrder
  import opened Settlement
  import opened VoteSafety

  // ---------------------------------------------------------------------------------------------
  // Steps other than the monitor's never touch what was announced

  /** Same blocks, same rows, same announcements; only statuses and, for the verifier, verdicts may differ. */
  ghost predicate SameAnnouncements(s: System, s': System, verdicts: bool) {
    && s'.db.blocks == s.db.blocks && (s'.monitor == s.monitor || s'.monitor == INIT.monitor)
    && s'.db.events.Keys == s.db.events.Keys
    && forall id :: id in s.db.events ==>
         && s'.db.events[id].info == s.db.events[id].info && s'.db.events[id].height == s.db.events[id].height
         && (verdicts ==> s'.db.events[id].verifyResult == s.db.events[id].verifyResult)
  }

  lemma {:induction false} OnlyMonitorAnnounces(c: Config, s: System, step: Step)
    requires Enabled(s, step) && !step.Monitor?
    ensures SameAnnouncements(s, Next(c, s, step), !step.Verifier?)
  {
    match step
    case Verifier(v) =>
    case Broadcaster(b) =>
    case Collator(l) =>
    case Collector(k) =>
    case Submitter(t) =>
    case AttestMonitor(a) =>
    case Restart =>
  }

  // ---------------------------------------------------------------------------------------------
  // Blocks

  /** Saved heights have no gaps. A row for height 0 reads like a fresh database, so only positive heights line up. */
  ghost predicate Contiguous(blocks: set<nat>) {
    forall a, h, b :: a in blocks && b in blocks && 0 < a <= h <= b ==> h in blocks
  }

  ghost predicate BlocksInv(c: Config, s: System) {
    && Contiguous(s.db.blocks)
    && (s.monitor.planned.Some? && LatestHeight(s.db.blocks) > 0 ==>
          s.monitor.planned.value == LatestHeight(s.db.blocks) + 1)
    && forall h :: h in s.db.blocks ==> DistinctIds(c.chain(h))
  }

  /** Blocks that are added lie above all that were there. */
  predicate ExtendsBlocks(before: set<nat>, after: set<nat>) {
    before <= after && forall h :: h in after && h !in before ==> before == {} || h > LatestHeight(before)
  }

  lemma {:induction false} BlocksStep(c: Config, s: System, step: Step)
    requires Enabled(s, step) && BlocksInv(c, s)
    ensures BlocksInv(c, Next(c, s, step)) && ExtendsBlocks(s.db.blocks, Next(c, s, step).db.blocks)
  {
    if !step.Monitor? { OnlyMonitorAnnounces(c, s, step); }
  }

  lemma {:induction false} BlocksHold(c: Config, steps: seq<Step>)
    requires Possible(c, steps)
    ensures BlocksInv(c, Exec(c, steps))
  {
    if steps != [] {
      LastStep(c, steps);
      BlocksHold(c, steps[..|steps| - 1]);
      BlocksStep(c, Exec(c, steps[..|steps| - 1]), steps[|steps| - 1]);
    }
  }

  // ---------------------------------------------------------------------------------------------
  // Height zero

  ghost predicate Gapless(blocks: set<nat>) {
    forall a, h, b :: a in blocks && b in blocks && a <= h <= b ==> h in blocks
  }

  /** A saved block of height zero looks like a fresh database, so the next poll may start anywhere. That is the only
      way to get a gap: the saved heights have none iff height one was saved too, or nothing above zero was. */
  lemma GaplessIff(c: Config, steps: seq<Step>)
    requires Possible(c, steps)
    ensures var blocks := Exec(c, steps).db.blocks;
      Gapless(blocks) <==> (0 in blocks && LatestHeight(blocks) > 0 ==> 1 in blocks)
  {
    BlocksHold(c, steps);
  }

  predicate PlansZero(steps: seq<Step>) {
    Monitor(Plan(0)) in steps
  }

  /** Height zero is saved only if the chain reported it as its height. */
  lemma {:induction false} ZeroWasReported(c: Config, steps: seq<Step>)
    requires Possible(c, steps)
    ensures 0 in Exec(c, steps).db.blocks || Exec(c, steps).monitor.planned == Some(0) ==> PlansZero(steps)
  {
    if steps != [] {
      var front, step := steps[..|steps| - 1], steps[|steps| - 1];
      LastStep(c, steps);
      ZeroWasReported(c, front);
      assert steps == front + [step];
      if !step.Monitor? { OnlyMonitorAnnounces(c, Exec(c, front), step); }
    }
  }

  /** So there is no gap at all unless the chain reported height zero, which can be checked before polling. */
  lemma NoGap(c: Config, steps: seq<Step>)
    requires Possible(c, steps) && !PlansZero(steps)
    ensures Gapless(Exec(c, steps).db.blocks)
  {
    GaplessIff(c, steps);
    ZeroWasReported(c, steps);
  }

  /** A run with a gap, for a chain that reports and serves a block of height zero first, and reports `height` at the
      next poll. A chain whose blocks start at height one has no such run. */
  lemma GapReached(c: Config, height: nat)
    requires height > 1 && c.chain(0) == [] && c.chain(height) == []
    ensures var run := [Monitor(Plan(0)), Monitor(SaveBlock(true)), Monitor(Plan(height)), Monitor(SaveBlock(true))];
      Possible(c, run) && !Gapless(Exec(c, run).db.blocks)
  {
    var first, second := [Monitor(Plan(0)), Monitor(SaveBlock(true))],
      [Monitor(Plan(height)), Monitor(SaveBlock(true))];
    RunTwo(c, INIT, first[0], first[1]);
    var s := Exec(c, first);
    assert s.db.blocks == {0};
    RunTwo(c, s, second[0], second[1]);
    RunConcat(c, INIT, first, second);
    assert first + second == [first[0], first[1], second[0], second[1]];
    var blocks := Exec(c, first + second).db.blocks;
    assert 0 in blocks && height in blocks && 1 !in blocks;
  }

  // ---------------------------------------------------------------------------------------------
  // Rows

  /** The row of an id, if any, is the one announced by a saved block, and every announcement of a saved block has its
      row. */
  ghost predicate AnnouncedInv(c: Config, s: System, id: uint64) {
    && (id in s.db.events ==>
          var e := s.db.events[id];
          e.height in s.db.blocks && Find(c.chain(e.height), id) == Some(e.info))
    && (forall h :: h in s.db.blocks && Find(c.chain(h), id).Some? ==> id in s.db.events && s.db.events[id].height == h)
  }

  lemma {:induction false} NotListed(infos: seq<Challenge>, events: map<uint64, Event>, id: uint64)
    requires forall i :: 0 <= i < |infos| ==> infos[i].challengeId !in events
    ensures id in events ==> Find(infos, id) == None
  {
    if Find(infos, id).Some? {
      var i :| 0 <= i < |infos| && infos[i] == Find(infos, id).value;
    }
  }

  lemma {:induction false} AnnouncedStep(c: Config, s: System, step: Step, id: uint64)
    requires Enabled(s, step) && AnnouncedInv(c, s, id)
    ensures AnnouncedInv(c, Next(c, s, step), id)
  {
    if !step.Monitor? {
      OnlyMonitorAnnounces(c, s, step);
    } else if step.m.SaveBlock? && step.m.ok {
      var h := s.monitor.planned.value;
      if !Insertable(s.db, h, c.chain(h)) { return; }
      AddRowsAt(s.db.events, h, c.chain(h), id);
      NotListed(c.chain(h), s.db.events, id);
    }
  }

  lemma {:induction false} AnnouncedHolds(c: Config, steps: seq<Step>, id: uint64)
    requires Possible(c, steps)
    ensures AnnouncedInv(c, Exec(c, steps), id)
  {
    if steps != [] {
      LastStep(c, steps);
      AnnouncedHolds(c, steps[..|steps| - 1], id);
      AnnouncedStep(c, Exec(c, steps[..|steps| - 1]), steps[|steps| - 1], id);
    }
  }

  lemma FindListed(infos: seq<Challenge>, info: Challenge)
    requires DistinctIds(infos)
    ensures info in infos <==> Find(infos, info.challengeId) == Some(info)
  {
    if info in infos {
      var i :| 0 <= i < |infos| && infos[i] == info;
      var found := Find(infos, info.challengeId);
      if found.Some? { var j :| 0 <= j < |infos| && infos[j] == found.value; }
    }
  }

  /** Exactly-once ingest, with any failures and retries: saved heights have no gaps (positive ones never, and none at
      all unless the chain reported height zero), and a row with this announcement and height exists iff a saved block
      of that height announced it; every id then has one row and is announced once. */
  lemma ExactlyOnceIngest(c: Config, steps: seq<Step>, height: nat, info: Challenge)
    requires Possible(c, steps)
    ensures var db := Exec(c, steps).db;
      && Contiguous(db.blocks) && (!PlansZero(steps) ==> Gapless(db.blocks))
      && ((height in db.blocks && info in c.chain(height)) <==>
            (info.challengeId in db.events && db.events[info.challengeId].info == info
               && db.events[info.challengeId].height == height))
      && (height in db.blocks ==> DistinctIds(c.chain(height)))
  {
    AnnouncedHolds(c, steps, info.challengeId);
    BlocksHold(c, steps);
    if !PlansZero(steps) { NoGap(c, steps); }
    if height in Exec(c, steps).db.blocks { FindListed(c.chain(height), info); }
  }

  /** Blocks are saved in order: whatever a run adds later lies above everything saved before. */
  lemma {:induction false} IngestInOrder(c: Config, steps: seq<Step>, i: nat)
    requires Possible(c, steps) && i <= |steps|
    ensures Possible(c, steps[..i])
    ensures ExtendsBlocks(Exec(c, steps[..i]).db.blocks, Exec(c, steps).db.blocks)
  {
    if i == |steps| {
      assert steps[..i] == steps;
    } else {
      var front := steps[..|steps| - 1];
      LastStep(c, steps);
      IngestInOrder(c, front, i);
      BlocksHold(c, front);
      BlocksStep(c, Exec(c, front), steps[|steps| - 1]);
      assert front[..i] == steps[..i];
    }
  }

  // ---------------------------------------------------------------------------------------------
  // The deduplication window

  predicate UsesIntervals(step: Step, dedup: nat, heartbeat: nat) {
    match step
    case Verifier(CheckDuplicate(_, d, h)) => d == dedup && h == heartbeat
    case _ => true
  }

  /** Challenge ids grow with the block height. */
  ghost predicate ChainOrdered(c: Config) {
    forall h1, h2, x, y :: h1 < h2 && x in c.chain(h1) && y in c.chain(h2) ==> x.challengeId < y.challengeId
  }

  /** The event got past the pre-check: its task may verify it, or it has a verdict already. */
  predicate Screened(s: System, id: uint64) {
    Known(s, id) || (id in s.verifier.tasks && s.verifier.tasks[id].phase == Passed)
  }

  ghost predicate WindowInv(s: System, id: uint64, dedup: nat, heartbeat: nat)
    requires heartbeat > 0
  {
    id in s.db.events && Screened(s, id) ==> !IsDuplicate(s.db.events, s.db.events[id].info, dedup, heartbeat)
  }

  /** A new block brings only larger ids, which no window of an older event reaches. */
  lemma {:induction false} NewRowsOutsideWindow(c: Config, s: System, h: nat, id: uint64, other: uint64)
    requires ChainOrdered(c) && AnnouncedInv(c, s, id) && id in s.db.events
    requires h !in s.db.blocks && (LatestHeight(s.db.blocks) > 0 ==> h == LatestHeight(s.db.blocks) + 1)
    requires Find(c.chain(h), other).Some?
    ensures id < other
  {
    var e := s.db.events[id];
    assert e.height <= LatestHeight(s.db.blocks);
    assert e.info in c.chain(e.height) && Find(c.chain(h), other).value in c.chain(h);
  }

  lemma {:induction false} MonitorKeepsWindow(c: Config, s: System, step: MonitorStep, id: uint64, dedup: nat,
      heartbeat: nat)
    requires heartbeat > 0 && MonitorEnabled(s, step) && ChainOrdered(c)
    requires OrderInv(s, id) && AnnouncedInv(c, s, id) && BlocksInv(c, s) && WindowInv(s, id, dedup, heartbeat)
    ensures WindowInv(MonitorNext(c, s, step), id, dedup, heartbeat)
  {
    var s' := MonitorNext(c, s, step);
    if step.SaveBlock? && step.ok && Insertable(s.db, s.monitor.planned.value, c.chain(s.monitor.planned.value)) {
      var h := s.monitor.planned.value;
      AddRowsAt(s.db.events, h, c.chain(h), id);
      if id in s.db.events && Screened(s', id) {
        NotListed(c.chain(h), s.db.events, id);
        forall other | other in s'.db.events && other < id
          ensures other in s.db.events && s'.db.events[other] == s.db.events[other]
        {
          AddRowsAt(s.db.events, h, c.chain(h), other);
          if Find(c.chain(h), other).Some? { NewRowsOutsideWindow(c, s, h, id, other); }
        }
      }
    }
  }

  lemma {:induction false} OthersKeepWindow(c: Config, s: System, step: Step, id: uint64, dedup: nat, heartbeat: nat)
    requires heartbeat > 0 && Enabled(s, step) && !step.Monitor? && UsesIntervals(step, dedup, heartbeat)
    requires OrderInv(s, id) && OrderInv(Next(c, s, step), id) && WindowInv(s, id, dedup, heartbeat)
    ensures WindowInv(Next(c, s, step), id, dedup, heartbeat)
  {
    OnlyMonitorAnnounces(c, s, step);
    if id in s.db.events { SameWindow(s, Next(c, s, step), id, dedup, heartbeat); }
    if step.Verifier? {
      VerifierKeepsWindow(s, step.v, id, dedup, heartbeat);
    } else {
      OnlyVerifierVerifies(c, s, step);
    }
  }

  lemma {:induction false} OnlyVerifierVerifies(c: Config, s: System, step: Step)
    requires Enabled(s, step) && !step.Verifier?
    ensures Next(c, s, step).verifier == s.verifier || Next(c, s, step).verifier == INIT.verifier
  {
    match step
    case Monitor(m) =>
    case Broadcaster(b) =>
    case Collator(l) =>
    case Collector(k) =>
    case Submitter(t) =>
    case AttestMonitor(a) =>
    case Restart =>
  }

  /** The window depends on announcements only. */
  lemma SameWindow(s: System, s': System, id: uint64, dedup: nat, heartbeat: nat)
    requires heartbeat > 0 && SameAnnouncements(s, s', false) && id in s.db.events
    ensures IsDuplicate(s'.db.events, s'.db.events[id].info, dedup, heartbeat)
         == IsDuplicate(s.db.events, s.db.events[id].info, dedup, heartbeat)
  {
  }

  lemma {:induction false} VerifierKeepsWindow(s: System, step: VerifierStep, id: uint64, dedup: nat, heartbeat: nat)
    requires heartbeat > 0 && VerifierEnabled(s, step) && UsesIntervals(Verifier(step), dedup, heartbeat)
    requires OrderInv(s, id) && WindowInv(s, id, dedup, heartbeat)
    requires SameAnnouncements(s, VerifierNext(s, step), false)
    ensures WindowInv(VerifierNext(s, step), id, dedup, heartbeat)
  {
    if id in s.db.events { SameWindow(s, VerifierNext(s, step), id, dedup, heartbeat); }
  }

  lemma {:induction false} WindowHolds(c: Config, steps: seq<Step>, id: uint64, dedup: nat, heartbeat: nat)
    requires heartbeat > 0 && Possible(c, steps) && ChainOrdered(c)
    requires forall k :: 0 <= k < |steps| ==> UsesIntervals(steps[k], dedup, heartbeat)
    ensures WindowInv(Exec(c, steps), id, dedup, heartbeat)
  {
    if steps != [] {
      var front, step := steps[..|steps| - 1], steps[|steps| - 1];
      LastStep(c, steps);
      WindowHolds(c, front, id, dedup, heartbeat);
      StepFacts(c, steps, id);
      AnnouncedHolds(c, front, id);
      BlocksHold(c, front);
      if step.Monitor? {
        MonitorKeepsWindow(c, Exec(c, front), step.m, id, dedup, heartbeat);
      } else {
        OthersKeepWindow(c, Exec(c, front), step, id, dedup, heartbeat);
      }
    }
  }

  /** The pre-check itself, in every run: it lets an event pass exactly when it was raised by somebody, is a heartbeat,
      has an id within the interval, or has no earlier row of its object and provider in its window. */
  lemma PreCheckExact(c: Config, steps: seq<Step>, id: uint64, dedup: nat, heartbeat: nat)
    requires Possible(c, steps) && Enabled(Exec(c, steps), Verifier(CheckDuplicate(id, dedup, heartbeat)))
    ensures var s := Exec(c, steps);
      var s' := Next(c, s, Verifier(CheckDuplicate(id, dedup, heartbeat)));
      && id in s.db.events && id in s'.verifier.tasks && s'.db == s.db
      && var info := s.db.events[id].info;
      && s'.verifier.tasks[id].phase in {Passed, MarkDuplicate}
      && (s'.verifier.tasks[id].phase == Passed <==>
            || info.challenger != [] || id % heartbeat == 0 || id <= dedup
            || forall x :: x in s.db.events && x < id <= x + dedup ==>
                 s.db.events[x].info.objectId != info.objectId || s.db.events[x].info.sp != info.sp)
  {
    var s := Exec(c, steps);
    OrderHolds(c, steps, id);
    assert s.verifier.tasks[id].ev.info == s.db.events[id].info;
  }

  /** Of two stored events for one object and provider within the window, the later one never gets a verdict, so this
      node never certifies anything about it, unless somebody raised it or it is a heartbeat. */
  lemma LaterEventNeverVerified(c: Config, steps: seq<Step>, a: uint64, b: uint64, dedup: nat, heartbeat: nat)
    requires heartbeat > 0 && Possible(c, steps) && ChainOrdered(c)
    requires forall k :: 0 <= k < |steps| ==> UsesIntervals(steps[k], dedup, heartbeat)
    requires a in Exec(c, steps).db.events && b in Exec(c, steps).db.events
    requires var x, y := Exec(c, steps).db.events[a].info, Exec(c, steps).db.events[b].info;
      x.objectId == y.objectId && x.sp == y.sp && y.challenger == []
    requires a < b <= a + dedup && b > dedup && b % heartbeat != 0
    ensures Exec(c, steps).db.events[b].verifyResult == Unknown
    ensures forall f :: f in Exec(c, steps).record.facts ==> f.id != b
  {
    WindowHolds(c, steps, b, dedup, heartbeat);
    OrderHolds(c, steps, b);
    CertHolds(c, steps, b);
  }
}
