/** With a constant heartbeat interval, every vote this node casts is for a proven fault or for a heartbeat. */
module Justification {
  import opened Types
  import opened Store
  import opened Pipeline
  import opened PipelineOrder
  import opened Settlement
  import opened VoteSafety

  predicate UsesHeartbeat(step: Step, heartbeat: nat) {
    match step
    case Broadcaster(FetchForVote(_, h)) => h == heartbeat
    case _ => true
  }

  predicate Justified(s: System, id: uint64, heartbeat: nat)
    requires heartbeat > 0
  {
    Known(s, id) && Votable(s.db.events[id], heartbeat)
  }

  ghost predicate JustifiedInv(s: System, id: uint64, heartbeat: nat)
    requires heartbeat > 0
  {
    && (id in s.broadcaster.batch || SelfVotedBefore(StageOf(s, id)) ==> Justified(s, id, heartbeat))
    && (forall f :: f in s.record.facts && f.id == id ==> Justified(s, id, heartbeat))
  }

  /** Outside the broadcaster nothing new is voted on. */
  lemma {:induction false} OthersKeepJustified(c: Config, s: System, step: Step, id: uint64, heartbeat: nat)
    requires heartbeat > 0 && Enabled(s, step) && !step.Broadcaster?
    requires OrderInv(s, id) && JustifiedInv(s, id, heartbeat)
    requires KeepsVerdict(s, Next(c, s, step), id) && RowInv(Next(c, s, step), id)
    ensures JustifiedInv(Next(c, s, step), id, heartbeat)
  {
    match step
    case Collator(l) => CollatorKeepsJustified(c, s, l, id, heartbeat);
    case Submitter(t) => SubmitterKeepsJustified(c, s, t, id, heartbeat);
    case _ => QuietStage(c, s, step, id);
  }

  lemma {:induction false} CollatorKeepsJustified(c: Config, s: System, step: CollatorStep, id: uint64, heartbeat: nat)
    requires heartbeat > 0 && CollatorEnabled(s, step)
    requires OrderInv(s, id) && JustifiedInv(s, id, heartbeat)
    requires KeepsVerdict(s, CollatorNext(c, s, step), id)
    ensures JustifiedInv(CollatorNext(c, s, step), id, heartbeat)
  {
  }

  lemma {:induction false} SubmitterKeepsJustified(c: Config, s: System, step: SubmitterStep, id: uint64,
      heartbeat: nat)
    requires heartbeat > 0 && SubmitterEnabled(s, step)
    requires OrderInv(s, id) && JustifiedInv(s, id, heartbeat)
    requires KeepsVerdict(s, SubmitterNext(c, s, step), id)
    ensures JustifiedInv(SubmitterNext(c, s, step), id, heartbeat)
  {
  }

  lemma {:induction false} BroadcasterKeepsJustified(c: Config, s: System, step: BroadcasterStep, id: uint64,
      heartbeat: nat)
    requires heartbeat > 0 && BroadcasterEnabled(s, step) && UsesHeartbeat(Broadcaster(step), heartbeat)
    requires OrderInv(s, id) && JustifiedInv(s, id, heartbeat)
    requires KeepsVerdict(s, BroadcasterNext(c, s, step), id)
    ensures JustifiedInv(BroadcasterNext(c, s, step), id, heartbeat)
  {
  }

  lemma {:induction false} JustifiedHolds(c: Config, steps: seq<Step>, id: uint64, heartbeat: nat)
    requires heartbeat > 0 && Possible(c, steps)
    requires forall k :: 0 <= k < |steps| ==> UsesHeartbeat(steps[k], heartbeat)
    ensures JustifiedInv(Exec(c, steps), id, heartbeat)
  {
    if steps != [] {
      var front, step := steps[..|steps| - 1], steps[|steps| - 1];
      var s := Exec(c, front);
      LastStep(c, steps);
      JustifiedHolds(c, front, id, heartbeat);
      StepFacts(c, steps, id);
      MovesKeepVerdict(s, Exec(c, steps), id, step.AttestMonitor?);
      if step.Broadcaster? {
        BroadcasterKeepsJustified(c, s, step.b, id, heartbeat);
      } else {
        OthersKeepJustified(c, s, step, id, heartbeat);
      }
    }
  }

  /** Everything signed, collated or submitted is a mismatch or a heartbeat, and a submission that calls the challenge
      failed is always for a heartbeat. */
  lemma VotesJustified(c: Config, steps: seq<Step>, f: Fact, heartbeat: nat)
    requires heartbeat > 0 && Possible(c, steps)
    requires forall k :: 0 <= k < |steps| ==> UsesHeartbeat(steps[k], heartbeat)
    requires f in Exec(c, steps).record.facts
    ensures f.id in Exec(c, steps).db.events
    ensures Exec(c, steps).db.events[f.id].verifyResult == HashMismatched || f.id % heartbeat == 0
    ensures f.AttestCall? && f.args.result == ChallengeFailed ==> f.id % heartbeat == 0
  {
    JustifiedHolds(c, steps, f.id, heartbeat);
    CertHolds(c, steps, f.id);
    OrderHolds(c, steps, f.id);
  }
}
