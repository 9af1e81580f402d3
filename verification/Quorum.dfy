/** With a fixed validator list, a collated event is submitted with the signatures of more than two thirds of it. */
module Quorum {
  import opened Types
  import opened Store
  import opened EventHash
  import opened Certification
  import opened Pipeline
  import opened PipelineOrder
  import opened Settlement
  import opened VoteSafety

  predicate UsesValidators(step: Step, validators: seq<Bytes>) {
    match step
    case Collector(PollVotes(_, vs)) => vs == validators
    case Collator(CountVotes(_, vs)) => vs == validators
    case Submitter(Prepare(_, vs)) => vs == validators
    case _ => true
  }

  /** Every stored vote comes from a validator. */
  ghost predicate VotersInv(s: System, validators: seq<Bytes>) {
    && (forall v :: v in s.db.votes ==> v.signature.signer in validators)
    && (s.collector.polled != [] ==> s.collector.validators == validators)
    && (s.collector.checked.Some? ==> s.collector.checked.value.signature.signer in validators)
  }

  lemma {:induction false} VotersStep(c: Config, s: System, step: Step, validators: seq<Bytes>)
    requires Enabled(s, step) && UsesValidators(step, validators) && c.ownKey in validators
    requires VotersInv(s, validators)
    ensures VotersInv(Next(c, s, step), validators)
  {
    match step
    case Monitor(m) =>
    case Verifier(v) =>
    case Broadcaster(b) =>
    case Collator(l) =>
    case Collector(k) =>
    case Submitter(t) =>
    case AttestMonitor(a) =>
    case Restart =>
  }

  function VoteCount(c: Config, s: System, id: uint64): nat
    requires Known(s, id)
  {
    |VotesFor(s.db.votes, Hex(HashOf(c, s, id)))|
  }

  predicate PastQuorum(s: System, id: uint64) {
    || StageOf(s, id) in {EnoughVotesCollected, Submitted, DuplicatedSlash}
    || (id in s.collator.tasks && s.collator.tasks[id].enough)
  }

  ghost predicate QuorumVotes(votes: seq<Vote>, validators: seq<Bytes>) {
    MoreThanTwoThirds(|votes|, |validators|) && forall v :: v in votes ==> v.signature.signer in validators
  }

  ghost predicate QuorumInv(c: Config, s: System, id: uint64, validators: seq<Bytes>) {
    && (PastQuorum(s, id) ==> Known(s, id) && MoreThanTwoThirds(VoteCount(c, s, id), |validators|))
    && (Submitting(s, id) ==>
          && s.submitter.current.value.validators == validators
          && QuorumVotes(s.submitter.current.value.votes, validators))
    && (forall f :: f in s.record.facts && f.id == id && f.AttestCall? ==>
          f.validators == validators && QuorumVotes(f.votes, validators))
  }

  /** Votes are only added, so a count never drops. */
  lemma {:induction false} CountsGrow(votes: seq<Vote>, more: seq<Vote>, eventHash: string)
    requires votes <= more
    ensures |VotesFor(votes, eventHash)| <= |VotesFor(more, eventHash)|
  {
    if |votes| < |more| {
      CountsGrow(votes, more[..|more| - 1], eventHash);
    } else {
      assert votes == more;
    }
  }

  /** The shortcut for a single validator agrees with the count: this node's own vote is already stored. */
  lemma SingleValidatorShortcut(c: Config, s: System, id: uint64, validators: seq<Bytes>)
    requires |validators| == 1 && StageOf(s, id) == SelfVoted && OwnVoteInv(c, s, id)
    ensures Known(s, id) && MoreThanTwoThirds(VoteCount(c, s, id), 1)
  {
    VotesForSpec(s.db.votes, Hex(HashOf(c, s, id)));
  }

  /** The quorum survives a step that collates and submits nothing. */
  lemma {:induction false} FrameQuorum(c: Config, s: System, s': System, id: uint64, validators: seq<Bytes>)
    requires QuorumInv(c, s, id, validators) && KeepsVerdict(s, s', id) && s.db.votes <= s'.db.votes
    requires PastQuorum(s', id) ==> PastQuorum(s, id)
    requires s'.submitter.current == s.submitter.current || s'.submitter.current == None
    requires forall f :: f in s'.record.facts && f.id == id && f.AttestCall? ==> f in s.record.facts
    ensures QuorumInv(c, s', id, validators)
  {
    if Known(s, id) { CountsGrow(s.db.votes, s'.db.votes, Hex(HashOf(c, s, id))); }
  }

  lemma {:induction false} CountKeepsQuorum(c: Config, s: System, id: uint64, validators: seq<Bytes>)
    requires id in s.collator.tasks && OrderInv(s, id) && CertInv(c, s, id) && QuorumInv(c, s, id, validators)
    ensures QuorumInv(c, Count(c, s, id, validators), id, validators)
  {
    SnapshotDigest(c, s, id, s.collator.tasks[id].ev, SelfVoted);
    if |validators| == 1 { SingleValidatorShortcut(c, s, id, validators); }
  }

  lemma {:induction false} CollatorKeepsQuorum(c: Config, s: System, step: CollatorStep, id: uint64,
      validators: seq<Bytes>)
    requires CollatorEnabled(s, step) && UsesValidators(Collator(step), validators)
    requires OrderInv(s, id) && CertInv(c, s, id) && QuorumInv(c, s, id, validators)
    requires KeepsVerdict(s, CollatorNext(c, s, step), id)
    ensures QuorumInv(c, CollatorNext(c, s, step), id, validators)
  {
    if step.CountVotes? && step.id == id {
      CountKeepsQuorum(c, s, id, validators);
    } else {
      FrameQuorum(c, s, CollatorNext(c, s, step), id, validators);
    }
  }

  lemma {:induction false} PrepareKeepsQuorum(c: Config, s: System, step: SubmitterStep, id: uint64,
      validators: seq<Bytes>)
    requires SubmitterEnabled(s, step) && UsesValidators(Submitter(step), validators) && step.Prepare?
    requires OrderInv(s, id) && CertInv(c, s, id) && QuorumInv(c, s, id, validators) && VotersInv(s, validators)
    requires OrderInv(s, step.id) && CertInv(c, s, step.id)
    ensures QuorumInv(c, SubmitterNext(c, s, step), id, validators)
  {
    SubmitDigest(c, s, step.id);
    VotesForSpec(s.db.votes, Hex(HashOf(c, s, step.id)));
  }

  lemma {:induction false} SubmitterKeepsQuorum(c: Config, s: System, step: SubmitterStep, id: uint64,
      validators: seq<Bytes>)
    requires SubmitterEnabled(s, step) && UsesValidators(Submitter(step), validators)
    requires OrderInv(s, id) && CertInv(c, s, id) && QuorumInv(c, s, id, validators) && VotersInv(s, validators)
    requires step.Prepare? ==> OrderInv(s, step.id) && CertInv(c, s, step.id)
    requires KeepsVerdict(s, SubmitterNext(c, s, step), id)
    ensures QuorumInv(c, SubmitterNext(c, s, step), id, validators)
  {
    if step.Prepare? {
      PrepareKeepsQuorum(c, s, step, id, validators);
    } else if !step.Attest? && !step.StoreSubmitted? && !step.Abandon? {
      FrameQuorum(c, s, SubmitterNext(c, s, step), id, validators);
    }
  }

  /** Of the loops that do not collate or submit, only the broadcaster adds facts, and none brings an event past its
      quorum. */
  lemma {:induction false} CollatorUntouched(c: Config, s: System, step: Step, id: uint64)
    requires Enabled(s, step) && !step.Collator? && !step.Submitter? && !step.Broadcaster?
    ensures Next(c, s, step).collator == s.collator || Next(c, s, step).collator == INIT.collator
    ensures HasVerdict(StageOf(Next(c, s, step), id)) ==> StageOf(Next(c, s, step), id) in {StageOf(s, id), Verified}
  {
    match step
    case Monitor(m) =>
    case Verifier(v) =>
    case Collector(k) =>
    case AttestMonitor(a) =>
    case Restart =>
  }

  lemma {:induction false} BroadcasterQuiet(c: Config, s: System, step: BroadcasterStep, id: uint64)
    requires BroadcasterEnabled(s, step)
    ensures var s' := BroadcasterNext(c, s, step);
      && s'.submitter == s.submitter && s'.collator == s.collator
      && StageOf(s', id) in {StageOf(s, id), SelfVoted}
      && forall f :: f in s'.record.facts && f.AttestCall? ==> f in s.record.facts
  {
  }

  /** Only collator and submitter bring an event past its quorum or call AttestChallenge. */
  lemma {:induction false} QuietStep(c: Config, s: System, step: Step, id: uint64)
    requires Enabled(s, step) && !step.Collator? && !step.Submitter? && OrderInv(s, id)
    ensures PastQuorum(Next(c, s, step), id) ==> PastQuorum(s, id)
    ensures Next(c, s, step).submitter.current == s.submitter.current || Next(c, s, step).submitter.current == None
    ensures forall f :: f in Next(c, s, step).record.facts && f.AttestCall? ==> f in s.record.facts
  {
    if step.Broadcaster? {
      BroadcasterQuiet(c, s, step.b, id);
    } else {
      QuietStage(c, s, step, id);
      CollatorUntouched(c, s, step, id);
    }
  }

  lemma {:induction false} QuietLoopsKeepQuorum(c: Config, s: System, step: Step, id: uint64, validators: seq<Bytes>)
    requires Enabled(s, step) && !step.Collator? && !step.Submitter?
    requires OrderInv(s, id) && QuorumInv(c, s, id, validators) && VotesInv(s)
    requires KeepsVerdict(s, Next(c, s, step), id)
    ensures QuorumInv(c, Next(c, s, step), id, validators)
  {
    VotesStep(c, s, step);
    QuietStep(c, s, step, id);
    FrameQuorum(c, s, Next(c, s, step), id, validators);
  }

  lemma {:induction false} QuorumHolds(c: Config, steps: seq<Step>, id: uint64, validators: seq<Bytes>)
    requires Possible(c, steps) && c.ownKey in validators
    requires forall k :: 0 <= k < |steps| ==> UsesValidators(steps[k], validators)
    ensures QuorumInv(c, Exec(c, steps), id, validators) && VotersInv(Exec(c, steps), validators)
  {
    if steps != [] {
      var front, step := steps[..|steps| - 1], steps[|steps| - 1];
      var s := Exec(c, front);
      LastStep(c, steps);
      QuorumHolds(c, front, id, validators);
      VotersStep(c, s, step, validators);
      VotesHold(c, front);
      CertHolds(c, front, id);
      StepFacts(c, steps, id);
      MovesKeepVerdict(s, Exec(c, steps), id, step.AttestMonitor?);
      match step
      case Collator(l) => CollatorKeepsQuorum(c, s, l, id, validators);
      case Submitter(t) =>
        if t.Prepare? { OrderHolds(c, front, t.id); CertHolds(c, front, t.id); }
        SubmitterKeepsQuorum(c, s, t, id, validators);
      case _ => QuietLoopsKeepQuorum(c, s, step, id, validators);
    }
  }

  /** For every event that waits for votes, the integer test is the exact two-thirds test, and the early return for one
      validator gives the answer the count would give. */
  lemma QuorumTestExact(c: Config, steps: seq<Step>, id: uint64, n: nat)
    requires Possible(c, steps) && StageOf(Exec(c, steps), id) == SelfVoted
    ensures Known(Exec(c, steps), id)
    ensures var count := VoteCount(c, Exec(c, steps), id);
      && (MoreThanTwoThirds(count, n) <==> 3 * count > 2 * n)
      && (n == 1 ==> MoreThanTwoThirds(count, n))
  {
    CertHolds(c, steps, id);
    SingleValidatorShortcut(c, Exec(c, steps), id, [c.ownKey]);
  }

  /** Every AttestChallenge call carries a bitset that names more than two thirds of the validators, one per aggregated
      signature, and names exactly the keys that signed. */
  lemma SubmittedWithQuorum(c: Config, steps: seq<Step>, f: Fact, validators: seq<Bytes>)
    requires Possible(c, steps) && c.ownKey in validators && DistinctValidators(validators)
    requires forall k :: 0 <= k < |steps| ==> UsesValidators(steps[k], validators)
    requires f in Exec(c, steps).record.facts && f.AttestCall?
    ensures 3 * |f.args.bits| > 2 * |validators| && |f.args.bits| == |f.votes|
    ensures NamedBy(f.args.bits, validators) == SignersIn(Aggregate(f.votes))
  {
    QuorumHolds(c, steps, f.id, validators);
    CertHolds(c, steps, f.id);
    BitsetSize(f.votes, validators);
    BitsetNamesSigners(f.votes, validators);
  }

  /** Two submissions, of this node in any runs over the same validators, share more than a third of the validators. */
  lemma SubmittersOverlap(c1: Config, run1: seq<Step>, f1: Fact, c2: Config, run2: seq<Step>, f2: Fact,
      validators: seq<Bytes>)
    requires Possible(c1, run1) && c1.ownKey in validators && Possible(c2, run2) && c2.ownKey in validators
    requires DistinctValidators(validators)
    requires forall k :: 0 <= k < |run1| ==> UsesValidators(run1[k], validators)
    requires forall k :: 0 <= k < |run2| ==> UsesValidators(run2[k], validators)
    requires f1 in Exec(c1, run1).record.facts && f1.AttestCall? && f2 in Exec(c2, run2).record.facts && f2.AttestCall?
    ensures 3 * |f1.args.bits * f2.args.bits| > |validators|
  {
    SubmittedWithQuorum(c1, run1, f1, validators);
    SubmittedWithQuorum(c2, run2, f2, validators);
    QuorumHolds(c1, run1, f1.id, validators);
    QuorumHolds(c2, run2, f2.id, validators);
    CertHolds(c1, run1, f1.id);
    CertHolds(c2, run2, f2.id);
    QuorumsIntersect(f1.args.bits, f2.args.bits, |validators|);
  }
}
