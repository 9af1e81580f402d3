/** Everything this node signs, collates or submits for one challenge carries the same, justified event hash. */
module VoteSafety {
  import opened Types
  import opened Store
  import opened EventHash
  import opened Certification
  import opened Pipeline
  import opened PipelineOrder
  import opened Settlement

  // ---------------------------------------------------------------------------------------------
  // The votes table

  ghost predicate VotesInv(s: System) {
    && (forall v :: v in s.db.votes ==> VoteSound(v))
    && UniquePairs(s.db.votes)
    && (s.collector.checked.Some? ==> VoteSound(s.collector.checked.value))
  }

  /** Loops that neither vote nor collect leave the votes alone. */
  lemma {:induction false} VotesUntouched(c: Config, s: System, step: Step)
    requires Enabled(s, step) && !step.Broadcaster? && !step.Collector?
    ensures Next(c, s, step).db.votes == s.db.votes
    ensures Next(c, s, step).collector == s.collector || Next(c, s, step).collector == INIT.collector
  {
    match step
    case Monitor(m) =>
    case Verifier(v) =>
    case Collator(l) =>
    case Submitter(t) =>
    case AttestMonitor(a) =>
    case Restart =>
  }

  lemma {:induction false} AddedVote(votes: seq<Vote>, v: Vote)
    requires UniquePairs(votes) && !VoteExists(votes, v.eventHash, v.pubKey)
    ensures UniquePairs(votes + [v])
  {
    forall i | 0 <= i < |votes| ensures votes[i].eventHash != v.eventHash || votes[i].pubKey != v.pubKey {
      assert votes[i] in votes;
    }
  }

  lemma {:induction false} BroadcasterKeepsVotes(c: Config, s: System, step: BroadcasterStep)
    requires BroadcasterEnabled(s, step) && VotesInv(s)
    ensures VotesInv(BroadcasterNext(c, s, step)) && s.db.votes <= BroadcasterNext(c, s, step).db.votes
  {
    if step.SignAndSave? && Digest(c, s.broadcaster.batch[step.id]).Some? {
      var v := OwnVote(c, step.id, Digest(c, s.broadcaster.batch[step.id]).value);
      if !VoteExists(s.db.votes, v.eventHash, v.pubKey) { AddedVote(s.db.votes, v); }
    }
  }

  lemma {:induction false} CollectorKeepsVotes(s: System, step: CollectorStep)
    requires CollectorEnabled(s, step) && VotesInv(s)
    ensures VotesInv(CollectorNext(s, step)) && s.db.votes <= CollectorNext(s, step).db.votes
  {
    if step.InsertVote? {
      var v := s.collector.checked.value;
      if !VoteExists(s.db.votes, v.eventHash, v.pubKey) { AddedVote(s.db.votes, v); }
    }
  }

  /** Rows are only ever appended. */
  lemma {:induction false} VotesStep(c: Config, s: System, step: Step)
    requires Enabled(s, step) && VotesInv(s)
    ensures VotesInv(Next(c, s, step)) && s.db.votes <= Next(c, s, step).db.votes
  {
    match step
    case Broadcaster(b) => BroadcasterKeepsVotes(c, s, b);
    case Collector(k) => CollectorKeepsVotes(s, k);
    case _ => VotesUntouched(c, s, step);
  }

  // ---------------------------------------------------------------------------------------------
  // One event

  predicate Known(s: System, id: uint64) {
    id in s.db.events && s.db.events[id].verifyResult != Unknown
  }

  /** The one hash this node may vote on for a row with a verdict. */
  function HashOf(c: Config, s: System, id: uint64): Bytes
    requires Known(s, id)
  {
    Digest(c, s.db.events[id]).value
  }

  predicate SelfVotedBefore(stage: EventStatus) {
    stage == SelfVoted || stage == EnoughVotesCollected || stage == Submitted || stage == DuplicatedSlash
  }

  /** Votes fetched for a hash: valid signatures over exactly that hash, one per key. */
  ghost predicate CertifiedVotes(votes: seq<Vote>, digest: Bytes) {
    DistinctKeys(votes) && forall v :: v in votes ==> VoteSound(v) && v.eventHash == Hex(digest)
  }

  /** What a recorded fact must say about a row with this announcement, verdict and hash. */
  ghost predicate FactTrue(f: Fact, e: Event, digest: Bytes) {
    match f
    case Signed(_, d) => d == digest
    case Collated(_, d) => d == digest
    case AttestSucceeded(_) => true
    case AttestCall(_, d, args, votes, validators) =>
      && d == digest && CertifiedVotes(votes, d)
      && VoteOption(e.verifyResult) == Some(args.result)
      && args == AttestArgs(e.info.challengeId, e.info.objectId, args.result, e.info.sp, e.info.challenger,
                            SignerBits(votes, validators))
  }

  ghost predicate FactsInv(c: Config, s: System, id: uint64) {
    forall f :: f in s.record.facts && f.id == id ==> Known(s, id) && FactTrue(f, s.db.events[id], HashOf(c, s, id))
  }

  ghost predicate CacheInv(c: Config, s: System, id: uint64) {
    && (id in s.broadcaster.cache ==>
          Known(s, id) && s.broadcaster.cache[id] == Signature(c.ownKey, HashOf(c, s, id)))
    && (id in s.submitter.cache ==> Known(s, id) && s.submitter.cache[id] == HashOf(c, s, id))
    && (Submitting(s, id) ==>
          && Known(s, id) && s.submitter.current.value.digest == HashOf(c, s, id)
          && CertifiedVotes(s.submitter.current.value.votes, HashOf(c, s, id)))
  }

  ghost predicate OwnVoteInv(c: Config, s: System, id: uint64) {
    SelfVotedBefore(StageOf(s, id)) ==>
      Known(s, id) && VoteExists(s.db.votes, Hex(HashOf(c, s, id)), Hex(c.ownKey))
  }

  ghost predicate CertInv(c: Config, s: System, id: uint64) {
    FactsInv(c, s, id) && CacheInv(c, s, id) && OwnVoteInv(c, s, id)
  }

  /** The verdict, hence the hash, survives any step. */
  predicate KeepsVerdict(s: System, s': System, id: uint64) {
    Known(s, id) ==> Known(s', id) && s'.db.events[id].info == s.db.events[id].info
                     && s'.db.events[id].verifyResult == s.db.events[id].verifyResult
  }

  lemma {:induction false} MovesKeepVerdict(s: System, s': System, id: uint64, byAttest: bool)
    requires RowInv(s, id) && RowMoves(s, s', id, byAttest)
    ensures KeepsVerdict(s, s', id)
  {
  }

  /** Certification survives a step that adds nothing to it. */
  lemma {:induction false} FrameCert(c: Config, s: System, s': System, id: uint64)
    requires CertInv(c, s, id) && KeepsVerdict(s, s', id)
    requires forall f :: f in s'.record.facts && f.id == id ==> f in s.record.facts
    requires id in s'.broadcaster.cache ==>
      id in s.broadcaster.cache && s'.broadcaster.cache[id] == s.broadcaster.cache[id]
    requires id in s'.submitter.cache ==> id in s.submitter.cache && s'.submitter.cache[id] == s.submitter.cache[id]
    requires Submitting(s', id) ==>
      && Submitting(s, id)
      && s'.submitter.current.value.digest == s.submitter.current.value.digest
      && s'.submitter.current.value.votes == s.submitter.current.value.votes
    requires SelfVotedBefore(StageOf(s', id)) ==> SelfVotedBefore(StageOf(s, id))
    requires s.db.votes <= s'.db.votes
    ensures CertInv(c, s', id)
  {
  }

  /** Loops that certify nothing leave all of that alone. */
  lemma {:induction false} QuietLoopsKeepCert(c: Config, s: System, step: Step, id: uint64)
    requires Enabled(s, step)
    requires step.Monitor? || step.Verifier? || step.Collector? || step.AttestMonitor? || step.Restart?
    requires CertInv(c, s, id) && KeepsVerdict(s, Next(c, s, step), id) && VotesInv(s)
    ensures CertInv(c, Next(c, s, step), id)
  {
    VotesStep(c, s, step);
    QuietStage(c, s, step, id);
    FrameCert(c, s, Next(c, s, step), id);
  }

  lemma {:induction false} QuietStage(c: Config, s: System, step: Step, id: uint64)
    requires Enabled(s, step)
    requires step.Monitor? || step.Verifier? || step.Collector? || step.AttestMonitor? || step.Restart?
    ensures var s' := Next(c, s, step);
      && s'.record.facts == s.record.facts
      && (s'.broadcaster == s.broadcaster || s'.broadcaster == INIT.broadcaster)
      && (s'.submitter == s.submitter || s'.submitter == INIT.submitter)
      && (SelfVotedBefore(StageOf(s', id)) ==> SelfVotedBefore(StageOf(s, id)))
  {
    match step
    case Monitor(m) =>
    case Verifier(v) =>
    case Collector(k) =>
    case AttestMonitor(a) =>
    case Restart =>
  }

  lemma {:induction false} SnapshotDigest(c: Config, s: System, id: uint64, ev: Event, stage: EventStatus)
    requires RowInv(s, id) && AtStage(s, id, ev, stage) && HasVerdict(stage)
    ensures Known(s, id) && Digest(c, ev) == Some(HashOf(c, s, id))
  {
  }

  lemma {:induction false} BroadcasterKeepsCert(c: Config, s: System, step: BroadcasterStep, id: uint64)
    requires BroadcasterEnabled(s, step) && OrderInv(s, id) && CertInv(c, s, id)
    requires step.SignAndSave? ==> OrderInv(s, step.id)
    requires KeepsVerdict(s, BroadcasterNext(c, s, step), id)
    ensures CertInv(c, BroadcasterNext(c, s, step), id)
    ensures BroadcasterNext(c, s, step).panicked == s.panicked
  {
    if step.SignAndSave? {
      SnapshotDigest(c, s, step.id, s.broadcaster.batch[step.id], Verified);
    } else {
      FrameCert(c, s, BroadcasterNext(c, s, step), id);
    }
  }

  lemma {:induction false} CollatorKeepsCert(c: Config, s: System, step: CollatorStep, id: uint64)
    requires CollatorEnabled(s, step) && OrderInv(s, id) && CertInv(c, s, id)
    requires step.CountVotes? ==> OrderInv(s, step.id)
    requires KeepsVerdict(s, CollatorNext(c, s, step), id)
    ensures CertInv(c, CollatorNext(c, s, step), id)
    ensures CollatorNext(c, s, step).panicked == s.panicked
  {
    if step.CountVotes? {
      SnapshotDigest(c, s, step.id, s.collator.tasks[step.id].ev, SelfVoted);
    } else {
      FrameCert(c, s, CollatorNext(c, s, step), id);
    }
  }

  /** The digest the submitter works with is the row's, whether it was cached or computed. */
  lemma {:induction false} SubmitDigest(c: Config, s: System, id: uint64)
    requires id in s.submitter.batch && OrderInv(s, id) && CertInv(c, s, id)
    ensures Known(s, id) && CachedDigest(c, s.submitter.cache, id, s.submitter.batch[id]) == Some(HashOf(c, s, id))
  {
    SnapshotDigest(c, s, id, s.submitter.batch[id], EnoughVotesCollected);
  }

  lemma {:induction false} FetchedVotesCertified(s: System, digest: Bytes)
    requires VotesInv(s)
    ensures CertifiedVotes(VotesFor(s.db.votes, Hex(digest)), digest)
  {
    VotesForSpec(s.db.votes, Hex(digest));
  }

  lemma {:induction false} SubmitterKeepsCert(c: Config, s: System, step: SubmitterStep, id: uint64)
    requires SubmitterEnabled(s, step) && OrderInv(s, id) && CertInv(c, s, id) && VotesInv(s)
    requires step.Prepare? ==> OrderInv(s, step.id) && CertInv(c, s, step.id)
    requires KeepsVerdict(s, SubmitterNext(c, s, step), id)
    ensures CertInv(c, SubmitterNext(c, s, step), id)
    ensures SubmitterNext(c, s, step).panicked == s.panicked
  {
    if step.Prepare? {
      SubmitDigest(c, s, step.id);
      FetchedVotesCertified(s, HashOf(c, s, step.id));
    } else if step.Attest? {
      AttestKeepsCert(c, s, step, id);
    } else {
      FrameCert(c, s, SubmitterNext(c, s, step), id);
    }
  }

  lemma {:induction false} AttestKeepsCert(c: Config, s: System, step: SubmitterStep, id: uint64)
    requires SubmitterEnabled(s, step) && step.Attest? && OrderInv(s, id) && CertInv(c, s, id)
    ensures CertInv(c, SubmitterNext(c, s, step), id)
  {
    var s' := SubmitterNext(c, s, step);
    if Submitting(s, id) {
      assert FactTrue(CallOf(s.submitter.current.value), s.db.events[id], HashOf(c, s, id));
    }
    assert s'.db == s.db;
  }

  lemma {:induction false} CertStep(c: Config, s: System, step: Step, id: uint64)
    requires Enabled(s, step) && OrderInv(s, id) && CertInv(c, s, id) && VotesInv(s)
    requires forall other :: About(step, other) ==> OrderInv(s, other) && CertInv(c, s, other)
    requires KeepsVerdict(s, Next(c, s, step), id)
    ensures CertInv(c, Next(c, s, step), id) && !Next(c, s, step).panicked
  {
    match step
    case Broadcaster(b) => BroadcasterKeepsCert(c, s, b, id);
    case Collator(l) => CollatorKeepsCert(c, s, l, id);
    case Submitter(t) => SubmitterKeepsCert(c, s, t, id);
    case _ => QuietLoopsKeepCert(c, s, step, id);
  }

  /** The event whose hash a step needs. */
  predicate About(step: Step, id: uint64) {
    match step
    case Broadcaster(SignAndSave(i, _)) => i == id
    case Collator(CountVotes(i, _)) => i == id
    case Submitter(Prepare(i, _)) => i == id
    case _ => false
  }

  lemma {:induction false} VotesHold(c: Config, steps: seq<Step>)
    requires Possible(c, steps)
    ensures VotesInv(Exec(c, steps))
  {
    if steps != [] {
      LastStep(c, steps);
      VotesHold(c, steps[..|steps| - 1]);
      VotesStep(c, Exec(c, steps[..|steps| - 1]), steps[|steps| - 1]);
    }
  }

  lemma {:induction false} CertHolds(c: Config, steps: seq<Step>, id: uint64)
    requires Possible(c, steps)
    ensures CertInv(c, Exec(c, steps), id) && !Exec(c, steps).panicked
  {
    if steps != [] {
      var front, step := steps[..|steps| - 1], steps[|steps| - 1];
      var s := Exec(c, front);
      LastStep(c, steps);
      CertHolds(c, front, id);
      VotesHold(c, front);
      StepFacts(c, steps, id);
      MovesKeepVerdict(s, Exec(c, steps), id, step.AttestMonitor?);
      forall other | About(step, other) ensures OrderInv(s, other) && CertInv(c, s, other) {
        OrderHolds(c, front, other);
        CertHolds(c, front, other);
      }
      CertStep(c, s, step, id);
    }
  }

  // ---------------------------------------------------------------------------------------------
  // Main results, for every run

  /** All hashes this node ever signs, collates or submits for one challenge id are equal. */
  lemma NoEquivocation(c: Config, steps: seq<Step>, f: Fact, g: Fact)
    requires Possible(c, steps)
    requires f in Exec(c, steps).record.facts && g in Exec(c, steps).record.facts
    requires f.id == g.id && !f.AttestSucceeded? && !g.AttestSucceeded?
    ensures f.digest == g.digest
  {
    CertHolds(c, steps, f.id);
  }

  /** The branch of CalculateEventHash that panics is never taken. */
  lemma PanicUnreachable(c: Config, steps: seq<Step>)
    requires Possible(c, steps)
    ensures !Exec(c, steps).panicked
  {
    CertHolds(c, steps, 0);
  }

  /** Whenever AttestChallenge is called, every aggregated signature signed the preimage of exactly the arguments
      passed, no validator contributed twice, and the arguments are those of the stored event. */
  lemma SubmissionMatchesSignatures(c: Config, steps: seq<Step>, f: Fact)
    requires Possible(c, steps) && f in Exec(c, steps).record.facts && f.AttestCall?
    ensures f.args.challengeId == f.id && f.args.bits == SignerBits(f.votes, f.validators)
    ensures f.id in Exec(c, steps).db.events
    ensures var e := Exec(c, steps).db.events[f.id];
      && f.args.objectId == e.info.objectId && f.args.sp == e.info.sp && f.args.challenger == e.info.challenger
      && (f.args.result == ChallengeSucceed <==> e.verifyResult == HashMismatched)
      && (f.args.result == ChallengeFailed <==> e.verifyResult == HashMatched)
    ensures var a := f.args; forall sig :: sig in Aggregate(f.votes) ==>
      sig.message == c.keccak(Preimage(c.chainId, a.challengeId, a.objectId, a.result, a.sp, a.challenger))
    ensures NamedBy(f.args.bits, f.validators) <= SignersIn(Aggregate(f.votes)) && DistinctKeys(f.votes)
  {
    CertHolds(c, steps, f.id);
    OrderHolds(c, steps, f.id);
    BitsetNamesSigners(f.votes, f.validators);
    forall sig | sig in Aggregate(f.votes) ensures sig.message == f.digest {
      AggregateMembers(f.votes, sig);
      HexInjective(sig.message, f.digest);
    }
  }

  /** What the aggregated signatures of a call with these arguments signed. */
  function VotedOn(c: Config, a: AttestArgs): Bytes {
    Preimage(c.chainId, a.challengeId, a.objectId, a.result, a.sp, a.challenger)
  }

  predicate SameSubject(a: AttestArgs, b: AttestArgs) {
    a.(bits := b.bits) == b
  }

  /** A signature cannot be used for two outcomes: when it is aggregated in two calls, of this or of another node of the
      same chain, they are about the same challenge with the same arguments, or else a hash collision is at hand. Only
      the address fields must be comparable; the id needs no such condition. */
  lemma SharedSignature(c1: Config, run1: seq<Step>, f1: Fact, c2: Config, run2: seq<Step>, f2: Fact, sig: Signature)
    requires Possible(c1, run1) && f1 in Exec(c1, run1).record.facts && f1.AttestCall? && sig in Aggregate(f1.votes)
    requires Possible(c2, run2) && f2 in Exec(c2, run2).record.facts && f2.AttestCall? && sig in Aggregate(f2.votes)
    requires c1.chainId == c2.chainId && c1.keccak == c2.keccak
    ensures f1.id != f2.id ==> Collision(c1.keccak, VotedOn(c1, f1.args), VotedOn(c2, f2.args))
    ensures |f1.args.sp| == |f2.args.sp| && |f1.args.challenger| == |f2.args.challenger| ==>
      SameSubject(f1.args, f2.args) || Collision(c1.keccak, VotedOn(c1, f1.args), VotedOn(c2, f2.args))
  {
    var a, b := f1.args, f2.args;
    SubmissionMatchesSignatures(c1, run1, f1);
    SubmissionMatchesSignatures(c2, run2, f2);
    if f1.id != f2.id {
      DistinctIdsDistinctPreimages(c1.chainId, a.challengeId, a.objectId, a.result, a.sp, a.challenger,
                                   b.challengeId, b.objectId, b.result, b.sp, b.challenger);
    }
    if |a.sp| == |b.sp| && |a.challenger| == |b.challenger| && VotedOn(c1, a) == VotedOn(c2, b) {
      PreimageInjective(c1.chainId, a.challengeId, a.objectId, a.result, a.sp, a.challenger,
                        b.challengeId, b.objectId, b.result, b.sp, b.challenger);
    }
  }

  /** Racing inserts never break the votes table, and an event that got past SelfVoted has this node's own vote. */
  lemma VotesTableSound(c: Config, steps: seq<Step>, id: uint64)
    requires Possible(c, steps)
    ensures UniquePairs(Exec(c, steps).db.votes)
    ensures forall v :: v in Exec(c, steps).db.votes ==> VoteSound(v)
    ensures SelfVoted in PipelineWrites(History(Exec(c, steps), id).writes) ==>
      Known(Exec(c, steps), id) &&
      VoteExists(Exec(c, steps).db.votes, Hex(HashOf(c, Exec(c, steps), id)), Hex(c.ownKey))
  {
    VotesHold(c, steps);
    CertHolds(c, steps, id);
    TrailHolds(c, steps, id);
    PathFacts(PipelineWrites(History(Exec(c, steps), id).writes));
  }

  /** Whatever was evicted or rolled back, a cached hash or local vote is the one the stored event calls for. */
  lemma CachesAgree(c: Config, steps: seq<Step>, id: uint64)
    requires Possible(c, steps)
    ensures var s := Exec(c, steps);
      && (id in s.submitter.cache ==> id in s.db.events && Digest(c, s.db.events[id]) == Some(s.submitter.cache[id]))
      && (id in s.broadcaster.cache ==>
            && id in s.db.events
            && Digest(c, s.db.events[id]).Some?
            && s.broadcaster.cache[id] == Signature(c.ownKey, Digest(c, s.db.events[id]).value))
  {
    CertHolds(c, steps, id);
  }
}
