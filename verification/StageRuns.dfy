/** How the sequential stages and the step system fit together. */
module StageRuns {
  import opened Types
  import opened Store
  import opened EventHash
  import opened Certification
  import opened Pipeline
  import opened AttestLoop

  /** Voting for one event undisturbed signs, stores and marks what VoteBroadcaster.ConstructVoteAndSign does; its loop
      then caches the vote unless saving failed with anything but a duplicate. */
  lemma VoteIsStep(c: Config, s: System, id: uint64, fault: bool)
    requires !s.panicked && id in s.broadcaster.batch && id !in s.broadcaster.cache
    requires s.broadcaster.batch[id].verifyResult != Unknown
    ensures var ev, step := s.broadcaster.batch[id], Broadcaster(SignAndSave(id, fault));
      var v := OwnVote(c, id, Digest(c, ev).value);
      var duplicate := !fault && VoteExists(s.db.votes, v.eventHash, v.pubKey);
      && Enabled(s, step) && !Next(c, s, step).panicked
      && v.signature == Signature(c.ownKey, Digest(c, ev).value)
      && Next(c, s, step).db == (if !fault && !duplicate then AddOwnVote(s.db, v, id) else s.db)
      && Next(c, s, step).broadcaster.cache ==
           (if fault then s.broadcaster.cache else s.broadcaster.cache[id := v.signature])
    ensures var hash := EventDigest(c.keccak, c.chainId, s.broadcaster.batch[id]).value;
      var s' := Next(c, s, Broadcaster(SignAndSave(id, fault)));
      var saved := !fault && forall w :: w in s.db.votes ==> w.eventHash != Hex(hash) || w.pubKey != Hex(c.ownKey);
      && s'.db.votes == (if saved then s.db.votes + [Vote(id, Hex(c.ownKey), Signature(c.ownKey, hash), Hex(hash))]
                         else s.db.votes)
      && s'.db.events.Keys == s.db.events.Keys
      && (forall k :: k in s.db.events && (k != id || !saved) ==> s'.db.events[k] == s.db.events[k])
      && (id in s.db.events && saved ==> s'.db.events[id] == s.db.events[id].(status := SelfVoted))
  {
  }

  /** Preparing one event takes the votes, validators and cached hash that Submitter.GetSignatureAndBitSet takes, so the
      aggregate and the bitset submitted later are the ones it returns. */
  lemma PrepareIsStep(c: Config, s: System, id: uint64, validators: seq<Bytes>)
    requires !s.panicked && id in s.submitter.batch && s.submitter.current == None
    requires s.submitter.batch[id].verifyResult != Unknown
    ensures var ev, step := s.submitter.batch[id], Submitter(Prepare(id, validators));
      var digest := CachedDigest(c, s.submitter.cache, id, ev).value;
      var votes := VotesFor(s.db.votes, Hex(digest));
      && Enabled(s, step) && !Next(c, s, step).panicked && Next(c, s, step).db == s.db
      && Next(c, s, step).submitter.cache == s.submitter.cache[id := digest]
      && Next(c, s, step).submitter.current.Some?
      && var task := Next(c, s, step).submitter.current.value;
      && Aggregate(task.votes) == Aggregate(votes) && ArgsOf(task).bits == SignerBits(votes, validators)
      && task.ev == ev && task.digest == digest && task.validators == validators
      && Some(digest) ==
           if id in s.submitter.cache then Some(s.submitter.cache[id]) else EventDigest(c.keccak, c.chainId, ev)
  {
  }

  /** A tick of the step system starts work on exactly the ids that AttestMonitor.Tick handles, and remembers the
      same. */
  lemma {:induction false} TickStarts(ids: seq<uint64>, remembered: set<uint64>, queryCount: nat, id: uint64)
    ensures var a := AfterTick(AttestState([], remembered, queryCount), ids);
      && (Lookup(id) in a.tasks <==> id in ids && id !in remembered)
      && a.queryCount == queryCount + 1
      && a.remembered == if queryCount + 1 > MAX_QUERY_COUNT then {} else remembered + set i | i in ids
  {
    if ids != [] {
      TickStarts(ids[..|ids| - 1], remembered, queryCount, id);
      assert ids == ids[..|ids| - 1] + [ids[|ids| - 1]];
    }
  }

  /** Collating one event in two steps stores EnoughVotesCollected exactly when VoteCollator.CollateForSingleEvent
      does. */
  lemma CollateIsSteps(c: Config, s: System, id: uint64, validators: seq<Bytes>)
    requires !s.panicked && id in s.collator.tasks && !s.collator.tasks[id].enough
    requires s.collator.tasks[id].ev.verifyResult != Unknown
    ensures var count, store := Collator(CountVotes(id, validators)), Collator(StoreEnough(id));
      var votes := |VotesFor(s.db.votes, Hex(Digest(c, s.collator.tasks[id].ev).value))|;
      && Enabled(s, count)
      && (Enabled(Next(c, s, count), store) <==> |validators| == 1 || 3 * votes > 2 * |validators|)
      && Next(c, s, count).db == s.db
      && (Enabled(Next(c, s, count), store) ==>
            RunFrom(c, s, [count, store]).Some? &&
            RunFrom(c, s, [count, store]).value.db == s.db.(events := SetStatus(s.db.events, id, EnoughVotesCollected)))
  {
    var count, store := Collator(CountVotes(id, validators)), Collator(StoreEnough(id));
    if Enabled(Next(c, s, count), store) { RunTwo(c, s, count, store); }
  }

  /** Handling one attested id undisturbed marks the row the way AttestMonitor.UpdateEventStatus does. */
  lemma AttestIsSteps(c: Config, s: System, i: nat, id: uint64)
    requires !s.panicked && i < |s.attest.tasks| && s.attest.tasks[i] == Lookup(id)
    ensures var read, write := AttestMonitor(AttestRead(i)), AttestMonitor(AttestWrite(i, true));
      && Enabled(s, read) && Next(c, s, read).db == s.db
      && (if Enabled(Next(c, s, read), write)
          then RunFrom(c, s, [read, write]).Some? &&
               RunFrom(c, s, [read, write]).value.db == s.db.(events := MarkedRows(s.db.events, {id}))
          else MarkedRows(s.db.events, {id}) == s.db.events)
    ensures var s' := Next(c, s, AttestMonitor(AttestRead(i)));
      s'.attest.tasks[i] ==
        if id !in s.db.events || s.db.events[id].status in {SelfAttested, Attested} then Finished
        else if s.db.events[id].status == Submitted then Store(id, SelfAttested)
        else Store(id, Attested)
  {
    var read, write := AttestMonitor(AttestRead(i)), AttestMonitor(AttestWrite(i, true));
    if Enabled(Next(c, s, read), write) {
      RunTwo(c, s, read, write);
      assert SetStatus(s.db.events, id, AttestedStatus(s.db.events[id].status).value) == MarkedRows(s.db.events, {id});
    }
  }

  /** Collecting one vote undisturbed stores it exactly when it is genuine and new, as VoteCollector.CollectOne does. */
  lemma CollectIsSteps(c: Config, s: System)
    requires !s.panicked && s.collector.polled != [] && s.collector.checked == None
    ensures var v := s.collector.polled[0];
      var check, insert := Collector(CheckVote), Collector(InsertVote(false));
      && Enabled(s, check) && Next(c, s, check).db == s.db
      && (Enabled(Next(c, s, check), insert) <==> Acceptable(s.db.votes, s.collector.validators, v))
      && (Enabled(Next(c, s, check), insert) <==>
            && (forall w :: w in s.db.votes ==> w.eventHash != Hex(v.eventHash) || w.pubKey != Hex(v.pubKey))
            && v.pubKey in s.collector.validators && v.signature == Signature(v.pubKey, v.eventHash))
      && (Acceptable(s.db.votes, s.collector.validators, v) ==>
            RunFrom(c, s, [check, insert]).Some? &&
            RunFrom(c, s, [check, insert]).value.db == AddVote(s.db, EntityToDto(v, 0)) ==
              s.db.(votes := s.db.votes + [Vote(0, Hex(v.pubKey), v.signature, Hex(v.eventHash))]))
  {
    var check, insert := Collector(CheckVote), Collector(InsertVote(false));
    if Acceptable(s.db.votes, s.collector.validators, s.collector.polled[0]) { RunTwo(c, s, check, insert); }
  }

  /** Polling one height undisturbed saves the block exactly when Monitor.Poll does. */
  lemma PollIsSteps(c: Config, s: System, latest: nat)
    requires !s.panicked && s.monitor.planned == None
    ensures var next := NextHeight(s.db.blocks, latest);
      var r := RunFrom(c, s, [Monitor(Plan(latest)), Monitor(SaveBlock(true))]);
      && r.Some?
      && r.value.db == (if Insertable(s.db, next, c.chain(next)) then InsertBlock(s.db, next, c.chain(next)) else s.db)
      && next == (if LatestHeight(s.db.blocks) > 0 then LatestHeight(s.db.blocks) + 1 else latest)
  {
    RunTwo(c, s, Monitor(Plan(latest)), Monitor(SaveBlock(true)));
  }

  // ---------------------------------------------------------------------------------------------
  // What a fetch picks up: exactly the unexpired rows of its status, as they are stored

  lemma FetchedForVerification(c: Config, s: System, height: nat, id: uint64)
    requires Enabled(s, Verifier(FetchUnverified(height)))
    ensures var tasks := Next(c, s, Verifier(FetchUnverified(height))).verifier.tasks;
      && (id in tasks <==>
            id in s.db.events && s.db.events[id].info.expiredHeight > height && s.db.events[id].status == Unprocessed)
      && (id in tasks ==> tasks[id] == VerifyTask(s.db.events[id], Fetched))
  {
  }

  /** Every proven fault and every heartbeat reaches the broadcaster, and nothing else does. */
  lemma FetchedForVote(c: Config, s: System, height: nat, heartbeat: nat, id: uint64)
    requires Enabled(s, Broadcaster(FetchForVote(height, heartbeat)))
    ensures var batch := Next(c, s, Broadcaster(FetchForVote(height, heartbeat))).broadcaster.batch;
      && (id in batch <==>
            && id in s.db.events && s.db.events[id].info.expiredHeight > height && s.db.events[id].status == Verified
            && (s.db.events[id].verifyResult == HashMismatched || s.db.events[id].info.challengeId % heartbeat == 0))
      && (id in batch ==> batch[id] == s.db.events[id])
  {
  }

  lemma FetchedForCollate(c: Config, s: System, height: nat, id: uint64)
    requires Enabled(s, Collator(FetchForCollate(height)))
    ensures var tasks := Next(c, s, Collator(FetchForCollate(height))).collator.tasks;
      && (id in tasks <==>
            id in s.db.events && s.db.events[id].info.expiredHeight > height && s.db.events[id].status == SelfVoted)
      && (id in tasks ==> tasks[id] == CollateTask(s.db.events[id], false))
  {
  }

  lemma FetchedForSubmit(c: Config, s: System, height: nat, id: uint64)
    requires Enabled(s, Submitter(FetchForSubmit(height)))
    ensures var batch := Next(c, s, Submitter(FetchForSubmit(height))).submitter.batch;
      && (id in batch <==>
            && id in s.db.events && s.db.events[id].info.expiredHeight > height
            && s.db.events[id].status == EnoughVotesCollected)
      && (id in batch ==> batch[id] == s.db.events[id])
  {
  }

  /** What one answer of the chain makes of the event under way: a refusal changes nothing and leaves it under way, a
      duplicated slash ends it, and a success ends it once Submitted is known to be stored. */
  lemma AnswerIsSteps(c: Config, s: System, reply: AttestReply, outcome: StoreOutcome)
    requires !s.panicked && s.submitter.current.Some? && s.submitter.current.value.phase == Trying
    ensures var id := s.submitter.current.value.ev.info.challengeId;
      var call, store := Submitter(Attest(reply)), Submitter(StoreSubmitted(outcome));
      var s1 := Next(c, s, call);
      && s1.db == s.db && (Enabled(s1, store) <==> reply != Rejected)
      && (reply == Rejected ==> s1.submitter == s.submitter)
      && (reply != Rejected ==>
            var s2 := Next(c, s1, store);
            && s2.db.votes == s.db.votes && s2.db.blocks == s.db.blocks && s2.db.events.Keys == s.db.events.Keys
            && (forall k :: k in s.db.events && (k != id || outcome == Lost) ==> s2.db.events[k] == s.db.events[k])
            && (id in s.db.events && outcome != Lost ==>
                  s2.db.events[id] ==
                    s.db.events[id].(status := if reply == Success then Submitted else DuplicatedSlash))
            && s2.submitter.current ==
                 (if reply == Success && outcome != Stored then s.submitter.current else None))
  {
  }
}
