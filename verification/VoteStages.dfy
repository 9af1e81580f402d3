/** The vote package: which events to vote on, signing and broadcasting, collecting from the pool, and collating. */
module VoteStages {
  import opened Types
  import opened Store
  import opened EventHash
  import opened Dao
  import opened Pipeline

  // ---------------------------------------------------------------------------------------------
  // data_provider.go

  /** The rows this node votes on among those a query returned. */
  function VotableRows(table: map<uint64, Event>, heartbeat: nat): map<uint64, Event>
    requires heartbeat > 0
  {
    map id | id in table && Votable(table[id], heartbeat) :: table[id]
  }

  /** The filter of the loop, in row order. */
  function SelfVotes(rows: seq<Event>, heartbeat: nat): seq<Event>
    requires heartbeat > 0
  {
    if rows == [] then [] else
      SelfVotes(rows[..|rows| - 1], heartbeat) + if Votable(rows[|rows| - 1], heartbeat) then [rows[|rows| - 1]] else []
  }

  /** Rows voted on only because they are heartbeats. */
  function HeartbeatCount(rows: seq<Event>): nat {
    if rows == [] then 0 else
      HeartbeatCount(rows[..|rows| - 1]) + if rows[|rows| - 1].verifyResult != HashMismatched then 1 else 0
  }

  /** Positions of the rows that are no proven faults. */
  function NotMismatched(rows: seq<Event>): set<nat> {
    set i: nat | i < |rows| && rows[i].verifyResult != HashMismatched
  }

  lemma {:induction false} HeartbeatsCounted(rows: seq<Event>)
    ensures HeartbeatCount(rows) == |NotMismatched(rows)|
  {
    if rows == [] {
      assert NotMismatched(rows) == {};
    } else {
      var front, n := rows[..|rows| - 1], |rows| - 1;
      HeartbeatsCounted(front);
      assert NotMismatched(rows) == NotMismatched(front) + if rows[n].verifyResult != HashMismatched then {n} else {};
    }
  }

  lemma {:induction false} SelfVotesMembers(rows: seq<Event>, heartbeat: nat)
    requires heartbeat > 0 && InIdOrder(rows)
    ensures forall e :: e in SelfVotes(rows, heartbeat) <==> e in rows && Votable(e, heartbeat)
    ensures InIdOrder(SelfVotes(rows, heartbeat))
  {
    if rows != [] {
      var front, last := rows[..|rows| - 1], rows[|rows| - 1];
      SelfVotesMembers(front, heartbeat);
      assert rows == front + [last];
      var kept := SelfVotes(front, heartbeat);
      forall i | 0 <= i < |kept| ensures kept[i].info.challengeId < last.info.challengeId {
        assert kept[i] in front;
      }
    }
  }

  /** Filtering a query's rows gives exactly its votable rows, still in id order; the last row has the largest id. */
  lemma SelfVotesAscending(rows: seq<Event>, table: map<uint64, Event>, heartbeat: nat)
    requires heartbeat > 0 && Ascending(rows, table) && forall id :: id in table ==> table[id].info.challengeId == id
    ensures Ascending(SelfVotes(rows, heartbeat), VotableRows(table, heartbeat))
    ensures forall id :: id in table ==> rows != [] && id <= rows[|rows| - 1].info.challengeId
  {
    SelfVotesMembers(rows, heartbeat);
    forall id | id in table ensures rows != [] && id <= rows[|rows| - 1].info.challengeId {
      assert table[id] in rows;
    }
  }

  predicate FilteredUpTo(rows: seq<Event>, i: nat, heartbeat: nat, kept: seq<Event>, count: nat)
    requires heartbeat > 0 && i <= |rows|
  {
    kept == SelfVotes(rows[..i], heartbeat) && count == HeartbeatCount(kept)
  }

  lemma {:induction false} OneMoreRow(rows: seq<Event>, i: nat, heartbeat: nat, kept: seq<Event>, count: nat)
    requires heartbeat > 0 && i < |rows| && FilteredUpTo(rows, i, heartbeat, kept, count)
    ensures var e := rows[i];
      if e.verifyResult == HashMismatched then FilteredUpTo(rows, i + 1, heartbeat, kept + [e], count)
      else if e.info.challengeId % heartbeat == 0 then FilteredUpTo(rows, i + 1, heartbeat, kept + [e], count + 1)
      else FilteredUpTo(rows, i + 1, heartbeat, kept, count)
  {
    assert rows[..i + 1][..i] == rows[..i] && (kept + [rows[i]])[..|kept|] == kept;
  }

  lemma {:induction false} AllRows(rows: seq<Event>, heartbeat: nat, kept: seq<Event>, count: nat)
    requires heartbeat > 0 && FilteredUpTo(rows, |rows|, heartbeat, kept, count)
    ensures kept == SelfVotes(rows, heartbeat) && count == HeartbeatCount(kept)
  {
    assert rows[..|rows|] == rows;
  }

  /** Exactly the unexpired verified rows that are proven faults or heartbeats, in id order. */
  ghost predicate OwnVotesOf(kept: seq<Event>, events: map<uint64, Event>, height: nat, heartbeat: nat)
    requires heartbeat > 0
  {
    && (forall i, j :: 0 <= i < j < |kept| ==> kept[i].info.challengeId < kept[j].info.challengeId)
    && (forall e :: e in kept <==>
          && e in events.Values && e.info.expiredHeight > height && e.status == Verified
          && (e.verifyResult == HashMismatched || e.info.challengeId % heartbeat == 0))
  }

  /** The greatest id of the unexpired verified rows, or what it was before when there are none. */
  ghost predicate LastOf(events: map<uint64, Event>, height: nat, before: uint64, last: uint64) {
    && (forall e :: e in events.Values && e.info.expiredHeight > height && e.status == Verified ==>
          e.info.challengeId <= last)
    && (last == before || exists e :: e in events.Values && e.info.expiredHeight > height && e.status == Verified
                                      && e.info.challengeId == last)
  }

  lemma FilterMeaning(rows: seq<Event>, events: map<uint64, Event>, height: nat, heartbeat: nat, before: uint64)
    requires heartbeat > 0 && Ascending(rows, Unexpired(events, height, Verified))
    requires forall id :: id in events ==> events[id].info.challengeId == id
    ensures OwnVotesOf(SelfVotes(rows, heartbeat), events, height, heartbeat)
    ensures HeartbeatCount(SelfVotes(rows, heartbeat)) == |NotMismatched(SelfVotes(rows, heartbeat))|
    ensures LastOf(events, height, before, if rows == [] then before else rows[|rows| - 1].info.challengeId)
  {
    SelfVotesMembers(rows, heartbeat);
    HeartbeatsCounted(SelfVotes(rows, heartbeat));
    forall e ensures e in rows <==> e in events.Values && e.info.expiredHeight > height && e.status == Verified {
      if e in events.Values {
        var id :| id in events && events[id] == e;
      }
    }
    if rows != [] { assert rows[|rows| - 1] in rows; }
  }

  class DataHandler {
    const db: Database
    var lastIdForSelfVote: uint64

    constructor (db: Database)
      ensures this.db == db && lastIdForSelfVote == 0
    {
      this.db, lastIdForSelfVote := db, 0;
    }

    /** A zero heartbeat interval makes the source divide by zero. */
    method FetchEventsForSelfVote(height: nat, heartbeat: Option<nat>, fetchFault: bool)
      returns (result: Option<(seq<Event>, nat)>)
      requires db.Valid() && heartbeat != Some(0)
      modifies this`lastIdForSelfVote
      ensures result.None? <==> fetchFault || heartbeat.None?
      ensures result.Some? ==>
        && Ascending(result.value.0, VotableRows(Unexpired(db.events, height, Verified), heartbeat.value))
        && result.value.1 == HeartbeatCount(result.value.0)
      ensures result.Some? ==>
        && OwnVotesOf(result.value.0, db.events, height, heartbeat.value)
        && result.value.1 == |NotMismatched(result.value.0)|
        && LastOf(db.events, height, old(lastIdForSelfVote), lastIdForSelfVote)
      ensures result.None? ==> lastIdForSelfVote == old(lastIdForSelfVote)
    {
      var events := db.GetUnexpiredEventsByStatus(height, Verified, fetchFault);
      if events.None? || heartbeat.None? {
        return None;
      }
      var rows := events.value;
      var kept, heartbeatEventCount := Filter(rows, heartbeat.value);
      SelfVotesAscending(rows, Unexpired(db.events, height, Verified), heartbeat.value);
      FilterMeaning(rows, db.events, height, heartbeat.value, old(lastIdForSelfVote));
      result := Some((kept, heartbeatEventCount));
    }

    method Filter(rows: seq<Event>, heartbeat: nat) returns (kept: seq<Event>, heartbeatEventCount: nat)
      requires heartbeat > 0
      modifies this`lastIdForSelfVote
      ensures kept == SelfVotes(rows, heartbeat) && heartbeatEventCount == HeartbeatCount(kept)
      ensures lastIdForSelfVote == if rows == [] then old(lastIdForSelfVote) else rows[|rows| - 1].info.challengeId
    {
      kept, heartbeatEventCount := [], 0;
      for i := 0 to |rows|
        invariant FilteredUpTo(rows, i, heartbeat, kept, heartbeatEventCount)
        invariant lastIdForSelfVote == if i == 0 then old(lastIdForSelfVote) else rows[i - 1].info.challengeId
      {
        var e := rows[i];
        OneMoreRow(rows, i, heartbeat, kept, heartbeatEventCount);
        if e.verifyResult == HashMismatched {
          kept := kept + [e];
        } else if e.info.challengeId % heartbeat == 0 {
          kept := kept + [e];
          heartbeatEventCount := heartbeatEventCount + 1;
        }
        lastIdForSelfVote := e.info.challengeId;
      }
      AllRows(rows, heartbeat, kept, heartbeatEventCount);
    }
  }

  // ---------------------------------------------------------------------------------------------
  // vote_broadcaster.go

  class VoteBroadcaster {
    const db: Database
    const c: Config
    var cachedLocalVote: map<uint64, Signature>

    constructor (db: Database, c: Config)
      ensures this.db == db && this.c == c && cachedLocalVote == map[]
    {
      this.db, this.c, cachedLocalVote := db, c, map[];
    }

    /** constructVoteAndSign: the signed vote comes back even when saving it failed. */
    method ConstructVoteAndSign(ev: Event, insertFault: bool, updateFault: bool)
      returns (signature: Signature, ok: bool, duplicate: bool)
      requires db.Valid() && ev.verifyResult != Unknown
      modifies db
      ensures db.Valid() && signature == Signature(c.ownKey, Digest(c, ev).value)
      ensures var v := OwnVote(c, ev.info.challengeId, Digest(c, ev).value);
        && (duplicate <==> !insertFault && VoteExists(old(db.votes), v.eventHash, v.pubKey))
        && (ok <==> !insertFault && !updateFault && !duplicate)
        && db.State() == if ok then AddOwnVote(old(db.State()), v, ev.info.challengeId) else old(db.State())
      // spelled out: the vote names the event, carries this node's key and signature, and the row becomes SelfVoted
      ensures var id, hash := ev.info.challengeId, EventDigest(c.keccak, c.chainId, ev).value;
        && db.votes == (if ok then old(db.votes) + [Vote(id, Hex(c.ownKey), Signature(c.ownKey, hash), Hex(hash))]
                        else old(db.votes))
        && OnlyRow(id, old(db.events), db.events) && db.blocks == old(db.blocks)
        && (id in db.events ==>
              db.events[id] == if ok then old(db.events[id]).(status := SelfVoted) else old(db.events[id]))
    {
      var eventHash := CalculateEventHash(c.keccak, c.chainId, ev);
      signature := Signature(c.ownKey, eventHash.value);
      var v := EntityToDto(PoolVote(c.ownKey, signature, eventHash.value), ev.info.challengeId);
      ok, duplicate := db.SaveVoteAndUpdateEventStatus(v, ev.info.challengeId, insertFault, updateFault);
    }

    /** One event of the loop: a local vote is made and saved at most once while it stays cached, a vote refused as
        duplicate is kept, and what is sent is the cached vote. */
    method HandleEvent(ev: Event, insertFault: bool, updateFault: bool, height: Option<nat>)
      returns (sent: Option<Signature>)
      requires db.Valid() && ev.verifyResult != Unknown
      modifies this`cachedLocalVote, db
      ensures db.Valid()
      ensures var id := ev.info.challengeId;
        var v := OwnVote(c, id, Digest(c, ev).value);
        var duplicate := !insertFault && VoteExists(old(db.votes), v.eventHash, v.pubKey);
        var saved := id !in old(cachedLocalVote) && !insertFault && !updateFault && !duplicate;
        var local := if id in old(cachedLocalVote) then Some(old(cachedLocalVote)[id])
                     else if saved || duplicate then Some(v.signature) else None;
        && db.State() == (if saved then AddOwnVote(old(db.State()), v, id) else old(db.State()))
        && sent == (if height.Some? && height.value <= ev.info.expiredHeight then local else None)
        && cachedLocalVote ==
             if local.None? then old(cachedLocalVote)
             else if height.Some? && height.value > ev.info.expiredHeight then old(cachedLocalVote) - {id}
             else old(cachedLocalVote)[id := local.value]
    {
      var id := ev.info.challengeId;
      if id !in cachedLocalVote {
        var signature, ok, duplicate := ConstructVoteAndSign(ev, insertFault, updateFault);
        if !ok && !duplicate {
          return None;
        }
        cachedLocalVote := cachedLocalVote[id := signature];
      }
      var localVote := cachedLocalVote[id];
      if height.None? {
        return None;
      }
      if height.value > ev.info.expiredHeight {
        cachedLocalVote := cachedLocalVote - {id};
        return None;
      }
      sent := Some(localVote);
    }
  }

  // ---------------------------------------------------------------------------------------------
  // vote_collator.go

  class VoteCollator {
    const db: Database
    const c: Config

    constructor (db: Database, c: Config)
      ensures this.db == db && this.c == c
    {
      this.db, this.c := db, c;
    }

    /** Succeeds exactly when strictly more than two thirds of the validators have a stored vote for the event's hash,
        or there is a single validator; `height` and `again` are the two height queries. */
    method CollateForSingleEvent(ev: Event, height: Option<nat>, validators: Option<seq<Bytes>>, again: Option<nat>,
        fetchFault: bool, storeFault: bool)
      returns (ok: bool)
      requires db.Valid() && ev.verifyResult != Unknown
      modifies db
      ensures db.Valid()
      ensures ok <==>
        && height.Some? && height.value <= ev.info.expiredHeight && validators.Some? && !storeFault
        && (|validators.value| == 1 ||
             (again.Some? && again.value <= ev.info.expiredHeight && !fetchFault &&
              3 * |VotesFor(old(db.votes), Hex(Digest(c, ev).value))| > 2 * |validators.value|))
      ensures db.State() ==
        if ok then old(db.State()).(events := SetStatus(old(db.events), ev.info.challengeId, EnoughVotesCollected))
        else old(db.State())
    {
      ok := false;
      if height.None? || height.value > ev.info.expiredHeight {
        return;
      }
      var enough := PrepareEnoughValidVotesForEvent(ev, validators, again, fetchFault);
      if !enough {
        return;
      }
      ok := db.UpdateEventStatus(ev.info.challengeId, EnoughVotesCollected, storeFault);
    }

    method PrepareEnoughValidVotesForEvent(ev: Event, validators: Option<seq<Bytes>>, height: Option<nat>,
        fetchFault: bool)
      returns (ok: bool)
      requires ev.verifyResult != Unknown
      ensures ok <==>
        && validators.Some?
        && (|validators.value| == 1 ||
             (height.Some? && height.value <= ev.info.expiredHeight && !fetchFault &&
              3 * |VotesFor(db.votes, Hex(Digest(c, ev).value))| > 2 * |validators.value|))
    {
      if validators.None? {
        return false;
      }
      if |validators.value| == 1 {
        return true;
      }
      if height.None? || height.value > ev.info.expiredHeight {
        return false;
      }
      var eventHash := CalculateEventHash(c.keccak, c.chainId, ev);
      var queriedVotes := db.GetVotesByEventHash(Hex(eventHash.value), fetchFault);
      if queriedVotes.None? {
        return false;
      }
      ok := |queriedVotes.value| > |validators.value| * 2 / 3;
    }
  }

  // ---------------------------------------------------------------------------------------------
  // vote_collector.go

  /** A vote worth storing: a validator's, and signed. */
  predicate Genuine(v: PoolVote, validators: seq<Bytes>) {
    v.pubKey in validators && v.signature == Signature(v.pubKey, v.eventHash)
  }

  /** The row keeps key and hash of a validator's vote, in hexadecimal, and its signature, which is over that hash. */
  predicate Stores(p: PoolVote, validators: seq<Bytes>, row: Vote) {
    && p.pubKey in validators && p.signature == Signature(p.pubKey, p.eventHash)
    && row == Vote(0, Hex(p.pubKey), p.signature, Hex(p.eventHash))
  }

  /** A row made from a genuine vote of this pool. */
  predicate FromPool(row: Vote, pool: seq<PoolVote>, validators: seq<Bytes>) {
    exists p :: p in pool && Stores(p, validators, row)
  }

  class VoteCollector {
    const db: Database

    constructor (db: Database)
      ensures this.db == db
    {
      this.db := db;
    }

    method IsVotePubKeyValid(v: PoolVote, validators: seq<Bytes>) returns (valid: bool)
      ensures valid <==> v.pubKey in validators
    {
      for i := 0 to |validators|
        invariant v.pubKey !in validators[..i]
      {
        if v.pubKey == validators[i] {
          return true;
        }
      }
      assert validators[..|validators|] == validators;
      return false;
    }

    /** One vote of the pass: stored unless it is known, not genuine, or its lookup failed. */
    method CollectOne(v: PoolVote, validators: seq<Bytes>, lookupFault: bool, storeFault: bool) returns (proceed: bool)
      requires db.Valid()
      modifies db
      ensures db.Valid()
      ensures db.State() == old(db.State()) ||
        (Genuine(v, validators) && db.State() == AddVote(old(db.State()), EntityToDto(v, 0)))
      // spelled out: a validator's vote, signed over its own hash, stored with both in hexadecimal
      ensures db.events == old(db.events) && db.blocks == old(db.blocks)
      ensures db.votes == old(db.votes) ||
        var row := Vote(0, Hex(v.pubKey), v.signature, Hex(v.eventHash));
        Stores(v, validators, row) && db.votes == old(db.votes) + [row]
      ensures proceed && !lookupFault && v.pubKey in validators && v.signature == Signature(v.pubKey, v.eventHash) ==>
        exists w :: w in db.votes && w.eventHash == Hex(v.eventHash) && w.pubKey == Hex(v.pubKey)
      ensures UniquePairs(old(db.votes)) ==> UniquePairs(db.votes)
      ensures proceed && !lookupFault && Genuine(v, validators) ==>
        VoteExists(db.votes, Hex(v.eventHash), Hex(v.pubKey))
      ensures !proceed ==> storeFault && db.State() == old(db.State())
    {
      var known := db.IsVoteExists(Hex(v.eventHash), Hex(v.pubKey), lookupFault);
      if known != Some(false) {
        return true;
      }
      var valid := IsVotePubKeyValid(v, validators);
      if !valid || !VerifySignature(v) {
        return true;
      }
      proceed := db.SaveVote(EntityToDto(v, 0), storeFault);
      if proceed {
        assert db.votes[|db.votes| - 1] == EntityToDto(v, 0);
      }
    }

    /** One pass over the pool. Faults are per position: a failed lookup skips the vote, a failed insert ends it. */
    method CollectVotes(queried: Option<seq<PoolVote>>, validators: Option<seq<Bytes>>, lookupFaults: set<nat>,
        storeFaults: set<nat>)
      returns (ok: bool)
      requires db.Valid()
      modifies db
      ensures db.Valid() && db.blocks == old(db.blocks) && db.events == old(db.events)
      // rows are only appended, stay unique, and each new one is a genuine vote of the pool
      ensures old(db.votes) <= db.votes
      ensures UniquePairs(old(db.votes)) ==> UniquePairs(db.votes)
      ensures forall i :: |old(db.votes)| <= i < |db.votes| ==>
        queried.Some? && validators.Some? && FromPool(db.votes[i], queried.value, validators.value)
      // a successful pass leaves no genuine vote out, unless its lookup failed
      ensures ok && queried.Some? && queried.value != [] ==> validators.Some?
      ensures ok && queried.Some? && validators.Some? ==>
        forall k :: 0 <= k < |queried.value| && k !in lookupFaults && Genuine(queried.value[k], validators.value) ==>
          VoteExists(db.votes, Hex(queried.value[k].eventHash), Hex(queried.value[k].pubKey))
      ensures ok || storeFaults != {} || queried.None? || validators.None?
    {
      if queried.None? {
        return false;
      }
      var votes := queried.value;
      if |votes| == 0 {
        return true;
      }
      if validators.None? {
        return false;
      }
      for i := 0 to |votes|
        invariant db.Valid() && db.blocks == old(db.blocks) && db.events == old(db.events)
        invariant old(db.votes) <= db.votes
        invariant UniquePairs(old(db.votes)) ==> UniquePairs(db.votes)
        invariant forall n :: |old(db.votes)| <= n < |db.votes| ==>
          FromPool(db.votes[n], votes, validators.value)
        invariant forall k :: 0 <= k < i && k !in lookupFaults && Genuine(votes[k], validators.value) ==>
          VoteExists(db.votes, Hex(votes[k].eventHash), Hex(votes[k].pubKey))
      {
        ghost var before := db.votes;
        var saved := CollectOne(votes[i], validators.value, i in lookupFaults, i in storeFaults);
        if !saved {
          assert db.votes == before;
          return false;
        }
        if db.votes != before { assert FromPool(db.votes[|before|], votes, validators.value); }
        assert forall w :: w in before ==> w in db.votes;
      }
      return true;
    }
  }
}
