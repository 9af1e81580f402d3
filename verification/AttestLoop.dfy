/** attest/attest_monitor.go: ids attested on chain are looked up once each and their rows marked. */
module AttestLoop {
  import opened Types
  import opened Store
  import opened Dao
  import opened Pipeline

  /** A row after the attest monitor handled it. */
  function Marked(e: Event): Event {
    match AttestedStatus(e.status)
    case None => e
    case Some(status) => e.(status := status)
  }

  /** The table after a tick: exactly the new ids whose calls succeeded are marked, by the status they had before. */
  function MarkedRows(events: map<uint64, Event>, newIds: set<uint64>): map<uint64, Event> {
    map id | id in events :: if id in newIds then Marked(events[id]) else events[id]
  }

  // ---------------------------------------------------------------------------------------------
  // The goroutines of one tick

  /** What the goroutine of `id` may rely on and must have done; `rows` is the table before the tick. */
  predicate TaskOk(rows: map<uint64, Event>, now: map<uint64, Event>, id: uint64, task: AttestTask,
      readFaults: set<uint64>, storeFaults: set<uint64>)
    requires now.Keys == rows.Keys
  {
    match task
    case Lookup(i) => i == id
    case Store(i, status) =>
      i == id && id in rows && id !in readFaults && AttestedStatus(rows[id].status) == Some(status)
    case Finished => id in readFaults + storeFaults || id !in rows || now[id] == Marked(rows[id])
  }

  predicate TickOk(rows: map<uint64, Event>, now: map<uint64, Event>, ids: seq<uint64>, tasks: seq<AttestTask>,
      readFaults: set<uint64>, storeFaults: set<uint64>)
  {
    && now.Keys == rows.Keys && |tasks| == |ids|
    && (forall id :: id in rows ==>
          now[id] == rows[id] || (now[id] == Marked(rows[id]) && id in ids && id !in readFaults + storeFaults))
    && forall i :: 0 <= i < |ids| ==> TaskOk(rows, now, ids[i], tasks[i], readFaults, storeFaults)
  }

  /** A read, a write that works and a write that fails all keep that. */
  lemma TaskMoves(rows: map<uint64, Event>, now: map<uint64, Event>, ids: seq<uint64>, tasks: seq<AttestTask>,
      readFaults: set<uint64>, storeFaults: set<uint64>, i: nat)
    requires TickOk(rows, now, ids, tasks, readFaults, storeFaults) && i < |ids| && !tasks[i].Finished?
    ensures var id := ids[i];
      tasks[i].Lookup? ==>
        var todo := if id in readFaults || id !in now then None else AttestedStatus(now[id].status);
        var next := if todo.Some? then Store(id, todo.value) else Finished;
        TickOk(rows, now, ids, tasks[i := next], readFaults, storeFaults)
    ensures var id := ids[i];
      tasks[i].Store? ==>
        var now' := if id in storeFaults then now else SetStatus(now, id, tasks[i].status);
        tasks[i].id == id && TickOk(rows, now', ids, tasks[i := Finished], readFaults, storeFaults)
  {
  }

  lemma TickDone(rows: map<uint64, Event>, now: map<uint64, Event>, ids: seq<uint64>, tasks: seq<AttestTask>,
      readFaults: set<uint64>, storeFaults: set<uint64>)
    requires TickOk(rows, now, ids, tasks, readFaults, storeFaults)
    requires forall i :: 0 <= i < |tasks| ==> tasks[i].Finished?
    ensures now == MarkedRows(rows, set id | id in ids && id !in readFaults + storeFaults)
  {
    forall id | id in rows && id in ids && id !in readFaults + storeFaults ensures now[id] == Marked(rows[id]) {
      var i :| 0 <= i < |ids| && ids[i] == id;
      assert TaskOk(rows, now, ids[i], tasks[i], readFaults, storeFaults);
    }
  }

  /** Reads and writes still to come, at most. */
  function Work(tasks: seq<AttestTask>): nat {
    if tasks == [] then 0 else
      Work(tasks[..|tasks| - 1]) + WorkOf(tasks[|tasks| - 1])
  }

  function WorkOf(task: AttestTask): nat {
    match task case Lookup(_) => 2 case Store(_, _) => 1 case Finished => 0
  }

  lemma {:induction false} WorkDrops(tasks: seq<AttestTask>, i: nat, next: AttestTask)
    requires i < |tasks| && WorkOf(next) < WorkOf(tasks[i])
    ensures Work(tasks[i := next]) < Work(tasks)
  {
    var front := tasks[..|tasks| - 1];
    if i == |tasks| - 1 {
      assert tasks[i := next][..i] == front;
    } else {
      WorkDrops(front, i, next);
      assert tasks[i := next][..|tasks| - 1] == front[i := next];
    }
  }

  class AttestMonitor {
    const db: Database
    var attestedChallengeIds: set<uint64>
    var queryCount: nat

    constructor (db: Database)
      ensures this.db == db && attestedChallengeIds == {} && queryCount == 0
    {
      this.db, attestedChallengeIds, queryCount := db, {}, 0;
    }

    /** One goroutine, alone: it reads the row and stores what it decided. */
    method UpdateEventStatus(id: uint64, readFault: bool, storeFault: bool)
      requires db.Valid()
      modifies db
      ensures db.Valid()
      ensures db.State() == old(db.State()).(events :=
        MarkedRows(old(db.events), if readFault || storeFault then {} else {id}))
      // spelled out: Submitted becomes SelfAttested, an attested row stays, and any other status becomes Attested
      ensures OnlyRow(id, old(db.events), db.events)
      ensures id in db.events ==> db.events[id] == old(db.events[id]).(status :=
        var was := old(db.events[id].status);
        if readFault || storeFault || was == SelfAttested || was == Attested then was
        else if was == Submitted then SelfAttested else Attested)
    {
      var todo := ReadStatus(id, readFault);
      if todo.Some? {
        var _ := db.UpdateEventStatus(id, todo.value, storeFault);
      }
    }

    /** The status to store, or None when there is nothing to do. */
    method ReadStatus(id: uint64, fault: bool) returns (todo: Option<EventStatus>)
      requires db.Valid()
      ensures todo == if fault || id !in db.events then None else AttestedStatus(db.events[id].status)
    {
      var event := db.GetEventByChallengeId(id, fault);
      if event.None? {
        return None;
      }
      if event.value.status == SelfAttested || event.value.status == Attested {
        return None;
      }
      var status := Attested;
      if event.value.status == Submitted {
        status := SelfAttested;
      }
      return Some(status);
    }

    /** One tick. `answer` is the chain's list, or None when the query failed; the two sets are the ids whose calls
        fail. Ids are remembered even when their lookup failed, and forgotten on every tick once the counter has passed
        its limit. */
    method Tick(answer: Option<seq<uint64>>, readFaults: set<uint64>, storeFaults: set<uint64>)
      requires db.Valid()
      modifies this, db
      ensures db.Valid()
      ensures answer.None? ==>
        && db.State() == old(db.State())
        && attestedChallengeIds == old(attestedChallengeIds) && queryCount == old(queryCount)
      ensures answer.Some? ==>
        var faults := readFaults + storeFaults;
        var newIds := set id | id in answer.value && id !in old(attestedChallengeIds) && id !in faults;
        && db.State() == old(db.State()).(events := MarkedRows(old(db.events), newIds))
        && db.events.Keys == old(db.events.Keys)
        && (forall id :: id in db.events ==> db.events[id] == old(db.events[id]).(status :=
              var was := old(db.events[id].status);
              if id !in newIds || was == SelfAttested || was == Attested then was
              else if was == Submitted then SelfAttested else Attested))
        && queryCount == old(queryCount) + 1
        && attestedChallengeIds ==
             if queryCount > MAX_QUERY_COUNT then {} else old(attestedChallengeIds) + set id | id in answer.value
    {
      if answer.None? {
        return;
      }
      var ids := answer.value;
      UpdateAttestedCacheAndEventStatus(ids, readFaults, storeFaults);
      for i := 0 to |ids|
        invariant db.Valid() && queryCount == old(queryCount)
        invariant db.State() == old(db.State()).(events :=
          MarkedRows(old(db.events),
                     set id | id in ids && id !in old(attestedChallengeIds) && id !in readFaults + storeFaults))
        invariant attestedChallengeIds == old(attestedChallengeIds) + set id | id in ids[..i]
      {
        attestedChallengeIds := attestedChallengeIds + {ids[i]};
        assert ids[..i + 1] == ids[..i] + [ids[i]];
      }
      assert ids[..|ids|] == ids;
      queryCount := queryCount + 1;
      if queryCount > MAX_QUERY_COUNT {
        attestedChallengeIds := {};
      }
    }

    /** The goroutines of a tick: their reads and writes interleave in any order, and the result does not depend on
        it. */
    method UpdateAttestedCacheAndEventStatus(latest: seq<uint64>, readFaults: set<uint64>, storeFaults: set<uint64>)
      requires db.Valid()
      modifies db
      ensures db.Valid()
      ensures db.State() == old(db.State()).(events :=
        MarkedRows(old(db.events),
                   set id | id in latest && id !in attestedChallengeIds && id !in readFaults + storeFaults))
    {
      ghost var rows := db.events;
      var ids := NewIds(latest);
      var tasks := seq(|ids|, i requires 0 <= i < |ids| => Lookup(ids[i]));
      while exists i :: 0 <= i < |tasks| && !tasks[i].Finished?
        invariant db.Valid() && db.State() == old(db.State()).(events := db.events)
        invariant TickOk(rows, db.events, ids, tasks, readFaults, storeFaults)
        decreases Work(tasks)
      {
        var i :| 0 <= i < |tasks| && !tasks[i].Finished?;
        var next := Finished;
        TaskMoves(rows, db.events, ids, tasks, readFaults, storeFaults, i);
        if tasks[i].Lookup? {
          var todo := ReadStatus(ids[i], ids[i] in readFaults);
          if todo.Some? {
            next := Store(ids[i], todo.value);
          }
        } else {
          var _ := db.UpdateEventStatus(ids[i], tasks[i].status, ids[i] in storeFaults);
        }
        WorkDrops(tasks, i, next);
        tasks := tasks[i := next];
      }
      TickDone(rows, db.events, ids, tasks, readFaults, storeFaults);
      assert (set id | id in ids && id !in readFaults + storeFaults)
          == set id | id in latest && id !in attestedChallengeIds && id !in readFaults + storeFaults;
    }

    method NewIds(latest: seq<uint64>) returns (ids: seq<uint64>)
      ensures forall id :: id in ids <==> id in latest && id !in attestedChallengeIds
    {
      ids := [];
      for i := 0 to |latest|
        invariant forall id :: id in ids <==> id in latest[..i] && id !in attestedChallengeIds
      {
        assert latest[..i + 1] == latest[..i] + [latest[i]];
        if latest[i] !in attestedChallengeIds {
          ids := ids + [latest[i]];
        }
      }
      assert latest[..|latest|] == latest;
    }
  }
}
