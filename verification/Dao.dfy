/** The database as one object: every query and update of db/dao, each of which may fail without any effect. */
module Dao {
  import opened Types
  import opened Store

  predicate InIdOrder(rows: seq<Event>) {
    forall i, j :: 0 <= i < j < |rows| ==> rows[i].info.challengeId < rows[j].info.challengeId
  }

  /** A query ordered by challenge id: exactly these rows, ascending. */
  ghost predicate Ascending(rows: seq<Event>, table: map<uint64, Event>) {
    && InIdOrder(rows)
    && (forall e :: e in rows <==> e.info.challengeId in table && table[e.info.challengeId] == e)
  }

  /** The announcement is of this object and provider, and its id is in the closed range. */
  predicate Within(info: Challenge, objectId: nat, sp: Bytes, low: int, high: int) {
    info.objectId == objectId && info.sp == sp && low <= info.challengeId <= high
  }

  /** No row but this one may differ. */
  predicate OnlyRow(id: uint64, before: map<uint64, Event>, after: map<uint64, Event>) {
    after.Keys == before.Keys && forall k :: k in before && k != id ==> after[k] == before[k]
  }

  /** The unique index refuses row `i` exactly when the rows up to it cannot all be inserted. */
  lemma NextRow(t: Tables, height: nat, infos: seq<Challenge>, i: nat)
    requires i < |infos| && Insertable(t, height, infos[..i])
    ensures Insertable(t, height, infos[..i + 1]) <==> infos[i].challengeId !in AddRows(t.events, height, infos[..i])
    ensures Insertable(t, height, infos) ==> Insertable(t, height, infos[..i + 1])
  {
    var id, before, upTo := infos[i].challengeId, infos[..i], infos[..i + 1];
    assert upTo == before + [infos[i]];
    AddRowsAt(t.events, height, before, id);
    if Find(before, id).Some? {
      var k :| 0 <= k < i && before[k] == Find(before, id).value;
      assert upTo[k].challengeId == upTo[i].challengeId;
    }
  }

  /** Inserting announces exactly these rows, all of them fresh, and keeps the others. */
  lemma InsertedRows(t: Tables, height: nat, infos: seq<Challenge>)
    requires Insertable(t, height, infos)
    ensures var rows := AddRows(t.events, height, infos);
      && (forall i :: 0 <= i < |infos| ==>
            && infos[i].challengeId in rows
            && rows[infos[i].challengeId] == Event(infos[i], height, Unprocessed, Unknown))
      && (forall id :: id in rows && id !in t.events ==> exists i :: 0 <= i < |infos| && infos[i].challengeId == id)
      && (forall id :: id in t.events ==> id in rows && rows[id] == t.events[id])
  {
    var rows := AddRows(t.events, height, infos);
    forall i | 0 <= i < |infos|
      ensures infos[i].challengeId in rows
      ensures rows[infos[i].challengeId] == Event(infos[i], height, Unprocessed, Unknown)
    {
      AddRowsAt(t.events, height, infos, infos[i].challengeId);
      assert infos[i] in infos;
      var k :| 0 <= k < |infos| && infos[k] == Find(infos, infos[i].challengeId).value;
    }
    forall id | id in rows && id !in t.events ensures exists i :: 0 <= i < |infos| && infos[i].challengeId == id {
      AddRowsAt(t.events, height, infos, id);
      var k :| 0 <= k < |infos| && infos[k] == Find(infos, id).value;
    }
    forall id | id in t.events ensures id in rows && rows[id] == t.events[id] {
      AddRowsAt(t.events, height, infos, id);
      assert forall info :: info in infos ==> info.challengeId != id;
    }
  }

  class Database {
    var blocks: set<nat>
    var events: map<uint64, Event>
    var votes: seq<Vote>

    function State(): Tables
      reads this
    {
      Tables(blocks, events, votes)
    }

    /** Rows are stored under their own challenge id. */
    ghost predicate Valid()
      reads this
    {
      forall id :: id in events ==> events[id].info.challengeId == id
    }

    constructor ()
      ensures Valid() && State() == EMPTY
    {
      blocks, events, votes := {}, map[], [];
    }

    /** One transaction: the block row, then the event rows; a refused row rolls everything back. */
    method SaveBlockAndEvents(height: nat, infos: seq<Challenge>, fault: bool) returns (ok: bool)
      requires Valid()
      modifies this
      ensures Valid()
      ensures ok <==> !fault && Insertable(old(State()), height, infos)
      ensures State() == if ok then InsertBlock(old(State()), height, infos) else old(State())
      // the unique indexes: a new height, new ids, and no id twice
      ensures ok <==>
        && !fault && height !in old(blocks)
        && (forall i, j :: 0 <= i < j < |infos| ==> infos[i].challengeId != infos[j].challengeId)
        && (forall i :: 0 <= i < |infos| ==> infos[i].challengeId !in old(events))
      ensures votes == old(votes) && blocks == (if ok then old(blocks) + {height} else old(blocks))
      ensures ok ==> forall i :: 0 <= i < |infos| ==>
        && infos[i].challengeId in events
        && events[infos[i].challengeId] == Event(infos[i], height, Unprocessed, Unknown)
      ensures ok ==> forall id :: id in events && id !in old(events) ==>
        exists i :: 0 <= i < |infos| && infos[i].challengeId == id
      ensures forall id :: id in old(events) ==> id in events && events[id] == old(events[id])
    {
      if fault || height in blocks {
        return false;
      }
      var rows := events;
      for i := 0 to |infos|
        invariant Valid() && State() == old(State())
        invariant rows == AddRows(events, height, infos[..i])
        invariant Insertable(State(), height, infos[..i])
      {
        NextRow(State(), height, infos, i);
        if infos[i].challengeId in rows {
          return false;
        }
        assert infos[..i + 1][..i] == infos[..i];
        rows := rows[infos[i].challengeId := EventRow(height, infos[i])];
      }
      assert infos[..|infos|] == infos;
      forall id | id in rows ensures rows[id].info.challengeId == id {
        AddRowsAt(events, height, infos, id);
      }
      InsertedRows(State(), height, infos);
      blocks, events, ok := blocks + {height}, rows, true;
    }

    /** The greatest saved height; no block at all reads as height zero. */
    method GetLatestBlock(fault: bool) returns (height: Option<nat>)
      ensures height.None? <==> fault
      ensures height.Some? && blocks == {} ==> height.value == 0
      ensures height.Some? && blocks != {} ==> height.value in blocks && forall h :: h in blocks ==> h <= height.value
    {
      if fault {
        return None;
      }
      var top, rest := 0, blocks;
      while rest != {}
        invariant rest <= blocks && (rest == blocks ==> top == 0)
        invariant rest != blocks ==> top in blocks
        invariant forall h :: h in blocks ==> h in rest || h <= top
        decreases |rest|
      {
        var h :| h in rest;
        if h >= top {
          top := h;
        }
        rest := rest - {h};
      }
      return Some(top);
    }

    method GetUnexpiredEventsByStatus(height: nat, status: EventStatus, fault: bool) returns (rows: Option<seq<Event>>)
      requires Valid()
      ensures rows.None? <==> fault
      ensures rows.Some? ==> Ascending(rows.value, Unexpired(events, height, status))
      ensures rows.Some? ==> forall i, j :: 0 <= i < j < |rows.value| ==>
        rows.value[i].info.challengeId < rows.value[j].info.challengeId
      ensures rows.Some? ==> forall e :: e in rows.value <==>
        && e.info.challengeId in events && events[e.info.challengeId] == e
        && e.info.expiredHeight > height && e.status == status
    {
      if fault {
        return None;
      }
      var result := SortedRows(Unexpired(events, height, status));
      rows := Some(result);
    }

    static method SortedRows(table: map<uint64, Event>) returns (rows: seq<Event>)
      requires forall id :: id in table ==> table[id].info.challengeId == id
      ensures Ascending(rows, table)
    {
      var rest := table.Keys;
      rows := [];
      while rest != {}
        invariant rest <= table.Keys && InIdOrder(rows)
        invariant forall e :: e in rows ==> e.info.challengeId in table.Keys - rest && table[e.info.challengeId] == e
        invariant forall id :: id in table.Keys - rest ==> table[id] in rows
        invariant forall i, id :: 0 <= i < |rows| && id in rest ==> rows[i].info.challengeId < id
        decreases |rest|
      {
        var id := Smallest(rest);
        rows, rest := rows + [table[id]], rest - {id};
      }
    }

    static method Smallest(ids: set<uint64>) returns (least: uint64)
      requires ids != {}
      ensures least in ids && forall id :: id in ids ==> least <= id
    {
      least :| least in ids;
      var rest := ids - {least};
      while rest != {}
        invariant rest <= ids && least in ids
        invariant forall id :: id in ids && id !in rest ==> least <= id
        decreases |rest|
      {
        var id :| id in rest;
        if id < least {
          least := id;
        }
        rest := rest - {id};
      }
    }

    /** The row with this challenge id, found by looking through the rows. */
    method GetEventByChallengeId(id: uint64, fault: bool) returns (e: Option<Event>)
      requires Valid()
      ensures e.Some? ==> !fault && e.value in events.Values && e.value.info.challengeId == id
      ensures e.None? ==> fault || forall row :: row in events.Values ==> row.info.challengeId != id
    {
      if fault {
        return None;
      }
      var rest := events.Keys;
      while rest != {}
        invariant rest <= events.Keys
        invariant forall k :: k in events.Keys - rest ==> events[k].info.challengeId != id
        decreases |rest|
      {
        var k :| k in rest;
        if events[k].info.challengeId == id {
          return Some(events[k]);
        }
        rest := rest - {k};
      }
      return None;
    }

    /** `applied`: the update took effect although an error was reported. */
    method UpdateEventStatus(id: uint64, status: EventStatus, fault: bool, applied: bool := false) returns (ok: bool)
      requires Valid()
      modifies this
      ensures Valid() && ok == !fault
      ensures State() ==
        if ok || applied then old(State()).(events := SetStatus(old(events), id, status)) else old(State())
      ensures OnlyRow(id, old(events), events) && blocks == old(blocks) && votes == old(votes)
      ensures id in events ==>
        events[id] == if ok || applied then old(events[id]).(status := status) else old(events[id])
    {
      if (!fault || applied) && id in events {
        events := events[id := events[id].(status := status)];
      }
      ok := !fault;
    }

    method UpdateEventStatusVerifyResult(id: uint64, status: EventStatus, result: VerifyResult, fault: bool)
      returns (ok: bool)
      requires Valid()
      modifies this
      ensures Valid() && ok == !fault
      ensures State() ==
        if ok then old(State()).(events := SetVerdict(old(events), id, status, result)) else old(State())
      ensures OnlyRow(id, old(events), events) && blocks == old(blocks) && votes == old(votes)
      ensures id in events ==>
        events[id] == if ok then old(events[id]).(status := status, verifyResult := result) else old(events[id])
    {
      if !fault && id in events {
        events := events[id := events[id].(status := status, verifyResult := result)];
      }
      ok := !fault;
    }

    /** Whether a row of this object and provider has its id in the closed range. */
    method IsEventExistsBetween(objectId: nat, sp: Bytes, low: int, high: int, fault: bool)
      returns (found: Option<bool>)
      requires Valid()
      ensures found.None? <==> fault
      ensures found.Some? ==>
        (found.value <==> exists e :: e in events.Values && Within(e.info, objectId, sp, low, high))
      ensures found.Some? ==> found.value == ExistsBetween(events, objectId, sp, low, high)
    {
      if fault {
        return None;
      }
      var rest := events.Keys;
      while rest != {}
        invariant rest <= events.Keys
        invariant forall id :: id in events.Keys - rest ==> !Within(events[id].info, objectId, sp, low, high)
        decreases |rest|
      {
        var id :| id in rest;
        if Within(events[id].info, objectId, sp, low, high) {
          return Some(true);
        }
        rest := rest - {id};
      }
      assert forall id :: id in events ==> !Within(events[id].info, objectId, sp, low, high);
      return Some(false);
    }

    method SaveVote(v: Vote, fault: bool) returns (ok: bool)
      requires Valid()
      modifies this
      ensures Valid()
      ensures ok <==> !fault && !VoteExists(old(votes), v.eventHash, v.pubKey)
      ensures State() == if ok then AddVote(old(State()), v) else old(State())
      ensures ok <==> !fault && forall w :: w in old(votes) ==> w.eventHash != v.eventHash || w.pubKey != v.pubKey
      ensures events == old(events) && blocks == old(blocks) && votes == (if ok then old(votes) + [v] else old(votes))
    {
      ok := !fault && !VoteExists(votes, v.eventHash, v.pubKey);
      if ok {
        votes := votes + [v];
      }
    }

    /** One transaction: when the status update fails after the insert, the vote row is rolled back. */
    method SaveVoteAndUpdateEventStatus(v: Vote, id: uint64, insertFault: bool, updateFault: bool)
      returns (ok: bool, duplicate: bool)
      requires Valid()
      modifies this
      ensures Valid()
      ensures duplicate <==> !insertFault && VoteExists(old(votes), v.eventHash, v.pubKey)
      ensures ok <==> !insertFault && !updateFault && !duplicate
      ensures State() == if ok then AddOwnVote(old(State()), v, id) else old(State())
      ensures OnlyRow(id, old(events), events) && blocks == old(blocks)
      ensures votes == if ok then old(votes) + [v] else old(votes)
      ensures id in events ==> events[id] == if ok then old(events[id]).(status := SelfVoted) else old(events[id])
    {
      var before := votes;
      duplicate := !insertFault && VoteExists(votes, v.eventHash, v.pubKey);
      ok := SaveVote(v, insertFault);
      if ok {
        ok := UpdateEventStatus(id, SelfVoted, updateFault);
        if !ok {
          votes := before;
        }
      }
    }

    method GetVotesByEventHash(eventHash: string, fault: bool) returns (rows: Option<seq<Vote>>)
      ensures rows == if fault then None else Some(VotesFor(votes, eventHash))
    {
      if fault {
        return None;
      }
      var result: seq<Vote> := [];
      for i := 0 to |votes|
        invariant result == VotesFor(votes[..i], eventHash)
      {
        assert votes[..i + 1][..i] == votes[..i];
        if votes[i].eventHash == eventHash {
          result := result + [votes[i]];
        }
      }
      assert votes[..|votes|] == votes;
      rows := Some(result);
    }

    /** Whether a stored vote has this hash and key. */
    method IsVoteExists(eventHash: string, pubKey: string, fault: bool) returns (found: Option<bool>)
      ensures found.None? <==> fault
      ensures found.Some? ==>
        (found.value <==> exists v :: v in votes && v.eventHash == eventHash && v.pubKey == pubKey)
    {
      if fault {
        return None;
      }
      for i := 0 to |votes|
        invariant forall k :: 0 <= k < i ==> votes[k].eventHash != eventHash || votes[k].pubKey != pubKey
      {
        if votes[i].eventHash == eventHash && votes[i].pubKey == pubKey {
          return Some(true);
        }
      }
      return Some(false);
    }
  }
}
