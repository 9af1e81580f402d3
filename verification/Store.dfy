/** The three database tables as values, and what each query and update of db/dao does to them. */
module Store {
  import opened Types

  /** Block heights and event rows are keyed by their unique columns; vote rows stay in insertion order. */
  datatype Tables = Tables(blocks: set<nat>, events: map<uint64, Event>, votes: seq<Vote>)

  const EMPTY := Tables({}, map[], [])

  // ---------------------------------------------------------------------------------------------
  // Blocks and ingest

  lemma HasMax(s: set<nat>)
    requires s != {}
    ensures exists m :: m in s && forall h :: h in s ==> h <= m
  {
    var x :| x in s;
    if s != {x} {
      HasMax(s - {x});
      var m :| m in s - {x} && forall h :: h in s - {x} ==> h <= m;
      var top := if m < x then x else m;
      forall h | h in s ensures h <= top {
        assert h == x || h in s - {x};
      }
      assert top in s;
    }
  }

  /** Height of the newest saved block; the zero row when there is none. */
  function LatestHeight(blocks: set<nat>): (m: nat)
    ensures blocks == {} ==> m == 0
    ensures blocks != {} ==> m in blocks
    ensures forall h :: h in blocks ==> h <= m
  {
    if blocks == {} then 0 else
      HasMax(blocks);
      var m :| m in blocks && forall h :: h in blocks ==> h <= m;
      m
  }

  function EventRow(height: nat, info: Challenge): Event {
    Event(info, height, Unprocessed, Unknown)
  }

  predicate DistinctIds(infos: seq<Challenge>) {
    forall i, j :: 0 <= i < j < |infos| ==> infos[i].challengeId != infos[j].challengeId
  }

  /** The unique indexes accept the block and all its rows. */
  predicate Insertable(t: Tables, height: nat, infos: seq<Challenge>) {
    && height !in t.blocks
    && DistinctIds(infos)
    && forall i :: 0 <= i < |infos| ==> infos[i].challengeId !in t.events
  }

  function AddRows(events: map<uint64, Event>, height: nat, infos: seq<Challenge>): map<uint64, Event> {
    if infos == [] then events else
      var last := infos[|infos| - 1];
      AddRows(events, height, infos[..|infos| - 1])[last.challengeId := EventRow(height, last)]
  }

  function InsertBlock(t: Tables, height: nat, infos: seq<Challenge>): Tables {
    t.(blocks := t.blocks + {height}, events := AddRows(t.events, height, infos))
  }

  /** The announcement with this id, if the list has one. */
  function Find(infos: seq<Challenge>, id: uint64): (r: Option<Challenge>)
    ensures r.Some? ==> r.value in infos && r.value.challengeId == id
    ensures r.None? ==> forall info :: info in infos ==> info.challengeId != id
  {
    if infos == [] then None else
      var last := infos[|infos| - 1];
      if last.challengeId == id then Some(last) else Find(infos[..|infos| - 1], id)
  }

  /** Seen from one id: a listed one gets a fresh row, any other keeps what it had. */
  lemma {:induction false} AddRowsAt(events: map<uint64, Event>, height: nat, infos: seq<Challenge>, id: uint64)
    ensures var rows := AddRows(events, height, infos);
      match Find(infos, id)
      case Some(info) => id in rows && rows[id] == EventRow(height, info)
      case None => (id in rows <==> id in events) && (id in events ==> rows[id] == events[id])
  {
    if infos != [] { AddRowsAt(events, height, infos[..|infos| - 1], id); }
  }

  // ---------------------------------------------------------------------------------------------
  // Event queries and updates

  function Unexpired(events: map<uint64, Event>, height: nat, status: EventStatus): map<uint64, Event> {
    map id | id in events && events[id].info.expiredHeight > height && events[id].status == status :: events[id]
  }

  /** UPDATE ... WHERE challenge_id = id: a missing row is not an error. */
  function SetStatus(events: map<uint64, Event>, id: uint64, status: EventStatus): map<uint64, Event> {
    if id in events then events[id := events[id].(status := status)] else events
  }

  function SetVerdict(events: map<uint64, Event>, id: uint64, status: EventStatus, result: VerifyResult)
    : map<uint64, Event>
  {
    if id in events then events[id := events[id].(status := status, verifyResult := result)] else events
  }

  predicate ExistsBetween(events: map<uint64, Event>, objectId: nat, sp: Bytes, low: int, high: int) {
    exists id :: id in events && events[id].info.objectId == objectId && events[id].info.sp == sp && low <= id <= high
  }

  /** The verifier skips a challenge nobody raised, that is no heartbeat, and whose object was challenged recently. */
  predicate IsDuplicate(events: map<uint64, Event>, info: Challenge, dedup: nat, heartbeat: nat)
    requires heartbeat > 0
  {
    info.challenger == [] && info.challengeId % heartbeat != 0 && info.challengeId > dedup &&
    ExistsBetween(events, info.objectId, info.sp, info.challengeId - dedup, info.challengeId - 1)
  }

  /** Events this node votes on: proven faults, and heartbeats whatever their verdict. */
  predicate Votable(e: Event, heartbeat: nat)
    requires heartbeat > 0
  {
    e.verifyResult == HashMismatched || e.info.challengeId % heartbeat == 0
  }

  // ---------------------------------------------------------------------------------------------
  // Votes

  predicate VoteExists(votes: seq<Vote>, eventHash: string, pubKey: string) {
    exists v :: v in votes && v.eventHash == eventHash && v.pubKey == pubKey
  }

  function AddVote(t: Tables, v: Vote): Tables {
    t.(votes := t.votes + [v])
  }

  /** The broadcaster's transaction: the vote row and the event's status together. */
  function AddOwnVote(t: Tables, v: Vote, id: uint64): Tables {
    AddVote(t, v).(events := SetStatus(t.events, id, SelfVoted))
  }

  function VotesFor(votes: seq<Vote>, eventHash: string): seq<Vote> {
    if votes == [] then [] else
      var v := votes[|votes| - 1];
      VotesFor(votes[..|votes| - 1], eventHash) + if v.eventHash == eventHash then [v] else []
  }

  /** The query returns exactly the rows of the hash, and one row per key when (key, hash) pairs are unique. */
  lemma {:induction false} VotesForSpec(votes: seq<Vote>, eventHash: string)
    ensures forall v :: v in VotesFor(votes, eventHash) <==> v in votes && v.eventHash == eventHash
    ensures UniquePairs(votes) ==> DistinctKeys(VotesFor(votes, eventHash))
  {
    if votes != [] {
      var front, v := votes[..|votes| - 1], votes[|votes| - 1];
      VotesForSpec(front, eventHash);
      assert votes == front + [v];
      if UniquePairs(votes) && v.eventHash == eventHash {
        var rest := VotesFor(front, eventHash);
        forall i | 0 <= i < |rest| ensures rest[i].pubKey != v.pubKey {
          assert rest[i] in rest;
        }
      }
    }
  }

  function RowsOf(votes: seq<Vote>, eventHash: string): set<nat> {
    set i: nat | i < |votes| && votes[i].eventHash == eventHash
  }

  /** One row of the result for every row of the hash. */
  lemma {:induction false} VotesForCount(votes: seq<Vote>, eventHash: string)
    ensures |VotesFor(votes, eventHash)| == |RowsOf(votes, eventHash)|
  {
    if votes == [] {
      assert RowsOf(votes, eventHash) == {};
    } else {
      var front, n := votes[..|votes| - 1], |votes| - 1;
      VotesForCount(front, eventHash);
      assert RowsOf(votes, eventHash) == RowsOf(front, eventHash) + if votes[n].eventHash == eventHash then {n} else {};
    }
  }

  ghost predicate UniquePairs(votes: seq<Vote>) {
    forall i, j :: 0 <= i < j < |votes| ==>
      votes[i].eventHash != votes[j].eventHash || votes[i].pubKey != votes[j].pubKey
  }

  ghost predicate DistinctKeys(votes: seq<Vote>) {
    forall i, j :: 0 <= i < j < |votes| ==> votes[i].pubKey != votes[j].pubKey
  }
}
