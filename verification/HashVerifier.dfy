/** verifier/hash_verifier.go, one event: pre-check, the calls that may fail, the verdict and the single write. */
module HashVerifier {
  import opened Types
  import opened Store
  import opened Dao
  import opened RootHash
  import opened Pipeline

  datatype Check = Pass | Expired | DuplicatedSlashing | CheckError

  /** What the SP returned; the piece may turn out unreadable. */
  datatype SpReply = SpReply(piece: Option<Bytes>, checksums: seq<Bytes>)

  /** The outcome of every call of one verification, retries included; None and `fault` stand for a returned error. */
  datatype Answers = Answers(
    height: Option<nat>,
    heartbeat: Option<nat>,
    lookupFault: bool,
    endpointFound: bool,
    chainChecksums: Option<seq<Bytes>>,
    reply: Option<SpReply>,
    storeFault: bool)

  type Written = Option<(EventStatus, VerifyResult)>

  function WithVerdict(t: Tables, id: uint64, w: Written): Tables {
    match w
    case None => t
    case Some((status, result)) =>
      t.(events := if result == Unknown
                   then SetStatus(t.events, id, status)
                   else SetVerdict(t.events, id, status, result))
  }

  /** The event is neither expired nor a duplicate, and everything needed to say so could be read. */
  predicate Screens(t: Tables, dedup: nat, ev: Event, a: Answers) {
    && a.height.Some? && a.heartbeat.Some? && a.heartbeat.value > 0
    && ev.info.expiredHeight >= a.height.value
    && !IsDuplicate(t.events, ev.info, dedup, a.heartbeat.value)
    && !(NeedsLookup(ev.info, dedup, a.heartbeat.value) && a.lookupFault)
  }

  predicate NeedsLookup(info: Challenge, dedup: nat, heartbeat: nat)
    requires heartbeat > 0
  {
    info.challenger == [] && info.challengeId % heartbeat != 0 && info.challengeId > dedup
  }

  /** The verdict an answering or silent SP earns. */
  function SpVerdict(h: Bytes -> Bytes, ev: Event, a: Answers): VerifyResult
    requires a.chainChecksums.Some? && 0 <= ev.info.redundancyIndex + 1 < |a.chainChecksums.value|
    requires a.reply.Some? ==> ev.info.segmentIndex < |a.reply.value.checksums|
  {
    match a.reply
    case None => HashMismatched
    case Some(SpReply(None, _)) => Unknown
    case Some(SpReply(Some(piece), checksums)) =>
      Verdict(h, a.chainChecksums.value[ev.info.redundancyIndex + 1], checksums, ev.info.segmentIndex, piece)
  }

  /** Indices that chain and SP answers must have; the source panics without them. */
  predicate InRange(ev: Event, a: Answers) {
    && a.heartbeat != Some(0)
    && (a.chainChecksums.Some? ==> 0 <= ev.info.redundancyIndex + 1 < |a.chainChecksums.value|)
    && (a.reply.Some? ==> ev.info.segmentIndex < |a.reply.value.checksums|)
  }

  predicate AllInRange(rows: map<uint64, Event>, answers: map<uint64, Answers>) {
    forall id :: id in rows ==> id in answers && InRange(rows[id], answers[id])
  }

  /** An earlier challenge of the same object and provider, at most `dedup` ids before. */
  predicate Precedes(earlier: Challenge, info: Challenge, dedup: nat) {
    && earlier.objectId == info.objectId && earlier.sp == info.sp
    && earlier.challengeId < info.challengeId <= earlier.challengeId + dedup
  }

  /** The range the lookup is called with is that of the earlier challenges. */
  lemma EarlierTwin(events: map<uint64, Event>, info: Challenge, dedup: nat)
    requires forall id :: id in events ==> events[id].info.challengeId == id
    ensures ExistsBetween(events, info.objectId, info.sp, info.challengeId - dedup, info.challengeId - 1) <==>
      exists e :: e in events.Values && Precedes(e.info, info, dedup)
  {
    var low, high := info.challengeId - dedup, info.challengeId - 1;
    if ExistsBetween(events, info.objectId, info.sp, low, high) {
      var id :| id in events && events[id].info.objectId == info.objectId && events[id].info.sp == info.sp
                && low <= id <= high;
      assert events[id] in events.Values && Precedes(events[id].info, info, dedup);
    }
  }

  /** The single write of one verification, if any: what VerifyForSingleEvent does to the tables. */
  function Outcome(h: Bytes -> Bytes, t: Tables, dedup: nat, ev: Event, a: Answers): Written
    requires InRange(ev, a)
  {
    if Screens(t, dedup, ev, a) then ScreenedOutcome(h, ev, a)
    else if FoundDuplicate(t, dedup, ev, a) && !a.storeFault then Some((Duplicated, Unknown))
    else None
  }

  /** The part of it that is left once the pre-check has passed; it depends on the tables no more. */
  function ScreenedOutcome(h: Bytes -> Bytes, ev: Event, a: Answers): Written
    requires InRange(ev, a)
  {
    if a.storeFault then None
    else if !a.endpointFound || a.chainChecksums.None? then Some((VerificationFailed, Unknown))
    else if SpVerdict(h, ev, a) == Unknown then None
    else Some((Verified, SpVerdict(h, ev, a)))
  }

  predicate FoundDuplicate(t: Tables, dedup: nat, ev: Event, a: Answers)
    requires a.heartbeat != Some(0)
  {
    && a.height.Some? && a.heartbeat.Some? && !a.lookupFault
    && ev.info.expiredHeight >= a.height.value
    && IsDuplicate(t.events, ev.info, dedup, a.heartbeat.value)
  }

  /** Everything the pre-check needs could be read, and the event has not expired. */
  predicate Readable(ev: Event, a: Answers)
    requires a.heartbeat != Some(0)
  {
    && a.height.Some? && a.height.value <= ev.info.expiredHeight && a.heartbeat.Some?
  }

  /** Nobody raised the event, it is no heartbeat, and its id leaves room for the interval. */
  predicate Suspect(ev: Event, a: Answers, dedup: nat)
    requires a.heartbeat.Some? && a.heartbeat.value > 0
  {
    ev.info.challenger == [] && ev.info.challengeId % a.heartbeat.value != 0 && ev.info.challengeId > dedup
  }

  predicate HasTwin(t: Tables, ev: Event, dedup: nat) {
    exists e :: e in t.events.Values && Precedes(e.info, ev.info, dedup)
  }

  /** What is written, in terms of what could be read and what chain and provider answered: a suspect with an earlier
      twin is a duplicate; any other readable event is verified, or fails for want of an endpoint or of its checksums. A
      provider that does not answer is at fault, an unreadable piece leaves the event as it is, and otherwise the roots
      decide. */
  lemma OutcomeMeaning(h: Bytes -> Bytes, t: Tables, dedup: nat, ev: Event, a: Answers)
    requires InRange(ev, a) && forall id :: id in t.events ==> t.events[id].info.challengeId == id
    ensures var w := Outcome(h, t, dedup, ev, a);
      var readable := Readable(ev, a);
      var suspect := readable && Suspect(ev, a, dedup);
      var passes := readable && (suspect ==> !a.lookupFault && !HasTwin(t, ev, dedup));
      var informed := a.endpointFound && a.chainChecksums.Some?;
      && (w == Some((Duplicated, Unknown)) <==>
            suspect && !a.lookupFault && HasTwin(t, ev, dedup) && !a.storeFault)
      && (w == Some((VerificationFailed, Unknown)) <==> passes && !informed && !a.storeFault)
      && (w == Some((Verified, HashMismatched)) <==>
            passes && informed && !a.storeFault && (a.reply.None? || RootsDiffer(h, ev, a)))
      && (w == Some((Verified, HashMatched)) <==>
            passes && informed && !a.storeFault && RootsAgree(h, ev, a))
      && (w.None? || w.value in {(Duplicated, Unknown), (VerificationFailed, Unknown), (Verified, HashMismatched),
                                 (Verified, HashMatched)})
  {
    EarlierTwin(t.events, ev.info, dedup);
  }

  /** The provider's list with the hash of its piece in place of the challenged entry. */
  function Recomputed(h: Bytes -> Bytes, ev: Event, a: Answers): Bytes
    requires a.reply.Some? && a.reply.value.piece.Some? && ev.info.segmentIndex < |a.reply.value.checksums|
  {
    h(Join(a.reply.value.checksums[ev.info.segmentIndex := h(a.reply.value.piece.value)]))
  }

  predicate RootsAgree(h: Bytes -> Bytes, ev: Event, a: Answers)
    requires InRange(ev, a) && a.chainChecksums.Some?
  {
    && a.reply.Some? && a.reply.value.piece.Some?
    && a.chainChecksums.value[ev.info.redundancyIndex + 1] == Recomputed(h, ev, a)
  }

  predicate RootsDiffer(h: Bytes -> Bytes, ev: Event, a: Answers)
    requires InRange(ev, a) && a.chainChecksums.Some?
  {
    && a.reply.Some? && a.reply.value.piece.Some?
    && a.chainChecksums.value[ev.info.redundancyIndex + 1] != Recomputed(h, ev, a)
  }

  /** With the root of the original list on chain, an answering provider is cleared exactly when it kept the object, or
      when the two lists are a hash collision. */
  lemma ClearedExactly(h: Bytes -> Bytes, t: Tables, dedup: nat, ev: Event, a: Answers, original: seq<Bytes>,
      width: nat)
    requires InRange(ev, a) && a.reply.Some? && a.reply.value.piece.Some?
    requires FixedLength(h, width) && AllOfLength(original, width) && AllOfLength(a.reply.value.checksums, width)
    requires Outcome(h, t, dedup, ev, a).Some? && Outcome(h, t, dedup, ev, a).value.0 == Verified
    requires a.chainChecksums.Some? && a.chainChecksums.value[ev.info.redundancyIndex + 1] == h(Join(original))
    ensures var SpReply(piece, checksums) := a.reply.value;
      var k := ev.info.segmentIndex;
      Outcome(h, t, dedup, ev, a).value.1 == HashMatched <==>
        || (&& |checksums| == |original|
            && (forall i :: 0 <= i < |original| && i != k ==> checksums[i] == original[i])
            && h(piece.value) == original[k])
        || Collision(h, Join(original), Join(checksums[k := h(piece.value)]))
  {
    var SpReply(piece, checksums) := a.reply.value;
    VerdictStored(h, t, dedup, ev, a);
    ClearedIff(h, original, checksums, ev.info.segmentIndex, piece.value, width);
  }

  lemma VerdictStored(h: Bytes -> Bytes, t: Tables, dedup: nat, ev: Event, a: Answers)
    requires InRange(ev, a) && a.reply.Some? && a.reply.value.piece.Some? && a.chainChecksums.Some?
    requires Outcome(h, t, dedup, ev, a).Some? && Outcome(h, t, dedup, ev, a).value.0 == Verified
    ensures Outcome(h, t, dedup, ev, a).value.1 == Verdict(h, a.chainChecksums.value[ev.info.redundancyIndex + 1],
      a.reply.value.checksums, ev.info.segmentIndex, a.reply.value.piece.value)
  {
  }

  lemma ClearedIff(h: Bytes -> Bytes, original: seq<Bytes>, checksums: seq<Bytes>, k: nat, piece: Bytes, width: nat)
    requires FixedLength(h, width) && AllOfLength(original, width) && AllOfLength(checksums, width) && k < |checksums|
    ensures Verdict(h, h(Join(original)), checksums, k, piece) == HashMatched <==>
      || (&& |checksums| == |original|
          && (forall i :: 0 <= i < |original| && i != k ==> checksums[i] == original[i])
          && h(piece) == original[k])
      || Collision(h, Join(original), Join(checksums[k := h(piece)]))
  {
    VerdictExact(h, original, checksums, k, piece, width);
  }

  /** The write hits the status of one row, and its verdict when there is one. */
  lemma WithVerdictMeaning(t: Tables, id: uint64, w: Written)
    ensures var t' := WithVerdict(t, id, w);
      && t'.blocks == t.blocks && t'.votes == t.votes && t'.events.Keys == t.events.Keys
      && (forall k :: k in t.events && (k != id || w.None?) ==> t'.events[k] == t.events[k])
      && (id in t.events && w.Some? ==> t'.events[id] == t.events[id].(
            status := w.value.0,
            verifyResult := if w.value.1 == Unknown then t.events[id].verifyResult else w.value.1))
  {
  }

  function RowWith(e: Event, w: Written): Event {
    match w
    case None => e
    case Some((status, result)) =>
      e.(status := status, verifyResult := if result == Unknown then e.verifyResult else result)
  }

  /** The events table after a batch: each row of it by its own outcome on the table before. */
  function BatchRows(h: Bytes -> Bytes, t: Tables, dedup: nat, batch: set<uint64>,
      answers: map<uint64, Answers>): map<uint64, Event>
    requires AllInRange(t.events, answers)
  {
    map id | id in t.events ::
      if id in batch then RowWith(t.events[id], Outcome(h, t, dedup, t.events[id], answers[id])) else t.events[id]
  }

  lemma SameLookups(events: map<uint64, Event>, events': map<uint64, Event>, objectId: nat, sp: Bytes)
    requires events'.Keys == events.Keys && forall id :: id in events ==> events'[id].info == events[id].info
    ensures forall low, high ::
      ExistsBetween(events', objectId, sp, low, high) == ExistsBetween(events, objectId, sp, low, high)
  {
    forall low, high
      ensures ExistsBetween(events', objectId, sp, low, high) == ExistsBetween(events, objectId, sp, low, high)
    {
      if ExistsBetween(events, objectId, sp, low, high) {
        var id :| id in events && events[id].info.objectId == objectId && events[id].info.sp == sp && low <= id <= high;
        assert events'[id].info.objectId == objectId;
      }
    }
  }

  /** Verifications do not disturb each other: they read announcements only, which none of them changes. */
  lemma BatchAnnouncements(h: Bytes -> Bytes, t: Tables, dedup: nat, done: set<uint64>, answers: map<uint64, Answers>,
      id: uint64)
    requires AllInRange(t.events, answers) && id in t.events && id !in done
    ensures var t' := t.(events := BatchRows(h, t, dedup, done, answers));
      && t'.events[id] == t.events[id]
      && Screens(t', dedup, t.events[id], answers[id]) == Screens(t, dedup, t.events[id], answers[id])
      && FoundDuplicate(t', dedup, t.events[id], answers[id]) == FoundDuplicate(t, dedup, t.events[id], answers[id])
      && Outcome(h, t', dedup, t.events[id], answers[id]) == Outcome(h, t, dedup, t.events[id], answers[id])
      && WithVerdict(t', id, Outcome(h, t, dedup, t.events[id], answers[id])) ==
           t.(events := BatchRows(h, t, dedup, done + {id}, answers))
  {
    SameLookups(t.events, BatchRows(h, t, dedup, done, answers), t.events[id].info.objectId, t.events[id].info.sp);
  }

  /** The answer of a pre-check that lets the goroutine go on. */
  predicate ScreenedAs(t: Tables, dedup: nat, ev: Event, a: Answers, r: Check)
    requires InRange(ev, a)
  {
    (r == Pass && Screens(t, dedup, ev, a)) || (r == DuplicatedSlashing && FoundDuplicate(t, dedup, ev, a))
  }

  // ---------------------------------------------------------------------------------------------
  // How far the goroutines are

  /** Still to be screened; screened, with what answer; done. */
  datatype Progress = Progress(todo: set<uint64>, screened: set<uint64>, known: map<uint64, Check>, done: set<uint64>)

  ghost predicate ProgressOk(t: Tables, dedup: nat, running: map<uint64, Event>, answers: map<uint64, Answers>,
      p: Progress)
    requires AllInRange(running, answers)
  {
    && running.Keys == p.todo + p.screened + p.done
    && p.todo !! p.screened && p.todo !! p.done && p.screened !! p.done
    && forall id :: id in p.screened ==> id in p.known && ScreenedAs(t, dedup, running[id], answers[id], p.known[id])
  }

  function MovesLeft(p: Progress): nat {
    2 * |p.todo| + |p.screened|
  }

  /** The goroutine of `id` was screened and goes on, or it ended. */
  function Moved(p: Progress, id: uint64, next: Option<Check>): Progress {
    match next
    case Some(r) => Progress(p.todo - {id}, p.screened + {id}, p.known[id := r], p.done)
    case None => Progress(p.todo - {id}, p.screened - {id}, p.known, p.done + {id})
  }

  function Known(p: Progress, id: uint64): Option<Check>
    requires id in p.screened ==> id in p.known
  {
    if id in p.screened then Some(p.known[id]) else None
  }

  predicate FetchedFrom(t: Tables, running: map<uint64, Event>) {
    forall id :: id in running ==> id in t.events && t.events[id] == running[id] && running[id].info.challengeId == id
  }

  lemma TurnAllowed(t: Tables, dedup: nat, running: map<uint64, Event>, answers: map<uint64, Answers>, p: Progress,
      id: uint64)
    requires AllInRange(running, answers) && ProgressOk(t, dedup, running, answers, p) && id in p.todo + p.screened
    requires FetchedFrom(t, running)
    ensures id in running && id in t.events && t.events[id] == running[id] && running[id].info.challengeId == id
    ensures id !in p.done && (id in p.screened ==> id in p.known)
    ensures Known(p, id).Some? ==> ScreenedAs(t, dedup, running[id], answers[id], Known(p, id).value)
    ensures Known(p, id).None? ==> id in p.todo
  {
  }

  lemma MovedOk(t: Tables, dedup: nat, running: map<uint64, Event>, answers: map<uint64, Answers>, p: Progress,
      id: uint64, next: Option<Check>)
    requires AllInRange(running, answers) && ProgressOk(t, dedup, running, answers, p) && id in p.todo + p.screened
    requires next.Some? ==> id in p.todo && ScreenedAs(t, dedup, running[id], answers[id], next.value)
    ensures ProgressOk(t, dedup, running, answers, Moved(p, id, next))
  {
  }

  lemma MoveCounts(p: Progress, id: uint64, next: Option<Check>)
    requires id in p.todo + p.screened && p.todo !! p.screened && (next.Some? ==> id in p.todo)
    ensures MovesLeft(Moved(p, id, next)) < MovesLeft(p)
  {
    if id in p.todo { assert p.screened - {id} == p.screened; } else { assert p.todo - {id} == p.todo; }
  }

  // ---------------------------------------------------------------------------------------------
  // Which goroutines are started

  /** The goroutines hold rows of the batch. */
  predicate HoldRows(rows: seq<Event>, running: map<uint64, Event>) {
    forall id :: id in running ==> running[id].info.challengeId == id && running[id] in rows
  }

  lemma RowAdded(rows: seq<Event>, running: map<uint64, Event>, i: nat)
    requires i < |rows| && HoldRows(rows, running)
    ensures var id := rows[i].info.challengeId;
      HoldRows(rows, running[id := rows[i]]) && running[id := rows[i]].Keys == running.Keys + {id}
  {
  }

  /** The id was evicted at one of the first `n` turns. */
  predicate Evicted(rows: seq<Event>, evicted: uint64 -> set<uint64>, n: nat, id: uint64)
    requires n <= |rows|
  {
    exists k :: 0 <= k < n && id in evicted(rows[k].info.challengeId)
  }

  /** Goroutines were started for exactly those of the first `n` rows whose id was not cached at its turn. */
  predicate Started(rows: seq<Event>, cached: set<uint64>, evicted: uint64 -> set<uint64>, n: nat, started: set<uint64>)
    requires n <= |rows|
  {
    && (forall k :: 0 <= k < n ==>
          var id := rows[k].info.challengeId;
          id in started <==> id !in cached || Evicted(rows, evicted, k + 1, id))
    && forall id :: id in started ==> exists k :: 0 <= k < n && rows[k].info.challengeId == id
  }

  lemma OneTurn(rows: seq<Event>, evicted: uint64 -> set<uint64>, n: nat)
    requires n < |rows|
    ensures forall id :: Evicted(rows, evicted, n + 1, id) <==>
              Evicted(rows, evicted, n, id) || id in evicted(rows[n].info.challengeId)
  {
  }

  lemma StartedOneMore(rows: seq<Event>, cached: set<uint64>, evicted: uint64 -> set<uint64>, n: nat,
      started: set<uint64>)
    requires n < |rows| && InIdOrder(rows) && Started(rows, cached, evicted, n, started)
    ensures var id := rows[n].info.challengeId;
      && id !in started
      && Started(rows, cached, evicted, n + 1,
                 if id !in cached || Evicted(rows, evicted, n + 1, id) then started + {id} else started)
  {
  }

  /** What the cache holds after `n` turns: what was cached or started, unless found expired, and unless it was
      evicted. */
  predicate CachedAt(rows: seq<Event>, cached: set<uint64>, evicted: uint64 -> set<uint64>, n: nat,
      started: set<uint64>, sawExpired: set<uint64>, now: set<uint64>)
    requires n <= |rows|
  {
    && now <= cached + (started - sawExpired)
    && (forall id :: id in cached + (started - sawExpired) && id !in now ==> Evicted(rows, evicted, n, id))
    && forall id :: id in cached && Evicted(rows, evicted, n, id) && id !in started ==> id !in now
  }

  lemma CachedOneMore(rows: seq<Event>, cached: set<uint64>, evicted: uint64 -> set<uint64>, n: nat,
      started: set<uint64>, sawExpired: set<uint64>, now: set<uint64>)
    requires n < |rows| && InIdOrder(rows) && Started(rows, cached, evicted, n, started)
    requires CachedAt(rows, cached, evicted, n, started, sawExpired, now)
    ensures var id := rows[n].info.challengeId;
      var rest := now - evicted(id);
      && (id in rest <==> id in cached && !Evicted(rows, evicted, n + 1, id))
      && (id in rest ==> CachedAt(rows, cached, evicted, n + 1, started, sawExpired, rest))
      && (id !in rest ==>
            CachedAt(rows, cached, evicted, n + 1, started + {id}, sawExpired,
                     if id in sawExpired then rest - {id} else rest + {id}))
  {
    OneTurn(rows, evicted, n);
    StartedOneMore(rows, cached, evicted, n, started);
  }

  /** The rows whose id is not cached at its turn; turns come in id order. */
  function Batch(table: map<uint64, Event>, cached: set<uint64>, evicted: uint64 -> set<uint64>): set<uint64> {
    set id | id in table && (id !in cached || EvictedUpTo(table, evicted, id))
  }

  predicate EvictedUpTo(table: map<uint64, Event>, evicted: uint64 -> set<uint64>, id: uint64) {
    exists turn :: turn in table && turn <= id && id in evicted(turn)
  }

  /** A batch writes to the unexpired, unprocessed rows whose id was not cached, or was evicted by its turn; each gets
      the write of its own verification. */
  lemma BatchMeaning(h: Bytes -> Bytes, t: Tables, dedup: nat, height: nat, cached: set<uint64>,
      evicted: uint64 -> set<uint64>, answers: map<uint64, Answers>, id: uint64)
    requires AllInRange(t.events, answers) && id in t.events
    ensures var e := t.events[id];
      var rows := BatchRows(h, t, dedup, Batch(Unexpired(t.events, height, Unprocessed), cached, evicted), answers);
      var turns := set k | k in t.events && t.events[k].info.expiredHeight > height
                           && t.events[k].status == Unprocessed;
      && rows.Keys == t.events.Keys
      && rows[id] ==
           if id in turns && (id !in cached || exists k :: k in turns && k <= id && id in evicted(k))
           then WithVerdict(t, id, Outcome(h, t, dedup, e, answers[id])).events[id] else e
  {
    var table := Unexpired(t.events, height, Unprocessed);
    var turns := set k | k in t.events && t.events[k].info.expiredHeight > height && t.events[k].status == Unprocessed;
    assert table.Keys == turns;
    assert EvictedUpTo(table, evicted, id) <==> exists k :: k in turns && k <= id && id in evicted(k);
  }

  lemma StartedIsBatch(rows: seq<Event>, table: map<uint64, Event>, cached: set<uint64>, evicted: uint64 -> set<uint64>,
      started: set<uint64>)
    requires Ascending(rows, table) && forall id :: id in table ==> table[id].info.challengeId == id
    requires Started(rows, cached, evicted, |rows|, started)
    ensures started == Batch(table, cached, evicted)
    ensures forall id :: Evicted(rows, evicted, |rows|, id) ==> exists turn :: turn in table && id in evicted(turn)
  {
    forall k | 0 <= k < |rows|
      ensures var id := rows[k].info.challengeId; Evicted(rows, evicted, k + 1, id) <==> EvictedUpTo(table, evicted, id)
    {
      var id := rows[k].info.challengeId;
      if turn :| turn in table && turn <= id && id in evicted(turn) {
        assert table[turn] in rows;
        var j :| 0 <= j < |rows| && rows[j] == table[turn];
        assert j <= k;
      }
    }
    forall id | id in table ensures exists k :: 0 <= k < |rows| && rows[k].info.challengeId == id {
      assert table[id] in rows;
    }
  }

  class Verifier {
    const db: Database
    const hash: Bytes -> Bytes
    var deduplicationInterval: nat
    var cachedChallengeIds: set<uint64>

    constructor (db: Database, hash: Bytes -> Bytes, interval: nat)
      ensures this.db == db && this.hash == hash && deduplicationInterval == interval && cachedChallengeIds == {}
    {
      this.db, this.hash, deduplicationInterval, cachedChallengeIds := db, hash, interval, {};
    }

    /** One batch. The lookups and writes of the goroutines interleave in any order, and the result does not depend on
        it: every fetched row whose id is not cached at its turn gets the outcome of its own verification against the
        table as it was, and nothing else changes. `sawExpired` are the ids for which the loop happened to find an
        expiry in the shared error variable, and `evicted(id)` is what the cache dropped just before the turn of
        `id`. */
    method VerifyHash(height: Option<nat>, fetchFault: bool, answers: map<uint64, Answers>, sawExpired: set<uint64>,
        evicted: uint64 -> set<uint64>)
      returns (ok: bool)
      requires db.Valid() && AllInRange(db.events, answers)
      modifies db, this`cachedChallengeIds
      ensures db.Valid() && (ok <==> height.Some? && !fetchFault)
      ensures !ok ==> db.State() == old(db.State()) && cachedChallengeIds == old(cachedChallengeIds)
      ensures ok ==>
        var table := Unexpired(old(db.events), height.value, Unprocessed);
        var batch := Batch(table, old(cachedChallengeIds), evicted);
        && db.State() == old(db.State()).(events :=
             BatchRows(hash, old(db.State()), deduplicationInterval, batch, answers))
        // cached afterwards: what was cached or started, unless found expired, and as far as it was not evicted
        && cachedChallengeIds <= old(cachedChallengeIds) + (batch - sawExpired)
        && forall id :: id in old(cachedChallengeIds) + (batch - sawExpired) && id !in cachedChallengeIds ==>
             exists turn :: turn in table && id in evicted(turn)
    {
      if height.None? {
        return false;
      }
      var fetched := db.GetUnexpiredEventsByStatus(height.value, Unprocessed, fetchFault);
      if fetched.None? {
        return false;
      }
      var table := Unexpired(db.events, height.value, Unprocessed);
      var running := StartAll(fetched.value, sawExpired, evicted);
      StartedIsBatch(fetched.value, table, old(cachedChallengeIds), evicted, running.Keys);
      RunAll(running, answers);
      ok := true;
    }

    /** The loop that starts a goroutine for every row that is not cached, and caches its id. */
    method StartAll(rows: seq<Event>, sawExpired: set<uint64>, evicted: uint64 -> set<uint64>)
      returns (running: map<uint64, Event>)
      requires InIdOrder(rows)
      modifies this`cachedChallengeIds
      ensures Started(rows, old(cachedChallengeIds), evicted, |rows|, running.Keys)
      ensures HoldRows(rows, running)
      ensures cachedChallengeIds <= old(cachedChallengeIds) + (running.Keys - sawExpired)
      ensures forall id :: id in old(cachedChallengeIds) + (running.Keys - sawExpired) && id !in cachedChallengeIds ==>
        Evicted(rows, evicted, |rows|, id)
    {
      running := map[];
      for i := 0 to |rows|
        invariant Started(rows, old(cachedChallengeIds), evicted, i, running.Keys)
        invariant HoldRows(rows, running)
        invariant CachedAt(rows, old(cachedChallengeIds), evicted, i, running.Keys, sawExpired, cachedChallengeIds)
      {
        var id := rows[i].info.challengeId;
        StartedOneMore(rows, old(cachedChallengeIds), evicted, i, running.Keys);
        CachedOneMore(rows, old(cachedChallengeIds), evicted, i, running.Keys, sawExpired, cachedChallengeIds);
        cachedChallengeIds := cachedChallengeIds - evicted(id);
        if id !in cachedChallengeIds {
          RowAdded(rows, running, i);
          running := running[id := rows[i]];
          cachedChallengeIds := if id in sawExpired then cachedChallengeIds - {id} else cachedChallengeIds + {id};
        }
      }
    }

    /** The goroutines up to the barrier. Each screens its event against the table as it is then, and acts on the answer
        at any later time. */
    method RunAll(running: map<uint64, Event>, answers: map<uint64, Answers>)
      requires db.Valid() && AllInRange(db.events, answers)
      requires forall id :: id in running ==> id in db.events && running[id] == db.events[id]
      modifies db
      ensures db.Valid()
      ensures db.State() ==
        old(db.State()).(events := BatchRows(hash, old(db.State()), deduplicationInterval, running.Keys, answers))
    {
      ghost var t := db.State();
      assert FetchedFrom(t, running);
      var p := Progress(running.Keys, {}, map[], {});
      assert BatchRows(hash, t, deduplicationInterval, p.done, answers) == t.events;
      while p.todo + p.screened != {}
        invariant db.Valid() && ProgressOk(t, deduplicationInterval, running, answers, p)
        invariant db.State() == t.(events := BatchRows(hash, t, deduplicationInterval, p.done, answers))
        decreases MovesLeft(p)
      {
        var id :| id in p.todo + p.screened;
        p := Advance(running, answers, p, id, t);
      }
      assert p.done == running.Keys;
    }

    /** Lets the goroutine of `id` take one turn. */
    method Advance(running: map<uint64, Event>, answers: map<uint64, Answers>, p: Progress, id: uint64, ghost t: Tables)
      returns (p': Progress)
      requires db.Valid() && AllInRange(t.events, answers) && FetchedFrom(t, running) && AllInRange(running, answers)
      requires ProgressOk(t, deduplicationInterval, running, answers, p) && id in p.todo + p.screened
      requires db.State() == t.(events := BatchRows(hash, t, deduplicationInterval, p.done, answers))
      modifies db
      ensures db.Valid() && ProgressOk(t, deduplicationInterval, running, answers, p') && MovesLeft(p') < MovesLeft(p)
      ensures db.State() == t.(events := BatchRows(hash, t, deduplicationInterval, p'.done, answers))
    {
      TurnAllowed(t, deduplicationInterval, running, answers, p, id);
      var next := Turn(running[id], answers, Known(p, id), t, p.done);
      MovedOk(t, deduplicationInterval, running, answers, p, id, next);
      MoveCounts(p, id, next);
      p' := Moved(p, id, next);
    }

    /** One turn of a goroutine while others are at theirs: it screens its event and goes on, or it ends. `t` is the
        table before the batch, and `done` are the events whose goroutines have ended. */
    method Turn(ev: Event, answers: map<uint64, Answers>, known: Option<Check>, ghost t: Tables,
        ghost done: set<uint64>)
      returns (next: Option<Check>)
      requires db.Valid() && AllInRange(t.events, answers)
      requires db.State() == t.(events := BatchRows(hash, t, deduplicationInterval, done, answers))
      requires var id := ev.info.challengeId; id in t.events && t.events[id] == ev && id !in done
      requires known.Some? ==> ScreenedAs(t, deduplicationInterval, ev, answers[ev.info.challengeId], known.value)
      modifies db
      ensures db.Valid()
      ensures next.Some? ==>
        && db.State() == old(db.State()) && known.None?
        && ScreenedAs(t, deduplicationInterval, ev, answers[ev.info.challengeId], next.value)
      ensures next.None? ==>
        db.State() == t.(events := BatchRows(hash, t, deduplicationInterval, done + {ev.info.challengeId}, answers))
    {
      var id := ev.info.challengeId;
      BatchAnnouncements(hash, t, deduplicationInterval, done, answers, id);
      if known.Some? {
        Act(ev, answers[id], known.value);
        return None;
      }
      var r := ScreenNow(ev, answers[id]);
      if r == Pass || r == DuplicatedSlashing {
        return Some(r);
      }
      return None;
    }

    /** A goroutine up to the answer of its pre-check. */
    method ScreenNow(ev: Event, a: Answers) returns (r: Check)
      requires db.Valid() && InRange(ev, a)
      ensures r == Pass <==> Screens(db.State(), deduplicationInterval, ev, a)
      ensures r == DuplicatedSlashing <==> FoundDuplicate(db.State(), deduplicationInterval, ev, a)
    {
      if a.height.None? {
        return CheckError;
      }
      r := Screen(ev, a.height.value, a.heartbeat, a.lookupFault);
    }

    /** A goroutine from there on. */
    method Act(ev: Event, a: Answers, r: Check)
      requires db.Valid() && InRange(ev, a) && (r == Pass || r == DuplicatedSlashing)
      modifies db
      ensures db.Valid()
      ensures db.State() == WithVerdict(old(db.State()), ev.info.challengeId,
        if r == Pass then ScreenedOutcome(hash, ev, a) else if a.storeFault then None else Some((Duplicated, Unknown)))
    {
      if r == DuplicatedSlashing {
        var _ := db.UpdateEventStatus(ev.info.challengeId, Duplicated, a.storeFault);
      } else {
        var _, _ := VerifyScreened(ev, a);
      }
    }

    /** A zero heartbeat interval makes the source panic. */
    method PreCheck(ev: Event, height: nat, heartbeat: Option<nat>, lookupFault: bool, storeFault: bool)
      returns (r: Check, w: Written)
      requires db.Valid() && heartbeat != Some(0)
      modifies db
      ensures db.Valid() && db.State() == WithVerdict(old(db.State()), ev.info.challengeId, w)
      ensures r == Expired <==> ev.info.expiredHeight < height
      ensures r == DuplicatedSlashing <==>
        && r != Expired && heartbeat.Some? && !lookupFault
        && IsDuplicate(old(db.events), ev.info, deduplicationInterval, heartbeat.value)
      // spelled out: nobody raised the event, it is no heartbeat, and an earlier challenge of its object is recent
      ensures r == DuplicatedSlashing <==>
        && height <= ev.info.expiredHeight && heartbeat.Some? && !lookupFault
        && ev.info.challenger == [] && ev.info.challengeId % heartbeat.value != 0
        && ev.info.challengeId > deduplicationInterval
        && exists e :: e in old(db.events).Values && Precedes(e.info, ev.info, deduplicationInterval)
      ensures r == CheckError <==>
        && r != Expired
        && (heartbeat.None? || (NeedsLookup(ev.info, deduplicationInterval, heartbeat.value) && lookupFault))
      ensures w == if r == DuplicatedSlashing && !storeFault then Some((Duplicated, Unknown)) else None
    {
      w := None;
      r := Screen(ev, height, heartbeat, lookupFault);
      if r == DuplicatedSlashing {
        var ok := db.UpdateEventStatus(ev.info.challengeId, Duplicated, storeFault);
        w := if ok then Some((Duplicated, Unknown)) else None;
      }
    }

    /** The part of the pre-check that only reads. */
    method Screen(ev: Event, height: nat, heartbeat: Option<nat>, lookupFault: bool) returns (r: Check)
      requires db.Valid() && heartbeat != Some(0)
      ensures r == Expired <==> ev.info.expiredHeight < height
      ensures r == DuplicatedSlashing <==>
        && r != Expired && heartbeat.Some? && !lookupFault
        && IsDuplicate(db.events, ev.info, deduplicationInterval, heartbeat.value)
      ensures r == DuplicatedSlashing <==>
        && height <= ev.info.expiredHeight && heartbeat.Some? && !lookupFault
        && ev.info.challenger == [] && ev.info.challengeId % heartbeat.value != 0
        && ev.info.challengeId > deduplicationInterval
        && exists e :: e in db.events.Values && Precedes(e.info, ev.info, deduplicationInterval)
      ensures r == CheckError <==>
        && r != Expired
        && (heartbeat.None? || (NeedsLookup(ev.info, deduplicationInterval, heartbeat.value) && lookupFault))
    {
      if ev.info.expiredHeight < height {
        return Expired;
      }
      if heartbeat.None? {
        return CheckError;
      }
      var id := ev.info.challengeId;
      if ev.info.challenger == [] && id % heartbeat.value != 0 && id > deduplicationInterval {
        var found := db.IsEventExistsBetween(ev.info.objectId, ev.info.sp, id - deduplicationInterval, id - 1,
          lookupFault);
        if found.None? {
          return CheckError;
        }
        EarlierTwin(db.events, ev.info, deduplicationInterval);
        if found.value {
          return DuplicatedSlashing;
        }
      }
      return Pass;
    }

    /** Out-of-range indices make the source panic, hence the bounds on what chain and SP return. */
    method VerifyForSingleEvent(ev: Event, a: Answers) returns (ok: bool, w: Written)
      requires db.Valid() && InRange(ev, a)
      modifies db
      // the whole effect is one write, and one that a verifier task of the step system may make
      ensures db.Valid() && db.State() == WithVerdict(old(db.State()), ev.info.challengeId, w)
      ensures w.Some? ==> a.heartbeat.Some? && VerdictAllowed(
        if IsDuplicate(old(db.events), ev.info, deduplicationInterval, a.heartbeat.value)
        then MarkDuplicate else Passed,
        w.value.0, w.value.1)
      // and exactly when it gets a verdict, and which
      ensures w.Some? && w.value.0 == Verified <==>
        && Screens(old(db.State()), deduplicationInterval, ev, a) && a.endpointFound && a.chainChecksums.Some?
        && SpVerdict(hash, ev, a) != Unknown && !a.storeFault
      ensures w.Some? && w.value.0 == Verified ==> w.value.1 == SpVerdict(hash, ev, a)
      ensures w.Some? && w.value.0 == VerificationFailed <==>
        && Screens(old(db.State()), deduplicationInterval, ev, a)
        && !(a.endpointFound && a.chainChecksums.Some?) && !a.storeFault
      ensures w.Some? && w.value.0 == Duplicated <==>
        FoundDuplicate(old(db.State()), deduplicationInterval, ev, a) && !a.storeFault
      ensures w == Outcome(hash, old(db.State()), deduplicationInterval, ev, a)
      // a provider that does not answer is at fault, an unreadable piece is no verdict, and otherwise the roots decide
      ensures w.Some? && w.value.0 == Verified && a.reply.None? ==> w.value.1 == HashMismatched
      ensures w.Some? && w.value.0 == Verified && a.reply.Some? ==>
        && a.reply.value.piece.Some?
        && (w.value.1 == HashMatched <==> RootsAgree(hash, ev, a))
        && (w.value.1 == HashMismatched <==> RootsDiffer(hash, ev, a))
      ensures ok ==> w.Some?
    {
      ok, w := false, None;
      if a.height.None? {
        return;
      }
      var check, duplicate := PreCheck(ev, a.height.value, a.heartbeat, a.lookupFault, a.storeFault);
      if check != Pass {
        return false, duplicate;
      }
      ok, w := VerifyScreened(ev, a);
    }

    /** What follows the pre-check: endpoint, original checksums, the piece, the verdict. */
    method VerifyScreened(ev: Event, a: Answers) returns (ok: bool, w: Written)
      requires db.Valid() && InRange(ev, a)
      modifies db
      ensures db.Valid() && db.State() == WithVerdict(old(db.State()), ev.info.challengeId, w)
      ensures w == ScreenedOutcome(hash, ev, a)
      ensures ok ==> w.Some?
    {
      ok, w := false, None;
      var id := ev.info.challengeId;
      if !a.endpointFound || a.chainChecksums.None? {
        ok := db.UpdateEventStatus(id, VerificationFailed, a.storeFault);
        return ok, if ok then Some((VerificationFailed, Unknown)) else None;
      }
      var chainRootHash := a.chainChecksums.value[ev.info.redundancyIndex + 1];
      if a.reply.None? {
        ok := db.UpdateEventStatusVerifyResult(id, Verified, HashMismatched, a.storeFault);
        return ok, if ok then Some((Verified, HashMismatched)) else None;
      }
      var SpReply(piece, piecesHash) := a.reply.value;
      if piece.None? {
        return;
      }
      var spChecksums := new Bytes[|piecesHash|](i requires 0 <= i < |piecesHash| => piecesHash[i]);
      assert spChecksums[..] == piecesHash;
      var spRootHash := ComputeRootHash(hash, ev.info.segmentIndex, piece.value, spChecksums);
      ok, w := CompareHashAndUpdate(id, chainRootHash, spRootHash, a.storeFault);
    }

    method CompareHashAndUpdate(id: uint64, chainRootHash: Bytes, spRootHash: Bytes, storeFault: bool)
      returns (ok: bool, w: Written)
      requires db.Valid()
      modifies db
      ensures db.Valid() && db.State() == WithVerdict(old(db.State()), id, w)
      ensures ok == w.Some? == !storeFault
      ensures w.Some? ==> w.value == (Verified, if chainRootHash == spRootHash then HashMatched else HashMismatched)
    {
      if chainRootHash == spRootHash {
        ok := db.UpdateEventStatusVerifyResult(id, Verified, HashMatched, storeFault);
        return ok, if ok then Some((Verified, HashMatched)) else None;
      }
      ok := db.UpdateEventStatusVerifyResult(id, Verified, HashMismatched, storeFault);
      return ok, if ok then Some((Verified, HashMismatched)) else None;
    }
  }

  /** Every write VerifyForSingleEvent can make is one that a task of the step system makes in its two steps, with the
      same effect on the tables. */
  lemma VerificationIsSteps(c: Config, s: System, ev: Event, dedup: nat, heartbeat: nat, status: EventStatus,
      result: VerifyResult)
    requires !s.panicked && heartbeat > 0
    requires var id := ev.info.challengeId; id in s.verifier.tasks && s.verifier.tasks[id] == VerifyTask(ev, Fetched)
    requires var phase := if IsDuplicate(s.db.events, ev.info, dedup, heartbeat) then MarkDuplicate else Passed;
      VerdictAllowed(phase, status, result)
    ensures var id := ev.info.challengeId;
      var r := RunFrom(c, s, [Verifier(CheckDuplicate(id, dedup, heartbeat)),
        Verifier(StoreVerdict(id, status, result))]);
      r.Some? && r.value.db == WithVerdict(s.db, id, Some((status, result)))
  {
    var id := ev.info.challengeId;
    var check, store := Step.Verifier(CheckDuplicate(id, dedup, heartbeat)),
      Step.Verifier(StoreVerdict(id, status, result));
    RunAppend(c, s, [], check);
    assert [] + [check] == [check] && [check] + [store] == [check, store];
    RunAppend(c, s, [check], store);
  }
}
