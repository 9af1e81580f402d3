/** submitter/tx_submitter.go: the cached event hash, the aggregate to submit, and the retry loop of one event. */
module TxSubmitter {
  import opened Types
  import opened Store
  import opened EventHash
  import opened Dao
  import opened Certification
  import opened Pipeline

  const MAX_SUBMIT_ATTEMPTS := 5

  /** What one iteration of the retry loop came to. After an answer that ends the event for the chain, the row is
      updated. */
  datatype Action =
    | NoNonce
    | Refused
    | Answered(slashed: bool, store: StoreOutcome)

  const DONE := Answered(false, Stored)

  /** The outside world, per iteration: the clock at its start, and how each call answers. */
  datatype World =
    World(clock: nat -> int, nonceOk: nat -> bool, reply: nat -> AttestReply, store: nat -> StoreOutcome)

  function ActionAt(w: World, i: nat): Action {
    if !w.nonceOk(i) then NoNonce
    else
      match w.reply(i)
      case Rejected => Refused
      case DuplicatedSlashError => Answered(true, w.store(i))
      case Success => Answered(false, w.store(i))
  }

  /** The loop ends: a duplicated slash is given up whatever became of the row, a success once it is known to be
      stored. */
  predicate Final(a: Action) {
    a.Answered? && (a.slashed || a.store == Stored)
  }

  /** Refused calls among the first `n` iterations. */
  function Refusals(w: World, n: nat): nat {
    if n == 0 then 0 else Refusals(w, n - 1) + if ActionAt(w, n - 1) == Refused then 1 else 0
  }

  function Effect(t: Tables, id: uint64, a: Action): Tables {
    if a.Answered? && a.store != Lost
    then t.(events := SetStatus(t.events, id, if a.slashed then DuplicatedSlash else Submitted))
    else t
  }

  /** The tables after these iterations. */
  function StoredBy(t: Tables, id: uint64, trace: seq<Action>): Tables {
    if trace == [] then t else Effect(StoredBy(t, id, trace[..|trace| - 1]), id, trace[|trace| - 1])
  }

  /** An iteration stored the row. */
  predicate Stores(a: Action, slashed: bool) {
    a.Answered? && a.slashed == slashed && a.store != Lost
  }

  /** Only the row's status is ever touched: DuplicatedSlash when the last iteration stored that, else Submitted when
      any iteration stored that, with or without its answer. */
  lemma {:induction false} StoredByMeaning(t: Tables, id: uint64, trace: seq<Action>)
    requires forall i :: 0 <= i < |trace| - 1 ==> !Final(trace[i])
    ensures StoredBy(t, id, trace) ==
      if trace != [] && Stores(trace[|trace| - 1], true) then t.(events := SetStatus(t.events, id, DuplicatedSlash))
      else if exists i :: 0 <= i < |trace| && Stores(trace[i], false) then
        t.(events := SetStatus(t.events, id, Submitted))
      else t
  {
    if trace != [] {
      var front := trace[..|trace| - 1];
      var last := trace[|trace| - 1];
      StoredByMeaning(t, id, front);
      if Stores(last, false) {
        assert Stores(trace[|front|], false);
      } else if i :| 0 <= i < |front| && Stores(front[i], false) {
        assert Stores(trace[i], false);
      } else {
        assert forall i :: 0 <= i < |front| ==> trace[i] == front[i];
      }
    }
  }

  /** Iteration `i` may start: in time, and not after too many refusals. */
  predicate MayStart(w: World, periodEnd: int, i: nat) {
    w.clock(i) <= periodEnd && Refusals(w, i) <= MAX_SUBMIT_ATTEMPTS
  }

  // ---------------------------------------------------------------------------------------------
  // What the chain and the database answered, and what follows from it

  /** The chain was asked in iteration `i` and answered this. */
  predicate Answers(w: World, i: nat, reply: AttestReply) {
    w.nonceOk(i) && w.reply(i) == reply
  }

  /** It accepted the call, and the database acknowledged the update. */
  predicate Succeeds(w: World, i: nat) {
    Answers(w, i, Success) && w.store(i) == Stored
  }

  /** After this answer the row was updated, whether the database said so or not. */
  predicate Updates(w: World, i: nat, reply: AttestReply) {
    Answers(w, i, reply) && w.store(i) != Lost
  }

  /** Iterations among the first `n` whose call the chain refused. */
  function RefusedCalls(w: World, n: nat): set<nat> {
    set i | 0 <= i < n && Answers(w, i, Rejected) :: i
  }

  lemma {:induction false} RefusalsCounted(w: World, n: nat)
    ensures |RefusedCalls(w, n)| == Refusals(w, n)
  {
    if n == 0 {
      assert RefusedCalls(w, 0) == {};
    } else {
      RefusalsCounted(w, n - 1);
      var last := if Answers(w, n - 1, Rejected) then {n - 1} else {};
      assert RefusedCalls(w, n) == RefusedCalls(w, n - 1) + last;
    }
  }

  /** Only an acknowledged success or a duplicated slash ends the loop, and only an accepted call or a duplicated slash
      stores anything. */
  lemma {:induction false} IterationMeaning(w: World, i: nat)
    ensures var a := ActionAt(w, i);
      && (Final(a) <==> Answers(w, i, DuplicatedSlashError) || Succeeds(w, i))
      && (a == DONE <==> Succeeds(w, i))
      && (a == Refused <==> Answers(w, i, Rejected))
      && (Stores(a, false) <==> Updates(w, i, Success))
      && (Stores(a, true) <==> Updates(w, i, DuplicatedSlashError))
  {
  }

  /** What an iteration leaves of the tables: a refused call or a missing nonce changes nothing. */
  lemma {:induction false} EffectMeaning(t: Tables, w: World, i: nat, id: uint64)
    ensures var t' := Effect(t, id, ActionAt(w, i));
      && t'.blocks == t.blocks && t'.votes == t.votes && t'.events.Keys == t.events.Keys
      && (forall k :: k in t.events && k != id ==> t'.events[k] == t.events[k])
      && (id in t.events ==> t'.events[id] == t.events[id].(status :=
            if !w.nonceOk(i) || w.reply(i) == Rejected || w.store(i) == Lost then t.events[id].status
            else if w.reply(i) == Success then Submitted else DuplicatedSlash))
  {
  }

  /** The tables after these iterations, by what was answered. */
  function TablesAfter(w: World, n: nat, t: Tables, id: uint64): Tables {
    if n > 0 && Updates(w, n - 1, DuplicatedSlashError) then t.(events := SetStatus(t.events, id, DuplicatedSlash))
    else if exists i :: 0 <= i < n && Updates(w, i, Success) then t.(events := SetStatus(t.events, id, Submitted))
    else t
  }

  lemma {:induction false} StoredByWorld(w: World, trace: seq<Action>, t: Tables, id: uint64)
    requires forall i :: 0 <= i < |trace| ==> trace[i] == ActionAt(w, i)
    requires forall i :: 0 <= i < |trace| - 1 ==> !Final(trace[i])
    ensures StoredBy(t, id, trace) == TablesAfter(w, |trace|, t, id)
  {
    StoredByMeaning(t, id, trace);
    forall i | 0 <= i < |trace|
      ensures Stores(trace[i], false) <==> Updates(w, i, Success)
      ensures Stores(trace[i], true) <==> Updates(w, i, DuplicatedSlashError)
    {
      IterationMeaning(w, i);
    }
  }

  /** The loop over the world ends after `n` iterations, as the source promises: it stops at a duplicated slash, at a
      success that is known to be stored, after the period, or after six refused calls, and at nothing else. */
  ghost predicate EndsAfter(w: World, periodEnd: int, n: nat) {
    && (forall i :: 0 <= i < n ==> w.clock(i) <= periodEnd)
    && (forall i :: 0 <= i < n - 1 ==> !Answers(w, i, DuplicatedSlashError) && !Succeeds(w, i))
    && |RefusedCalls(w, n)| <= 6
    && (|| (n > 0 && (Answers(w, n - 1, DuplicatedSlashError) || Succeeds(w, n - 1)))
        || w.clock(n) > periodEnd
        || |RefusedCalls(w, n)| == 6)
  }

  /** The trace follows the world up to the first reason to stop. */
  ghost predicate Stopped(w: World, periodEnd: int, trace: seq<Action>) {
    && (forall i :: 0 <= i < |trace| ==> trace[i] == ActionAt(w, i) && MayStart(w, periodEnd, i))
    && (forall i :: 0 <= i < |trace| - 1 ==> !Final(trace[i]))
    && ((trace != [] && Final(trace[|trace| - 1])) || !MayStart(w, periodEnd, |trace|))
    && Refusals(w, |trace|) <= MAX_SUBMIT_ATTEMPTS + 1
  }

  lemma {:induction false} TraceMeaning(w: World, periodEnd: int, trace: seq<Action>)
    requires Stopped(w, periodEnd, trace)
    ensures EndsAfter(w, periodEnd, |trace|)
    ensures (trace != [] && trace[|trace| - 1] == DONE) <==> (trace != [] && Succeeds(w, |trace| - 1))
  {
    RefusalsCounted(w, |trace|);
    forall i | 0 <= i < |trace|
      ensures Final(trace[i]) <==> Answers(w, i, DuplicatedSlashError) || Succeeds(w, i)
      ensures trace[i] == DONE <==> Succeeds(w, i)
      ensures w.clock(i) <= periodEnd
    {
      IterationMeaning(w, i);
    }
  }

  /** The clock never goes back, and at iteration `deadline` the period is over. */
  ghost predicate PassesAt(w: World, periodEnd: int, deadline: nat) {
    (forall i, j :: 0 <= i <= j ==> w.clock(i) <= w.clock(j)) && w.clock(deadline) > periodEnd
  }

  lemma {:induction false} StartsBefore(w: World, periodEnd: int, deadline: nat, i: nat)
    requires PassesAt(w, periodEnd, deadline) && MayStart(w, periodEnd, i)
    ensures i < deadline
  {
  }

  /** So far it is the world's trace, and nothing has ended the loop. */
  ghost predicate GoesOn(w: World, periodEnd: int, trace: seq<Action>) {
    forall i :: 0 <= i < |trace| ==> trace[i] == ActionAt(w, i) && !Final(trace[i]) && MayStart(w, periodEnd, i)
  }

  lemma {:induction false} StopsUnless(w: World, periodEnd: int, trace: seq<Action>)
    requires GoesOn(w, periodEnd, trace) && Refusals(w, |trace|) <= MAX_SUBMIT_ATTEMPTS + 1
    ensures MayStart(w, periodEnd, |trace|) || Stopped(w, periodEnd, trace)
  {
  }

  lemma {:induction false} OneMoreAction(w: World, periodEnd: int, trace: seq<Action>, t: Tables, id: uint64)
    requires GoesOn(w, periodEnd, trace) && MayStart(w, periodEnd, |trace|)
    ensures var a := ActionAt(w, |trace|);
      && StoredBy(t, id, trace + [a]) == Effect(StoredBy(t, id, trace), id, a)
      && (!Final(a) ==> GoesOn(w, periodEnd, trace + [a]))
      && (Final(a) && Refusals(w, |trace|) <= MAX_SUBMIT_ATTEMPTS + 1 ==> Stopped(w, periodEnd, trace + [a]))
  {
    StoredByOneMore(t, id, trace, ActionAt(w, |trace|));
    if Final(ActionAt(w, |trace|)) && Refusals(w, |trace|) <= MAX_SUBMIT_ATTEMPTS + 1 {
      LastAction(w, periodEnd, trace, ActionAt(w, |trace|));
    }
  }

  lemma {:induction false} LastAction(w: World, periodEnd: int, trace: seq<Action>, a: Action)
    requires GoesOn(w, periodEnd, trace) && MayStart(w, periodEnd, |trace|) && Final(a) && a == ActionAt(w, |trace|)
    requires Refusals(w, |trace|) <= MAX_SUBMIT_ATTEMPTS + 1
    ensures Stopped(w, periodEnd, trace + [a])
  {
    var n, more := |trace|, trace + [a];
    assert more[..n] == trace && more[n] == a && |more| == n + 1;
    forall i | 0 <= i < n ensures more[i] == ActionAt(w, i) && MayStart(w, periodEnd, i) && !Final(more[i]) {
      assert more[i] == trace[i];
    }
    FinalNotRefused(w, n);
  }

  lemma {:induction false} FinalNotRefused(w: World, n: nat)
    requires Final(ActionAt(w, n))
    ensures Refusals(w, n + 1) == Refusals(w, n)
  {
  }

  lemma {:induction false} StoredByOneMore(t: Tables, id: uint64, trace: seq<Action>, a: Action)
    ensures StoredBy(t, id, trace + [a]) == Effect(StoredBy(t, id, trace), id, a)
  {
    var more := trace + [a];
    assert more[..|more| - 1] == trace;
  }

  class Submitter {
    const db: Database
    const c: Config
    var cachedEventHash: map<uint64, Bytes>

    constructor (db: Database, c: Config)
      ensures this.db == db && this.c == c && cachedEventHash == map[]
    {
      this.db, this.c, cachedEventHash := db, c, map[];
    }

    /** None is the panic of CalculateEventHash. */
    method GetEventHash(ev: Event) returns (digest: Option<Bytes>)
      modifies this`cachedEventHash
      ensures digest == CachedDigest(c, old(cachedEventHash), ev.info.challengeId, ev)
      ensures ev.info.challengeId in old(cachedEventHash) ==> digest == Some(old(cachedEventHash)[ev.info.challengeId])
      ensures ev.info.challengeId !in old(cachedEventHash) ==> digest == EventDigest(c.keccak, c.chainId, ev)
      ensures cachedEventHash ==
        if digest.Some? then old(cachedEventHash)[ev.info.challengeId := digest.value] else old(cachedEventHash)
    {
      if ev.info.challengeId in cachedEventHash {
        digest := Some(cachedEventHash[ev.info.challengeId]);
        return;
      }
      digest := CalculateEventHash(c.keccak, c.chainId, ev);
      if digest.Some? {
        cachedEventHash := cachedEventHash[ev.info.challengeId := digest.value];
      }
    }

    /** Signatures and bitset are made from one and the same list of stored votes for the event's hash. */
    method GetSignatureAndBitSet(ev: Event, fetchFault: bool, validators: Option<seq<Bytes>>, parsed: bool)
      returns (r: Option<(multiset<Signature>, set<nat>)>)
      requires ev.verifyResult != Unknown
      modifies this`cachedEventHash
      ensures r.None? <==> fetchFault || validators.None? || !parsed
      ensures r.Some? ==>
        var digest := CachedDigest(c, old(cachedEventHash), ev.info.challengeId, ev).value;
        var votes := VotesFor(db.votes, Hex(digest));
        r.value == (Aggregate(votes), SignerBits(votes, validators.value))
      ensures cachedEventHash ==
        var id := ev.info.challengeId;
        old(cachedEventHash)[id := CachedDigest(c, old(cachedEventHash), id, ev).value]
    {
      var eventHash := GetEventHash(ev);
      var votes := db.GetVotesByEventHash(Hex(eventHash.value), fetchFault);
      if votes.None? || validators.None? {
        return None;
      }
      var aggregate, bits := AggregateSignatureAndValidatorBitSet(votes.value, validators.value, parsed);
      if aggregate.None? {
        return None;
      }
      r := Some((aggregate.value, bits));
    }

    /** The retry loop. Nonce errors and stores that report an error retry without counting, so only the clock bounds
        them: `deadline` is an iteration at which the period is over. The trace says what every iteration did. */
    method SubmitTransactionLoop(ev: Event, periodEnd: int, w: World, ghost deadline: nat)
      returns (submitted: bool, trace: seq<Action>)
      requires db.Valid()
      requires PassesAt(w, periodEnd, deadline)
      modifies db
      ensures db.Valid() && db.State() == StoredBy(old(db.State()), ev.info.challengeId, trace)
      // the trace follows the world up to the first reason to stop: at most six refused calls, none after the period
      ensures Stopped(w, periodEnd, trace) && |trace| <= deadline
      // the same in terms of what the chain and the database answered
      ensures EndsAfter(w, periodEnd, |trace|)
      ensures submitted <==> trace != [] && Succeeds(w, |trace| - 1)
      ensures db.State() == TablesAfter(w, |trace|, old(db.State()), ev.info.challengeId)
      ensures submitted <==> trace != [] && trace[|trace| - 1] == DONE
    {
      submitted, trace := false, [];
      var submittedAttempts := 0;
      var i := 0;
      while true
        invariant db.Valid() && db.State() == StoredBy(old(db.State()), ev.info.challengeId, trace)
        invariant i == |trace| <= deadline && submittedAttempts == Refusals(w, i) <= MAX_SUBMIT_ATTEMPTS + 1
        invariant GoesOn(w, periodEnd, trace) && !submitted
        decreases deadline - i
      {
        StopsUnless(w, periodEnd, trace);
        if w.clock(i) > periodEnd {
          break;
        }
        if submittedAttempts > MAX_SUBMIT_ATTEMPTS {
          break;
        }
        StartsBefore(w, periodEnd, deadline, i);
        var action := Attempt(ev, w, i);
        if action == Refused {
          submittedAttempts := submittedAttempts + 1;
        }
        OneMoreAction(w, periodEnd, trace, old(db.State()), ev.info.challengeId);
        trace := trace + [action];
        i := i + 1;
        if Final(action) {
          submitted := action == DONE;
          break;
        }
      }
      TraceMeaning(w, periodEnd, trace);
      StoredByWorld(w, trace, old(db.State()), ev.info.challengeId);
    }

    /** The body of the loop: nonce, the call, and the update its answer leads to. */
    method Attempt(ev: Event, w: World, i: nat) returns (action: Action)
      requires db.Valid()
      modifies db
      ensures db.Valid() && db.State() == Effect(old(db.State()), ev.info.challengeId, action)
      ensures action == ActionAt(w, i)
    {
      if !w.nonceOk(i) {
        return NoNonce;
      }
      var reply := w.reply(i);
      if reply != Success {
        if reply == DuplicatedSlashError {
          var store := w.store(i);
          var _ := db.UpdateEventStatus(ev.info.challengeId, DuplicatedSlash, store != Stored, store == Unacknowledged);
          return Answered(true, store);
        }
        return Refused;
      }
      var store := w.store(i);
      var _ := db.UpdateEventStatus(ev.info.challengeId, Submitted, store != Stored, store == Unacknowledged);
      return Answered(false, store);
    }
  }

  // ---------------------------------------------------------------------------------------------
  // The loop is a run of the step system

  /** The steps one iteration takes. */
  function StepsOf(a: Action): seq<Step> {
    match a
    case NoNonce => []
    case Refused => [Step.Submitter(Attest(Rejected))]
    case Answered(slashed, store) =>
      [Step.Submitter(Attest(if slashed then DuplicatedSlashError else Success)), Step.Submitter(StoreSubmitted(store))]
  }

  function StepsOfAll(trace: seq<Action>): seq<Step> {
    if trace == [] then [] else StepsOfAll(trace[..|trace| - 1]) + StepsOf(trace[|trace| - 1])
  }

  /** Still trying the same event. */
  ghost predicate StillTrying(s: System, s': System) {
    s.submitter.current.Some? && s'.submitter.current == s.submitter.current && !s'.panicked
  }

  /** One iteration from a state in which an event is being submitted. */
  lemma {:induction false} IterationIsSteps(c: Config, s: System, start: System, steps: seq<Step>, a: Action)
    requires RunFrom(c, start, steps) == Some(s) && !s.panicked
    requires s.submitter.current.Some? && s.submitter.current.value.phase == Trying
    ensures var r := RunFrom(c, start, steps + StepsOf(a));
      && r.Some?
      && (!Final(a) ==> StillTrying(s, r.value))
      && r.value.db == Effect(s.db, s.submitter.current.value.ev.info.challengeId, a)
  {
    var todo := StepsOf(a);
    if todo == [] {
      assert steps + todo == steps;
    } else {
      RunAppend(c, start, steps, todo[0]);
      if |todo| == 1 {
        assert steps + todo == steps + [todo[0]];
      } else {
        RunAppend(c, start, steps + [todo[0]], todo[1]);
        assert steps + todo == steps + [todo[0]] + [todo[1]];
      }
    }
  }

  /** Every trace the loop can produce is a run of the submitter's steps, with the same effect on the tables. */
  lemma {:induction false} LoopIsRun(c: Config, s: System, trace: seq<Action>)
    requires !s.panicked && s.submitter.current.Some? && s.submitter.current.value.phase == Trying
    requires forall i :: 0 <= i < |trace| - 1 ==> !Final(trace[i])
    ensures var r := RunFrom(c, s, StepsOfAll(trace));
      && r.Some?
      && (trace == [] || !Final(trace[|trace| - 1]) ==> StillTrying(s, r.value))
      && r.value.db == StoredBy(s.db, s.submitter.current.value.ev.info.challengeId, trace)
  {
    if trace != [] {
      var front := trace[..|trace| - 1];
      LoopIsRun(c, s, front);
      IterationIsSteps(c, RunFrom(c, s, StepsOfAll(front)).value, s, StepsOfAll(front), trace[|trace| - 1]);
    }
  }
}
