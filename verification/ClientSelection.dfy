/** executor/client.go: asking all nodes for their height in parallel and choosing the most advanced one. */
module ClientSelection {
  import opened Types
  import opened Certification

  /** A client's goroutine: waiting for the node, blocked on the channel, received by the loop, done. */
  datatype Phase = Asking | Sending(height: int) | Received | Finished

  datatype Rendezvous = Rendezvous(
    clients: seq<Phase>,
    answers: seq<Option<int>>,     // ghost: what each node answered
    received: set<nat>,            // ghost: clients whose answer reached the loop
    maxHeight: int,
    best: nat,
    closed: bool,                  // waitCh
    returned: bool,
    iterations: nat)

  datatype Step =
    | Answer(i: nat, height: int)
    | Fail(i: nat)
    | Receive(i: nat)
    | Leave(i: nat)
    | Close
    | Return

  function Start(n: nat): Rendezvous {
    Rendezvous(seq(n, _ => Asking), seq(n, _ => None), {}, 0, 0, false, false, 0)
  }

  predicate Enabled(r: Rendezvous, step: Step) {
    match step
    case Answer(i, _) => i < |r.clients| && r.clients[i] == Asking
    case Fail(i) => i < |r.clients| && r.clients[i] == Asking
    case Receive(i) => i < |r.clients| && r.clients[i].Sending? && !r.returned
    case Leave(i) => i < |r.clients| && r.clients[i] == Received
    case Close => !r.closed && forall i :: 0 <= i < |r.clients| ==> r.clients[i] == Finished
    case Return => r.closed && !r.returned
  }

  /** One select case of the loop. */
  function Choose(maxHeight: int, best: nat, i: nat, height: int): (int, nat) {
    if height > maxHeight then (height, i) else (maxHeight, best)
  }

  function Next(r: Rendezvous, step: Step): Rendezvous
    requires Enabled(r, step) && |r.answers| == |r.clients|
  {
    match step
    case Answer(i, h) => r.(clients := r.clients[i := Sending(h)], answers := r.answers[i := Some(h)])
    case Fail(i) => r.(clients := r.clients[i := Finished])
    case Receive(i) =>
      var (maxHeight, best) := Choose(r.maxHeight, r.best, i, r.clients[i].height);
      r.(clients := r.clients[i := Received], received := r.received + {i}, maxHeight := maxHeight, best := best,
         iterations := r.iterations + 1)
    case Leave(i) => r.(clients := r.clients[i := Finished])
    case Close => r.(closed := true)
    case Return => r.(returned := true, iterations := r.iterations + 1)
  }

  /** The greatest positive height among these answers, or the first client when there is none. */
  predicate IsBest(answers: seq<Option<int>>, among: set<nat>, best: nat, height: int) {
    && (forall i :: 0 <= i < |answers| && i in among && answers[i].Some? ==> answers[i].value <= height)
    && (if height > 0 then best < |answers| && best in among && answers[best] == Some(height)
        else height == 0 && best == 0)
  }

  predicate IsBestOfAll(answers: seq<Option<int>>, best: nat, height: int) {
    && (forall i :: 0 <= i < |answers| && answers[i].Some? ==> answers[i].value <= height)
    && (if height > 0 then best < |answers| && answers[best] == Some(height) else height == 0 && best == 0)
  }

  ghost predicate Inv(r: Rendezvous) {
    && |r.answers| == |r.clients|
    && (forall i :: i in r.received ==> i < |r.clients|)
    && (forall i :: 0 <= i < |r.clients| ==>
          match r.clients[i]
          case Asking => r.answers[i] == None && i !in r.received
          case Sending(h) => r.answers[i] == Some(h) && i !in r.received
          case Received => r.answers[i].Some? && i in r.received
          case Finished => r.answers[i].Some? <==> i in r.received)
    && (r.closed ==> forall i :: 0 <= i < |r.clients| ==> r.clients[i] == Finished)
    && (r.returned ==> r.closed)
    && IsBest(r.answers, r.received, r.best, r.maxHeight)
    && r.iterations == |r.received| + if r.returned then 1 else 0
  }

  lemma {:induction false} ReceiveKeepsInv(r: Rendezvous, i: nat)
    requires Inv(r) && Enabled(r, Receive(i))
    ensures Inv(Next(r, Receive(i))) && |Next(r, Receive(i)).clients| == |r.clients|
  {
    assert r.answers[i] == Some(r.clients[i].height) && i !in r.received;
    assert |r.received + {i}| == |r.received| + 1;
  }

  lemma {:induction false} InvStep(r: Rendezvous, step: Step)
    requires Inv(r) && Enabled(r, step)
    ensures Inv(Next(r, step)) && |Next(r, step).clients| == |r.clients|
  {
    match step
    case Answer(_, _) =>
    case Fail(_) =>
    case Receive(i) => ReceiveKeepsInv(r, i);
    case Leave(_) =>
    case Close =>
    case Return =>
  }

  /** The state after a schedule, or None when the schedule cannot happen. */
  ghost function Run(n: nat, schedule: seq<Step>): (r: Option<Rendezvous>)
    ensures r.Some? ==> Inv(r.value) && |r.value.clients| == n
  {
    if schedule == [] then Some(Start(n))
    else
      match Run(n, schedule[..|schedule| - 1])
      case None => None
      case Some(r) =>
        var step := schedule[|schedule| - 1];
        if Enabled(r, step) then InvStep(r, step); Some(Next(r, step)) else None
  }

  /** Steps that are still to come, at most. */
  function Remaining(clients: seq<Phase>): nat {
    if clients == [] then 0 else
      Remaining(clients[..|clients| - 1]) +
      match clients[|clients| - 1] case Asking => 3 case Sending(_) => 2 case Received => 1 case Finished => 0
  }

  lemma {:induction false} RemainingDrops(clients: seq<Phase>, i: nat, phase: Phase)
    requires i < |clients|
    requires match clients[i] case Asking => phase.Sending? || phase.Finished?
                              case Sending(_) => phase.Received?
                              case Received => phase.Finished?
                              case Finished => false
    ensures Remaining(clients[i := phase]) < Remaining(clients)
  {
    var front := clients[..|clients| - 1];
    if i == |clients| - 1 {
      assert clients[i := phase][..i] == front;
    } else {
      RemainingDrops(front, i, phase);
      assert clients[i := phase][..|clients| - 1] == front[i := phase];
    }
  }

  function Measure(r: Rendezvous): nat {
    Remaining(r.clients) + (if r.closed then 0 else 1) + (if r.returned then 0 else 1)
  }

  /** What one state of a schedule guarantees about its future. */
  ghost predicate Progresses(r: Rendezvous)
    requires |r.answers| == |r.clients|
  {
    && (!r.returned ==> exists step :: Enabled(r, step))
    && (forall step :: Enabled(r, step) ==> Measure(Next(r, step)) < Measure(r))
  }

  /** No schedule gets stuck before the loop returns, and none goes on forever. */
  lemma AlwaysReturns(n: nat, schedule: seq<Step>)
    ensures var r := Run(n, schedule); r.Some? ==> Progresses(r.value)
  {
    if Run(n, schedule).Some? {
      var r := Run(n, schedule).value;
      if !r.returned {
        if r.closed {
          assert Enabled(r, Return);
        } else if i :| 0 <= i < |r.clients| && r.clients[i] != Finished {
          assert Enabled(r, Fail(i)) || Enabled(r, Receive(i)) || Enabled(r, Leave(i));
        } else {
          assert Enabled(r, Close);
        }
      }
      forall step | Enabled(r, step) ensures Measure(Next(r, step)) < Measure(r) {
        match step
        case Answer(i, h) => RemainingDrops(r.clients, i, Sending(h));
        case Fail(i) => RemainingDrops(r.clients, i, Finished);
        case Receive(i) => RemainingDrops(r.clients, i, Received);
        case Leave(i) => RemainingDrops(r.clients, i, Finished);
        case Close =>
        case Return =>
      }
    }
  }

  /** Once the channel is closed no answer is outstanding; the loop is not too long; its result is the best client. */
  ghost predicate Correct(r: Rendezvous)
    requires |r.answers| == |r.clients|
  {
    && (r.closed ==> forall i :: 0 <= i < |r.clients| && r.answers[i].Some? ==> i in r.received)
    && r.iterations <= |r.clients| + 1
    && (r.returned ==> IsBestOfAll(r.answers, r.best, r.maxHeight))
    && (r.returned ==>
          if exists i :: 0 <= i < |r.answers| && r.answers[i].Some? && r.answers[i].value > 0
          then
            && r.best < |r.answers| && r.answers[r.best].Some?
            && forall i :: 0 <= i < |r.answers| && r.answers[i].Some? ==>
                 r.answers[i].value <= r.answers[r.best].value
          else r.best == 0)
  }

  lemma {:induction false} InvMeansCorrect(r: Rendezvous)
    requires Inv(r)
    ensures Correct(r)
  {
    BoundedSize(r.received, |r.clients|);
  }

  /** In every schedule the channel closes only after every answer was received, so the loop returns the client with the
      greatest height, or the first client when no node reports a positive height, within one iteration more than there
      are clients. */
  lemma {:induction false} PicksMostAdvanced(n: nat, schedule: seq<Step>)
    ensures var run := Run(n, schedule); run.Some? ==> |run.value.clients| == n && Correct(run.value)
  {
    var run := Run(n, schedule);
    if run.Some? { InvMeansCorrect(run.value); }
  }

  /** The select loop for one order of arrival, the channel being closed after the last one. */
  method GetClient(answers: seq<Option<int>>, arrivals: seq<nat>) returns (maxHeightClient: nat)
    requires |answers| > 0
    requires forall k :: 0 <= k < |arrivals| ==> arrivals[k] < |answers| && answers[arrivals[k]].Some?
    requires forall i :: 0 <= i < |answers| && answers[i].Some? ==> i in arrivals
    ensures maxHeightClient < |answers|
    ensures exists height :: IsBestOfAll(answers, maxHeightClient, height)
    // spelled out: a positive answer that none exceeds, or the first client when there is no positive answer
    ensures (exists i :: 0 <= i < |answers| && answers[i].Some? && answers[i].value > 0) ==>
      && answers[maxHeightClient].Some?
      && forall i :: 0 <= i < |answers| && answers[i].Some? ==> answers[i].value <= answers[maxHeightClient].value
    ensures (forall i :: 0 <= i < |answers| && answers[i].Some? ==> answers[i].value <= 0) ==> maxHeightClient == 0
  {
    var maxHeight := 0;
    maxHeightClient := 0;
    for k := 0 to |arrivals|
      invariant IsBest(answers, (set i | i in arrivals[..k]), maxHeightClient, maxHeight)
    {
      var c := arrivals[k];
      assert arrivals[..k + 1] == arrivals[..k] + [c];
      if answers[c].value > maxHeight {
        maxHeight := answers[c].value;
        maxHeightClient := c;
      }
    }
    assert arrivals[..|arrivals|] == arrivals;
    assert IsBestOfAll(answers, maxHeightClient, maxHeight);
  }
}
