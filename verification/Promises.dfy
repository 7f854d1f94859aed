/** Promises as states and steps (jones-promises/lib/Promise.js). */
module Promises {
  import opened Options

  /** What a promise can hold; promises are known by number. */
  datatype Value = Undefined | Null | Datum(n: int) | Ref(promise: nat) | TypeError

  predicate Truthy(v: Value) {
    v.Ref? || v.TypeError? || (v.Datum? && v.n != 0)
  }

  datatype Settled = Fulfilled(value: Value) | Rejected(reason: Value)

  /** What a handler does with a value. */
  datatype Outcome = Returns(value: Value) | Throws(error: Value)

  /** The handlers of then: none, one of the client's, or the ones that pass the state of a
      returned promise on to the promise waiting for it. */
  datatype Callback = NoCallback | Client(id: nat) | Deliver(promise: nat)

  /** A closure in one of the callback arrays, for the then call with this number. */
  datatype Reaction = Reaction(callback: Callback, newPromise: nat, number: nat)

  datatype Promise = Promise(resolved: bool, result: Value, err: Value,
                             fulfilledCallbacks: seq<Reaction>, rejectedCallbacks: seq<Reaction>)

  /** A call of thenPromiseFulfilledOrRejected put off with setImmediate. Early jobs come from the
      callback arrays, which hold a function even for a missing handler. */
  datatype Job = Job(original: nat, callback: Callback, newPromise: nat, value: Value, isRejected: bool, early: bool,
                     number: nat)

  /** One call of then. */
  datatype Registration = Registration(source: nat, onFulfilled: Callback, onRejected: Callback, target: nat,
      late: bool)

  /** A started job calls this function with this value; a missing one is not called. */
  datatype HandlerCall = HandlerCall(callback: Callback, value: Value)

  /** The promises and the job queue, and what has happened: how promises were really settled, all
      calls of then, the order in which their jobs are queued, how many have started and finished,
      what handler the job of each call has called and what it did, and which call of then adopts a
      promise returned by a handler, and for which call it does. */
  datatype State = State(promises: seq<Promise>, queue: seq<Job>, truth: seq<Option<Settled>>,
                         thens: seq<Registration>, order: seq<nat>, started: nat, finished: nat,
                         called: map<nat, HandlerCall>, returned: map<nat, Outcome>,
                         adopter: map<nat, nat>, adoptee: map<nat, nat>)

  // ---------------------------------------------------------------- jobs

  /** What a late then takes the state of a settled promise to be. */
  function Seen(p: Promise): Settled {
    if Truthy(p.err) then Rejected(p.err) else Fulfilled(p.result)
  }

  function JobFor(number: nat, r: Registration, input: Settled): Job {
    match input
    case Fulfilled(v) => Job(r.source, r.onFulfilled, r.target, v, false, !r.late, number)
    case Rejected(e) => Job(r.source, r.onRejected, r.target, e, true, !r.late, number)
  }

  /** The numbers of the first n calls of then on p. */
  function Numbers(thens: seq<Registration>, p: nat): seq<nat> {
    if thens == [] then []
    else
      var n := |thens| - 1;
      var before := Numbers(thens[..n], p);
      if thens[n].source == p then before + [n] else before
  }

  function Reactions(thens: seq<Registration>, numbers: seq<nat>, rejected: bool): seq<Reaction>
    requires forall i :: 0 <= i < |numbers| ==> numbers[i] < |thens|
  {
    seq(|numbers|, i requires 0 <= i < |numbers| =>
      var r := thens[numbers[i]];
      Reaction(if rejected then r.onRejected else r.onFulfilled, r.target, numbers[i]))
  }

  lemma {:induction false} NumbersSound(thens: seq<Registration>, p: nat)
    ensures forall k :: k in Numbers(thens, p) <==> 0 <= k < |thens| && thens[k].source == p
    ensures forall i, j :: 0 <= i < j < |Numbers(thens, p)| ==> Numbers(thens, p)[i] < Numbers(thens, p)[j]
    ensures forall i :: 0 <= i < |Numbers(thens, p)| ==> Numbers(thens, p)[i] < |thens|
  {
    if thens != [] {
      var n := |thens| - 1;
      NumbersSound(thens[..n], p);
      var before := Numbers(thens[..n], p);
      assert forall i :: 0 <= i < |before| ==> before[i] in before;
    }
  }

  // ---------------------------------------------------------------- which handler is right

  /** Of the two handlers given to then, the first is called with the value of a fulfilled promise,
      the other one with the reason of a rejected promise. A falsy reason is lost on a late then:
      the first is called, with no value. */
  predicate RightCall(r: Registration, truth: Settled, call: HandlerCall) {
    match truth
    case Fulfilled(v) => call.callback == r.onFulfilled && call.value == v
    case Rejected(e) =>
      if r.late && !Truthy(e) then call.callback == r.onFulfilled && call.value == Undefined
      else call.callback == r.onRejected && call.value == e
  }

  /** The job calls the right handler for the truth about the promise of its call of then. */
  ghost predicate JobRight(s: State, job: Job) {
    && job.number < |s.thens| && s.thens[job.number].source < |s.truth|
    && var r := s.thens[job.number];
       && s.truth[r.source].Some? && job.original == r.source && job.newPromise == r.target
       && RightCall(r, s.truth[r.source].value, HandlerCall(job.callback, job.value))
  }

  /** All jobs waiting are right. */
  lemma {:induction false} QueueRight(s: State)
    requires Registered(s) && Ordered(s)
    ensures forall i {:trigger s.queue[i]} :: 0 <= i < |s.queue| ==> JobRight(s, s.queue[i])
  {
    forall i | 0 <= i < |s.queue|
      ensures JobRight(s, s.queue[i])
    {
      assert Due(s, s.started + i) && Queued(s, i);
      var r := s.thens[s.order[s.started + i]];
      assert Recorded(s.promises[r.source], s.truth[r.source]);
    }
  }

  // ---------------------------------------------------------------- the promise resolution procedure

  /** How a job settles its new promise: at once, or like a promise it has to wait for. */
  datatype Resolution = Now(settled: Settled) | Adopt(promise: nat)

  function Resolve(original: nat, outcome: Outcome): Resolution {
    match outcome
    case Throws(e) => Now(Rejected(e))
    case Returns(Null) => Now(Rejected(TypeError))
    case Returns(Ref(q)) => if q == original then Now(Rejected(TypeError)) else Adopt(q)
    case Returns(v) => Now(Fulfilled(v))
  }

  /** What the callback of a job does; only a client's handler is free to do anything. */
  function Called(job: Job, outcome: Outcome): Outcome {
    match job.callback
    case Client(_) => outcome
    case Deliver(_) => Returns(Undefined)
    case NoCallback => if job.isRejected then Throws(job.value) else Returns(job.value)
  }

  function ResolutionOf(job: Job, outcome: Outcome): Resolution {
    if job.callback == NoCallback && !job.early then
      Now(if job.isRejected then Rejected(job.value) else Fulfilled(job.value))
    else Resolve(job.original, Called(job, outcome))
  }

  // ---------------------------------------------------------------- the state

  /** What the job of a call of then is given. */
  function Input(s: State, k: nat): Settled
    requires k < |s.thens| && s.thens[k].source < |s.promises| == |s.truth|
    requires s.truth[s.thens[k].source].Some?
  {
    var r := s.thens[k];
    if r.late then Seen(s.promises[r.source]) else s.truth[r.source].value
  }

  /** The fields of a promise say whether and how it was settled, up to falsy reasons. */
  predicate Recorded(p: Promise, settled: Option<Settled>) {
    match settled
    case None => !p.resolved && p.result == Undefined && p.err == Undefined
    case Some(Fulfilled(v)) => p.resolved && p.result == v && p.err == Undefined
    case Some(Rejected(e)) => p.resolved && p.result == Undefined && p.err == e
  }

  ghost predicate ThenMade(s: State, k: nat)
    requires k < |s.thens|
  {
    s.thens[k].source < s.thens[k].target < |s.promises|
  }

  ghost predicate Waiting(s: State, p: nat)
    requires p < |s.promises|
  {
    !s.promises[p].resolved ==>
      var numbers := Numbers(s.thens, p);
      && (forall i :: 0 <= i < |numbers| ==> numbers[i] < |s.thens| && !s.thens[numbers[i]].late)
      && s.promises[p].fulfilledCallbacks == Reactions(s.thens, numbers, false)
      && s.promises[p].rejectedCallbacks == Reactions(s.thens, numbers, true)
  }

  /** Calls of then are numbered and create promises one after another; settled promises are
      recorded; the callback arrays of the others hold exactly the calls on them, in order. */
  ghost predicate Registered(s: State) {
    && |s.truth| == |s.promises|
    && (forall p {:trigger Recorded(s.promises[p], s.truth[p])} ::
          0 <= p < |s.promises| ==> Recorded(s.promises[p], s.truth[p]))
    && (forall p {:trigger Waiting(s, p)} :: 0 <= p < |s.promises| ==> Waiting(s, p))
    && (forall k {:trigger ThenMade(s, k)} :: 0 <= k < |s.thens| ==> ThenMade(s, k))
    && (forall j, k {:trigger TargetsRise(s, j, k)} :: 0 <= j < k < |s.thens| ==> TargetsRise(s, j, k))
  }

  ghost predicate TargetsRise(s: State, j: nat, k: nat)
    requires j < k < |s.thens|
  {
    s.thens[j].target < s.thens[k].target
  }

  /** The job at position i of the order is due: its promise is settled; jobs of one promise are in
      the order of the calls of then. */
  ghost predicate Due(s: State, i: nat)
    requires i < |s.order|
  {
    var k := s.order[i];
    && k < |s.thens| && s.thens[k].source < |s.truth| && s.truth[s.thens[k].source].Some?
    && forall j {:trigger Before(s, j, k)} :: 0 <= j < i ==> Before(s, j, k)
  }

  /** The job at position j is another one, of an earlier call if it is of the same promise. */
  ghost predicate Before(s: State, j: nat, k: nat)
    requires j < |s.order| && k < |s.thens|
  {
    && s.order[j] != k && s.order[j] < |s.thens|
    && (s.thens[s.order[j]].source == s.thens[k].source ==> s.order[j] < k)
  }

  ghost predicate Queued(s: State, i: nat)
    requires Registered(s) && i < |s.queue| && s.started + i < |s.order| && Due(s, s.started + i)
  {
    var k := s.order[s.started + i];
    ThenMade(s, k) && s.queue[i] == JobFor(k, s.thens[k], Input(s, k))
  }

  /** Every call of then on a settled promise has its job once, started or in the queue. */
  ghost predicate Ordered(s: State)
    requires Registered(s)
  {
    && s.finished <= s.started <= s.finished + 1 && s.started + |s.queue| == |s.order|
    && (forall i {:trigger Due(s, i)} :: 0 <= i < |s.order| ==> Due(s, i))
    && (forall i {:trigger Queued(s, i)} :: 0 <= i < |s.queue| ==> Due(s, s.started + i) && Queued(s, i))
    && (forall k {:trigger InOrder(s, k)} ::
          0 <= k < |s.thens| && s.thens[k].source < |s.truth| && s.truth[s.thens[k].source].Some? ==> InOrder(s, k))
  }

  ghost predicate InOrder(s: State, k: nat) {
    k in s.order
  }

  // ---------------------------------------------------------------- steps

  const FRESH := Promise(false, Undefined, Undefined, [], [])

  function AfterNew(s: State): State {
    s.(promises := s.promises + [FRESH], truth := s.truth + [None])
  }

  function WithReactions(p: Promise, onFulfilled: Reaction, onRejected: Reaction): Promise {
    p.(fulfilledCallbacks := p.fulfilledCallbacks + [onFulfilled], rejectedCallbacks :=
        p.rejectedCallbacks + [onRejected])
  }

  function AfterThen(s: State, p: nat, onFulfilled: Callback, onRejected: Callback): State
    requires p < |s.promises|
  {
    var number, target, late := |s.thens|, |s.promises|, s.promises[p].resolved;
    var r, made := Registration(p, onFulfilled, onRejected, target, late), s.promises + [FRESH];
    State(
      if late then made
      else made[p := WithReactions(s.promises[p], Reaction(onFulfilled, target, number),
                                   Reaction(onRejected, target, number))],
      if late then s.queue + [JobFor(number, r, Seen(s.promises[p]))] else s.queue,
      s.truth + [None], s.thens + [r], if late then s.order + [number] else s.order,
      s.started, s.finished, s.called, s.returned, s.adopter, s.adoptee)
  }

  function SettledPromise(p: Promise, w: Settled): Promise {
    match w
    case Fulfilled(v) => p.(resolved := true, result := v, fulfilledCallbacks := [])
    case Rejected(e) => p.(resolved := true, err := e, rejectedCallbacks := [])
  }

  function JobsFor(thens: seq<Registration>, numbers: seq<nat>, input: Settled): seq<Job>
    requires forall i :: 0 <= i < |numbers| ==> numbers[i] < |thens|
  {
    seq(|numbers|, i requires 0 <= i < |numbers| => JobFor(numbers[i], thens[numbers[i]], input))
  }

  ghost function AfterSettle(s: State, p: nat, w: Settled): State
    requires p < |s.promises| == |s.truth|
  {
    NumbersSound(s.thens, p);
    var numbers := Numbers(s.thens, p);
    assert forall i :: 0 <= i < |numbers| ==> numbers[i] in numbers;
    s.(promises := s.promises[p := SettledPromise(s.promises[p], w)], truth := s.truth[p := Some(w)],
       order := s.order + numbers, queue := s.queue + JobsFor(s.thens, numbers, w))
  }

  function AfterStart(s: State): State
    requires s.queue != []
  {
    var job := s.queue[0];
    s.(queue := s.queue[1..], started := s.started + 1,
       called := s.called[job.number := HandlerCall(job.callback, job.value)])
  }

  /** The callback of the running job has returned or thrown. */
  function AfterCall(s: State, number: nat, outcome: Outcome): State {
    s.(finished := s.finished + 1, returned := s.returned[number := outcome])
  }

  // ---------------------------------------------------------------- steps keep the books

  lemma {:induction false} NewKeeps(s: State)
    requires Registered(s) && Ordered(s)
    ensures Registered(AfterNew(s)) && Ordered(AfterNew(s))
  {
    var s' := AfterNew(s);
    NoCallsYet(s, |s.promises|);
    forall p | 0 <= p < |s'.promises|
      ensures Recorded(s'.promises[p], s'.truth[p]) && Waiting(s', p)
    {
      if p < |s.promises| {
        assert Recorded(s.promises[p], s.truth[p]) && Waiting(s, p);
      }
    }
    forall k | 0 <= k < |s'.thens|
      ensures ThenMade(s', k)
    {
      assert ThenMade(s, k);
    }
    forall j, k | 0 <= j < k < |s'.thens|
      ensures TargetsRise(s', j, k)
    {
      assert TargetsRise(s, j, k);
    }
    OrderedLike(s, s');
  }

  lemma {:induction false} NoCallsYet(s: State, p: nat)
    requires Registered(s) && p >= |s.promises|
    ensures Numbers(s.thens, p) == []
  {
    forall k | 0 <= k < |s.thens|
      ensures s.thens[k].source != p
    {
      assert ThenMade(s, k);
    }
    NoNumbers(s.thens, p);
  }

  lemma {:induction false} NoNumbers(thens: seq<Registration>, p: nat)
    requires forall k :: 0 <= k < |thens| ==> thens[k].source != p
    ensures Numbers(thens, p) == []
  {
    if thens != [] {
      NoNumbers(thens[..|thens| - 1], p);
    }
  }

  /** More promises do not matter to the order. */
  lemma {:induction false} OrderedLike(s: State, s': State)
    requires Registered(s) && Registered(s') && Ordered(s)
    requires s'.order == s.order && s'.queue == s.queue && s'.thens == s.thens
    requires s'.started == s.started && s'.finished == s.finished
    requires |s.truth| <= |s'.truth|
    requires forall p :: 0 <= p < |s.truth| ==>
               s'.truth[p] == s.truth[p] && s'.promises[p].result == s.promises[p].result
                                                && s'.promises[p].err == s.promises[p].err
    ensures Ordered(s')
  {
    forall i | 0 <= i < |s'.order|
      ensures Due(s', i)
    {
      assert Due(s, i);
      forall j | 0 <= j < i
        ensures Before(s', j, s'.order[i])
      {
        assert Before(s, j, s.order[i]);
      }
    }
    forall i | 0 <= i < |s'.queue|
      ensures Due(s', s'.started + i) && Queued(s', i)
    {
      assert Due(s, s.started + i);
      assert Queued(s, i);
      assert ThenMade(s', s'.order[s'.started + i]);
    }
    forall k | 0 <= k < |s'.thens| && s'.thens[k].source < |s'.truth| && s'.truth[s'.thens[k].source].Some?
      ensures InOrder(s', k)
    {
      assert ThenMade(s, k);
      assert InOrder(s, k);
    }
  }

  lemma {:induction false} NumbersStep(thens: seq<Registration>, r: Registration, p: nat)
    ensures Numbers(thens + [r], p) == Numbers(thens, p) + (if r.source == p then [|thens|] else [])
  {
    assert (thens + [r])[..|thens|] == thens;
  }

  lemma {:induction false} ThenRegisters(s: State, p: nat, onFulfilled: Callback, onRejected: Callback)
    requires Registered(s) && p < |s.promises|
    ensures Registered(AfterThen(s, p, onFulfilled, onRejected))
  {
    var s' := AfterThen(s, p, onFulfilled, onRejected);
    var r := s'.thens[|s.thens|];
    forall q | 0 <= q < |s'.promises|
      ensures Recorded(s'.promises[q], s'.truth[q]) && Waiting(s', q)
    {
      if q < |s.promises| {
        assert Recorded(s.promises[q], s.truth[q]) && Waiting(s, q);
        WaitingStep(s, s', r, q);
      } else {
        NoCallsYet(s, q);
        NumbersStep(s.thens, r, q);
      }
    }
    CallsStep(s, s');
  }

  lemma {:induction false} CallsStep(s: State, s': State)
    requires Registered(s) && |s'.promises| == |s.promises| + 1 && |s'.thens| == |s.thens| + 1
    requires s'.thens[..|s.thens|] == s.thens
    requires s'.thens[|s.thens|].source < s'.thens[|s.thens|].target == |s.promises|
    ensures forall k :: 0 <= k < |s'.thens| ==> ThenMade(s', k)
    ensures forall j, k :: 0 <= j < k < |s'.thens| ==> TargetsRise(s', j, k)
  {
    var n := |s.thens|;
    assert forall k :: 0 <= k < n ==> s'.thens[k] == s'.thens[..n][k];
    forall k | 0 <= k < |s'.thens|
      ensures ThenMade(s', k)
    {
      assert k < n ==> ThenMade(s, k);
    }
    forall j, k | 0 <= j < k < |s'.thens|
      ensures TargetsRise(s', j, k)
    {
      assert ThenMade(s, j);
      assert k < n ==> TargetsRise(s, j, k);
    }
  }

  /** One more call of then; the arrays of a promise it waits for get its handlers. */
  lemma {:induction false} WaitingStep(s: State, s': State, r: Registration, q: nat)
    requires q < |s.promises| && q < |s'.promises| && Waiting(s, q) && s'.thens == s.thens + [r]
    requires r.late == (r.source < |s.promises| && s.promises[r.source].resolved)
    requires s'.promises[q] == if r.source != q || r.late then s.promises[q]
                               else WithReactions(s.promises[q], Reaction(r.onFulfilled, r.target, |s.thens|),
                                                  Reaction(r.onRejected, r.target, |s.thens|))
    ensures Waiting(s', q)
  {
    NumbersStep(s.thens, r, q);
    NumbersSound(s.thens, q);
    ReactionsStep(s.thens, r, Numbers(s.thens, q));
  }

  lemma {:induction false} ReactionsStep(thens: seq<Registration>, r: Registration, numbers: seq<nat>)
    requires forall i :: 0 <= i < |numbers| ==> numbers[i] < |thens|
    ensures forall rejected :: Reactions(thens + [r], numbers, rejected) == Reactions(thens, numbers, rejected)
    ensures forall rejected :: Reactions(thens + [r], numbers + [|thens|], rejected) ==
              Reactions(thens, numbers, rejected)
                  + [Reaction(if rejected then r.onRejected else r.onFulfilled, r.target, |thens|)]
  {
  }

  lemma {:induction false} ThenOrders(s: State, p: nat, onFulfilled: Callback, onRejected: Callback)
    requires Registered(s) && Ordered(s) && p < |s.promises|
    requires Registered(AfterThen(s, p, onFulfilled, onRejected))
    ensures Ordered(AfterThen(s, p, onFulfilled, onRejected))
    ensures var s' := AfterThen(s, p, onFulfilled, onRejected);
            if s.truth[p] == None then s'.queue == s.queue
            else
              && |s'.queue| == |s.queue| + 1 && s'.queue[..|s.queue|] == s.queue
              && s'.queue[|s.queue|].number == |s.thens| && JobRight(s', s'.queue[|s.queue|])
  {
    var s' := AfterThen(s, p, onFulfilled, onRejected);
    assert Recorded(s.promises[p], s.truth[p]);
    forall i | 0 <= i < |s'.order|
      ensures Due(s', i)
    {
      StillDue(s, s', i);
    }
    forall i | 0 <= i < |s'.queue|
      ensures Due(s', s'.started + i) && Queued(s', i)
    {
      StillDue(s, s', s'.started + i);
      ThenQueued(s, p, onFulfilled, onRejected, i);
    }
    forall k | 0 <= k < |s'.thens| && s'.thens[k].source < |s'.truth| && s'.truth[s'.thens[k].source].Some?
      ensures InOrder(s', k)
    {
      if k < |s.thens| {
        assert ThenMade(s, k);
        assert InOrder(s, k);
      } else {
        assert s'.order[|s.order|] == k;
      }
    }
    QueueRight(s');
  }

  lemma {:induction false} ThenQueued(s: State, p: nat, onFulfilled: Callback, onRejected: Callback, i: nat)
    requires Registered(s) && Ordered(s) && p < |s.promises|
    requires Registered(AfterThen(s, p, onFulfilled, onRejected))
    requires i < |AfterThen(s, p, onFulfilled, onRejected).queue|
    requires s.started + i < |AfterThen(s, p, onFulfilled, onRejected).order|
    requires Due(AfterThen(s, p, onFulfilled, onRejected), s.started + i)
    ensures Queued(AfterThen(s, p, onFulfilled, onRejected), i)
  {
    var s' := AfterThen(s, p, onFulfilled, onRejected);
    assert ThenMade(s', s'.order[s'.started + i]);
    if i < |s.queue| {
      assert Due(s, s.started + i) && Queued(s, i);
      var q := s.thens[s.order[s.started + i]].source;
      assert Recorded(s.promises[q], s.truth[q]);
    }
  }

  /** Jobs stay due, and one for the newest call on a settled promise is due behind all others. */
  lemma {:induction false} StillDue(s: State, s': State, i: nat)
    requires Registered(s) && Ordered(s) && |s.order| <= |s'.order| && s'.order[..|s.order|] == s.order
    requires |s.thens| <= |s'.thens| && s'.thens[..|s.thens|] == s.thens && |s.truth| <= |s'.truth|
    requires forall p :: 0 <= p < |s.truth| ==> s'.truth[p] == s.truth[p]
    requires i < |s'.order|
    requires i >= |s.order| ==>
               && i == |s.order| && s'.order[i] == |s.thens| < |s'.thens|
               && s'.thens[|s.thens|].source < |s.truth| && s.truth[s'.thens[|s.thens|].source].Some?
    ensures Due(s', i)
  {
    assert forall j :: 0 <= j < |s.order| ==> s'.order[j] == s'.order[..|s.order|][j];
    assert forall k :: 0 <= k < |s.thens| ==> s'.thens[k] == s'.thens[..|s.thens|][k];
    assert i < |s.order| ==> Due(s, i);
    forall j | 0 <= j < i
      ensures Before(s', j, s'.order[i])
    {
      assert Due(s, j);
      assert i < |s.order| ==> Before(s, j, s.order[i]);
    }
  }

  lemma {:induction false} SettleRegisters(s: State, p: nat, w: Settled)
    requires Registered(s) && p < |s.promises| && s.truth[p] == None
    ensures Registered(AfterSettle(s, p, w))
  {
    var s' := AfterSettle(s, p, w);
    forall q | 0 <= q < |s'.promises|
      ensures Recorded(s'.promises[q], s'.truth[q]) && Waiting(s', q)
    {
      assert Recorded(s.promises[q], s.truth[q]) && Waiting(s, q);
    }
    forall k | 0 <= k < |s'.thens|
      ensures ThenMade(s', k)
    {
      assert ThenMade(s, k);
    }
    forall j, k | 0 <= j < k < |s'.thens|
      ensures TargetsRise(s', j, k)
    {
      assert TargetsRise(s, j, k);
    }
  }

  /** None of the calls waiting for a promise is in the order before it is settled. */
  lemma {:induction false} SettledDue(s: State, p: nat, w: Settled, i: nat)
    requires Registered(s) && Ordered(s) && p < |s.promises| && s.truth[p] == None
    requires i < |AfterSettle(s, p, w).order|
    ensures Due(AfterSettle(s, p, w), i)
  {
    var s', numbers := AfterSettle(s, p, w), Numbers(s.thens, p);
    NumbersSound(s.thens, p);
    assert forall i :: 0 <= i < |numbers| ==> numbers[i] in numbers;
    assert i < |s.order| ==> Due(s, i);
    forall j | 0 <= j < i
      ensures Before(s', j, s'.order[i])
    {
      if j < |s.order| {
        assert Due(s, j);
        assert i < |s.order| ==> Before(s, j, s.order[i]);
      }
    }
  }

  lemma {:induction false} SettledQueued(s: State, p: nat, w: Settled, i: nat)
    requires Registered(s) && Ordered(s) && p < |s.promises| && s.truth[p] == None
    requires Registered(AfterSettle(s, p, w)) && i < |AfterSettle(s, p, w).queue|
    requires s.started + i < |AfterSettle(s, p, w).order| && Due(AfterSettle(s, p, w), s.started + i)
    ensures Queued(AfterSettle(s, p, w), i)
  {
    var s', numbers := AfterSettle(s, p, w), Numbers(s.thens, p);
    NumbersSound(s.thens, p);
    assert Recorded(s.promises[p], s.truth[p]) && Waiting(s, p);
    var k := s'.order[s.started + i];
    assert ThenMade(s', k);
    if i < |s.queue| {
      assert Due(s, s.started + i) && Queued(s, i);
    } else {
      assert k == numbers[i - |s.queue|] && k in numbers;
    }
  }

  lemma {:induction false} SettleOrders(s: State, p: nat, w: Settled)
    requires Registered(s) && Ordered(s) && p < |s.promises| && s.truth[p] == None
    requires Registered(AfterSettle(s, p, w))
    ensures Ordered(AfterSettle(s, p, w))
  {
    var s', numbers := AfterSettle(s, p, w), Numbers(s.thens, p);
    NumbersSound(s.thens, p);
    forall i | 0 <= i < |s'.order|
      ensures Due(s', i)
    {
      SettledDue(s, p, w, i);
    }
    forall i | 0 <= i < |s'.queue|
      ensures Due(s', s'.started + i) && Queued(s', i)
    {
      SettledDue(s, p, w, s.started + i);
      SettledQueued(s, p, w, i);
    }
    forall k | 0 <= k < |s'.thens| && s'.thens[k].source < |s'.truth| && s'.truth[s'.thens[k].source].Some?
      ensures InOrder(s', k)
    {
      if s.thens[k].source == p {
        assert k in numbers;
        assert k in s.order + numbers;
      } else {
        assert InOrder(s, k);
      }
    }
  }

  lemma {:induction false} StartKeeps(s: State)
    requires Registered(s) && Ordered(s) && s.queue != [] && s.started == s.finished
    ensures Registered(AfterStart(s)) && Ordered(AfterStart(s))
  {
    var s' := AfterStart(s);
    SameCalls(s, s');
    forall i | 0 <= i < |s'.order|
      ensures Due(s', i)
    {
      StillDue(s, s', i);
    }
    forall i | 0 <= i < |s'.queue|
      ensures Due(s', s'.started + i) && Queued(s', i)
    {
      StillDue(s, s', s'.started + i);
      assert Queued(s, i + 1);
      assert ThenMade(s', s'.order[s'.started + i]);
    }
    forall k | 0 <= k < |s'.thens| && s'.thens[k].source < |s'.truth| && s'.truth[s'.thens[k].source].Some?
      ensures InOrder(s', k)
    {
      assert InOrder(s, k);
    }
  }

  lemma {:induction false} SameCalls(s: State, s': State)
    requires Registered(s) && s'.promises == s.promises && s'.truth == s.truth && s'.thens == s.thens
    ensures Registered(s')
  {
    forall q | 0 <= q < |s'.promises|
      ensures Recorded(s'.promises[q], s'.truth[q]) && Waiting(s', q)
    {
      assert Recorded(s.promises[q], s.truth[q]) && Waiting(s, q);
    }
    forall k | 0 <= k < |s'.thens|
      ensures ThenMade(s', k)
    {
      assert ThenMade(s, k);
    }
    forall j, k | 0 <= j < k < |s'.thens|
      ensures TargetsRise(s', j, k)
    {
      assert TargetsRise(s, j, k);
    }
  }

  lemma {:induction false} CallKeeps(s: State, number: nat, outcome: Outcome)
    requires Registered(s) && Ordered(s) && s.finished < s.started
    ensures Registered(AfterCall(s, number, outcome)) && Ordered(AfterCall(s, number, outcome))
  {
    var s' := AfterCall(s, number, outcome);
    SameCalls(s, s');
    forall i | 0 <= i < |s'.order|
      ensures Due(s', i)
    {
      StillDue(s, s', i);
    }
    forall i | 0 <= i < |s'.queue|
      ensures Due(s', s'.started + i) && Queued(s', i)
    {
      StillDue(s, s', s'.started + i);
      assert Queued(s, i);
      assert ThenMade(s', s'.order[s'.started + i]);
    }
    forall k | 0 <= k < |s'.thens| && s'.thens[k].source < |s'.truth| && s'.truth[s'.thens[k].source].Some?
      ensures InOrder(s', k)
    {
      assert InOrder(s, k);
    }
  }
}
