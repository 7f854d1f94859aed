/** What promises come to when no job is left: a chain of thens is the composition of its handlers,
    as Promises/A+ sections 2.2 and 2.3 have it (jones-promises/lib/Promise.js). */
module PromiseChains {
  import opened Options
  import opened Promises
  import opened PromiseRuns

  // ---------------------------------------------------------------- order

  /** Jobs of one promise are started in the order of the calls of then on it, each once. */
  lemma {:induction false} JobsInOrder(s: State, open: set<nat>, j: nat, k: nat)
    requires Inv(s, open) && j < k < |s.thens| && s.thens[j].source == s.thens[k].source
    requires s.thens[k].source < |s.truth| && s.truth[s.thens[k].source].Some?
    ensures exists a, b :: 0 <= a < b < |s.order| && s.order[a] == j && s.order[b] == k
    ensures forall a, b :: 0 <= a < b < |s.order| ==> s.order[a] != s.order[b]
  {
    assert ThenMade(s, j) && ThenMade(s, k);
    assert InOrder(s, j) && InOrder(s, k);
    var a :| 0 <= a < |s.order| && s.order[a] == j;
    var b :| 0 <= b < |s.order| && s.order[b] == k;
    assert Due(s, a) && Due(s, b);
    assert b < a ==> Before(s, b, j);
    forall a, b | 0 <= a < b < |s.order|
      ensures s.order[a] != s.order[b]
    {
      assert Due(s, b);
      assert Before(s, a, s.order[b]);
    }
  }

  /** A call whose job has finished has finished before any later call on the same promise. */
  lemma {:induction false} FinishedInOrder(s: State, open: set<nat>, j: nat, k: nat)
    requires Inv(s, open) && j < k < |s.thens| && s.thens[j].source == s.thens[k].source && k in s.returned
    ensures j in s.returned
  {
    ReturnedIsGiven(s, k);
    JobsInOrder(s, open, j, k);
    var a, b :| 0 <= a < b < |s.order| && s.order[a] == j && s.order[b] == k;
    assert ReturnedAt(s, a) && ReturnedAt(s, b);
  }

  // ---------------------------------------------------------------- where the code is Promises/A+

  /** Section 2.3: a promise made by then is resolved with what the handler returns. */
  function APlusResolve(target: nat, outcome: Outcome): Resolution {
    match outcome
    case Throws(e) => Now(Rejected(e))
    case Returns(Ref(q)) => if q == target then Now(Rejected(TypeError)) else Adopt(q)
    case Returns(v) => Now(Fulfilled(v))
  }

  /** The code resolves as section 2.3 says unless a handler returns null, the promise it is a handler
      of, or the promise it is to settle: with the first two that is rejected, with the last it
      waits for itself. */
  lemma ResolvesAsAPlus(original: nat, target: nat, outcome: Outcome)
    requires original != target
    ensures Resolve(original, outcome) == APlusResolve(target, outcome) <==>
              outcome != Returns(Null) && outcome != Returns(Ref(original)) && outcome != Returns(Ref(target))
    ensures outcome == Returns(Null) || outcome == Returns(Ref(original)) ==>
              Resolve(original, outcome) == Now(Rejected(TypeError))
    ensures outcome == Returns(Ref(target)) ==> Resolve(original, outcome) == Adopt(target)
  {
  }

  /** A handler is told how its promise was settled unless that was with a falsy reason before the
      call of then. */
  lemma {:induction false} ToldTheTruth(s: State, k: nat)
    requires Registered(s) && Given(s, k)
    ensures var truth := s.truth[s.thens[k].source].value;
            Input(s, k) == truth <==> !s.thens[k].late || truth.Fulfilled? || Truthy(truth.reason)
  {
    assert Recorded(s.promises[s.thens[k].source], s.truth[s.thens[k].source]);
  }

  // ---------------------------------------------------------------- when no job is left

  ghost predicate Quiet(s: State) {
    Inv(s, {}) && Heard(s) && s.queue == [] && s.started == s.finished
  }

  /** Every call of then on a settled promise has had its job. */
  lemma {:induction false} AllReturned(s: State, k: nat)
    requires Quiet(s) && k < |s.thens| && s.thens[k].source < |s.truth|
    ensures s.truth[s.thens[k].source].Some? <==> k in s.returned
  {
    if k in s.returned {
      ReturnedIsGiven(s, k);
    }
    if s.truth[s.thens[k].source].Some? {
      assert InOrder(s, k);
      var i :| 0 <= i < |s.order| && s.order[i] == k;
      assert ReturnedAt(s, i);
    }
  }

  /** Reasons are truthy where a late then will ask for them. */
  ghost predicate Told(s: State, k: nat)
    requires Given(s, k)
  {
    var truth := s.truth[s.thens[k].source].value;
    !s.thens[k].late || truth.Fulfilled? || Truthy(truth.reason)
  }

  function StateOf(s: State, p: nat): Option<Settled> {
    if p < |s.truth| then s.truth[p] else None
  }

  function Came(s: State, r: Resolution): Option<Settled> {
    match r
    case Now(w) => Some(w)
    case Adopt(q) => StateOf(s, q)
  }

  /** A call that adopts a promise is told how that one was settled. */
  ghost predicate AdoptionTold(s: State, k: nat)
    requires Given(s, k) && k in s.returned
  {
    ResolutionAt(s, k).Adopt? && k in s.adopter && Given(s, s.adopter[k]) ==> Told(s, s.adopter[k])
  }

  /** The promise of a call comes to what its job resolved it to. */
  lemma {:induction false} ComesTo(s: State, k: nat)
    requires Quiet(s) && k < |s.thens| && k in s.returned && Given(s, k) && AdoptionTold(s, k)
    ensures s.truth[s.thens[k].target] == Came(s, ResolutionAt(s, k))
  {
    assert TargetRight(s, k, {});
    if ResolutionAt(s, k).Adopt? {
      var via := s.adopter[k];
      assert ThenMade(s, via);
      AllReturned(s, via);
      if via in s.returned {
        ReturnedIsGiven(s, via);
        ToldTheTruth(s, via);
      }
    }
  }

  /** What becomes of the promise of a call whose handler does something else than to return a third
      promise: it is rejected with what the handler throws, rejected if the handler returns null or
      the promise it is a handler of, pending for good if it returns the promise of its own call,
      and otherwise fulfilled with what it returns. */
  lemma {:induction false} HandlerSettles(s: State, k: nat)
    requires Quiet(s) && k in s.returned && Given(s, k) && s.called[k].callback.Client?
    ensures var r := s.thens[k];
            match s.returned[k]
            case Throws(e) => s.truth[r.target] == Some(Rejected(e))
            case Returns(Ref(q)) =>
              && (q == r.source ==> s.truth[r.target] == Some(Rejected(TypeError)))
              && (q == r.target ==> s.truth[r.target] == None)
            case Returns(v) => s.truth[r.target] == Some(if v == Null then Rejected(TypeError) else Fulfilled(v))
  {
    assert HeardRight(s, k) && ThenMade(s, k);
    assert Recorded(s.promises[s.thens[k].source], s.truth[s.thens[k].source]);
    assert TargetRight(s, k, {});
  }

  /** A promise made by then on a promise that is not settled is not settled either. */
  lemma {:induction false} StillPending(s: State, k: nat)
    requires Quiet(s) && k < |s.thens| && StateOf(s, s.thens[k].source) == None
    ensures StateOf(s, s.thens[k].target) == None
  {
    assert TargetRight(s, k, {});
    assert ThenMade(s, k);
    AllReturned(s, k);
  }

  // ---------------------------------------------------------------- missing handlers

  /** Without a handler for what became of its promise, the promise of a call is settled in the same
      way, unless it is told nothing (a falsy reason before the call) or was made to pass on null or
      a promise: its stand-in then returns that. */
  lemma {:induction false} MissingHandlerPasses(s: State, k: nat)
    requires Quiet(s) && k in s.returned && Given(s, k) && AdoptionTold(s, k) && s.called[k].callback == NoCallback
    ensures var r := s.thens[k];
            var truth, settled := s.truth[r.source].value, s.truth[r.target];
            match truth
            case Rejected(e) =>
              if r.late && !Truthy(e) then r.onFulfilled == NoCallback && settled == Some(Fulfilled(Undefined))
              else r.onRejected == NoCallback && settled == Some(truth)
            case Fulfilled(v) =>
              r.onFulfilled == NoCallback &&
              if r.late || (v != Null && !v.Ref?) then settled == Some(truth)
              else if v == Null || v == Ref(r.source) then settled == Some(Rejected(TypeError))
              else settled == StateOf(s, v.promise)
  {
    assert HeardRight(s, k);
    assert Recorded(s.promises[s.thens[k].source], s.truth[s.thens[k].source]);
    ComesTo(s, k);
  }

  // ---------------------------------------------------------------- chains

  /** What the client's handlers do with the value they are called with. */
  type Meanings = nat -> (Value -> Outcome)

  /** The handlers of one then, as functions. */
  datatype Handlers = Handlers(onFulfilled: Value -> Outcome, onRejected: Value -> Outcome)

  /** What was given to then: a missing handler passes its input on. */
  function HandlersOf(r: Registration, meanings: Meanings): Handlers {
    Handlers(
      match r.onFulfilled
      case Client(id) => meanings(id)
      case Deliver(_) => (v: Value) => Returns(Undefined)
      case NoCallback => (v: Value) => Returns(v),
      match r.onRejected
      case Client(id) => meanings(id)
      case Deliver(_) => (v: Value) => Returns(Undefined)
      case NoCallback => (e: Value) => Throws(e))
  }

  function Apply(h: Handlers, input: Settled): Outcome {
    match input
    case Fulfilled(v) => h.onFulfilled(v)
    case Rejected(e) => h.onRejected(e)
  }

  /** If the job of call k has called a handler of the client's, that did what it means. */
  ghost predicate Behaves(s: State, k: nat, meanings: Meanings)
    requires k in s.called && k in s.returned
  {
    s.called[k].callback.Client? ==> s.returned[k] == meanings(s.called[k].callback.id)(s.called[k].value)
  }

  /** How a promise comes out of a then with these handlers, those they return replaced by their
      states. */
  function AfterHandlers(s: State, h: Handlers, input: Settled): Option<Settled> {
    match Apply(h, input)
    case Throws(e) => Some(Rejected(e))
    case Returns(Ref(q)) => StateOf(s, q)
    case Returns(v) => Some(Fulfilled(v))
  }

  /** The handlers registered by the calls, one after the other, applied to a settled promise. */
  function Composed(s: State, start: Option<Settled>, calls: seq<nat>, meanings: Meanings): Option<Settled>
    requires forall i :: 0 <= i < |calls| ==> calls[i] < |s.thens|
  {
    if calls == [] then start
    else
      var before := Composed(s, start, calls[..|calls| - 1], meanings);
      if before == None then None
      else AfterHandlers(s, HandlersOf(s.thens[calls[|calls| - 1]], meanings), before.value)
  }

  /** The calls form a chain that starts at promise p. */
  ghost predicate Chain(s: State, p: nat, calls: seq<nat>) {
    forall i {:trigger calls[i]} :: 0 <= i < |calls| ==>
      calls[i] < |s.thens| && s.thens[calls[i]].source == End(s, p, calls[..i])
  }

  function End(s: State, p: nat, calls: seq<nat>): nat {
    if calls == [] then p
    else if calls[|calls| - 1] < |s.thens| then s.thens[calls[|calls| - 1]].target else 0
  }

  /** In the domain where the code is Promises/A+: reasons that late thens ask for are truthy, the
      handler returns neither null nor one of the two promises of the call, and a missing handler
      is not given a promise to pass on. */
  ghost predicate Plain(s: State, k: nat, meanings: Meanings) {
    Given(s, k) && k in s.called && k in s.returned ==>
      && Told(s, k) && AdoptionTold(s, k) && Behaves(s, k, meanings)
      && var r := s.thens[k];
         var truth := s.truth[r.source].value;
         var outcome := Apply(HandlersOf(r, meanings), truth);
         && outcome != Returns(Null) && outcome != Returns(Ref(r.source)) && outcome != Returns(Ref(r.target))
         && (r.onFulfilled == NoCallback && truth.Fulfilled? ==> !truth.value.Ref?)
  }

  lemma {:induction false} OneThen(s: State, k: nat, meanings: Meanings, input: Settled)
    requires Quiet(s) && k < |s.thens| && Plain(s, k, meanings)
    requires StateOf(s, s.thens[k].source) == Some(input)
    ensures StateOf(s, s.thens[k].target) == AfterHandlers(s, HandlersOf(s.thens[k], meanings), input)
  {
    assert ThenMade(s, k);
    AllReturned(s, k);
    assert HeardRight(s, k);
    ToldTheTruth(s, k);
    ComesTo(s, k);
  }

  /** A chain of thens comes to the composition of the handlers given to them. */
  lemma {:induction false} ChainComposes(s: State, p: nat, calls: seq<nat>, meanings: Meanings)
    requires Quiet(s) && p < |s.promises| && Chain(s, p, calls)
    requires forall i :: 0 <= i < |calls| ==> Plain(s, calls[i], meanings)
    ensures StateOf(s, End(s, p, calls)) == Composed(s, StateOf(s, p), calls, meanings)
  {
    if calls != [] {
      var n := |calls| - 1;
      forall i | 0 <= i < n
        ensures calls[..n][i] < |s.thens| && s.thens[calls[..n][i]].source == End(s, p, calls[..n][..i])
      {
        assert calls[..n][..i] == calls[..i];
      }
      ChainComposes(s, p, calls[..n], meanings);
      var k := calls[n];
      var before := StateOf(s, s.thens[k].source);
      if before == None {
        StillPending(s, k);
      } else {
        OneThen(s, k, meanings, before.value);
      }
    }
  }
}
