/** The promise operations in place: then, fulfill, reject and the jobs that call the handlers
    (jones-promises/lib/Promise.js). */
module PromiseRuntime {
  import opened Options
  import opened Promises
  import opened PromiseRuns

  class Runtime {
    var promises: seq<Promise>
    /** The functions given to setImmediate, first come first served. */
    var queue: seq<Job>
    /** The job whose handler is being called. */
    var running: Option<Job>
    /** The calls of then so far; their jobs carry their number. */
    var calls: nat
    ghost var s: State

    constructor ()
      ensures Valid() && running == None && promises == []
    {
      promises, queue, running, calls := [], [], None, 0;
      s := State([], [], [], [], [], 0, 0, map[], map[], map[], map[]);
    }

    ghost predicate Mirrored()
      reads this
    {
      s.promises == promises && s.queue == queue && |s.thens| == calls
    }

    ghost predicate Valid()
      reads this
    {
      && Mirrored() && Inv(s, {}) && Heard(s)
      && (running == None <==> s.started == s.finished)
      && (running.Some? ==> RunningJob(s, running.value) && HasCalled(running.value))
    }

    /** It is known that the job has called its handler, and with what. */
    ghost predicate HasCalled(job: Job)
      reads this
    {
      job.number in s.called && s.called[job.number] == HandlerCall(job.callback, job.value)
    }

    /** No job has started or finished, and what was settled stays as it is. */
    twostate predicate NothingRan()
      reads this
    {
      && running == old(running) && s.started == old(s.started) && s.finished == old(s.finished)
      && s.called == old(s.called) && s.returned == old(s.returned) && Extends(old(s), s)
    }

    /** Is the promise one that a call of then has made? */
    ghost predicate IsTarget(p: nat)
      reads this
    {
      exists k :: 0 <= k < |s.thens| && s.thens[k].target == p
    }

    // -------------------------------------------------------------- the operations in place

    method MakePromise() returns (p: nat)
      requires Mirrored()
      modifies this`promises, this`s
      ensures Mirrored() && s == AfterNew(old(s)) && p == |old(promises)|
    {
      p := |promises|;
      promises := promises + [FRESH];
      s := AfterNew(s);
    }

    method DoThen(p: nat, onFulfilled: Callback, onRejected: Callback) returns (newPromise: nat)
      requires Mirrored() && p < |promises|
      modifies this`promises, this`queue, this`calls, this`s
      ensures Mirrored() && s == AfterThen(old(s), p, onFulfilled, onRejected) && newPromise == |old(promises)|
    {
      ghost var s0 := s;
      var number := calls;
      calls := calls + 1;
      newPromise := |promises|;
      promises := promises + [FRESH];
      var self := promises[p];
      if self.resolved {
        if Truthy(self.err) {
          queue := queue + [Job(p, onRejected, newPromise, self.err, true, false, number)];
        } else {
          queue := queue + [Job(p, onFulfilled, newPromise, self.result, false, false, number)];
        }
      } else {
        promises := promises[p := WithReactions(self, Reaction(onFulfilled, newPromise, number),
                                                Reaction(onRejected, newPromise, number))];
      }
      s := AfterThen(s0, p, onFulfilled, onRejected);
    }

    /** Settles a promise and queues its callbacks, unless it is settled already: then an error is
        thrown. */
    method DoFulfill(p: nat, result: Value) returns (thrown: bool)
      requires Mirrored() && Registered(s) && p < |promises|
      modifies this`promises, this`queue, this`s
      ensures Mirrored() && thrown == old(promises[p].resolved)
      ensures s == if thrown then old(s) else AfterSettle(old(s), p, Fulfilled(result))
    {
      if promises[p].resolved {
        return true;
      }
      ghost var s0, numbers, queue0 := s, Numbers(s.thens, p), queue;
      ghost var callbacks := promises[p].fulfilledCallbacks;
      NumbersSound(s.thens, p);
      assert Recorded(s.promises[p], s.truth[p]) && Waiting(s, p);
      ghost var jobs := JobsFor(s.thens, numbers, Fulfilled(result));
      promises := promises[p := promises[p].(resolved := true, result := result)];
      ghost var done := 0;
      while promises[p].fulfilledCallbacks != []
        invariant done <= |callbacks| && |promises| == |s0.promises|
        invariant promises == s0.promises[p := s0.promises[p].(resolved := true, result := result,
                                                               fulfilledCallbacks := callbacks[done..])]
        invariant queue == queue0 + jobs[..done]
        decreases |promises[p].fulfilledCallbacks|
      {
        var callback := promises[p].fulfilledCallbacks[0];
        promises := promises[p := promises[p].(fulfilledCallbacks := promises[p].fulfilledCallbacks[1..])];
        queue := queue + [Job(p, callback.callback, callback.newPromise, result, false, true, callback.number)];
        done := done + 1;
      }
      assert jobs[..done] == jobs;
      s := AfterSettle(s0, p, Fulfilled(result));
      thrown := false;
    }

    method DoReject(p: nat, err: Value) returns (thrown: bool)
      requires Mirrored() && Registered(s) && p < |promises|
      modifies this`promises, this`queue, this`s
      ensures Mirrored() && thrown == old(promises[p].resolved)
      ensures s == if thrown then old(s) else AfterSettle(old(s), p, Rejected(err))
    {
      if promises[p].resolved {
        return true;
      }
      ghost var s0, numbers, queue0 := s, Numbers(s.thens, p), queue;
      ghost var callbacks := promises[p].rejectedCallbacks;
      NumbersSound(s.thens, p);
      assert Recorded(s.promises[p], s.truth[p]) && Waiting(s, p);
      ghost var jobs := JobsFor(s.thens, numbers, Rejected(err));
      promises := promises[p := promises[p].(resolved := true, err := err)];
      ghost var done := 0;
      while promises[p].rejectedCallbacks != []
        invariant done <= |callbacks| && |promises| == |s0.promises|
        invariant promises == s0.promises[p := s0.promises[p].(resolved := true, err := err,
                                                               rejectedCallbacks := callbacks[done..])]
        invariant queue == queue0 + jobs[..done]
        decreases |promises[p].rejectedCallbacks|
      {
        var callback := promises[p].rejectedCallbacks[0];
        promises := promises[p := promises[p].(rejectedCallbacks := promises[p].rejectedCallbacks[1..])];
        queue := queue + [Job(p, callback.callback, callback.newPromise, err, true, true, callback.number)];
        done := done + 1;
      }
      assert jobs[..done] == jobs;
      s := AfterSettle(s0, p, Rejected(err));
      thrown := false;
    }

    // -------------------------------------------------------------- what clients and handlers do

    method New() returns (p: nat)
      requires Valid()
      modifies this
      ensures Valid() && NothingRan() && s == AfterNew(old(s)) && p == |old(promises)|
    {
      NewInv(s);
      p := MakePromise();
      assert Extends(old(s), s);
      HeardStays(old(s), s);
      if running.Some? {
        RunningStays(old(s), s, running.value);
      }
    }

    method Then(p: nat, onFulfilled: Callback, onRejected: Callback) returns (newPromise: nat)
      requires Valid() && p < |promises| && !onFulfilled.Deliver? && !onRejected.Deliver?
      modifies this
      ensures Valid() && NothingRan()
      ensures s == AfterThen(old(s), p, onFulfilled, onRejected) && newPromise == |old(promises)|
      ensures calls == old(calls) + 1
      ensures s.thens[calls - 1] == Registration(p, onFulfilled, onRejected, newPromise, old(promises[p].resolved))
      ensures if !old(promises[p].resolved) then queue == old(queue)
              else
                && |queue| == |old(queue)| + 1 && queue[..|old(queue)|] == old(queue)
                && queue[|old(queue)|].number == calls - 1 && JobRight(s, queue[|old(queue)|])
    {
      ThenInv(s, p, onFulfilled, onRejected);
      ThenRegisters(s, p, onFulfilled, onRejected);
      ThenOrders(s, p, onFulfilled, onRejected);
      assert Recorded(s.promises[p], s.truth[p]);
      newPromise := DoThen(p, onFulfilled, onRejected);
      assert Extends(old(s), s);
      HeardStays(old(s), s);
      if running.Some? {
        RunningStays(old(s), s, running.value);
      }
    }

    /** A promise that no call of then has made is the client's to settle. */
    method Fulfill(p: nat, result: Value) returns (thrown: bool)
      requires Valid() && p < |promises| && !IsTarget(p) && ValidValue(result, |promises|)
      modifies this
      ensures Valid() && NothingRan() && thrown == old(promises[p].resolved)
      ensures s == if thrown then old(s) else AfterSettle(old(s), p, Fulfilled(result))
    {
      if !promises[p].resolved {
        ClientSettles(s, p, Fulfilled(result));
        HeardStays(s, AfterSettle(s, p, Fulfilled(result)));
      }
      thrown := DoFulfill(p, result);
      if running.Some? {
        RunningStays(old(s), s, running.value);
      }
    }

    method Reject(p: nat, err: Value) returns (thrown: bool)
      requires Valid() && p < |promises| && !IsTarget(p) && ValidValue(err, |promises|)
      modifies this
      ensures Valid() && NothingRan() && thrown == old(promises[p].resolved)
      ensures s == if thrown then old(s) else AfterSettle(old(s), p, Rejected(err))
    {
      if !promises[p].resolved {
        ClientSettles(s, p, Rejected(err));
        HeardStays(s, AfterSettle(s, p, Rejected(err)));
      }
      thrown := DoReject(p, err);
      if running.Some? {
        RunningStays(old(s), s, running.value);
      }
    }

    // -------------------------------------------------------------- jobs

    /** The first job in the queue is taken out and its handler called, which is the right one. */
    method StartJob() returns (job: Job)
      requires Valid() && running == None && queue != []
      modifies this
      ensures Valid() && running == Some(job) && job == old(queue)[0] && s == AfterStart(old(s))
      ensures JobRight(s, job) && job.number !in s.returned
    {
      StartInv(s);
      StartHeard(s);
      FirstInQueue(s);
      RunningCall(AfterStart(s));
      job := queue[0];
      queue := queue[1..];
      running := Some(job);
      s := AfterStart(s);
    }

    /** Settles the promise of a finished call, which no other call asks for. */
    method SettleTarget(p: nat, w: Settled, ghost k: nat, ghost open: set<nat>)
      requires Mirrored() && Inv(s, open) && k in open && Wanted(s, k, w) && ValidSettled(Some(w), |promises|)
      requires p == s.thens[k].target
      modifies this`promises, this`queue, this`s
      ensures Mirrored() && Inv(s, open - {k}) && s == AfterSettle(old(s), p, w)
    {
      TargetAsks(s, k, w, open);
      SettleInv(s, p, w, open, {k});
      var thrown: bool;
      match w {
        case Fulfilled(v) => thrown := DoFulfill(p, v);
        case Rejected(e) => thrown := DoReject(p, e);
      }
    }

    /** The handler of a returned promise: the promise that waits for it is settled, unless it is
        settled already, which it never is. */
    method PassOn(job: Job, ghost s0: State, ghost outcome: Outcome)
      requires Inv(s0, {}) && RunningJob(s0, job) && job.callback.Deliver?
      requires Mirrored() && s == AfterCall(s0, job.number, outcome) && Inv(s, OpenedBy(s0, job.number))
      modifies this`promises, this`queue, this`s
      ensures Mirrored() && Inv(s, {job.number})
      ensures Given(s, job.number) && job.number in s.returned && job.number !in s.adopter
      ensures ResolutionAt(s, job.number) == ResolutionOf(job, outcome) && s.thens[job.number].target == job.newPromise
      ensures s.started == s0.started && s.finished == s0.finished + 1
      ensures s.called == s0.called && s.returned == s0.returned[job.number := outcome]
      ensures Extends(s0, s) && |promises| == |old(promises)|
    {
      ghost var s1, k := s, job.number;
      CallWanted(s0, job, outcome);
      DeliverWanted(s0, job, outcome);
      ghost var waiting := s0.adoptee[k];
      ghost var open := OpenedBy(s0, k);
      assert open - {waiting} == {k};
      var w := if job.isRejected then Rejected(job.value) else Fulfilled(job.value);
      TargetAsks(s, waiting, w, open);
      InputValid(s, k, open);
      StillWanted(s, job.callback.promise, w, k);
      SettleExtends(s, job.callback.promise, w);
      if !promises[job.callback.promise].resolved {
        SettleTarget(job.callback.promise, w, waiting, open);
      }
    }

    /** The job of call k has called its callback; its promise is still to be settled. */
    ghost predicate Called(k: nat, job: Job, outcome: Outcome)
      reads this
    {
      && Mirrored() && Inv(s, {k}) && Given(s, k) && k in s.returned && k !in s.adopter
      && s.thens[k].target == job.newPromise && ResolutionAt(s, k) == ResolutionOf(job, outcome)
    }

    method CallBack(job: Job, outcome: Outcome)
      requires Mirrored() && Inv(s, {}) && RunningJob(s, job)
      modifies this`promises, this`queue, this`s
      ensures Called(job.number, job, outcome)
      ensures s.started == old(s).started && s.finished == old(s).finished + 1
      ensures s.called == old(s).called && s.returned == old(s).returned[job.number := outcome]
      ensures Extends(old(s), s) && |promises| == |old(promises)|
    {
      ghost var s0 := s;
      CallInv(s, outcome);
      CallWanted(s, job, outcome);
      s := AfterCall(s, job.number, outcome);
      assert Extends(s0, s);
      if job.callback.Deliver? {
        PassOn(job, s0, outcome);
      } else {
        NothingOpened(s0, job);
      }
    }

    /** The callback has returned or thrown: its promise is settled, or made to wait for the promise
        the callback returned. */
    method FinishJob(outcome: Outcome)
      requires Valid() && running.Some? && ValidOutcome(outcome, |promises|)
      modifies this
      ensures Valid() && running == None && Extends(old(s), s)
      ensures s.called == old(s.called) && s.returned == old(s.returned)[old(running).value.number := outcome]
    {
      var job := running.value;
      ResolutionValid(s, job, outcome);
      CallBack(job, outcome);
      running := None;
      ghost var s1 := s;
      ResolveJob(job, outcome);
      ExtendsOn(old(s), s1, s);
      HeardStays(old(s), s);
    }

    method ResolveJob(job: Job, outcome: Outcome)
      requires Called(job.number, job, outcome)
      requires match ResolutionOf(job, outcome)
               case Now(w) => ValidSettled(Some(w), |promises|)
               case Adopt(q) => q < |promises|
      modifies this`promises, this`queue, this`calls, this`s
      ensures Mirrored() && Inv(s, {}) && Extends(old(s), s)
      ensures s.started == old(s).started && s.finished == old(s).finished
      ensures s.called == old(s).called && s.returned == old(s).returned
    {
      if job.callback == NoCallback && !job.early {
        if job.isRejected {
          Finish(job, Rejected(job.value), outcome);
        } else {
          Finish(job, Fulfilled(job.value), outcome);
        }
        return;
      }
      match Promises.Called(job, outcome) {
        case Throws(e) => Finish(job, Rejected(e), outcome);
        case Returns(Null) => Finish(job, Rejected(TypeError), outcome);
        case Returns(Ref(q)) =>
          if q == job.original {
            Finish(job, Rejected(TypeError), outcome);
          } else {
            FinishLater(job, q, outcome);
          }
        case Returns(v) => Finish(job, Fulfilled(v), outcome);
      }
    }

    method Finish(job: Job, w: Settled, ghost outcome: Outcome)
      requires Called(job.number, job, outcome) && ResolutionOf(job, outcome) == Now(w)
      requires ValidSettled(Some(w), |promises|)
      modifies this`promises, this`queue, this`s
      ensures Mirrored() && Inv(s, {}) && Extends(old(s), s)
      ensures s.started == old(s).started && s.finished == old(s).finished
      ensures s.called == old(s).called && s.returned == old(s).returned
    {
      ghost var k := job.number;
      assert {k} - {k} == {};
      TargetAsks(s, k, w, {k});
      SettleExtends(s, job.newPromise, w);
      SettleTarget(job.newPromise, w, k, {k});
    }

    /** The new promise is settled when the returned one is. */
    method FinishLater(job: Job, q: nat, ghost outcome: Outcome)
      requires Called(job.number, job, outcome) && ResolutionOf(job, outcome) == Adopt(q) && q < |promises|
      modifies this`promises, this`queue, this`calls, this`s
      ensures Mirrored() && Inv(s, {}) && Extends(old(s), s)
      ensures s.started == old(s).started && s.finished == old(s).finished
      ensures s.called == old(s).called && s.returned == old(s).returned
    {
      ghost var k, s1 := job.number, s;
      assert {k} - {k} == {};
      AdoptInv(s, k, q, {k});
      assert Recorded(s.promises[q], s.truth[q]);
      var third := DoThen(q, Deliver(job.newPromise), Deliver(job.newPromise));
      s := AfterAdopt(s1, k, q);
      assert Extends(s1, s);
    }
  }
}
