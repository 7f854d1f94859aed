/** What every run of promises keeps: each promise made by then is settled once, by the job of
    that call, as its handler asks (jones-promises/lib/Promise.js). */
module PromiseRuns {
  import opened Options
  import opened Promises

  /** The position in the order says whether a job has finished. */
  ghost predicate ReturnedAt(s: State, i: nat)
    requires i < |s.order|
  {
    s.order[i] in s.returned <==> i < s.finished
  }

  ghost predicate Returned(s: State) {
    && (forall i {:trigger ReturnedAt(s, i)} :: 0 <= i < |s.order| ==> ReturnedAt(s, i))
    && (forall k {:trigger InOrder(s, k)} :: k in s.returned ==> InOrder(s, k))
  }

  /** Promises that values refer to exist. */
  predicate ValidValue(v: Value, n: nat) {
    v.Ref? ==> v.promise < n
  }

  predicate ValidSettled(settled: Option<Settled>, n: nat) {
    match settled
    case None => true
    case Some(Fulfilled(v)) => ValidValue(v, n)
    case Some(Rejected(e)) => ValidValue(e, n)
  }

  /** The job of call k has been given its input. */
  ghost predicate Given(s: State, k: nat) {
    && k < |s.thens| && s.thens[k].source < |s.promises| == |s.truth| && s.truth[s.thens[k].source].Some?
    && s.thens[k].target < |s.truth|
  }

  /** How the job of call k is to settle its promise. */
  function ResolutionAt(s: State, k: nat): Resolution
    requires Given(s, k) && k in s.returned
  {
    ResolutionOf(JobFor(k, s.thens[k], Input(s, k)), s.returned[k])
  }

  /** The promise of call k waits for call adopter[k] on promise q to pass q's state on. */
  ghost predicate Adopting(s: State, k: nat, q: nat)
    requires Given(s, k)
  {
    k in s.adopter && s.adopter[k] < |s.thens| &&
    var r := s.thens[s.adopter[k]];
    r.source == q && r.onFulfilled == r.onRejected == Deliver(s.thens[k].target)
  }

  ghost predicate Adopted(s: State, k: nat)
    requires Given(s, k) && k in s.adopter
  {
    var via := s.adopter[k];
    s.truth[s.thens[k].target] == if via in s.returned && Given(s, via) then Some(Input(s, via)) else None
  }

  /** The promise of call k is settled if and only if its job asks for it, and as it asks. Calls in
      open have finished their job but not settled the promise yet; a promise that waits for itself
      is never settled. */
  ghost predicate TargetRight(s: State, k: nat, open: set<nat>) {
    k < |s.thens| && s.thens[k].target < |s.truth| &&
    var settled := s.truth[s.thens[k].target];
    if k !in s.returned then settled == None && k !in open
    else
      && Given(s, k)
      && if k in open then settled == None
         else match ResolutionAt(s, k)
              case Now(w) => settled == Some(w) && k !in s.adopter
              case Adopt(q) => Adopting(s, k, q) && Adopted(s, k) && (q == s.thens[k].target ==> settled == None)
  }

  /** Only calls made to adopt a promise pass states on, each for the one call that asked for it. */
  ghost predicate DeliverOwned(s: State, n: nat, open: set<nat>)
    requires n < |s.thens|
  {
    s.thens[n].onFulfilled.Deliver? || s.thens[n].onRejected.Deliver? ==>
      && n in s.adoptee && s.adoptee[n] in s.returned && Given(s, s.adoptee[n])
      && var k := s.adoptee[n];
         && s.thens[n].onFulfilled == s.thens[n].onRejected == Deliver(s.thens[k].target)
         && k in s.adopter && s.adopter[k] == n && ResolutionAt(s, k) == Adopt(s.thens[n].source)
         && (n !in s.returned ==> k !in open)
  }

  ghost predicate Inv(s: State, open: set<nat>) {
    && Registered(s) && Ordered(s) && Returned(s)
    && (forall k {:trigger k in s.adopter} :: k in s.adopter ==> k in s.returned)
    && (forall k {:trigger k in open} :: k in open ==> k in s.returned)
    && (forall p {:trigger s.truth[p]} :: 0 <= p < |s.truth| ==> ValidSettled(s.truth[p], |s.promises|))
    && (forall k {:trigger TargetRight(s, k, open)} :: 0 <= k < |s.thens| ==> TargetRight(s, k, open))
    && (forall n {:trigger DeliverOwned(s, n, open)} :: 0 <= n < |s.thens| ==> DeliverOwned(s, n, open))
  }

  /** Whatever handler a job has called, it was the right one; those that have finished have called
      theirs. */
  ghost predicate HeardRight(s: State, k: nat) {
    && k < |s.thens| && s.thens[k].source < |s.truth| && s.truth[s.thens[k].source].Some?
    && k in s.called && RightCall(s.thens[k], s.truth[s.thens[k].source].value, s.called[k])
  }

  ghost predicate Heard(s: State) {
    && (forall k {:trigger HeardRight(s, k)} :: k in s.called ==> HeardRight(s, k))
    && (forall k {:trigger k in s.called} :: k in s.returned ==> k in s.called)
  }

  lemma {:induction false} HeardStays(s: State, s': State)
    requires Heard(s) && Extends(s, s') && s'.called == s.called
    requires forall k {:trigger k in s'.returned} :: k in s'.returned ==> k in s.called
    ensures Heard(s')
  {
    forall k | k in s'.called
      ensures HeardRight(s', k)
    {
      assert HeardRight(s, k);
      assert s'.thens[k] == s'.thens[..|s.thens|][k];
    }
  }

  /** A job that starts calls the right handler. */
  lemma {:induction false} StartHeard(s: State)
    requires Inv(s, {}) && Heard(s) && s.queue != []
    ensures Heard(AfterStart(s)) && JobRight(s, s.queue[0])
    ensures s.queue[0].number in AfterStart(s).called
    ensures var job := s.queue[0]; AfterStart(s).called[job.number] == HandlerCall(job.callback, job.value)
  {
    var s' := AfterStart(s);
    QueueRight(s);
    assert JobRight(s, s.queue[0]);
    forall k | k in s'.called
      ensures HeardRight(s', k)
    {
      assert k != s.queue[0].number ==> HeardRight(s, k);
    }
  }

  /** Calls, results and settled promises of s are still there in s'. */
  ghost predicate Extends(s: State, s': State) {
    && |s.thens| <= |s'.thens| && s'.thens[..|s.thens|] == s.thens
    && |s.promises| <= |s'.promises| && |s.truth| == |s.promises| && |s'.truth| == |s'.promises|
    && (forall p {:trigger s'.truth[p]} :: 0 <= p < |s.truth| ==> s.truth[p].Some? ==> s'.truth[p] == s.truth[p])
    && (forall p {:trigger s'.promises[p]} :: 0 <= p < |s.promises| && s.promises[p].resolved ==>
          s'.promises[p].resolved && s'.promises[p].result == s.promises[p].result
          && s'.promises[p].err == s.promises[p].err)
  }

  lemma {:induction false} ExtendsOn(s: State, s1: State, s2: State)
    requires Extends(s, s1) && Extends(s1, s2)
    ensures Extends(s, s2)
  {
    assert s2.thens[..|s.thens|] == s2.thens[..|s1.thens|][..|s.thens|];
    forall p | 0 <= p < |s.truth| && s.truth[p].Some?
      ensures s2.truth[p] == s.truth[p]
    {
      assert s1.truth[p] == s.truth[p];
    }
    forall p | 0 <= p < |s.promises| && s.promises[p].resolved
      ensures s2.promises[p].resolved && s2.promises[p].result == s.promises[p].result
      ensures s2.promises[p].err == s.promises[p].err
    {
      assert s1.promises[p].resolved;
    }
  }

  lemma {:induction false} GivenStays(s: State, s': State, k: nat)
    requires Registered(s) && Extends(s, s') && Given(s, k)
    ensures Given(s', k) && s'.thens[k] == s.thens[k] && Input(s', k) == Input(s, k)
  {
    assert s'.thens[k] == s'.thens[..|s.thens|][k];
    assert Recorded(s.promises[s.thens[k].source], s.truth[s.thens[k].source]);
    assert s'.truth[s.thens[k].source].Some?;
    assert s'.promises[s.thens[k].source].err == s.promises[s.thens[k].source].err;
  }

  /** A step that does not touch the promise of call k leaves it right. */
  lemma {:induction false} TargetStays(s: State, s': State, k: nat, open: set<nat>, open': set<nat>)
    requires Registered(s) && Extends(s, s') && TargetRight(s, k, open)
    requires s'.truth[s.thens[k].target] == s.truth[s.thens[k].target]
    requires k in open <==> k in open'
    requires k in s'.returned <==> k in s.returned
    requires k in s.returned ==> s'.returned[k] == s.returned[k]
    requires k in s.adopter <==> k in s'.adopter
    requires k in s.adopter ==> s'.adopter[k] == s.adopter[k]
    requires k in s.adopter && s.adopter[k] < |s.thens| ==>
               && (s.adopter[k] in s'.returned <==> s.adopter[k] in s.returned)
               && (s.adopter[k] in s.returned ==> Given(s, s.adopter[k]))
    ensures TargetRight(s', k, open')
  {
    assert s'.thens[k] == s'.thens[..|s.thens|][k];
    if k in s.returned {
      GivenStays(s, s', k);
      if k !in open && ResolutionAt(s, k).Adopt? {
        var via := s.adopter[k];
        assert s'.thens[via] == s'.thens[..|s.thens|][via];
        if via in s.returned {
          GivenStays(s, s', via);
        }
      }
    }
  }

  lemma {:induction false} DeliverStays(s: State, s': State, n: nat, open: set<nat>, open': set<nat>)
    requires Registered(s) && Extends(s, s') && n < |s.thens| && DeliverOwned(s, n, open)
    requires n in s.adoptee ==>
               && n in s'.adoptee && s'.adoptee[n] == s.adoptee[n]
               && var k := s.adoptee[n];
                  && (k in s.returned ==> k in s'.returned && s'.returned[k] == s.returned[k])
                  && (k in s.adopter ==> k in s'.adopter && s'.adopter[k] == s.adopter[k])
                  && (k in open' ==> k in open || n in s'.returned)
    requires n in s.returned ==> n in s'.returned
    ensures n < |s'.thens| && DeliverOwned(s', n, open')
  {
    assert s'.thens[n] == s'.thens[..|s.thens|][n];
    if s.thens[n].onFulfilled.Deliver? || s.thens[n].onRejected.Deliver? {
      GivenStays(s, s', s.adoptee[n]);
    }
  }

  /** Jobs that have not finished have not returned. */
  lemma {:induction false} ReturnedLike(s: State, s': State)
    requires Registered(s) && Ordered(s) && Returned(s)
    requires s'.returned == s.returned && s'.finished == s.finished
    requires |s.order| <= |s'.order| && s'.order[..|s.order|] == s.order
    requires forall i :: |s.order| <= i < |s'.order| ==> s'.order[i] !in s.returned
    ensures Returned(s')
  {
    assert forall i :: 0 <= i < |s.order| ==> s'.order[i] == s'.order[..|s.order|][i];
    forall i | 0 <= i < |s'.order|
      ensures ReturnedAt(s', i)
    {
      assert i < |s.order| ==> ReturnedAt(s, i);
    }
    forall k | k in s'.returned
      ensures InOrder(s', k)
    {
      assert InOrder(s, k);
      assert k in s'.order[..|s.order|];
    }
  }

  lemma {:induction false} ReturnedIsGiven(s: State, k: nat)
    requires Registered(s) && Ordered(s) && Returned(s) && k in s.returned
    ensures k < |s.thens| && s.thens[k].source < |s.truth| && s.truth[s.thens[k].source].Some?
  {
    assert InOrder(s, k);
    var i :| 0 <= i < |s.order| && s.order[i] == k;
    assert Due(s, i);
  }

  lemma {:induction false} NewInv(s: State)
    requires Inv(s, {})
    ensures Inv(AfterNew(s), {})
  {
    var s' := AfterNew(s);
    NewKeeps(s);
    ReturnedLike(s, s');
    assert Extends(s, s');
    forall k | 0 <= k < |s'.thens|
      ensures TargetRight(s', k, {}) && DeliverOwned(s', k, {})
    {
      assert TargetRight(s, k, {}) && DeliverOwned(s, k, {});
      ViaGiven(s, k);
      TargetStays(s, s', k, {}, {});
      DeliverStays(s, s', k, {}, {});
    }
  }

  lemma {:induction false} ViaGiven(s: State, k: nat)
    requires Registered(s) && Ordered(s) && Returned(s)
    ensures k in s.adopter && s.adopter[k] in s.returned ==> Given(s, s.adopter[k])
  {
    if k in s.adopter && s.adopter[k] in s.returned {
      ReturnedIsGiven(s, s.adopter[k]);
      assert ThenMade(s, s.adopter[k]);
    }
  }

  /** A call of then leaves all other calls right. */
  lemma {:induction false} ThenOthers(s: State, p: nat, onFulfilled: Callback, onRejected: Callback,
                                      s': State, k: nat, open: set<nat>, open': set<nat>)
    requires Inv(s, open) && p < |s.promises| && k < |s.thens|
    requires s' == AfterThen(s, p, onFulfilled, onRejected).(adopter := s'.adopter, adoptee := s'.adoptee)
    requires k in s'.adopter <==> k in s.adopter
    requires k in s.adopter ==> s'.adopter[k] == s.adopter[k]
    requires k in open' <==> k in open
    ensures TargetRight(s', k, open')
  {
    assert Recorded(s.promises[p], s.truth[p]);
    assert ThenMade(s, k) && TargetRight(s, k, open);
    assert Extends(s, s');
    ViaGiven(s, k);
    TargetStays(s, s', k, open, open');
  }

  lemma {:induction false} ThenDelivers(s: State, p: nat, onFulfilled: Callback, onRejected: Callback,
                                        s': State, n: nat, open: set<nat>, open': set<nat>)
    requires Inv(s, open) && p < |s.promises| && n < |s.thens|
    requires s' == AfterThen(s, p, onFulfilled, onRejected).(adopter := s'.adopter, adoptee := s'.adoptee)
    requires n in s.adoptee ==> n in s'.adoptee && s'.adoptee[n] == s.adoptee[n]
    requires forall k :: k in s.adopter ==> k in s'.adopter && s'.adopter[k] == s.adopter[k]
    requires open' <= open
    ensures DeliverOwned(s', n, open')
  {
    assert Recorded(s.promises[p], s.truth[p]);
    assert DeliverOwned(s, n, open);
    assert Extends(s, s');
    DeliverStays(s, s', n, open, open');
  }

  /** The bookkeeping after a call of then. */
  lemma {:induction false} ThenBooks(s: State, p: nat, onFulfilled: Callback, onRejected: Callback, s': State,
                                     open: set<nat>)
    requires Inv(s, open) && p < |s.promises|
    requires s' == AfterThen(s, p, onFulfilled, onRejected).(adopter := s'.adopter, adoptee := s'.adoptee)
    ensures Registered(s') && Ordered(s') && Returned(s')
    ensures |s.thens| !in s.returned && |s.thens| !in s.adopter && |s.thens| < |s'.thens|
  {
    var s1 := AfterThen(s, p, onFulfilled, onRejected);
    ThenRegisters(s, p, onFulfilled, onRejected);
    ThenOrders(s, p, onFulfilled, onRejected);
    SameCalls(s1, s');
    OrderedLike(s1, s');
    NewestNotReturned(s, open);
    ReturnedLike(s, s');
  }

  lemma {:induction false} NewestNotReturned(s: State, open: set<nat>)
    requires Inv(s, open)
    ensures |s.thens| !in s.returned
  {
    if |s.thens| in s.returned {
      ReturnedIsGiven(s, |s.thens|);
    }
  }

  /** A client calls then. */
  lemma {:induction false} ThenInv(s: State, p: nat, onFulfilled: Callback, onRejected: Callback)
    requires Inv(s, {}) && p < |s.promises| && !onFulfilled.Deliver? && !onRejected.Deliver?
    ensures Inv(AfterThen(s, p, onFulfilled, onRejected), {})
  {
    var s' := AfterThen(s, p, onFulfilled, onRejected);
    ThenBooks(s, p, onFulfilled, onRejected, s', {});
    forall k | 0 <= k < |s'.thens|
      ensures TargetRight(s', k, {}) && DeliverOwned(s', k, {})
    {
      if k < |s.thens| {
        ThenOthers(s, p, onFulfilled, onRejected, s', k, {}, {});
        ThenDelivers(s, p, onFulfilled, onRejected, s', k, {}, {});
      }
    }
    ValuesStay(s, s');
  }

  lemma {:induction false} ValuesStay(s: State, s': State)
    requires |s.truth| <= |s'.truth| && |s.promises| <= |s'.promises|
    requires forall p :: 0 <= p < |s.truth| ==> ValidSettled(s.truth[p], |s.promises|)
    requires forall p :: 0 <= p < |s.truth| ==> s'.truth[p] == s.truth[p] || ValidSettled(s'.truth[p], |s'.promises|)
    requires forall p :: |s.truth| <= p < |s'.truth| ==> s'.truth[p] == None
    ensures forall p :: 0 <= p < |s'.truth| ==> ValidSettled(s'.truth[p], |s'.promises|)
  {
  }

  /** The state after call k's handler has returned promise q. */
  function AfterAdopt(s: State, k: nat, q: nat): State
    requires q < |s.promises| && k < |s.thens|
  {
    var deliver := Deliver(s.thens[k].target);
    AfterThen(s, q, deliver, deliver).(adopter := s.adopter[k := |s.thens|], adoptee := s.adoptee[|s.thens| := k])
  }

  lemma {:induction false} AdoptInv(s: State, k: nat, q: nat, open: set<nat>)
    requires Inv(s, open) && k in open && k !in s.adopter && q < |s.promises|
    requires Given(s, k) && k in s.returned && ResolutionAt(s, k) == Adopt(q)
    ensures Inv(AfterAdopt(s, k, q), open - {k})
  {
    var s', deliver := AfterAdopt(s, k, q), Deliver(s.thens[k].target);
    ThenBooks(s, q, deliver, deliver, s', open);
    ValuesStay(s, s');
    forall j | 0 <= j < |s'.thens|
      ensures TargetRight(s', j, open - {k}) && DeliverOwned(s', j, open - {k})
    {
      AdoptingAny(s, k, q, open, j);
    }
  }

  lemma {:induction false} AdoptingAny(s: State, k: nat, q: nat, open: set<nat>, j: nat)
    requires Inv(s, open) && k in open && k !in s.adopter && q < |s.promises|
    requires Given(s, k) && k in s.returned && ResolutionAt(s, k) == Adopt(q) && j < |AfterAdopt(s, k, q).thens|
    ensures TargetRight(AfterAdopt(s, k, q), j, open - {k}) && DeliverOwned(AfterAdopt(s, k, q), j, open - {k})
  {
    if j < |s.thens| {
      AdoptingOthers(s, k, q, open, j);
    } else {
      assert j == |s.thens|;
      NewestRight(s, k, q, open);
    }
  }

  lemma {:induction false} AdoptingOthers(s: State, k: nat, q: nat, open: set<nat>, j: nat)
    requires Inv(s, open) && k in open && k !in s.adopter && q < |s.promises| && j < |s.thens|
    requires Given(s, k) && k in s.returned && ResolutionAt(s, k) == Adopt(q)
    ensures TargetRight(AfterAdopt(s, k, q), j, open - {k}) && DeliverOwned(AfterAdopt(s, k, q), j, open - {k})
  {
    var s', deliver := AfterAdopt(s, k, q), Deliver(s.thens[k].target);
    ThenBooks(s, q, deliver, deliver, s', open);
    if j == k {
      AdoptingNow(s, k, q, open);
    } else {
      ThenOthers(s, q, deliver, deliver, s', j, open, open - {k});
    }
    assert j in s.adoptee ==> j in s'.adoptee && s'.adoptee[j] == s.adoptee[j];
    ThenDelivers(s, q, deliver, deliver, s', j, open, open - {k});
  }

  lemma {:induction false} AdoptingNow(s: State, k: nat, q: nat, open: set<nat>)
    requires Inv(s, open) && k in open && k !in s.adopter && q < |s.promises|
    requires Given(s, k) && k in s.returned && ResolutionAt(s, k) == Adopt(q)
    ensures TargetRight(AfterAdopt(s, k, q), k, open - {k})
  {
    var s' := AfterAdopt(s, k, q);
    assert TargetRight(s, k, open) && Recorded(s.promises[q], s.truth[q]);
    assert Extends(s, s');
    GivenStays(s, s', k);
    NewestNotReturned(s, open);
  }

  lemma {:induction false} NewestRight(s: State, k: nat, q: nat, open: set<nat>)
    requires Inv(s, open) && k in open && k !in s.adopter && q < |s.promises|
    requires Given(s, k) && k in s.returned && ResolutionAt(s, k) == Adopt(q)
    ensures TargetRight(AfterAdopt(s, k, q), |s.thens|, open - {k})
    ensures DeliverOwned(AfterAdopt(s, k, q), |s.thens|, open - {k})
  {
    var s' := AfterAdopt(s, k, q);
    assert Recorded(s.promises[q], s.truth[q]);
    assert Extends(s, s');
    GivenStays(s, s', k);
    NewestNotReturned(s, open);
  }

  // ---------------------------------------------------------------- settling

  /** Call k has finished its job and asks for its promise to be settled as w. */
  ghost predicate Wanted(s: State, k: nat, w: Settled) {
    Given(s, k) && k in s.returned &&
    match ResolutionAt(s, k)
    case Now(x) => x == w && k !in s.adopter
    case Adopt(q) =>
      && Adopting(s, k, q) && s.adopter[k] in s.returned
      && Given(s, s.adopter[k]) && Input(s, s.adopter[k]) == w
  }

  /** The calls whose promise is p. */
  ghost predicate Asks(s: State, p: nat, w: Settled, open: set<nat>, asking: set<nat>) {
    && (forall k {:trigger k in asking} :: k in asking ==>
          k < |s.thens| && s.thens[k].target == p && k in open && Wanted(s, k, w))
    && (forall k {:trigger s.thens[k]} :: 0 <= k < |s.thens| && s.thens[k].target == p ==> k in asking)
  }

  lemma {:induction false} SettleExtends(s: State, p: nat, w: Settled)
    requires Registered(s) && p < |s.promises| && s.truth[p] == None
    ensures Extends(s, AfterSettle(s, p, w))
  {
    assert Recorded(s.promises[p], s.truth[p]);
  }

  lemma {:induction false} SettleTarget(s: State, p: nat, w: Settled, open: set<nat>, asking: set<nat>, k: nat)
    requires Inv(s, open) && p < |s.promises| && s.truth[p] == None && k < |s.thens| && Asks(s, p, w, open, asking)
    ensures TargetRight(AfterSettle(s, p, w), k, open - asking)
  {
    var s' := AfterSettle(s, p, w);
    assert TargetRight(s, k, open);
    SettleExtends(s, p, w);
    ViaGiven(s, k);
    if s.thens[k].target == p {
      assert k in asking && Wanted(s, k, w);
      GivenStays(s, s', k);
      if ResolutionAt(s, k).Adopt? {
        GivenStays(s, s', s.adopter[k]);
      }
    } else {
      assert k !in asking;
      TargetStays(s, s', k, open, open - asking);
    }
  }

  /** A promise that no call is waiting for, or that one asks for, is settled. */
  lemma {:induction false} SettleInv(s: State, p: nat, w: Settled, open: set<nat>, asking: set<nat>)
    requires Inv(s, open) && p < |s.promises| && s.truth[p] == None && Asks(s, p, w, open, asking)
    requires ValidSettled(Some(w), |s.promises|)
    ensures Inv(AfterSettle(s, p, w), open - asking)
  {
    var s' := AfterSettle(s, p, w);
    SettleRegisters(s, p, w);
    SettleOrders(s, p, w);
    SettleReturned(s, p, w, open);
    SettleExtends(s, p, w);
    forall k | 0 <= k < |s'.thens|
      ensures TargetRight(s', k, open - asking) && DeliverOwned(s', k, open - asking)
    {
      SettleTarget(s, p, w, open, asking, k);
      assert DeliverOwned(s, k, open);
      DeliverStays(s, s', k, open, open - asking);
    }
    ValuesStay(s, s');
  }

  lemma {:induction false} SettleReturned(s: State, p: nat, w: Settled, open: set<nat>)
    requires Inv(s, open) && p < |s.promises| && s.truth[p] == None
    ensures Returned(AfterSettle(s, p, w))
  {
    var s' := AfterSettle(s, p, w);
    NumbersSound(s.thens, p);
    forall i | |s.order| <= i < |s'.order|
      ensures s'.order[i] !in s.returned
    {
      var k := s'.order[i];
      assert k in Numbers(s.thens, p);
      if k in s.returned {
        ReturnedIsGiven(s, k);
      }
    }
    assert s'.order[..|s.order|] == s.order;
    ReturnedLike(s, s');
  }

  // ---------------------------------------------------------------- running a job

  lemma {:induction false} StartInv(s: State)
    requires Inv(s, {}) && s.queue != [] && s.started == s.finished
    ensures Inv(AfterStart(s), {})
  {
    var s' := AfterStart(s);
    StartKeeps(s);
    ReturnedLike(s, s');
    assert Extends(s, s');
    forall k | 0 <= k < |s'.thens|
      ensures TargetRight(s', k, {}) && DeliverOwned(s', k, {})
    {
      assert TargetRight(s, k, {}) && DeliverOwned(s, k, {});
      ViaGiven(s, k);
      TargetStays(s, s', k, {}, {});
      DeliverStays(s, s', k, {}, {});
    }
  }

  /** The calls that ask for their promise to be settled when call k has finished its job: k, and
      the call for which k passes a state on. */
  ghost function OpenedBy(s: State, k: nat): set<nat>
    requires k < |s.thens|
  {
    {k} + if s.thens[k].onFulfilled.Deliver? && k in s.adoptee then {s.adoptee[k]} else {}
  }

  lemma {:induction false} RunningCall(s: State)
    requires Inv(s, {}) && s.finished < s.started
    ensures var k := s.order[s.finished]; Given(s, k) && k !in s.returned && k !in s.adopter
    ensures var k := s.order[s.finished];
            s.thens[k].onFulfilled.Deliver? || s.thens[k].onRejected.Deliver? ==>
              k in s.adoptee && s.adoptee[k] != k
  {
    var k := s.order[s.finished];
    assert Due(s, s.finished) && ReturnedAt(s, s.finished);
    assert ThenMade(s, k);
    assert DeliverOwned(s, k, {});
  }

  lemma {:induction false} CallTarget(s: State, outcome: Outcome, j: nat)
    requires Inv(s, {}) && s.finished < s.started && j < |s.thens|
    ensures s.order[s.finished] < |s.thens|
    ensures var k := s.order[s.finished]; TargetRight(AfterCall(s, k, outcome), j, OpenedBy(s, k))
  {
    RunningCall(s);
    var k := s.order[s.finished];
    var s' := AfterCall(s, k, outcome);
    assert TargetRight(s, j, {}) && DeliverOwned(s, k, {});
    assert Extends(s, s');
    ViaGiven(s, j);
    if j in OpenedBy(s, k) {
      if j != k {
        GivenStays(s, s', j);
      }
    } else {
      if j in s.adopter && s.adopter[j] == k {
        NotVia(s, j, k);
      } else {
        TargetStays(s, s', j, {}, OpenedBy(s, k));
      }
    }
  }

  /** Only one call waits for another to pass a state on. */
  lemma {:induction false} NotVia(s: State, j: nat, k: nat)
    requires Inv(s, {}) && j < |s.thens| && k < |s.thens| && j in s.adopter && s.adopter[j] == k && k !in s.returned
    ensures j in OpenedBy(s, k)
  {
    assert TargetRight(s, j, {}) && DeliverOwned(s, k, {});
    var o := s.adoptee[k];
    assert j < o ==> TargetsRise(s, j, o);
    assert o < j ==> TargetsRise(s, o, j);
  }

  lemma {:induction false} CallInv(s: State, outcome: Outcome)
    requires Inv(s, {}) && s.finished < s.started
    ensures s.order[s.finished] < |s.thens|
    ensures var k := s.order[s.finished]; Inv(AfterCall(s, k, outcome), OpenedBy(s, k))
  {
    RunningCall(s);
    var k := s.order[s.finished];
    var s' := AfterCall(s, k, outcome);
    CallKeeps(s, k, outcome);
    CallReturned(s, k, outcome);
    assert Extends(s, s');
    forall j | 0 <= j < |s'.thens|
      ensures TargetRight(s', j, OpenedBy(s, k)) && DeliverOwned(s', j, OpenedBy(s, k))
    {
      CallTarget(s, outcome, j);
      CallDelivers(s, outcome, j);
    }
    assert DeliverOwned(s, k, {});
  }

  lemma {:induction false} CallReturned(s: State, k: nat, outcome: Outcome)
    requires Inv(s, {}) && s.finished < s.started && k == s.order[s.finished]
    ensures Returned(AfterCall(s, k, outcome))
  {
    var s' := AfterCall(s, k, outcome);
    forall i | 0 <= i < |s'.order|
      ensures ReturnedAt(s', i)
    {
      assert ReturnedAt(s, i) && Due(s, i) && Due(s, s.finished);
      assert i < s.finished ==> Before(s, i, k);
      assert i > s.finished ==> Before(s, s.finished, s.order[i]);
    }
    forall j | j in s'.returned
      ensures InOrder(s', j)
    {
      assert j in s.returned ==> InOrder(s, j);
    }
  }

  lemma {:induction false} CallDelivers(s: State, outcome: Outcome, n: nat)
    requires Inv(s, {}) && s.finished < s.started && n < |s.thens|
    ensures s.order[s.finished] < |s.thens|
    ensures var k := s.order[s.finished]; DeliverOwned(AfterCall(s, k, outcome), n, OpenedBy(s, k))
  {
    RunningCall(s);
    var k := s.order[s.finished];
    assert DeliverOwned(s, n, {}) && DeliverOwned(s, k, {});
    assert Extends(s, AfterCall(s, k, outcome));
    if n in s.adoptee && (s.thens[n].onFulfilled.Deliver? || s.thens[n].onRejected.Deliver?) {
      DeliverStays(s, AfterCall(s, k, outcome), n, {}, OpenedBy(s, k));
    }
  }

  // ---------------------------------------------------------------- finishing a job

  /** The job whose handler is being called is that of the first call that has not returned. */
  ghost predicate RunningJob(s: State, job: Job) {
    && s.started == s.finished + 1 <= |s.order| && job.number == s.order[s.finished]
    && Given(s, job.number) && job == JobFor(job.number, s.thens[job.number], Input(s, job.number))
  }

  lemma {:induction false} RunningStays(s: State, s': State, job: Job)
    requires Registered(s) && Extends(s, s') && RunningJob(s, job)
    requires s'.started == s.started && s'.finished == s.finished
    requires |s.order| <= |s'.order| && s'.order[..|s.order|] == s.order
    ensures RunningJob(s', job)
  {
    assert s'.order[..|s.order|][s.finished] == s'.order[s.finished];
    GivenStays(s, s', job.number);
  }

  lemma {:induction false} FirstInQueue(s: State)
    requires Inv(s, {}) && s.queue != [] && s.started == s.finished
    ensures RunningJob(AfterStart(s), s.queue[0])
  {
    assert Queued(s, 0) && ThenMade(s, s.order[s.started]);
  }

  predicate ValidOutcome(outcome: Outcome, n: nat) {
    match outcome
    case Returns(v) => ValidValue(v, n)
    case Throws(e) => ValidValue(e, n)
  }

  /** A finished call whose promise is not settled yet is the only one to ask for it. */
  lemma {:induction false} TargetAsks(s: State, k: nat, w: Settled, open: set<nat>)
    requires Inv(s, open) && k in open && Wanted(s, k, w)
    ensures Asks(s, s.thens[k].target, w, open, {k}) && s.truth[s.thens[k].target] == None
    ensures !s.promises[s.thens[k].target].resolved
  {
    assert TargetRight(s, k, open);
    assert Recorded(s.promises[s.thens[k].target], s.truth[s.thens[k].target]);
    forall j | 0 <= j < |s.thens| && s.thens[j].target == s.thens[k].target
      ensures j == k
    {
      assert j < k ==> TargetsRise(s, j, k);
      assert k < j ==> TargetsRise(s, k, j);
    }
  }

  /** What the running job's callback has done decides how its promise is to be settled. */
  lemma {:induction false} CallWanted(s: State, job: Job, outcome: Outcome)
    requires Inv(s, {}) && RunningJob(s, job)
    ensures var s', k := AfterCall(s, job.number, outcome), job.number;
            && Given(s', k) && k in s'.returned && k !in s'.adopter && k in OpenedBy(s, k)
            && ResolutionAt(s', k) == ResolutionOf(job, outcome)
            && Input(s', k) == Input(s, k)
            && job == JobFor(k, s'.thens[k], Input(s', k))
  {
    RunningCall(s);
  }

  /** A job that passes a state on settles the promise that waits for it. */
  lemma {:induction false} DeliverWanted(s: State, job: Job, outcome: Outcome)
    requires Inv(s, {}) && RunningJob(s, job) && job.callback.Deliver?
    ensures var s', k := AfterCall(s, job.number, outcome), job.number;
            && k in s.adoptee && OpenedBy(s, k) == {k, s.adoptee[k]} && s.adoptee[k] != k
            && Given(s', s.adoptee[k]) && s'.thens[s.adoptee[k]].target == job.callback.promise
            && Wanted(s', s.adoptee[k], Input(s', k))
  {
    RunningCall(s);
    var k := job.number;
    assert DeliverOwned(s, k, {});
    assert TargetRight(s, s.adoptee[k], {});
    assert Extends(s, AfterCall(s, k, outcome));
    GivenStays(s, AfterCall(s, k, outcome), s.adoptee[k]);
  }

  /** Settling another promise does not change what a finished call asks for. */
  lemma {:induction false} StillWanted(s: State, p: nat, w: Settled, k: nat)
    requires Registered(s) && p < |s.promises| && s.truth[p] == None && Given(s, k) && k in s.returned
    ensures var s' := AfterSettle(s, p, w); Given(s', k) && ResolutionAt(s', k) == ResolutionAt(s, k)
  {
    SettleExtends(s, p, w);
    GivenStays(s, AfterSettle(s, p, w), k);
  }

  /** A client settles a promise of its own. */
  lemma {:induction false} ClientSettles(s: State, p: nat, w: Settled)
    requires Inv(s, {}) && p < |s.promises| && !s.promises[p].resolved && ValidSettled(Some(w), |s.promises|)
    requires forall k {:trigger s.thens[k]} :: 0 <= k < |s.thens| ==> s.thens[k].target != p
    ensures s.truth[p] == None && Inv(AfterSettle(s, p, w), {}) && Extends(s, AfterSettle(s, p, w))
  {
    assert Recorded(s.promises[p], s.truth[p]);
    SettleInv(s, p, w, {}, {});
    var none: set<nat> := {};
    assert none - none == none;
    SettleExtends(s, p, w);
  }

  lemma {:induction false} InputValid(s: State, k: nat, open: set<nat>)
    requires Inv(s, open) && Given(s, k)
    ensures ValidSettled(Some(Input(s, k)), |s.promises|)
  {
    var p := s.thens[k].source;
    assert Recorded(s.promises[p], s.truth[p]);
    assert ValidSettled(s.truth[p], |s.promises|);
  }

  /** What a resolution refers to exists. */
  lemma {:induction false} ResolutionValid(s: State, job: Job, outcome: Outcome)
    requires Inv(s, {}) && RunningJob(s, job) && ValidOutcome(outcome, |s.promises|)
    ensures match ResolutionOf(job, outcome)
            case Now(w) => ValidSettled(Some(w), |s.promises|)
            case Adopt(q) => q < |s.promises|
  {
    InputValid(s, job.number, {});
  }

  lemma {:induction false} NothingOpened(s: State, job: Job)
    requires RunningJob(s, job) && !job.callback.Deliver? && Inv(s, {})
    ensures OpenedBy(s, job.number) == {job.number}
  {
    RunningCall(s);
    assert DeliverOwned(s, job.number, {});
  }
}
