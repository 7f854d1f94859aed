/** Which projections count as validated while they are changed and validated
    (database-jones/Adapter/api/Projection.js; database-jones/Adapter/api/UserContext.js, markValidated). */
module Validation {
  import opened Options

  /** A projection and those it is related to, by field name in the order they were added. Projections
      are numbered so that each is above those it is related to, which can be done when there are no cycles. */
  type Related = seq<(string, nat)>

  /** q is related to p through some field. */
  predicate Uses(related: seq<Related>, q: nat, p: nat) {
    q < |related| && exists k :: 0 <= k < |related[q]| && related[q][k].1 == p
  }

  predicate Below(related: seq<Related>) {
    forall q, k :: 0 <= q < |related| && 0 <= k < |related[q]| ==> related[q][k].1 < q
  }

  predicate Above(usedBy: seq<seq<nat>>) {
    forall p, k :: 0 <= p < |usedBy| && 0 <= k < |usedBy[p]| ==> p < usedBy[p][k] < |usedBy|
  }

  /** Projections know which ones use them, perhaps also ones that no longer do. */
  ghost predicate Linked(related: seq<Related>, usedBy: seq<seq<nat>>) {
    && |related| == |usedBy| && Below(related) && Above(usedBy)
    && forall q: nat, p: nat :: p < |usedBy| && Uses(related, q, p) ==> q in usedBy[p]
  }

  /** Those known to use a projection still do. */
  predicate Exact(related: seq<Related>, usedBy: seq<seq<nat>>) {
    |related| == |usedBy| && forall p, k :: 0 <= p < |usedBy| && 0 <= k < |usedBy[p]| ==> Uses(related, usedBy[p][k], p)
  }

  predicate Stale(related: seq<Related>, validated: seq<bool>, q: nat) {
    q < |validated| && exists p :: 0 <= p < |validated| && Uses(related, q, p) && !validated[p]
  }

  /** A validated projection uses only validated ones. */
  predicate Closed(related: seq<Related>, validated: seq<bool>) {
    forall q :: 0 <= q < |validated| && validated[q] ==> !Stale(related, validated, q)
  }

  /** Does following relationships from q lead to p? */
  predicate Reaches(related: seq<Related>, q: nat, p: nat)
    requires Below(related)
    decreases q
  {
    q == p || exists k :: q < |related| && 0 <= k < |related[q]| && Reaches(related, related[q][k].1, p)
  }

  /** All that can be reached from a validated projection is validated. */
  lemma {:induction false} ReachesValidated(related: seq<Related>, validated: seq<bool>, q: nat, p: nat)
    requires |validated| == |related| && Below(related) && Closed(related, validated)
    requires q < |related| && validated[q] && Reaches(related, q, p)
    ensures p < |validated| && validated[p]
    decreases q
  {
    if q != p {
      var k :| 0 <= k < |related[q]| && Reaches(related, related[q][k].1, p);
      var next := related[q][k].1;
      assert Uses(related, q, next);
      assert validated[next] by {
        if !validated[next] {
          assert Stale(related, validated, q);
        }
      }
      ReachesValidated(related, validated, next, p);
    }
  }

  // ---------------------------------------------------------------- how much work a worklist holds

  function Total(weights: map<nat, nat>, queue: seq<nat>): nat {
    if queue == [] then 0
    else (if queue[0] in weights then weights[queue[0]] else 0) + Total(weights, queue[1..])
  }

  lemma {:induction false} TotalJoins(weights: map<nat, nat>, queue: seq<nat>, more: seq<nat>)
    ensures Total(weights, queue + more) == Total(weights, queue) + Total(weights, more)
  {
    if queue == [] {
      assert queue + more == more;
    } else {
      TotalJoins(weights, queue[1..], more);
      assert (queue + more)[1..] == queue[1..] + more;
    }
  }

  lemma {:induction false} TotalSame(weights: map<nat, nat>, p: nat, weight: nat, queue: seq<nat>)
    requires p !in queue
    ensures Total(weights[p := weight], queue) == Total(weights, queue)
  {
    if queue != [] {
      TotalSame(weights, p, weight, queue[1..]);
    }
  }

  function WeightsFrom(next: seq<seq<nat>>, i: nat): (r: map<nat, nat>)
    requires i <= |next|
    decreases |next| - i
  {
    if i == |next| then map[]
    else var rest := WeightsFrom(next, i + 1); rest[i := 1 + Total(rest, next[i])]
  }

  function WeightsTo(next: seq<seq<nat>>, i: nat): (r: map<nat, nat>)
    requires i <= |next|
  {
    if i == 0 then map[]
    else var rest := WeightsTo(next, i - 1); rest[i - 1 := 1 + Total(rest, next[i - 1])]
  }

  /** A projection outweighs all those it puts on the worklist. */
  ghost predicate WeighsAt(weights: map<nat, nat>, next: seq<seq<nat>>, p: nat) {
    p < |next| && p in weights && weights[p] > Total(weights, next[p])
  }

  lemma {:induction false} AddWeight(weights: map<nat, nat>, next: seq<seq<nat>>, p: nat, x: nat)
    requires p < |next| && p !in next[p]
    requires x == p || (WeighsAt(weights, next, x) && p !in next[x])
    ensures WeighsAt(weights[p := 1 + Total(weights, next[p])], next, x)
  {
    TotalSame(weights, p, 1 + Total(weights, next[p]), next[x]);
  }

  lemma {:induction false} WeighsFrom(next: seq<seq<nat>>, i: nat)
    requires i <= |next| && Above(next)
    ensures forall p: nat :: i <= p < |next| ==> WeighsAt(WeightsFrom(next, i), next, p)
    decreases |next| - i
  {
    if i < |next| {
      WeighsFrom(next, i + 1);
      forall p: nat | i <= p < |next|
        ensures WeighsAt(WeightsFrom(next, i), next, p)
      {
        AddWeight(WeightsFrom(next, i + 1), next, i, p);
      }
    }
  }

  predicate Descending(next: seq<seq<nat>>) {
    forall p, k :: 0 <= p < |next| && 0 <= k < |next[p]| ==> next[p][k] < p
  }

  lemma {:induction false} WeighsTo(next: seq<seq<nat>>, i: nat)
    requires i <= |next| && Descending(next)
    ensures forall p: nat :: 0 <= p < i ==> WeighsAt(WeightsTo(next, i), next, p)
  {
    if i > 0 {
      WeighsTo(next, i - 1);
      forall p: nat | 0 <= p < i
        ensures WeighsAt(WeightsTo(next, i), next, p)
      {
        AddWeight(WeightsTo(next, i - 1), next, i - 1, p);
      }
    }
  }

  /** Taking the first projection off a worklist and putting others on leaves less work. */
  lemma {:induction false} LessWork(weights: map<nat, nat>, next: seq<seq<nat>>, queue: seq<nat>)
    requires queue != [] && WeighsAt(weights, next, queue[0])
    ensures Total(weights, queue[1..] + next[queue[0]]) < Total(weights, queue)
  {
    TotalJoins(weights, queue[1..], next[queue[0]]);
  }

  ghost predicate Known(queue: seq<nat>, n: nat) {
    forall k :: 0 <= k < |queue| ==> queue[k] < n
  }

  // ---------------------------------------------------------------- invalidating

  ghost function Users(usedBy: seq<seq<nat>>, queue: seq<nat>): nat {
    Total(WeightsFrom(usedBy, 0), queue)
  }

  lemma {:induction false} LessToInvalidate(usedBy: seq<seq<nat>>, queue: seq<nat>)
    requires Above(usedBy) && queue != [] && queue[0] < |usedBy|
    ensures Users(usedBy, queue[1..] + usedBy[queue[0]]) < Users(usedBy, queue)
  {
    WeighsFrom(usedBy, 0);
    LessWork(WeightsFrom(usedBy, 0), usedBy, queue);
  }

  /** The worklist where invalidating stops: empty, or with a projection in error in front. */
  function Rest(usedBy: seq<seq<nat>>, error: seq<bool>, queue: seq<nat>): (r: seq<nat>)
    requires Above(usedBy) && |error| == |usedBy| && Known(queue, |usedBy|)
    ensures Known(r, |usedBy|) && (r == [] || error[r[0]])
    decreases Users(usedBy, queue)
  {
    if queue == [] || error[queue[0]] then queue
    else
      LessToInvalidate(usedBy, queue);
      Rest(usedBy, error, queue[1..] + usedBy[queue[0]])
  }

  /** The projections invalidated until then. */
  function Invalidated(usedBy: seq<seq<nat>>, error: seq<bool>, queue: seq<nat>): (r: set<nat>)
    requires Above(usedBy) && |error| == |usedBy| && Known(queue, |usedBy|)
    decreases Users(usedBy, queue)
  {
    if queue == [] || error[queue[0]] then {}
    else
      LessToInvalidate(usedBy, queue);
      {queue[0]} + Invalidated(usedBy, error, queue[1..] + usedBy[queue[0]])
  }

  function Without(validated: seq<bool>, invalid: set<nat>): (r: seq<bool>)
    ensures |r| == |validated| && forall p :: 0 <= p < |r| ==> r[p] == (validated[p] && p !in invalid)
  {
    seq(|validated|, p requires 0 <= p < |validated| => validated[p] && p !in invalid)
  }

  /** Only projections on the worklist may still be validated and use one that is not. */
  ghost predicate Pending(related: seq<Related>, validated: seq<bool>, queue: seq<nat>) {
    forall q :: 0 <= q < |validated| && validated[q] && Stale(related, validated, q) ==> q in queue
  }

  lemma {:induction false} TakeOff(related: seq<Related>, usedBy: seq<seq<nat>>, validated: seq<bool>, queue: seq<nat>)
    requires Linked(related, usedBy) && |validated| == |usedBy| && queue != [] && Known(queue, |usedBy|)
    requires Pending(related, validated, queue)
    ensures Pending(related, validated[queue[0] := false], queue[1..] + usedBy[queue[0]])
  {
    var p, after := queue[0], validated[queue[0] := false];
    forall q | 0 <= q < |after| && after[q] && Stale(related, after, q)
      ensures q in queue[1..] + usedBy[p]
    {
      var x :| 0 <= x < |after| && Uses(related, q, x) && !after[x];
      if x != p {
        assert Stale(related, validated, q);
      }
    }
  }

  lemma {:induction false} WithoutMore(validated: seq<bool>, p: nat, invalid: set<nat>)
    requires p < |validated|
    ensures Without(validated, {p} + invalid) == Without(validated[p := false], invalid)
  {
  }

  lemma {:induction false} PendingAtEnd(related: seq<Related>, usedBy: seq<seq<nat>>, error: seq<bool>,
                                        validated: seq<bool>, queue: seq<nat>)
    requires Linked(related, usedBy) && |error| == |validated| == |usedBy| && Known(queue, |usedBy|)
    requires Pending(related, validated, queue)
    ensures Pending(related, Without(validated, Invalidated(usedBy, error, queue)), Rest(usedBy, error, queue))
    decreases Users(usedBy, queue)
  {
    if queue == [] || error[queue[0]] {
      assert Without(validated, {}) == validated;
    } else {
      LessToInvalidate(usedBy, queue);
      TakeOff(related, usedBy, validated, queue);
      PendingAtEnd(related, usedBy, error, validated[queue[0] := false], queue[1..] + usedBy[queue[0]]);
      WithoutMore(validated, queue[0], Invalidated(usedBy, error, queue[1..] + usedBy[queue[0]]));
    }
  }

  // ---------------------------------------------------------------- marking

  function Targets(fields: Related): (r: seq<nat>)
    ensures |r| == |fields| && forall k :: 0 <= k < |r| ==> r[k] == fields[k].1
  {
    seq(|fields|, k requires 0 <= k < |fields| => fields[k].1)
  }

  function Next(related: seq<Related>): (r: seq<seq<nat>>)
    ensures |r| == |related| && forall p :: 0 <= p < |r| ==> r[p] == Targets(related[p])
    ensures Below(related) ==> Descending(r)
  {
    seq(|related|, p requires 0 <= p < |related| => Targets(related[p]))
  }

  ghost function Work(related: seq<Related>, queue: seq<nat>): nat {
    Total(WeightsTo(Next(related), |related|), queue)
  }

  lemma {:induction false} LessToFollow(related: seq<Related>, queue: seq<nat>)
    requires Below(related) && queue != [] && queue[0] < |related|
    ensures Work(related, queue[1..] + Targets(related[queue[0]])) < Work(related, queue)
  {
    WeighsTo(Next(related), |related|);
    LessWork(WeightsTo(Next(related), |related|), Next(related), queue);
  }

  ghost predicate FromQueue(related: seq<Related>, queue: seq<nat>, p: nat)
    requires Below(related)
  {
    exists k :: 0 <= k < |queue| && Reaches(related, queue[k], p)
  }

  lemma {:induction false} FollowFirst(related: seq<Related>, queue: seq<nat>, p: nat)
    requires Below(related) && queue != [] && queue[0] < |related|
    ensures FromQueue(related, queue, p)
       <==> p == queue[0] || FromQueue(related, queue[1..] + Targets(related[queue[0]]), p)
  {
    var first, after := queue[0], queue[1..] + Targets(related[queue[0]]);
    if FromQueue(related, queue, p) {
      var k :| 0 <= k < |queue| && Reaches(related, queue[k], p);
      if k > 0 {
        assert after[k - 1] == queue[k];
      } else if p != first {
        var j :| 0 <= j < |related[first]| && Reaches(related, related[first][j].1, p);
        assert after[|queue| - 1 + j] == related[first][j].1;
      }
    }
    if FromQueue(related, after, p) {
      var k :| 0 <= k < |after| && Reaches(related, after[k], p);
      if k < |queue| - 1 {
        assert Reaches(related, queue[k + 1], p);
      } else {
        assert Reaches(related, related[first][k - (|queue| - 1)].1, p);
        assert Reaches(related, queue[0], p);
      }
    }
  }

  lemma {:induction false} OneInQueue(related: seq<Related>, q: nat)
    requires Below(related)
    ensures forall p: nat :: FromQueue(related, [q], p) <==> Reaches(related, q, p)
  {
    forall p: nat
      ensures FromQueue(related, [q], p) <==> Reaches(related, q, p)
    {
      assert [q][0] == q;
    }
  }

  lemma {:induction false} ReachesOn(related: seq<Related>, root: nat, q: nat, p: nat)
    requires Below(related) && Reaches(related, root, q) && Uses(related, q, p)
    ensures Reaches(related, root, p)
    decreases root
  {
    if root == q {
      var k :| 0 <= k < |related[q]| && related[q][k].1 == p;
      assert Reaches(related, related[root][k].1, p);
    } else {
      var k :| root < |related| && 0 <= k < |related[root]| && Reaches(related, related[root][k].1, q);
      ReachesOn(related, related[root][k].1, q, p);
    }
  }

  lemma {:induction false} MarkingKeepsClosed(related: seq<Related>, before: seq<bool>, after: seq<bool>, root: nat)
    requires Below(related) && |before| == |after| == |related| && Closed(related, before)
    requires forall p :: 0 <= p < |after| ==> (after[p] <==> before[p] || Reaches(related, root, p))
    ensures Closed(related, after)
  {
    forall q | 0 <= q < |after| && after[q]
      ensures !Stale(related, after, q)
    {
      forall p | 0 <= p < |after| && Uses(related, q, p)
        ensures after[p]
      {
        if before[q] {
          assert !Stale(related, before, q);
        } else {
          ReachesOn(related, root, q, p);
        }
      }
    }
  }

  // ---------------------------------------------------------------- what an error leaves out

  /** The projections on a worklist and those that use them, breadth first, errors left out of account. */
  function Listed(usedBy: seq<seq<nat>>, queue: seq<nat>): (r: seq<nat>)
    requires Above(usedBy) && Known(queue, |usedBy|)
    ensures Known(r, |usedBy|)
    decreases Users(usedBy, queue)
  {
    if queue == [] then []
    else
      LessToInvalidate(usedBy, queue);
      [queue[0]] + Listed(usedBy, queue[1..] + usedBy[queue[0]])
  }

  /** Where the first projection in error is in a list. */
  function FirstError(error: seq<bool>, list: seq<nat>): (r: nat)
    requires Known(list, |error|)
    ensures r <= |list| && (r < |list| ==> error[list[r]])
    ensures forall k :: 0 <= k < r ==> !error[list[k]]
  {
    if list == [] || error[list[0]] then 0 else 1 + FirstError(error, list[1..])
  }

  /** Does a validated projection come in the list of those that use p only at or after the first one in error? */
  ghost predicate Late(usedBy: seq<seq<nat>>, error: seq<bool>, validated: seq<bool>, p: nat)
    requires Above(usedBy) && |error| == |validated| == |usedBy| && p < |usedBy|
  {
    var list := Listed(usedBy, [p]);
    var first := FirstError(error, list);
    exists j :: first <= j < |list| && validated[list[j]] && list[j] !in list[..first]
  }

  lemma {:induction false} InListed(usedBy: seq<seq<nat>>, queue: seq<nat>, k: nat)
    requires Above(usedBy) && Known(queue, |usedBy|) && k < |queue|
    ensures queue[k] in Listed(usedBy, queue)
    decreases Users(usedBy, queue)
  {
    if k > 0 {
      LessToInvalidate(usedBy, queue);
      InListed(usedBy, queue[1..] + usedBy[queue[0]], k - 1);
    }
  }

  /** Invalidating works the list off as far as the first error. */
  lemma {:induction false} ListSplit(usedBy: seq<seq<nat>>, error: seq<bool>, queue: seq<nat>)
    requires Above(usedBy) && |error| == |usedBy| && Known(queue, |usedBy|)
    ensures SplitAt(Listed(usedBy, queue), FirstError(error, Listed(usedBy, queue)),
                    Invalidated(usedBy, error, queue), Listed(usedBy, Rest(usedBy, error, queue)))
    decreases Users(usedBy, queue)
  {
    if queue != [] && !error[queue[0]] {
      var after := queue[1..] + usedBy[queue[0]];
      LessToInvalidate(usedBy, queue);
      ListSplit(usedBy, error, after);
      var list := Listed(usedBy, after);
      assert ([queue[0]] + list)[1..] == list;
      SplitLater(list, FirstError(error, list), Invalidated(usedBy, error, after),
                 Listed(usedBy, Rest(usedBy, error, queue)), queue[0]);
    }
  }

  /** The list is divided into certain projections and a rest. */
  ghost predicate SplitAt(list: seq<nat>, first: nat, before: set<nat>, rest: seq<nat>) {
    first <= |list| && rest == list[first..] && forall x :: x in before <==> x in list[..first]
  }

  lemma {:induction false} SplitLater(list: seq<nat>, first: nat, before: set<nat>, rest: seq<nat>, p: nat)
    requires SplitAt(list, first, before, rest)
    ensures SplitAt([p] + list, first + 1, {p} + before, rest)
  {
    assert ([p] + list)[..first + 1] == [p] + list[..first];
  }

  /** What is listed uses what was on the worklist. */
  lemma {:induction false} ListedReaches(related: seq<Related>, usedBy: seq<seq<nat>>, queue: seq<nat>, q: nat)
    requires Below(related) && Above(usedBy) && Exact(related, usedBy) && Known(queue, |usedBy|)
    requires q in Listed(usedBy, queue)
    ensures exists k :: 0 <= k < |queue| && Reaches(related, q, queue[k])
    decreases Users(usedBy, queue)
  {
    LessToInvalidate(usedBy, queue);
    var p, after := queue[0], queue[1..] + usedBy[queue[0]];
    if q == p {
      assert Reaches(related, q, queue[0]);
    } else {
      ListedReaches(related, usedBy, after, q);
      var k :| 0 <= k < |after| && Reaches(related, q, after[k]);
      if k < |queue| - 1 {
        assert after[k] == queue[k + 1];
      } else {
        assert after[k] == usedBy[p][k - (|queue| - 1)];
        ReachesOn(related, q, after[k], p);
        assert Reaches(related, q, queue[0]);
      }
    }
  }

  /** Invalidating a projection keeps what is validated closed if no validated projection comes too late. */
  lemma {:induction false} InvalidatingKeepsClosed(related: seq<Related>, usedBy: seq<seq<nat>>, error: seq<bool>,
                                                   validated: seq<bool>, p: nat)
    requires Linked(related, usedBy) && |error| == |validated| == |usedBy| && p < |usedBy|
    requires Closed(related, validated) && !Late(usedBy, error, validated, p)
    ensures Closed(related, Without(validated, Invalidated(usedBy, error, [p])))
  {
    var list, rest := Listed(usedBy, [p]), Rest(usedBy, error, [p]);
    var first := FirstError(error, list);
    PendingAtEnd(related, usedBy, error, validated, [p]);
    ListSplit(usedBy, error, [p]);
    forall q | q in rest && validated[q]
      ensures q in Invalidated(usedBy, error, [p])
    {
      var k :| 0 <= k < |rest| && rest[k] == q;
      InListed(usedBy, rest, k);
      var j :| 0 <= j < |list[first..]| && list[first..][j] == q;
      assert list[first + j] == q;
    }
  }

  /** As long as no field has been given a different relationship, only if. */
  lemma {:induction false} ClosedIff(related: seq<Related>, usedBy: seq<seq<nat>>, error: seq<bool>,
                                     validated: seq<bool>, p: nat)
    requires Linked(related, usedBy) && Exact(related, usedBy) && |error| == |validated| == |usedBy| && p < |usedBy|
    requires Closed(related, validated) && !error[p]
    ensures Closed(related, Without(validated, Invalidated(usedBy, error, [p])))
       <==> !Late(usedBy, error, validated, p)
  {
    if Late(usedBy, error, validated, p) {
      var list, after := Listed(usedBy, [p]), Without(validated, Invalidated(usedBy, error, [p]));
      var first := FirstError(error, list);
      var j :| first <= j < |list| && validated[list[j]] && list[j] !in list[..first];
      ListSplit(usedBy, error, [p]);
      ListedReaches(related, usedBy, [p], list[j]);
      assert p in Invalidated(usedBy, error, [p]);
      if Closed(related, after) {
        ReachesValidated(related, after, list[j], p);
      }
    } else {
      InvalidatingKeepsClosed(related, usedBy, error, validated, p);
    }
  }

  /** Nothing comes too late if no projection from which p can be reached is in error. */
  lemma {:induction false} NoUserInError(related: seq<Related>, usedBy: seq<seq<nat>>, error: seq<bool>,
                                         validated: seq<bool>, p: nat)
    requires Linked(related, usedBy) && Exact(related, usedBy) && |error| == |validated| == |usedBy| && p < |usedBy|
    requires forall x :: 0 <= x < |error| && Reaches(related, x, p) ==> !error[x]
    ensures !Late(usedBy, error, validated, p)
  {
    var list := Listed(usedBy, [p]);
    forall k | 0 <= k < |list|
      ensures !error[list[k]]
    {
      ListedReaches(related, usedBy, [p], list[k]);
    }
  }

  /** Of two projections that use a third, one in error keeps the other from being invalidated. */
  lemma {:induction false} ErrorStopsInvalidating(related: seq<Related>, usedBy: seq<seq<nat>>)
    requires related == [[], [("a", 0)], [("b", 0)]] && usedBy == [[1, 2], [], []]
    ensures Linked(related, usedBy) && Closed(related, [true, false, true])
    ensures !Closed(related, Without([true, false, true], Invalidated(usedBy, [false, true, false], [0])))
  {
    var error, validated := [false, true, false], [true, false, true];
    assert related[2][0].1 == 0 && related[1][0].1 == 0;
    forall q: nat, p: nat | p < 3 && Uses(related, q, p)
      ensures p == 0 && (q == 1 || q == 2)
    {
    }
    assert Exact(related, usedBy) by {
      assert Uses(related, 1, 0) && Uses(related, 2, 0);
    }
    SecondIsLate(usedBy, error, validated);
    ClosedIff(related, usedBy, error, validated, 0);
  }

  lemma {:induction false} SecondIsLate(usedBy: seq<seq<nat>>, error: seq<bool>, validated: seq<bool>)
    requires usedBy == [[1, 2], [], []] && error == [false, true, false] && validated == [true, false, true]
    ensures Late(usedBy, error, validated, 0)
  {
    var list := Listed(usedBy, [0]);
    assert [0][1..] + usedBy[0] == [1, 2] && [1, 2][1..] + usedBy[1] == [2];
    assert Listed(usedBy, [2])[0] == 2;
    assert Listed(usedBy, [1, 2]) == [1] + Listed(usedBy, [2]);
    assert list[0] == 0 && list[1] == 1 && list[2] == 2;
    assert FirstError(error, list) == 1;
  }

  /** Giving a projection that is not validated a relationship leaves what is validated closed. */
  lemma {:induction false} RelatingKeepsClosed(related: seq<Related>, validated: seq<bool>, q: nat, fields: Related)
    requires |validated| == |related| && q < |related| && !validated[q] && Closed(related, validated)
    ensures Closed(related[q := fields], validated)
  {
    forall x | 0 <= x < |validated| && validated[x]
      ensures !Stale(related[q := fields], validated, x)
    {
      forall p | 0 <= p < |validated| && Uses(related[q := fields], x, p)
        ensures validated[p]
      {
        assert Uses(related, x, p);
        assert !Stale(related, validated, x);
      }
    }
  }

  function Put(fields: Related, name: string, p: nat): (r: Related)
    ensures forall k :: 0 <= k < |r| && r[k].1 != p ==> r[k] in fields
  {
    if fields == [] then [(name, p)]
    else if fields[0].0 == name then [(name, p)] + fields[1..]
    else [fields[0]] + Put(fields[1..], name, p)
  }

  lemma {:induction false} PutFinds(fields: Related, name: string, p: nat)
    ensures exists k :: 0 <= k < |Put(fields, name, p)| && Put(fields, name, p)[k] == (name, p)
    ensures forall k :: 0 <= k < |fields| && fields[k].0 != name ==> fields[k] in Put(fields, name, p)
  {
    var r := Put(fields, name, p);
    if fields == [] || fields[0].0 == name {
      assert r[0] == (name, p);
      forall k | 0 <= k < |fields| && fields[k].0 != name
        ensures fields[k] in r
      {
        assert r[k] == fields[k];
      }
    } else {
      PutFinds(fields[1..], name, p);
      var j :| 0 <= j < |Put(fields[1..], name, p)| && Put(fields[1..], name, p)[j] == (name, p);
      assert r[j + 1] == (name, p);
      forall k | 0 <= k < |fields| && fields[k].0 != name
        ensures fields[k] in r
      {
        if k == 0 {
          assert r[0] == fields[0];
        } else {
          assert fields[k] == fields[1..][k - 1];
        }
      }
    }
  }

  lemma {:induction false} StaysLinked(related: seq<Related>, usedBy: seq<seq<nat>>, q: nat, name: string, p: nat)
    requires Linked(related, usedBy) && p < q < |related|
    ensures Linked(related[q := Put(related[q], name, p)], usedBy[p := usedBy[p] + [q]])
  {
    var after: seq<Related> := related[q := Put(related[q], name, p)];
    var users: seq<seq<nat>> := usedBy[p := usedBy[p] + [q]];
    forall k | 0 <= k < |after[q]|
      ensures after[q][k].1 < q
      ensures q in users[after[q][k].1]
    {
      if after[q][k].1 == p {
        assert users[p][|users[p]| - 1] == q;
      } else {
        assert after[q][k] in related[q];
        assert Uses(related, q, after[q][k].1);
      }
    }
    forall x: nat, y: nat | y < |users| && Uses(after, x, y)
      ensures x in users[y]
    {
      if x != q {
        assert Uses(related, x, y);
      }
    }
  }

  /** If no projection from which a projection can be reached is in error, exactly those are invalidated with it. */
  lemma {:induction false} UsersInvalidated(related: seq<Related>, usedBy: seq<seq<nat>>, error: seq<bool>,
                                            validated: seq<bool>, p: nat, q: nat)
    requires Linked(related, usedBy) && Exact(related, usedBy) && Closed(related, validated)
    requires |error| == |validated| == |usedBy| && p < |usedBy| && q < |usedBy|
    requires forall x :: 0 <= x < |error| && Reaches(related, x, p) ==> !error[x]
    ensures Without(validated, Invalidated(usedBy, error, [p]))[q] <==> validated[q] && !Reaches(related, q, p)
  {
    var after := Without(validated, Invalidated(usedBy, error, [p]));
    NoUserInError(related, usedBy, error, validated, p);
    InvalidatingKeepsClosed(related, usedBy, error, validated, p);
    assert Reaches(related, p, p);
    assert !after[p] by {
      assert p in Invalidated(usedBy, error, [p]);
    }
    if after[q] && Reaches(related, q, p) {
      ReachesValidated(related, after, q, p);
    }
    if q in Invalidated(usedBy, error, [p]) {
      ListSplit(usedBy, error, [p]);
      ListedReaches(related, usedBy, [p], q);
    }
  }

  /** Unless a field that was related to one projection is now related to another, those known to use
      a projection still do. */
  lemma {:induction false} StaysExact(related: seq<Related>, usedBy: seq<seq<nat>>, q: nat, name: string, p: nat)
    requires Exact(related, usedBy) && q < |related| && p < |related|
    requires forall k :: 0 <= k < |related[q]| && related[q][k].0 == name ==> related[q][k].1 == p
    ensures Exact(related[q := Put(related[q], name, p)], usedBy[p := usedBy[p] + [q]])
  {
    var after: seq<Related> := related[q := Put(related[q], name, p)];
    var users: seq<seq<nat>> := usedBy[p := usedBy[p] + [q]];
    PutFinds(related[q], name, p);
    var i :| 0 <= i < |after[q]| && after[q][i] == (name, p);
    assert after[q][i].1 == p;
    assert Uses(after, q, p);
    forall y, j | 0 <= y < |users| && 0 <= j < |users[y]|
      ensures Uses(after, users[y][j], y)
    {
      var x := users[y][j];
      if (x, y) != (q, p) {
        assert x == usedBy[y][j];
        assert Uses(related, x, y);
        var k :| 0 <= k < |related[x]| && related[x][k].1 == y;
        if x == q {
          assert related[q][k] in after[q];
          var m :| 0 <= m < |after[q]| && after[q][m] == related[q][k];
          assert after[q][m].1 == y;
        } else {
          assert after[x] == related[x];
        }
      }
    }
  }

  // ---------------------------------------------------------------- projections

  class Projections {
    var validated: seq<bool>
    /** Has an error been reported for a projection? */
    var error: seq<bool>
    var fields: seq<seq<string>>
    var related: seq<Related>
    var usedBy: seq<seq<nat>>

    ghost predicate Valid()
      reads this
    {
      |validated| == |error| == |fields| == |related| && Linked(related, usedBy)
    }

    /** Invalidates the projections on a worklist and those that use them. */
    method InvalidateAll(toBeInvalidated: seq<nat>)
      requires Valid() && Known(toBeInvalidated, |usedBy|)
      modifies this`validated
      ensures validated == Without(old(validated), Invalidated(usedBy, error, toBeInvalidated))
      decreases Users(usedBy, toBeInvalidated)
    {
      if |toBeInvalidated| == 0 {
        assert Without(validated, {}) == validated;
        return;
      }
      var projection := toBeInvalidated[0];
      if error[projection] {
        assert Without(validated, {}) == validated;
        return;
      }
      LessToInvalidate(usedBy, toBeInvalidated);
      WithoutMore(validated, projection, Invalidated(usedBy, error, toBeInvalidated[1..] + usedBy[projection]));
      validated := validated[projection := false];
      InvalidateAll(toBeInvalidated[1..] + usedBy[projection]);
    }

    /** Is a projection on a worklist, or one that can be reached from there, in error? */
    method CollectErrors(projections: seq<nat>) returns (errors: bool)
      requires Valid() && Known(projections, |related|)
      ensures errors <==> exists p :: 0 <= p < |error| && FromQueue(related, projections, p) && error[p]
      decreases Work(related, projections)
    {
      if |projections| == 0 {
        return false;
      }
      var projection := projections[0];
      LessToFollow(related, projections);
      errors := CollectErrors(projections[1..] + Targets(related[projection]));
      errors := errors || error[projection];
      forall p: nat {
        FollowFirst(related, projections, p);
      }
    }

    /** Marks the projections on a worklist and those that can be reached from there. */
    method MarkValidated(projections: seq<nat>)
      requires Valid() && Known(projections, |related|)
      modifies this`validated
      ensures |validated| == old(|validated|)
      ensures forall p :: 0 <= p < |validated| ==>
                (validated[p] <==> old(validated)[p] || FromQueue(related, projections, p))
      decreases Work(related, projections)
    {
      if |projections| > 0 {
        var projection := projections[0];
        LessToFollow(related, projections);
        validated := validated[projection := true];
        MarkValidated(projections[1..] + Targets(related[projection]));
        forall p: nat {
          FollowFirst(related, projections, p);
        }
      }
    }

    /** Adds fields to a projection; misnamed tells that some of the arguments are no names. */
    method AddFields(projection: nat, names: seq<string>, misnamed: bool)
      requires Valid() && projection < |fields|
      modifies this
      ensures Valid() && related == old(related) && usedBy == old(usedBy)
      ensures if old(error)[projection] then validated == old(validated) && fields == old(fields) && error == old(error)
              else && validated == Without(old(validated), Invalidated(usedBy, old(error), [projection]))
                   && fields == old(fields)[projection := old(fields)[projection] + names]
                   && error == old(error)[projection := misnamed]
      ensures old(Closed(related, validated) && !Late(usedBy, error, validated, projection))
              ==> Closed(related, validated)
    {
      if error[projection] {
        return;
      }
      InvalidateAll([projection]);
      if old(Closed(related, validated) && !Late(usedBy, error, validated, projection)) {
        InvalidatingKeepsClosed(related, usedBy, error, old(validated), projection);
      }
      fields := fields[projection := fields[projection] + names];
      error := error[projection := misnamed];
    }

    /** Relates a projection to another; either argument may be something else. */
    method AddRelationship(projection: nat, name: Option<string>, other: Option<nat>)
      requires Valid() && projection < |related| && (other.Some? ==> other.value < projection)
      modifies this
      ensures Valid() && fields == old(fields)
      ensures if old(error)[projection] then validated == old(validated) && error == old(error)
              else && validated == Without(old(validated), Invalidated(old(usedBy), old(error), [projection]))
                   && error == old(error)[projection := name.None? || other.None?]
      ensures if old(error)[projection] || name.None? || other.None?
              then related == old(related) && usedBy == old(usedBy)
              else && related == old(related)[projection := Put(old(related)[projection], name.value, other.value)]
                   && usedBy == old(usedBy)[other.value := old(usedBy)[other.value] + [projection]]
      ensures old(Closed(related, validated) && !Late(usedBy, error, validated, projection))
              ==> Closed(related, validated)
    {
      if error[projection] {
        return;
      }
      InvalidateAll([projection]);
      assert !validated[projection] by {
        assert projection in Invalidated(usedBy, error, [projection]);
      }
      if old(Closed(related, validated) && !Late(usedBy, error, validated, projection)) {
        InvalidatingKeepsClosed(related, usedBy, error, old(validated), projection);
      }
      if name.None? {
        error := error[projection := true];
      }
      if other.None? {
        error := error[projection := true];
      }
      if !error[projection] {
        Relate(projection, name.value, other.value);
      }
    }

    method Relate(projection: nat, name: string, other: nat)
      requires Valid() && other < projection < |related| && !validated[projection]
      modifies this`related, this`usedBy
      ensures Valid()
      ensures related == old(related)[projection := Put(old(related)[projection], name, other)]
      ensures usedBy == old(usedBy)[other := old(usedBy)[other] + [projection]]
      ensures old(Closed(related, validated)) ==> Closed(related, validated)
    {
      StaysLinked(related, usedBy, projection, name, other);
      if Closed(related, validated) {
        RelatingKeepsClosed(related, validated, projection, Put(related[projection], name, other));
      }
      related := related[projection := Put(related[projection], name, other)];
      usedBy := usedBy[other := usedBy[other] + [projection]];
    }

    /** Is a projection that can be reached from here in error? */
    ghost predicate AnyError(projection: nat)
      reads this
      requires Below(related)
    {
      exists p :: 0 <= p < |error| && Reaches(related, projection, p) && error[p]
    }

    method ErrorsBelow(projection: nat) returns (errors: bool)
      requires Valid() && projection < |related|
      ensures errors <==> AnyError(projection)
    {
      OneInQueue(related, projection);
      errors := CollectErrors([projection]);
    }

    /** Validates a projection. It may be rejected for how its fields are mapped; otherwise sectors are made,
        and found tells the projections that errors are reported for then. */
    method ValidateProjection(projection: nat, rejected: bool, found: set<nat>) returns (errors: bool)
      requires Valid() && projection < |related|
      modifies this`validated, this`error
      ensures Valid()
      ensures errors <==> !old(validated)[projection] && (rejected || AnyError(projection))
      ensures forall p :: 0 <= p < |validated| ==>
                (validated[p] <==>
                   || old(validated)[p]
                   || (!errors && !old(validated)[projection] && Reaches(related, projection, p)))
      ensures forall p :: 0 <= p < |error| ==>
                (error[p] <==> old(error)[p]
                               || (!old(validated)[projection] && !rejected && !old(AnyError(projection))
                                  && p in found))
      ensures old(Closed(related, validated)) ==> Closed(related, validated)
    {
      if validated[projection] {
        return false;
      }
      errors := ErrorsBelow(projection);
      if rejected || errors {
        return true;
      }
      error := seq(|error|, p requires 0 <= p < |error| reads this => error[p] || p in found);
      errors := ErrorsBelow(projection);
      if !errors {
        OneInQueue(related, projection);
        MarkValidated([projection]);
        if old(Closed(related, validated)) {
          MarkingKeepsClosed(related, old(validated), validated, projection);
        }
      }
    }
  }
}
