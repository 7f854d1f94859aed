/** Trees of projections and their breadth-first order, as createSector's two worklists visit
    them (database-jones/Adapter/api/UserContext.js). */
module ProjectionTrees {

  /** What createSector knows of a projection; sectors is what it fills in. */
  class Projection {
    const keyFields: seq<string>
    const fields: seq<string>
    const toMany: bool
    var relationships: seq<Projection>
    var parentProjection: Projection?
    var sectors: seq<Sector>

    constructor (keyFields: seq<string>, fields: seq<string>, toMany: bool)
      ensures this.keyFields == keyFields && this.fields == fields && this.toMany == toMany
      ensures relationships == [] && parentProjection == null && sectors == []
    {
      this.keyFields, this.fields, this.toMany := keyFields, fields, toMany;
      relationships, parentProjection, sectors := [], null, [];
    }
  }

  /** The part of a row that belongs to one projection; offset counts the fields before it. */
  datatype Sector = Sector(projection: Projection, index: nat, offset: nat, keyFields: seq<string>,
                           nonKeyFields: seq<string>, parentSectorIndex: nat, childSectorIndexes: seq<nat>)

  /** A projection with the projections of its relationships. */
  datatype Tree = Tree(projection: Projection, kids: seq<Tree>)

  ghost function Roots(trees: seq<Tree>): seq<Projection> {
    seq(|trees|, i requires 0 <= i < |trees| => trees[i].projection)
  }

  /** The projection refers to its relationships, and they to it. */
  ghost predicate Linked(tree: Tree)
    reads tree.projection`relationships, Roots(tree.kids)`parentProjection
  {
    && tree.projection.relationships == Roots(tree.kids)
    && forall p {:trigger p in Roots(tree.kids)} :: p in Roots(tree.kids) ==> p.parentProjection == tree.projection
  }

  // ---------------------------------------------------------------- all projections of some trees

  ghost function Size(trees: seq<Tree>): nat {
    if trees == [] then 0 else 1 + Size(trees[0].kids) + Size(trees[1..])
  }

  /** How often a projection occurs. */
  ghost function Count(trees: seq<Tree>, p: Projection): nat {
    if trees == [] then 0
    else (if trees[0].projection == p then 1 else 0) + Count(trees[0].kids, p) + Count(trees[1..], p)
  }

  lemma {:induction false} SizeConcat(a: seq<Tree>, b: seq<Tree>)
    ensures Size(a + b) == Size(a) + Size(b)
  {
    if a == [] {
      assert a + b == b;
    } else {
      SizeConcat(a[1..], b);
      assert (a + b)[1..] == a[1..] + b;
    }
  }

  lemma {:induction false} CountConcat(a: seq<Tree>, b: seq<Tree>, p: Projection)
    ensures Count(a + b, p) == Count(a, p) + Count(b, p)
  {
    if a == [] {
      assert a + b == b;
    } else {
      CountConcat(a[1..], b, p);
      assert (a + b)[1..] == a[1..] + b;
    }
  }

  // ---------------------------------------------------------------- breadth-first order

  ghost function Bfs(queue: seq<Tree>): seq<Tree>
    decreases Size(queue)
  {
    if queue == [] then []
    else
      SizeConcat(queue[1..], queue[0].kids);
      [queue[0]] + Bfs(queue[1..] + queue[0].kids)
  }

  /** The children of all trees of one level. */
  ghost function KidsOf(level: seq<Tree>): seq<Tree> {
    if level == [] then [] else level[0].kids + KidsOf(level[1..])
  }

  /** The order goes level by level: all trees of one come before their children. */
  lemma {:induction false} LevelByLevel(level: seq<Tree>)
    ensures Bfs(level) == level + Bfs(KidsOf(level))
  {
    RestOfLevel(level, []);
    assert level + [] == level && [] + KidsOf(level) == KidsOf(level);
  }

  lemma {:induction false} RestOfLevel(rest: seq<Tree>, kids: seq<Tree>)
    ensures Bfs(rest + kids) == rest + Bfs(kids + KidsOf(rest))
    decreases |rest|
  {
    if rest == [] {
      assert rest + kids == kids && kids + KidsOf(rest) == kids;
    } else {
      var first, more := rest[0], rest[1..];
      assert (rest + kids)[1..] + first.kids == more + (kids + first.kids);
      RestOfLevel(more, kids + first.kids);
      assert kids + first.kids + KidsOf(more) == kids + KidsOf(rest);
      assert [first] + more == rest;
    }
  }

  ghost predicate NoRepeats(s: seq<Projection>) {
    forall i, j {:trigger s[i], s[j]} :: 0 <= i < j < |s| ==> s[i] != s[j]
  }

  ghost function Occurrences(list: seq<Tree>, p: Projection): nat {
    if list == [] then 0 else (if list[0].projection == p then 1 else 0) + Occurrences(list[1..], p)
  }

  /** The breadth-first order lists every projection of the trees as often as it occurs. */
  lemma {:induction false} BfsLists(queue: seq<Tree>, p: Projection)
    ensures Occurrences(Bfs(queue), p) == Count(queue, p)
    decreases Size(queue)
  {
    if queue != [] {
      var next := queue[1..] + queue[0].kids;
      SizeConcat(queue[1..], queue[0].kids);
      CountConcat(queue[1..], queue[0].kids, p);
      BfsLists(next, p);
      assert Bfs(queue)[1..] == Bfs(next);
    }
  }

  lemma {:induction false} ListedOften(list: seq<Tree>, i: nat, j: nat, p: Projection)
    requires i < |list| && list[i].projection == p
    ensures Occurrences(list, p) >= 1
    ensures i < j < |list| && list[j].projection == p ==> Occurrences(list, p) >= 2
  {
    if i > 0 {
      ListedOften(list[1..], i - 1, if j > 0 then j - 1 else 0, p);
    } else if 0 < j < |list| && list[j].projection == p {
      ListedOften(list[1..], j - 1, 0, p);
    }
  }

  lemma {:induction false} ListedOnce(list: seq<Tree>, p: Projection)
    requires NoRepeats(Roots(list))
    ensures Occurrences(list, p) <= 1
    ensures Occurrences(list, p) == 1 ==> p in Roots(list)
  {
    if list != [] {
      assert Roots(list[1..]) == Roots(list)[1..];
      ListedOnce(list[1..], p);
      assert list[0].projection == Roots(list)[0];
      if list[0].projection == p {
        assert p !in Roots(list[1..]);
      }
    }
  }

  lemma {:induction false} QueuedIsListed(queue: seq<Tree>, x: Tree)
    requires x in queue
    ensures x in Bfs(queue)
    decreases Size(queue)
  {
    SizeConcat(queue[1..], queue[0].kids);
    if x != queue[0] {
      QueuedIsListed(queue[1..] + queue[0].kids, x);
    }
  }

  /** Projections are listed before the ones they are related to. */
  ghost predicate Closed(list: seq<Tree>) {
    forall k, x {:trigger x in list[k].kids} :: 0 <= k < |list| && x in list[k].kids ==> x in list[k + 1..]
  }

  lemma {:induction false} BfsClosed(queue: seq<Tree>)
    ensures Closed(Bfs(queue))
    decreases Size(queue)
  {
    if queue != [] {
      var next := queue[1..] + queue[0].kids;
      SizeConcat(queue[1..], queue[0].kids);
      BfsClosed(next);
      var list := Bfs(queue);
      assert list[1..] == Bfs(next);
      forall k, x | 0 <= k < |list| && x in list[k].kids
        ensures x in list[k + 1..]
      {
        if k == 0 {
          QueuedIsListed(next, x);
        } else {
          assert x in list[1..][k - 1].kids;
          assert list[1..][k..] == list[k + 1..];
        }
      }
    }
  }

  /** What is not in the queue is related to something listed earlier. */
  lemma {:induction false} ParentListed(queue: seq<Tree>, i: nat) returns (j: nat)
    requires |queue| <= i < |Bfs(queue)|
    ensures j < i && Bfs(queue)[i] in Bfs(queue)[j].kids
    decreases Size(queue)
  {
    var next := queue[1..] + queue[0].kids;
    SizeConcat(queue[1..], queue[0].kids);
    QueueFirst(next);
    assert Bfs(queue)[1..] == Bfs(next);
    if i - 1 < |next| {
      assert Bfs(next)[i - 1] == next[i - 1];
      j := 0;
    } else {
      j := ParentListed(next, i - 1);
      j := j + 1;
    }
  }

  /** What occurs in a part of the trees occurs in them. */
  lemma {:induction false} PartCount(queue: seq<Tree>, k: nat, p: Projection)
    requires k < |Bfs(queue)|
    ensures Count([Bfs(queue)[k]], p) <= Count(queue, p)
    decreases Size(queue)
  {
    var next := queue[1..] + queue[0].kids;
    SizeConcat(queue[1..], queue[0].kids);
    CountConcat(queue[1..], queue[0].kids, p);
    if k > 0 {
      PartCount(next, k - 1, p);
    }
  }

  /** No projection occurs twice in the trees. */
  ghost predicate Once(trees: seq<Tree>) {
    NoRepeats(Roots(Bfs(trees)))
  }

  lemma {:induction false} PartOnce(queue: seq<Tree>, k: nat)
    requires Once(queue) && k < |Bfs(queue)|
    ensures Once([Bfs(queue)[k]])
  {
    var part := [Bfs(queue)[k]];
    var list := Bfs(part);
    forall i, j | 0 <= i < j < |list|
      ensures Roots(list)[i] != Roots(list)[j]
    {
      var p := list[i].projection;
      ListedOften(list, i, j, p);
      BfsLists(part, p);
      PartCount(queue, k, p);
      BfsLists(queue, p);
      ListedOnce(Bfs(queue), p);
    }
  }

  // ---------------------------------------------------------------- the outer worklist

  ghost function AddMissing(list: seq<Projection>, more: seq<Projection>): seq<Projection>
    decreases more
  {
    if more == [] then list
    else AddMissing(if more[0] in list then list else list + [more[0]], more[1..])
  }

  /** The outer worklist after the inner one has been worked off. */
  ghost function Grow(list: seq<Projection>, queue: seq<Tree>): seq<Projection>
    decreases Size(queue)
  {
    if queue == [] then list
    else
      SizeConcat(queue[1..], queue[0].kids);
      Grow(AddMissing(list, Roots(queue[0].kids)), queue[1..] + queue[0].kids)
  }

  lemma {:induction false} AddAllMissing(list: seq<Projection>, more: seq<Projection>)
    requires NoRepeats(list + more)
    ensures AddMissing(list, more) == list + more
    decreases more
  {
    if more == [] {
      assert list + more == list;
    } else {
      assert (list + more)[|list|] == more[0];
      assert forall i :: 0 <= i < |list| ==> (list + more)[i] == list[i];
      assert list + [more[0]] + more[1..] == list + more;
      AddAllMissing(list + [more[0]], more[1..]);
    }
  }

  lemma {:induction false} AddNoneMissing(list: seq<Projection>, more: seq<Projection>)
    requires forall p :: p in more ==> p in list
    ensures AddMissing(list, more) == list
  {
    if more != [] {
      AddNoneMissing(list, more[1..]);
    }
  }

  /** At first the outer list grows to all projections, in breadth-first order. */
  lemma {:induction false} GrowsToAll(done: seq<Projection>, queue: seq<Tree>)
    requires NoRepeats(done + Roots(Bfs(queue)))
    ensures Grow(done + Roots(queue), queue) == done + Roots(Bfs(queue))
    decreases Size(queue)
  {
    if queue == [] {
      assert Roots(queue) == Roots(Bfs(queue)) == [];
    } else {
      var next := queue[1..] + queue[0].kids;
      SizeConcat(queue[1..], queue[0].kids);
      var done' := done + [queue[0].projection];
      assert done + Roots(Bfs(queue)) == done' + Roots(Bfs(next));
      QueueFirst(next);
      assert done + Roots(queue) + Roots(queue[0].kids) == done' + Roots(next);
      FirstPart(done', next);
      AddAllMissing(done + Roots(queue), Roots(queue[0].kids));
      GrowsToAll(done', next);
    }
  }

  lemma {:induction false} FirstPart(done: seq<Projection>, queue: seq<Tree>)
    requires NoRepeats(done + Roots(Bfs(queue))) && queue <= Bfs(queue)
    ensures NoRepeats(done + Roots(queue))
  {
    var some, all := done + Roots(queue), done + Roots(Bfs(queue));
    assert forall i :: 0 <= i < |some| ==> some[i] == all[i];
  }

  /** The breadth-first order begins with the queue. */
  lemma {:induction false} QueueFirst(queue: seq<Tree>)
    ensures queue <= Bfs(queue)
    decreases Size(queue)
  {
    if queue != [] {
      SizeConcat(queue[1..], queue[0].kids);
      QueueFirst(queue[1..] + queue[0].kids);
    }
  }

  /** Later it has all of them already. */
  lemma {:induction false} GrowsNoMore(list: seq<Projection>, queue: seq<Tree>, todo: seq<Tree>)
    requires list == Roots(todo) && Closed(todo) && AllIn(queue, todo)
    ensures Grow(list, queue) == list
    decreases Size(queue)
  {
    if queue != [] {
      SizeConcat(queue[1..], queue[0].kids);
      KidsIn(queue[0], todo);
      AddNoneMissing(list, Roots(queue[0].kids));
      GrowsNoMore(list, queue[1..] + queue[0].kids, todo);
    }
  }

  ghost predicate AllIn(queue: seq<Tree>, todo: seq<Tree>) {
    forall i {:trigger queue[i]} :: 0 <= i < |queue| ==> queue[i] in todo
  }

  lemma {:induction false} KidsIn(tree: Tree, todo: seq<Tree>)
    requires Closed(todo) && tree in todo
    ensures AllIn(tree.kids, todo)
    ensures forall p :: p in Roots(tree.kids) ==> p in Roots(todo)
  {
    var k :| 0 <= k < |todo| && todo[k] == tree;
    forall i | 0 <= i < |tree.kids|
      ensures tree.kids[i] in todo && tree.kids[i].projection in Roots(todo)
    {
      assert tree.kids[i] in todo[k].kids;
      var j :| 0 <= j < |todo| && todo[j] == tree.kids[i];
      assert Roots(todo)[j] == tree.kids[i].projection;
    }
  }

  /** What is below trees of a closed list is on the list. */
  lemma {:induction false} ListedIn(queue: seq<Tree>, todo: seq<Tree>)
    requires Closed(todo) && AllIn(queue, todo)
    ensures AllIn(Bfs(queue), todo)
    decreases Size(queue)
  {
    if queue != [] {
      SizeConcat(queue[1..], queue[0].kids);
      KidsIn(queue[0], todo);
      ListedIn(queue[1..] + queue[0].kids, todo);
    }
  }

  lemma {:induction false} ClosedRest(todo: seq<Tree>)
    requires Closed(todo) && todo != []
    ensures Closed(todo[1..])
  {
    var rest := todo[1..];
    forall k, x | 0 <= k < |rest| && x in rest[k].kids
      ensures x in rest[k + 1..]
    {
      assert x in todo[k + 1].kids;
      assert rest[k + 1..] == todo[k + 2..];
    }
  }
}
