/** Inserting a segment into a line whose keys need not have one length
    (database-jones/Adapter/common/IndexBounds.js, NumberLine.insertSegment). */
module Insertions {
  import opened Endpoints
  import opened NumberLines
  import opened Consolidation
  import opened IndexKeys

  /** How far an endpoint gets in a list from position i on. */
  function Stop(e: Endpoint, line: seq<Endpoint>, i: nat): (j: nat)
    requires i <= |line|
    ensures i <= j <= |line|
    ensures forall k :: i <= k < j ==> CompareEndpoints(e, line[k]) >= 1
    ensures j < |line| ==> CompareEndpoints(e, line[j]) < 1
    decreases |line| - i
  {
    if i == |line| || CompareEndpoints(e, line[i]) < 1 then i else Stop(e, line, i + 1)
  }

  lemma {:induction false} MergeOne(h: Endpoint, line: seq<Endpoint>, i: nat)
    requires i <= |line|
    ensures var j := Stop(h, line, i); Merge([h], line[i..]) == line[i..j] + [h] + line[j..]
    decreases |line| - i
  {
    var j := Stop(h, line, i);
    if i < |line| && CompareEndpoints(h, line[i]) >= 1 {
      MergeOne(h, line, i + 1);
      OneLater(h, line, i);
      assert [line[i]] + line[i + 1..j] == line[i..j];
    } else {
      OneNow(h, line, i);
      assert line[i..j] == [];
    }
  }

  lemma {:induction false} OneLater(h: Endpoint, line: seq<Endpoint>, i: nat)
    requires i < |line| && CompareEndpoints(h, line[i]) >= 1
    ensures Merge([h], line[i..]) == [line[i]] + Merge([h], line[i + 1..])
  {
    assert line[i..][0] == line[i] && line[i..][1..] == line[i + 1..];
  }

  lemma {:induction false} OneNow(h: Endpoint, line: seq<Endpoint>, i: nat)
    requires i <= |line| && (i < |line| ==> CompareEndpoints(h, line[i]) < 1)
    ensures Merge([h], line[i..]) == [h] + line[i..]
  {
    var rest := line[i..];
    assert [h][1..] == [] && Merge([], rest) == rest;
    assert rest != [] ==> rest[0] == line[i];
  }

  /** A segment merged into the rest of a line, which it divides in three. */
  function Divided(a: seq<Endpoint>, l: Endpoint, b: seq<Endpoint>, h: Endpoint, c: seq<Endpoint>): seq<Endpoint> {
    a + ([l] + (b + [h] + c))
  }

  lemma {:induction false} MergeTwo(l: Endpoint, h: Endpoint, line: seq<Endpoint>, start: nat)
    requires start <= |line|
    ensures var i := Stop(l, line, start); var j := Stop(h, line, i);
            Merge([l, h], line[start..]) == Divided(line[start..i], l, line[i..j], h, line[j..])
    decreases |line| - start
  {
    var i := Stop(l, line, start);
    var j := Stop(h, line, i);
    if start < |line| && CompareEndpoints(l, line[start]) >= 1 {
      MergeTwo(l, h, line, start + 1);
      MergeLater(l, h, line, start);
      DividedLater(line[start], line[start + 1..i], l, line[i..j], h, line[j..]);
      assert [line[start]] + line[start + 1..i] == line[start..i];
    } else {
      MergeOne(h, line, start);
      MergeNow(l, h, line, start);
      assert line[start..i] == [];
    }
  }

  lemma {:induction false} MergeLater(l: Endpoint, h: Endpoint, line: seq<Endpoint>, start: nat)
    requires start < |line| && CompareEndpoints(l, line[start]) >= 1
    ensures Merge([l, h], line[start..]) == [line[start]] + Merge([l, h], line[start + 1..])
  {
    assert line[start..][0] == line[start] && line[start..][1..] == line[start + 1..];
  }

  lemma {:induction false} MergeNow(l: Endpoint, h: Endpoint, line: seq<Endpoint>, start: nat)
    requires start <= |line| && (start < |line| ==> CompareEndpoints(l, line[start]) < 1)
    ensures Merge([l, h], line[start..]) == [l] + Merge([h], line[start..])
  {
    assert [l, h][1..] == [h];
    if start < |line| {
      assert line[start..][0] == line[start];
    } else {
      assert line[start..] == [];
    }
  }

  lemma {:induction false} DividedLater(e: Endpoint, a: seq<Endpoint>, l: Endpoint, b: seq<Endpoint>, h: Endpoint,
                                        c: seq<Endpoint>)
    ensures [e] + Divided(a, l, b, h, c) == Divided([e] + a, l, b, h, c)
  {
  }

  // ---------------------------------------------------------------- sweeping a line under a segment

  /** Low and high by turns, the first as told. */
  predicate Turns(line: seq<Endpoint>, low: bool) {
    forall k :: 0 <= k < |line| ==> line[k].side == (if (k % 2 == 0) == low then Low else High)
  }

  lemma {:induction false} TurnsTail(line: seq<Endpoint>, low: bool)
    requires Turns(line, low) && line != []
    ensures Turns(line[1..], !low)
  {
    forall k | 0 <= k < |line[1..]|
      ensures line[1..][k].side == (if (k % 2 == 0) == !low then Low else High)
    {
      assert line[1..][k] == line[k + 1];
    }
  }

  function After(line: seq<Endpoint>, low: bool): bool {
    (|line| % 2 == 0) == low
  }

  /** What stands outside the segment is kept. */
  lemma {:induction false} SweptOutside(line: seq<Endpoint>, low: bool, more: seq<Endpoint>)
    requires Turns(line, low)
    ensures Swept(line + more, if low then 0 else 1, 1) == line + Swept(more, if After(line, low) then 0 else 1, 1)
  {
    if line == [] {
      assert line + more == more;
    } else {
      TurnsTail(line, low);
      SweptOutside(line[1..], !low, more);
      assert (line + more)[0] == line[0] && (line + more)[1..] == line[1..] + more;
      assert [line[0]] + (line[1..] + Swept(more, if After(line, low) then 0 else 1, 1))
          == line + Swept(more, if After(line, low) then 0 else 1, 1);
    }
  }

  /** What stands inside it is dropped. */
  lemma {:induction false} SweptInside(line: seq<Endpoint>, low: bool, more: seq<Endpoint>)
    requires Turns(line, low)
    ensures Swept(line + more, if low then 1 else 2, 1) == Swept(more, if After(line, low) then 1 else 2, 1)
  {
    if line == [] {
      assert line + more == more;
    } else {
      TurnsTail(line, low);
      SweptInside(line[1..], !low, more);
      assert (line + more)[0] == line[0] && (line + more)[1..] == line[1..] + more;
    }
  }

  function Kept(e: Endpoint, i: nat): seq<Endpoint> {
    if i % 2 == 0 then [e] else []
  }

  /** Where the line is divided, its parts still go by turns. */
  ghost predicate InTurns(a: seq<Endpoint>, b: seq<Endpoint>, c: seq<Endpoint>) {
    && Turns(a, true) && Turns(b, |a| % 2 == 0) && Turns(c, (|a| + |b|) % 2 == 0)
  }

  lemma {:induction false} SweptLast(h: Endpoint, c: seq<Endpoint>, n: nat)
    requires h.side.High? && Turns(c, n % 2 == 0)
    ensures Swept([h] + c, if n % 2 == 0 then 1 else 2, 1) == Kept(h, n) + c
  {
    assert ([h] + c)[0] == h && ([h] + c)[1..] == c;
    SweptOutside(c, n % 2 == 0, []);
    assert c + [] == c;
  }

  lemma {:induction false} SweptFirst(l: Endpoint, more: seq<Endpoint>, n: nat)
    requires l.side.Low?
    ensures Swept([l] + more, if n % 2 == 0 then 0 else 1, 1)
         == Kept(l, n) + Swept(more, if n % 2 == 0 then 1 else 2, 1)
  {
    assert ([l] + more)[0] == l && ([l] + more)[1..] == more;
  }

  lemma {:induction false} SweptDivided(a: seq<Endpoint>, l: Endpoint, b: seq<Endpoint>, h: Endpoint, c: seq<Endpoint>)
    requires InTurns(a, b, c) && l.side.Low? && h.side.High?
    ensures Swept(Divided(a, l, b, h, c), 0, 1) == a + (Kept(l, |a|) + (Kept(h, |a| + |b|) + c))
  {
    var n, m := |a|, |a| + |b|;
    var last := [h] + c;
    assert b + [h] + c == b + last;
    SweptOutside(a, true, [l] + (b + last));
    SweptFirst(l, b + last, n);
    SweptInside(b, n % 2 == 0, last);
    assert After(b, n % 2 == 0) == (m % 2 == 0);
    SweptLast(h, c, m);
  }

  /** A line with a segment inserted at i and j: its ends are kept where they fall between segments. */
  function WithSegment(line: seq<Endpoint>, l: Endpoint, h: Endpoint, i: nat, j: nat): seq<Endpoint>
    requires i <= j <= |line|
  {
    line[..i] + (Kept(l, i) + (Kept(h, j) + line[j..]))
  }

  lemma {:induction false} CutInTurns(line: seq<Endpoint>, i: nat, j: nat)
    requires Paired(line) && i <= j <= |line|
    ensures InTurns(line[..i], line[i..j], line[j..])
  {
    forall k | 0 <= k < j - i
      ensures line[i..j][k] == line[i + k]
    {
    }
    forall k | 0 <= k < |line| - j
      ensures line[j..][k] == line[j + k]
    {
    }
  }

  lemma {:induction false} InsertedAt(line: seq<Endpoint>, l: Endpoint, h: Endpoint, i: nat, j: nat)
    requires Paired(line) && l.side.Low? && h.side.High? && i <= j <= |line|
    requires Merge([l, h], line) == Divided(line[..i], l, line[i..j], h, line[j..])
    ensures Inserted(line, [l, h]) == WithSegment(line, l, h, i, j)
  {
    StackedTwo(line, l, h);
    CutInTurns(line, i, j);
    SweptDivided(line[..i], l, line[i..j], h, line[j..]);
  }

  lemma {:induction false} InsertedForm(line: seq<Endpoint>, l: Endpoint, h: Endpoint)
    requires Paired(line) && l.side.Low? && h.side.High?
    ensures var i := Stop(l, line, 0); Inserted(line, [l, h]) == WithSegment(line, l, h, i, Stop(h, line, i))
  {
    var i := Stop(l, line, 0);
    var j := Stop(h, line, i);
    MergeTwo(l, h, line, 0);
    assert line[0..] == line && line[0..i] == line[..i];
    InsertedAt(line, l, h, i, j);
  }

  lemma {:induction false} StackedTwo(line: seq<Endpoint>, l: Endpoint, h: Endpoint)
    ensures Stacked([line, [l, h]]) == Merge([l, h], line)
  {
    assert [line, [l, h]][1..] == [[l, h]];
  }

  // ---------------------------------------------------------------- what an insertion keeps

  /** Does the segment at position k hold the key? */
  predicate PairHolds(line: seq<Endpoint>, k: nat, x: Key) {
    k % 2 == 0 && k + 1 < |line| && AboveLow(line[k], x) && BelowHigh(line[k + 1], x)
  }

  ghost predicate InPairs(line: seq<Endpoint>, x: Key) {
    exists k: nat {:trigger PairHolds(line, k, x)} :: PairHolds(line, k, x)
  }

  predicate RisesAt(line: seq<Endpoint>, a: nat, b: nat, x: Key) {
    a < b < |line| && a % 2 == 0 && b % 2 == 0 && AboveLow(line[b], x) ==> AboveLow(line[a], x)
  }

  /** A key above a low endpoint is above those before it. */
  ghost predicate LowsRise(line: seq<Endpoint>, x: Key) {
    forall a: nat, b: nat {:trigger RisesAt(line, a, b, x)} :: RisesAt(line, a, b, x)
  }

  /** Endpoint.compare tells which of two low endpoints admits the key if only one of them does. */
  predicate SettlesLow(l: Endpoint, e: Endpoint, x: Key) {
    if CompareEndpoints(l, e) < 1 then AboveLow(e, x) ==> AboveLow(l, x) else AboveLow(l, x) ==> AboveLow(e, x)
  }

  predicate SettlesHigh(h: Endpoint, e: Endpoint, x: Key) {
    if CompareEndpoints(h, e) < 1 then BelowHigh(h, x) ==> BelowHigh(e, x) else BelowHigh(e, x) ==> BelowHigh(h, x)
  }

  predicate SettlesAt(line: seq<Endpoint>, l: Endpoint, h: Endpoint, x: Key, k: nat) {
    k < |line| ==> if k % 2 == 0 then SettlesLow(l, line[k], x) else SettlesHigh(h, line[k], x)
  }

  ghost predicate Settles(line: seq<Endpoint>, l: Endpoint, h: Endpoint, x: Key) {
    forall k: nat {:trigger SettlesAt(line, l, h, x, k)} :: SettlesAt(line, l, h, x, k)
  }

  /** Where an element of the line with a segment inserted comes from: before the segment, one of its
      ends, or after it, where position j of the line has become p. */
  predicate PlacedAt(r: seq<Endpoint>, line: seq<Endpoint>, l: Endpoint, h: Endpoint, i: nat, j: nat, p: nat, k: nat) {
    k < |r| ==>
      if k < i then k < |line| && r[k] == line[k]
      else if k < p then r[k] == if k == i && i % 2 == 0 then l else h
      else 0 <= k - p + j < |line| && r[k] == line[k - p + j]
  }

  ghost predicate Placed(r: seq<Endpoint>, line: seq<Endpoint>, l: Endpoint, h: Endpoint, i: nat, j: nat, p: nat) {
    && i <= j <= |line| && p == i + (if i % 2 == 0 then 1 else 0) + (if j % 2 == 0 then 1 else 0)
    && |r| == p + |line| - j && p % 2 == j % 2
    && forall k: nat {:trigger PlacedAt(r, line, l, h, i, j, p, k)} :: PlacedAt(r, line, l, h, i, j, p, k)
  }

  lemma {:induction false} SegmentPlaced(line: seq<Endpoint>, l: Endpoint, h: Endpoint, i: nat, j: nat) returns (p: nat)
    requires i <= j <= |line|
    ensures Placed(WithSegment(line, l, h, i, j), line, l, h, i, j, p)
  {
    p := i + (if i % 2 == 0 then 1 else 0) + (if j % 2 == 0 then 1 else 0);
  }

  lemma {:induction false} PlacedPaired(r: seq<Endpoint>, line: seq<Endpoint>, l: Endpoint, h: Endpoint, i: nat, j: nat,
                                        p: nat)
    requires Placed(r, line, l, h, i, j, p) && Paired(line) && l.side.Low? && h.side.High?
    ensures Paired(r)
    ensures forall e :: e in r ==> e in line || e == l || e == h
  {
    forall k: nat | k < |r|
      ensures r[k].side == (if k % 2 == 0 then Low else High)
      ensures r[k] in line || r[k] == l || r[k] == h
    {
      assert PlacedAt(r, line, l, h, i, j, p, k);
      if k >= p {
        var m := k - p + j;
        assert line[m].side == (if m % 2 == 0 then Low else High) && m % 2 == k % 2;
      }
    }
  }

  predicate BeforeAt(line: seq<Endpoint>, l: Endpoint, x: Key, k: nat) {
    k < |line| && k % 2 == 0 && AboveLow(l, x) ==> AboveLow(line[k], x)
  }

  predicate InsideAt(line: seq<Endpoint>, h: Endpoint, x: Key, k: nat) {
    k < |line| && k % 2 == 1 && BelowHigh(line[k], x) ==> BelowHigh(h, x)
  }

  /** What an insertion has to go by: each end stops where the line's ends admit no less. */
  ghost predicate Fits(line: seq<Endpoint>, l: Endpoint, h: Endpoint, i: nat, j: nat, x: Key) {
    && Paired(line) && LowsRise(line, x) && i <= j <= |line|
    && (forall k: nat {:trigger BeforeAt(line, l, x, k)} :: k < i ==> BeforeAt(line, l, x, k))
    && (i < |line| && i % 2 == 0 && AboveLow(line[i], x) ==> AboveLow(l, x))
    && (forall k: nat {:trigger InsideAt(line, h, x, k)} :: i <= k < j ==> InsideAt(line, h, x, k))
    && (j < |line| && j % 2 == 1 && BelowHigh(h, x) ==> BelowHigh(line[j], x))
  }

  lemma {:induction false} StopsFit(line: seq<Endpoint>, l: Endpoint, h: Endpoint, x: Key)
    requires Paired(line) && LowsRise(line, x) && Settles(line, l, h, x)
    ensures var i := Stop(l, line, 0); Fits(line, l, h, i, Stop(h, line, i), x)
  {
    var i := Stop(l, line, 0);
    var j := Stop(h, line, i);
    forall k: nat | k < i
      ensures BeforeAt(line, l, x, k)
    {
      assert SettlesAt(line, l, h, x, k);
    }
    forall k: nat | i <= k < j
      ensures InsideAt(line, h, x, k)
    {
      assert SettlesAt(line, l, h, x, k);
    }
    assert SettlesAt(line, l, h, x, i) && SettlesAt(line, l, h, x, j);
  }

  /** The segment that spans the inserted one, or is it. */
  lemma {:induction false} Spans(r: seq<Endpoint>, line: seq<Endpoint>, l: Endpoint, h: Endpoint, i: nat, j: nat,
                                 p: nat, x: Key)
    requires Placed(r, line, l, h, i, j, p) && Fits(line, l, h, i, j, x)
    requires if i % 2 == 0 then AboveLow(l, x) else AboveLow(line[i - 1], x)
    requires if j % 2 == 0 then BelowHigh(h, x) else BelowHigh(line[j], x)
    ensures InPairs(r, x)
  {
    var low := if i % 2 == 0 then i else i - 1;
    assert PlacedAt(r, line, l, h, i, j, p, low) && PlacedAt(r, line, l, h, i, j, p, low + 1);
    assert PairHolds(r, low, x);
  }

  lemma {:induction false} LowBefore(line: seq<Endpoint>, l: Endpoint, h: Endpoint, i: nat, j: nat, x: Key, k: nat)
    requires Fits(line, l, h, i, j, x) && k % 2 == 0 && i <= k + 1 && k < |line| && AboveLow(line[k], x)
    ensures if i % 2 == 0 then AboveLow(l, x) else AboveLow(line[i - 1], x)
  {
    var low := if i % 2 == 0 then i else i - 1;
    assert RisesAt(line, low, k, x);
  }

  /** A segment that held the key is still there, or one that reaches as far. */
  lemma {:induction false} KeyStays(r: seq<Endpoint>, line: seq<Endpoint>, l: Endpoint, h: Endpoint, i: nat, j: nat,
                                    p: nat, x: Key, k: nat)
    requires Placed(r, line, l, h, i, j, p) && Fits(line, l, h, i, j, x) && PairHolds(line, k, x)
    ensures InPairs(r, x)
  {
    if k + 1 < i {
      StaysBefore(r, line, l, h, i, j, p, x, k);
    } else if k >= j {
      StaysAfter(r, line, l, h, i, j, p, x, k);
    } else {
      LowBefore(line, l, h, i, j, x, k);
      assert k + 1 < j ==> InsideAt(line, h, x, k + 1);
      Spans(r, line, l, h, i, j, p, x);
    }
  }

  lemma {:induction false} StaysBefore(r: seq<Endpoint>, line: seq<Endpoint>, l: Endpoint, h: Endpoint, i: nat, j: nat,
                                       p: nat, x: Key, k: nat)
    requires Placed(r, line, l, h, i, j, p) && PairHolds(line, k, x) && k + 1 < i
    ensures InPairs(r, x)
  {
    assert PlacedAt(r, line, l, h, i, j, p, k) && PlacedAt(r, line, l, h, i, j, p, k + 1);
    assert PairHolds(r, k, x);
  }

  lemma {:induction false} StaysAfter(r: seq<Endpoint>, line: seq<Endpoint>, l: Endpoint, h: Endpoint, i: nat, j: nat,
                                      p: nat, x: Key, k: nat)
    requires Placed(r, line, l, h, i, j, p) && PairHolds(line, k, x) && k >= j
    ensures InPairs(r, x)
  {
    var m := k - j + p;
    assert PlacedAt(r, line, l, h, i, j, p, m) && PlacedAt(r, line, l, h, i, j, p, m + 1);
    assert PairHolds(r, m, x);
  }

  lemma {:induction false} KeyComes(r: seq<Endpoint>, line: seq<Endpoint>, l: Endpoint, h: Endpoint, i: nat, j: nat,
                                    p: nat, x: Key)
    requires Placed(r, line, l, h, i, j, p) && Fits(line, l, h, i, j, x) && AboveLow(l, x) && BelowHigh(h, x)
    ensures InPairs(r, x)
  {
    if i % 2 == 1 {
      assert BeforeAt(line, l, x, i - 1);
    }
    Spans(r, line, l, h, i, j, p, x);
  }

  lemma {:induction false} RiseAfter(r: seq<Endpoint>, line: seq<Endpoint>, l: Endpoint, h: Endpoint, i: nat, j: nat,
                                     p: nat, x: Key, a: nat, b: nat)
    requires Placed(r, line, l, h, i, j, p) && Fits(line, l, h, i, j, x) && a < b && p <= b < |r|
    requires a % 2 == 0 && b % 2 == 0 && AboveLow(r[b], x)
    ensures AboveLow(r[a], x)
  {
    var m := b - p + j;
    assert PlacedAt(r, line, l, h, i, j, p, a) && PlacedAt(r, line, l, h, i, j, p, b);
    assert m % 2 == 0 && r[b] == line[m];
    if a < i {
      assert RisesAt(line, a, m, x);
    } else if a < p {
      assert a == i;
      LowBefore(line, l, h, i, j, x, m);
    } else {
      assert RisesAt(line, a - p + j, m, x);
    }
  }

  lemma {:induction false} RiseBefore(r: seq<Endpoint>, line: seq<Endpoint>, l: Endpoint, h: Endpoint, i: nat, j: nat,
                                      p: nat, x: Key, a: nat, b: nat)
    requires Placed(r, line, l, h, i, j, p) && Fits(line, l, h, i, j, x) && a < b < p && b < |r|
    requires a % 2 == 0 && b % 2 == 0 && AboveLow(r[b], x)
    ensures AboveLow(r[a], x)
  {
    assert PlacedAt(r, line, l, h, i, j, p, a) && PlacedAt(r, line, l, h, i, j, p, b);
    if b < i {
      assert RisesAt(line, a, b, x);
    } else {
      assert b == i && BeforeAt(line, l, x, a);
    }
  }

  lemma {:induction false} LowsStillRise(r: seq<Endpoint>, line: seq<Endpoint>, l: Endpoint, h: Endpoint, i: nat,
                                         j: nat, p: nat, x: Key)
    requires Placed(r, line, l, h, i, j, p) && Fits(line, l, h, i, j, x)
    ensures LowsRise(r, x)
  {
    forall a: nat, b: nat
      ensures RisesAt(r, a, b, x)
    {
      if a < b < |r| && a % 2 == 0 && b % 2 == 0 && AboveLow(r[b], x) {
        if b >= p {
          RiseAfter(r, line, l, h, i, j, p, x, a, b);
        } else {
          RiseBefore(r, line, l, h, i, j, p, x, a, b);
        }
      }
    }
  }

  /** Inserting a segment keeps the keys a line holds and adds those of the segment, if comparing
      settles which of its ends and the line's admits the key. */
  lemma {:induction false} InsertedKeeps(line: seq<Endpoint>, l: Endpoint, h: Endpoint, x: Key)
    requires Paired(line) && l.side.Low? && h.side.High? && LowsRise(line, x) && Settles(line, l, h, x)
    ensures Paired(Inserted(line, [l, h])) && LowsRise(Inserted(line, [l, h]), x)
    ensures InPairs(line, x) || (AboveLow(l, x) && BelowHigh(h, x)) ==> InPairs(Inserted(line, [l, h]), x)
    ensures forall e :: e in Inserted(line, [l, h]) ==> e in line || e == l || e == h
  {
    var i := Stop(l, line, 0);
    InsertedForm(line, l, h);
    StopsFit(line, l, h, x);
    PlacedKeeps(line, l, h, i, Stop(h, line, i), x);
  }

  lemma {:induction false} PlacedKeeps(line: seq<Endpoint>, l: Endpoint, h: Endpoint, i: nat, j: nat, x: Key)
    requires Fits(line, l, h, i, j, x) && l.side.Low? && h.side.High?
    ensures var r := WithSegment(line, l, h, i, j);
            && Paired(r) && LowsRise(r, x) && (forall e :: e in r ==> e in line || e == l || e == h)
            && (InPairs(line, x) || (AboveLow(l, x) && BelowHigh(h, x)) ==> InPairs(r, x))
  {
    var r := WithSegment(line, l, h, i, j);
    var p := SegmentPlaced(line, l, h, i, j);
    PlacedPaired(r, line, l, h, i, j, p);
    LowsStillRise(r, line, l, h, i, j, p, x);
    if InPairs(line, x) {
      var k: nat :| PairHolds(line, k, x);
      KeyStays(r, line, l, h, i, j, p, x, k);
    }
    if AboveLow(l, x) && BelowHigh(h, x) {
      KeyComes(r, line, l, h, i, j, p, x);
    }
  }
}
