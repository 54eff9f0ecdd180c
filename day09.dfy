/** Smoke basin: low points of a height map, their risk, and basins found by a recursive
    flood fill that marks a grid of visited flags in place. */
module Day09 {
  import opened Common

  /** `sys.maxsize`, the value that stands in for a missing neighbour. */
  const MaxSize: int := 0x7fff_ffff_ffff_ffff

  /** A non-empty height map whose rows are at least as long as the first: the source takes
      `len(data[0])` as the width and never reads past it, so longer rows are accepted and
      their extra heights ignored. */
  ghost predicate Grid(data: seq<seq<int>>) {
    |data| > 0 && forall i :: 0 <= i < |data| ==> |data[i]| >= |data[0]|
  }

  predicate InBounds(data: seq<seq<int>>, c: (int, int))
    requires |data| > 0
  {
    0 <= c.0 < |data| && 0 <= c.1 < |data[0]|
  }

  /** The value of a neighbour, or `sys.maxsize` when it is off the map. */
  function Around(data: seq<seq<int>>, c: (int, int)): int
    requires Grid(data)
  {
    if InBounds(data, c) then data[c.0][c.1] else MaxSize
  }

  /** The test of `find_low_points`: lower than left, right, up and down. */
  predicate IsLow(data: seq<seq<int>>, i: int, j: int)
    requires Grid(data) && InBounds(data, (i, j))
  {
    var cur := data[i][j];
    cur < Around(data, (i, j - 1)) && cur < Around(data, (i, j + 1))
    && cur < Around(data, (i - 1, j)) && cur < Around(data, (i + 1, j))
  }

  predicate Adjacent(a: (int, int), b: (int, int)) {
    (a.0 == b.0 && (a.1 == b.1 + 1 || a.1 + 1 == b.1))
    || (a.1 == b.1 && (a.0 == b.0 + 1 || a.0 + 1 == b.0))
  }

  ghost predicate BelowMaxSize(data: seq<seq<int>>) {
    forall i, j :: 0 <= i < |data| && 0 <= j < |data[i]| ==> data[i][j] < MaxSize
  }

  /** With heights below `sys.maxsize`, a missing neighbour never blocks a low point: a cell
      is low iff it is strictly lower than each of its neighbours on the map. */
  lemma LowMeansBelowNeighbours(data: seq<seq<int>>, i: int, j: int)
    requires Grid(data) && BelowMaxSize(data) && InBounds(data, (i, j))
    ensures IsLow(data, i, j) <==>
      forall n :: InBounds(data, n) && Adjacent((i, j), n) ==> data[i][j] < data[n.0][n.1]
  {
    if IsLow(data, i, j) {
      forall n | InBounds(data, n) && Adjacent((i, j), n)
        ensures data[i][j] < data[n.0][n.1]
      {
        assert n == (i, j - 1) || n == (i, j + 1) || n == (i - 1, j) || n == (i + 1, j);
      }
    } else {
      var cur := data[i][j];
      assert cur < MaxSize;
      if cur >= Around(data, (i, j - 1)) {
        assert InBounds(data, (i, j - 1)) && Adjacent((i, j), (i, j - 1));
      } else if cur >= Around(data, (i, j + 1)) {
        assert InBounds(data, (i, j + 1)) && Adjacent((i, j), (i, j + 1));
      } else if cur >= Around(data, (i - 1, j)) {
        assert InBounds(data, (i - 1, j)) && Adjacent((i, j), (i - 1, j));
      } else {
        assert InBounds(data, (i + 1, j)) && Adjacent((i, j), (i + 1, j));
      }
    }
  }

  /** The low points among the first `j` cells of row `i`, left to right. */
  function LowInRow(data: seq<seq<int>>, i: int, j: nat): seq<(int, int)>
    requires Grid(data) && 0 <= i < |data| && j <= |data[0]|
  {
    if j == 0 then []
    else LowInRow(data, i, j - 1) + (if IsLow(data, i, j - 1) then [(i, j - 1)] else [])
  }

  /** The low points of the first `i` rows, in row-major order. */
  function LowPoints(data: seq<seq<int>>, i: nat): seq<(int, int)>
    requires Grid(data) && i <= |data|
  {
    if i == 0 then [] else LowPoints(data, i - 1) + LowInRow(data, i - 1, |data[0]|)
  }

  lemma {:induction false} LowInRowMembers(data: seq<seq<int>>, i: int, j: nat, c: (int, int))
    requires Grid(data) && 0 <= i < |data| && j <= |data[0]|
    ensures c in LowInRow(data, i, j) <==> c.0 == i && 0 <= c.1 < j && IsLow(data, i, c.1)
  {
    if j > 0 {
      var before := LowInRow(data, i, j - 1);
      var last := if IsLow(data, i, j - 1) then [(i, j - 1)] else [];
      assert LowInRow(data, i, j) == before + last;
      assert c in before + last <==> c in before || c in last;
      LowInRowMembers(data, i, j - 1, c);
    }
  }

  lemma {:induction false} LowPointsMembers(data: seq<seq<int>>, i: nat, c: (int, int))
    requires Grid(data) && i <= |data|
    ensures c in LowPoints(data, i) <==>
      0 <= c.0 < i && 0 <= c.1 < |data[0]| && IsLow(data, c.0, c.1)
  {
    if i > 0 {
      var m := i - 1;
      var before, row := LowPoints(data, m), LowInRow(data, m, |data[0]|);
      assert LowPoints(data, i) == before + row;
      assert c in before + row <==> c in before || c in row;
      LowPointsMembers(data, m, c);
      LowInRowMembers(data, m, |data[0]|, c);
    }
  }

  function At(data: seq<seq<int>>, c: (int, int)): int
    requires Grid(data) && InBounds(data, c)
  {
    assert |data[c.0]| >= |data[0]|;
    data[c.0][c.1]
  }

  /** The heights `find_low_points` collects in `low_point_vals` along row `i`. */
  function LowValsInRow(data: seq<seq<int>>, i: int, j: nat): seq<int>
    requires Grid(data) && 0 <= i < |data| && j <= |data[0]|
  {
    if j == 0 then []
    else LowValsInRow(data, i, j - 1) + (if IsLow(data, i, j - 1) then [data[i][j - 1]] else [])
  }

  function LowVals(data: seq<seq<int>>, i: nat): seq<int>
    requires Grid(data) && i <= |data|
  {
    if i == 0 then [] else LowVals(data, i - 1) + LowValsInRow(data, i - 1, |data[0]|)
  }

  ghost predicate Parallel(data: seq<seq<int>>, points: seq<(int, int)>, vals: seq<int>)
    requires Grid(data)
  {
    && |points| == |vals|
    && forall k :: 0 <= k < |points| ==> InBounds(data, points[k]) && vals[k] == At(data, points[k])
  }

  lemma ParallelAppend(data: seq<seq<int>>, p0: seq<(int, int)>, v0: seq<int>,
                       p1: seq<(int, int)>, v1: seq<int>)
    requires Grid(data) && Parallel(data, p0, v0) && Parallel(data, p1, v1)
    ensures Parallel(data, p0 + p1, v0 + v1)
  {
    forall k | 0 <= k < |p0 + p1|
      ensures InBounds(data, (p0 + p1)[k]) && (v0 + v1)[k] == At(data, (p0 + p1)[k])
    {
      if k >= |p0| {
        assert (p0 + p1)[k] == p1[k - |p0|] && (v0 + v1)[k] == v1[k - |p0|];
      }
    }
  }

  lemma {:induction false} LowInRowParallel(data: seq<seq<int>>, i: int, j: nat)
    requires Grid(data) && 0 <= i < |data| && j <= |data[0]|
    ensures Parallel(data, LowInRow(data, i, j), LowValsInRow(data, i, j))
  {
    if j > 0 {
      LowInRowParallel(data, i, j - 1);
      if IsLow(data, i, j - 1) {
        ParallelAppend(data, LowInRow(data, i, j - 1), LowValsInRow(data, i, j - 1),
                       [(i, j - 1)], [data[i][j - 1]]);
      } else {
        assert LowInRow(data, i, j) == LowInRow(data, i, j - 1);
      }
    }
  }

  /** `low_points` and `low_point_vals` are parallel lists: each value is the height at the
      point beside it. */
  lemma {:induction false} LowPointsParallel(data: seq<seq<int>>, i: nat)
    requires Grid(data) && i <= |data|
    ensures Parallel(data, LowPoints(data, i), LowVals(data, i))
  {
    if i > 0 {
      LowPointsParallel(data, i - 1);
      LowInRowParallel(data, i - 1, |data[0]|);
      ParallelAppend(data, LowPoints(data, i - 1), LowVals(data, i - 1),
                     LowInRow(data, i - 1, |data[0]|), LowValsInRow(data, i - 1, |data[0]|));
    }
  }

  /** `find_low_points`: the low points in row-major order and, in parallel, their heights. */
  method FindLowPoints(data: seq<seq<int>>) returns (points: seq<(int, int)>, vals: seq<int>)
    requires Grid(data)
    ensures points == LowPoints(data, |data|)
    ensures vals == LowVals(data, |data|)
  {
    var rows := |data|;
    points, vals := [], [];
    for i := 0 to rows
      invariant points == LowPoints(data, i)
      invariant vals == LowVals(data, i)
    {
      var rowPoints, rowVals := LowPointsOfRow(data, i);
      points, vals := points + rowPoints, vals + rowVals;
    }
  }

  method LowPointsOfRow(data: seq<seq<int>>, i: nat) returns (points: seq<(int, int)>, vals: seq<int>)
    requires Grid(data) && i < |data|
    ensures points == LowInRow(data, i, |data[0]|)
    ensures vals == LowValsInRow(data, i, |data[0]|)
  {
    var cols := |data[0]|;
    points, vals := [], [];
    for j := 0 to cols
      invariant points == LowInRow(data, i, j)
      invariant vals == LowValsInRow(data, i, j)
    {
      var cur := data[i][j];
      var left := if j - 1 >= 0 then data[i][j - 1] else MaxSize;
      var right := if j + 1 < cols then data[i][j + 1] else MaxSize;
      var up := if i - 1 >= 0 then data[i - 1][j] else MaxSize;
      var down := if i + 1 < |data| then data[i + 1][j] else MaxSize;
      if cur < left && cur < right && cur < up && cur < down {
        points, vals := points + [(i, j)], vals + [cur];
      }
    }
  }

  /** part_a: one more than each low point's height, summed. */
  method PartA(data: seq<seq<int>>) returns (risk: int)
    requires Grid(data)
    ensures risk == |LowVals(data, |data|)| + Sum(LowVals(data, |data|))
    ensures risk == |LowPoints(data, |data|)| + Sum(LowVals(data, |data|))
  {
    var points, vals := FindLowPoints(data);
    LowPointsParallel(data, |data|);
    risk := |vals| + Sum(vals);
  }

  /** A row longer than the first is read only up to the first row's width: on
      `[[1], [2, 0]]` the one low point is `(0, 0)` and the risk is 2. */
  lemma LongerRowRisk()
    ensures Grid([[1], [2, 0]])
    ensures LowPoints([[1], [2, 0]], 2) == [(0, 0)] && LowVals([[1], [2, 0]], 2) == [1]
    ensures |LowVals([[1], [2, 0]], 2)| + Sum(LowVals([[1], [2, 0]], 2)) == 2
  {
    var data := [[1], [2, 0]];
    assert IsLow(data, 0, 0) && !IsLow(data, 1, 0);
    assert LowInRow(data, 0, 1) == [(0, 0)] && LowInRow(data, 1, 1) == [];
    assert LowValsInRow(data, 0, 1) == [1] && LowValsInRow(data, 1, 1) == [];
  }

  // ---- the flood fill of part_b ----

  ghost function Cells(rows: int, cols: int): set<(int, int)> {
    set a, b | 0 <= a < rows && 0 <= b < cols :: (a, b)
  }

  /** The cells whose `visited` flag is set. */
  ghost function Marked(visited: array2<bool>): set<(int, int)>
    reads visited
  {
    set a, b | 0 <= a < visited.Length0 && 0 <= b < visited.Length1 && visited[a, b] :: (a, b)
  }

  ghost function Elems(s: seq<(int, int)>): set<(int, int)> {
    set x | x in s
  }

  /** The guard of `ff`: off the map, visited, a 9, or not above `prev`. */
  ghost predicate Blocked(data: seq<seq<int>>, m: set<(int, int)>, prev: int, c: (int, int))
    requires Grid(data)
  {
    !InBounds(data, c) || c in m || At(data, c) == 9 || At(data, c) <= prev
  }

  /** Each of the four cells `ff` recurses on from `c` is blocked. */
  ghost predicate SettledAround(data: seq<seq<int>>, m: set<(int, int)>, prev: int, c: (int, int))
    requires Grid(data)
  {
    && Blocked(data, m, prev, (c.0 + 1, c.1)) && Blocked(data, m, prev, (c.0 - 1, c.1))
    && Blocked(data, m, prev, (c.0, c.1 + 1)) && Blocked(data, m, prev, (c.0, c.1 - 1))
  }

  /** Cells that were candidates when they were added: on the map, unvisited, not a 9 and
      above `prev`. */
  ghost predicate Fresh(data: seq<seq<int>>, prev: int, m: set<(int, int)>, s: seq<(int, int)>)
    requires Grid(data)
  {
    forall k :: 0 <= k < |s| ==> !Blocked(data, m, prev, s[k])
  }

  ghost predicate Distinct(s: seq<(int, int)>) {
    forall k, l :: 0 <= k < l < |s| ==> s[k] != s[l]
  }

  ghost predicate Closed(data: seq<seq<int>>, prev: int, m: set<(int, int)>, s: seq<(int, int)>)
    requires Grid(data)
  {
    forall k :: 0 <= k < |s| ==> SettledAround(data, m, prev, s[k])
  }

  /** Every cell after the first is a neighbour of a cell added before it. */
  ghost predicate Chained(s: seq<(int, int)>) {
    forall k :: 0 < k < |s| ==> LinkedBack(s, k)
  }

  ghost predicate LinkedBack(s: seq<(int, int)>, k: int)
    requires 0 <= k < |s|
  {
    exists l :: 0 <= l < k && Adjacent(s[l], s[k])
  }

  lemma {:induction false} SubsetNotLarger(a: set<(int, int)>, b: set<(int, int)>)
    requires a <= b
    ensures |a| <= |b|
  {
    if a != {} {
      var x :| x in a;
      SubsetNotLarger(a - {x}, b - {x});
    }
  }

  lemma FewerUnmarked(cells: set<(int, int)>, m0: set<(int, int)>, m1: set<(int, int)>, c: (int, int))
    requires c in cells && c !in m0 && m0 + {c} <= m1
    ensures |cells - m1| < |cells - m0|
  {
    SubsetNotLarger(cells - m1, cells - m0 - {c});
  }

  lemma BlockedGrows(data: seq<seq<int>>, m: set<(int, int)>, m': set<(int, int)>, prev: int,
                     c: (int, int))
    requires Grid(data) && m <= m' && Blocked(data, m, prev, c)
    ensures Blocked(data, m', prev, c)
  {
  }

  /** What one call of `ff` at `c` leaves behind, with `m0` and `m1` the visited cells before
      and after it and `added` what it appended to the basin: the new marks are exactly the
      added cells, each was a candidate when added, none twice, each is a neighbour of an
      earlier one, and all four neighbours of each, and `c` itself, end up blocked. */
  ghost predicate Filled(data: seq<seq<int>>, prev: int, m0: set<(int, int)>, m1: set<(int, int)>,
                         added: seq<(int, int)>, c: (int, int))
    requires Grid(data)
  {
    && m1 == m0 + Elems(added)
    && Fresh(data, prev, m0, added) && Distinct(added) && Closed(data, prev, m1, added)
    && (added == [] <==> Blocked(data, m0, prev, c))
    && (added != [] ==> added[0] == c && Chained(added))
    && Blocked(data, m1, prev, c)
  }

  /** The cells a call of `ff` at `h` has added so far: `h` first, then what its finished
      recursive calls added. */
  ghost predicate Partial(data: seq<seq<int>>, prev: int, m0: set<(int, int)>, mAcc: set<(int, int)>,
                          acc: seq<(int, int)>, h: (int, int))
    requires Grid(data)
  {
    && acc != [] && acc[0] == h
    && mAcc == m0 + Elems(acc) && Fresh(data, prev, m0, acc) && Distinct(acc)
    && Chained(acc) && Closed(data, prev, mAcc, acc[1..])
  }

  lemma PartialStart(data: seq<seq<int>>, prev: int, m0: set<(int, int)>, h: (int, int))
    requires Grid(data) && !Blocked(data, m0, prev, h)
    ensures Partial(data, prev, m0, m0 + {h}, [h], h)
  {
    assert Elems([h]) == {h};
  }

  lemma FreshAppend(data: seq<seq<int>>, prev: int, m0: set<(int, int)>, mAcc: set<(int, int)>,
                    acc: seq<(int, int)>, a: seq<(int, int)>)
    requires Grid(data) && m0 <= mAcc && Fresh(data, prev, m0, acc) && Fresh(data, prev, mAcc, a)
    ensures Fresh(data, prev, m0, acc + a)
  {
    var s := acc + a;
    forall k | 0 <= k < |s| ensures !Blocked(data, m0, prev, s[k]) {
      if k >= |acc| {
        assert s[k] == a[k - |acc|];
      }
    }
  }

  lemma DistinctAppend(acc: seq<(int, int)>, a: seq<(int, int)>)
    requires Distinct(acc) && Distinct(a) && forall k :: 0 <= k < |a| ==> a[k] !in acc
    ensures Distinct(acc + a)
  {
    var s := acc + a;
    forall k, l | 0 <= k < l < |s| ensures s[k] != s[l] {
      if l >= |acc| {
        assert s[l] == a[l - |acc|];
        if k >= |acc| {
          assert s[k] == a[k - |acc|];
        }
      }
    }
  }

  lemma ChainedAppend(acc: seq<(int, int)>, a: seq<(int, int)>)
    requires acc != [] && Chained(acc) && Chained(a)
    requires a != [] ==> Adjacent(acc[0], a[0])
    ensures Chained(acc + a)
  {
    var s := acc + a;
    forall k | 0 < k < |s| ensures LinkedBack(s, k) {
      if k == |acc| {
        assert s[0] == acc[0] && s[k] == a[0];
        assert 0 <= 0 < k && Adjacent(s[0], s[k]);
      } else if k > |acc| {
        assert LinkedBack(a, k - |acc|);
        var l :| 0 <= l < k - |acc| && Adjacent(a[l], a[k - |acc|]);
        assert s[l + |acc|] == a[l] && s[k] == a[k - |acc|];
        assert 0 <= l + |acc| < k && Adjacent(s[l + |acc|], s[k]);
      } else {
        assert LinkedBack(acc, k);
        var l :| 0 <= l < k && Adjacent(acc[l], acc[k]);
        assert s[l] == acc[l] && s[k] == acc[k];
        assert 0 <= l < k && Adjacent(s[l], s[k]);
      }
    }
  }

  lemma ClosedAppend(data: seq<seq<int>>, prev: int, mAcc: set<(int, int)>, mNext: set<(int, int)>,
                     acc: seq<(int, int)>, a: seq<(int, int)>)
    requires Grid(data) && acc != [] && mAcc <= mNext
    requires Closed(data, prev, mAcc, acc[1..]) && Closed(data, prev, mNext, a)
    ensures Closed(data, prev, mNext, (acc + a)[1..])
  {
    assert (acc + a)[1..] == acc[1..] + a;
    forall k | 0 <= k < |acc[1..] + a|
      ensures SettledAround(data, mNext, prev, (acc[1..] + a)[k])
    {
      if k >= |acc| - 1 {
        assert (acc[1..] + a)[k] == a[k - (|acc| - 1)];
      } else {
        assert (acc[1..] + a)[k] == acc[1..][k];
        assert SettledAround(data, mAcc, prev, acc[1..][k]);
      }
    }
  }

  /** Appending what a recursive call of `ff` at the neighbour `n` of `h` added. */
  lemma PartialStep(data: seq<seq<int>>, prev: int, m0: set<(int, int)>, mAcc: set<(int, int)>,
                    acc: seq<(int, int)>, h: (int, int), mNext: set<(int, int)>,
                    a: seq<(int, int)>, n: (int, int))
    requires Grid(data) && Adjacent(h, n)
    requires Partial(data, prev, m0, mAcc, acc, h) && Filled(data, prev, mAcc, mNext, a, n)
    ensures Partial(data, prev, m0, mNext, acc + a, h) && mAcc <= mNext
  {
    assert Elems(acc + a) == Elems(acc) + Elems(a);
    FreshAppend(data, prev, m0, mAcc, acc, a);
    forall k | 0 <= k < |a| ensures a[k] !in acc {
      assert !Blocked(data, mAcc, prev, a[k]);
    }
    DistinctAppend(acc, a);
    ChainedAppend(acc, a);
    ClosedAppend(data, prev, mAcc, mNext, acc, a);
  }

  lemma PartialDone(data: seq<seq<int>>, prev: int, m0: set<(int, int)>, m: set<(int, int)>,
                    acc: seq<(int, int)>, h: (int, int))
    requires Grid(data) && Partial(data, prev, m0, m, acc, h) && SettledAround(data, m, prev, h)
    requires !Blocked(data, m0, prev, h)
    ensures Filled(data, prev, m0, m, acc, h)
  {
    assert acc == [h] + acc[1..];
    forall k | 0 <= k < |acc| ensures SettledAround(data, m, prev, acc[k]) {
      if k > 0 {
        assert acc[k] == acc[1..][k - 1];
      }
    }
    assert h in Elems(acc);
  }

  /** `ff`: the recursive flood fill. It appends to `basin` the cells it reaches, marking each
      in `visited` on the way, and passes the same `prev` to every recursive call. */
  method Ff(i: int, j: int, data: seq<seq<int>>, visited: array2<bool>, prev: int,
            basin: seq<(int, int)>) returns (r: seq<(int, int)>, ghost added: seq<(int, int)>)
    requires Grid(data) && visited.Length0 == |data| && visited.Length1 == |data[0]|
    modifies visited
    decreases |Cells(visited.Length0, visited.Length1) - Marked(visited)|, 1
    ensures r == basin + added
    ensures Filled(data, prev, old(Marked(visited)), Marked(visited), added, (i, j))
  {
    ghost var m0 := Marked(visited);
    if i < 0 || i >= |data| || j < 0 || j >= |data[0]| || visited[i, j] || data[i][j] == 9
       || data[i][j] <= prev {
      assert Blocked(data, m0, prev, (i, j)) by {
        if InBounds(data, (i, j)) && visited[i, j] {
          assert (i, j) in m0;
        }
      }
      assert Elems([]) == {};
      return basin, [];
    }
    r, added := Spread(i, j, data, visited, prev, basin);
  }

  /** The cells `ff` recurses on, in its order: down, up, right, left. */
  function Neighbour(c: (int, int), dir: int): (int, int) {
    if dir == 0 then (c.0 + 1, c.1)
    else if dir == 1 then (c.0 - 1, c.1)
    else if dir == 2 then (c.0, c.1 + 1)
    else (c.0, c.1 - 1)
  }

  /** The body of `ff` past its guard: append and mark the cell, then recurse on its four
      neighbours. */
  method Spread(i: int, j: int, data: seq<seq<int>>, visited: array2<bool>, prev: int,
                basin: seq<(int, int)>) returns (r: seq<(int, int)>, ghost added: seq<(int, int)>)
    requires Grid(data) && visited.Length0 == |data| && visited.Length1 == |data[0]|
    requires !Blocked(data, Marked(visited), prev, (i, j))
    modifies visited
    decreases |Cells(visited.Length0, visited.Length1) - Marked(visited)|, 0
    ensures r == basin + added
    ensures Filled(data, prev, old(Marked(visited)), Marked(visited), added, (i, j))
  {
    ghost var m0 := Marked(visited);
    Mark(i, j, visited);
    PartialStart(data, prev, m0, (i, j));
    assert (i, j) in Cells(visited.Length0, visited.Length1);
    FewerUnmarked(Cells(visited.Length0, visited.Length1), m0, Marked(visited), (i, j));
    ghost var rest: seq<(int, int)>;
    r, rest := Recurse(i, j, 0, data, visited, prev, basin + [(i, j)], m0, [(i, j)]);
    added := [(i, j)] + rest;
    Associative(basin, [(i, j)], rest);
  }

  /** The recursive calls of `ff` on the neighbours `dir`, `dir + 1`, ... of `(i, j)`, after
      those before `dir` are done. */
  method Recurse(i: int, j: int, dir: nat, data: seq<seq<int>>, visited: array2<bool>,
                 prev: int, basin: seq<(int, int)>, ghost m0: set<(int, int)>,
                 ghost acc: seq<(int, int)>)
    returns (r: seq<(int, int)>, ghost added: seq<(int, int)>)
    requires Grid(data) && visited.Length0 == |data| && visited.Length1 == |data[0]|
    requires dir < 4 && !Blocked(data, m0, prev, (i, j))
    requires Partial(data, prev, m0, Marked(visited), acc, (i, j))
    requires BlockedBefore(data, Marked(visited), prev, (i, j), dir)
    modifies visited
    decreases |Cells(visited.Length0, visited.Length1) - Marked(visited)|, 7 - dir
    ensures r == basin + added
    ensures Filled(data, prev, m0, Marked(visited), acc + added, (i, j))
  {
    ghost var before := Marked(visited);
    var n := Neighbour((i, j), dir);
    ghost var a: seq<(int, int)>;
    r, a := Visit(n.0, n.1, data, visited, prev, basin, m0, acc, (i, j));
    BlockedBeforeStep(data, before, Marked(visited), prev, (i, j), dir);
    if dir < 3 {
      SubsetNotLarger(Cells(visited.Length0, visited.Length1) - Marked(visited),
                      Cells(visited.Length0, visited.Length1) - before);
      ghost var rest: seq<(int, int)>;
      r, rest := Recurse(i, j, dir + 1, data, visited, prev, r, m0, acc + a);
      added := a + rest;
      Associative(basin, a, rest);
      Associative(acc, a, rest);
    } else {
      BlockedAllSettled(data, Marked(visited), prev, (i, j));
      added := a;
      PartialDone(data, prev, m0, Marked(visited), acc + added, (i, j));
    }
  }

  /** The neighbours before `dir` are blocked under the marks `m`. */
  ghost predicate BlockedBefore(data: seq<seq<int>>, m: set<(int, int)>, prev: int, c: (int, int), dir: nat)
    requires Grid(data)
  {
    forall d :: 0 <= d < dir ==> Blocked(data, m, prev, Neighbour(c, d))
  }

  /** Marks only grow, so the neighbours blocked before stay blocked. */
  lemma BlockedBeforeStep(data: seq<seq<int>>, m: set<(int, int)>, m': set<(int, int)>, prev: int,
                          c: (int, int), dir: nat)
    requires Grid(data) && m <= m' && BlockedBefore(data, m, prev, c, dir)
    requires Blocked(data, m', prev, Neighbour(c, dir))
    ensures BlockedBefore(data, m', prev, c, dir + 1)
  {
    forall d | 0 <= d <= dir ensures Blocked(data, m', prev, Neighbour(c, d)) {
      if d < dir {
        BlockedGrows(data, m, m', prev, Neighbour(c, d));
      }
    }
  }

  /** All four neighbours blocked: the cell is settled. */
  lemma BlockedAllSettled(data: seq<seq<int>>, m: set<(int, int)>, prev: int, c: (int, int))
    requires Grid(data) && BlockedBefore(data, m, prev, c, 4)
    ensures SettledAround(data, m, prev, c)
  {
    assert Neighbour(c, 0) == (c.0 + 1, c.1) && Neighbour(c, 1) == (c.0 - 1, c.1);
    assert Neighbour(c, 2) == (c.0, c.1 + 1) && Neighbour(c, 3) == (c.0, c.1 - 1);
  }

  lemma Associative(a: seq<(int, int)>, b: seq<(int, int)>, c: seq<(int, int)>)
    ensures a + b + c == a + (b + c)
  {
  }

  /** `visited[i][j] = True`. */
  method Mark(i: int, j: int, visited: array2<bool>)
    requires 0 <= i < visited.Length0 && 0 <= j < visited.Length1
    modifies visited
    ensures Marked(visited) == old(Marked(visited)) + {(i, j)}
  {
    ghost var m0 := Marked(visited);
    visited[i, j] := true;
    forall x | x in Marked(visited) ensures x in m0 + {(i, j)} {
      if x != (i, j) {
        assert old(visited[x.0, x.1]);
      }
    }
    forall x | x in m0 + {(i, j)} ensures x in Marked(visited) {
      if x != (i, j) {
        assert visited[x.0, x.1];
      }
    }
  }

  /** One recursive call of `ff` at the neighbour `n` of the cell `h` being filled. */
  method Visit(ni: int, nj: int, data: seq<seq<int>>, visited: array2<bool>, prev: int,
               basin: seq<(int, int)>, ghost m0: set<(int, int)>, ghost acc: seq<(int, int)>,
               ghost h: (int, int))
    returns (r: seq<(int, int)>, ghost added: seq<(int, int)>)
    requires Grid(data) && visited.Length0 == |data| && visited.Length1 == |data[0]|
    requires Adjacent(h, (ni, nj)) && Partial(data, prev, m0, Marked(visited), acc, h)
    modifies visited
    decreases |Cells(visited.Length0, visited.Length1) - Marked(visited)|, 2
    ensures r == basin + added
    ensures Partial(data, prev, m0, Marked(visited), acc + added, h)
    ensures old(Marked(visited)) <= Marked(visited)
    ensures Blocked(data, Marked(visited), prev, (ni, nj))
  {
    ghost var mAcc := Marked(visited);
    r, added := Ff(ni, nj, data, visited, prev, basin);
    PartialStep(data, prev, m0, mAcc, acc, h, Marked(visited), added, (ni, nj));
  }

  /** A walk on the map that `ff` may follow from `p[0]`: consecutive cells are neighbours and
      every cell is on the map, not a 9 and above `prev`. */
  ghost predicate Walk(data: seq<seq<int>>, prev: int, p: seq<(int, int)>)
    requires Grid(data)
  {
    && (forall k :: 0 <= k < |p| ==> !Blocked(data, {}, prev, p[k]))
    && (forall k :: 0 < k < |p| ==> Adjacent(p[k - 1], p[k]))
  }

  /** Starting from an unvisited grid, the basin `ff` collects from `c` holds every cell of
      every walk from `c`, only such cells, and no cell twice. With `prev` at -1 and heights of
      0..9 this is the 4-connected region of non-9 cells around `c`. */
  lemma BasinIsRegion(data: seq<seq<int>>, prev: int, m: set<(int, int)>, basin: seq<(int, int)>,
                      c: (int, int), p: seq<(int, int)>)
    requires Grid(data) && Filled(data, prev, {}, m, basin, c)
    requires Walk(data, prev, p) && |p| > 0 && p[0] == c
    ensures forall k :: 0 <= k < |p| ==> p[k] in basin
    ensures forall k :: 0 <= k < |basin| ==> !Blocked(data, {}, prev, basin[k])
    ensures Distinct(basin) && m == Elems(basin)
  {
    assert m == Elems(basin) && Closed(data, prev, m, basin) && Fresh(data, prev, {}, basin);
    assert basin != [] && basin[0] == c;
    forall k | 0 <= k < |p|
      ensures p[k] in basin
    {
      WalkInBasin(data, prev, m, basin, p, k);
    }
  }

  /** Every cell of a walk that starts in a basin closed under `ff`'s guard is in it. */
  lemma {:induction false} WalkInBasin(data: seq<seq<int>>, prev: int, m: set<(int, int)>,
                                       basin: seq<(int, int)>, p: seq<(int, int)>, n: nat)
    requires Grid(data) && Closed(data, prev, m, basin) && m == Elems(basin)
    requires Walk(data, prev, p) && n < |p| && p[0] in basin
    ensures p[n] in basin
  {
    if n > 0 {
      WalkInBasin(data, prev, m, basin, p, n - 1);
      assert Adjacent(p[n - 1], p[n]) && !Blocked(data, {}, prev, p[n]);
      WalkStep(data, prev, m, basin, p[n - 1], p[n]);
    }
  }

  /** A basin closed under `ff`'s guard holds every open neighbour of its cells. */
  lemma WalkStep(data: seq<seq<int>>, prev: int, m: set<(int, int)>, basin: seq<(int, int)>,
                 a: (int, int), b: (int, int))
    requires Grid(data) && Closed(data, prev, m, basin) && m == Elems(basin)
    requires a in basin && Adjacent(a, b) && !Blocked(data, {}, prev, b)
    ensures b in basin
  {
    var idx :| 0 <= idx < |basin| && basin[idx] == a;
    assert SettledAround(data, m, prev, a);
    SettledBlocks(data, m, prev, a, b);
    assert b in m;
  }

  /** The neighbour `b` of a settled cell `a` is one of the four `ff` recursed on. */
  lemma SettledBlocks(data: seq<seq<int>>, m: set<(int, int)>, prev: int, a: (int, int), b: (int, int))
    requires Grid(data) && SettledAround(data, m, prev, a) && Adjacent(a, b)
    ensures Blocked(data, m, prev, b)
  {
    if a.0 == b.0 && a.1 == b.1 + 1 {
      assert b == (a.0, a.1 - 1);
    } else if a.0 == b.0 {
      assert b == (a.0, a.1 + 1);
    } else if a.0 == b.0 + 1 {
      assert b == (a.0 - 1, a.1);
    } else {
      assert b == (a.0 + 1, a.1);
    }
  }

  /** A grid of `False` flags, as part_b builds for each low point. */
  method Unvisited(rows: nat, cols: nat) returns (visited: array2<bool>)
    ensures fresh(visited) && visited.Length0 == rows && visited.Length1 == cols
    ensures Marked(visited) == {}
  {
    visited := new bool[rows, cols]((_, _) => false);
  }

  /** part_b's loop: one flood fill from each low point on a fresh grid, with `prev` at -1. */
  method BasinSizes(data: seq<seq<int>>) returns (lengths: seq<int>, ghost basins: seq<seq<(int, int)>>)
    requires Grid(data)
    ensures |lengths| == |basins| == |LowPoints(data, |data|)|
    ensures forall k :: 0 <= k < |basins| ==>
      lengths[k] == |basins[k]|
      && Filled(data, -1, {}, Elems(basins[k]), basins[k], LowPoints(data, |data|)[k])
  {
    var points, _ := FindLowPoints(data);
    lengths, basins := [], [];
    for k := 0 to |points|
      invariant |lengths| == |basins| == k
      invariant forall l :: 0 <= l < k ==>
        lengths[l] == |basins[l]| && Filled(data, -1, {}, Elems(basins[l]), basins[l], points[l])
    {
      var basin := Basin(data, points[k]);
      lengths, basins := lengths + [|basin|], basins + [basin];
    }
  }

  /** One round of that loop: `ff` from `p` with an empty basin and a fresh visited grid. */
  method Basin(data: seq<seq<int>>, p: (int, int)) returns (basin: seq<(int, int)>)
    requires Grid(data)
    ensures Filled(data, -1, {}, Elems(basin), basin, p)
  {
    var visited := Unvisited(|data|, |data[0]|);
    ghost var added;
    basin, added := Ff(p.0, p.1, data, visited, -1, []);
    assert basin == added;
  }

  function Product(s: seq<int>): int {
    if s == [] then 1 else s[0] * Product(s[1..])
  }

  /** `heapq.nlargest(3, ...)`, up to order: the last (at most) three of the sorted list. */
  function Largest3(s: seq<int>): (r: seq<int>)
    ensures |r| == if |s| < 3 then |s| else 3
  {
    var t := Sort(s, IntLe);
    t[|t| - (if |t| < 3 then |t| else 3)..]
  }

  /** The three kept are taken from the list, and none of the others is larger. */
  lemma Largest3Largest(s: seq<int>)
    ensures multiset(Largest3(s)) <= multiset(s)
    ensures forall x, y :: x in Largest3(s) && y in multiset(s) - multiset(Largest3(s)) ==> y <= x
  {
    var t := Sort(s, IntLe);
    var k := |t| - (if |t| < 3 then |t| else 3);
    IntLeIsTotalPreorder();
    SortIsSorted(s, IntLe);
    assert t == t[..k] + t[k..];
    assert multiset(t) == multiset(t[..k]) + multiset(t[k..]);
    forall x, y | x in t[k..] && y in multiset(s) - multiset(t[k..]) ensures y <= x {
      assert y in multiset(t[..k]);
      var a :| 0 <= a < |t[k..]| && t[k..][a] == x;
      var b :| 0 <= b < k && t[..k][b] == y;
      assert IntLe(t[b], t[k + a]);
    }
  }

  /** part_b: the product of the three largest basin sizes. */
  method PartB(data: seq<seq<int>>) returns (answer: int, ghost lengths: seq<int>)
    requires Grid(data)
    ensures |lengths| == |LowPoints(data, |data|)|
    ensures answer == Product(Largest3(lengths))
    ensures forall k :: 0 <= k < |lengths| ==> exists basin: seq<(int, int)> ::
      lengths[k] == |basin| && Filled(data, -1, {}, Elems(basin), basin, LowPoints(data, |data|)[k])
  {
    var sizes;
    ghost var basins;
    sizes, basins := BasinSizes(data);
    lengths := sizes;
    answer := Product(Largest3(sizes));
    forall k | 0 <= k < |lengths| ensures exists basin: seq<(int, int)> ::
      lengths[k] == |basin| && Filled(data, -1, {}, Elems(basin), basin, LowPoints(data, |data|)[k])
    {
      assert lengths[k] == |basins[k]|;
    }
  }
}
