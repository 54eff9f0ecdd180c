/** Transparent origami: dots marked on a grid, then folded along a row ('y') or a column
    (any other axis letter) by adding the mirrored far half onto the near half. */
module Day13 {
  import opened Common

  /** A numpy 2-D array: `rows` of `width` numbers each (numpy keeps the width even when
      there is no row). */
  datatype Paper = Paper(rows: seq<seq<int>>, width: nat)

  /** A fold instruction: `axis` is the last character before '='. */
  datatype Fold = Fold(axis: char, index: nat)

  ghost predicate Valid(p: Paper) {
    forall r :: 0 <= r < |p.rows| ==> |p.rows[r]| == p.width
  }

  ghost predicate NonNegative(p: Paper) {
    forall r, c :: 0 <= r < |p.rows| && 0 <= c < |p.rows[r]| ==> p.rows[r][c] >= 0
  }

  function Min(a: int, b: int): int { if a < b then a else b }

  /** `s[0:i]` for `i >= 0`: Python clamps the index to the length. */
  function Take<T>(s: seq<T>, i: nat): (r: seq<T>)
    ensures |r| == Min(i, |s|) && r == s[..|r|]
  {
    s[..Min(i, |s|)]
  }

  /** `s[i:]` for `i >= 0`. */
  function Drop<T>(s: seq<T>, i: nat): (r: seq<T>)
    ensures |r| == |s| - Min(i, |s|) && r == s[Min(i, |s|)..]
  {
    s[Min(i, |s|)..]
  }

  /** `np.flip` along one axis. */
  function Reverse<T>(s: seq<T>): (r: seq<T>)
    ensures |r| == |s|
    ensures forall i :: 0 <= i < |s| ==> r[i] == s[|s| - 1 - i]
  {
    if s == [] then [] else Reverse(s[1..]) + [s[0]]
  }

  /** Element-wise `+` of two rows of one length. */
  function AddRow(a: seq<int>, b: seq<int>): (r: seq<int>)
    requires |a| == |b|
    ensures |r| == |a| && forall i :: 0 <= i < |a| ==> r[i] == a[i] + b[i]
  {
    seq(|a|, i requires 0 <= i < |a| => a[i] + b[i])
  }

  /** numpy broadcasting of one axis: lengths agree, or one of them is 1 and the result takes
      the other's length. */
  predicate Compatible(m: nat, n: nat) { m == n || m == 1 || n == 1 }

  function BroadcastLength(m: nat, n: nat): nat { if m == n || m == 1 then n else m }

  /** `+` of two rows under broadcasting. */
  function AddRowB(a: seq<int>, b: seq<int>): (r: seq<int>)
    requires Compatible(|a|, |b|)
    ensures |r| == BroadcastLength(|a|, |b|)
  {
    if |a| == |b| then AddRow(a, b)
    else if |a| == 1 then seq(|b|, i requires 0 <= i < |b| => a[0] + b[i])
    else seq(|a|, i requires 0 <= i < |a| => a[i] + b[0])
  }

  /** `+` of two stacks of rows of `width` numbers, broadcasting across the rows. */
  function AddRowsB(a: seq<seq<int>>, b: seq<seq<int>>, width: nat): (r: seq<seq<int>>)
    requires Compatible(|a|, |b|)
    requires forall i :: 0 <= i < |a| ==> |a[i]| == width
    requires forall i :: 0 <= i < |b| ==> |b[i]| == width
    ensures |r| == BroadcastLength(|a|, |b|)
    ensures forall i :: 0 <= i < |r| ==> |r[i]| == width
  {
    if |a| == |b| then seq(|a|, i requires 0 <= i < |a| => AddRow(a[i], b[i]))
    else if |a| == 1 then seq(|b|, i requires 0 <= i < |b| => AddRow(a[0], b[i]))
    else seq(|a|, i requires 0 <= i < |a| => AddRow(a[i], b[0]))
  }

  /** A 'y' fold at row `index`: the rows above it plus the flipped rows below it; the fold
      row itself is dropped. Halves of other sizes raise unless one of them is a single row. */
  function FoldY(p: Paper, index: nat): (r: Option<Paper>)
    requires Valid(p)
    ensures r.Some? <==> Compatible(Min(index, |p.rows|), |p.rows| - Min(index + 1, |p.rows|))
    ensures r.Some? ==> Valid(r.value) && r.value.width == p.width
  {
    var top := Take(p.rows, index);
    var bottom := Reverse(Drop(p.rows, index + 1));
    if Compatible(|top|, |bottom|) then Some(Paper(AddRowsB(top, bottom, p.width), p.width))
    else None
  }

  /** An 'x' fold at column `index`, the same on every row; the number of rows is kept. */
  function FoldX(p: Paper, index: nat): (r: Option<Paper>)
    requires Valid(p)
    ensures r.Some? <==> Compatible(Min(index, p.width), p.width - Min(index + 1, p.width))
    ensures r.Some? ==> Valid(r.value) && |r.value.rows| == |p.rows|
  {
    var left := Min(index, p.width);
    var right := p.width - Min(index + 1, p.width);
    if Compatible(left, right) then
      Some(Paper(seq(|p.rows|, r requires 0 <= r < |p.rows| =>
                   AddRowB(Take(p.rows[r], index), Reverse(Drop(p.rows[r], index + 1)))),
                 BroadcastLength(left, right)))
    else None
  }

  /** `do_fold`. */
  function DoFold(p: Paper, f: Fold): (r: Option<Paper>)
    requires Valid(p)
    ensures r.Some? ==> Valid(r.value)
  {
    if f.axis == 'y' then FoldY(p, f.index) else FoldX(p, f.index)
  }

  /** Folding in half along a row: each kept cell adds its mirror image across the fold row. */
  lemma FoldYInHalf(p: Paper, index: nat)
    requires Valid(p) && |p.rows| == 2 * index + 1
    ensures FoldY(p, index).Some?
    ensures var q := FoldY(p, index).value;
      && |q.rows| == index && q.width == p.width
      && forall r, c :: 0 <= r < index && 0 <= c < p.width ==>
           q.rows[r][c] == p.rows[r][c] + p.rows[|p.rows| - 1 - r][c]
  {
    var q := FoldY(p, index).value;
    var d := Drop(p.rows, index + 1);
    forall r, c | 0 <= r < index && 0 <= c < p.width
      ensures q.rows[r][c] == p.rows[r][c] + p.rows[|p.rows| - 1 - r][c]
    {
      assert Reverse(d)[r] == d[|d| - 1 - r] == p.rows[|p.rows| - 1 - r];
    }
  }

  /** Folding in half along a column: each kept cell adds its mirror image across the fold
      column. */
  lemma FoldXInHalf(p: Paper, index: nat)
    requires Valid(p) && p.width == 2 * index + 1
    ensures FoldX(p, index).Some?
    ensures var q := FoldX(p, index).value;
      && |q.rows| == |p.rows| && q.width == index
      && forall r, c :: 0 <= r < |p.rows| && 0 <= c < index ==>
           q.rows[r][c] == p.rows[r][c] + p.rows[r][p.width - 1 - c]
  {
    var q := FoldX(p, index).value;
    forall r, c | 0 <= r < |p.rows| && 0 <= c < index
      ensures q.rows[r][c] == p.rows[r][c] + p.rows[r][p.width - 1 - c]
    {
      var d := Drop(p.rows[r], index + 1);
      assert Reverse(d)[c] == d[|d| - 1 - c] == p.rows[r][p.width - 1 - c];
    }
  }

  /** With no negative cells, a folded cell shows a dot iff one of its two sources does. */
  lemma FoldYDots(p: Paper, index: nat, r: nat, c: nat)
    requires Valid(p) && NonNegative(p) && |p.rows| == 2 * index + 1
    requires r < index && c < p.width
    ensures FoldY(p, index).Some? && FoldY(p, index).value.rows[r][c] > 0 <==>
            p.rows[r][c] > 0 || p.rows[|p.rows| - 1 - r][c] > 0
  {
    FoldYInHalf(p, index);
  }

  lemma FoldXDots(p: Paper, index: nat, r: nat, c: nat)
    requires Valid(p) && NonNegative(p) && p.width == 2 * index + 1
    requires r < |p.rows| && c < index
    ensures FoldX(p, index).Some? && FoldX(p, index).value.rows[r][c] > 0 <==>
            p.rows[r][c] > 0 || p.rows[r][p.width - 1 - c] > 0
  {
    FoldXInHalf(p, index);
  }

  /** The cells of a row that show a dot. */
  function RowDots(row: seq<int>): nat {
    if row == [] then 0 else (if row[0] > 0 then 1 else 0) + RowDots(row[1..])
  }

  /** part_a's `dot_count`: cells greater than 0. */
  function Dots(rows: seq<seq<int>>): nat {
    if rows == [] then 0 else RowDots(rows[0]) + Dots(rows[1..])
  }

  lemma {:induction false} RowDotsAppend(a: seq<int>, b: seq<int>)
    ensures RowDots(a + b) == RowDots(a) + RowDots(b)
  {
    if a == [] {
      assert a + b == b;
    } else {
      assert (a + b)[1..] == a[1..] + b;
      RowDotsAppend(a[1..], b);
    }
  }

  lemma {:induction false} DotsAppend(a: seq<seq<int>>, b: seq<seq<int>>)
    ensures Dots(a + b) == Dots(a) + Dots(b)
  {
    if a == [] {
      assert a + b == b;
    } else {
      assert (a + b)[1..] == a[1..] + b;
      DotsAppend(a[1..], b);
    }
  }

  lemma {:induction false} RowDotsReverse(s: seq<int>)
    ensures RowDots(Reverse(s)) == RowDots(s)
  {
    if s != [] {
      RowDotsReverse(s[1..]);
      RowDotsAppend(Reverse(s[1..]), [s[0]]);
    }
  }

  lemma {:induction false} DotsReverse(s: seq<seq<int>>)
    ensures Dots(Reverse(s)) == Dots(s)
  {
    if s != [] {
      DotsReverse(s[1..]);
      DotsAppend(Reverse(s[1..]), [s[0]]);
    }
  }

  ghost predicate RowNonNegative(row: seq<int>) {
    forall i :: 0 <= i < |row| ==> row[i] >= 0
  }

  lemma {:induction false} RowDotsAdd(a: seq<int>, b: seq<int>)
    requires |a| == |b| && RowNonNegative(a) && RowNonNegative(b)
    ensures RowDots(AddRow(a, b)) <= RowDots(a) + RowDots(b)
  {
    if a != [] {
      assert AddRow(a, b)[1..] == AddRow(a[1..], b[1..]);
      RowDotsAdd(a[1..], b[1..]);
    }
  }

  lemma {:induction false} DotsAdd(a: seq<seq<int>>, b: seq<seq<int>>, width: nat)
    requires |a| == |b|
    requires forall i :: 0 <= i < |a| ==> |a[i]| == width && RowNonNegative(a[i])
    requires forall i :: 0 <= i < |b| ==> |b[i]| == width && RowNonNegative(b[i])
    ensures Dots(AddRowsB(a, b, width)) <= Dots(a) + Dots(b)
  {
    if a != [] {
      assert AddRowsB(a, b, width)[1..] == AddRowsB(a[1..], b[1..], width);
      RowDotsAdd(a[0], b[0]);
      DotsAdd(a[1..], b[1..], width);
    }
  }

  lemma DotsAroundRow(rows: seq<seq<int>>, index: nat)
    requires index < |rows|
    ensures Dots(rows) == Dots(Take(rows, index)) + RowDots(rows[index]) + Dots(Drop(rows, index + 1))
  {
    var top := Take(rows, index);
    var d := Drop(rows, index + 1);
    assert rows == top + [rows[index]] + d;
    DotsAppend(top + [rows[index]], d);
    DotsAppend(top, [rows[index]]);
    assert Dots([rows[index]]) == RowDots(rows[index]);
  }

  /** Folding in half along a row never adds dots. */
  lemma FoldYNoNewDots(p: Paper, index: nat)
    requires Valid(p) && NonNegative(p) && |p.rows| == 2 * index + 1
    ensures FoldY(p, index).Some? && Dots(FoldY(p, index).value.rows) <= Dots(p.rows)
  {
    var top := Take(p.rows, index);
    var d := Drop(p.rows, index + 1);
    DotsAroundRow(p.rows, index);
    DotsReverse(d);
    var b := Reverse(d);
    HalvesKeepShape(p, index);
    DotsAdd(top, b, p.width);
    assert FoldY(p, index) == Some(Paper(AddRowsB(top, b, p.width), p.width));
  }

  lemma HalvesKeepShape(p: Paper, index: nat)
    requires Valid(p) && NonNegative(p) && |p.rows| == 2 * index + 1
    ensures var top := Take(p.rows, index);
      forall i :: 0 <= i < |top| ==> |top[i]| == p.width && RowNonNegative(top[i])
    ensures var b := Reverse(Drop(p.rows, index + 1));
      forall i :: 0 <= i < |b| ==> |b[i]| == p.width && RowNonNegative(b[i])
  {
    var top := Take(p.rows, index);
    var b := Reverse(Drop(p.rows, index + 1));
    forall i | 0 <= i < |b| ensures |b[i]| == p.width && RowNonNegative(b[i]) {
      assert b[i] == p.rows[|p.rows| - 1 - i];
    }
    forall i | 0 <= i < |top| ensures |top[i]| == p.width && RowNonNegative(top[i]) {
      assert top[i] == p.rows[i];
    }
  }

  /** One row folded in half along a column keeps at most its dots. */
  lemma RowFoldNoNewDots(row: seq<int>, index: nat)
    requires |row| == 2 * index + 1 && RowNonNegative(row)
    ensures RowDots(AddRowB(Take(row, index), Reverse(Drop(row, index + 1)))) <= RowDots(row)
  {
    var left := Take(row, index);
    var d := Drop(row, index + 1);
    assert row == left + [row[index]] + d;
    RowDotsAppend(left + [row[index]], d);
    RowDotsAppend(left, [row[index]]);
    RowDotsReverse(d);
    RowDotsAdd(left, Reverse(d));
  }

  lemma {:induction false} DotsRowwise(a: seq<seq<int>>, b: seq<seq<int>>)
    requires |a| == |b|
    requires forall i :: 0 <= i < |a| ==> RowDots(a[i]) <= RowDots(b[i])
    ensures Dots(a) <= Dots(b)
  {
    if a != [] {
      DotsRowwise(a[1..], b[1..]);
    }
  }

  /** Folding in half along a column never adds dots. */
  lemma FoldXNoNewDots(p: Paper, index: nat)
    requires Valid(p) && NonNegative(p) && p.width == 2 * index + 1
    ensures FoldX(p, index).Some? && Dots(FoldX(p, index).value.rows) <= Dots(p.rows)
  {
    var q := FoldX(p, index).value;
    forall r | 0 <= r < |p.rows| ensures RowDots(q.rows[r]) <= RowDots(p.rows[r]) {
      RowFoldNoNewDots(p.rows[r], index);
    }
    DotsRowwise(q.rows, p.rows);
  }

  /** The dot-count loop of part_a over every cell. */
  method CountDots(p: Paper) returns (n: nat)
    ensures n == Dots(p.rows)
  {
    n := 0;
    var r := 0;
    while r < |p.rows|
      invariant 0 <= r <= |p.rows|
      invariant n + Dots(p.rows[r..]) == Dots(p.rows)
    {
      assert p.rows[r..][1..] == p.rows[r + 1..];
      var row := p.rows[r];
      var c := 0;
      ghost var start := n;
      while c < |row|
        invariant 0 <= c <= |row|
        invariant n + RowDots(row[c..]) == start + RowDots(row)
      {
        assert row[c..][1..] == row[c + 1..];
        if row[c] > 0 {
          n := n + 1;
        }
        c := c + 1;
      }
      r := r + 1;
    }
  }

  /** Whether some parsed line "a,b" names column `c` and row `r`. */
  ghost predicate Marked(points: seq<(nat, nat)>, r: int, c: int) {
    exists k :: 0 <= k < |points| && points[k] == (c, r)
  }

  function Max(a: nat, b: nat): nat { if a < b then b else a }

  /** `max_x` of `parse_input`: one past the largest second coordinate, 0 with no points. */
  function Height(points: seq<(nat, nat)>): nat {
    if points == [] then 0 else Max(Height(points[..|points| - 1]), points[|points| - 1].1 + 1)
  }

  /** `max_y`: one past the largest first coordinate. */
  function Width(points: seq<(nat, nat)>): nat {
    if points == [] then 0 else Max(Width(points[..|points| - 1]), points[|points| - 1].0 + 1)
  }

  /** The array `parse_input` marks: `Height` rows of `Width` cells, 1 at the listed points. */
  ghost function Marking(points: seq<(nat, nat)>): (p: Paper)
    ensures Valid(p) && NonNegative(p)
    ensures |p.rows| == Height(points) && p.width == Width(points)
    ensures forall r, c :: 0 <= r < |p.rows| && 0 <= c < p.width ==>
      p.rows[r][c] == if Marked(points, r, c) then 1 else 0
  {
    Paper(seq(Height(points), r requires 0 <= r < Height(points) =>
            seq(Width(points), c requires 0 <= c < Width(points) =>
              if Marked(points, r, c) then 1 else 0)), Width(points))
  }

  /** The array is the smallest that holds every point: each point lies inside it, and its
      last row and last column each hold one. */
  lemma {:induction false} MarkingShape(points: seq<(nat, nat)>)
    ensures forall k :: 0 <= k < |points| ==> points[k].1 < Height(points) && points[k].0 < Width(points)
    ensures Height(points) > 0 ==> exists k :: 0 <= k < |points| && points[k].1 == Height(points) - 1
    ensures Width(points) > 0 ==> exists k :: 0 <= k < |points| && points[k].0 == Width(points) - 1
  {
    if points != [] {
      var n := |points| - 1;
      var init := points[..n];
      MarkingShape(init);
      assert forall k :: 0 <= k < n ==> init[k] == points[k];
    }
  }

  /** The first loop of `parse_input` over the points: `max_x` and `max_y`. */
  method PaperSize(points: seq<(nat, nat)>) returns (maxX: nat, maxY: nat)
    ensures maxX == Height(points) && maxY == Width(points)
  {
    maxX, maxY := 0, 0;
    for k := 0 to |points|
      invariant maxX == Height(points[..k]) && maxY == Width(points[..k])
    {
      assert points[..k + 1][..k] == points[..k];
      var (y, x) := points[k];
      if x + 1 > maxX {
        maxX := x + 1;
      }
      if y + 1 > maxY {
        maxY := y + 1;
      }
    }
    assert points[..|points|] == points;
  }

  /** The marking loop: `graph[x][y] = 1` for every point, on an array of zeros. */
  method MarkGraph(points: seq<(nat, nat)>, graph: array2<int>)
    requires forall k :: 0 <= k < |points| ==> points[k].1 < graph.Length0 && points[k].0 < graph.Length1
    requires forall r, c :: 0 <= r < graph.Length0 && 0 <= c < graph.Length1 ==> graph[r, c] == 0
    modifies graph
    ensures forall r, c :: 0 <= r < graph.Length0 && 0 <= c < graph.Length1 ==>
      graph[r, c] == if Marked(points, r, c) then 1 else 0
  {
    for k := 0 to |points|
      invariant forall r, c :: 0 <= r < graph.Length0 && 0 <= c < graph.Length1 ==>
        graph[r, c] == if exists j :: 0 <= j < k && points[j] == (c, r) then 1 else 0
    {
      var (y, x) := points[k];
      graph[x, y] := 1;
    }
  }

  /** The marking part of `parse_input`: a line "a,b" is the point `(a, b)`, which sets row b,
      column a; the array has one row past the largest b and one column past the largest a. */
  method MarkPoints(points: seq<(nat, nat)>) returns (p: Paper)
    ensures p == Marking(points)
    ensures forall k :: 0 <= k < |points| ==> points[k].1 < |p.rows| && points[k].0 < p.width
    ensures |p.rows| > 0 ==> exists k :: 0 <= k < |points| && points[k].1 == |p.rows| - 1
    ensures p.width > 0 ==> exists k :: 0 <= k < |points| && points[k].0 == p.width - 1
  {
    var maxX, maxY := PaperSize(points);
    MarkingShape(points);
    var graph := new int[maxX, maxY]((_, _) => 0);
    MarkGraph(points, graph);
    p := Paper(seq(maxX, r requires 0 <= r < maxX reads graph =>
                 seq(maxY, c requires 0 <= c < maxY reads graph => graph[r, c])), maxY);
    var m := Marking(points);
    forall r | 0 <= r < maxX ensures p.rows[r] == m.rows[r] {
    }
  }

  /** An array with no cells, which `np.nditer` refuses with a `ValueError`. */
  predicate ZeroSize(p: Paper) {
    |p.rows| == 0 || p.width == 0
  }

  /** Whether a fold is one the puzzle promises: exactly in half along its axis. */
  predicate InHalf(p: Paper, f: Fold) {
    if f.axis == 'y' then |p.rows| == 2 * f.index + 1 else p.width == 2 * f.index + 1
  }

  /** part_a: the dots after the first fold. `folds[0]` raises on no folds, the fold may
      raise, and `np.nditer` raises on an array with no cells; each is `None`. */
  method PartA(points: seq<(nat, nat)>, folds: seq<Fold>) returns (dots: Option<nat>)
    ensures folds == [] ==> dots.None?
    ensures folds != [] ==>
      var q := DoFold(Marking(points), folds[0]);
      dots == if q.None? || ZeroSize(q.value) then None else Some(Dots(q.value.rows))
    ensures folds != [] && InHalf(Marking(points), folds[0]) && dots.Some? ==>
      dots.value <= Dots(Marking(points).rows)
  {
    if folds == [] {
      return None;
    }
    var p := MarkPoints(points);
    var q := DoFold(p, folds[0]);
    if q.None? || |q.value.rows| == 0 || q.value.width == 0 {
      dots := None;
    } else {
      var n := CountDots(q.value);
      dots := Some(n);
      if InHalf(p, folds[0]) {
        if folds[0].axis == 'y' {
          FoldYNoNewDots(p, folds[0].index);
        } else {
          FoldXNoNewDots(p, folds[0].index);
        }
      }
    }
  }

  /** A 'y' fold at 0 keeps no rows: the sum of the empty top and the flipped bottom has no
      cells, even though the fold itself does not raise. */
  lemma FoldAtTopEmpty()
    ensures FoldY(Paper([[1], [0]], 1), 0).Some?
    ensures ZeroSize(FoldY(Paper([[1], [0]], 1), 0).value)
  {
    var p := Paper([[1], [0]], 1);
    assert Take(p.rows, 0) == [];
    assert Drop(p.rows, 1) == [[0]];
  }

  /** All folds in order; the first one that raises stops the run. */
  function FoldAll(p: Paper, folds: seq<Fold>): (r: Option<Paper>)
    requires Valid(p)
    ensures r.Some? ==> Valid(r.value)
    decreases |folds|
  {
    if folds == [] then Some(p)
    else
      var q := DoFold(p, folds[0]);
      if q.None? then None else FoldAll(q.value, folds[1..])
  }

  /** part_b: the paper after every fold, which the program prints. */
  method PartB(p: Paper, folds: seq<Fold>) returns (result: Option<Paper>)
    requires Valid(p)
    ensures result == FoldAll(p, folds)
  {
    var graph := p;
    var i := 0;
    while i < |folds|
      invariant 0 <= i <= |folds| && Valid(graph)
      invariant FoldAll(graph, folds[i..]) == FoldAll(p, folds)
    {
      assert folds[i..][1..] == folds[i + 1..];
      var q := DoFold(graph, folds[i]);
      if q.None? {
        return None;
      }
      graph := q.value;
      i := i + 1;
    }
    result := Some(graph);
  }

  /** With one row after the fold line and several before it, numpy broadcasts that single
      row onto every kept row. */
  lemma SingleRowBroadcasts()
    ensures FoldY(Paper([[1], [0], [0], [5]], 1), 2) == Some(Paper([[6], [5]], 1))
  {
    var p := Paper([[1], [0], [0], [5]], 1);
    assert Take(p.rows, 2) == [[1], [0]];
    assert Drop(p.rows, 3) == [[5]];
    assert Reverse([[5]]) == [[5]];
    assert AddRow([1], [5]) == [6] && AddRow([0], [5]) == [5];
    assert AddRowsB([[1], [0]], [[5]], 1) == [[6], [5]];
  }
}
