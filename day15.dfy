/** Chiton: lowest-risk walks through a grid of risk levels, found by Dijkstra's algorithm on
    the grid and by a frontier search on the grid expanded five times in each direction. */
module Day15 {
  import opened Common

  /** A cell as a `(row, column)` tuple. */
  type Cell = (int, int)

  /** `sys.maxsize` on a 64-bit build: the starting cost of every cell but the start. */
  const MaxSize: int := 0x7fff_ffff_ffff_ffff

  /** A non-empty grid whose rows are as wide as the first, the shape `len(graph[0])` assumes. */
  predicate Rectangular(g: seq<seq<nat>>) {
    |g| > 0 && forall i :: 0 <= i < |g| ==> |g[i]| == |g[0]|
  }

  predicate InGrid(g: seq<seq<nat>>, c: Cell)
    requires |g| > 0
  {
    0 <= c.0 < |g| && 0 <= c.1 < |g[0]|
  }

  /** The risk level of a cell, `graph[row][col]`. */
  function Risk(g: seq<seq<nat>>, c: Cell): nat
    requires Rectangular(g) && InGrid(g, c)
  {
    g[c.0][c.1]
  }

  /** Every risk level is a single digit, as `parse_input` produces them. */
  ghost predicate Digits(g: seq<seq<nat>>) {
    forall i, j :: 0 <= i < |g| && 0 <= j < |g[i]| ==> g[i][j] <= 9
  }

  /** Cells one step apart, vertically or horizontally. */
  predicate Adjacent(a: Cell, b: Cell) {
    (a.0 == b.0 && (a.1 == b.1 + 1 || a.1 + 1 == b.1))
    || (a.1 == b.1 && (a.0 == b.0 + 1 || a.0 + 1 == b.0))
  }

  /** Which way `n` lies from `c`: 0 up, 1 down, 2 left, 3 right. */
  function Direction(c: Cell, n: Cell): nat {
    if n.0 < c.0 then 0 else if n.0 > c.0 then 1 else if n.1 < c.1 then 2 else 3
  }

  /** `get_neighbors`: the cells next to `c`, tried up, down, left, right, each kept when the
      coordinate it changes stays inside the grid. */
  function Neighbours(g: seq<seq<nat>>, c: Cell): (r: seq<Cell>)
    requires |g| > 0
    ensures |r| <= 4
    ensures forall i :: 0 <= i < |r| ==> Adjacent(c, r[i])
    ensures forall i, j :: 0 <= i < j < |r| ==> Direction(c, r[i]) < Direction(c, r[j])
    ensures InGrid(g, c) ==> forall n :: n in r <==> InGrid(g, n) && Adjacent(c, n)
  {
    var up := if c.0 - 1 >= 0 then [(c.0 - 1, c.1)] else [];
    var down := if c.0 + 1 < |g| then [(c.0 + 1, c.1)] else [];
    var left := if c.1 - 1 >= 0 then [(c.0, c.1 - 1)] else [];
    var right := if c.1 + 1 < |g[0]| then [(c.0, c.1 + 1)] else [];
    up + down + left + right
  }

  /** The neighbours are distinct and never the cell itself. */
  lemma NeighboursDistinct(g: seq<seq<nat>>, c: Cell)
    requires |g| > 0
    ensures forall i, j :: 0 <= i < j < |Neighbours(g, c)| ==> Neighbours(g, c)[i] != Neighbours(g, c)[j]
    ensures c !in Neighbours(g, c)
  {
    var r := Neighbours(g, c);
    forall i, j | 0 <= i < j < |r| ensures r[i] != r[j] {
      assert Direction(c, r[i]) < Direction(c, r[j]);
    }
  }

  // Walks through the grid.

  /** Every cell of `p` is in the grid and each follows the previous one by a single step. */
  ghost predicate Walk(g: seq<seq<nat>>, p: seq<Cell>)
    requires |g| > 0
  {
    (forall i :: 0 <= i < |p| ==> InGrid(g, p[i]))
    && forall i :: 0 < i < |p| ==> Adjacent(p[i - 1], p[i])
  }

  /** A walk from `a` to `b`. */
  ghost predicate IsPath(g: seq<seq<nat>>, p: seq<Cell>, a: Cell, b: Cell)
    requires |g| > 0
  {
    Walk(g, p) && |p| > 0 && p[0] == a && p[|p| - 1] == b
  }

  /** The risk of a walk: the risk levels of the cells it enters, the first cell not counted. */
  ghost function PathRisk(g: seq<seq<nat>>, p: seq<Cell>): nat
    requires Rectangular(g) && Walk(g, p)
  {
    if |p| <= 1 then 0 else PathRisk(g, p[..|p| - 1]) + Risk(g, p[|p| - 1])
  }

  /** Some walk from `a` to `b` has risk `r`. */
  ghost predicate Reachable(g: seq<seq<nat>>, a: Cell, b: Cell, r: int)
    requires Rectangular(g)
  {
    exists p :: IsPath(g, p, a, b) && PathRisk(g, p) == r
  }

  /** No walk from `a` to `b` has risk below `r`. */
  ghost predicate NoCheaper(g: seq<seq<nat>>, a: Cell, b: Cell, r: int)
    requires Rectangular(g)
  {
    forall p :: IsPath(g, p, a, b) ==> r <= PathRisk(g, p)
  }

  lemma PathSnoc(g: seq<seq<nat>>, p: seq<Cell>, a: Cell, b: Cell, n: Cell)
    requires Rectangular(g) && IsPath(g, p, a, b) && InGrid(g, n) && Adjacent(b, n)
    ensures IsPath(g, p + [n], a, n)
    ensures PathRisk(g, p + [n]) == PathRisk(g, p) + Risk(g, n)
  {
    assert (p + [n])[..|p|] == p;
  }

  /** Extending a walk to a neighbour of its end reaches that neighbour at the added risk. */
  lemma ReachableSnoc(g: seq<seq<nat>>, a: Cell, b: Cell, r: int, n: Cell)
    requires Rectangular(g) && Reachable(g, a, b, r) && InGrid(g, n) && Adjacent(b, n)
    ensures Reachable(g, a, n, r + Risk(g, n))
  {
    var p :| IsPath(g, p, a, b) && PathRisk(g, p) == r;
    PathSnoc(g, p, a, b, n);
  }

  lemma PrefixPath(g: seq<seq<nat>>, p: seq<Cell>, a: Cell, b: Cell, k: nat)
    requires Rectangular(g) && IsPath(g, p, a, b) && 0 < k <= |p|
    ensures IsPath(g, p[..k], a, p[k - 1])
  {
  }

  /** A prefix of a walk costs no more than the walk: risk levels are never negative. */
  lemma {:induction false} PrefixRisk(g: seq<seq<nat>>, p: seq<Cell>, k: nat)
    requires Rectangular(g) && Walk(g, p) && 0 < k <= |p|
    ensures Walk(g, p[..k])
    ensures PathRisk(g, p[..k]) <= PathRisk(g, p)
    decreases |p|
  {
    if k < |p| {
      var q := p[..|p| - 1];
      assert Walk(g, q);
      PrefixRisk(g, q, k);
      assert q[..k] == p[..k];
    } else {
      assert p[..k] == p;
    }
  }

  /** The number of steps from `a` to `b` on the grid. */
  function Distance(a: Cell, b: Cell): nat {
    (if a.0 <= b.0 then b.0 - a.0 else a.0 - b.0) + (if a.1 <= b.1 then b.1 - a.1 else a.1 - b.1)
  }

  /** Every cell can be reached from every other, along a row and then a column, at a risk of
      at most nine per step when the risk levels are digits. */
  lemma {:induction false} StraightPath(g: seq<seq<nat>>, a: Cell, b: Cell) returns (p: seq<Cell>)
    requires Rectangular(g) && InGrid(g, a) && InGrid(g, b)
    ensures IsPath(g, p, a, b)
    ensures Digits(g) ==> PathRisk(g, p) <= 9 * Distance(a, b)
    decreases Distance(a, b)
  {
    if a == b {
      p := [a];
    } else {
      var prev := if b.1 < a.1 then (b.0, b.1 + 1)
        else if b.1 > a.1 then (b.0, b.1 - 1)
        else if b.0 < a.0 then (b.0 + 1, b.1)
        else (b.0 - 1, b.1);
      assert Distance(a, prev) + 1 == Distance(a, b);
      var q := StraightPath(g, a, prev);
      PathSnoc(g, q, a, prev, b);
      p := q + [b];
      if Digits(g) {
        assert Risk(g, b) <= 9;
      }
    }
  }

  // The expander of part B.

  /** One step of the wrap-around increment: 9 becomes 1, anything lower goes up by one. */
  function Bump(v: nat): nat {
    if v < 9 then v + 1 else 1
  }

  /** `k` steps of the increment. */
  function BumpTimes(v: nat, k: nat): nat {
    if k == 0 then v else Bump(BumpTimes(v, k - 1))
  }

  /** For risk levels 1 to 9 the increment is a shift modulo 9 of the levels counted from 1. */
  lemma {:induction false} BumpTimesMod(v: nat, k: nat)
    requires 1 <= v <= 9
    ensures BumpTimes(v, k) == (v - 1 + k) % 9 + 1
  {
    if k > 0 {
      BumpTimesMod(v, k - 1);
      var m := (v - 1 + k - 1) % 9;
      assert (v - 1 + k) % 9 == if m < 8 then m + 1 else 0;
    }
  }

  /** After at least one step, or from a level already in 1 to 9, the level is in 1 to 9. */
  lemma BumpTimesRange(v: nat, k: nat)
    requires k > 0 || 1 <= v <= 9
    ensures 1 <= BumpTimes(v, k) <= 9
  {
  }

  /** The tile `r` falls in when tiles are `n` wide: `r / n`, counted by subtraction. */
  function Block(n: int, r: int): nat
    requires 0 < n && 0 <= r
    decreases r
  {
    if r < n then 0 else 1 + Block(n, r - n)
  }

  /** The place of `r` inside its tile: `r % n`, counted by subtraction. */
  function Offset(n: int, r: int): (m: int)
    requires 0 < n && 0 <= r
    ensures 0 <= m < n
    decreases r
  {
    if r < n then r else Offset(n, r - n)
  }

  lemma {:induction false} BlockDecompose(n: int, r: int)
    requires 0 < n && 0 <= r
    ensures r == Offset(n, r) + n * Block(n, r)
    decreases r
  {
    if r >= n {
      BlockDecompose(n, r - n);
    }
  }

  lemma {:induction false} BlockOf(n: int, x: nat, i: int)
    requires 0 <= i < n
    ensures Block(n, i + n * x) == x && Offset(n, i + n * x) == i
  {
    if x > 0 {
      BlockOf(n, x - 1, i);
      assert i + n * x - n == i + n * (x - 1);
    }
  }

  lemma {:induction false} BlockBelow(n: int, r: int, k: nat)
    requires 0 < n && 0 <= r < k * n
    ensures Block(n, r) < k
  {
    if r >= n {
      assert r - n < (k - 1) * n;
      BlockBelow(n, r - n, k - 1);
    }
  }

  lemma MulAtLeast(n: int, d: int)
    requires n > 0 && d >= 1
    ensures n * d >= n
    decreases d
  {
    if d > 1 {
      MulAtLeast(n, d - 1);
    }
  }

  /** The quotient and remainder of Euclidean division are unique. */
  lemma QuotientUnique(n: int, q: int, m: int)
    requires 0 < n && 0 <= m < n
    ensures (n * q + m) / n == q && (n * q + m) % n == m
  {
    var r := n * q + m;
    var q', m' := r / n, r % n;
    assert r == n * q' + m' && 0 <= m' < n;
    if q > q' {
      MulAtLeast(n, q - q');
    } else if q < q' {
      MulAtLeast(n, q' - q);
    }
  }

  /** The tile and the place in it are the quotient and the remainder. */
  lemma BlockIsQuotient(n: int, r: int)
    requires 0 < n && 0 <= r
    ensures Block(n, r) == r / n && Offset(n, r) == r % n
  {
    BlockDecompose(n, r);
    QuotientUnique(n, Block(n, r), Offset(n, r));
  }

  /** The cell `(r, c)` of the expanded grid: the cell of the original grid at the same place in
      its tile, incremented once for every tile above and every tile to the left. */
  function ExpandedAt(g: seq<seq<nat>>, r: int, c: int): nat
    requires Rectangular(g) && |g[0]| > 0 && 0 <= r && 0 <= c
  {
    BumpTimes(g[Offset(|g|, r)][Offset(|g[0]|, c)], Block(|g|, r) + Block(|g[0]|, c))
  }

  /** The grid `expand_graph` should return. */
  ghost predicate IsExpansion(g: seq<seq<nat>>, out: seq<seq<nat>>)
    requires Rectangular(g)
  {
    |out| == 5 * |g|
    && (forall r :: 0 <= r < |out| ==> |out[r]| == 5 * |g[0]|)
    && forall r, c :: 0 <= r < |out| && 0 <= c < |out[r]| ==> out[r][c] == ExpandedAt(g, r, c)
  }

  /** `expand_graph`: a grid of zeros five times as tall and as wide, whose first tile column is
      filled by copying each cell down with one increment per tile, and whose remaining cells
      are then filled row by row from the cell one tile width to the left, incremented. */
  method ExpandGraph(g: seq<seq<nat>>) returns (out: seq<seq<nat>>)
    requires Rectangular(g)
    ensures IsExpansion(g, out)
  {
    var rows, cols := |g|, |g[0]|;
    out := seq(5 * rows, i => seq(5 * cols, j => 0));
    // Copy the rows down.
    for i := 0 to rows
      invariant |out| == 5 * rows && forall r :: 0 <= r < |out| ==> |out[r]| == 5 * cols
      invariant forall r, c :: 0 <= r < |out| && 0 <= c < cols && Offset(rows, r) < i ==>
        out[r][c] == BumpTimes(g[Offset(rows, r)][c], Block(rows, r))
    {
      for j := 0 to cols
        invariant |out| == 5 * rows && forall r :: 0 <= r < |out| ==> |out[r]| == 5 * cols
        invariant forall r, c ::
          0 <= r < |out| && 0 <= c < cols && (Offset(rows, r) < i || (Offset(rows, r) == i && c < j)) ==>
          out[r][c] == BumpTimes(g[Offset(rows, r)][c], Block(rows, r))
      {
        out := CopyDown(g, out, i, j);
      }
    }
    // Then copy the columns over.
    for i := 0 to |out|
      invariant |out| == 5 * rows && forall r :: 0 <= r < |out| ==> |out[r]| == 5 * cols
      invariant forall r, c :: 0 <= r < |out| && 0 <= c < 5 * cols && (r < i || c < cols) ==>
        out[r][c] == ExpandedAt(g, r, c)
    {
      out := CopyRight(g, out, i);
    }
  }

  /** The second pass over row `i`: every cell right of the first tile is the cell one tile
      width to its left, incremented, read after that cell was itself filled. */
  method CopyRight(g: seq<seq<nat>>, out0: seq<seq<nat>>, i: int) returns (out: seq<seq<nat>>)
    requires Rectangular(g) && 0 <= i < |out0|
    requires |out0| == 5 * |g| && forall r :: 0 <= r < |out0| ==> |out0[r]| == 5 * |g[0]|
    requires forall c :: 0 <= c < |g[0]| ==> out0[i][c] == ExpandedAt(g, i, c)
    ensures |out| == 5 * |g| && forall r :: 0 <= r < |out| ==> |out[r]| == 5 * |g[0]|
    ensures forall r, c :: 0 <= r < |out| && 0 <= c < |out[r]| ==>
      out[r][c] == if r == i then ExpandedAt(g, r, c) else out0[r][c]
  {
    var cols := |g[0]|;
    out := out0;
    for j := cols to 5 * cols
      invariant |out| == 5 * |g| && forall r :: 0 <= r < |out| ==> |out[r]| == 5 * cols
      invariant forall r, c :: 0 <= r < |out| && 0 <= c < |out[r]| && (r != i || c >= j) ==>
        out[r][c] == out0[r][c]
      invariant forall c :: 0 <= c < j ==> out[i][c] == ExpandedAt(g, i, c)
    {
      var prev: nat := out[i][j - cols];
      assert ExpandedAt(g, i, j) == Bump(prev);
      var row: seq<nat> := out[i][j := Bump(prev)];
      out := out[i := row];
    }
  }

  /** The copy of the cell `(i, j)` down the first tile column, one increment per tile. */
  method CopyDown(g: seq<seq<nat>>, out0: seq<seq<nat>>, i: int, j: int) returns (out: seq<seq<nat>>)
    requires Rectangular(g) && 0 <= i < |g| && 0 <= j < |g[0]|
    requires |out0| == 5 * |g| && forall r :: 0 <= r < |out0| ==> |out0[r]| == 5 * |g[0]|
    ensures |out| == 5 * |g| && forall r :: 0 <= r < |out| ==> |out[r]| == 5 * |g[0]|
    ensures forall r, c :: 0 <= r < |out| && 0 <= c < |out[r]| ==>
      out[r][c] == if c == j && Offset(|g|, r) == i then BumpTimes(g[i][j], Block(|g|, r)) else out0[r][c]
  {
    var rows := |g|;
    out := out0;
    var cost: nat := g[i][j];
    var row: seq<nat> := out[i][j := cost];
    out := out[i := row];
    for x := 0 to 5
      invariant |out| == 5 * rows && forall r :: 0 <= r < |out| ==> |out[r]| == 5 * |g[0]|
      invariant cost == BumpTimes(g[i][j], x)
      invariant forall r, c :: 0 <= r < |out| && 0 <= c < |out[r]| && !(c == j && r == i) ==>
        out[r][c] == if c == j && Offset(rows, r) == i && Block(rows, r) < x
          then BumpTimes(g[i][j], Block(rows, r)) else out0[r][c]
      invariant out[i][j] == g[i][j]
    {
      BlockOf(rows, x, i);
      forall r | 0 <= r < |out| && Offset(rows, r) == i && Block(rows, r) == x
        ensures r == i + rows * x
      {
        BlockDecompose(rows, r);
      }
      assert i + rows * x < |out| by {
        assert rows * x <= rows * 4;
      }
      row := out[i + rows * x][j := cost];
      out := out[i + rows * x := row];
      cost := Bump(cost);
    }
    forall r | 0 <= r < |out|
      ensures Block(rows, r) < 5
    {
      BlockBelow(rows, r, 5);
    }
  }

  /** The top-left tile of the expansion is the original grid. */
  lemma ExpandedTopLeft(g: seq<seq<nat>>, r: int, c: int)
    requires Rectangular(g) && 0 <= r < |g| && 0 <= c < |g[0]|
    ensures ExpandedAt(g, r, c) == g[r][c]
  {
  }

  /** The closed form: for levels 1 to 9, the level at `(r, c)` is
      `((base - 1 + r / rows + c / cols) mod 9) + 1` with `base = g[r % rows][c % cols]`. */
  lemma ExpandedClosedForm(g: seq<seq<nat>>, r: int, c: int)
    requires Rectangular(g) && |g[0]| > 0 && 0 <= r && 0 <= c
    requires 1 <= g[r % |g|][c % |g[0]|] <= 9
    ensures ExpandedAt(g, r, c) == (g[r % |g|][c % |g[0]|] - 1 + r / |g| + c / |g[0]|) % 9 + 1
  {
    BlockIsQuotient(|g|, r);
    BlockIsQuotient(|g[0]|, c);
    BumpTimesMod(g[r % |g|][c % |g[0]|], r / |g| + c / |g[0]|);
  }

  /** Every level outside the top-left tile is in 1 to 9, and inside it too when the input's are. */
  lemma ExpandedInRange(g: seq<seq<nat>>, r: int, c: int)
    requires Rectangular(g) && |g[0]| > 0 && 0 <= r && 0 <= c
    requires r >= |g| || c >= |g[0]| || 1 <= g[r][c] <= 9
    ensures 1 <= ExpandedAt(g, r, c) <= 9
  {
    BumpTimesRange(g[Offset(|g|, r)][Offset(|g[0]|, c)], Block(|g|, r) + Block(|g[0]|, c));
  }

  /** The expanded grid, cell by cell. */
  ghost function Expansion(g: seq<seq<nat>>): (e: seq<seq<nat>>)
    requires Rectangular(g)
    ensures IsExpansion(g, e)
  {
    seq(5 * |g|, r => seq<nat>(5 * |g[0]|, c => if 0 <= r && 0 <= c < 5 * |g[0]| then ExpandedAt(g, r, c) else 0))
  }

  /** A grid has one expansion. */
  lemma ExpansionUnique(g: seq<seq<nat>>, out: seq<seq<nat>>)
    requires Rectangular(g) && IsExpansion(g, out)
    ensures out == Expansion(g)
  {
    var e := Expansion(g);
    forall r | 0 <= r < |out| ensures out[r] == e[r] {
      assert forall c :: 0 <= c < |out[r]| ==> out[r][c] == ExpandedAt(g, r, c) == e[r][c];
    }
  }

  /** The expansion is again a rectangular grid of digits, five times as tall and as wide. */
  lemma ExpansionShape(g: seq<seq<nat>>, out: seq<seq<nat>>)
    requires Rectangular(g) && |g[0]| > 0 && IsExpansion(g, out)
    ensures Rectangular(out) && |out| == 5 * |g| && |out[0]| == 5 * |g[0]|
    ensures Digits(g) ==> Digits(out)
  {
    forall i, j | Digits(g) && 0 <= i < |out| && 0 <= j < |out[i]| ensures out[i][j] <= 9 {
      var k := Block(|g|, i) + Block(|g[0]|, j);
      if k > 0 {
        BumpTimesRange(g[Offset(|g|, i)][Offset(|g[0]|, j)], k);
      }
    }
  }

  // Dijkstra's algorithm of part A.

  /** Row-major order on cells: by row, then by column, the order Python compares tuples in. */
  predicate Before(a: Cell, b: Cell) {
    a.0 < b.0 || (a.0 == b.0 && a.1 < b.1)
  }

  /** The cells of a `rows` by `cols` grid, row by row. */
  function RowMajorCells(rows: nat, cols: nat): (r: seq<Cell>)
    ensures |r| == rows * cols
  {
    if rows == 0 then [] else RowMajorCells(rows - 1, cols) + seq(cols, j => (rows - 1, j))
  }

  /** The row-major list holds exactly the cells of the grid, each once, in increasing order. */
  lemma {:induction false} RowMajorCellsAre(rows: nat, cols: nat)
    ensures forall c :: c in RowMajorCells(rows, cols) <==> 0 <= c.0 < rows && 0 <= c.1 < cols
    ensures forall a, b :: 0 <= a < b < |RowMajorCells(rows, cols)| ==>
      Before(RowMajorCells(rows, cols)[a], RowMajorCells(rows, cols)[b])
  {
    if rows > 0 {
      RowMajorCellsAre(rows - 1, cols);
      var init, last := RowMajorCells(rows - 1, cols), seq(cols, j => (rows - 1, j));
      var r := RowMajorCells(rows, cols);
      assert r == init + last;
      forall c ensures c in r <==> 0 <= c.0 < rows && 0 <= c.1 < cols {
        if c.0 == rows - 1 && 0 <= c.1 < cols {
          assert last[c.1] == c;
        }
      }
      forall a, b | 0 <= a < b < |r| ensures Before(r[a], r[b]) {
        if a < |init| && b >= |init| {
          assert r[a] in init;
        }
      }
    }
  }

  /** The nested loops that build `unvisited_nodes`: every `(i, j)` with `j` below the width of
      row `i`, row by row. */
  method CellList(g: seq<seq<nat>>) returns (cells: seq<Cell>)
    requires Rectangular(g)
    ensures cells == RowMajorCells(|g|, |g[0]|)
  {
    cells := [];
    for i := 0 to |g|
      invariant cells == RowMajorCells(i, |g[0]|)
    {
      for j := 0 to |g[i]|
        invariant cells == RowMajorCells(i, |g[0]|) + seq(j, k => (i, k))
      {
        assert seq(j + 1, k => (i, k)) == seq(j, k => (i, k)) + [(i, j)];
        cells := cells + [(i, j)];
      }
    }
  }

  /** `shortest_path` before the search: `sys.maxsize` for every cell, then 0 for the start. */
  method InitialCosts(cells: seq<Cell>, start: Cell) returns (shortest: map<Cell, int>)
    ensures forall c :: c in shortest <==> c in cells || c == start
    ensures shortest[start] == 0
    ensures forall c :: c in cells && c != start ==> shortest[c] == MaxSize
  {
    shortest := map[];
    for k := 0 to |cells|
      invariant forall c :: c in shortest <==> c in cells[..k]
      invariant forall c :: c in shortest ==> shortest[c] == MaxSize
    {
      assert cells[..k + 1] == cells[..k] + [cells[k]];
      shortest := shortest[cells[k] := MaxSize];
    }
    assert cells[..|cells|] == cells;
    shortest := shortest[start := 0];
  }

  /** The scan for `current_min_node`: the first unvisited cell, in list order, whose cost is
      lowest; a later cell takes over only when strictly cheaper. */
  method FirstMin(unvisited: seq<Cell>, shortest: map<Cell, int>) returns (m: Cell)
    requires |unvisited| > 0 && forall k :: 0 <= k < |unvisited| ==> unvisited[k] in shortest
    ensures m in unvisited
    ensures forall k :: 0 <= k < |unvisited| ==> shortest[m] <= shortest[unvisited[k]]
    ensures exists k ::
      0 <= k < |unvisited| && unvisited[k] == m && forall j :: 0 <= j < k ==> shortest[m] < shortest[unvisited[j]]
  {
    m := unvisited[0];
    ghost var at := 0;
    for k := 1 to |unvisited|
      invariant 0 <= at < k && unvisited[at] == m
      invariant forall j :: 0 <= j < k ==> shortest[m] <= shortest[unvisited[j]]
      invariant forall j :: 0 <= j < at ==> shortest[m] < shortest[unvisited[j]]
    {
      if shortest[unvisited[k]] < shortest[m] {
        m := unvisited[k];
        at := k;
      }
    }
  }

  /** The first position of `x` in `s`. */
  function IndexOf(s: seq<Cell>, x: Cell): (i: nat)
    requires x in s
    ensures i < |s| && s[i] == x && x !in s[..i]
  {
    if s[0] == x then 0 else
      var i := IndexOf(s[1..], x);
      assert s[..i + 1] == [s[0]] + s[1..][..i];
      i + 1
  }

  /** `list.remove`: the list without the first occurrence of `x`, the rest in order. */
  function RemoveFirst(s: seq<Cell>, x: Cell): (r: seq<Cell>)
    ensures x in s ==> r == s[..IndexOf(s, x)] + s[IndexOf(s, x) + 1..]
    ensures x !in s ==> r == s
  {
    if s == [] then []
    else if s[0] == x then s[1..]
    else
      var u := s[1..];
      var t := RemoveFirst(u, x);
      assert x in s ==> [s[0]] + t == s[..IndexOf(s, x)] + s[IndexOf(s, x) + 1..] by {
        if x in s {
          var i := IndexOf(u, x);
          var j := i + 1;
          assert IndexOf(s, x) == j;
          assert s[..j] == [s[0]] + u[..i];
          assert s[j + 1..] == u[j..];
        }
      }
      [s[0]] + t
  }

  /** A neighbour whose cost the relaxation of `u` lowers. */
  predicate Improves(g: seq<seq<nat>>, shortest: map<Cell, int>, u: Cell, ns: seq<Cell>, v: Cell)
    requires Rectangular(g)
  {
    v in ns && u in shortest && v in shortest && InGrid(g, v) && shortest[u] + Risk(g, v) < shortest[v]
  }

  /** The relaxation loop: each neighbour `n` reached through `u` more cheaply than its cost so
      far gets that cost and `u` as its previous node; nothing else changes. */
  method Relax(g: seq<seq<nat>>, u: Cell, ns: seq<Cell>, shortest0: map<Cell, int>, previous0: map<Cell, Cell>)
    returns (shortest: map<Cell, int>, previous: map<Cell, Cell>)
    requires Rectangular(g) && u in shortest0
    requires forall k :: 0 <= k < |ns| ==> InGrid(g, ns[k]) && ns[k] in shortest0 && ns[k] != u
    requires forall a, b :: 0 <= a < b < |ns| ==> ns[a] != ns[b]
    ensures shortest.Keys == shortest0.Keys
    ensures forall v :: v in shortest0 ==>
      shortest[v] == if Improves(g, shortest0, u, ns, v) then shortest0[u] + Risk(g, v) else shortest0[v]
    ensures forall v :: v in previous <==> v in previous0 || Improves(g, shortest0, u, ns, v)
    ensures forall v :: v in previous ==>
      previous[v] == if Improves(g, shortest0, u, ns, v) then u else previous0[v]
  {
    shortest, previous := shortest0, previous0;
    for k := 0 to |ns|
      invariant shortest.Keys == shortest0.Keys && shortest[u] == shortest0[u]
      invariant forall v :: v in shortest0 ==>
        shortest[v] == if Improves(g, shortest0, u, ns[..k], v) then shortest0[u] + Risk(g, v) else shortest0[v]
      invariant forall v :: v in previous <==> v in previous0 || Improves(g, shortest0, u, ns[..k], v)
      invariant forall v :: v in previous ==>
        previous[v] == if Improves(g, shortest0, u, ns[..k], v) then u else previous0[v]
    {
      var n := ns[k];
      assert ns[..k + 1] == ns[..k] + [n];
      assert n !in ns[..k];
      var tmp := shortest[u] + Risk(g, n);
      if tmp < shortest[n] {
        shortest := shortest[n := tmp];
        previous := previous[n := u];
      }
    }
    assert ns[..|ns|] == ns;
  }

  /** What holds of the search each time round the loop. Settled cells (those no longer
      unvisited) have final costs, every edge out of a settled cell is relaxed, settled costs
      are at most unvisited ones, every finite cost is the risk of some walk, and every
      previous node is a settled neighbour through which the cost is reached. */
  ghost predicate Pending(g: seq<seq<nat>>, start: Cell, unvisited: seq<Cell>, shortest: map<Cell, int>,
                          previous: map<Cell, Cell>)
    requires Rectangular(g)
  {
    && (forall k :: 0 <= k < |unvisited| ==> InGrid(g, unvisited[k]))
    && (forall a, b :: 0 <= a < b < |unvisited| ==> Before(unvisited[a], unvisited[b]))
    && (forall c :: c in shortest <==> InGrid(g, c) || c == start)
    && shortest[start] == 0
    && (forall c :: c in shortest ==> 0 <= shortest[c] <= MaxSize)
    && (forall c :: InGrid(g, c) && c !in unvisited ==> NoCheaper(g, start, c, shortest[c]))
    && (forall x, c :: InGrid(g, x) && x !in unvisited && InGrid(g, c) && Adjacent(x, c) ==>
          shortest[c] <= shortest[x] + Risk(g, c))
    && (forall x, c :: InGrid(g, x) && x !in unvisited && c in unvisited ==> shortest[x] <= shortest[c])
    && (forall c :: InGrid(g, c) && shortest[c] < MaxSize ==> Reachable(g, start, c, shortest[c]))
    && (forall c :: c in previous ==>
          InGrid(g, c) && InGrid(g, previous[c]) && previous[c] !in unvisited && Adjacent(previous[c], c)
          && shortest[c] == shortest[previous[c]] + Risk(g, c))
  }

  /** The first cell of a walk that is still unvisited. */
  lemma FirstPending(p: seq<Cell>, unvisited: seq<Cell>) returns (k: nat)
    requires |p| > 0 && p[|p| - 1] in unvisited
    ensures k < |p| && p[k] in unvisited && forall i :: 0 <= i < k ==> p[i] !in unvisited
  {
    k := 0;
    while p[k] !in unvisited
      invariant k < |p| && forall i :: 0 <= i < k ==> p[i] !in unvisited
      decreases |p| - k
    {
      k := k + 1;
    }
  }

  /** The heart of Dijkstra's algorithm: with risk levels never negative, an unvisited cell of
      lowest cost already has its final cost. Any walk to it leaves the settled cells at some
      first unvisited cell, which costs at least as much. */
  lemma SelectedIsFinal(g: seq<seq<nat>>, start: Cell, unvisited: seq<Cell>, shortest: map<Cell, int>,
                        previous: map<Cell, Cell>, u: Cell)
    requires Rectangular(g) && Pending(g, start, unvisited, shortest, previous)
    requires u in unvisited && forall k :: 0 <= k < |unvisited| ==> shortest[u] <= shortest[unvisited[k]]
    ensures NoCheaper(g, start, u, shortest[u])
  {
    forall p | IsPath(g, p, start, u) ensures shortest[u] <= PathRisk(g, p) {
      var k := FirstPending(p, unvisited);
      var y := p[k];
      assert shortest[u] <= shortest[y];
      if k == 0 {
        assert y == start;
      } else {
        var x := p[k - 1];
        PrefixPath(g, p, start, u, k);
        assert NoCheaper(g, start, x, shortest[x]);
        assert shortest[x] <= PathRisk(g, p[..k]);
        assert shortest[y] <= shortest[x] + Risk(g, y);
        PrefixRisk(g, p, k + 1);
        assert p[..k + 1][..k] == p[..k];
        assert PathRisk(g, p[..k + 1]) == PathRisk(g, p[..k]) + Risk(g, y);
      }
    }
  }

  /** The new costs and previous nodes after relaxing the neighbours of `u`, as `Relax` leaves them. */
  ghost predicate RelaxedFrom(g: seq<seq<nat>>, u: Cell, s: map<Cell, int>, pr: map<Cell, Cell>,
                              s2: map<Cell, int>, pr2: map<Cell, Cell>)
    requires Rectangular(g)
  {
    var ns := Neighbours(g, u);
    && s2.Keys == s.Keys
    && (forall v :: v in s ==> s2[v] == if Improves(g, s, u, ns, v) then s[u] + Risk(g, v) else s[v])
    && (forall v :: v in pr2 <==> v in pr || Improves(g, s, u, ns, v))
    && (forall v :: v in pr2 ==> pr2[v] == if Improves(g, s, u, ns, v) then u else pr[v])
  }

  /** Removing a cell from a list in increasing order keeps it increasing and drops just that cell. */
  lemma {:induction false} RemoveFromIncreasing(s: seq<Cell>, x: Cell)
    requires forall a, b :: 0 <= a < b < |s| ==> Before(s[a], s[b])
    ensures forall c :: c in RemoveFirst(s, x) <==> c in s && c != x
    ensures forall a, b :: 0 <= a < b < |RemoveFirst(s, x)| ==> Before(RemoveFirst(s, x)[a], RemoveFirst(s, x)[b])
  {
    if s != [] {
      var t := s[1..];
      HeadFirst(s);
      if s[0] != x {
        RemoveFromIncreasing(t, x);
        ConsIncreasing(s[0], RemoveFirst(t, x));
        assert RemoveFirst(s, x) == [s[0]] + RemoveFirst(t, x);
      } else {
        assert s[0] !in t;
      }
    }
  }

  /** In an increasing list the head comes before every later cell. */
  lemma HeadFirst(s: seq<Cell>)
    requires s != [] && forall a, b :: 0 <= a < b < |s| ==> Before(s[a], s[b])
    ensures forall a, b :: 0 <= a < b < |s[1..]| ==> Before(s[1..][a], s[1..][b])
    ensures forall c :: c in s[1..] ==> Before(s[0], c)
  {
    forall c | c in s[1..] ensures Before(s[0], c) {
      var k :| 0 <= k < |s[1..]| && s[1..][k] == c;
      assert s[k + 1] == c;
    }
  }

  lemma ConsIncreasing(h: Cell, t: seq<Cell>)
    requires forall a, b :: 0 <= a < b < |t| ==> Before(t[a], t[b])
    requires forall c :: c in t ==> Before(h, c)
    ensures forall a, b :: 0 <= a < b < |[h] + t| ==> Before(([h] + t)[a], ([h] + t)[b])
  {
    var r := [h] + t;
    forall a, b | 0 <= a < b < |r| ensures Before(r[a], r[b]) {
      if a == 0 {
        assert r[b] == t[b - 1] && t[b - 1] in t;
      } else {
        assert r[a] == t[a - 1] && r[b] == t[b - 1];
      }
    }
  }

  /** What one round of the loop starts from: `u` is the unvisited cell of lowest cost and the
      new maps are the old ones relaxed from `u`. */
  ghost predicate Round(g: seq<seq<nat>>, start: Cell, unvisited: seq<Cell>, s: map<Cell, int>, pr: map<Cell, Cell>,
                        u: Cell, s2: map<Cell, int>, pr2: map<Cell, Cell>)
    requires Rectangular(g)
  {
    && Pending(g, start, unvisited, s, pr)
    && u in unvisited && (forall k :: 0 <= k < |unvisited| ==> s[u] <= s[unvisited[k]])
    && RelaxedFrom(g, u, s, pr, s2, pr2)
  }

  /** Relaxing from `u` changes no settled cost, not even that of `u`, and lowers no cost below 0. */
  lemma RoundCosts(g: seq<seq<nat>>, start: Cell, unvisited: seq<Cell>, s: map<Cell, int>, pr: map<Cell, Cell>,
                   u: Cell, s2: map<Cell, int>, pr2: map<Cell, Cell>)
    requires Rectangular(g) && Round(g, start, unvisited, s, pr, u, s2, pr2)
    ensures s2[u] == s[u]
    ensures forall c :: InGrid(g, c) && c !in unvisited ==> s2[c] == s[c]
    ensures forall c :: c in s2 <==> InGrid(g, c) || c == start
    ensures s2[start] == 0
    ensures forall c :: c in s2 ==> 0 <= s2[c] <= s[c] <= MaxSize
  {
    NeighboursDistinct(g, u);
    forall c | InGrid(g, c) && c !in unvisited ensures s2[c] == s[c] {
      assert s[c] <= s[u];
    }
  }

  lemma RoundFinal(g: seq<seq<nat>>, start: Cell, unvisited: seq<Cell>, s: map<Cell, int>, pr: map<Cell, Cell>,
                   u: Cell, s2: map<Cell, int>, pr2: map<Cell, Cell>)
    requires Rectangular(g) && Round(g, start, unvisited, s, pr, u, s2, pr2)
    ensures forall c :: InGrid(g, c) && c !in RemoveFirst(unvisited, u) ==> NoCheaper(g, start, c, s2[c])
  {
    RemoveFromIncreasing(unvisited, u);
    SelectedIsFinal(g, start, unvisited, s, pr, u);
    RoundCosts(g, start, unvisited, s, pr, u, s2, pr2);
  }

  lemma RoundEdges(g: seq<seq<nat>>, start: Cell, unvisited: seq<Cell>, s: map<Cell, int>, pr: map<Cell, Cell>,
                   u: Cell, s2: map<Cell, int>, pr2: map<Cell, Cell>)
    requires Rectangular(g) && Round(g, start, unvisited, s, pr, u, s2, pr2)
    ensures forall x, c :: InGrid(g, x) && x !in RemoveFirst(unvisited, u) && InGrid(g, c) && Adjacent(x, c) ==>
      s2[c] <= s2[x] + Risk(g, c)
    ensures forall x, c :: InGrid(g, x) && x !in RemoveFirst(unvisited, u) && c in RemoveFirst(unvisited, u) ==>
      s2[x] <= s2[c]
  {
    var ns := Neighbours(g, u);
    RemoveFromIncreasing(unvisited, u);
    RoundCosts(g, start, unvisited, s, pr, u, s2, pr2);
    forall x, c | InGrid(g, x) && x !in RemoveFirst(unvisited, u) && InGrid(g, c) && Adjacent(x, c)
      ensures s2[c] <= s2[x] + Risk(g, c)
    {
      if x == u {
        assert c in ns;
      }
    }
  }

  lemma RoundSound(g: seq<seq<nat>>, start: Cell, unvisited: seq<Cell>, s: map<Cell, int>, pr: map<Cell, Cell>,
                   u: Cell, s2: map<Cell, int>, pr2: map<Cell, Cell>)
    requires Rectangular(g) && Round(g, start, unvisited, s, pr, u, s2, pr2)
    ensures forall c :: InGrid(g, c) && s2[c] < MaxSize ==> Reachable(g, start, c, s2[c])
  {
    var ns := Neighbours(g, u);
    RoundCosts(g, start, unvisited, s, pr, u, s2, pr2);
    forall c | InGrid(g, c) && s2[c] < MaxSize ensures Reachable(g, start, c, s2[c]) {
      if Improves(g, s, u, ns, c) {
        ReachableSnoc(g, start, u, s[u], c);
      } else {
        assert s2[c] == s[c];
      }
    }
  }

  lemma RoundPrevious(g: seq<seq<nat>>, start: Cell, unvisited: seq<Cell>, s: map<Cell, int>, pr: map<Cell, Cell>,
                      u: Cell, s2: map<Cell, int>, pr2: map<Cell, Cell>)
    requires Rectangular(g) && Round(g, start, unvisited, s, pr, u, s2, pr2)
    ensures forall c :: c in pr2 ==>
      InGrid(g, c) && InGrid(g, pr2[c]) && pr2[c] !in RemoveFirst(unvisited, u) && Adjacent(pr2[c], c)
      && s2[c] == s2[pr2[c]] + Risk(g, c)
  {
    var ns := Neighbours(g, u);
    RemoveFromIncreasing(unvisited, u);
    RoundCosts(g, start, unvisited, s, pr, u, s2, pr2);
    forall c | c in pr2
      ensures InGrid(g, c) && InGrid(g, pr2[c]) && pr2[c] !in RemoveFirst(unvisited, u) && Adjacent(pr2[c], c)
      ensures s2[c] == s2[pr2[c]] + Risk(g, c)
    {
      if Improves(g, s, u, ns, c) {
        assert pr2[c] == u;
      } else {
        assert pr2[c] == pr[c] && s2[c] == s[c];
      }
    }
  }

  /** One round of the loop keeps `Pending`, with `u` moved to the settled cells. */
  lemma DijkstraStep(g: seq<seq<nat>>, start: Cell, unvisited: seq<Cell>, s: map<Cell, int>, pr: map<Cell, Cell>,
                     u: Cell, s2: map<Cell, int>, pr2: map<Cell, Cell>)
    requires Rectangular(g) && Round(g, start, unvisited, s, pr, u, s2, pr2)
    ensures Pending(g, start, RemoveFirst(unvisited, u), s2, pr2)
  {
    var rest := RemoveFirst(unvisited, u);
    RemoveFromIncreasing(unvisited, u);
    assert forall k :: 0 <= k < |rest| ==> rest[k] in unvisited;
    RoundCosts(g, start, unvisited, s, pr, u, s2, pr2);
    RoundFinal(g, start, unvisited, s, pr, u, s2, pr2);
    RoundEdges(g, start, unvisited, s, pr, u, s2, pr2);
    RoundSound(g, start, unvisited, s, pr, u, s2, pr2);
    RoundPrevious(g, start, unvisited, s, pr, u, s2, pr2);
  }

  /** Before the first round nothing is settled and only the start has a finite cost. */
  lemma DijkstraInit(g: seq<seq<nat>>, start: Cell, cells: seq<Cell>, shortest: map<Cell, int>)
    requires Rectangular(g) && cells == RowMajorCells(|g|, |g[0]|)
    requires forall c :: c in shortest <==> c in cells || c == start
    requires shortest[start] == 0
    requires forall c :: c in cells && c != start ==> shortest[c] == MaxSize
    ensures Pending(g, start, cells, shortest, map[])
  {
    RowMajorCellsAre(|g|, |g[0]|);
    forall c | InGrid(g, c) && shortest[c] < MaxSize ensures Reachable(g, start, c, shortest[c]) {
      assert c == start && IsPath(g, [c], start, c);
    }
  }

  /** `dijkstra`: the previous node and the lowest cost of every cell, by repeatedly settling the
      first unvisited cell of lowest cost and relaxing its neighbours. Every cost is a lower
      bound on the risk of every walk from the start; every cost below `sys.maxsize` is the
      risk of some walk; and the loop runs once per cell of the grid. */
  method Dijkstra(g: seq<seq<nat>>, start: Cell) returns (previous: map<Cell, Cell>, shortest: map<Cell, int>,
                                                           ghost rounds: nat)
    requires Rectangular(g)
    ensures forall c :: c in shortest <==> InGrid(g, c) || c == start
    ensures shortest[start] == 0
    ensures forall c :: InGrid(g, c) ==> NoCheaper(g, start, c, shortest[c])
    ensures forall c :: InGrid(g, c) && shortest[c] < MaxSize ==> Reachable(g, start, c, shortest[c])
    ensures forall c :: c in previous ==>
      InGrid(g, c) && InGrid(g, previous[c]) && Adjacent(previous[c], c)
      && shortest[c] == shortest[previous[c]] + Risk(g, c)
    ensures rounds == |g| * |g[0]|
  {
    var unvisited := CellList(g);
    shortest := InitialCosts(unvisited, start);
    previous := map[];
    DijkstraInit(g, start, unvisited, shortest);
    rounds := 0;
    while unvisited != []
      invariant Pending(g, start, unvisited, shortest, previous)
      invariant rounds + |unvisited| == |g| * |g[0]|
      decreases |unvisited|
    {
      var u := FirstMin(unvisited, shortest);
      var ns := Neighbours(g, u);
      NeighboursDistinct(g, u);
      var s2, p2 := Relax(g, u, ns, shortest, previous);
      DijkstraStep(g, start, unvisited, shortest, previous, u, s2, p2);
      RemoveFromIncreasing(unvisited, u);
      unvisited := RemoveFirst(unvisited, u);
      shortest, previous := s2, p2;
      rounds := rounds + 1;
    }
  }

  // The frontier search of part B.

  /** `a` is `b` or comes before it in row-major order. */
  predicate NotAfter(a: Cell, b: Cell) {
    a == b || Before(a, b)
  }

  /** A non-empty frontier has a least cell. */
  lemma {:induction false} LeastExists(m: multiset<Cell>) returns (c: Cell)
    requires |m| > 0
    ensures c in m && forall x :: x in m ==> NotAfter(c, x)
    decreases |m|
  {
    var x :| x in m;
    var rest := m - multiset{x};
    if |rest| == 0 {
      c := x;
      forall y | y in m ensures NotAfter(c, y) {
        assert rest[y] == m[y] - (if y == x then 1 else 0);
      }
    } else {
      var c' := LeastExists(rest);
      c := if NotAfter(x, c') then x else c';
      forall y | y in m ensures NotAfter(c, y) {
        if y != x {
          assert y in rest;
        }
      }
    }
  }

  /** `PriorityQueue.get`. `astar` calls `put(cell, priority)`, and the second argument of
      `put` is the queue's `block` flag, so the queue orders entries by the cell tuples
      themselves: `get` takes out one entry of the least cell in row-major order. */
  method Pop(frontier: multiset<Cell>) returns (c: Cell, rest: multiset<Cell>)
    requires |frontier| > 0
    ensures c in frontier && forall x :: x in frontier ==> NotAfter(c, x)
    ensures rest == frontier - multiset{c}
  {
    ghost var least := LeastExists(frontier);
    c :| c in frontier && forall x :: x in frontier ==> NotAfter(c, x);
    rest := frontier - multiset{c};
  }

  /** A neighbour that `astar` reprices through `curr`: one without a cost yet, or one that is
      reached more cheaply. */
  predicate Better(g: seq<seq<nat>>, cost: map<Cell, nat>, curr: Cell, ns: seq<Cell>, v: Cell)
    requires Rectangular(g)
  {
    v in ns && curr in cost && InGrid(g, v) && (v !in cost || cost[curr] + Risk(g, v) < cost[v])
  }

  /** The cells of `cells` without a cost yet. */
  ghost function Unpriced(cost: map<Cell, nat>, cells: seq<Cell>): nat {
    if cells == [] then 0
    else Unpriced(cost, cells[..|cells| - 1]) + (if cells[|cells| - 1] in cost then 0 else 1)
  }

  /** The sum of the costs given to the cells of `cells`. */
  ghost function Potential(cost: map<Cell, nat>, cells: seq<Cell>): nat {
    if cells == [] then 0
    else
      var last := cells[|cells| - 1];
      Potential(cost, cells[..|cells| - 1]) + (if last in cost then cost[last] else 0)
  }

  /** Lowering costs and adding cells never raises the number of unpriced cells; a cell newly
      priced lowers it; with no cell newly priced, the potential does not rise, and a cell
      whose cost is lowered lowers it. */
  lemma {:induction false} Lowered(cost0: map<Cell, nat>, cost: map<Cell, nat>, cells: seq<Cell>)
    requires forall v :: v in cost0 ==> v in cost && cost[v] <= cost0[v]
    ensures Unpriced(cost, cells) <= Unpriced(cost0, cells)
    ensures (exists k :: 0 <= k < |cells| && cells[k] in cost && cells[k] !in cost0) ==>
      Unpriced(cost, cells) < Unpriced(cost0, cells)
    ensures (forall k :: 0 <= k < |cells| && cells[k] in cost ==> cells[k] in cost0) ==>
      Potential(cost, cells) <= Potential(cost0, cells)
    ensures ((forall k :: 0 <= k < |cells| && cells[k] in cost ==> cells[k] in cost0) &&
             (exists k :: 0 <= k < |cells| && cells[k] in cost0 && cost[cells[k]] < cost0[cells[k]])) ==>
      Potential(cost, cells) < Potential(cost0, cells)
  {
    if cells != [] {
      var init := cells[..|cells| - 1];
      Lowered(cost0, cost, init);
      var n := |cells| - 1;
      forall k | 0 <= k < |init| ensures init[k] == cells[k] {
      }
      if exists k :: 0 <= k < |cells| && cells[k] in cost && cells[k] !in cost0 {
        var k :| 0 <= k < |cells| && cells[k] in cost && cells[k] !in cost0;
        if k < n {
          assert init[k] == cells[k];
        }
      }
      if exists k :: 0 <= k < |cells| && cells[k] in cost0 && cost[cells[k]] < cost0[cells[k]] {
        var k :| 0 <= k < |cells| && cells[k] in cost0 && cost[cells[k]] < cost0[cells[k]];
        if k < n {
          assert init[k] == cells[k];
        }
      }
    }
  }

  /** The measure of the search, compared lexicographically: unpriced cells, then potential. */
  ghost predicate Progress(cost: map<Cell, nat>, cost0: map<Cell, nat>, cells: seq<Cell>) {
    Unpriced(cost, cells) < Unpriced(cost0, cells)
    || (Unpriced(cost, cells) == Unpriced(cost0, cells) && Potential(cost, cells) < Potential(cost0, cells))
  }

  /** The state after the neighbours `ns` of `curr` have been explored from `cost0`, `path0`
      and `frontier0`. */
  ghost predicate Explored(g: seq<seq<nat>>, curr: Cell, ns: seq<Cell>, cost0: map<Cell, nat>,
                           path0: map<Cell, Option<Cell>>, frontier0: multiset<Cell>,
                           cost: map<Cell, nat>, path: map<Cell, Option<Cell>>, frontier: multiset<Cell>)
    requires Rectangular(g)
  {
    && (forall v :: v in cost <==> v in cost0 || Better(g, cost0, curr, ns, v))
    && (forall v :: v in cost ==>
          cost[v] == if Better(g, cost0, curr, ns, v) then cost0[curr] + Risk(g, v) else cost0[v])
    && (forall v :: v in path <==> v in path0 || Better(g, cost0, curr, ns, v))
    && (forall v :: v in path ==> path[v] == if Better(g, cost0, curr, ns, v) then Some(curr) else path0[v])
    && (forall v :: frontier[v] == frontier0[v] + if Better(g, cost0, curr, ns, v) then 1 else 0)
  }

  /** One more neighbour `ns[k]`: it is better reached through `curr` exactly when it has no
      cost yet or a higher one, and no other cell changes its standing. */
  lemma BetterSnoc(g: seq<seq<nat>>, curr: Cell, ns: seq<Cell>, k: nat, cost0: map<Cell, nat>, cost: map<Cell, nat>)
    requires Rectangular(g) && curr in cost0 && k < |ns| && InGrid(g, ns[k]) && ns[k] != curr && ns[k] !in ns[..k]
    requires forall v :: v in cost <==> v in cost0 || Better(g, cost0, curr, ns[..k], v)
    requires forall v :: v in cost ==>
      cost[v] == if Better(g, cost0, curr, ns[..k], v) then cost0[curr] + Risk(g, v) else cost0[v]
    ensures curr in cost && cost[curr] == cost0[curr]
    ensures (ns[k] !in cost || cost[curr] + Risk(g, ns[k]) < cost[ns[k]]) <==> Better(g, cost0, curr, ns[..k + 1], ns[k])
    ensures forall v :: v != ns[k] ==> (Better(g, cost0, curr, ns[..k + 1], v) <==> Better(g, cost0, curr, ns[..k], v))
    ensures !Better(g, cost0, curr, ns[..k], ns[k])
  {
    assert ns[..k + 1] == ns[..k] + [ns[k]];
  }

  /** Exploring one more neighbour `ns[k]` that is better reached through `curr`. */
  lemma ExploredAdd(g: seq<seq<nat>>, curr: Cell, ns: seq<Cell>, k: nat, cost0: map<Cell, nat>,
                    path0: map<Cell, Option<Cell>>, frontier0: multiset<Cell>,
                    cost: map<Cell, nat>, path: map<Cell, Option<Cell>>, frontier: multiset<Cell>)
    requires Rectangular(g) && curr in cost0 && k < |ns| && InGrid(g, ns[k]) && ns[k] != curr && ns[k] !in ns[..k]
    requires Explored(g, curr, ns[..k], cost0, path0, frontier0, cost, path, frontier)
    requires ns[k] !in cost || cost[curr] + Risk(g, ns[k]) < cost[ns[k]]
    ensures curr in cost && cost[curr] == cost0[curr]
    ensures Explored(g, curr, ns[..k + 1], cost0, path0, frontier0, cost[ns[k] := cost[curr] + Risk(g, ns[k])],
                     path[ns[k] := Some(curr)], frontier + multiset{ns[k]})
  {
    BetterSnoc(g, curr, ns, k, cost0, cost);
  }

  /** Exploring one more neighbour `ns[k]` that is not better reached through `curr`. */
  lemma ExploredKeep(g: seq<seq<nat>>, curr: Cell, ns: seq<Cell>, k: nat, cost0: map<Cell, nat>,
                     path0: map<Cell, Option<Cell>>, frontier0: multiset<Cell>,
                     cost: map<Cell, nat>, path: map<Cell, Option<Cell>>, frontier: multiset<Cell>)
    requires Rectangular(g) && curr in cost0 && k < |ns| && InGrid(g, ns[k]) && ns[k] != curr && ns[k] !in ns[..k]
    requires Explored(g, curr, ns[..k], cost0, path0, frontier0, cost, path, frontier)
    requires !(ns[k] !in cost || cost[curr] + Risk(g, ns[k]) < cost[ns[k]])
    ensures Explored(g, curr, ns[..k + 1], cost0, path0, frontier0, cost, path, frontier)
  {
    BetterSnoc(g, curr, ns, k, cost0, cost);
  }

  /** The loop over the neighbours of `curr` in `astar`: each neighbour that is better reached
      through `curr` gets that cost, is put on the frontier and records `curr` as where it
      came from. When anything changed, the measure of the search went down. */
  method Explore(g: seq<seq<nat>>, curr: Cell, ns: seq<Cell>, cost0: map<Cell, nat>,
                 path0: map<Cell, Option<Cell>>, frontier0: multiset<Cell>, ghost cells: seq<Cell>)
    returns (cost: map<Cell, nat>, path: map<Cell, Option<Cell>>, frontier: multiset<Cell>)
    requires Rectangular(g) && curr in cost0
    requires forall k :: 0 <= k < |ns| ==> InGrid(g, ns[k]) && ns[k] != curr && ns[k] in cells
    requires forall a, b :: 0 <= a < b < |ns| ==> ns[a] != ns[b]
    ensures Explored(g, curr, ns, cost0, path0, frontier0, cost, path, frontier)
    ensures (cost == cost0 && frontier == frontier0) || Progress(cost, cost0, cells)
  {
    cost, path, frontier := cost0, path0, frontier0;
    for k := 0 to |ns|
      invariant Explored(g, curr, ns[..k], cost0, path0, frontier0, cost, path, frontier)
    {
      var next := ns[k];
      assert next !in ns[..k];
      BetterSnoc(g, curr, ns, k, cost0, cost);
      var newCost := cost[curr] + Risk(g, next);
      if next !in cost || newCost < cost[next] {
        ExploredAdd(g, curr, ns, k, cost0, path0, frontier0, cost, path, frontier);
        cost := cost[next := newCost];
        frontier := frontier + multiset{next};
        path := path[next := Some(curr)];
      } else {
        ExploredKeep(g, curr, ns, k, cost0, path0, frontier0, cost, path, frontier);
      }
    }
    assert ns[..|ns|] == ns;
    ExploreMeasure(g, curr, ns, cost0, path0, frontier0, cost, path, frontier, cells);
  }

  /** Exploring either changes nothing or lowers the measure of the search. */
  lemma ExploreMeasure(g: seq<seq<nat>>, curr: Cell, ns: seq<Cell>, cost0: map<Cell, nat>,
                       path0: map<Cell, Option<Cell>>, frontier0: multiset<Cell>,
                       cost: map<Cell, nat>, path: map<Cell, Option<Cell>>, frontier: multiset<Cell>,
                       cells: seq<Cell>)
    requires Rectangular(g) && curr in cost0
    requires forall k :: 0 <= k < |ns| ==> ns[k] in cells
    requires Explored(g, curr, ns, cost0, path0, frontier0, cost, path, frontier)
    ensures (cost == cost0 && frontier == frontier0) || Progress(cost, cost0, cells)
  {
    Lowered(cost0, cost, cells);
    if v :| Better(g, cost0, curr, ns, v) {
      var k :| 0 <= k < |cells| && cells[k] == v;
      if v !in cost0 {
        assert cells[k] in cost;
      } else if !(forall k :: 0 <= k < |cells| && cells[k] in cost ==> cells[k] in cost0) {
      } else {
        assert cost[cells[k]] < cost0[cells[k]];
      }
    } else {
      assert cost == cost0;
      assert frontier == frontier0;
    }
  }

  /** The costs `astar` has found: every priced cell is in the grid, the start costs 0, and
      every cell on the frontier is priced. */
  ghost predicate Priced(g: seq<seq<nat>>, start: Cell, frontier: multiset<Cell>, cost: map<Cell, nat>)
    requires Rectangular(g)
  {
    && (forall c :: c in cost ==> InGrid(g, c))
    && start in cost && cost[start] == 0
    && (forall c :: c in frontier ==> c in cost)
  }

  /** Every cost is the risk of some walk from the start. */
  ghost predicate Sound(g: seq<seq<nat>>, start: Cell, cost: map<Cell, nat>)
    requires Rectangular(g)
  {
    forall c :: c in cost ==> Reachable(g, start, c, cost[c])
  }

  /** The previous-cell map: it has the same keys as the costs, only the start has no previous
      cell, and every other cell costs at least its previous cell's cost plus its own level. */
  ghost predicate Linked(g: seq<seq<nat>>, start: Cell, cost: map<Cell, nat>, path: map<Cell, Option<Cell>>)
    requires Rectangular(g)
  {
    && (forall c :: c in path <==> c in cost)
    && (forall c :: c in path ==> (path[c].None? <==> c == start))
    && (forall c :: c in path && path[c].Some? ==>
          path[c].value in cost && InGrid(g, c) && Adjacent(path[c].value, c)
          && cost[c] >= cost[path[c].value] + Risk(g, c))
  }

  /** Every priced cell off the frontier has had its neighbours explored: each of them is priced
      at no more than that cell's cost plus the neighbour's level. */
  ghost predicate Closed(g: seq<seq<nat>>, frontier: multiset<Cell>, cost: map<Cell, nat>)
    requires Rectangular(g)
  {
    forall c, n :: c in cost && c !in frontier && InGrid(g, n) && Adjacent(c, n) ==>
      n in cost && cost[n] <= cost[c] + Risk(g, n)
  }

  /** What holds of `astar` each time round its loop. */
  ghost predicate Searching(g: seq<seq<nat>>, start: Cell, frontier: multiset<Cell>, cost: map<Cell, nat>,
                            path: map<Cell, Option<Cell>>)
    requires Rectangular(g)
  {
    Priced(g, start, frontier, cost) && Sound(g, start, cost) && Linked(g, start, cost, path) && Closed(g, frontier, cost)
  }

  /** The goal `part_b` passes: the bottom-right cell, the last cell in row-major order. */
  predicate IsLast(g: seq<seq<nat>>, goal: Cell)
    requires |g| > 0
  {
    |g[0]| > 0 && goal == (|g| - 1, |g[0]| - 1)
  }

  /** Exploring the cell taken off the frontier keeps the costs priced, never raises one, and
      changes only the cells it reached more cheaply. */
  lemma StepPriced(g: seq<seq<nat>>, start: Cell, frontier: multiset<Cell>, cost: map<Cell, nat>,
                   path: map<Cell, Option<Cell>>, curr: Cell, ns: seq<Cell>,
                   frontier2: multiset<Cell>, cost2: map<Cell, nat>, path2: map<Cell, Option<Cell>>)
    requires Rectangular(g) && Priced(g, start, frontier, cost) && curr in frontier
    requires Explored(g, curr, ns, cost, path, frontier - multiset{curr}, cost2, path2, frontier2)
    ensures Priced(g, start, frontier2, cost2)
    ensures forall c :: c in cost ==> c in cost2 && cost2[c] <= cost[c]
    ensures forall c :: c in cost2 && !Better(g, cost, curr, ns, c) ==> c in cost && cost2[c] == cost[c]
  {
    assert !Better(g, cost, curr, ns, start);
  }

  lemma StepSound(g: seq<seq<nat>>, start: Cell, frontier: multiset<Cell>, cost: map<Cell, nat>,
                  path: map<Cell, Option<Cell>>, curr: Cell, ns: seq<Cell>,
                  frontier2: multiset<Cell>, cost2: map<Cell, nat>, path2: map<Cell, Option<Cell>>)
    requires Rectangular(g) && Sound(g, start, cost) && curr in cost
    requires forall k :: 0 <= k < |ns| ==> Adjacent(curr, ns[k])
    requires Explored(g, curr, ns, cost, path, frontier, cost2, path2, frontier2)
    ensures Sound(g, start, cost2)
  {
    forall c | c in cost2 ensures Reachable(g, start, c, cost2[c]) {
      if Better(g, cost, curr, ns, c) {
        ReachableSnoc(g, start, curr, cost[curr], c);
      }
    }
  }

  lemma StepLinked(g: seq<seq<nat>>, start: Cell, cost: map<Cell, nat>,
                   path: map<Cell, Option<Cell>>, curr: Cell, ns: seq<Cell>, frontier: multiset<Cell>,
                   frontier2: multiset<Cell>, cost2: map<Cell, nat>, path2: map<Cell, Option<Cell>>)
    requires Rectangular(g) && Linked(g, start, cost, path) && start in cost && cost[start] == 0 && curr in cost
    requires forall k :: 0 <= k < |ns| ==> Adjacent(curr, ns[k])
    requires Explored(g, curr, ns, cost, path, frontier, cost2, path2, frontier2)
    requires forall c :: c in cost ==> c in cost2 && cost2[c] <= cost[c]
    requires forall c :: c in cost2 && !Better(g, cost, curr, ns, c) ==> c in cost && cost2[c] == cost[c]
    ensures Linked(g, start, cost2, path2)
  {
    assert !Better(g, cost, curr, ns, start);
    forall c | c in path2 && path2[c].Some?
      ensures path2[c].value in cost2 && InGrid(g, c) && Adjacent(path2[c].value, c)
      ensures cost2[c] >= cost2[path2[c].value] + Risk(g, c)
    {
      if !Better(g, cost, curr, ns, c) {
        assert path2[c] == path[c];
      }
    }
  }

  /** The neighbours of the explored cell are priced through it at no more than its cost plus
      their level. */
  lemma ClosedAtCurr(g: seq<seq<nat>>, cost: map<Cell, nat>, path: map<Cell, Option<Cell>>, curr: Cell,
                     ns: seq<Cell>, frontier: multiset<Cell>,
                     frontier2: multiset<Cell>, cost2: map<Cell, nat>, path2: map<Cell, Option<Cell>>)
    requires Rectangular(g) && InGrid(g, curr) && curr in cost
    requires forall n :: InGrid(g, n) && Adjacent(curr, n) ==> n in ns
    requires Explored(g, curr, ns, cost, path, frontier, cost2, path2, frontier2)
    requires cost2[curr] == cost[curr]
    ensures forall n :: InGrid(g, n) && Adjacent(curr, n) ==> n in cost2 && cost2[n] <= cost2[curr] + Risk(g, n)
  {
  }

  /** Cells already explored stay closed: their neighbours' costs only fall. */
  lemma ClosedElsewhere(g: seq<seq<nat>>, cost: map<Cell, nat>, path: map<Cell, Option<Cell>>, curr: Cell,
                        ns: seq<Cell>, frontier: multiset<Cell>,
                        frontier2: multiset<Cell>, cost2: map<Cell, nat>, path2: map<Cell, Option<Cell>>)
    requires Rectangular(g) && Closed(g, frontier, cost)
    requires Explored(g, curr, ns, cost, path, frontier - multiset{curr}, cost2, path2, frontier2)
    requires forall c :: c in cost ==> c in cost2 && cost2[c] <= cost[c]
    requires forall c :: c in cost2 && !Better(g, cost, curr, ns, c) ==> c in cost && cost2[c] == cost[c]
    ensures forall c, n :: c in cost2 && c != curr && c !in frontier2 && InGrid(g, n) && Adjacent(c, n) ==>
      n in cost2 && cost2[n] <= cost2[c] + Risk(g, n)
  {
    forall c, n | c in cost2 && c != curr && c !in frontier2 && InGrid(g, n) && Adjacent(c, n)
      ensures n in cost2 && cost2[n] <= cost2[c] + Risk(g, n)
    {
      assert (frontier - multiset{curr})[c] == frontier[c];
      assert c in cost && c !in frontier;
    }
  }

  /** One round of the loop keeps `Searching`. */
  lemma SearchStep(g: seq<seq<nat>>, start: Cell, frontier: multiset<Cell>, cost: map<Cell, nat>,
                   path: map<Cell, Option<Cell>>, curr: Cell, ns: seq<Cell>,
                   frontier2: multiset<Cell>, cost2: map<Cell, nat>, path2: map<Cell, Option<Cell>>)
    requires Rectangular(g) && Searching(g, start, frontier, cost, path) && curr in frontier
    requires forall k :: 0 <= k < |ns| ==> Adjacent(curr, ns[k])
    requires forall n :: InGrid(g, n) && Adjacent(curr, n) ==> n in ns
    requires Explored(g, curr, ns, cost, path, frontier - multiset{curr}, cost2, path2, frontier2)
    ensures Searching(g, start, frontier2, cost2, path2)
  {
    StepPriced(g, start, frontier, cost, path, curr, ns, frontier2, cost2, path2);
    StepSound(g, start, frontier - multiset{curr}, cost, path, curr, ns, frontier2, cost2, path2);
    StepLinked(g, start, cost, path, curr, ns, frontier - multiset{curr}, frontier2, cost2, path2);
    ClosedAtCurr(g, cost, path, curr, ns, frontier - multiset{curr}, frontier2, cost2, path2);
    ClosedElsewhere(g, cost, path, curr, ns, frontier, frontier2, cost2, path2);
  }

  /** A walk from the start whose every cell but the last is off the frontier reaches a priced
      cell whose cost is at most the walk's risk. */
  lemma {:induction false} ClosedWalk(g: seq<seq<nat>>, start: Cell, frontier: multiset<Cell>, cost: map<Cell, nat>,
                                      p: seq<Cell>, v: Cell)
    requires Rectangular(g) && Closed(g, frontier, cost) && start in cost && cost[start] == 0
    requires IsPath(g, p, start, v)
    requires forall i :: 0 <= i < |p| - 1 ==> p[i] !in frontier
    ensures v in cost && cost[v] <= PathRisk(g, p)
    decreases |p|
  {
    if |p| > 1 {
      var q, w := p[..|p| - 1], p[|p| - 2];
      PrefixPath(g, p, start, v, |p| - 1);
      ClosedWalk(g, start, frontier, cost, q, w);
      assert Adjacent(w, v);
    }
  }

  /** No cell of the grid comes after the bottom-right one. */
  lemma LastIsGreatest(g: seq<seq<nat>>, goal: Cell, x: Cell)
    requires Rectangular(g) && IsLast(g, goal) && InGrid(g, x) && NotAfter(goal, x)
    ensures x == goal
  {
  }

  /** A walk that enters `goal` only at its end and stays off a frontier holding nothing but
      cells after `goal`. */
  lemma FirstArrival(g: seq<seq<nat>>, start: Cell, frontier: multiset<Cell>, p: seq<Cell>, goal: Cell)
      returns (q: seq<Cell>)
    requires Rectangular(g) && IsLast(g, goal) && IsPath(g, p, start, goal)
    requires forall x :: x in frontier ==> NotAfter(goal, x)
    ensures IsPath(g, q, start, goal) && PathRisk(g, q) <= PathRisk(g, p)
    ensures forall i :: 0 <= i < |q| - 1 ==> q[i] !in frontier
  {
    var k := IndexOf(p, goal);
    PrefixPath(g, p, start, goal, k + 1);
    PrefixRisk(g, p, k + 1);
    q := p[..k + 1];
    forall i | 0 <= i < |q| - 1 ensures q[i] !in frontier {
      assert q[i] == p[i] && InGrid(g, p[i]);
      assert p[i] in p[..k];
      if q[i] in frontier {
        LastIsGreatest(g, goal, q[i]);
      }
    }
  }

  /** When the least cell of the frontier is the bottom-right goal, every walk to the goal can
      be cut short to one through explored cells, so the goal's cost is final. */
  lemma GoalSettled(g: seq<seq<nat>>, start: Cell, frontier: multiset<Cell>, cost: map<Cell, nat>, goal: Cell)
    requires Rectangular(g) && Closed(g, frontier, cost) && start in cost && cost[start] == 0 && IsLast(g, goal)
    requires goal in cost && forall x :: x in frontier ==> NotAfter(goal, x)
    ensures NoCheaper(g, start, goal, cost[goal])
  {
    forall p | IsPath(g, p, start, goal) ensures cost[goal] <= PathRisk(g, p) {
      var q := FirstArrival(g, start, frontier, p, goal);
      ClosedWalk(g, start, frontier, cost, q, goal);
    }
  }

  /** With the frontier empty every cell of the grid is priced at its lowest risk. */
  lemma FrontierEmpty(g: seq<seq<nat>>, start: Cell, cost: map<Cell, nat>, v: Cell)
    requires Rectangular(g) && Closed(g, multiset{}, cost) && start in cost && cost[start] == 0
    requires InGrid(g, start) && InGrid(g, v)
    ensures v in cost && NoCheaper(g, start, v, cost[v])
  {
    var p := StraightPath(g, start, v);
    ClosedWalk(g, start, multiset{}, cost, p, v);
    forall q | IsPath(g, q, start, v) ensures cost[v] <= PathRisk(g, q) {
      ClosedWalk(g, start, multiset{}, cost, q, v);
    }
  }

  /** The neighbours of a cell are grid cells listed in `cells`, each adjacent to it, and they
      are all of its adjacent grid cells. */
  lemma NeighboursListed(g: seq<seq<nat>>, curr: Cell, cells: seq<Cell>)
    requires Rectangular(g) && InGrid(g, curr) && cells == RowMajorCells(|g|, |g[0]|)
    ensures forall k :: 0 <= k < |Neighbours(g, curr)| ==>
      InGrid(g, Neighbours(g, curr)[k]) && Neighbours(g, curr)[k] != curr && Neighbours(g, curr)[k] in cells
      && Adjacent(curr, Neighbours(g, curr)[k])
    ensures forall a, b :: 0 <= a < b < |Neighbours(g, curr)| ==> Neighbours(g, curr)[a] != Neighbours(g, curr)[b]
    ensures forall n :: InGrid(g, n) && Adjacent(curr, n) ==> n in Neighbours(g, curr)
  {
    NeighboursDistinct(g, curr);
    RowMajorCellsAre(|g|, |g[0]|);
  }

  /** `astar`: a search from `start` that repeatedly takes the least cell off the frontier,
      stops when that cell is `goal`, and otherwise prices its neighbours through it. Every
      cost is the risk of some walk, the start costs 0 with no previous cell, and every other
      priced cell costs at least its previous cell's cost plus its own level. For the
      bottom-right goal of part B the goal's cost is the lowest risk of any walk to it. */
  method Astar(g: seq<seq<nat>>, start: Cell, goal: Cell) returns (path: map<Cell, Option<Cell>>, cost: map<Cell, nat>)
    requires Rectangular(g) && InGrid(g, start)
    ensures Priced(g, start, multiset{}, cost) && Sound(g, start, cost) && Linked(g, start, cost, path)
    ensures IsLast(g, goal) ==> goal in cost && NoCheaper(g, start, goal, cost[goal])
  {
    var frontier := multiset{start};
    path := map[start := None];
    cost := map[start := 0];
    ghost var cells := RowMajorCells(|g|, |g[0]|);
    RowMajorCellsAre(|g|, |g[0]|);
    assert IsPath(g, [start], start, start);
    while |frontier| > 0
      invariant Searching(g, start, frontier, cost, path)
      decreases Unpriced(cost, cells), Potential(cost, cells), |frontier|
    {
      var curr, rest := Pop(frontier);
      if curr == goal {
        if IsLast(g, goal) {
          GoalSettled(g, start, frontier, cost, goal);
        }
        return;
      }
      var ns := Neighbours(g, curr);
      NeighboursListed(g, curr, cells);
      var cost2, path2, frontier2 := Explore(g, curr, ns, cost, path, rest, cells);
      SearchStep(g, start, frontier, cost, path, curr, ns, frontier2, cost2, path2);
      cost, path, frontier := cost2, path2, frontier2;
    }
    if IsLast(g, goal) {
      FrontierEmpty(g, start, cost, goal);
    }
  }

  // The puzzle's two parts.

  /** The lowest total risk of a walk from `a` to `b`: some walk has it and none has less. */
  ghost predicate LowestRisk(g: seq<seq<nat>>, a: Cell, b: Cell, r: int)
    requires Rectangular(g)
  {
    Reachable(g, a, b, r) && NoCheaper(g, a, b, r)
  }

  /** Two lowest risks between the same cells are equal. */
  lemma LowestRiskUnique(g: seq<seq<nat>>, a: Cell, b: Cell, r1: int, r2: int)
    requires Rectangular(g) && LowestRisk(g, a, b, r1) && LowestRisk(g, a, b, r2)
    ensures r1 == r2
  {
    var p1 :| IsPath(g, p1, a, b) && PathRisk(g, p1) == r1;
    var p2 :| IsPath(g, p2, a, b) && PathRisk(g, p2) == r2;
  }

  /** `part_a`: Dijkstra's search from the top-left cell, read at the bottom-right one. The
      answer is no more than the risk of any walk, and it is the lowest risk whenever it is
      below the "unreached" sentinel, which it always is for a grid of digits that is not
      astronomically large. */
  method PartA(g: seq<seq<nat>>) returns (r: int)
    requires Rectangular(g) && |g[0]| > 0
    ensures NoCheaper(g, (0, 0), (|g| - 1, |g[0]| - 1), r)
    ensures r < MaxSize ==> LowestRisk(g, (0, 0), (|g| - 1, |g[0]| - 1), r)
    ensures Digits(g) && 9 * (|g| + |g[0]|) < MaxSize ==> r < MaxSize
  {
    var last := (|g| - 1, |g[0]| - 1);
    var _, shortest, _ := Dijkstra(g, (0, 0));
    r := shortest[last];
    if Digits(g) && 9 * (|g| + |g[0]|) < MaxSize {
      var p := StraightPath(g, (0, 0), last);
    }
  }

  /** `part_b`: the grid expanded five times each way, searched from its top-left cell to its
      bottom-right one; the answer is the lowest risk between them. */
  method PartB(g: seq<seq<nat>>) returns (r: nat)
    requires Rectangular(g) && |g[0]| > 0
    ensures Rectangular(Expansion(g))
    ensures LowestRisk(Expansion(g), (0, 0), (5 * |g| - 1, 5 * |g[0]| - 1), r)
  {
    var big := ExpandGraph(g);
    ExpansionShape(g, big);
    ExpansionUnique(g, big);
    var last := (|big| - 1, |big[0]| - 1);
    var _, cost := Astar(big, (0, 0), last);
    r := cost[last];
  }
}
