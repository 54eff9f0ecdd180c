/** Day 11: a grid of octopus energy levels. Every step raises each level by one; a level
    past 9 flashes, drops to 0 and raises its eight neighbours, which can flash in turn. */
module Day11 {
  import opened Common

  /** A grid position `(row, column)`. */
  type Cell = (int, int)

  /** The eight offsets `ff` recurses on, in the source's order. */
  const Directions: seq<Cell> := [(-1, 0), (1, 0), (0, -1), (0, 1), (1, 1), (-1, 1), (1, -1), (-1, -1)]

  /** The number of steps `part_a` simulates. */
  const PartASteps: nat := 100

  predicate InBounds(grid: array2<int>, x: int, y: int) {
    0 <= x < grid.Length0 && 0 <= y < grid.Length1
  }

  /** Every position of a `rows` by `cols` grid. */
  function Cells(rows: nat, cols: nat): set<Cell> {
    set i, j | 0 <= i < rows && 0 <= j < cols :: (i, j)
  }

  function Elements(s: seq<Cell>): set<Cell> {
    set c | c in s
  }

  predicate DistinctCells(s: seq<Cell>) {
    forall i, j :: 0 <= i < j < |s| ==> s[i] != s[j]
  }

  /** Every level is a digit, as the puzzle input gives them. */
  predicate Digits(grid: array2<int>)
    reads grid
  {
    forall i, j :: 0 <= i < grid.Length0 && 0 <= j < grid.Length1 ==> 0 <= grid[i, j] <= 9
  }

  /** `flashed` lists distinct positions of the grid, each of which is at 0. */
  predicate Flashed(grid: array2<int>, flashed: seq<Cell>)
    reads grid
  {
    && DistinctCells(flashed)
    && forall k :: 0 <= k < |flashed| ==>
         InBounds(grid, flashed[k].0, flashed[k].1) && grid[flashed[k].0, flashed[k].1] == 0
  }

  /** `ff` returns at once: the position is off the grid, or at 0 having flashed already. */
  predicate Skipped(grid: array2<int>, x: int, y: int, flashed: seq<Cell>)
    reads grid
  {
    !InBounds(grid, x, y) || (grid[x, y] == 0 && (x, y) in flashed)
  }

  /** The neighbour of `(x, y)` in direction `d`. */
  function Neighbour(x: int, y: int, d: nat): Cell
    requires d < |Directions|
  {
    (x + Directions[d].0, y + Directions[d].1)
  }

  // ---------------------------------------------------------------------------------------
  // One step as a function of the levels before it

  /** Two different positions that touch by a side or a corner. */
  predicate Adjacent(a: Cell, b: Cell) {
    a != b && -1 <= a.0 - b.0 <= 1 && -1 <= a.1 - b.1 <= 1
  }

  /** The positions of `s` next to `c`. */
  function Touching(c: Cell, s: set<Cell>): set<Cell> {
    set n | n in s && Adjacent(c, n)
  }

  /** How often flashes at the positions `s` raise `c`: once for each neighbour in `s`. */
  function Hits(c: Cell, s: set<Cell>): nat {
    |Touching(c, s)|
  }

  /** The energy levels of a `rows` by `cols` grid, by position. */
  datatype Levels = Levels(rows: nat, cols: nat, level: map<Cell, int>)

  /** Levels that are digits at exactly the positions of the grid. */
  ghost predicate ValidLevels(g: Levels) {
    && g.level.Keys == Cells(g.rows, g.cols)
    && forall c :: c in g.level ==> 0 <= g.level[c] <= 9
  }

  /** The levels the grid holds. */
  function Snapshot(grid: array2<int>): Levels
    reads grid
  {
    Levels(grid.Length0, grid.Length1, map c | c in Cells(grid.Length0, grid.Length1) :: grid[c.0, c.1])
  }

  /** The positions whose level reaches 10 when each is raised once and once more for each
      neighbour in `s`. */
  function Ignited(g: Levels, s: set<Cell>): set<Cell> {
    set c | c in g.level && g.level[c] + 1 + Hits(c, s) >= 10
  }

  /** Flashes that spread from `s`, one round of ignitions at a time, until no more ignite. */
  ghost function FlashedFrom(g: Levels, s: set<Cell>): set<Cell>
    requires s <= g.level.Keys && s <= Ignited(g, s)
    decreases |g.level.Keys - s|
  {
    var t := Ignited(g, s);
    if t <= s then s
    else
      IgnitedGrows(g, s, t);
      ProperSubsetSmaller(g.level.Keys - t, g.level.Keys - s);
      FlashedFrom(g, t)
  }

  /** The positions that flash in one step from levels `g`. */
  ghost function Flashes(g: Levels): set<Cell> {
    FlashedFrom(g, {})
  }

  /** The levels after one step: 0 where a position flashed, otherwise one more than before
      and one more for each neighbour that flashed. */
  ghost function After(g: Levels): Levels {
    var f := Flashes(g);
    Levels(g.rows, g.cols, map c | c in g.level :: if c in f then 0 else g.level[c] + 1 + Hits(c, f))
  }

  /** The levels after `n` steps. */
  ghost function Run(g: Levels, n: nat): Levels {
    if n == 0 then g else After(Run(g, n - 1))
  }

  /** The number of flashes in the first `n` steps. */
  ghost function FlashTotal(g: Levels, n: nat): nat {
    if n == 0 then 0 else FlashTotal(g, n - 1) + |Flashes(Run(g, n - 1))|
  }

  /** Step `k`, counting from 1, flashes every position. */
  ghost predicate Synchronised(g: Levels, k: nat) {
    k >= 1 && |Flashes(Run(g, k - 1))| == g.rows * g.cols
  }

  lemma SubsetCard(a: set<Cell>, b: set<Cell>)
    requires a <= b
    ensures |a| <= |b|
  {
    assert b == a + (b - a);
  }

  lemma ProperSubsetSmaller(a: set<Cell>, b: set<Cell>)
    requires a <= b && a != b
    ensures |a| < |b|
  {
    var c :| c in b && c !in a;
    SubsetCard(a, b - {c});
  }

  /** More flashing neighbours never raise a position less. */
  lemma HitsGrow(c: Cell, s: set<Cell>, t: set<Cell>)
    requires s <= t
    ensures Hits(c, s) <= Hits(c, t)
  {
    SubsetCard(Touching(c, s), Touching(c, t));
  }

  /** Ignition is monotone in the flashing neighbours. */
  lemma IgnitedGrows(g: Levels, s: set<Cell>, t: set<Cell>)
    requires s <= t
    ensures Ignited(g, s) <= Ignited(g, t)
  {
    forall c | c in Ignited(g, s)
      ensures c in Ignited(g, t)
    {
      HitsGrow(c, s, t);
    }
  }

  lemma {:induction false} FlashedFromLeast(g: Levels, s: set<Cell>, t: set<Cell>)
    requires s <= g.level.Keys && s <= Ignited(g, s)
    requires s <= t && Ignited(g, t) <= t
    ensures FlashedFrom(g, s) <= t
    decreases |g.level.Keys - s|
  {
    var u := Ignited(g, s);
    if !(u <= s) {
      IgnitedGrows(g, s, t);
      IgnitedGrows(g, s, u);
      ProperSubsetSmaller(g.level.Keys - u, g.level.Keys - s);
      FlashedFromLeast(g, u, t);
    }
  }

  lemma {:induction false} FlashedFromFixed(g: Levels, s: set<Cell>)
    requires s <= g.level.Keys && s <= Ignited(g, s)
    ensures Ignited(g, FlashedFrom(g, s)) == FlashedFrom(g, s)
    decreases |g.level.Keys - s|
  {
    var u := Ignited(g, s);
    if !(u <= s) {
      IgnitedGrows(g, s, u);
      ProperSubsetSmaller(g.level.Keys - u, g.level.Keys - s);
      FlashedFromFixed(g, u);
    }
  }

  /** The flashing positions are the least set closed under ignition: any set that contains
      every position it ignites contains them. */
  lemma FlashesLeast(g: Levels, t: set<Cell>)
    requires Ignited(g, t) <= t
    ensures Flashes(g) <= t
  {
    FlashedFromLeast(g, {}, t);
  }

  /** A position flashes exactly when its level, one, and one for each flashing neighbour
      reach 10. */
  lemma FlashesFixed(g: Levels)
    ensures Ignited(g, Flashes(g)) == Flashes(g)
  {
    FlashedFromFixed(g, {});
  }

  /** A step keeps levels digits on the same positions. */
  lemma AfterValid(g: Levels)
    requires ValidLevels(g)
    ensures ValidLevels(After(g))
  {
    var f := Flashes(g);
    FlashesFixed(g);
    forall c | c in After(g).level
      ensures 0 <= After(g).level[c] <= 9
    {
      if c !in f {
        assert c !in Ignited(g, f);
      }
    }
  }

  lemma {:induction false} RunValid(g: Levels, n: nat)
    requires ValidLevels(g)
    ensures ValidLevels(Run(g, n)) && Run(g, n).rows == g.rows && Run(g, n).cols == g.cols
  {
    if n > 0 {
      RunValid(g, n - 1);
      AfterValid(Run(g, n - 1));
    }
  }

  /** Steps keep the positions. */
  lemma {:induction false} RunKeys(g: Levels, n: nat)
    ensures Run(g, n).level.Keys == g.level.Keys
  {
    if n > 0 {
      RunKeys(g, n - 1);
    }
  }

  /** A step flashes each position at most once. */
  lemma FlashesBound(g: Levels)
    ensures |Flashes(g)| <= |g.level.Keys|
  {
    FlashesFixed(g);
    SubsetCard(Flashes(g), g.level.Keys);
  }

  /** Step `n + 1` flashes each position at most once. */
  lemma StepBound(g: Levels, n: nat)
    ensures |Flashes(Run(g, n))| <= |g.level.Keys|
  {
    RunKeys(g, n);
    FlashesBound(Run(g, n));
  }

  /** One more step adds at most one flash per position. */
  lemma FlashTotalNext(g: Levels, m: nat)
    requires FlashTotal(g, m) <= m * |g.level.Keys|
    requires |Flashes(Run(g, m))| <= |g.level.Keys|
    ensures FlashTotal(g, m + 1) <= (m + 1) * |g.level.Keys|
  {
    SumBound(m, FlashTotal(g, m + 1), FlashTotal(g, m), |Flashes(Run(g, m))|, |g.level.Keys|);
  }

  lemma SumBound(m: nat, total: nat, before: nat, last: nat, size: nat)
    requires total == before + last && before <= m * size && last <= size
    ensures total <= (m + 1) * size
  {
    assert m * size + size == (m + 1) * size;
  }

  /** `n` steps flash at most `n` times per position. */
  lemma {:induction false} FlashTotalBound(g: Levels, n: nat)
    ensures FlashTotal(g, n) <= n * |g.level.Keys|
  {
    if n > 0 {
      var m := n - 1;
      FlashTotalBound(g, m);
      StepBound(g, m);
      FlashTotalNext(g, m);
    }
  }

  // ---------------------------------------------------------------------------------------
  // The flood fill `ff`

  /** Each position of the grid not in `flashed` is at its level in `base`, one more if it is
      in `direct`, and one more for each neighbour in `hitters`. */
  ghost predicate Tracks(grid: array2<int>, base: map<Cell, int>, flashed: seq<Cell>,
                         direct: set<Cell>, hitters: set<Cell>)
    reads grid
  {
    forall c :: c in Cells(grid.Length0, grid.Length1) && c !in flashed ==>
      c in base && grid[c.0, c.1] == base[c] + (if c in direct then 1 else 0) + Hits(c, hitters)
  }

  /** Each position `flashed[k]` from `from` on was raised to a flash: its level in `base`, one
      more if it is in `direct`, and one more for each neighbour flashed before it since
      `from`, reach 10. */
  ghost predicate Caused(base: map<Cell, int>, flashed: seq<Cell>, from: nat, direct: set<Cell>) {
    && from <= |flashed|
    && forall k :: from <= k < |flashed| ==>
         && flashed[k] in base
         && base[flashed[k]] + (if flashed[k] in direct then 1 else 0)
            + Hits(flashed[k], Elements(flashed[from..k])) >= 10
  }

  /** The levels `base` with those raises added. */
  ghost function Raise(base: map<Cell, int>, direct: set<Cell>, hitters: set<Cell>): map<Cell, int> {
    map c | c in base :: base[c] + (if c in direct then 1 else 0) + Hits(c, hitters)
  }

  /** The positions the first `d` directions lead to from `(x, y)`. */
  function Toward(x: int, y: int, d: nat): set<Cell>
    requires d <= |Directions|
  {
    set e | 0 <= e < d :: Neighbour(x, y, e)
  }

  /** `ff`: raises the level at `(x, y)`; a level of 9 or more flashes instead, is set to 0,
      is appended to `flashed`, and the eight neighbours are raised in turn. The returned
      list is `flashed` followed by the positions that flashed in this call. Every other
      position ends one higher when it is `(x, y)` and one higher for each neighbour that
      flashed in this call, and each of those flashes was caused by such raises. */
  method Flood(x: int, y: int, grid: array2<int>, flashed: seq<Cell>, ghost base: map<Cell, int>)
    returns (out: seq<Cell>)
    requires Flashed(grid, flashed) && Tracks(grid, base, flashed, {}, {})
    modifies grid
    ensures Flashed(grid, out)
    ensures |flashed| <= |out| && out[..|flashed|] == flashed
    ensures Tracks(grid, base, out, {(x, y)}, Elements(out[|flashed|..]))
    ensures Caused(base, out, |flashed|, {(x, y)})
    ensures old(Digits(grid)) ==> Digits(grid)
    ensures old(Skipped(grid, x, y, flashed)) ==> out == flashed && unchanged(grid)
    ensures !old(Skipped(grid, x, y, flashed)) && old(grid[x, y]) < 9 ==> out == flashed
    ensures !old(Skipped(grid, x, y, flashed)) && old(grid[x, y]) >= 9 ==>
      |out| > |flashed| && out[|flashed|] == (x, y)
    decreases |Cells(grid.Length0, grid.Length1) - Elements(flashed)|, 3
  {
    assert flashed[|flashed|..] == [];
    if x < 0 || y < 0 || x >= grid.Length0 || y >= grid.Length1 || (grid[x, y] == 0 && (x, y) in flashed) {
      return flashed;
    }
    var curr := grid[x, y];
    if curr < 9 {
      grid[x, y] := curr + 1;
      return flashed;
    }
    NotFlashedYet(grid, x, y, flashed);
    out := Flash(x, y, grid, flashed, base);
  }

  /** The flashing branch of `ff`: `(x, y)` is set to 0 and appended to `flashed`, then its
      eight neighbours are raised in turn. */
  method Flash(x: int, y: int, grid: array2<int>, flashed: seq<Cell>, ghost base: map<Cell, int>)
    returns (out: seq<Cell>)
    requires InBounds(grid, x, y) && grid[x, y] >= 9 && (x, y) !in flashed
    requires Flashed(grid, flashed) && Tracks(grid, base, flashed, {}, {})
    modifies grid
    ensures Flashed(grid, out)
    ensures |flashed| < |out| && out[..|flashed|] == flashed && out[|flashed|] == (x, y)
    ensures Tracks(grid, base, out, {(x, y)}, Elements(out[|flashed|..]))
    ensures Caused(base, out, |flashed|, {(x, y)})
    ensures old(Digits(grid)) ==> Digits(grid)
    decreases |Cells(grid.Length0, grid.Length1) - Elements(flashed)|, 2
  {
    assert (x, y) in Cells(grid.Length0, grid.Length1);
    assert base[(x, y)] >= 9 by {
      assert Touching((x, y), {}) == {};
    }
    grid[x, y] := 0;
    AppendDistinct(flashed, (x, y));
    var out0 := flashed + [(x, y)];
    ghost var i, j := |flashed|, |out0|;
    assert old(Digits(grid)) ==> Digits(grid);
    out := Spread(x, y, grid, flashed, out0, base);
    Extends(flashed, (x, y), out0, out);
    FloodDone(grid, base, x, y, out, i, j);
  }

  /** The loop of `ff` over the eight neighbours of `(x, y)`, which has just flashed and been
      appended to `flashed`, giving `out0`: each neighbour is raised once, with the raises of
      the flashes this causes. */
  method Spread(x: int, y: int, grid: array2<int>, ghost flashed: seq<Cell>, out0: seq<Cell>,
                ghost base: map<Cell, int>)
    returns (out: seq<Cell>)
    requires InBounds(grid, x, y) && (x, y) !in flashed && out0 == flashed + [(x, y)]
    requires Flashed(grid, out0) && Tracks(grid, base, out0, {}, {})
    modifies grid
    ensures Flashed(grid, out)
    ensures |out0| <= |out| && out[..|out0|] == out0
    ensures Tracks(grid, base, out, Toward(x, y, |Directions|), Elements(out[|out0|..]))
    ensures Caused(base, out, |out0|, Toward(x, y, |Directions|))
    ensures old(Digits(grid)) ==> Digits(grid)
    decreases |Cells(grid.Length0, grid.Length1) - Elements(flashed)|, 1
  {
    out := out0;
    assert Toward(x, y, 0) == {} && out0[|out0|..] == [];
    for d := 0 to |Directions|
      invariant Flashed(grid, out)
      invariant |out0| <= |out| && out[..|out0|] == out0
      invariant Tracks(grid, base, out, Toward(x, y, d), Elements(out[|out0|..]))
      invariant Caused(base, out, |out0|, Toward(x, y, d))
      invariant old(Digits(grid)) ==> Digits(grid)
    {
      out := SpreadTo(x, y, d, grid, flashed, out0, out, base);
    }
  }

  /** One pass of that loop: `ff` on the neighbour in direction `d`, with the raises of the
      earlier passes folded into its base levels. */
  method SpreadTo(x: int, y: int, d: nat, grid: array2<int>, ghost flashed: seq<Cell>,
                  ghost out0: seq<Cell>, prev: seq<Cell>, ghost base: map<Cell, int>)
    returns (out: seq<Cell>)
    requires d < |Directions|
    requires InBounds(grid, x, y) && (x, y) !in flashed && out0 == flashed + [(x, y)]
    requires |out0| <= |prev| && prev[..|out0|] == out0
    requires Flashed(grid, prev)
    requires Tracks(grid, base, prev, Toward(x, y, d), Elements(prev[|out0|..]))
    requires Caused(base, prev, |out0|, Toward(x, y, d))
    modifies grid
    ensures Flashed(grid, out)
    ensures |out0| <= |out| && out[..|out0|] == out0
    ensures Tracks(grid, base, out, Toward(x, y, d + 1), Elements(out[|out0|..]))
    ensures Caused(base, out, |out0|, Toward(x, y, d + 1))
    ensures old(Digits(grid)) ==> Digits(grid)
    decreases |Cells(grid.Length0, grid.Length1) - Elements(flashed)|, 0
  {
    Prefix(flashed + [(x, y)], out0, prev);
    Shrinks(grid.Length0, grid.Length1, flashed, prev, (x, y));
    var next := Neighbour(x, y, d);
    TracksRaise(grid, base, prev, Toward(x, y, d), Elements(prev[|out0|..]));
    out := Flood(next.0, next.1, grid, prev, Raise(base, Toward(x, y, d), Elements(prev[|out0|..])));
    Prefix(out0, prev, out);
    TowardSnoc(x, y, d);
    Compose(grid, base, prev, out, |out0|, Toward(x, y, d), next);
  }

  /** One step of `part_a`/`part_b` at position `(x, y)`: `ff` there, with the raises so far
      folded into the base levels. */
  method StepAt(x: int, y: int, grid: array2<int>, flashed: seq<Cell>, ghost base: map<Cell, int>,
                ghost visited: set<Cell>)
    returns (out: seq<Cell>)
    requires Digits(grid) && Flashed(grid, flashed)
    requires Tracks(grid, base, flashed, visited, Elements(flashed))
    requires Caused(base, flashed, 0, visited) && (x, y) !in visited
    modifies grid
    ensures Digits(grid) && Flashed(grid, out)
    ensures Tracks(grid, base, out, visited + {(x, y)}, Elements(out))
    ensures Caused(base, out, 0, visited + {(x, y)})
  {
    assert flashed[0..] == flashed;
    TracksRaise(grid, base, flashed, visited, Elements(flashed));
    out := Flood(x, y, grid, flashed, Raise(base, visited, Elements(flashed)));
    Compose(grid, base, flashed, out, 0, visited, (x, y));
    assert out[0..] == out;
  }

  /** Folding raises into the base levels keeps them tracked. */
  lemma TracksRaise(grid: array2<int>, base: map<Cell, int>, flashed: seq<Cell>,
                    direct: set<Cell>, hitters: set<Cell>)
    requires Tracks(grid, base, flashed, direct, hitters)
    ensures Tracks(grid, Raise(base, direct, hitters), flashed, {}, {})
  {
    forall c | c in Cells(grid.Length0, grid.Length1) && c !in flashed
      ensures Hits(c, {}) == 0
    {
      assert Touching(c, {}) == {};
    }
  }

  /** A call made with earlier raises folded into its base adds its raises to theirs. */
  lemma Compose(grid: array2<int>, base: map<Cell, int>, prev: seq<Cell>, out: seq<Cell>,
                from: nat, direct: set<Cell>, t: Cell)
    requires from <= |prev| <= |out| && out[..|prev|] == prev && DistinctCells(out) && t !in direct
    requires Caused(base, prev, from, direct)
    requires Tracks(grid, Raise(base, direct, Elements(prev[from..])), out, {t}, Elements(out[|prev|..]))
    requires Caused(Raise(base, direct, Elements(prev[from..])), out, |prev|, {t})
    ensures Tracks(grid, base, out, direct + {t}, Elements(out[from..]))
    ensures Caused(base, out, from, direct + {t})
  {
    assert prev[from..] == out[from..|prev|];
    TracksCompose(grid, base, out, from, |prev|, direct, t);
    forall k | from <= k < |out|
      ensures out[k] in base
      ensures base[out[k]] + (if out[k] in direct + {t} then 1 else 0)
              + Hits(out[k], Elements(out[from..k])) >= 10
    {
      if k < |prev| {
        CausedEarlier(base, prev, out, from, k, direct, t);
      } else {
        CausedLater(base, out, from, |prev|, k, direct, t);
      }
    }
  }

  lemma TracksCompose(grid: array2<int>, base: map<Cell, int>, out: seq<Cell>, from: nat, mid: nat,
                      direct: set<Cell>, t: Cell)
    requires from <= mid <= |out| && DistinctCells(out) && t !in direct
    requires Tracks(grid, Raise(base, direct, Elements(out[from..mid])), out, {t}, Elements(out[mid..]))
    ensures Tracks(grid, base, out, direct + {t}, Elements(out[from..]))
  {
    var h, n := Elements(out[from..mid]), Elements(out[mid..]);
    ElementsSplit(out, from, mid, |out|);
    assert out[from..|out|] == out[from..] && out[mid..|out|] == out[mid..];
    forall c | c in Cells(grid.Length0, grid.Length1) && c !in out
      ensures c in base
      ensures grid[c.0, c.1] == base[c] + (if c in direct + {t} then 1 else 0) + Hits(c, h + n)
    {
      assert c in Raise(base, direct, h);
      HitsUnion(c, h, n);
    }
  }

  lemma CausedEarlier(base: map<Cell, int>, prev: seq<Cell>, out: seq<Cell>, from: nat, k: nat,
                      direct: set<Cell>, t: Cell)
    requires from <= k < |prev| <= |out| && out[..|prev|] == prev
    requires Caused(base, prev, from, direct)
    ensures out[k] in base
    ensures base[out[k]] + (if out[k] in direct + {t} then 1 else 0)
            + Hits(out[k], Elements(out[from..k])) >= 10
  {
    assert out[k] == out[..|prev|][k];
    assert out[from..k] == prev[from..k] by {
      forall i | 0 <= i < k - from
        ensures out[from..k][i] == prev[from..k][i]
      {
        assert out[from + i] == out[..|prev|][from + i];
      }
    }
  }

  lemma CausedLater(base: map<Cell, int>, out: seq<Cell>, from: nat, mid: nat, k: nat,
                    direct: set<Cell>, t: Cell)
    requires from <= mid <= k < |out| && DistinctCells(out) && t !in direct
    requires Caused(Raise(base, direct, Elements(out[from..mid])), out, mid, {t})
    ensures out[k] in base
    ensures base[out[k]] + (if out[k] in direct + {t} then 1 else 0)
            + Hits(out[k], Elements(out[from..k])) >= 10
  {
    ElementsSplit(out, from, mid, k);
    HitsUnion(out[k], Elements(out[from..mid]), Elements(out[mid..k]));
  }

  /** The slices of a list cover it piecewise, and of a list of distinct positions they hold
      no position in common. */
  lemma ElementsSplit(s: seq<Cell>, i: nat, j: nat, k: nat)
    requires i <= j <= k <= |s|
    ensures Elements(s[i..k]) == Elements(s[i..j]) + Elements(s[j..k])
    ensures DistinctCells(s) ==> Elements(s[i..j]) * Elements(s[j..k]) == {}
  {
    assert s[i..k] == s[i..j] + s[j..k];
    if DistinctCells(s) {
      forall c | c in Elements(s[i..j])
        ensures c !in Elements(s[j..k])
      {
        var a :| i <= a < j && s[a] == c;
      }
    }
  }

  lemma HitsUnion(c: Cell, a: set<Cell>, b: set<Cell>)
    requires a * b == {}
    ensures Hits(c, a + b) == Hits(c, a) + Hits(c, b)
  {
    assert Touching(c, a + b) == Touching(c, a) + Touching(c, b);
    assert Touching(c, a) * Touching(c, b) == {};
  }

  lemma HitsSingle(c: Cell, p: Cell)
    ensures Hits(c, {p}) == if Adjacent(c, p) then 1 else 0
  {
    if Adjacent(c, p) {
      assert Touching(c, {p}) == {p};
    } else {
      assert Touching(c, {p}) == {};
    }
  }

  /** The eight directions lead from `(x, y)` to its eight neighbours, each once. */
  lemma TowardSnoc(x: int, y: int, d: nat)
    requires d < |Directions|
    ensures Toward(x, y, d + 1) == Toward(x, y, d) + {Neighbour(x, y, d)}
    ensures Neighbour(x, y, d) !in Toward(x, y, d)
  {
  }

  lemma TowardIsAdjacent(x: int, y: int, c: Cell)
    ensures c in Toward(x, y, |Directions|) <==> Adjacent(c, (x, y))
  {
    if Adjacent(c, (x, y)) {
      var dx, dy := c.0 - x, c.1 - y;
      assert dx == -1 || dx == 0 || dx == 1;
      assert dy == -1 || dy == 0 || dy == 1;
      assert (dx, dy) in Directions;
      var e :| 0 <= e < |Directions| && Directions[e] == (dx, dy);
      assert c == Neighbour(x, y, e);
    }
  }

  /** After the eight calls from `(x, y)`, its raises of its neighbours are those of its
      flash. */
  lemma FloodDone(grid: array2<int>, base: map<Cell, int>, x: int, y: int, out: seq<Cell>,
                  i: nat, j: nat)
    requires (x, y) in base && base[(x, y)] >= 9
    requires j == i + 1 && j <= |out| && out[i] == (x, y) && DistinctCells(out)
    requires Tracks(grid, base, out, Toward(x, y, |Directions|), Elements(out[j..]))
    requires Caused(base, out, j, Toward(x, y, |Directions|))
    ensures Tracks(grid, base, out, {(x, y)}, Elements(out[i..]))
    ensures Caused(base, out, i, {(x, y)})
  {
    FloodDoneTracks(grid, base, out, i, j, x, y);
    FloodDoneCausedAll(base, out, i, j, x, y);
  }

  lemma FloodDoneCausedAll(base: map<Cell, int>, out: seq<Cell>, i: nat, j: nat, x: int, y: int)
    requires (x, y) in base && base[(x, y)] >= 9
    requires j == i + 1 && j <= |out| && out[i] == (x, y) && DistinctCells(out)
    requires Caused(base, out, j, Toward(x, y, |Directions|))
    ensures Caused(base, out, i, {(x, y)})
  {
    forall k | i <= k < |out|
      ensures out[k] in base
      ensures base[out[k]] + (if out[k] in {(x, y)} then 1 else 0) + Hits(out[k], Elements(out[i..k])) >= 10
    {
      FloodDoneCaused(base, out, i, j, k, x, y);
    }
  }

  lemma FloodDoneTracks(grid: array2<int>, base: map<Cell, int>, out: seq<Cell>, i: nat, j: nat,
                        x: int, y: int)
    requires j == i + 1 && j <= |out| && out[i] == (x, y) && DistinctCells(out)
    requires Tracks(grid, base, out, Toward(x, y, |Directions|), Elements(out[j..]))
    ensures Tracks(grid, base, out, {(x, y)}, Elements(out[i..]))
  {
    var rest := Elements(out[j..]);
    ElementsHead(out, i);
    forall c | c in Cells(grid.Length0, grid.Length1) && c !in out
      ensures c in base
      ensures grid[c.0, c.1] == base[c] + (if c in {(x, y)} then 1 else 0) + Hits(c, {(x, y)} + rest)
    {
      NeighbourFlash(x, y, c, rest);
    }
  }

  /** A suffix of a list is its first position and the rest, which of a list of distinct
      positions does not hold that first one again. */
  lemma ElementsHead(s: seq<Cell>, i: nat)
    requires i < |s| && DistinctCells(s)
    ensures Elements(s[i..]) == {s[i]} + Elements(s[i + 1..])
    ensures s[i] !in Elements(s[i + 1..])
  {
    assert s[i..] == [s[i]] + s[i + 1..];
  }

  lemma FloodDoneCaused(base: map<Cell, int>, out: seq<Cell>, i: nat, j: nat, k: nat, x: int, y: int)
    requires j == i + 1 && i <= k < |out| && out[i] == (x, y) && DistinctCells(out)
    requires (x, y) in base && base[(x, y)] >= 9
    requires Caused(base, out, j, Toward(x, y, |Directions|))
    ensures out[k] in base
    ensures base[out[k]] + (if out[k] in {(x, y)} then 1 else 0) + Hits(out[k], Elements(out[i..k])) >= 10
  {
    if k == i {
      assert out[i..k] == [] && Elements([]) == {};
      assert Touching((x, y), {}) == {};
    } else {
      ElementsSplit(out, i, j, k);
      assert out[i..j] == [(x, y)] && Elements([(x, y)]) == {(x, y)};
      assert out[k] != (x, y);
      NeighbourFlash(x, y, out[k], Elements(out[j..k]));
    }
  }

  /** Being raised by `(x, y)`'s eight calls is being next to its flash. */
  lemma NeighbourFlash(x: int, y: int, c: Cell, rest: set<Cell>)
    requires c != (x, y) && (x, y) !in rest
    ensures (if c in Toward(x, y, |Directions|) then 1 else 0) + Hits(c, rest)
            == (if c in {(x, y)} then 1 else 0) + Hits(c, {(x, y)} + rest)
  {
    HitsUnion(c, {(x, y)}, rest);
    HitsSingle(c, (x, y));
    TowardIsAdjacent(x, y, c);
  }

  lemma Extends(flashed: seq<Cell>, c: Cell, out0: seq<Cell>, out: seq<Cell>)
    requires out0 == flashed + [c] && |out0| <= |out| && out[..|out0|] == out0
    ensures |flashed| < |out| && out[..|flashed|] == flashed && out[|flashed|] == c
  {
    assert out[..|flashed|] == out[..|out0|][..|flashed|] && out[|flashed|] == out[..|out0|][|flashed|];
  }

  lemma Prefix(a: seq<Cell>, b: seq<Cell>, c: seq<Cell>)
    requires |a| <= |b| && b[..|a|] == a && |b| <= |c| && c[..|b|] == b
    ensures |a| <= |c| && c[..|a|] == a
  {
    assert c[..|a|] == c[..|b|][..|a|];
  }

  /** A position that reaches the flashing branch has not flashed yet. */
  lemma NotFlashedYet(grid: array2<int>, x: int, y: int, flashed: seq<Cell>)
    requires Flashed(grid, flashed) && InBounds(grid, x, y) && grid[x, y] >= 9
    ensures (x, y) !in flashed
  {
  }

  lemma AppendDistinct(s: seq<Cell>, c: Cell)
    requires DistinctCells(s) && c !in s
    ensures DistinctCells(s + [c])
  {
  }

  /** Adding a new position to the flashed ones leaves fewer positions unflashed. */
  lemma Shrinks(rows: nat, cols: nat, flashed: seq<Cell>, out: seq<Cell>, c: Cell)
    requires c in Cells(rows, cols) && c !in flashed
    requires |flashed| < |out| && out[..|flashed| + 1] == flashed + [c]
    ensures |Cells(rows, cols) - Elements(out)| < |Cells(rows, cols) - Elements(flashed)|
  {
    var all := Cells(rows, cols);
    assert c == out[|flashed|];
    forall e | e in flashed
      ensures e in out
    {
      var k :| 0 <= k < |flashed| && flashed[k] == e;
      assert out[k] == (flashed + [c])[k];
    }
    var before, after := all - Elements(flashed), all - Elements(out);
    assert after <= before - {c};
    assert before == after + (before - after);
    assert c in before - after;
  }

  /** One step of `part_a`/`part_b`: `ff` on every position in row-major order, starting
      from an empty `flashed`. It flashes exactly the positions `Flashes` gives and leaves the
      levels `After` gives; a position is at 0 exactly when it flashed. */
  method Step(grid: array2<int>) returns (flashed: seq<Cell>)
    requires Digits(grid)
    modifies grid
    ensures Digits(grid) && Flashed(grid, flashed)
    ensures Elements(flashed) == Flashes(old(Snapshot(grid)))
    ensures Snapshot(grid) == After(old(Snapshot(grid)))
    ensures forall i, j :: 0 <= i < grid.Length0 && 0 <= j < grid.Length1 ==>
      (grid[i, j] == 0 <==> (i, j) in flashed)
  {
    ghost var g0 := Snapshot(grid);
    flashed := [];
    ghost var visited: set<Cell> := {};
    assert Cells(0, grid.Length1) == {};
    StepStart(grid);
    SnapshotValid(grid);
    for x := 0 to grid.Length0
      invariant Digits(grid) && Flashed(grid, flashed)
      invariant visited == Cells(x, grid.Length1)
      invariant Tracks(grid, g0.level, flashed, visited, Elements(flashed))
      invariant Caused(g0.level, flashed, 0, visited)
    {
      assert Row(x, 0) == {};
      for y := 0 to grid.Length1
        invariant Digits(grid) && Flashed(grid, flashed)
        invariant visited == Cells(x, grid.Length1) + Row(x, y)
        invariant Tracks(grid, g0.level, flashed, visited, Elements(flashed))
        invariant Caused(g0.level, flashed, 0, visited)
      {
        NextCell(x, y, grid.Length1);
        flashed := StepAt(x, y, grid, flashed, g0.level, visited);
        visited := visited + {(x, y)};
      }
      CellsSplit(x + 1, grid.Length1);
    }
    StepResult(grid, g0, flashed);
  }

  /** Row-major order visits `(x, y)` after the rows above it and the positions to its left. */
  lemma NextCell(x: int, y: int, cols: nat)
    requires 0 <= x && 0 <= y < cols
    ensures (x, y) !in Cells(x, cols) + Row(x, y)
    ensures Row(x, y + 1) == Row(x, y) + {(x, y)}
  {
  }

  /** At the start of a step every level is tracked, with no raises and no flashes. */
  lemma StepStart(grid: array2<int>)
    ensures Tracks(grid, Snapshot(grid).level, [], {}, Elements([]))
    ensures Caused(Snapshot(grid).level, [], 0, {})
  {
    assert Elements([]) == {};
    forall c | c in Cells(grid.Length0, grid.Length1)
      ensures Hits(c, {}) == 0
    {
      assert Touching(c, {}) == {};
    }
  }

  /** The end of a step: the tracked levels and the caused flashes are those of `After`. */
  lemma StepResult(grid: array2<int>, g0: Levels, flashed: seq<Cell>)
    requires g0.rows == grid.Length0 && g0.cols == grid.Length1 && ValidLevels(g0)
    requires Digits(grid) && Flashed(grid, flashed)
    requires Tracks(grid, g0.level, flashed, Cells(grid.Length0, grid.Length1), Elements(flashed))
    requires Caused(g0.level, flashed, 0, Cells(grid.Length0, grid.Length1))
    ensures Elements(flashed) == Flashes(g0)
    ensures Snapshot(grid) == After(g0)
    ensures forall i, j :: 0 <= i < grid.Length0 && 0 <= j < grid.Length1 ==>
      (grid[i, j] == 0 <==> (i, j) in flashed)
  {
    EndClosed(grid, g0, flashed);
    FlashesLeast(g0, Elements(flashed));
    FlashesFixed(g0);
    CausedWithin(g0, flashed, |flashed|, Flashes(g0));
    assert flashed[..|flashed|] == flashed;
    EndLevels(grid, g0, flashed);
  }

  /** No position left unflashed at the end of a step would ignite: its level stayed a digit. */
  lemma EndClosed(grid: array2<int>, g0: Levels, flashed: seq<Cell>)
    requires g0.level.Keys == Cells(grid.Length0, grid.Length1) && Digits(grid)
    requires Tracks(grid, g0.level, flashed, Cells(grid.Length0, grid.Length1), Elements(flashed))
    ensures Ignited(g0, Elements(flashed)) <= Elements(flashed)
  {
    forall c | c in Ignited(g0, Elements(flashed))
      ensures c in Elements(flashed)
    {
      assert c in Cells(grid.Length0, grid.Length1);
    }
  }

  /** With the flashes of `After`, the tracked levels are those of `After`. */
  lemma EndLevels(grid: array2<int>, g0: Levels, flashed: seq<Cell>)
    requires g0.rows == grid.Length0 && g0.cols == grid.Length1 && ValidLevels(g0)
    requires Flashed(grid, flashed) && Elements(flashed) == Flashes(g0)
    requires Tracks(grid, g0.level, flashed, Cells(grid.Length0, grid.Length1), Elements(flashed))
    ensures Snapshot(grid) == After(g0)
    ensures forall i, j :: 0 <= i < grid.Length0 && 0 <= j < grid.Length1 ==>
      (grid[i, j] == 0 <==> (i, j) in flashed)
  {
    var all, f := Cells(grid.Length0, grid.Length1), Flashes(g0);
    var s, a := Snapshot(grid).level, After(g0).level;
    assert s.Keys == all == a.Keys;
    forall c | c in all
      ensures s[c] == a[c]
      ensures s[c] == 0 <==> c in flashed
    {
      if c in f {
        assert c in Elements(flashed);
        var k :| 0 <= k < |flashed| && flashed[k] == c;
      }
    }
    forall i, j | 0 <= i < grid.Length0 && 0 <= j < grid.Length1
      ensures grid[i, j] == 0 <==> (i, j) in flashed
    {
      assert (i, j) in all;
    }
  }

  /** Flashes caused in order by raises from earlier ones all lie in any set closed under
      ignition. */
  lemma {:induction false} CausedWithin(g: Levels, flashed: seq<Cell>, k: nat, t: set<Cell>)
    requires ValidLevels(g) && Caused(g.level, flashed, 0, Cells(g.rows, g.cols))
    requires Ignited(g, t) <= t && k <= |flashed|
    ensures Elements(flashed[..k]) <= t
  {
    if k > 0 {
      var m := k - 1;
      CausedWithin(g, flashed, m, t);
      var f, before := flashed[m], Elements(flashed[..m]);
      CausedIgnites(g, flashed, m);
      IgnitedGrows(g, before, t);
      ElementsTake(flashed, m, k);
    }
  }

  lemma ElementsTake(s: seq<Cell>, m: nat, k: nat)
    requires k == m + 1 && k <= |s|
    ensures Elements(s[..k]) == Elements(s[..m]) + {s[m]}
  {
    assert s[..k] == s[..m] + [s[m]];
  }

  /** Each caused flash is ignited by the flashes before it. */
  lemma CausedIgnites(g: Levels, flashed: seq<Cell>, m: nat)
    requires Caused(g.level, flashed, 0, Cells(g.rows, g.cols)) && m < |flashed|
    ensures flashed[m] in Ignited(g, Elements(flashed[..m]))
  {
    assert flashed[0..m] == flashed[..m];
  }

  // ---------------------------------------------------------------------------------------
  // Counting flashes

  /** A step flashes every position exactly when it leaves the whole grid at 0. */
  predicate AllZero(grid: array2<int>)
    reads grid
  {
    forall i, j :: 0 <= i < grid.Length0 && 0 <= j < grid.Length1 ==> grid[i, j] == 0
  }

  /** The comparison `part_b` makes: `len(flashed) == rows * cols` holds exactly when every
      position of the grid has flashed. */
  lemma AllFlashed(grid: array2<int>, flashed: seq<Cell>)
    requires Flashed(grid, flashed)
    ensures |flashed| <= grid.Length0 * grid.Length1
    ensures |flashed| == grid.Length0 * grid.Length1 <==>
      forall i, j :: 0 <= i < grid.Length0 && 0 <= j < grid.Length1 ==> (i, j) in flashed
  {
    var all, seen := Cells(grid.Length0, grid.Length1), Elements(flashed);
    forall c | c in seen
      ensures c in all
    {
      var k :| 0 <= k < |flashed| && flashed[k] == c;
    }
    CellsCard(grid.Length0, grid.Length1);
    DistinctElements(flashed);
    assert all == seen + (all - seen);
    if |flashed| == grid.Length0 * grid.Length1 {
      assert all - seen == {};
      forall i, j | 0 <= i < grid.Length0 && 0 <= j < grid.Length1
        ensures (i, j) in flashed
      {
        assert (i, j) in all;
      }
    }
    if forall i, j :: 0 <= i < grid.Length0 && 0 <= j < grid.Length1 ==> (i, j) in flashed {
      assert all <= seen;
    }
  }

  /** Positions `(i, 0)` to `(i, cols - 1)`. */
  function Row(i: int, cols: nat): set<Cell> {
    set j | 0 <= j < cols :: (i, j)
  }

  lemma {:induction false} RowCard(i: int, cols: nat)
    ensures |Row(i, cols)| == cols
  {
    if cols > 0 {
      assert Row(i, cols) == Row(i, cols - 1) + {(i, cols - 1)};
      RowCard(i, cols - 1);
    }
  }

  lemma {:induction false} CellsCard(rows: nat, cols: nat)
    ensures |Cells(rows, cols)| == rows * cols
  {
    if rows > 0 {
      CellsSplit(rows, cols);
      CellsCard(rows - 1, cols);
      RowCard(rows - 1, cols);
      assert (rows - 1) * cols + cols == rows * cols;
    }
  }

  /** The grid is its top rows and its last row. */
  lemma CellsSplit(rows: nat, cols: nat)
    requires rows > 0
    ensures Cells(rows, cols) == Cells(rows - 1, cols) + Row(rows - 1, cols)
    ensures Cells(rows - 1, cols) * Row(rows - 1, cols) == {}
  {
    var top, last := Cells(rows - 1, cols), Row(rows - 1, cols);
    forall c | c in Cells(rows, cols)
      ensures c in top + last
    {
      if c.0 < rows - 1 {
        assert c in top;
      }
    }
  }

  lemma {:induction false} DistinctElements(s: seq<Cell>)
    requires DistinctCells(s)
    ensures |Elements(s)| == |s|
  {
    if s != [] {
      var t := s[..|s| - 1];
      assert DistinctCells(t);
      assert Elements(s) == Elements(t) + {s[|s| - 1]};
      assert s[|s| - 1] !in Elements(t);
      DistinctElements(t);
    }
  }

  /** One step followed by `part_b`'s test: the step leaves the levels `After` gives and
      counts the positions `Flashes` gives, and it flashed every position exactly when the
      grid is then all 0. */
  method SyncStep(grid: array2<int>) returns (flashes: nat, all: bool)
    requires Digits(grid)
    modifies grid
    ensures Digits(grid)
    ensures Snapshot(grid) == After(old(Snapshot(grid)))
    ensures flashes == |Flashes(old(Snapshot(grid)))|
    ensures flashes <= grid.Length0 * grid.Length1
    ensures all <==> flashes == grid.Length0 * grid.Length1
    ensures all <==> AllZero(grid)
  {
    var flashed := Step(grid);
    AllFlashed(grid, flashed);
    DistinctElements(flashed);
    flashes := |flashed|;
    all := flashes == grid.Length0 * grid.Length1;
  }

  /** The levels the grid holds are digits at its positions. */
  lemma SnapshotValid(grid: array2<int>)
    requires Digits(grid)
    ensures ValidLevels(Snapshot(grid))
  {
  }

  /** `part_a`: the grid after `PartASteps` steps and the flashes summed over them, at most
      one per position and step. */
  method PartA(grid: array2<int>) returns (flashes: nat)
    requires Digits(grid)
    modifies grid
    ensures Digits(grid)
    ensures Snapshot(grid) == Run(old(Snapshot(grid)), PartASteps)
    ensures flashes == FlashTotal(old(Snapshot(grid)), PartASteps)
    ensures flashes <= PartASteps * (grid.Length0 * grid.Length1)
  {
    ghost var g0 := Snapshot(grid);
    SnapshotValid(grid);
    flashes := 0;
    for step := 0 to PartASteps
      invariant Digits(grid)
      invariant Snapshot(grid) == Run(g0, step)
      invariant flashes == FlashTotal(g0, step)
    {
      var n, _ := SyncStep(grid);
      flashes := flashes + n;
    }
    FlashTotalBound(g0, PartASteps);
    CellsCard(grid.Length0, grid.Length1);
  }

  /** One step of `part_b` from the levels `Run(g0, step)`, with its test. */
  method SearchStep(grid: array2<int>, ghost g0: Levels, ghost step: nat) returns (all: bool)
    requires Digits(grid) && Snapshot(grid) == Run(g0, step)
    requires g0.rows == grid.Length0 && g0.cols == grid.Length1
    modifies grid
    ensures Digits(grid) && Snapshot(grid) == Run(g0, step + 1)
    ensures all <==> Synchronised(g0, step + 1)
    ensures all ==> AllZero(grid)
  {
    var flashes;
    flashes, all := SyncStep(grid);
  }

  lemma NotYet(g0: Levels, step: nat)
    requires forall k :: 1 <= k < step ==> !Synchronised(g0, k)
    requires !Synchronised(g0, step)
    ensures forall k :: 1 <= k <= step ==> !Synchronised(g0, k)
  {
  }

  /** The loop of `part_b`: the first step that flashes every position, searched for up to
      `limit` steps. */
  method FirstSync(grid: array2<int>, limit: nat) returns (r: Option<nat>)
    requires Digits(grid)
    modifies grid
    ensures Digits(grid)
    ensures r.Some? ==> 1 <= r.value <= limit && AllZero(grid)
    ensures r.Some? ==> Synchronised(old(Snapshot(grid)), r.value)
    ensures r.Some? ==> forall k :: 1 <= k < r.value ==> !Synchronised(old(Snapshot(grid)), k)
    ensures r.None? ==> forall k :: 1 <= k <= limit ==> !Synchronised(old(Snapshot(grid)), k)
  {
    ghost var g0 := Snapshot(grid);
    var step := 0;
    while step < limit
      invariant step <= limit && Digits(grid)
      invariant Snapshot(grid) == Run(g0, step)
      invariant forall k :: 1 <= k <= step ==> !Synchronised(g0, k)
    {
      var all := SearchStep(grid, g0, step);
      step := step + 1;
      if all {
        return Some(step);
      }
      NotYet(g0, step);
    }
    return None;
  }

  /** `part_b`: the first step that flashes every position. A grid without rows is `None`,
      since `len(grid[0])` raises there. The source loops without end when no step flashes
      every position, so the search here gives up after `limit` steps. */
  method PartB(grid: array2<int>, limit: nat) returns (r: Option<nat>)
    requires Digits(grid)
    modifies grid
    ensures Digits(grid)
    ensures grid.Length0 == 0 ==> r.None?
    ensures r.Some? ==> 1 <= r.value <= limit && AllZero(grid)
    ensures r.Some? ==> Synchronised(old(Snapshot(grid)), r.value)
    ensures r.Some? ==> forall k :: 1 <= k < r.value ==> !Synchronised(old(Snapshot(grid)), k)
    ensures r.None? && grid.Length0 > 0 ==>
      forall k :: 1 <= k <= limit ==> !Synchronised(old(Snapshot(grid)), k)
  {
    if grid.Length0 == 0 {
      return None;
    }
    r := FirstSync(grid, limit);
  }
}
