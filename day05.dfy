/** Hydrothermal vents: line segments "x1,y1 -> x2,y2" rasterised into a grid of counts
    that is incremented in place, and the number of cells where lines overlap. */
module Day05 {
  import opened Common

  datatype Segment = Segment(x1: nat, y1: nat, x2: nat, y2: nat)

  // ---- parse_line ----

  /** Python's `str.split(sep)`: the pieces between the non-overlapping occurrences of `sep`,
      found left to right. */
  function Split(s: string, sep: string): (r: seq<string>)
    requires |sep| > 0
    ensures |r| > 0
    decreases |s|
  {
    if |s| < |sep| then [s]
    else if s[..|sep|] == sep then [[]] + Split(s[|sep|..], sep)
    else
      var rest := Split(s[1..], sep);
      [[s[0]] + rest[0]] + rest[1..]
  }

  predicate IsDigit(c: char) { '0' <= c <= '9' }

  predicate AllDigits(s: string) {
    forall k :: 0 <= k < |s| ==> IsDigit(s[k])
  }

  /** The value of a string of decimal digits. */
  function DigitsValue(s: string): nat
    requires AllDigits(s)
  {
    if s == [] then 0
    else 10 * DigitsValue(s[..|s| - 1]) + (s[|s| - 1] - '0') as nat
  }

  /** `int(s)` for the strings of digits the input holds; anything else is a `ValueError`. */
  function ParseNat(s: string): Option<nat> {
    if s != [] && AllDigits(s) then Some(DigitsValue(s)) else None
  }

  /** A pair "a,b" of numbers; `a, b = s.split(",")` fails unless there are exactly two. */
  function ParsePair(s: string): Option<(nat, nat)> {
    var parts := Split(s, ",");
    if |parts| != 2 then None
    else
      match (ParseNat(parts[0]), ParseNat(parts[1]))
      case (Some(a), Some(b)) => Some((a, b))
      case _ => None
  }

  /** `parse_line`: "x1,y1 -> x2,y2" into a segment. */
  function ParseLine(line: string): Option<Segment> {
    var parts := Split(line, " -> ");
    if |parts| != 2 then None
    else
      match (ParsePair(parts[0]), ParsePair(parts[1]))
      case (Some(st), Some(en)) => Some(Segment(st.0, st.1, en.0, en.1))
      case _ => None
  }

  /** Decimal digits of `n`, without leading zeros. */
  function NatString(n: nat): (r: string)
    ensures |r| > 0 && AllDigits(r)
  {
    if n < 10 then [('0' as int + n) as char]
    else NatString(n / 10) + [('0' as int + n % 10) as char]
  }

  /** How the puzzle input writes a segment. */
  function FormatLine(s: Segment): string {
    NatString(s.x1) + "," + NatString(s.y1) + " -> " + NatString(s.x2) + "," + NatString(s.y2)
  }

  lemma {:induction false} NatStringValue(n: nat)
    ensures DigitsValue(NatString(n)) == n
  {
    var s := NatString(n);
    if n >= 10 {
      NatStringValue(n / 10);
      assert s[..|s| - 1] == NatString(n / 10);
    }
  }

  lemma {:induction false} SplitWithout(s: string, sep: string)
    requires |sep| > 0 && forall k :: 0 <= k < |s| ==> s[k] != sep[0]
    ensures Split(s, sep) == [s]
    decreases |s|
  {
    if |s| >= |sep| {
      assert s[..|sep|][0] == s[0];
      SplitWithout(s[1..], sep);
      assert [s[0]] + s[1..] == s;
    }
  }

  lemma {:induction false} SplitOnce(a: string, sep: string, b: string)
    requires |sep| > 0 && forall k :: 0 <= k < |a| ==> a[k] != sep[0]
    ensures Split(a + sep + b, sep) == [a] + Split(b, sep)
    decreases |a|
  {
    var s := a + sep + b;
    if a == [] {
      assert s == sep + b;
      assert s[..|sep|] == sep && s[|sep|..] == b;
    } else {
      assert s[..|sep|][0] == a[0];
      assert s[1..] == a[1..] + sep + b;
      SplitOnce(a[1..], sep, b);
      assert [a[0]] + a[1..] == a;
    }
  }

  lemma PairRoundTrip(a: nat, b: nat)
    ensures ParsePair(NatString(a) + "," + NatString(b)) == Some((a, b))
  {
    var sa, sb := NatString(a), NatString(b);
    SplitOnce(sa, ",", sb);
    SplitWithout(sb, ",");
    NatStringValue(a);
    NatStringValue(b);
  }

  /** Reading back a formatted segment gives the segment. */
  lemma ParseFormat(s: Segment)
    ensures ParseLine(FormatLine(s)) == Some(s)
  {
    var p := NatString(s.x1) + "," + NatString(s.y1);
    var q := NatString(s.x2) + "," + NatString(s.y2);
    assert FormatLine(s) == p + " -> " + q;
    assert forall k :: 0 <= k < |p| ==> p[k] != ' ' by {
      forall k | 0 <= k < |p| ensures p[k] != ' ' {
        if k >= |NatString(s.x1)| + 1 {
          assert p[k] == NatString(s.y1)[k - |NatString(s.x1)| - 1];
        } else if k < |NatString(s.x1)| {
          assert p[k] == NatString(s.x1)[k];
        }
      }
    }
    assert forall k :: 0 <= k < |q| ==> q[k] != ' ' by {
      forall k | 0 <= k < |q| ensures q[k] != ' ' {
        if k >= |NatString(s.x2)| + 1 {
          assert q[k] == NatString(s.y2)[k - |NatString(s.x2)| - 1];
        } else if k < |NatString(s.x2)| {
          assert q[k] == NatString(s.x2)[k];
        }
      }
    }
    SplitOnce(p, " -> ", q);
    SplitWithout(q, " -> ");
    PairRoundTrip(s.x1, s.y1);
    PairRoundTrip(s.x2, s.y2);
  }

  /** A line without " -> " is rejected, as the unpacking of its split raises. */
  lemma NoArrowRejected(line: string)
    requires forall k :: 0 <= k < |line| ==> line[k] != ' '
    ensures ParseLine(line) == None
  {
    SplitWithout(line, " -> ");
  }

  // ---- the bounds loop of parse_input ----

  /** The largest x (`columns`) and y (`rows`) of any endpoint, starting from 0. */
  method Bounds(lines: seq<Segment>) returns (rows: nat, columns: nat)
    ensures forall k :: 0 <= k < |lines| ==>
      lines[k].x1 <= columns && lines[k].x2 <= columns && lines[k].y1 <= rows && lines[k].y2 <= rows
    ensures columns == 0 || exists k :: 0 <= k < |lines| && (lines[k].x1 == columns || lines[k].x2 == columns)
    ensures rows == 0 || exists k :: 0 <= k < |lines| && (lines[k].y1 == rows || lines[k].y2 == rows)
  {
    columns, rows := 0, 0;
    for k := 0 to |lines|
      invariant forall l :: 0 <= l < k ==>
        lines[l].x1 <= columns && lines[l].x2 <= columns && lines[l].y1 <= rows && lines[l].y2 <= rows
      invariant columns == 0 || exists l :: 0 <= l < k && (lines[l].x1 == columns || lines[l].x2 == columns)
      invariant rows == 0 || exists l :: 0 <= l < k && (lines[l].y1 == rows || lines[l].y2 == rows)
    {
      var line := lines[k];
      if line.x1 > columns {
        columns := line.x1;
      }
      if line.x2 > columns {
        columns := line.x2;
      }
      if line.y1 > rows {
        rows := line.y1;
      }
      if line.y2 > rows {
        rows := line.y2;
      }
    }
  }

  /** `np.zeros(shape=(rows + 1, columns + 1))`, the `map` of the source. */
  method Zeros(rows: nat, columns: nat) returns (grid: array2<int>)
    ensures fresh(grid) && grid.Length0 == rows + 1 && grid.Length1 == columns + 1
    ensures forall r, c :: 0 <= r < grid.Length0 && 0 <= c < grid.Length1 ==> grid[r, c] == 0
  {
    grid := new int[rows + 1, columns + 1]((_, _) => 0);
  }

  // ---- which cells a segment covers ----

  function Min(a: int, b: int): int { if a < b then a else b }
  function Max(a: int, b: int): int { if a < b then b else a }

  /** The cells `parse_horiz_vert` increments for a segment: a vertical one (also a single
      point) from the smaller y to the larger, else a horizontal one; nothing for other lines. */
  predicate OnStraight(s: Segment, r: int, c: int) {
    if s.x1 == s.x2 then c == s.x1 && Min(s.y1, s.y2) <= r <= Max(s.y1, s.y2)
    else if s.y1 == s.y2 then r == s.y1 && Min(s.x1, s.x2) <= c <= Max(s.x1, s.x2)
    else false
  }

  predicate Diagonal(s: Segment) { s.x1 != s.x2 && s.y1 != s.y2 }

  /** A 45 degree segment, the only kind of sloped line the puzzle input has. */
  predicate At45(s: Segment) {
    Diagonal(s) && (s.x2 - s.x1 == s.y2 - s.y1 || s.x2 - s.x1 == s.y1 - s.y2)
  }

  /** Steps taken from `(x1, y1)` towards `x2` to reach column `c`. */
  function StepsTo(s: Segment, c: int): int {
    if s.x1 < s.x2 then c - s.x1 else s.x1 - c
  }

  function Dx(s: Segment): int { if s.x1 < s.x2 then 1 else -1 }
  function Dy(s: Segment): int { if s.y1 < s.y2 then 1 else -1 }

  /** The cells `parse_diagonal` increments for a sloped segment: both endpoints and the
      cells between them, one step in x and one in y at a time. */
  predicate OnDiagonal(s: Segment, r: int, c: int) {
    Diagonal(s) && 0 <= StepsTo(s, c) <= StepsTo(s, s.x2) && r == s.y1 + Dy(s) * StepsTo(s, c)
  }

  /** Both endpoints are covered, by the straight rule or by the 45 degree walk. */
  lemma EndpointsCovered(s: Segment)
    requires !Diagonal(s) || At45(s)
    ensures OnStraight(s, s.y1, s.x1) || OnDiagonal(s, s.y1, s.x1)
    ensures OnStraight(s, s.y2, s.x2) || OnDiagonal(s, s.y2, s.x2)
  {
  }

  /** How many of the segments cover a cell. */
  function Covering(lines: seq<Segment>, r: int, c: int, diagonals: bool): nat {
    if lines == [] then 0
    else
      var s := lines[|lines| - 1];
      Covering(lines[..|lines| - 1], r, c, diagonals)
      + (if OnStraight(s, r, c) || (diagonals && OnDiagonal(s, r, c)) then 1 else 0)
  }

  ghost predicate InMap(s: Segment, grid: array2<int>) {
    s.x1 < grid.Length1 && s.x2 < grid.Length1 && s.y1 < grid.Length0 && s.y2 < grid.Length0
  }

  // ---- marking ----

  /** One segment of `parse_horiz_vert`'s loop. */
  method MarkStraight(s: Segment, grid: array2<int>)
    requires InMap(s, grid)
    modifies grid
    ensures forall r, c :: 0 <= r < grid.Length0 && 0 <= c < grid.Length1 ==>
      grid[r, c] == old(grid[r, c]) + if OnStraight(s, r, c) then 1 else 0
  {
    if s.x1 == s.x2 {
      for num := Min(s.y1, s.y2) to Max(s.y1, s.y2) + 1
        invariant forall r, c :: 0 <= r < grid.Length0 && 0 <= c < grid.Length1 ==>
          grid[r, c] == old(grid[r, c]) + if c == s.x1 && Min(s.y1, s.y2) <= r < num then 1 else 0
      {
        grid[num, s.x1] := grid[num, s.x1] + 1;
      }
    } else if s.y1 == s.y2 {
      for num := Min(s.x1, s.x2) to Max(s.x1, s.x2) + 1
        invariant forall r, c :: 0 <= r < grid.Length0 && 0 <= c < grid.Length1 ==>
          grid[r, c] == old(grid[r, c]) + if r == s.y1 && Min(s.x1, s.x2) <= c < num then 1 else 0
      {
        grid[s.y1, num] := grid[s.y1, num] + 1;
      }
    }
  }

  /** `parse_horiz_vert`: every cell gains the number of vertical and horizontal segments
      that cover it; the diagonals are skipped. */
  method MarkStraights(lines: seq<Segment>, grid: array2<int>)
    requires forall k :: 0 <= k < |lines| ==> InMap(lines[k], grid)
    modifies grid
    ensures forall r, c :: 0 <= r < grid.Length0 && 0 <= c < grid.Length1 ==>
      grid[r, c] == old(grid[r, c]) + Covering(lines, r, c, false)
  {
    for k := 0 to |lines|
      invariant forall r, c :: 0 <= r < grid.Length0 && 0 <= c < grid.Length1 ==>
        grid[r, c] == old(grid[r, c]) + Covering(lines[..k], r, c, false)
    {
      assert lines[..k + 1][..k] == lines[..k];
      MarkStraight(lines[k], grid);
    }
    assert lines[..|lines|] == lines;
  }

  /** One segment of `parse_diagonal`'s loop: walk from `(x1, y1)` until x reaches `x2`,
      then mark the end point. */
  method MarkDiagonal(s: Segment, grid: array2<int>)
    requires InMap(s, grid) && (Diagonal(s) ==> At45(s))
    modifies grid
    ensures forall r, c :: 0 <= r < grid.Length0 && 0 <= c < grid.Length1 ==>
      grid[r, c] == old(grid[r, c]) + if OnDiagonal(s, r, c) then 1 else 0
  {
    if s.x1 != s.x2 && s.y1 != s.y2 {
      var increaseX, increaseY := s.x1 < s.x2, s.y1 < s.y2;
      var x, y := s.x1 as int, s.y1 as int;
      while x != s.x2
        invariant 0 <= StepsTo(s, x) <= StepsTo(s, s.x2)
        invariant y == s.y1 + Dy(s) * StepsTo(s, x)
        invariant forall r, c :: 0 <= r < grid.Length0 && 0 <= c < grid.Length1 ==>
          grid[r, c] == old(grid[r, c])
            + if 0 <= StepsTo(s, c) < StepsTo(s, x) && r == s.y1 + Dy(s) * StepsTo(s, c) then 1 else 0
        decreases StepsTo(s, s.x2) - StepsTo(s, x)
      {
        grid[y, x] := grid[y, x] + 1;
        x := x + if increaseX then 1 else -1;
        y := y + if increaseY then 1 else -1;
      }
      grid[s.y2, s.x2] := grid[s.y2, s.x2] + 1;
    }
  }

  /** `parse_diagonal`: every cell gains the number of sloped segments that cover it. */
  method MarkDiagonals(lines: seq<Segment>, grid: array2<int>)
    requires forall k :: 0 <= k < |lines| ==> InMap(lines[k], grid)
    requires forall k :: 0 <= k < |lines| ==> Diagonal(lines[k]) ==> At45(lines[k])
    modifies grid
    ensures forall r, c :: 0 <= r < grid.Length0 && 0 <= c < grid.Length1 ==>
      grid[r, c] == old(grid[r, c]) + Covering(lines, r, c, true) - Covering(lines, r, c, false)
  {
    for k := 0 to |lines|
      invariant forall r, c :: 0 <= r < grid.Length0 && 0 <= c < grid.Length1 ==>
        grid[r, c] == old(grid[r, c]) + Covering(lines[..k], r, c, true) - Covering(lines[..k], r, c, false)
    {
      assert lines[..k + 1][..k] == lines[..k];
      MarkDiagonal(lines[k], grid);
    }
    assert lines[..|lines|] == lines;
  }

  // ---- count_overlap ----

  /** Cells of row `r` before column `j` holding more than 1. */
  function RowOverlaps(grid: array2<int>, r: nat, j: nat): nat
    requires r < grid.Length0 && j <= grid.Length1
    reads grid
  {
    if j == 0 then 0 else RowOverlaps(grid, r, j - 1) + if grid[r, j - 1] > 1 then 1 else 0
  }

  /** Cells of the first `i` rows holding more than 1. */
  function Overlaps(grid: array2<int>, i: nat): nat
    requires i <= grid.Length0
    reads grid
  {
    if i == 0 then 0 else Overlaps(grid, i - 1) + RowOverlaps(grid, i - 1, grid.Length1)
  }

  /** `count_overlap`: one pass over every index of the grid. */
  method CountOverlap(grid: array2<int>) returns (overlap: nat)
    ensures overlap == Overlaps(grid, grid.Length0)
  {
    overlap := 0;
    for i := 0 to grid.Length0
      invariant overlap == Overlaps(grid, i)
    {
      for j := 0 to grid.Length1
        invariant overlap == Overlaps(grid, i) + RowOverlaps(grid, i, j)
      {
        if grid[i, j] > 1 {
          overlap := overlap + 1;
        }
      }
    }
  }

  /** The count is the size of the set of cells holding more than 1. */
  lemma {:induction false} RowOverlapsCount(grid: array2<int>, r: nat, j: nat)
    requires r < grid.Length0 && j <= grid.Length1
    ensures RowOverlaps(grid, r, j) == |set c | 0 <= c < j && grid[r, c] > 1|
  {
    if j > 0 {
      RowOverlapsCount(grid, r, j - 1);
      var before := set c | 0 <= c < j - 1 && grid[r, c] > 1;
      if grid[r, j - 1] > 1 {
        assert (set c | 0 <= c < j && grid[r, c] > 1) == before + {j - 1};
      } else {
        assert (set c | 0 <= c < j && grid[r, c] > 1) == before;
      }
    }
  }

  // ---- part_a and part_b ----

  /** part_a: the grid sized by the endpoints, the straight segments marked, and the cells
      covered by at least two of them counted. */
  method PartA(lines: seq<Segment>) returns (overlap: nat, grid: array2<int>)
    ensures fresh(grid)
    ensures forall k :: 0 <= k < |lines| ==> InMap(lines[k], grid)
    ensures forall r, c :: 0 <= r < grid.Length0 && 0 <= c < grid.Length1 ==>
      grid[r, c] == Covering(lines, r, c, false)
    ensures overlap == Overlaps(grid, grid.Length0)
  {
    var rows, columns := Bounds(lines);
    grid := Zeros(rows, columns);
    MarkStraights(lines, grid);
    overlap := CountOverlap(grid);
  }

  /** part_b: the same with the 45 degree segments marked too. */
  method PartB(lines: seq<Segment>) returns (overlap: nat, grid: array2<int>)
    requires forall k :: 0 <= k < |lines| ==> Diagonal(lines[k]) ==> At45(lines[k])
    ensures fresh(grid)
    ensures forall k :: 0 <= k < |lines| ==> InMap(lines[k], grid)
    ensures forall r, c :: 0 <= r < grid.Length0 && 0 <= c < grid.Length1 ==>
      grid[r, c] == Covering(lines, r, c, true)
    ensures overlap == Overlaps(grid, grid.Length0)
  {
    var rows, columns := Bounds(lines);
    grid := Zeros(rows, columns);
    MarkStraights(lines, grid);
    MarkDiagonals(lines, grid);
    overlap := CountOverlap(grid);
  }
}
