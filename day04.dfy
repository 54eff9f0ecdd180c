/** Giant squid bingo: boards of rows and their columns, a board wins once five drawn numbers
    lie in one of its rows or columns, and the first and the last board to win are scored. */
module Day04 {
  import opened Common

  /** Column `i` of `rows`: entry `i` of every row, top to bottom. */
  function Column(rows: seq<seq<int>>, i: nat): (col: seq<int>)
    requires forall k :: 0 <= k < |rows| ==> i < |rows[k]|
    ensures |col| == |rows|
  {
    seq(|rows|, k requires 0 <= k < |rows| => rows[k][i])
  }

  /** Every row is at least as long as the first, so each of the first row's columns exists. */
  predicate Transposable(rows: seq<seq<int>>) {
    |rows| > 0 && forall k :: 0 <= k < |rows| ==> |rows[0]| <= |rows[k]|
  }

  predicate Rectangular(rows: seq<seq<int>>) {
    |rows| > 0 && forall k :: 0 <= k < |rows| ==> |rows[k]| == |rows[0]|
  }

  function Transpose(rows: seq<seq<int>>): (cols: seq<seq<int>>)
    requires Transposable(rows)
  {
    seq(|rows[0]|, i requires 0 <= i < |rows[0]| => Column(rows, i))
  }

  /** `Board.parse_cols`: `cols[i][k]` is `rows[k][i]`; `input[0]` and `input[k][i]` demand
      a non-empty board with no row shorter than the first. */
  method ParseCols(input: seq<seq<int>>) returns (cols: seq<seq<int>>)
    requires Transposable(input)
    ensures |cols| == |input[0]|
    ensures forall i :: 0 <= i < |cols| ==> |cols[i]| == |input|
    ensures forall i, k :: 0 <= i < |cols| && 0 <= k < |input| ==> cols[i][k] == input[k][i]
    ensures cols == Transpose(input)
  {
    cols := [];
    for i := 0 to |input[0]|
      invariant |cols| == i
      invariant forall a :: 0 <= a < i ==> cols[a] == Column(input, a)
    {
      var tmp := [];
      for k := 0 to |input|
        invariant |tmp| == k
        invariant forall b :: 0 <= b < k ==> tmp[b] == input[b][i]
      {
        tmp := tmp + [input[k][i]];
      }
      cols := cols + [tmp];
    }
  }

  /** Transposing a rectangular board twice gives the board back. */
  lemma TransposeTwice(rows: seq<seq<int>>)
    requires Rectangular(rows) && |rows[0]| > 0
    ensures Transposable(Transpose(rows))
    ensures Transpose(Transpose(rows)) == rows
  {
    var t := Transpose(rows);
    assert forall i :: 0 <= i < |t| ==> |t[i]| == |rows|;
    var tt := Transpose(t);
    assert |tt| == |rows|;
    forall k | 0 <= k < |rows| ensures tt[k] == rows[k] {
      assert |tt[k]| == |t| == |rows[k]|;
      forall i | 0 <= i < |rows[k]| ensures tt[k][i] == rows[k][i] {
        assert tt[k][i] == t[i][k];
      }
    }
  }

  /** A bingo board. Its rows, columns and number are fixed once built; `winner` is set by
      the search for the last winner. */
  class Board {
    const columns: seq<seq<int>>
    const rows: seq<seq<int>>
    const num: int
    var winner: bool

    constructor(raw: seq<seq<int>>, num: int)
      requires Transposable(raw)
      ensures columns == Transpose(raw) && rows == raw && this.num == num && !winner
    {
      var cols := ParseCols(raw);
      columns := cols;
      rows := raw;
      this.num := num;
      winner := false;
    }
  }

  /** `intersection`: the elements of `a`, in order, that occur in `b`. */
  function Intersection(a: seq<int>, b: seq<int>): seq<int> {
    if a == [] then [] else (if a[0] in b then [a[0]] else []) + Intersection(a[1..], b)
  }

  /** The intersection keeps every occurrence in `a` of a number that `b` holds, and nothing
      else. */
  lemma {:induction false} IntersectionCounts(a: seq<int>, b: seq<int>)
    ensures forall x :: multiset(Intersection(a, b))[x] == if x in b then multiset(a)[x] else 0
  {
    if a != [] {
      IntersectionCounts(a[1..], b);
      assert a == [a[0]] + a[1..];
    }
  }

  /** It keeps them in the order of `a`: the kept numbers are `a` with the others removed. */
  lemma {:induction false} IntersectionOrder(a: seq<int>, b: seq<int>, i: nat)
    requires i <= |a|
    ensures Intersection(a, b) == Intersection(a[..i], b) + Intersection(a[i..], b)
  {
    if i > 0 {
      IntersectionOrder(a[1..], b, i - 1);
      assert a[1..][..i - 1] == a[..i][1..];
      assert a[1..][i - 1..] == a[i..];
    }
  }

  /** The positions of the draw whose number lies in `line`, repeats counted. */
  function Marks(drawn: seq<int>, line: seq<int>): nat {
    |Intersection(drawn, line)|
  }

  /** A board wins when one of its rows or columns holds exactly five drawn positions. */
  predicate Wins(rows: seq<seq<int>>, columns: seq<seq<int>>, drawn: seq<int>) {
    AnyLineWins(rows, drawn) || AnyLineWins(columns, drawn)
  }

  predicate Distinct(s: seq<int>) {
    forall i, j :: 0 <= i < j < |s| ==> s[i] != s[j]
  }

  function Elements(s: seq<int>): set<int> {
    set x | x in s
  }

  /** With no number drawn twice and no number twice on a line of five, the line has five
      marks exactly when all its numbers are drawn. */
  lemma FullLine(drawn: seq<int>, line: seq<int>)
    requires |line| == 5 && Distinct(drawn) && Distinct(line)
    ensures Marks(drawn, line) == 5 <==> forall x :: x in line ==> x in drawn
  {
    var r := Intersection(drawn, line);
    DistinctIntersection(drawn, line);
    DistinctCard(line);
    DistinctCard(r);
    IntersectionElements(drawn, line);
    SubsetFull(Elements(r), Elements(line));
    if forall x :: x in line ==> x in drawn {
      assert Elements(r) == Elements(line);
    } else {
      var y :| y in line && y !in drawn;
      assert y in Elements(line) && y !in Elements(r);
    }
  }

  /** The numbers on both the line and the draw are those of the intersection. */
  lemma IntersectionElements(drawn: seq<int>, line: seq<int>)
    ensures Elements(Intersection(drawn, line)) == Elements(line) * Elements(drawn)
  {
    var r := Intersection(drawn, line);
    IntersectionCounts(drawn, line);
    forall x ensures x in r <==> x in line && x in drawn {
      assert x in r <==> x in multiset(r);
      assert x in drawn <==> x in multiset(drawn);
    }
  }

  /** A subset as large as the set is the set. */
  lemma SubsetFull(a: set<int>, b: set<int>)
    requires a <= b
    ensures |a| == |b| <==> a == b
  {
    if a != b {
      assert b == a + (b - a);
      assert b - a != {};
    }
  }

  lemma {:induction false} DistinctIntersection(a: seq<int>, b: seq<int>)
    requires Distinct(a)
    ensures Distinct(Intersection(a, b))
  {
    if a != [] {
      var t := Intersection(a[1..], b);
      DistinctIntersection(a[1..], b);
      assert Distinct(a[1..]);
      if a[0] in b {
        assert a[0] !in t by {
          IntersectionCounts(a[1..], b);
          assert a[0] !in multiset(a[1..]);
          assert multiset(t)[a[0]] == 0;
        }
        DistinctCons(a[0], t);
      }
    }
  }

  lemma DistinctCons(x: int, t: seq<int>)
    requires Distinct(t) && x !in t
    ensures Distinct([x] + t)
  {
  }

  lemma {:induction false} DistinctCard(s: seq<int>)
    requires Distinct(s)
    ensures |Elements(s)| == |s|
  {
    if s != [] {
      var t := s[1..];
      assert Distinct(t);
      DistinctCard(t);
      assert Elements(s) == Elements(t) + {s[0]};
      assert s[0] !in t;
    }
  }

  /** Some line holds exactly five drawn positions. */
  predicate AnyLineWins(lines: seq<seq<int>>, drawn: seq<int>) {
    exists i :: 0 <= i < |lines| && Marks(drawn, lines[i]) == 5
  }

  /** One of the two `for` loops of `check_board`. */
  method CheckLines(lines: seq<seq<int>>, drawn: seq<int>) returns (win: bool)
    ensures win == AnyLineWins(lines, drawn)
  {
    for i := 0 to |lines|
      invariant forall a :: 0 <= a < i ==> Marks(drawn, lines[a]) != 5
    {
      if |Intersection(drawn, lines[i])| == 5 {
        return true;
      }
    }
    return false;
  }

  /** `check_board`: rows first, then columns, stopping at the first line with five marks. */
  method CheckBoard(board: Board, drawn: seq<int>) returns (win: bool)
    ensures win == Wins(board.rows, board.columns, drawn)
  {
    win := CheckLines(board.rows, drawn);
    if !win {
      win := CheckLines(board.columns, drawn);
    }
  }

  /** The numbers of a row that have not been drawn, summed. */
  function RowUnmarked(row: seq<int>, drawn: seq<int>): int {
    if row == [] then 0
    else RowUnmarked(row[..|row| - 1], drawn) + (if row[|row| - 1] in drawn then 0 else row[|row| - 1])
  }

  function Unmarked(rows: seq<seq<int>>, drawn: seq<int>): int {
    if rows == [] then 0 else Unmarked(rows[..|rows| - 1], drawn) + RowUnmarked(rows[|rows| - 1], drawn)
  }

  /** The sum of a row's entries and of a board's. */
  function RowTotal(row: seq<int>): int {
    if row == [] then 0 else RowTotal(row[..|row| - 1]) + row[|row| - 1]
  }

  function BoardTotal(rows: seq<seq<int>>): int {
    if rows == [] then 0 else BoardTotal(rows[..|rows| - 1]) + RowTotal(rows[|rows| - 1])
  }

  /** The numbers of a row that have been drawn, summed. */
  function RowMarked(row: seq<int>, drawn: seq<int>): int {
    if row == [] then 0
    else RowMarked(row[..|row| - 1], drawn) + (if row[|row| - 1] in drawn then row[|row| - 1] else 0)
  }

  function Marked(rows: seq<seq<int>>, drawn: seq<int>): int {
    if rows == [] then 0 else Marked(rows[..|rows| - 1], drawn) + RowMarked(rows[|rows| - 1], drawn)
  }

  /** The unmarked and the marked numbers make up the whole board. */
  lemma {:induction false} UnmarkedAndMarked(rows: seq<seq<int>>, drawn: seq<int>)
    ensures Unmarked(rows, drawn) + Marked(rows, drawn) == BoardTotal(rows)
  {
    if rows != [] {
      UnmarkedAndMarked(rows[..|rows| - 1], drawn);
      RowSplit(rows[|rows| - 1], drawn);
    }
  }

  lemma {:induction false} RowSplit(row: seq<int>, drawn: seq<int>)
    ensures RowUnmarked(row, drawn) + RowMarked(row, drawn) == RowTotal(row)
  {
    if row != [] {
      RowSplit(row[..|row| - 1], drawn);
    }
  }

  /** With nothing drawn every number is unmarked. */
  lemma {:induction false} NothingDrawn(rows: seq<seq<int>>)
    ensures Unmarked(rows, []) == BoardTotal(rows)
  {
    if rows != [] {
      NothingDrawn(rows[..|rows| - 1]);
      NothingDrawnRow(rows[|rows| - 1]);
    }
  }

  lemma {:induction false} NothingDrawnRow(row: seq<int>)
    ensures RowUnmarked(row, []) == RowTotal(row)
  {
    if row != [] {
      NothingDrawnRow(row[..|row| - 1]);
    }
  }

  /** `get_unmarked_sum`. */
  method UnmarkedSum(board: Board, drawn: seq<int>) returns (sum: int)
    ensures sum == Unmarked(board.rows, drawn)
  {
    var rows := board.rows;
    sum := 0;
    for r := 0 to |rows|
      invariant sum == Unmarked(rows[..r], drawn)
    {
      var row := rows[r];
      ghost var before := sum;
      for c := 0 to |row|
        invariant sum == before + RowUnmarked(row[..c], drawn)
      {
        assert row[..c + 1][..c] == row[..c];
        if row[c] !in drawn {
          sum := sum + row[c];
        }
      }
      assert row[..|row|] == row;
      assert rows[..r + 1][..r] == rows[..r];
    }
    assert rows[..|rows|] == rows;
  }

  // ---------------------------------------------------------------------------------------
  // The first and the last board to win

  /** The shortest draw prefix, no shorter than `n`, after which the board wins. */
  function FirstWinFrom(rows: seq<seq<int>>, columns: seq<seq<int>>, draws: seq<int>, n: nat)
    : (r: Option<nat>)
    requires n <= |draws| + 1
    ensures r.Some? ==> n <= r.value <= |draws| && Wins(rows, columns, draws[..r.value])
    ensures r.Some? ==> forall k :: n <= k < r.value ==> !Wins(rows, columns, draws[..k])
    ensures r.None? ==> forall k :: n <= k <= |draws| ==> !Wins(rows, columns, draws[..k])
    decreases |draws| + 1 - n
  {
    if n > |draws| then None
    else if Wins(rows, columns, draws[..n]) then Some(n)
    else FirstWinFrom(rows, columns, draws, n + 1)
  }

  /** How many numbers must be drawn before `board` wins (`nums` is never checked empty). */
  function FirstWin(board: Board, draws: seq<int>): Option<nat> {
    FirstWinFrom(board.rows, board.columns, draws, 1)
  }

  /** A winning board, the numbers drawn when it won, its unmarked sum and its score. */
  datatype Win = Win(drawn: nat, board: nat, unmarked: int, score: int)

  /** The score of `boards[b]` after the first `n` numbers: the last of them times the sum of
      the numbers not yet drawn. */
  predicate Scored(w: Win, boards: seq<Board>, draws: seq<int>) {
    && w.board < |boards|
    && 1 <= w.drawn <= |draws|
    && w.unmarked == Unmarked(boards[w.board].rows, draws[..w.drawn])
    && w.score == draws[w.drawn - 1] * w.unmarked
  }

  /** Board `b` winning after `k` numbers comes no later than board `b'` after `k'`: the
      draw goes first, the order of the list breaks ties. */
  predicate NoLater(k: nat, b: nat, k': nat, b': nat) {
    k < k' || (k == k' && b <= b')
  }

  /** `find_winning_board`: after each number is drawn the boards are checked in order, and
      the first win ends the search. The result is the board that wins at the shortest draw,
      earliest in the list among those; `None` when no board ever wins. */
  method FindWinningBoard(draws: seq<int>, boards: seq<Board>) returns (w: Option<Win>)
    ensures w.None? <==> forall b :: 0 <= b < |boards| ==> FirstWin(boards[b], draws).None?
    ensures w.Some? ==> Scored(w.value, boards, draws)
    ensures w.Some? ==> FirstWin(boards[w.value.board], draws) == Some(w.value.drawn)
    ensures w.Some? ==> forall b :: 0 <= b < |boards| && FirstWin(boards[b], draws).Some? ==>
      NoLater(w.value.drawn, w.value.board, FirstWin(boards[b], draws).value, b)
  {
    var nums := [];
    for i := 0 to |draws|
      invariant nums == draws[..i]
      invariant forall b, k :: 0 <= b < |boards| && 1 <= k <= i ==>
        !Wins(boards[b].rows, boards[b].columns, draws[..k])
    {
      nums := nums + [draws[i]];
      assert nums == draws[..i + 1];
      for j := 0 to |boards|
        invariant nums == draws[..i + 1]
        invariant forall b :: 0 <= b < j ==> !Wins(boards[b].rows, boards[b].columns, nums)
      {
        var win := CheckBoard(boards[j], nums);
        if win {
          var unmarked := UnmarkedSum(boards[j], nums);
          w := Some(Win(i + 1, j, unmarked, draws[i] * unmarked));
          FirstAt(boards, draws, i, j);
          return;
        }
      }
    }
    w := None;
  }

  /** The board that wins at the `i + 1`-th number, when no board won sooner and no earlier
      board wins then, is first. */
  lemma FirstAt(boards: seq<Board>, draws: seq<int>, i: nat, j: nat)
    requires i < |draws| && j < |boards|
    requires forall b, k :: 0 <= b < |boards| && 1 <= k <= i ==>
      !Wins(boards[b].rows, boards[b].columns, draws[..k])
    requires forall b :: 0 <= b < j ==> !Wins(boards[b].rows, boards[b].columns, draws[..i + 1])
    requires Wins(boards[j].rows, boards[j].columns, draws[..i + 1])
    ensures FirstWin(boards[j], draws) == Some(i + 1)
    ensures forall b :: 0 <= b < |boards| && FirstWin(boards[b], draws).Some? ==>
      NoLater(i + 1, j, FirstWin(boards[b], draws).value, b)
  {
    forall b | 0 <= b < |boards| && FirstWin(boards[b], draws).Some?
      ensures NoLater(i + 1, j, FirstWin(boards[b], draws).value, b)
    {
      var k := FirstWin(boards[b], draws).value;
      assert Wins(boards[b].rows, boards[b].columns, draws[..k]);
    }
  }

  /** The threshold of the search for the last winner once round `i + 1` has checked the
      boards before `j`: those have seen `i + 1` numbers, the others `i`. */
  function Seen(i: nat, j: nat, b: nat): nat {
    if b < j then i + 1 else i
  }

  /** Board `b`, not a winner to begin with, has won within the `Seen(i, j, b)` numbers
      it has been checked against. */
  ghost predicate Counted(boards: seq<Board>, init: seq<bool>, draws: seq<int>, i: nat, j: nat, b: nat)
    requires b < |boards| == |init|
  {
    !init[b] && FirstWin(boards[b], draws).Some? && FirstWin(boards[b], draws).value <= Seen(i, j, b)
  }

  /** `last` is the winner found latest so far, with the numbers drawn when it won, or
      `None` when no board has won yet. */
  ghost predicate IsLast(last: Option<(nat, seq<int>)>, boards: seq<Board>, init: seq<bool>,
                         draws: seq<int>, i: nat, j: nat)
    requires |boards| == |init|
  {
    && (last.None? <==> forall b :: 0 <= b < |boards| ==> !Counted(boards, init, draws, i, j, b))
    && (last.Some? ==>
         var b' := last.value.0;
         && b' < |boards|
         && Counted(boards, init, draws, i, j, b')
         && last.value.1 == draws[..FirstWin(boards[b'], draws).value]
         && forall b :: 0 <= b < |boards| && Counted(boards, init, draws, i, j, b) ==>
              NoLater(FirstWin(boards[b], draws).value, b, FirstWin(boards[b'], draws).value, b'))
  }

  /** `winner` is set exactly on the boards that started as winners or have won by then. */
  ghost predicate Flags(boards: seq<Board>, init: seq<bool>, draws: seq<int>, i: nat, j: nat)
    requires |boards| == |init|
    reads set b | b in boards
  {
    forall b :: 0 <= b < |boards| ==>
      (boards[b].winner == (init[b] || (FirstWin(boards[b], draws).Some? &&
                                       FirstWin(boards[b], draws).value <= Seen(i, j, b))))
  }

  /** No board appears twice in the list. */
  predicate DistinctBoards(boards: seq<Board>) {
    forall a, b :: 0 <= a < |boards| && 0 <= b < |boards| && a != b ==> boards[a] != boards[b]
  }

  /** One pass of the inner loop of `find_losing_board`, with `nums` the first `i + 1` numbers. */
  method LosingRound(draws: seq<int>, boards: seq<Board>, ghost init: seq<bool>, i: nat,
                     nums: seq<int>, last0: Option<(nat, seq<int>)>)
    returns (last: Option<(nat, seq<int>)>)
    requires i < |draws| && nums == draws[..i + 1] && |init| == |boards|
    requires DistinctBoards(boards)
    requires Flags(boards, init, draws, i, 0)
    requires IsLast(last0, boards, init, draws, i, 0)
    modifies set b | b in boards
    ensures Flags(boards, init, draws, i, |boards|)
    ensures IsLast(last, boards, init, draws, i, |boards|)
  {
    last := last0;
    for j := 0 to |boards|
      invariant Flags(boards, init, draws, i, j)
      invariant IsLast(last, boards, init, draws, i, j)
    {
      last := LosingVisit(draws, boards, init, i, j, nums, last);
    }
  }

  /** The body of that loop for board `j`: a board already marked is skipped, and one that
      wins now is marked and recorded. */
  method LosingVisit(draws: seq<int>, boards: seq<Board>, ghost init: seq<bool>, i: nat, j: nat,
                     nums: seq<int>, last0: Option<(nat, seq<int>)>)
    returns (last: Option<(nat, seq<int>)>)
    requires i < |draws| && nums == draws[..i + 1] && j < |boards| == |init|
    requires DistinctBoards(boards)
    requires Flags(boards, init, draws, i, j)
    requires IsLast(last0, boards, init, draws, i, j)
    modifies boards[j]
    ensures Flags(boards, init, draws, i, j + 1)
    ensures IsLast(last, boards, init, draws, i, j + 1)
  {
    last := last0;
    var board := boards[j];
    if board.winner {
      SameCounted(last, boards, init, draws, i, j);
      FlagsStep(boards, init, draws, i, j);
      return;
    }
    var win := CheckBoard(board, nums);
    if win {
      NewLast(last, boards, init, draws, i, j);
      last := Some((j, nums));
      board.winner := true;
      FlagsStep(boards, init, draws, i, j);
    } else {
      NotNow(boards, draws, i, j);
      SameCounted(last, boards, init, draws, i, j);
      FlagsStep(boards, init, draws, i, j);
    }
  }

  /** A board that is not seen wins at `i + 1` numbers when it has not won by `i`. */
  lemma NotNow(boards: seq<Board>, draws: seq<int>, i: nat, j: nat)
    requires i < |draws| && j < |boards|
    requires !Wins(boards[j].rows, boards[j].columns, draws[..i + 1])
    ensures FirstWin(boards[j], draws) != Some(i + 1)
  {
  }

  /** Seeing one more number on board `j` changes nothing when it does not make `j` count. */
  lemma SameCounted(last: Option<(nat, seq<int>)>, boards: seq<Board>, init: seq<bool>,
                    draws: seq<int>, i: nat, j: nat)
    requires j < |boards| == |init|
    requires init[j] || FirstWin(boards[j], draws) != Some(i + 1)
    requires IsLast(last, boards, init, draws, i, j)
    ensures IsLast(last, boards, init, draws, i, j + 1)
  {
    var k := j + 1;
    forall b | 0 <= b < |boards|
      ensures Counted(boards, init, draws, i, k, b) == Counted(boards, init, draws, i, j, b)
    {
      if b == j {
        assert Seen(i, j, b) == i && Seen(i, k, b) == i + 1;
      } else {
        assert Seen(i, j, b) == Seen(i, k, b);
      }
    }
    if last.Some? {
      var b' := last.value.0;
      assert Counted(boards, init, draws, i, k, b');
      forall b | 0 <= b < |boards| && Counted(boards, init, draws, i, k, b)
        ensures NoLater(FirstWin(boards[b], draws).value, b, FirstWin(boards[b'], draws).value, b')
      {
        assert Counted(boards, init, draws, i, j, b);
      }
    } else {
      forall b | 0 <= b < |boards|
        ensures !Counted(boards, init, draws, i, k, b)
      {
        assert !Counted(boards, init, draws, i, j, b);
      }
    }
  }

  /** A board not yet marked that wins at `i + 1` numbers is the latest winner so far. */
  lemma NewLast(last: Option<(nat, seq<int>)>, boards: seq<Board>, init: seq<bool>,
                draws: seq<int>, i: nat, j: nat)
    requires i < |draws| && j < |boards| == |init|
    requires !init[j]
    requires !(FirstWin(boards[j], draws).Some? && FirstWin(boards[j], draws).value <= i)
    requires Wins(boards[j].rows, boards[j].columns, draws[..i + 1])
    requires IsLast(last, boards, init, draws, i, j)
    ensures FirstWin(boards[j], draws) == Some(i + 1)
    ensures IsLast(Some((j, draws[..i + 1])), boards, init, draws, i, j + 1)
  {
    var f := FirstWin(boards[j], draws);
    assert f.Some?;
    assert f.value == i + 1;
    assert Seen(i, j + 1, j) == i + 1;
    assert Counted(boards, init, draws, i, j + 1, j);
    forall b | 0 <= b < |boards| && Counted(boards, init, draws, i, j + 1, b)
      ensures NoLater(FirstWin(boards[b], draws).value, b, i + 1, j)
    {
      assert FirstWin(boards[b], draws).value <= Seen(i, j + 1, b);
    }
  }

  /** The flags after board `j` has been handled. */
  lemma FlagsStep(boards: seq<Board>, init: seq<bool>, draws: seq<int>, i: nat, j: nat)
    requires j < |boards| == |init|
    requires forall b :: 0 <= b < |boards| && b != j ==>
      (boards[b].winner == (init[b] || (FirstWin(boards[b], draws).Some? &&
                                       FirstWin(boards[b], draws).value <= Seen(i, j, b))))
    requires boards[j].winner == (init[j] || (FirstWin(boards[j], draws).Some? &&
                                             FirstWin(boards[j], draws).value <= i + 1))
    ensures Flags(boards, init, draws, i, j + 1)
  {
  }

  /** `find_losing_board`: the boards not yet marked are checked after every number, each one
      that wins is marked, and the last one recorded is scored. The result is the board that
      wins at the longest draw, latest in the list among those, of the boards not marked to
      begin with; `None` when none of them ever wins (the source then fails on `None`). Every
      board that wins ends up marked. */
  method FindLosingBoard(draws: seq<int>, boards: seq<Board>) returns (w: Option<Win>)
    requires DistinctBoards(boards)
    modifies set b | b in boards
    ensures forall b :: 0 <= b < |boards| ==>
      boards[b].winner == (old(boards[b].winner) || FirstWin(boards[b], draws).Some?)
    ensures LastWin(w, boards, seq(|boards|, b requires 0 <= b < |boards| => old(boards[b].winner)), draws)
  {
    ghost var init := seq(|boards|, b requires 0 <= b < |boards| reads set x | x in boards =>
                          boards[b].winner);
    assert forall b :: 0 <= b < |boards| ==> init[b] == boards[b].winner;
    var last: Option<(nat, seq<int>)> := None;
    var nums := [];
    StartFlags(boards, init, draws);
    for i := 0 to |draws|
      invariant nums == draws[..i]
      invariant Flags(boards, init, draws, i, 0)
      invariant IsLast(last, boards, init, draws, i, 0)
    {
      nums := nums + [draws[i]];
      assert nums == draws[..i + 1];
      last := LosingRound(draws, boards, init, i, nums, last);
      RoundDone(last, boards, init, draws, i);
    }
    EndFlags(boards, init, draws);
    w := ScoreLast(draws, boards, init, last);
  }

  /** What `find_losing_board` reports, with `init` the flags the boards started with: `None`
      when no board not marked at first ever wins; otherwise the score of the board, among
      those, that wins at the longest draw and latest in the list among those. */
  ghost predicate LastWin(w: Option<Win>, boards: seq<Board>, init: seq<bool>, draws: seq<int>)
    requires |init| == |boards|
  {
    && (w.None? <==> forall b :: 0 <= b < |boards| && !init[b] ==> FirstWin(boards[b], draws).None?)
    && (w.Some? ==>
         && Scored(w.value, boards, draws)
         && !init[w.value.board]
         && FirstWin(boards[w.value.board], draws) == Some(w.value.drawn)
         && forall b :: 0 <= b < |boards| && !init[b] && FirstWin(boards[b], draws).Some? ==>
              NoLater(FirstWin(boards[b], draws).value, b, w.value.drawn, w.value.board))
  }

  /** The score computed after the last number from the recorded winner. */
  method ScoreLast(draws: seq<int>, boards: seq<Board>, ghost init: seq<bool>,
                   last: Option<(nat, seq<int>)>) returns (w: Option<Win>)
    requires |init| == |boards|
    requires IsLast(last, boards, init, draws, |draws|, 0)
    ensures LastWin(w, boards, init, draws)
  {
    if last.None? {
      EndNone(boards, init, draws);
      return None;
    }
    var (b, lastNums) := last.value;
    var k := FirstWin(boards[b], draws).value;
    assert lastNums == draws[..k] && 1 <= k <= |draws|;
    assert lastNums[|lastNums| - 1] == draws[k - 1];
    var unmarked := UnmarkedSum(boards[b], lastNums);
    w := Some(Win(k, b, unmarked, lastNums[|lastNums| - 1] * unmarked));
    EndSome(boards, init, draws, b);
  }

  /** After every number the flags mark the boards marked at first and those that won. */
  lemma EndFlags(boards: seq<Board>, init: seq<bool>, draws: seq<int>)
    requires |init| == |boards|
    requires Flags(boards, init, draws, |draws|, 0)
    ensures forall b :: 0 <= b < |boards| ==>
      boards[b].winner == (init[b] || FirstWin(boards[b], draws).Some?)
  {
    forall b | 0 <= b < |boards|
      ensures boards[b].winner == (init[b] || FirstWin(boards[b], draws).Some?)
    {
      assert Seen(|draws|, 0, b) == |draws|;
    }
  }

  /** Before any number is drawn only the boards marked to begin with are marked, and no
      board has won. */
  lemma StartFlags(boards: seq<Board>, init: seq<bool>, draws: seq<int>)
    requires |init| == |boards|
    requires forall b :: 0 <= b < |boards| ==> init[b] == boards[b].winner
    ensures Flags(boards, init, draws, 0, 0)
    ensures IsLast(None, boards, init, draws, 0, 0)
  {
    forall b | 0 <= b < |boards|
      ensures !Counted(boards, init, draws, 0, 0, b)
    {
    }
  }

  /** Once round `i + 1` has handled every board, all boards have seen `i + 1` numbers. */
  lemma RoundDone(last: Option<(nat, seq<int>)>, boards: seq<Board>, init: seq<bool>,
                  draws: seq<int>, i: nat)
    requires |init| == |boards|
    requires Flags(boards, init, draws, i, |boards|)
    requires IsLast(last, boards, init, draws, i, |boards|)
    ensures Flags(boards, init, draws, i + 1, 0)
    ensures IsLast(last, boards, init, draws, i + 1, 0)
  {
    var n, i' := |boards|, i + 1;
    forall b | 0 <= b < |boards|
      ensures Counted(boards, init, draws, i', 0, b) == Counted(boards, init, draws, i, n, b)
    {
      assert Seen(i', 0, b) == Seen(i, n, b);
    }
  }

  /** When no board counts after every number, none of the boards not marked at first wins. */
  lemma EndNone(boards: seq<Board>, init: seq<bool>, draws: seq<int>)
    requires |init| == |boards|
    requires forall b :: 0 <= b < |boards| ==> !Counted(boards, init, draws, |draws|, 0, b)
    ensures forall b :: 0 <= b < |boards| && !init[b] ==> FirstWin(boards[b], draws).None?
  {
    forall b | 0 <= b < |boards| && !init[b]
      ensures FirstWin(boards[b], draws).None?
    {
      assert !Counted(boards, init, draws, |draws|, 0, b);
      assert Seen(|draws|, 0, b) == |draws|;
    }
  }

  /** After every number the recorded board comes last among all that won. */
  lemma EndSome(boards: seq<Board>, init: seq<bool>, draws: seq<int>, b': nat)
    requires b' < |boards| == |init| && FirstWin(boards[b'], draws).Some?
    requires forall b :: 0 <= b < |boards| && Counted(boards, init, draws, |draws|, 0, b) ==>
      NoLater(FirstWin(boards[b], draws).value, b, FirstWin(boards[b'], draws).value, b')
    ensures forall b :: 0 <= b < |boards| && !init[b] && FirstWin(boards[b], draws).Some? ==>
      NoLater(FirstWin(boards[b], draws).value, b, FirstWin(boards[b'], draws).value, b')
  {
    forall b | 0 <= b < |boards| && !init[b] && FirstWin(boards[b], draws).Some?
      ensures NoLater(FirstWin(boards[b], draws).value, b, FirstWin(boards[b'], draws).value, b')
    {
      assert Counted(boards, init, draws, |draws|, 0, b);
    }
  }
}
