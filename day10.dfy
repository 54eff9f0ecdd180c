/** Syntax scoring: lines of brackets checked with a stack. part_a scores every mismatched
    closer; part_b completes the lines that are only unfinished and takes the middle score. */
module Day10 {
  import opened Common

  predicate IsOpen(c: char) { c == '(' || c == '{' || c == '<' || c == '[' }

  /** `char_map`: the closer of each opener. */
  function Closer(c: char): (r: char)
    requires IsOpen(c)
    ensures !IsOpen(r)
  {
    match c
    case '(' => ')'
    case '{' => '}'
    case '<' => '>'
    case '[' => ']'
  }

  /** part_a's `value_map`; `None` stands for the `KeyError` of any other character. */
  function ErrorValue(c: char): Option<nat> {
    match c
    case ')' => Some(3)
    case '}' => Some(1197)
    case '>' => Some(25137)
    case ']' => Some(57)
    case _ => None
  }

  /** part_b's `value_map`. */
  function CompletionValue(c: char): nat {
    match c
    case ')' => 1
    case '}' => 3
    case '>' => 4
    case ']' => 2
    case _ => 0
  }

  ghost predicate Openers(stack: seq<char>) {
    forall i :: 0 <= i < |stack| ==> IsOpen(stack[i])
  }

  function Plus(n: nat, r: Option<nat>): Option<nat> {
    if r.None? then None else Some(n + r.value)
  }

  /** part_a on the rest of a line with the given stack: the summed values of all
      mismatched closers, or `None` when a closer meets an empty stack (the `pop` raises) or
      an unknown character is mismatched (the lookup raises). Scanning goes on after a
      mismatch, with the opener popped. */
  function ScanA(line: string, stack: seq<char>): Option<nat>
    requires Openers(stack)
  {
    if line == [] then Some(0)
    else
      var c := line[0];
      if IsOpen(c) then ScanA(line[1..], stack + [c])
      else if stack == [] then None
      else
        var rest := ScanA(line[1..], stack[..|stack| - 1]);
        if c == Closer(stack[|stack| - 1]) then rest
        else if ErrorValue(c).None? then None
        else Plus(ErrorValue(c).value, rest)
  }

  /** The inner loop of part_a for one line. */
  method ScoreLineA(line: string) returns (r: Option<nat>)
    ensures r == ScanA(line, [])
  {
    var stack: seq<char> := [];
    var score: nat := 0;
    var k := 0;
    while k < |line|
      invariant 0 <= k <= |line| && Openers(stack)
      invariant Plus(score, ScanA(line[k..], stack)) == ScanA(line, [])
    {
      var c := line[k];
      assert line[k..][1..] == line[k + 1..];
      if IsOpen(c) {
        stack := stack + [c];
      } else {
        if stack == [] {
          return None;
        }
        var expected := Closer(stack[|stack| - 1]);
        stack := stack[..|stack| - 1];
        if c != expected {
          if ErrorValue(c).None? {
            return None;
          }
          score := score + ErrorValue(c).value;
        }
      }
      k := k + 1;
    }
    r := Some(score);
  }

  function TotalA(lines: seq<string>): Option<nat> {
    if lines == [] then Some(0)
    else
      var first := ScanA(lines[0], []);
      if first.None? then None else Plus(first.value, TotalA(lines[1..]))
  }

  /** part_a: the scores of all lines added up; any raised error ends the run. */
  method PartA(lines: seq<string>) returns (score: Option<nat>)
    ensures score == TotalA(lines)
  {
    var total: nat := 0;
    var i := 0;
    while i < |lines|
      invariant 0 <= i <= |lines|
      invariant Plus(total, TotalA(lines[i..])) == TotalA(lines)
    {
      assert lines[i..][1..] == lines[i + 1..];
      var r := ScoreLineA(lines[i]);
      if r.None? {
        return None;
      }
      total := total + r.value;
      i := i + 1;
    }
    score := Some(total);
  }

  /** part_a keeps scoring after the first mismatch: `(<)]` mismatches twice, 3 + 57. */
  lemma EveryMismatchScores()
    ensures ScanA("(<)]", []) == Some(60)
  {
    assert "(<)]"[1..] == "<)]" && "<)]"[1..] == ")]" && ")]"[1..] == "]" && "]"[1..] == "";
    assert [] + ['('] == "(" && "(" + ['<'] == "(<" && "(<"[..1] == "(" && "("[..0] == [];
    assert ScanA("", []) == Some(0);
    assert ScanA("]", "(") == Some(57);
    assert ScanA(")]", "(<") == Some(60);
    assert ScanA("<)]", "(") == Some(60);
  }

  /** Where part_b's scan of a line ends. */
  datatype Outcome = Crash | Corrupt | Open(stack: seq<char>)

  /** part_b's scan: it stops (`break`) at the first mismatch; an empty-stack `pop` raises. */
  function ScanB(line: string, stack: seq<char>): (r: Outcome)
    requires Openers(stack)
    ensures r.Open? ==> Openers(r.stack)
  {
    if line == [] then Open(stack)
    else
      var c := line[0];
      if IsOpen(c) then ScanB(line[1..], stack + [c])
      else if stack == [] then Crash
      else if c == Closer(stack[|stack| - 1]) then ScanB(line[1..], stack[..|stack| - 1])
      else Corrupt
  }

  /** The two scans agree on where a line is clean: part_a scores it 0 exactly when part_b's
      scan neither raises nor stops at a mismatch, since every mismatch adds at least 3 or
      raises. A line on which part_b's `pop` raises makes part_a's raise too. */
  lemma {:induction false} CleanIffOpen(line: string, stack: seq<char>)
    requires Openers(stack)
    ensures ScanA(line, stack) == Some(0) <==> ScanB(line, stack).Open?
    ensures ScanB(line, stack).Crash? ==> ScanA(line, stack).None?
  {
    if line != [] {
      var c := line[0];
      if IsOpen(c) {
        CleanIffOpen(line[1..], stack + [c]);
      } else if stack != [] {
        CleanIffOpen(line[1..], stack[..|stack| - 1]);
      }
    }
  }

  /** part_a's total is 0 exactly when every line is only incomplete or complete, the lines
      part_b goes on to score or skip. */
  lemma {:induction false} TotalCleanIffOpen(lines: seq<string>)
    ensures TotalA(lines) == Some(0) <==> forall i :: 0 <= i < |lines| ==> ScanB(lines[i], []).Open?
  {
    if lines != [] {
      CleanIffOpen(lines[0], []);
      TotalCleanIffOpen(lines[1..]);
      assert forall i :: 1 <= i < |lines| ==> lines[i] == lines[1..][i - 1];
    }
  }

  /** The inner loop of part_b for one line. */
  method ScanLineB(line: string) returns (r: Outcome)
    ensures r == ScanB(line, [])
  {
    var stack: seq<char> := [];
    var invalid := false;
    var k := 0;
    while k < |line|
      invariant 0 <= k <= |line| && Openers(stack)
      invariant ScanB(line[k..], stack) == ScanB(line, [])
    {
      var c := line[k];
      assert line[k..][1..] == line[k + 1..];
      if IsOpen(c) {
        stack := stack + [c];
      } else {
        if stack == [] {
          return Crash;
        }
        var expected := Closer(stack[|stack| - 1]);
        stack := stack[..|stack| - 1];
        if c != expected {
          invalid := true;
          break;
        }
      }
      k := k + 1;
    }
    r := if invalid then Corrupt else Open(stack);
  }

  /** Scanning `a + b` is scanning `b` from the stack `a` leaves, unless `a` already stopped. */
  lemma {:induction false} ScanBAppend(a: string, b: string, stack: seq<char>)
    requires Openers(stack)
    ensures ScanB(a + b, stack) ==
      if ScanB(a, stack).Open? then ScanB(b, ScanB(a, stack).stack) else ScanB(a, stack)
  {
    if a == [] {
      assert a + b == b;
    } else {
      assert (a + b)[0] == a[0] && (a + b)[1..] == a[1..] + b;
      var c := a[0];
      if IsOpen(c) {
        ScanBAppend(a[1..], b, stack + [c]);
      } else if stack != [] && c == Closer(stack[|stack| - 1]) {
        ScanBAppend(a[1..], b, stack[..|stack| - 1]);
      }
    }
  }

  /** `closing_chars`: the closer of every stacked opener, innermost first. */
  function Closing(stack: seq<char>): (r: string)
    requires Openers(stack)
    ensures |r| == |stack|
    ensures forall i :: 0 <= i < |r| ==> r[i] == Closer(stack[|stack| - 1 - i])
  {
    if stack == [] then [] else [Closer(stack[|stack| - 1])] + Closing(stack[..|stack| - 1])
  }

  /** Feeding the closing characters through the matcher empties the stack with no mismatch. */
  lemma {:induction false} ClosingCompletes(stack: seq<char>)
    requires Openers(stack)
    ensures ScanB(Closing(stack), stack) == Open([])
  {
    if stack != [] {
      var init := stack[..|stack| - 1];
      assert Closing(stack)[1..] == Closing(init);
      ClosingCompletes(init);
    }
  }

  /** So an incomplete line followed by its completion is a complete, valid line. */
  lemma CompletedLineScansClean(line: string)
    requires ScanB(line, []).Open?
    ensures ScanB(line + Closing(ScanB(line, []).stack), []) == Open([])
  {
    ScanBAppend(line, Closing(ScanB(line, []).stack), []);
    ClosingCompletes(ScanB(line, []).stack);
  }

  /** The completion score: the fold `s * 5 + value`, left to right. */
  function Score(closing: string): nat {
    if closing == [] then 0
    else 5 * Score(closing[..|closing| - 1]) + CompletionValue(closing[|closing| - 1])
  }

  /** The `score := score * 5 + value_map[n]` comprehension. */
  method CompletionScore(closing: string) returns (score: nat)
    ensures score == Score(closing)
  {
    score := 0;
    for k := 0 to |closing|
      invariant score == Score(closing[..k])
    {
      assert closing[..k + 1][..k] == closing[..k];
      score := score * 5 + CompletionValue(closing[k]);
    }
    assert closing[..|closing|] == closing;
  }

  ghost predicate Closers(s: string) {
    forall i :: 0 <= i < |s| ==> s[i] in ")}>]"
  }

  /** The last closer is the lowest base-5 digit of the score, never 0. */
  lemma ScoreLastDigit(s: string)
    requires Closers(s) && s != []
    ensures Score(s) % 5 == CompletionValue(s[|s| - 1]) > 0
    ensures Score(s) / 5 == Score(s[..|s| - 1])
  {
    var last := s[|s| - 1];
    assert last in ")}>]";
    var v := CompletionValue(last);
    assert 0 < v < 5;
    assert Score(s) == 5 * Score(s[..|s| - 1]) + v;
    BaseFiveDigit(Score(s[..|s| - 1]), v);
  }

  lemma BaseFiveDigit(x: nat, v: nat)
    requires v < 5
    ensures (5 * x + v) % 5 == v && (5 * x + v) / 5 == x
  {
  }

  /** Closer values are the base-5 digits 1..4, so the score determines the completion. */
  lemma {:induction false} ScoreInjective(a: string, b: string)
    requires Closers(a) && Closers(b)
    requires Score(a) == Score(b)
    ensures a == b
  {
    if a != [] && b != [] {
      ScoreLastDigit(a);
      ScoreLastDigit(b);
      var la, lb := a[|a| - 1], b[|b| - 1];
      assert la in ")}>]" && lb in ")}>]";
      assert la == lb;
      ScoreInjective(a[..|a| - 1], b[..|b| - 1]);
      assert a == a[..|a| - 1] + [la] && b == b[..|b| - 1] + [lb];
    } else if a != [] {
      ScoreLastDigit(a);
    } else if b != [] {
      ScoreLastDigit(b);
    }
  }

  lemma {:induction false} ClosingIsClosers(stack: seq<char>)
    requires Openers(stack)
    ensures Closers(Closing(stack))
  {
    var r := Closing(stack);
    forall i | 0 <= i < |r| ensures r[i] in ")}>]" {
      assert IsOpen(stack[|stack| - 1 - i]);
    }
  }

  /** What one line adds to part_b's `scores`: the completion score of an incomplete line. */
  function Entry(o: Outcome): seq<int>
    requires o.Open? ==> Openers(o.stack)
  {
    if o.Open? && |o.stack| > 0 then [Score(Closing(o.stack))] else []
  }

  /** The list of completion scores, one per incomplete line in input order, or `None` when
      some line raises. */
  function Scores(lines: seq<string>): Option<seq<int>> {
    if lines == [] then Some([])
    else
      var o := ScanB(lines[0], []);
      var rest := Scores(lines[1..]);
      if o.Crash? || rest.None? then None else Some(Entry(o) + rest.value)
  }

  /** One line of part_b's loop: whether it raises, and what it appends to `scores`. */
  method LineEntry(line: string) returns (crash: bool, entry: seq<int>)
    ensures crash == ScanB(line, []).Crash?
    ensures !crash ==> entry == Entry(ScanB(line, []))
  {
    var o := ScanLineB(line);
    crash, entry := o.Crash?, [];
    if o.Open? && |o.stack| > 0 {
      var closing := Closing(o.stack);
      var score := CompletionScore(closing);
      entry := [score];
    }
  }

  /** The loop of part_b has collected `scores` from the lines before `i`: the whole list
      is those followed by the scores of the rest, and it raises when the rest does. */
  ghost predicate ScoresSoFar(lines: seq<string>, i: nat, scores: seq<int>)
    requires i <= |lines|
  {
    Scores(lines) == if Scores(lines[i..]).None? then None else Some(scores + Scores(lines[i..]).value)
  }

  /** Line `i` either raises, and so does the whole list, or adds its entry. */
  lemma ScoresSoFarStep(lines: seq<string>, i: nat, scores: seq<int>)
    requires i < |lines| && ScoresSoFar(lines, i, scores)
    ensures ScanB(lines[i], []).Crash? ==> Scores(lines).None?
    ensures !ScanB(lines[i], []).Crash? ==> ScoresSoFar(lines, i + 1, scores + Entry(ScanB(lines[i], [])))
  {
    var t, o := lines[i..], ScanB(lines[i], []);
    assert t[0] == lines[i] && t[1..] == lines[i + 1..];
    var rest := Scores(t[1..]);
    assert Scores(t) == if o.Crash? || rest.None? then None else Some(Entry(o) + rest.value);
    if !o.Crash? && rest.Some? {
      JoinScores(scores, Entry(o), rest.value);
    }
  }

  lemma JoinScores(a: seq<int>, b: seq<int>, c: seq<int>)
    ensures a + (b + c) == a + b + c
  {
  }

  /** `scores.sort()` and the element at `int(len(scores) / 2)`. */
  method Middle(scores: seq<int>) returns (middle: int)
    requires |scores| > 0
    ensures var s := Sort(scores, IntLe);
      SortedBy(s, IntLe) && multiset(s) == multiset(scores) && middle == s[|s| / 2]
  {
    var sorted := Sort(scores, IntLe);
    IntLeIsTotalPreorder();
    SortIsSorted(scores, IntLe);
    middle := sorted[|sorted| / 2];
  }

  /** part_b: the middle of the sorted scores; with no incomplete line the index raises,
      which is `None`. */
  method PartB(lines: seq<string>) returns (middle: Option<int>)
    ensures Scores(lines).None? || Scores(lines).value == [] <==> middle.None?
    ensures middle.Some? ==>
      var s := Sort(Scores(lines).value, IntLe);
      SortedBy(s, IntLe) && multiset(s) == multiset(Scores(lines).value) && middle.value == s[|s| / 2]
  {
    var scores: seq<int> := [];
    var i := 0;
    assert lines[0..] == lines;
    assert Scores(lines).Some? ==> scores + Scores(lines).value == Scores(lines).value;
    while i < |lines|
      invariant 0 <= i <= |lines| && ScoresSoFar(lines, i, scores)
    {
      var crash, entry := LineEntry(lines[i]);
      ScoresSoFarStep(lines, i, scores);
      if crash {
        return None;
      }
      scores := scores + entry;
      i := i + 1;
    }
    assert lines[|lines|..] == [] && scores + [] == scores;
    assert Scores(lines) == Some(scores);
    if |scores| == 0 {
      return None;
    }
    var m := Middle(scores);
    middle := Some(m);
  }
}
