/** Binary diagnostic: per-position bit counts, the gamma/epsilon rates built from the most
    and least common bits, and the oxygen/CO2 ratings found by filtering the report. */
module Day03 {
  import opened Common

  /** How many of `lines` have a character at position `i`, and whether it is '0'
      (`zero`) or anything else (`!zero`). */
  function CountAt(lines: seq<string>, i: nat, zero: bool): nat {
    if lines == [] then 0
    else
      var l := lines[|lines| - 1];
      CountAt(lines[..|lines| - 1], i, zero) + (if i < |l| && (l[i] == '0') == zero then 1 else 0)
  }

  function LongerThan(lines: seq<string>, i: nat): nat {
    if lines == [] then 0
    else LongerThan(lines[..|lines| - 1], i) + (if i < |lines[|lines| - 1]| then 1 else 0)
  }

  /** At every position the zeros and the ones together count the lines that reach it. */
  lemma {:induction false} CountsAddUp(lines: seq<string>, i: nat)
    ensures CountAt(lines, i, true) + CountAt(lines, i, false) == LongerThan(lines, i)
  {
    if lines != [] {
      CountsAddUp(lines[..|lines| - 1], i);
    }
  }

  lemma {:induction false} LongerThanAll(lines: seq<string>, i: nat)
    requires forall k :: 0 <= k < |lines| ==> i < |lines[k]|
    ensures LongerThan(lines, i) == |lines|
  {
    if lines != [] {
      LongerThanAll(lines[..|lines| - 1], i);
    }
  }

  /** `calc_occurences`: one counter pair per position of the first line; a line longer than
      the first would index past the counters, so lines may not be longer. */
  method CalcOccurrences(lines: seq<string>) returns (zeros: seq<nat>, ones: seq<nat>)
    requires |lines| > 0
    requires forall k :: 0 <= k < |lines| ==> |lines[k]| <= |lines[0]|
    ensures |zeros| == |ones| == |lines[0]|
    ensures forall i :: 0 <= i < |zeros| ==>
      zeros[i] == CountAt(lines, i, true) && ones[i] == CountAt(lines, i, false)
  {
    var n := |lines[0]|;
    zeros := seq(n, _ => 0);
    ones := seq(n, _ => 0);
    for k := 0 to |lines|
      invariant |zeros| == |ones| == n
      invariant forall i :: 0 <= i < n ==>
        zeros[i] == CountAt(lines[..k], i, true) && ones[i] == CountAt(lines[..k], i, false)
    {
      var line := lines[k];
      assert lines[..k + 1][..k] == lines[..k];
      for i := 0 to |line|
        invariant |zeros| == |ones| == n
        invariant forall j :: 0 <= j < n ==>
          zeros[j] == CountAt(lines[..k], j, true) + (if j < i && line[j] == '0' then 1 else 0)
        invariant forall j :: 0 <= j < n ==>
          ones[j] == CountAt(lines[..k], j, false) + (if j < i && line[j] != '0' then 1 else 0)
      {
        if line[i] == '0' {
          zeros := zeros[i := zeros[i] + 1];
        } else {
          ones := ones[i := ones[i] + 1];
        }
      }
    }
    assert lines[..|lines|] == lines;
  }

  predicate IsBinary(s: string) {
    forall i :: 0 <= i < |s| ==> s[i] == '0' || s[i] == '1'
  }

  /** Python's `int(s, 2)`, on strings of binary digits (callers ensure it). */
  function BinValue(s: string): nat {
    if s == [] then 0 else 2 * BinValue(s[..|s| - 1]) + (if s[|s| - 1] == '1' then 1 else 0)
  }

  function Pow2(n: nat): nat { if n == 0 then 1 else 2 * Pow2(n - 1) }

  /** Flips every binary digit. */
  function Complement(s: string): (r: string)
    ensures |r| == |s|
    ensures forall i :: 0 <= i < |s| ==> (r[i] == '1' <==> s[i] != '1') && r[i] in "01"
  {
    seq(|s|, i requires 0 <= i < |s| => if s[i] == '1' then '0' else '1')
  }

  lemma {:induction false} BinValueBound(s: string)
    requires IsBinary(s)
    ensures BinValue(s) < Pow2(|s|)
  {
    if s != [] {
      BinValueBound(s[..|s| - 1]);
    }
  }

  /** A number and its bitwise complement add up to all ones. */
  lemma {:induction false} ComplementSum(s: string)
    requires IsBinary(s)
    ensures BinValue(s) + BinValue(Complement(s)) == Pow2(|s|) - 1
  {
    if s != [] {
      var init := s[..|s| - 1];
      assert Complement(s)[..|s| - 1] == Complement(init);
      ComplementSum(init);
    }
  }

  /** part_a, after counting: gamma takes '1' where ones strictly outnumber zeros (a tie gives
      '0'), epsilon the opposite bit; the result is their product. */
  method GammaEpsilon(zeros: seq<nat>, ones: seq<nat>) returns (gamma: string, epsilon: string)
    requires |zeros| == |ones|
    ensures |gamma| == |ones| && IsBinary(gamma)
    ensures forall i :: 0 <= i < |gamma| ==> (gamma[i] == '1' <==> ones[i] > zeros[i])
    ensures epsilon == Complement(gamma)
  {
    gamma, epsilon := "", "";
    for i := 0 to |ones|
      invariant |gamma| == |epsilon| == i && IsBinary(gamma)
      invariant forall j :: 0 <= j < i ==> (gamma[j] == '1' <==> ones[j] > zeros[j])
      invariant epsilon == Complement(gamma)
    {
      if ones[i] > zeros[i] {
        gamma, epsilon := gamma + "1", epsilon + "0";
      } else {
        gamma, epsilon := gamma + "0", epsilon + "1";
      }
    }
  }

  /** part_a. `int("", 2)` raises, so the first line must not be empty. */
  method PartA(lines: seq<string>) returns (result: nat)
    requires |lines| > 0 && |lines[0]| > 0
    requires forall k :: 0 <= k < |lines| ==> |lines[k]| <= |lines[0]|
    ensures exists gamma: string ::
      && IsBinary(gamma) && |gamma| == |lines[0]|
      && (forall i :: 0 <= i < |gamma| ==>
            (gamma[i] == '1' <==> CountAt(lines, i, false) > CountAt(lines, i, true)))
      && result == BinValue(gamma) * BinValue(Complement(gamma))
      && BinValue(gamma) + BinValue(Complement(gamma)) == Pow2(|lines[0]|) - 1
  {
    var zeros, ones := CalcOccurrences(lines);
    var gamma, epsilon := GammaEpsilon(zeros, ones);
    ComplementSum(gamma);
    result := BinValue(gamma) * BinValue(epsilon);
  }

  /** Every candidate is long enough to be read at `bit`. */
  predicate Reaches(c: seq<string>, bit: nat) {
    forall k :: 0 <= k < |c| ==> bit < |c[k]|
  }

  /** The candidates whose character at `bit` is '0' (`zero`) or is not '0' (`!zero`), in order. */
  function Keep(c: seq<string>, bit: nat, zero: bool): (r: seq<string>)
    requires Reaches(c, bit)
  {
    if c == [] then []
    else (if (c[0][bit] == '0') == zero then [c[0]] else []) + Keep(c[1..], bit, zero)
  }

  lemma {:induction false} KeepAppend(c: seq<string>, x: string, bit: nat, zero: bool)
    requires Reaches(c, bit) && bit < |x|
    ensures Keep(c + [x], bit, zero) == Keep(c, bit, zero) + (if (x[bit] == '0') == zero then [x] else [])
  {
    if c == [] {
      assert [x][1..] == [];
    } else {
      assert (c + [x])[1..] == c[1..] + [x];
      KeepAppend(c[1..], x, bit, zero);
    }
  }

  /** `Keep` selects exactly the candidates with the wanted character at `bit`. */
  lemma {:induction false} KeepMembers(c: seq<string>, bit: nat, zero: bool, x: string)
    requires Reaches(c, bit)
    ensures x in Keep(c, bit, zero) <==> x in c && (x[bit] == '0') == zero
  {
    if c != [] {
      assert c == [c[0]] + c[1..];
      KeepMembers(c[1..], bit, zero, x);
    }
  }

  lemma {:induction false} KeepSplits(c: seq<string>, bit: nat)
    requires Reaches(c, bit)
    ensures |Keep(c, bit, true)| + |Keep(c, bit, false)| == |c|
  {
    if c != [] {
      KeepSplits(c[1..], bit);
    }
  }

  /** One filtering round: oxygen keeps the ones unless zeros are strictly more; CO2 keeps
      the zeros unless ones are strictly fewer. */
  function Filter(c: seq<string>, bit: nat, oxygen: bool): seq<string>
    requires Reaches(c, bit)
  {
    var zs := Keep(c, bit, true);
    var os := Keep(c, bit, false);
    if oxygen then (if |os| >= |zs| then os else zs)
    else (if |zs| <= |os| then zs else os)
  }

  /** Each round keeps exactly the previous candidates carrying the selected bit. */
  lemma FilterKeepsSelectedBit(c: seq<string>, bit: nat, oxygen: bool)
    requires Reaches(c, bit)
    ensures exists zero: bool :: Filter(c, bit, oxygen) == Keep(c, bit, zero)
  {
    if Filter(c, bit, oxygen) == Keep(c, bit, true) {
    } else {
      assert Filter(c, bit, oxygen) == Keep(c, bit, false);
    }
  }

  /** The oxygen rule keeps the ones on a tie, so it never empties a non-empty list. */
  lemma OxygenStaysNonEmpty(c: seq<string>, bit: nat)
    requires Reaches(c, bit) && |c| > 0
    ensures |Filter(c, bit, true)| > 0
  {
    KeepSplits(c, bit);
  }

  /** The CO2 rule keeps the zeros even when there are none. */
  lemma Co2CanEmpty()
    ensures Filter(["1"], 0, false) == []
  {
    assert Keep(["1"], 0, true) == [];
  }

  /** Every line has at least `n` characters. */
  ghost predicate Report(lines: seq<string>, n: nat) {
    forall k :: 0 <= k < |lines| ==> n <= |lines[k]|
  }

  lemma {:induction false} KeepReport(c: seq<string>, bit: nat, zero: bool, n: nat)
    requires bit < n && Report(c, n)
    ensures Report(Keep(c, bit, zero), n)
  {
    if c != [] {
      KeepReport(c[1..], bit, zero, n);
    }
  }

  /** The state of one rating after `bits` rounds of part_b's loop over lines of width `n`:
      the candidate list, and the rating once fixed. A round filters only while the rating is
      unset; the rating is read off whenever exactly one candidate is left. */
  function Rating(lines: seq<string>, n: nat, bits: nat, oxygen: bool): (r: (seq<string>, Option<nat>))
    requires Report(lines, n) && bits <= n
    ensures Report(r.0, n)
  {
    if bits == 0 then (lines, None)
    else
      var prev := Rating(lines, n, bits - 1, oxygen);
      KeepReport(prev.0, bits - 1, true, n);
      KeepReport(prev.0, bits - 1, false, n);
      var c := if prev.1.None? then Filter(prev.0, bits - 1, oxygen) else prev.0;
      (c, if |c| == 1 then Some(BinValue(c[0])) else prev.1)
  }

  /** The rating is only ever set from a single remaining candidate. */
  lemma {:induction false} RatingSetMeansSingle(lines: seq<string>, n: nat, bits: nat, oxygen: bool)
    requires Report(lines, n) && bits <= n
    requires Rating(lines, n, bits, oxygen).1.Some?
    ensures |Rating(lines, n, bits, oxygen).0| == 1
    ensures Rating(lines, n, bits, oxygen).1 == Some(BinValue(Rating(lines, n, bits, oxygen).0[0]))
  {
    var r := Rating(lines, n, bits, oxygen);
    if bits > 0 {
      var prev := Rating(lines, n, bits - 1, oxygen);
      if prev.1.Some? {
        RatingSetMeansSingle(lines, n, bits - 1, oxygen);
        assert r.0 == prev.0;
      } else {
        assert |r.0| == 1;
      }
    }
  }

  /** A rating, once fixed, never changes, and its candidate list stops shrinking. */
  lemma {:induction false} RatingStaysFixed(lines: seq<string>, n: nat, bits: nat, later: nat, oxygen: bool)
    requires Report(lines, n) && bits <= later <= n
    requires Rating(lines, n, bits, oxygen).1.Some?
    ensures Rating(lines, n, later, oxygen) == Rating(lines, n, bits, oxygen)
  {
    if bits < later {
      RatingStaysFixed(lines, n, bits, later - 1, oxygen);
      RatingSetMeansSingle(lines, n, bits, oxygen);
    }
  }

  /** The split loop of one filtering round. It reads `input[bit]` of each candidate in turn,
      so it fails (Python's IndexError) exactly when some candidate is too short. */
  method Split(c: seq<string>, bit: nat) returns (ok: bool, zeros: seq<string>, ones: seq<string>)
    ensures ok <==> Reaches(c, bit)
    ensures ok ==> zeros == Keep(c, bit, true) && ones == Keep(c, bit, false)
  {
    zeros, ones := [], [];
    for k := 0 to |c|
      invariant Reaches(c[..k], bit)
      invariant zeros == Keep(c[..k], bit, true) && ones == Keep(c[..k], bit, false)
    {
      if |c[k]| <= bit {
        ok := false;
        return;
      }
      assert c[..k + 1] == c[..k] + [c[k]];
      KeepAppend(c[..k], c[k], bit, true);
      KeepAppend(c[..k], c[k], bit, false);
      if c[k][bit] == '0' {
        zeros := zeros + [c[k]];
      } else {
        ones := ones + [c[k]];
      }
    }
    assert c[..|c|] == c;
    ok := true;
  }

  /** Python's `int(s, 2)` on a string of binary digits, `None` where it raises. */
  function ParseBin(s: string): Option<nat> {
    if s != [] && IsBinary(s) then Some(BinValue(s)) else None
  }

  /** The state of one rating after `bits` rounds of part_b's loop over any lines, `None` once
      a round has raised: filtering reads `input[bit]` of every candidate, and a single
      remaining candidate is read with `int(_, 2)`. */
  function Rounds(lines: seq<string>, bits: nat, oxygen: bool): Option<(seq<string>, Option<nat>)> {
    if bits == 0 then Some((lines, None))
    else
      match Rounds(lines, bits - 1, oxygen)
      case None => None
      case Some(prev) =>
        if prev.1.None? && !Reaches(prev.0, bits - 1) then None
        else
          var c := if prev.1.None? then Filter(prev.0, bits - 1, oxygen) else prev.0;
          if |c| != 1 then Some((c, prev.1))
          else match ParseBin(c[0])
            case None => None
            case Some(v) => Some((c, Some(v)))
  }

  /** A raise ends the loop: no later round recovers from it. */
  lemma {:induction false} RoundsStayRaised(lines: seq<string>, bits: nat, later: nat, oxygen: bool)
    requires bits <= later && Rounds(lines, bits, oxygen).None?
    ensures Rounds(lines, later, oxygen).None?
  {
    if bits < later {
      RoundsStayRaised(lines, bits, later - 1, oxygen);
    }
  }

  /** The candidates `Rating` keeps are lines of the report. */
  lemma {:induction false} RatingFromLines(lines: seq<string>, n: nat, bits: nat, oxygen: bool)
    requires Report(lines, n) && bits <= n
    ensures forall x :: x in Rating(lines, n, bits, oxygen).0 ==> x in lines
  {
    if bits > 0 {
      RatingFromLines(lines, n, bits - 1, oxygen);
      var prev := Rating(lines, n, bits - 1, oxygen);
      KeepReport(prev.0, bits - 1, true, n);
      forall x | x in Rating(lines, n, bits, oxygen).0
        ensures x in lines
      {
        if prev.1.None? {
          KeepMembers(prev.0, bits - 1, true, x);
          KeepMembers(prev.0, bits - 1, false, x);
        }
      }
    }
  }

  /** On a report whose lines all hold at least `n` binary digits nothing raises, and the
      rounds follow `Rating`. */
  lemma {:induction false} RoundsOnReport(lines: seq<string>, n: nat, bits: nat, oxygen: bool)
    requires Report(lines, n) && bits <= n
    requires forall k :: 0 <= k < |lines| ==> IsBinary(lines[k])
    ensures Rounds(lines, bits, oxygen) == Some(Rating(lines, n, bits, oxygen))
  {
    if bits > 0 {
      RoundsOnReport(lines, n, bits - 1, oxygen);
      var prev := Rating(lines, n, bits - 1, oxygen);
      assert Reaches(prev.0, bits - 1);
      var r := Rating(lines, n, bits, oxygen);
      if |r.0| == 1 {
        RatingFromLines(lines, n, bits, oxygen);
        assert r.0[0] in r.0;
        assert |r.0[0]| >= n;
      }
    }
  }

  /** Lines shorter than the first are read only while they are candidates: on `["10", "0"]`
      both ratings are fixed after the first round, at 2 and at 0. */
  lemma ShortLineRead()
    ensures Rounds(["10", "0"], 2, true) == Some((["10"], Some(2)))
    ensures Rounds(["10", "0"], 2, false) == Some((["0"], Some(0)))
  {
    assert Keep(["10", "0"], 0, true) == ["0"];
    assert Keep(["10", "0"], 0, false) == ["10"];
    assert "10"[..1] == "1" && BinValue("1") == 1 && BinValue("10") == 2;
    assert Rounds(["10", "0"], 1, true) == Some((["10"], Some(2)));
    assert Rounds(["10", "0"], 1, false) == Some((["0"], Some(0)));
  }

  /** A candidate too short for the round raises: on `["0", "1", "11"]` the oxygen candidates
      `"1"` and `"11"` are read at position 1. */
  lemma ShortLineRaises()
    ensures Rounds(["0", "1", "11"], 2, true).None?
  {
    assert Keep(["0", "1", "11"], 0, true) == ["0"];
    assert Keep(["0", "1", "11"], 0, false) == ["1", "11"];
    assert !Reaches(["1", "11"], 1);
  }

  /** One rating's share of a round of part_b's loop: filter while the rating is unset, then
      read it off a single candidate. */
  method Round(ghost lines: seq<string>, bit: nat, oxygen: bool, c: seq<string>, v: Option<nat>)
    returns (raised: bool, c': seq<string>, v': Option<nat>)
    requires Rounds(lines, bit, oxygen) == Some((c, v))
    ensures raised <==> Rounds(lines, bit + 1, oxygen).None?
    ensures !raised ==> Rounds(lines, bit + 1, oxygen) == Some((c', v'))
  {
    c', v' := c, v;
    if v.None? {
      var ok, z, w := Split(c, bit);
      if !ok {
        return true, c', v';
      }
      c' := if oxygen then (if |w| >= |z| then w else z) else (if |z| <= |w| then z else w);
    }
    if |c'| == 1 {
      v' := ParseBin(c'[0]);
      if v'.None? {
        return true, c', v';
      }
    }
    raised := false;
  }

  /** part_b. `test_input[0]` raises on no lines, a round may raise as `Rounds` says, and
      `o * co2` raises when either rating was never fixed; each of these is `None` here. */
  method PartB(lines: seq<string>) returns (result: Option<nat>)
    ensures result == if lines == [] then None else
      var o := Rounds(lines, |lines[0]|, true);
      var co2 := Rounds(lines, |lines[0]|, false);
      if o.Some? && co2.Some? && o.value.1.Some? && co2.value.1.Some?
      then Some(o.value.1.value * co2.value.1.value) else None
    ensures |lines| > 0 && Report(lines, |lines[0]|) && (forall k :: 0 <= k < |lines| ==> IsBinary(lines[k])) ==>
      var o := Rating(lines, |lines[0]|, |lines[0]|, true).1;
      var co2 := Rating(lines, |lines[0]|, |lines[0]|, false).1;
      result == if o.Some? && co2.Some? then Some(o.value * co2.value) else None
  {
    if lines == [] {
      return None;
    }
    var n := |lines[0]|;
    if Report(lines, n) && forall k :: 0 <= k < |lines| ==> IsBinary(lines[k]) {
      RoundsOnReport(lines, n, n, true);
      RoundsOnReport(lines, n, n, false);
    }
    var o: Option<nat> := None;
    var co := lines;
    var co2: Option<nat> := None;
    var cc := lines;
    for bit := 0 to n
      invariant Rounds(lines, bit, true) == Some((co, o))
      invariant Rounds(lines, bit, false) == Some((cc, co2))
    {
      var raised;
      raised, co, o := Round(lines, bit, true, co, o);
      if raised {
        RoundsStayRaised(lines, bit + 1, n, true);
        return None;
      }
      raised, cc, co2 := Round(lines, bit, false, cc, co2);
      if raised {
        RoundsStayRaised(lines, bit + 1, n, false);
        return None;
      }
    }
    result := if o.Some? && co2.Some? then Some(o.value * co2.value) else None;
  }

  /** The worked example, in two halves. */
  const TestHead: seq<string> := ["00100", "11110", "10110", "10111", "10101", "01111"]
  const TestTail: seq<string> := ["00111", "11100", "10000", "11001", "00010", "01010"]
  const TestCase: seq<string> := TestHead + TestTail

  lemma {:induction false} KeepConcat(a: seq<string>, b: seq<string>, bit: nat, zero: bool)
    requires Reaches(a, bit) && Reaches(b, bit)
    ensures Keep(a + b, bit, zero) == Keep(a, bit, zero) + Keep(b, bit, zero)
  {
    if a == [] {
      assert a + b == b;
    } else {
      assert Reaches(a[1..], bit);
      KeepConcat(a[1..], b, bit, zero);
      KeepConcatStep(a, b, bit, zero);
    }
  }

  lemma ReachesConcat(a: seq<string>, b: seq<string>, bit: nat)
    requires Reaches(a, bit) && Reaches(b, bit)
    ensures Reaches(a + b, bit)
  {
    forall k | 0 <= k < |a + b| ensures bit < |(a + b)[k]| {
      if k < |a| {
        assert (a + b)[k] == a[k];
      } else {
        assert (a + b)[k] == b[k - |a|];
      }
    }
  }

  /** The first candidate of `a` is kept or dropped alike in `a` and in `a + b`. */
  lemma KeepConcatStep(a: seq<string>, b: seq<string>, bit: nat, zero: bool)
    requires a != [] && Reaches(a, bit) && Reaches(b, bit)
    requires Keep(a[1..] + b, bit, zero) == Keep(a[1..], bit, zero) + Keep(b, bit, zero)
    ensures Keep(a + b, bit, zero) == Keep(a, bit, zero) + Keep(b, bit, zero)
  {
    var c := a + b;
    ReachesConcat(a, b, bit);
    assert c[0] == a[0] && c[1..] == a[1..] + b;
    var head := if (a[0][bit] == '0') == zero then [a[0]] else [];
    var rest, tail := Keep(a[1..], bit, zero), Keep(b, bit, zero);
    KeepCons(c, bit, zero);
    KeepCons(a, bit, zero);
    Reassociate(head, rest, tail);
  }

  /** One unfolding of `Keep`. */
  lemma KeepCons(c: seq<string>, bit: nat, zero: bool)
    requires c != [] && Reaches(c, bit)
    ensures Keep(c, bit, zero) == (if (c[0][bit] == '0') == zero then [c[0]] else []) + Keep(c[1..], bit, zero)
  {
  }

  lemma Reassociate(a: seq<string>, b: seq<string>, c: seq<string>)
    ensures a + (b + c) == a + b + c
  {
  }

  lemma TestHeadFirstRound()
    ensures Report(TestHead, 5)
    ensures Keep(TestHead, 0, true) == ["00100", "01111"]
    ensures Keep(TestHead, 0, false) == ["11110", "10110", "10111", "10101"]
  {
  }

  lemma TestTailFirstRound()
    ensures Report(TestTail, 5)
    ensures Keep(TestTail, 0, true) == ["00111", "00010", "01010"]
    ensures Keep(TestTail, 0, false) == ["11100", "10000", "11001"]
  {
  }

  /** The first round of the worked example, shared by both ratings. */
  lemma TestCaseFirstRound()
    ensures Report(TestCase, 5)
    ensures Keep(TestCase, 0, true) == ["00100", "01111", "00111", "00010", "01010"]
    ensures Keep(TestCase, 0, false) ==
      ["11110", "10110", "10111", "10101", "11100", "10000", "11001"]
  {
    assert ["00100", "01111"] + ["00111", "00010", "01010"] ==
      ["00100", "01111", "00111", "00010", "01010"];
    assert ["11110", "10110", "10111", "10101"] + ["11100", "10000", "11001"] ==
      ["11110", "10110", "10111", "10101", "11100", "10000", "11001"];
    TestHeadFirstRound();
    TestTailFirstRound();
    KeepConcat(TestHead, TestTail, 0, true);
    KeepConcat(TestHead, TestTail, 0, false);
  }

  lemma OxygenRound1()
    ensures Report(TestCase, 5)
    ensures Rating(TestCase, 5, 1, true) ==
      (["11110", "10110", "10111", "10101", "11100", "10000", "11001"], None)
  {
    TestCaseFirstRound();
    assert Rating(TestCase, 5, 0, true) == (TestCase, None);
    assert Filter(TestCase, 0, true) == Keep(TestCase, 0, false);
  }

  lemma OxygenRound2()
    ensures Report(TestCase, 5)
    ensures Rating(TestCase, 5, 2, true) == (["10110", "10111", "10101", "10000"], None)
  {
    OxygenRound1();
    var c: seq<string> := ["11110", "10110", "10111", "10101", "11100", "10000", "11001"];
    assert Keep(c, 1, true) == ["10110", "10111", "10101", "10000"];
    assert Keep(c, 1, false) == ["11110", "11100", "11001"];
  }

  lemma OxygenRound4()
    ensures Report(TestCase, 5)
    ensures Rating(TestCase, 5, 4, true) == (["10110", "10111"], None)
  {
    OxygenRound2();
    var c: seq<string> := ["10110", "10111", "10101", "10000"];
    assert Keep(c, 2, true) == ["10000"];
    assert Keep(c, 2, false) == ["10110", "10111", "10101"];
    assert Rating(TestCase, 5, 3, true) == (["10110", "10111", "10101"], None);
    var d: seq<string> := ["10110", "10111", "10101"];
    assert Keep(d, 3, true) == ["10101"];
    assert Keep(d, 3, false) == ["10110", "10111"];
  }

  /** The worked example's oxygen rating: 10111, that is 23. */
  lemma TestCaseOxygen()
    ensures Report(TestCase, 5)
    ensures Rating(TestCase, 5, 5, true).1 == Some(23)
  {
    OxygenRound4();
    var c: seq<string> := ["10110", "10111"];
    assert Keep(c, 4, true) == ["10110"];
    assert Keep(c, 4, false) == ["10111"];
    assert Rating(TestCase, 5, 5, true).0 == ["10111"];
    assert "1"[..0] == "" && BinValue("1") == 1;
    assert "10"[..1] == "1" && BinValue("10") == 2;
    assert "101"[..2] == "10" && BinValue("101") == 5;
    assert "1011"[..3] == "101" && BinValue("1011") == 11;
    assert "10111"[..4] == "1011" && BinValue("10111") == 23;
  }

  lemma Co2Round2()
    ensures Report(TestCase, 5)
    ensures Rating(TestCase, 5, 2, false) == (["01111", "01010"], None)
  {
    TestCaseFirstRound();
    assert Rating(TestCase, 5, 0, false) == (TestCase, None);
    assert Rating(TestCase, 5, 1, false) ==
      (["00100", "01111", "00111", "00010", "01010"], None);
    var c: seq<string> := ["00100", "01111", "00111", "00010", "01010"];
    assert Keep(c, 1, true) == ["00100", "00111", "00010"];
    assert Keep(c, 1, false) == ["01111", "01010"];
  }

  /** 01010 read as a binary number is 10. */
  lemma Co2Value()
    ensures BinValue("01010") == 10
  {
    assert "0"[..0] == "" && BinValue("0") == 0;
    assert "01"[..1] == "0" && BinValue("01") == 1;
    assert "010"[..2] == "01" && BinValue("010") == 2;
    assert "0101"[..3] == "010" && BinValue("0101") == 5;
    assert "01010"[..4] == "0101";
  }

  lemma Co2Round3()
    ensures Report(TestCase, 5)
    ensures Rating(TestCase, 5, 3, false) == (["01010"], Some(10))
  {
    Co2Round2();
    var c: seq<string> := ["01111", "01010"];
    assert Keep(c, 2, true) == ["01010"];
    assert Keep(c, 2, false) == ["01111"];
    Co2Value();
  }

  /** The worked example's CO2 rating: 01010, that is 10, fixed after three rounds. */
  lemma TestCaseCo2()
    ensures Report(TestCase, 5)
    ensures Rating(TestCase, 5, 5, false).1 == Some(10)
  {
    Co2Round3();
    RatingStaysFixed(TestCase, 5, 3, 5, false);
  }
}
