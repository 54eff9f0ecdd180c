/** Crab alignment: fuel to move every position to one target, with constant and with
    growing per-step cost. The target (median, floor/ceiling of the mean) is a parameter. */
module Day07 {

  function Abs(x: int): nat { if x < 0 then -x else x }

  /** Fuel at one unit per step: the sum of `|pos - t|`. */
  function AbsCost(data: seq<int>, t: int): nat {
    if data == [] then 0 else Abs(data[0] - t) + AbsCost(data[1..], t)
  }

  /** The triangular number 1 + 2 + ... + d. */
  function Tri(d: nat): nat { d * (d + 1) / 2 }

  /** Fuel when the k-th step costs k: the sum of `Tri(|pos - t|)`. */
  function TriCost(data: seq<int>, t: int): nat {
    if data == [] then 0 else Tri(Abs(data[0] - t)) + TriCost(data[1..], t)
  }

  lemma {:induction false} AbsCostAppend(a: seq<int>, b: seq<int>, t: int)
    ensures AbsCost(a + b, t) == AbsCost(a, t) + AbsCost(b, t)
  {
    if a == [] {
      assert a + b == b;
    } else {
      assert (a + b)[1..] == a[1..] + b;
      AbsCostAppend(a[1..], b, t);
    }
  }

  lemma {:induction false} TriCostAppend(a: seq<int>, b: seq<int>, t: int)
    ensures TriCost(a + b, t) == TriCost(a, t) + TriCost(b, t)
  {
    if a == [] {
      assert a + b == b;
    } else {
      assert (a + b)[1..] == a[1..] + b;
      TriCostAppend(a[1..], b, t);
    }
  }

  /** part_a's `total_cost` loop. */
  method PartA(data: seq<int>, target: int) returns (total: nat)
    ensures total == AbsCost(data, target)
  {
    total := 0;
    var k := 0;
    while k < |data|
      invariant 0 <= k <= |data|
      invariant total + AbsCost(data[k..], target) == AbsCost(data, target)
    {
      assert data[k..][1..] == data[k + 1..];
      total := total + Abs(data[k] - target);
      k := k + 1;
    }
  }

  ghost predicate Sorted(s: seq<int>) {
    forall i, j :: 0 <= i < j < |s| ==> s[i] <= s[j]
  }

  /** A median of sorted data (either middle element) minimizes the constant-rate fuel:
      this is why part_a moves every crab to the median. */
  lemma {:induction false} MedianMinimizesAbsCost(s: seq<int>, k: nat, t: int)
    requires Sorted(s)
    requires |s| > 0 && (|s| - 1) / 2 <= k <= |s| / 2
    ensures AbsCost(s, s[k]) <= AbsCost(s, t)
  {
    if |s| == 1 {
      assert s[1..] == [];
    } else if |s| == 2 {
      assert s[1..][1..] == [] && s[1..][0] == s[1];
      assert AbsCost(s[1..], s[k]) == Abs(s[1] - s[k]);
      assert AbsCost(s[1..], t) == Abs(s[1] - t);
      assert AbsCost(s, s[k]) == Abs(s[0] - s[k]) + Abs(s[1] - s[k]);
      assert AbsCost(s, t) == Abs(s[0] - t) + Abs(s[1] - t);
      assert s[0] <= s[1];
    } else {
      var n := |s|;
      var mid := s[1..n - 1];
      assert s == [s[0]] + mid + [s[n - 1]];
      assert mid[k - 1] == s[k];
      MedianMinimizesAbsCost(mid, k - 1, t);
      AbsCostAppend([s[0]] + mid, [s[n - 1]], s[k]);
      AbsCostAppend([s[0]], mid, s[k]);
      AbsCostAppend([s[0]] + mid, [s[n - 1]], t);
      AbsCostAppend([s[0]], mid, t);
      assert s[0] <= s[k] <= s[n - 1];
    }
  }

  /** The inner loop of part_b: `cost` starts at 1 and grows by one per step. */
  method StepCost(diff: nat) returns (added: nat)
    ensures added == Tri(diff)
  {
    added := 0;
    var cost := 1;
    var i := 0;
    while i < diff
      invariant 0 <= i <= diff
      invariant cost == i + 1
      invariant added == Tri(i)
    {
      assert (i + 1) * (i + 2) == i * (i + 1) + 2 * (i + 1);
      added := added + cost;
      cost := cost + 1;
      i := i + 1;
    }
  }

  /** part_b: both candidate targets are costed by the same rule; the answer is the cheaper. */
  method PartB(data: seq<int>, meanFloor: int, meanCeil: int)
    returns (totalFloor: nat, totalCeil: nat, answer: nat)
    ensures totalFloor == TriCost(data, meanFloor)
    ensures totalCeil == TriCost(data, meanCeil)
    ensures answer <= totalFloor && answer <= totalCeil
    ensures answer == totalFloor || answer == totalCeil
  {
    totalFloor, totalCeil := 0, 0;
    var k := 0;
    while k < |data|
      invariant 0 <= k <= |data|
      invariant totalFloor + TriCost(data[k..], meanFloor) == TriCost(data, meanFloor)
      invariant totalCeil + TriCost(data[k..], meanCeil) == TriCost(data, meanCeil)
    {
      assert data[k..][1..] == data[k + 1..];
      var f := StepCost(Abs(data[k] - meanFloor));
      totalFloor := totalFloor + f;
      var c := StepCost(Abs(data[k] - meanCeil));
      totalCeil := totalCeil + c;
      k := k + 1;
    }
    answer := if totalFloor <= totalCeil then totalFloor else totalCeil;
  }

  /** The growing rate never costs less than the constant one. */
  lemma {:induction false} TriCostAtLeastAbsCost(data: seq<int>, t: int)
    ensures AbsCost(data, t) <= TriCost(data, t)
  {
    if data != [] {
      var d := Abs(data[0] - t);
      assert d <= d * (d + 1) / 2 by {
        assert d * (d + 1) >= 2 * d || d == 0;
      }
      TriCostAtLeastAbsCost(data[1..], t);
    }
  }
}
