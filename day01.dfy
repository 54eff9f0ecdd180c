/** Sonar sweep: counting depth increases, directly and over three-reading windows. */
module Day01 {
  import opened Common

  /** Python's `not last`: `None` and `0` are both falsy. */
  predicate Falsy(last: Option<int>) {
    last.None? || last.value == 0
  }

  /** Reading `i` is compared with reading `i - 1`: the previous reading exists and is not 0. */
  predicate Counted(xs: seq<int>, i: int)
    requires 0 <= i < |xs|
  {
    i >= 1 && xs[i - 1] != 0 && xs[i] > xs[i - 1]
  }

  /** The number of counted readings among the first `n`. */
  function CountedBelow(xs: seq<int>, n: nat): nat
    requires n <= |xs|
  {
    if n == 0 then 0 else CountedBelow(xs, n - 1) + (if Counted(xs, n - 1) then 1 else 0)
  }

  /** The number of plain increases `xs[i] > xs[i - 1]` among the first `n` readings. */
  function IncreasesBelow(xs: seq<int>, n: nat): nat
    requires n <= |xs|
  {
    if n <= 1 then 0 else IncreasesBelow(xs, n - 1) + (if xs[n - 1] > xs[n - 2] then 1 else 0)
  }

  lemma {:induction false} CountedBelowBound(xs: seq<int>, n: nat)
    requires n <= |xs|
    ensures CountedBelow(xs, n) <= if n == 0 then 0 else n - 1
  {
    if n > 0 {
      CountedBelowBound(xs, n - 1);
    }
  }

  /** Without zero readings (real depths are positive) the count is the count of plain increases. */
  lemma {:induction false} NoZeroMeansPlainIncreases(xs: seq<int>, n: nat)
    requires n <= |xs|
    requires forall i :: 0 <= i < |xs| ==> xs[i] != 0
    ensures CountedBelow(xs, n) == IncreasesBelow(xs, n)
  {
    if n > 1 {
      NoZeroMeansPlainIncreases(xs, n - 1);
    } else if n == 1 {
      assert CountedBelow(xs, 0) == 0;
    }
  }

  /** A reading that follows a 0 is not compared, so [0, 5] has no counted increase. */
  lemma ZeroHidesNextIncrease()
    ensures CountedBelow([0, 5], 2) == 0 && IncreasesBelow([0, 5], 2) == 1
  {
    assert !Counted([0, 5], 1);
  }

  /** The `count`/`last` loop of part_a (and of the second half of part_b). */
  method CountIncreases(xs: seq<int>) returns (count: nat)
    ensures count == CountedBelow(xs, |xs|)
    ensures count <= if |xs| == 0 then 0 else |xs| - 1
  {
    count := 0;
    var last: Option<int> := None;
    var k := 0;
    while k < |xs|
      invariant 0 <= k <= |xs|
      invariant count == CountedBelow(xs, k)
      invariant k == 0 <==> last.None?
      invariant k > 0 ==> last == Some(xs[k - 1])
    {
      if Falsy(last) {
        last := Some(xs[k]);
      } else {
        if xs[k] > last.value {
          count := count + 1;
        }
        last := Some(xs[k]);
      }
      k := k + 1;
    }
    CountedBelowBound(xs, |xs|);
  }

  /** The sliding-window list of part_b: one entry per start index `0 .. len - 3`, filled by index. */
  method Windows(xs: seq<int>) returns (w: seq<int>)
    ensures |w| == if |xs| >= 2 then |xs| - 2 else 0
    ensures forall i :: 0 <= i < |w| ==> w[i] == xs[i] + xs[i + 1] + xs[i + 2]
  {
    var hi := if |xs| >= 2 then |xs| - 2 else 0;
    w := [];
    var num := 0;
    while num < hi
      invariant 0 <= num <= hi
      invariant |w| == num
      invariant forall i :: 0 <= i < num ==> w[i] == xs[i] + xs[i + 1] + xs[i + 2]
    {
      w := w + [0];
      var val := xs[num] + xs[num + 1] + xs[num + 2];
      w := w[num := val];
      num := num + 1;
    }
  }

  /** Two consecutive windows share two readings: the later one is larger iff its new reading
      is larger than the one the earlier window had alone. */
  lemma WindowIncrease(xs: seq<int>, w: seq<int>, i: nat)
    requires |w| == if |xs| >= 2 then |xs| - 2 else 0
    requires forall k :: 0 <= k < |w| ==> w[k] == xs[k] + xs[k + 1] + xs[k + 2]
    requires i + 1 < |w|
    ensures w[i + 1] > w[i] <==> xs[i + 3] > xs[i]
  {
    assert w[i] == xs[i] + xs[i + 1] + xs[i + 2];
    assert w[i + 1] == xs[i + 1] + xs[i + 2] + xs[i + 3];
  }

  /** part_b: the increase count over the windows, with the same falsy-`last` rule. */
  method PartB(xs: seq<int>) returns (count: nat)
    ensures |xs| >= 3 ==> count <= |xs| - 3
    ensures exists w :: |w| == (if |xs| >= 2 then |xs| - 2 else 0)
              && (forall i :: 0 <= i < |w| ==> w[i] == xs[i] + xs[i + 1] + xs[i + 2])
              && count == CountedBelow(w, |w|)
  {
    var w := Windows(xs);
    count := CountIncreases(w);
  }
}
