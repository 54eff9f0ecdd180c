/** Day 8: a seven-segment display with scrambled wiring. Ten signal patterns show the ten
    digits; the decoder finds which letter drives which segment and reads the output. */
module Day08 {
  import opened Common

  // ---------------------------------------------------------------------------------------
  // The display

  // Segments are numbered in the order of the source's variables: 0 top, 1 top-left,
  // 2 top-right, 3 middle, 4 bottom-left, 5 bottom-right, 6 bottom.

  /** The segments each digit lights on a correctly wired display. */
  const Standard: seq<set<nat>> := [
    {0, 1, 2, 4, 5, 6},     // 0
    {2, 5},                 // 1
    {0, 2, 3, 4, 6},        // 2
    {0, 2, 3, 5, 6},        // 3
    {1, 2, 3, 5},           // 4
    {0, 1, 3, 5, 6},        // 5
    {0, 1, 3, 4, 5, 6},     // 6
    {0, 2, 5},              // 7
    {0, 1, 2, 3, 4, 5, 6},  // 8
    {0, 1, 2, 3, 5, 6}      // 9
  ]

  /** `check_signal`: the digits a pattern of this many letters could show; `None` where the
      source falls off the end of its `elif` chain. */
  function Candidates(signal: string): (r: Option<seq<nat>>)
    ensures r.Some? <==> 2 <= |signal| <= 7
  {
    if |signal| == 2 then Some([1])
    else if |signal| == 3 then Some([7])
    else if |signal| == 4 then Some([4])
    else if |signal| == 7 then Some([8])
    else if |signal| == 6 then Some([0, 6, 9])
    else if |signal| == 5 then Some([2, 3, 5])
    else None
  }

  /** The candidates are exactly the digits that light as many segments as the pattern has
      letters. */
  lemma CandidatesByLength(signal: string, d: nat)
    requires Candidates(signal).Some? && d < 10
    ensures d in Candidates(signal).value <==> |Standard[d]| == |signal|
  {
  }

  /** The digits whose length is unique are 1, 4, 7 and 8. */
  lemma UniqueLengths(signal: string)
    requires Candidates(signal).Some?
    ensures |Candidates(signal).value| == 1 <==> |signal| in {2, 3, 4, 7}
  {
  }

  // ---------------------------------------------------------------------------------------
  // Counting letters

  /** A Python dict: its keys in insertion order, and its values. */
  datatype Tally = Tally(keys: seq<char>, count: map<char, nat>)

  /** The letters of the signals, one signal after another. */
  function Flatten(signals: seq<string>): seq<char> {
    if signals == [] then [] else Flatten(signals[..|signals| - 1]) + signals[|signals| - 1]
  }

  /** The `letter_count` dict after the letters `l`, counted one at a time. */
  function Count(l: seq<char>): Tally {
    if l == [] then Tally([], map[])
    else Step(Count(l[..|l| - 1]), l[|l| - 1])
  }

  /** One letter counted: `letter_count[c] = (letter_count.get(c) or 0) + 1`. */
  function Step(t: Tally, c: char): Tally {
    if c in t.count then Tally(t.keys, t.count[c := t.count[c] + 1])
    else Tally(t.keys + [c], t.count[c := 1])
  }

  /** The dict holds each letter of `l` with its number of occurrences, and its keys are the
      distinct letters of `l`. */
  lemma {:induction false} CountIsOccurrences(l: seq<char>)
    ensures forall c :: c in Count(l).count <==> c in multiset(l)
    ensures forall c :: c in Count(l).count ==> Count(l).count[c] == multiset(l)[c]
    ensures forall c :: c in Count(l).keys <==> c in Count(l).count
    ensures forall i, j :: 0 <= i < j < |Count(l).keys| ==> Count(l).keys[i] != Count(l).keys[j]
  {
    if l != [] {
      CountIsOccurrences(l[..|l| - 1]);
      assert l == l[..|l| - 1] + [l[|l| - 1]];
    }
  }

  /** The counting loop of `parse_signals`. */
  method CountLetters(signals: seq<string>) returns (t: Tally)
    ensures t == Count(Flatten(signals))
  {
    t := Tally([], map[]);
    for i := 0 to |signals|
      invariant t == Count(Flatten(signals[..i]))
    {
      t := CountSignal(t, signals[i], Flatten(signals[..i]));
      assert signals[..i + 1][..i] == signals[..i];
    }
    assert signals[..|signals|] == signals;
  }

  /** The inner loop of the count: the letters of one more signal. */
  method CountSignal(t: Tally, signal: string, ghost done: seq<char>) returns (t': Tally)
    requires t == Count(done)
    ensures t' == Count(done + signal)
  {
    t' := t;
    assert done + signal[..0] == done;
    for j := 0 to |signal|
      invariant t' == Count(done + signal[..j])
    {
      var c := signal[j];
      var curr := if c in t'.count then t'.count[c] else 0;
      if c in t'.count {
        t' := Tally(t'.keys, t'.count[c := curr + 1]);
      } else {
        t' := Tally(t'.keys + [c], t'.count[c := curr + 1]);
      }
      CountSnoc(done + signal[..j], c);
      assert done + signal[..j + 1] == (done + signal[..j]) + [c];
    }
    assert signal[..|signal|] == signal;
  }

  lemma CountSnoc(l: seq<char>, c: char)
    ensures Count(l + [c]) == Step(Count(l), c)
  {
    assert (l + [c])[..|l|] == l;
  }

  /** The letter the scan over the dict's items leaves in a variable set on count `k`: the
      last key with that count. */
  function LastWith(keys: seq<char>, count: map<char, nat>, k: nat): Option<char> {
    if keys == [] then None
    else if Counted(keys[|keys| - 1], count, k) then Some(keys[|keys| - 1])
    else LastWith(keys[..|keys| - 1], count, k)
  }

  predicate Counted(c: char, count: map<char, nat>, k: nat) {
    c in count && count[c] == k
  }

  /** No key has count `k`, or the letter found has it and no later key does. */
  lemma {:induction false} LastWithIsLast(keys: seq<char>, count: map<char, nat>, k: nat)
    ensures LastWith(keys, count, k).None? <==>
      forall i :: 0 <= i < |keys| ==> !Counted(keys[i], count, k)
    ensures LastWith(keys, count, k).Some? ==>
      exists i :: 0 <= i < |keys| && keys[i] == LastWith(keys, count, k).value &&
        Counted(keys[i], count, k) && forall j :: i < j < |keys| ==> !Counted(keys[j], count, k)
  {
    if keys == [] {
    } else if Counted(keys[|keys| - 1], count, k) {
      assert keys[|keys| - 1] == LastWith(keys, count, k).value;
    } else {
      var init := keys[..|keys| - 1];
      assert forall i :: 0 <= i < |init| ==> init[i] == keys[i];
      LastWithIsLast(init, count, k);
      if LastWith(init, count, k).Some? {
        var i :| 0 <= i < |init| && init[i] == LastWith(init, count, k).value &&
          Counted(init[i], count, k) && forall j :: i < j < |init| ==> !Counted(init[j], count, k);
        assert keys[i] == LastWith(keys, count, k).value;
      }
    }
  }

  /** The scan over `letter_count.items()` that finds top-left (6 occurrences), bottom-left
      (4) and bottom-right (9). */
  method Wires(t: Tally) returns (tl: Option<char>, bl: Option<char>, br: Option<char>)
    requires forall i :: 0 <= i < |t.keys| ==> t.keys[i] in t.count
    ensures tl == LastWith(t.keys, t.count, 6)
    ensures bl == LastWith(t.keys, t.count, 4)
    ensures br == LastWith(t.keys, t.count, 9)
  {
    tl, bl, br := None, None, None;
    for i := 0 to |t.keys|
      invariant tl == LastWith(t.keys[..i], t.count, 6)
      invariant bl == LastWith(t.keys[..i], t.count, 4)
      invariant br == LastWith(t.keys[..i], t.count, 9)
    {
      var a := t.keys[i];
      var b := t.count[a];
      assert t.keys[..i + 1][..i] == t.keys[..i];
      if b == 6 {
        tl := Some(a);
      } else if b == 4 {
        bl := Some(a);
      } else if b == 9 {
        br := Some(a);
      }
    }
    assert t.keys[..|t.keys|] == t.keys;
  }

  // ---------------------------------------------------------------------------------------
  // Deducing the patterns

  /** The ten slots of `nums` after the loop over the signals that stores each pattern whose
      length is unique under its digit; `None` where `check_signal` gives `None` and taking
      its length fails. */
  function Known(signals: seq<string>): (r: Option<seq<seq<char>>>)
    ensures r.Some? ==> |r.value| == 10
  {
    if signals == [] then Some(seq(10, _ => []))
    else
      var last := signals[|signals| - 1];
      match Known(signals[..|signals| - 1])
      case None => None
      case Some(nums) =>
        var c := Candidates(last);
        if c.None? then None
        else if |c.value| == 1 then Some(nums[c.value[0] := last])
        else Some(nums)
  }

  /** The loop succeeds exactly when every pattern has 2 to 7 letters; slot `d` then holds
      the last pattern whose length only `d` has, or nothing when there is none. */
  lemma {:induction false} KnownSlots(signals: seq<string>)
    ensures Known(signals).Some? <==> forall i :: 0 <= i < |signals| ==> 2 <= |signals[i]| <= 7
    ensures Known(signals).Some? ==> forall d :: 0 <= d < 10 ==>
      (Known(signals).value[d] == [] &&
        forall i :: 0 <= i < |signals| ==> Candidates(signals[i]) != Some([d])) ||
      (exists i :: 0 <= i < |signals| && Candidates(signals[i]) == Some([d]) &&
        Known(signals).value[d] == signals[i] &&
        forall j :: i < j < |signals| ==> Candidates(signals[j]) != Some([d]))
  {
    if signals != [] {
      var init, last := signals[..|signals| - 1], signals[|signals| - 1];
      KnownSlots(init);
      assert forall i :: 0 <= i < |init| ==> init[i] == signals[i];
      if Known(signals).Some? {
        var nums := Known(init).value;
        forall d | 0 <= d < 10
          ensures (Known(signals).value[d] == [] &&
              forall i :: 0 <= i < |signals| ==> Candidates(signals[i]) != Some([d])) ||
            (exists i :: 0 <= i < |signals| && Candidates(signals[i]) == Some([d]) &&
              Known(signals).value[d] == signals[i] &&
              forall j :: i < j < |signals| ==> Candidates(signals[j]) != Some([d]))
        {
          if Candidates(last) == Some([d]) {
            assert Known(signals).value[d] == signals[|signals| - 1];
          } else {
            assert Known(signals).value[d] == nums[d];
          }
        }
      }
    }
  }

  /** The loop of `parse_signals` that fills the slots of the unique-length digits. */
  method UniqueDigits(signals: seq<string>) returns (r: Option<seq<seq<char>>>)
    ensures r == Known(signals)
  {
    var nums: seq<seq<char>> := seq(10, _ => []);
    for i := 0 to |signals|
      invariant Known(signals[..i]) == Some(nums)
    {
      var signal := signals[i];
      var num := Candidates(signal);
      assert signals[..i + 1][..i] == signals[..i];
      if num.None? {
        KnownFails(signals, i + 1);
        return None;
      }
      if |num.value| == 1 {
        nums := nums[num.value[0] := signal];
      }
    }
    assert signals[..|signals|] == signals;
    return Some(nums);
  }

  /** Once the loop has failed it stays failed. */
  lemma {:induction false} KnownFails(signals: seq<string>, n: nat)
    requires n <= |signals| && Known(signals[..n]).None?
    ensures Known(signals).None?
    decreases |signals| - n
  {
    if n < |signals| {
      assert signals[..n + 1][..n] == signals[..n];
      KnownFails(signals, n + 1);
    } else {
      assert signals[..n] == signals;
    }
  }

  /** `[x for x in s if x not in drop]`. */
  function Remove(s: seq<char>, drop: set<char>): seq<char> {
    if s == [] then []
    else (if s[0] in drop then [] else [s[0]]) + Remove(s[1..], drop)
  }

  /** Removing keeps each letter outside `drop` as often as it occurs, and no other. */
  lemma {:induction false} RemoveCounts(s: seq<char>, drop: set<char>)
    ensures forall a :: multiset(Remove(s, drop))[a] == if a in drop then 0 else multiset(s)[a]
  {
    if s != [] {
      RemoveCounts(s[1..], drop);
      assert s == [s[0]] + s[1..];
    }
  }

  /** The letters an optional letter excludes: a list test `x not in [..., None, ...]` excludes
      nothing for the `None`. */
  function Letters(o: Option<char>): set<char> {
    if o.Some? then {o.value} else {}
  }

  /** The straight-line part of `parse_signals` from top-right on: the patterns of 9, 5, 6,
      3, 2 and 0 derived from those of 1, 4 and 8 and the three letters found by counting.
      `None` where the source raises: with no bottom-right letter, or no letter of 1 other
      than it, `tr` cannot be taken; with no bottom-left letter, `a not in bl` or the join of
      the pattern of 6 fails. The value `t` the source computes is never used. */
  function Deduce(nums: seq<seq<char>>, tl: Option<char>, bl: Option<char>, br: Option<char>)
    : (r: Option<seq<seq<char>>>)
    requires |nums| == 10
    ensures r.Some? ==> |r.value| == 10
  {
    if br.None? then None
    else
      var trs := Remove(nums[1], {br.value});
      if trs == [] || bl.None? then None
      else
        var tr := trs[0];
        var m := Remove(nums[4], Letters(tl) + {tr, br.value});
        var n9 := Remove(nums[8], {bl.value});
        var n5 := Remove(n9, {tr});
        var n6 := n5 + [bl.value];
        var n3 := Remove(nums[8], Letters(tl) + {bl.value});
        var n2 := Remove(nums[8], Letters(tl) + {br.value});
        var n0 := Remove(nums[8], set x | x in m);
        Some(nums[9 := n9][5 := n5][6 := n6][3 := n3][2 := n2][0 := n0])
  }

  /** Characters compared as Python compares them. */
  function CharLe(a: char, b: char): bool { a <= b }

  lemma CharLeIsTotalPreorder()
    ensures TotalPreorder(CharLe)
  {
  }

  /** `"".join(sorted(val))`: the letters of a pattern in alphabetical order. */
  function Key(val: seq<char>): string {
    Sort(val, CharLe)
  }

  /** The keys of the patterns, slot by slot. */
  function Keys(nums: seq<seq<char>>): (r: seq<string>)
    ensures |r| == |nums| && forall i :: 0 <= i < |nums| ==> r[i] == Key(nums[i])
  {
    seq(|nums|, i requires 0 <= i < |nums| => Key(nums[i]))
  }

  /** The `out` dict over the keys of the slots: each key mapped to its slot, a later slot
      overwriting an earlier one with the same key. */
  function Index(keys: seq<string>): map<string, nat> {
    if keys == [] then map[]
    else Index(keys[..|keys| - 1])[keys[|keys| - 1] := |keys| - 1]
  }

  /** The dict holds exactly the keys given, each mapped to the last slot that has it. */
  lemma {:induction false} IndexIsLastSlot(keys: seq<string>)
    ensures forall k :: k in Index(keys) <==> k in keys
    ensures forall k :: k in Index(keys) ==>
      Index(keys)[k] < |keys| && keys[Index(keys)[k]] == k &&
      forall j :: Index(keys)[k] < j < |keys| ==> keys[j] != k
  {
    if keys != [] {
      var init, n := keys[..|keys| - 1], |keys| - 1;
      IndexIsLastSlot(init);
      assert keys == init + [keys[n]];
      forall k | k in Index(keys) && k != keys[n]
        ensures Index(keys)[k] < n && keys[Index(keys)[k]] == k &&
          forall j :: Index(keys)[k] < j < |keys| ==> keys[j] != k
      {
        assert k in Index(init) && Index(keys)[k] == Index(init)[k];
        assert init[Index(keys)[k]] == keys[Index(keys)[k]];
        assert forall j :: Index(keys)[k] < j < n ==> init[j] == keys[j];
      }
    }
  }

  /** Every key of the `out` dict is a sorted string. */
  lemma IndexKeysSorted(nums: seq<seq<char>>)
    ensures forall k :: k in Index(Keys(nums)) ==> SortedBy(k, CharLe)
  {
    IndexIsLastSlot(Keys(nums));
    CharLeIsTotalPreorder();
    forall k | k in Index(Keys(nums))
      ensures SortedBy(k, CharLe)
    {
      var i :| 0 <= i < |nums| && Keys(nums)[i] == k;
      SortIsSorted(nums[i], CharLe);
    }
  }

  /** The loop that builds the `out` dict. */
  method IndexSlots(nums: seq<seq<char>>) returns (out: map<string, nat>)
    ensures out == Index(Keys(nums))
  {
    out := map[];
    for idx := 0 to |nums|
      invariant out == Index(Keys(nums)[..idx])
    {
      var val := nums[idx];
      var sortedNumStr := Sort(val, CharLe);
      out := out[sortedNumStr := idx];
      assert Keys(nums)[..idx + 1][..idx] == Keys(nums)[..idx];
    }
    assert Keys(nums)[..|nums|] == Keys(nums);
  }

  /** What `parse_signals` returns, `None` where it raises. */
  function Decoding(signals: seq<string>): Option<map<string, nat>> {
    var t := Count(Flatten(signals));
    var tl, bl, br := LastWith(t.keys, t.count, 6), LastWith(t.keys, t.count, 4),
      LastWith(t.keys, t.count, 9);
    match Known(signals)
    case None => None
    case Some(nums) =>
      match Deduce(nums, tl, bl, br)
      case None => None
      case Some(all) => Some(Index(Keys(all)))
  }

  /** `parse_signals`: the map from each deduced pattern, sorted, to its digit. */
  method ParseSignals(signals: seq<string>) returns (r: Option<map<string, nat>>)
    ensures r == Decoding(signals)
    ensures r.Some? ==> forall k :: k in r.value ==> SortedBy(k, CharLe) && r.value[k] < 10
  {
    var letterCount := CountLetters(signals);
    CountIsOccurrences(Flatten(signals));
    var tl, bl, br := Wires(letterCount);
    var known := UniqueDigits(signals);
    if known.None? {
      return None;
    }
    var all := Deduce(known.value, tl, bl, br);
    if all.None? {
      return None;
    }
    var out := IndexSlots(all.value);
    IndexIsLastSlot(Keys(all.value));
    IndexKeysSorted(all.value);
    return Some(out);
  }

  /** The values of the dict `parse_signals` builds are slots, so digits. */
  lemma DecodingDigits(signals: seq<string>)
    requires Decoding(signals).Some?
    ensures forall k :: k in Decoding(signals).value ==> Decoding(signals).value[k] < 10
  {
    var all := Deduce(Known(signals).value, LastWith(Count(Flatten(signals)).keys,
      Count(Flatten(signals)).count, 6), LastWith(Count(Flatten(signals)).keys,
      Count(Flatten(signals)).count, 4), LastWith(Count(Flatten(signals)).keys,
      Count(Flatten(signals)).count, 9));
    IndexIsLastSlot(Keys(all.value));
  }

  // ---------------------------------------------------------------------------------------
  // Reading the outputs

  /** The digits `parse_output` reads from the sorted patterns `keys`, `None` where one is
      not a key of `nums`. */
  function Lookup(keys: seq<string>, nums: map<string, nat>): Option<seq<nat>> {
    if keys == [] then Some([])
    else
      match Lookup(keys[..|keys| - 1], nums)
      case None => None
      case Some(ds) =>
        var key := keys[|keys| - 1];
        if key in nums then Some(ds + [nums[key]]) else None
  }

  /** Reading fails exactly when some sorted pattern is missing. */
  lemma {:induction false} LookupFailsIffMissing(keys: seq<string>, nums: map<string, nat>)
    ensures Lookup(keys, nums).Some? <==> forall i :: 0 <= i < |keys| ==> keys[i] in nums
  {
    if keys != [] {
      var init := keys[..|keys| - 1];
      LookupFailsIffMissing(init, nums);
      assert forall i :: 0 <= i < |init| ==> init[i] == keys[i];
    }
  }

  /** One digit per pattern: the value of its sorted letters. */
  lemma {:induction false} LookupIsPerPattern(keys: seq<string>, nums: map<string, nat>)
    requires Lookup(keys, nums).Some?
    ensures |Lookup(keys, nums).value| == |keys|
    ensures forall i :: 0 <= i < |keys| ==> keys[i] in nums && Lookup(keys, nums).value[i] == nums[keys[i]]
  {
    if keys != [] {
      var init, n := keys[..|keys| - 1], |keys| - 1;
      LookupIsPerPattern(init, nums);
      var ds := Lookup(init, nums).value;
      assert Lookup(keys, nums).value == ds + [nums[keys[n]]];
      forall i | 0 <= i < n
        ensures keys[i] in nums && Lookup(keys, nums).value[i] == nums[keys[i]]
      {
        assert init[i] == keys[i];
      }
    }
  }

  /** `parse_output`. */
  method ParseOutput(output: seq<string>, nums: map<string, nat>) returns (r: Option<seq<nat>>)
    ensures r == Lookup(Keys(output), nums)
  {
    var outNums := [];
    ghost var keys := Keys(output);
    for i := 0 to |output|
      invariant Lookup(keys[..i], nums) == Some(outNums)
    {
      var chars := Sort(output[i], CharLe);
      LookupSnoc(keys, nums, i);
      if chars !in nums {
        LookupFails(keys, nums, i + 1);
        return None;
      }
      outNums := outNums + [nums[chars]];
    }
    assert keys[..|output|] == keys;
    return Some(outNums);
  }

  lemma LookupSnoc(keys: seq<string>, nums: map<string, nat>, i: nat)
    requires i < |keys| && Lookup(keys[..i], nums).Some?
    ensures Lookup(keys[..i + 1], nums) ==
      if keys[i] in nums then Some(Lookup(keys[..i], nums).value + [nums[keys[i]]]) else None
  {
    assert keys[..i + 1][..i] == keys[..i];
  }

  lemma {:induction false} LookupFails(keys: seq<string>, nums: map<string, nat>, n: nat)
    requires n <= |keys| && Lookup(keys[..n], nums).None?
    ensures Lookup(keys, nums).None?
    decreases |keys| - n
  {
    if n < |keys| {
      assert keys[..n + 1][..n] == keys[..n];
      LookupFails(keys, nums, n + 1);
    } else {
      assert keys[..n] == keys;
    }
  }

  /** `int("".join(str(i) for i in ds))` for digits: the decimal number they spell. */
  function Decimal(ds: seq<nat>): nat {
    if ds == [] then 0 else 10 * Decimal(ds[..|ds| - 1]) + ds[|ds| - 1]
  }

  function Pow10(k: nat): nat {
    if k == 0 then 1 else 10 * Pow10(k - 1)
  }

  /** The last `k` decimal digits of `n`, most significant first. */
  function DigitsOf(n: nat, k: nat): seq<nat> {
    if k == 0 then [] else DigitsOf(n / 10, k - 1) + [n % 10]
  }

  /** Spelling digits and reading them back gives the digits again: the number has at most
      `|ds|` digits and they are `ds`. */
  lemma {:induction false} DecimalRoundTrip(ds: seq<nat>)
    requires forall i :: 0 <= i < |ds| ==> ds[i] < 10
    ensures Decimal(ds) < Pow10(|ds|)
    ensures DigitsOf(Decimal(ds), |ds|) == ds
  {
    if ds != [] {
      var init := ds[..|ds| - 1];
      DecimalRoundTrip(init);
      assert ds == init + [ds[|ds| - 1]];
    }
  }

  /** The digits shown on one line: its outputs read with the map its signals decode to. */
  function Reading(signals: seq<string>, output: seq<string>): Option<seq<nat>> {
    match Decoding(signals)
    case None => None
    case Some(nums) => Lookup(Keys(output), nums)
  }

  /** One line decoded and its outputs read. */
  method ReadLine(signals: seq<string>, output: seq<string>) returns (r: Option<seq<nat>>)
    ensures r == Reading(signals, output)
  {
    var nums := ParseSignals(signals);
    if nums.None? {
      return None;
    }
    r := ParseOutput(output, nums.value);
  }

  /** How many readings are 1, 4, 7 or 8. */
  function EasyCount(ds: seq<nat>): nat {
    if ds == [] then 0
    else EasyCount(ds[..|ds| - 1]) + if ds[|ds| - 1] in [1, 4, 7, 8] then 1 else 0
  }

  /** The total `part_a` reaches over the lines, `None` where a line raises. */
  function EasyTotal(lines: seq<(seq<string>, seq<string>)>): Option<nat> {
    if lines == [] then Some(0)
    else
      var last := lines[|lines| - 1];
      AddEasy(EasyTotal(lines[..|lines| - 1]), Reading(last.0, last.1))
  }

  /** The running count of `part_a` after one more line. */
  function AddEasy(total: Option<nat>, reading: Option<seq<nat>>): Option<nat> {
    if total.None? || reading.None? then None else Some(total.value + EasyCount(reading.value))
  }

  /** `part_a`: counts the output digits that are 1, 4, 7 or 8. Its closing `print` reads the
      loop's `nums`, which no line has bound when there are none: `UnboundLocalError`. */
  method PartA(lines: seq<(seq<string>, seq<string>)>) returns (r: Option<nat>)
    ensures lines == [] ==> r.None?
    ensures lines != [] ==> r == EasyTotal(lines)
  {
    if lines == [] {
      return None;
    }
    var count := 0;
    for i := 0 to |lines|
      invariant EasyTotal(lines[..i]) == Some(count)
    {
      var failed;
      EasyTotalSnoc(lines, i);
      var outNums := ReadLine(lines[i].0, lines[i].1);
      failed, count := EasyLine(outNums, count);
      if failed {
        TotalFails(lines, i + 1, false);
        return None;
      }
    }
    assert lines[..|lines|] == lines;
    return Some(count);
  }

  /** The rest of one pass of `part_a`'s loop, given the line's reading: it raises with no
      reading, or adds the easy digits to the count. */
  method EasyLine(reading: Option<seq<nat>>, count: nat) returns (failed: bool, count': nat)
    ensures failed <==> AddEasy(Some(count), reading).None?
    ensures !failed ==> AddEasy(Some(count), reading) == Some(count')
  {
    if reading.None? {
      return true, count;
    }
    var easy := CountEasy(reading.value);
    failed, count' := false, count + easy;
  }

  /** The inner loop of `part_a` over one line's digits. */
  method CountEasy(ds: seq<nat>) returns (count: nat)
    ensures count == EasyCount(ds)
  {
    count := 0;
    for j := 0 to |ds|
      invariant count == EasyCount(ds[..j])
    {
      assert ds[..j + 1][..j] == ds[..j];
      if ds[j] in [1, 4, 7, 8] {
        count := count + 1;
      }
    }
    assert ds[..|ds|] == ds;
  }

  lemma EasyTotalSnoc(lines: seq<(seq<string>, seq<string>)>, i: nat)
    requires i < |lines|
    ensures EasyTotal(lines[..i + 1]) == AddEasy(EasyTotal(lines[..i]), Reading(lines[i].0, lines[i].1))
  {
    assert lines[..i + 1][..i] == lines[..i];
  }

  /** The sum `part_b` reaches over the lines, `None` where a line raises: on a failed
      decoding, or on `int("")` for a line without outputs. */
  function ReadingTotal(lines: seq<(seq<string>, seq<string>)>): Option<nat> {
    if lines == [] then Some(0)
    else
      var last := lines[|lines| - 1];
      AddNumber(ReadingTotal(lines[..|lines| - 1]), Reading(last.0, last.1))
  }

  /** The running sum of `part_b` after one more line. */
  function AddNumber(total: Option<nat>, reading: Option<seq<nat>>): Option<nat> {
    if total.None? || reading.None? || reading.value == [] then None
    else Some(total.value + Decimal(reading.value))
  }

  /** `part_b`: sums the numbers the output digits spell. */
  method PartB(lines: seq<(seq<string>, seq<string>)>) returns (r: Option<nat>)
    ensures r == ReadingTotal(lines)
  {
    var sum := 0;
    for i := 0 to |lines|
      invariant ReadingTotal(lines[..i]) == Some(sum)
    {
      var failed;
      ReadingTotalSnoc(lines, i);
      var outNums := ReadLine(lines[i].0, lines[i].1);
      failed, sum := NumberLine(outNums, sum);
      if failed {
        TotalFails(lines, i + 1, true);
        return None;
      }
    }
    assert lines[..|lines|] == lines;
    return Some(sum);
  }

  /** The rest of one pass of `part_b`'s loop, given the line's reading: it raises with no
      reading or no digits, or adds the number the digits spell to the sum. */
  method NumberLine(reading: Option<seq<nat>>, sum: nat)
    returns (failed: bool, sum': nat)
    ensures failed <==> AddNumber(Some(sum), reading).None?
    ensures !failed ==> AddNumber(Some(sum), reading) == Some(sum')
  {
    if reading.None? || reading.value == [] {
      return true, sum;
    }
    var combined := Combine(reading.value);
    failed, sum' := false, sum + combined;
  }

  /** `int("".join([str(i) for i in out_nums]))`, digit by digit. */
  method Combine(ds: seq<nat>) returns (n: nat)
    ensures n == Decimal(ds)
  {
    n := 0;
    for j := 0 to |ds|
      invariant n == Decimal(ds[..j])
    {
      assert ds[..j + 1][..j] == ds[..j];
      n := 10 * n + ds[j];
    }
    assert ds[..|ds|] == ds;
  }

  lemma ReadingTotalSnoc(lines: seq<(seq<string>, seq<string>)>, i: nat)
    requires i < |lines|
    ensures ReadingTotal(lines[..i + 1]) ==
      AddNumber(ReadingTotal(lines[..i]), Reading(lines[i].0, lines[i].1))
  {
    assert lines[..i + 1][..i] == lines[..i];
  }

  /** Once a line has raised, the whole run has. */
  lemma {:induction false} TotalFails(lines: seq<(seq<string>, seq<string>)>, n: nat, b: bool)
    requires n <= |lines|
    requires if b then ReadingTotal(lines[..n]).None? else EasyTotal(lines[..n]).None?
    ensures if b then ReadingTotal(lines).None? else EasyTotal(lines).None?
    decreases |lines| - n
  {
    if n < |lines| {
      assert lines[..n + 1][..n] == lines[..n];
      TotalFails(lines, n + 1, b);
    } else {
      assert lines[..n] == lines;
    }
  }
}
