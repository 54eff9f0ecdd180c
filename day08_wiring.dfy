/** A correctly decoded display: when the ten signals of a line are the ten digits under
    some relabelling of the segment wires, the decoder of `day08/day8.py` recovers each
    pattern's true digit. */
module Day08Wiring {
  import opened Common
  import opened Day08

  // ---------------------------------------------------------------------------------------
  // Relabelled patterns

  /** A wiring: the letter that drives each segment, all different. */
  ghost predicate Wiring(w: seq<char>) {
    |w| == 7 && forall i, j :: 0 <= i < j < 7 ==> w[i] != w[j]
  }

  /** The letters that drive the segments of `S`. */
  ghost function Image(w: seq<char>, S: set<nat>): set<char> {
    set s | s in S && s < |w| :: w[s]
  }

  /** `p` holds each letter of the segments `S` once and nothing else. */
  ghost predicate Lit(w: seq<char>, p: seq<char>, S: set<nat>) {
    forall a :: multiset(p)[a] == if a in Image(w, S) then 1 else 0
  }

  /** `p` is digit `d` as the wiring `w` shows it, its letters in any order. */
  ghost predicate Shows(w: seq<char>, p: seq<char>, d: nat) {
    Wiring(w) && d < 10 && Lit(w, p, Standard[d])
  }

  /** The ten signals of a line are the ten digits, in some order, under the wiring `w`:
      signal `i` shows digit `dig[i]`, and each digit is listed once. */
  ghost predicate Scrambled(signals: seq<string>, w: seq<char>, dig: seq<nat>) {
    Wiring(w) && |signals| == 10 && |dig| == 10 &&
    (forall i :: 0 <= i < 10 ==> dig[i] < 10 && Shows(w, signals[i], dig[i])) &&
    forall d :: 0 <= d < 10 ==> multiset(dig)[d] == 1
  }

  /** A wiring lights as many letters as it has segments. */
  lemma {:induction false} ImageSize(w: seq<char>, S: set<nat>)
    requires Wiring(w) && forall s :: s in S ==> s < 7
    ensures |Image(w, S)| == |S|
    decreases |S|
  {
    if S != {} {
      var x :| x in S;
      ImageSize(w, S - {x});
      assert Image(w, S) == Image(w, S - {x}) + {w[x]};
    }
  }

  /** A pattern with each letter of a set once has as many letters as the set. */
  lemma {:induction false} OnceEachSize(p: seq<char>, T: set<char>)
    requires forall a :: multiset(p)[a] == if a in T then 1 else 0
    ensures |p| == |T|
  {
    if p != [] {
      var init, c := p[..|p| - 1], p[|p| - 1];
      assert p == init + [c];
      assert multiset(p)[c] > 0;
      OnceEachSize(init, T - {c});
    }
  }

  /** A pattern showing `d` has as many letters as `d` has segments. */
  lemma ShowsSize(w: seq<char>, p: seq<char>, d: nat)
    requires Shows(w, p, d)
    ensures |p| == |Standard[d]|
  {
    StandardInRange(d);
    ImageSize(w, Standard[d]);
    OnceEachSize(p, Image(w, Standard[d]));
  }

  lemma StandardInRange(d: nat)
    requires d < 10
    ensures forall s :: s in Standard[d] ==> s < 7
  {
  }

  /** A wiring's letter lights exactly when its own segment is in the set, and a letter the
      wiring does not use never lights. */
  lemma ImageMember(w: seq<char>, S: set<nat>)
    requires Wiring(w)
    ensures forall s :: 0 <= s < 7 ==> (w[s] in Image(w, S) <==> s in S)
    ensures forall a :: a !in w ==> a !in Image(w, S)
  {
  }

  // ---------------------------------------------------------------------------------------
  // Letter frequencies

  /** How many of the digits listed light segment `s`. */
  function Hits(dig: seq<nat>, s: nat): nat
    requires forall i :: 0 <= i < |dig| ==> dig[i] < 10
  {
    if dig == [] then 0
    else Hits(dig[..|dig| - 1], s) + if s in Standard[dig[|dig| - 1]] then 1 else 0
  }

  /** How many digits below `k` light segment `s`, each counted as often as `m` holds it. */
  function HitsBelow(m: multiset<nat>, s: nat, k: nat): nat
    requires k <= 10
  {
    if k == 0 then 0 else HitsBelow(m, s, k - 1) + if s in Standard[k - 1] then m[k - 1] else 0
  }

  lemma {:induction false} HitsBelowAdd(m: multiset<nat>, x: nat, s: nat, k: nat)
    requires k <= 10
    ensures HitsBelow(m + multiset{x}, s, k) ==
      HitsBelow(m, s, k) + if x < k && s in Standard[x] then 1 else 0
  {
    if k > 0 {
      HitsBelowAdd(m, x, s, k - 1);
    }
  }

  lemma {:induction false} HitsBelowNone(s: nat, k: nat)
    requires k <= 10
    ensures HitsBelow(multiset{}, s, k) == 0
  {
    if k > 0 {
      HitsBelowNone(s, k - 1);
    }
  }

  /** The count does not depend on the order of the digits. */
  lemma {:induction false} HitsByMultiset(dig: seq<nat>, s: nat)
    requires forall i :: 0 <= i < |dig| ==> dig[i] < 10
    ensures Hits(dig, s) == HitsBelow(multiset(dig), s, 10)
  {
    if dig == [] {
      HitsBelowNone(s, 10);
    } else {
      var init, x := dig[..|dig| - 1], dig[|dig| - 1];
      HitsByMultiset(init, s);
      assert dig == init + [x];
      assert multiset(dig) == multiset(init) + multiset{x};
      HitsBelowAdd(multiset(init), x, s, 10);
      assert Hits(dig, s) == Hits(init, s) + if s in Standard[x] then 1 else 0;
    }
  }

  /** How often each segment is lit over the ten digits: top 8, top-left 6, top-right 8,
      middle 7, bottom-left 4, bottom-right 9, bottom 7. */
  const Frequency: seq<nat> := [8, 6, 8, 7, 4, 9, 7]

  /** The number of digits that light segment `s`, written out. */
  function Lights(s: nat): nat {
    (if s in Standard[0] then 1 else 0) + (if s in Standard[1] then 1 else 0) +
    (if s in Standard[2] then 1 else 0) + (if s in Standard[3] then 1 else 0) +
    (if s in Standard[4] then 1 else 0) + (if s in Standard[5] then 1 else 0) +
    (if s in Standard[6] then 1 else 0) + (if s in Standard[7] then 1 else 0) +
    (if s in Standard[8] then 1 else 0) + (if s in Standard[9] then 1 else 0)
  }

  /** The frequencies the letter counts rely on. */
  lemma StandardFrequencies(m: multiset<nat>)
    requires forall d :: 0 <= d < 10 ==> m[d] == 1
    ensures forall s :: 0 <= s < 7 ==> HitsBelow(m, s, 10) == Frequency[s]
  {
    forall s | 0 <= s < 7
      ensures HitsBelow(m, s, 10) == Lights(s)
    {
      assert HitsBelow(m, s, 10) == HitsBelow(m, s, 8) + (if s in Standard[8] then 1 else 0) +
        (if s in Standard[9] then 1 else 0);
      assert HitsBelow(m, s, 8) == HitsBelow(m, s, 6) + (if s in Standard[6] then 1 else 0) +
        (if s in Standard[7] then 1 else 0);
      assert HitsBelow(m, s, 6) == HitsBelow(m, s, 4) + (if s in Standard[4] then 1 else 0) +
        (if s in Standard[5] then 1 else 0);
      assert HitsBelow(m, s, 4) == HitsBelow(m, s, 2) + (if s in Standard[2] then 1 else 0) +
        (if s in Standard[3] then 1 else 0);
      assert HitsBelow(m, s, 1) == if s in Standard[0] then 1 else 0;
    }
    LightsValues();
  }

  lemma LightsValues()
    ensures forall s :: 0 <= s < 7 ==> Lights(s) == Frequency[s]
  {
    assert Lights(0) == 8;
    assert Lights(1) == 6;
    assert Lights(2) == 8;
    assert Lights(3) == 7;
    assert Lights(4) == 4;
    assert Lights(5) == 9;
    assert Lights(6) == 7;
  }

  /** Over patterns that show digits, each letter of the wiring occurs as often as its
      segment is lit, and no other letter occurs. */
  lemma {:induction false} FlattenCounts(signals: seq<string>, w: seq<char>, dig: seq<nat>)
    requires Wiring(w) && |signals| == |dig|
    requires forall i :: 0 <= i < |dig| ==> Shows(w, signals[i], dig[i]) && dig[i] < 10
    ensures forall s :: 0 <= s < 7 ==> multiset(Flatten(signals))[w[s]] == Hits(dig, s)
    ensures forall a :: a !in w ==> multiset(Flatten(signals))[a] == 0
  {
    if signals != [] {
      var n := |signals| - 1;
      var init, last := signals[..n], signals[n];
      FlattenCounts(init, w, dig[..n]);
      assert multiset(Flatten(signals)) == multiset(Flatten(init)) + multiset(last);
      ImageMember(w, Standard[dig[n]]);
    }
  }

  /** The `letter_count` dict of a scrambled line: the letters of the wiring and no others,
      each counted as often as its segment is lit over the ten digits. */
  lemma LetterCounts(signals: seq<string>, w: seq<char>, dig: seq<nat>)
    requires Scrambled(signals, w, dig)
    ensures forall s :: 0 <= s < 7 ==>
      w[s] in Count(Flatten(signals)).count && Count(Flatten(signals)).count[w[s]] == Frequency[s]
    ensures forall a :: a in Count(Flatten(signals)).count ==> a in w
  {
    FlattenCounts(signals, w, dig);
    CountIsOccurrences(Flatten(signals));
    StandardFrequencies(multiset(dig));
    forall s | 0 <= s < 7
      ensures Hits(dig, s) == Frequency[s]
    {
      HitsByMultiset(dig, s);
    }
  }

  /** A letter that alone has count `k` and is among the keys is the one the scan finds. */
  lemma LastWithOnly(keys: seq<char>, count: map<char, nat>, k: nat, c: char)
    requires c in keys && Counted(c, count, k)
    requires forall a :: Counted(a, count, k) ==> a == c
    ensures LastWith(keys, count, k) == Some(c)
  {
    LastWithIsLast(keys, count, k);
    var i :| 0 <= i < |keys| && keys[i] == c;
  }

  /** The scan over the counts finds top-left, bottom-left and bottom-right. */
  lemma WiresFound(signals: seq<string>, w: seq<char>, dig: seq<nat>)
    requires Scrambled(signals, w, dig)
    ensures var t := Count(Flatten(signals));
      LastWith(t.keys, t.count, 6) == Some(w[1]) &&
      LastWith(t.keys, t.count, 4) == Some(w[4]) &&
      LastWith(t.keys, t.count, 9) == Some(w[5])
  {
    var t := Count(Flatten(signals));
    LetterCounts(signals, w, dig);
    CountIsOccurrences(Flatten(signals));
    forall a, k | Counted(a, t.count, k) && k in {6, 4, 9}
      ensures a == w[if k == 6 then 1 else if k == 4 then 4 else 5]
    {
      var s :| 0 <= s < 7 && w[s] == a;
    }
    LastWithOnly(t.keys, t.count, 6, w[1]);
    LastWithOnly(t.keys, t.count, 4, w[4]);
    LastWithOnly(t.keys, t.count, 9, w[5]);
  }

  // ---------------------------------------------------------------------------------------
  // The patterns found by length

  lemma StandardSizes()
    ensures |Standard[0]| == 6 && |Standard[1]| == 2 && |Standard[2]| == 5
    ensures |Standard[3]| == 5 && |Standard[4]| == 4 && |Standard[5]| == 5
    ensures |Standard[6]| == 6 && |Standard[7]| == 3 && |Standard[8]| == 7
    ensures |Standard[9]| == 6
  {
  }

  /** On a scrambled line every pattern has a valid length, and the slots of 1, 4, 7 and 8
      hold patterns that show those digits. */
  lemma KnownShows(signals: seq<string>, w: seq<char>, dig: seq<nat>)
    requires Scrambled(signals, w, dig)
    ensures Known(signals).Some?
    ensures forall d :: d in {1, 4, 7, 8} ==> Shows(w, Known(signals).value[d], d)
  {
    PatternSizes(signals, w, dig);
    StandardSizes();
    KnownSome(signals);
    forall d | d in {1, 4, 7, 8}
      ensures Shows(w, Known(signals).value[d], d)
    {
      assert d in multiset(dig);
      var i :| 0 <= i < 10 && dig[i] == d;
      assert Candidates(signals[i]) == Some([d]);
      var j := SlotSource(signals, d, i);
      CandidatesByLength(signals[j], dig[j]);
    }
  }

  /** Each pattern of a scrambled line has as many letters as its digit has segments. */
  lemma PatternSizes(signals: seq<string>, w: seq<char>, dig: seq<nat>)
    requires Scrambled(signals, w, dig)
    ensures forall i :: 0 <= i < 10 ==> |signals[i]| == |Standard[dig[i]]|
    ensures forall i :: 0 <= i < 10 ==> 2 <= |signals[i]| <= 7
  {
    StandardSizes();
    forall i | 0 <= i < 10
      ensures |signals[i]| == |Standard[dig[i]]|
    {
      ShowsSize(w, signals[i], dig[i]);
    }
  }

  lemma KnownSome(signals: seq<string>)
    requires forall i :: 0 <= i < |signals| ==> 2 <= |signals[i]| <= 7
    ensures Known(signals).Some?
  {
    KnownSlots(signals);
  }

  /** A slot some pattern fills holds a pattern of that length. */
  lemma SlotSource(signals: seq<string>, d: nat, i: nat) returns (j: nat)
    requires Known(signals).Some? && i < |signals| && Candidates(signals[i]) == Some([d])
    ensures j < |signals| && Candidates(signals[j]) == Some([d]) &&
      Known(signals).value[d] == signals[j]
  {
    KnownSlots(signals);
    j :| 0 <= j < |signals| && Candidates(signals[j]) == Some([d]) &&
      Known(signals).value[d] == signals[j];
  }

  // ---------------------------------------------------------------------------------------
  // The deduction

  /** Dropping the letters of segments `X` from a pattern of `S` leaves a pattern of
      `S - X`. */
  lemma RemoveLit(w: seq<char>, p: seq<char>, S: set<nat>, X: set<nat>)
    requires Wiring(w) && Lit(w, p, S)
    ensures Lit(w, Remove(p, Image(w, X)), S - X)
  {
    RemoveCounts(p, Image(w, X));
    ImageMember(w, S);
    ImageMember(w, X);
    ImageMember(w, S - X);
  }

  /** Appending the letter of a segment not yet lit lights it too. */
  lemma AppendLit(w: seq<char>, p: seq<char>, S: set<nat>, x: nat)
    requires Wiring(w) && Lit(w, p, S) && x < 7 && x !in S
    ensures Lit(w, p + [w[x]], S + {x})
  {
    assert multiset(p + [w[x]]) == multiset(p) + multiset{w[x]};
    ImageMember(w, S);
    ImageMember(w, S + {x});
  }

  /** A pattern of one segment is that segment's letter. */
  lemma SingleLit(w: seq<char>, p: seq<char>, x: nat)
    requires Wiring(w) && Lit(w, p, {x}) && x < 7
    ensures p == [w[x]]
  {
    assert Image(w, {x}) == {w[x]};
    OnceEachSize(p, Image(w, {x}));
    assert p[0] in multiset(p);
  }

  /** How the digits' segments relate: what the source's comments say in words. */
  lemma SegmentAlgebra()
    ensures Standard[1] - {5} == {2}
    ensures Standard[4] - {1, 2, 5} == {3}
    ensures Standard[8] - {4} == Standard[9]
    ensures Standard[9] - {2} == Standard[5]
    ensures Standard[5] + {4} == Standard[6]
    ensures Standard[8] - {1, 4} == Standard[3]
    ensures Standard[8] - {1, 5} == Standard[2]
    ensures Standard[8] - {3} == Standard[0]
  {
  }

  /** Given the patterns of 1, 4, 7 and 8 and the letters of top-left, bottom-left and
      bottom-right, the deduction fills every slot with a pattern of its own digit. */
  lemma DeduceShows(nums: seq<seq<char>>, w: seq<char>)
    requires Wiring(w) && |nums| == 10
    requires forall d :: d in {1, 4, 7, 8} ==> Shows(w, nums[d], d)
    ensures Deduce(nums, Some(w[1]), Some(w[4]), Some(w[5])).Some?
    ensures forall d :: 0 <= d < 10 ==>
      Shows(w, Deduce(nums, Some(w[1]), Some(w[4]), Some(w[5])).value[d], d)
  {
    DeduceIsSlots(nums, w);
    SlotsShow(nums, w);
  }

  /** The slots the deduction fills, once top-right and middle are known to be `w[2]` and
      `w[3]`. */
  ghost function Slots(nums: seq<seq<char>>, w: seq<char>): seq<seq<char>>
    requires |nums| == 10 && |w| == 7
  {
    var n9 := Remove(nums[8], {w[4]});
    var n5 := Remove(n9, {w[2]});
    nums[9 := n9][5 := n5][6 := n5 + [w[4]]][3 := Remove(nums[8], {w[1], w[4]})]
      [2 := Remove(nums[8], {w[1], w[5]})][0 := Remove(nums[8], {w[3]})]
  }

  lemma DeduceIsSlots(nums: seq<seq<char>>, w: seq<char>)
    requires Wiring(w) && |nums| == 10
    requires Shows(w, nums[1], 1) && Shows(w, nums[4], 4)
    ensures Deduce(nums, Some(w[1]), Some(w[4]), Some(w[5])) == Some(Slots(nums, w))
  {
    TopRightFound(nums[1], w);
    MiddleFound(nums[4], w);
    assert (set x | x in [w[3]]) == {w[3]};
    assert Letters(Some(w[1])) + {w[4]} == {w[1], w[4]};
    assert Letters(Some(w[1])) + {w[5]} == {w[1], w[5]};
  }

  /** Dropping bottom-right from 1 leaves top-right. */
  lemma TopRightFound(one: seq<char>, w: seq<char>)
    requires Shows(w, one, 1)
    ensures Remove(one, {w[5]}) == [w[2]]
  {
    SegmentAlgebra();
    assert {w[5]} == Image(w, {5});
    RemoveLit(w, one, Standard[1], {5});
    SingleLit(w, Remove(one, {w[5]}), 2);
  }

  /** Dropping top-left, top-right and bottom-right from 4 leaves the middle. */
  lemma MiddleFound(four: seq<char>, w: seq<char>)
    requires Shows(w, four, 4)
    ensures Remove(four, Letters(Some(w[1])) + {w[2], w[5]}) == [w[3]]
  {
    SegmentAlgebra();
    assert Letters(Some(w[1])) + {w[2], w[5]} == Image(w, {1, 2, 5});
    RemoveLit(w, four, Standard[4], {1, 2, 5});
    SingleLit(w, Remove(four, Image(w, {1, 2, 5})), 3);
  }

  lemma SlotsShow(nums: seq<seq<char>>, w: seq<char>)
    requires Wiring(w) && |nums| == 10
    requires forall d :: d in {1, 4, 7, 8} ==> Shows(w, nums[d], d)
    ensures forall d :: 0 <= d < 10 ==> Shows(w, Slots(nums, w)[d], d)
  {
    var n8 := nums[8];
    SegmentAlgebra();
    assert Image(w, {1, 4}) == {w[1], w[4]};
    assert Image(w, {1, 5}) == {w[1], w[5]};
    assert Image(w, {3}) == {w[3]};
    NineFound(n8, w);
    FiveFound(Remove(n8, {w[4]}), w);
    SixFound(Remove(Remove(n8, {w[4]}), {w[2]}), w);
    EightMinus(n8, w, {1, 4}, 3);
    EightMinus(n8, w, {1, 5}, 2);
    EightMinus(n8, w, {3}, 0);
  }

  lemma NineFound(eight: seq<char>, w: seq<char>)
    requires Shows(w, eight, 8)
    ensures Shows(w, Remove(eight, {w[4]}), 9)
  {
    SegmentAlgebra();
    assert {w[4]} == Image(w, {4});
    RemoveLit(w, eight, Standard[8], {4});
  }

  lemma FiveFound(nine: seq<char>, w: seq<char>)
    requires Shows(w, nine, 9)
    ensures Shows(w, Remove(nine, {w[2]}), 5)
  {
    SegmentAlgebra();
    assert {w[2]} == Image(w, {2});
    RemoveLit(w, nine, Standard[9], {2});
  }

  lemma SixFound(five: seq<char>, w: seq<char>)
    requires Shows(w, five, 5)
    ensures Shows(w, five + [w[4]], 6)
  {
    SegmentAlgebra();
    AppendLit(w, five, Standard[5], 4);
  }

  /** 3, 2 and 0 are 8 without top-left and bottom-left, without top-left and bottom-right,
      and without the middle. */
  lemma EightMinus(eight: seq<char>, w: seq<char>, X: set<nat>, d: nat)
    requires Shows(w, eight, 8) && d < 10 && Standard[8] - X == Standard[d]
    requires forall s :: s in X ==> s < 7
    ensures Shows(w, Remove(eight, Image(w, X)), d)
  {
    RemoveLit(w, eight, Standard[8], X);
  }

  // ---------------------------------------------------------------------------------------
  // The keys of the decoded map

  /** Two sorted strings with the same letters are the same string. */
  lemma {:induction false} SortedUnique(a: string, b: string)
    requires SortedBy(a, CharLe) && SortedBy(b, CharLe) && multiset(a) == multiset(b)
    ensures a == b
  {
    if a == [] {
      assert |multiset(b)| == 0;
    } else {
      assert a[0] in multiset(a);
      SortedHeads(a, b);
      var a', b' := a[1..], b[1..];
      assert a == [a[0]] + a' && b == [b[0]] + b';
      assert multiset(a) == multiset{a[0]} + multiset(a');
      assert multiset(b) == multiset{a[0]} + multiset(b');
      Cancel(a[0], multiset(a'), multiset(b'));
      SortedUnique(a', b');
    }
  }

  lemma Cancel(x: char, A: multiset<char>, B: multiset<char>)
    requires multiset{x} + A == multiset{x} + B
    ensures A == B
  {
    forall c
      ensures A[c] == B[c]
    {
      assert (multiset{x} + A)[c] == (multiset{x} + B)[c];
    }
  }

  /** Both start with the least letter. */
  lemma SortedHeads(a: string, b: string)
    requires SortedBy(a, CharLe) && SortedBy(b, CharLe) && multiset(a) == multiset(b)
    requires a != [] && b != []
    ensures a[0] == b[0]
  {
    assert a[0] in multiset(b) && b[0] in multiset(a);
    var i :| 0 <= i < |b| && b[i] == a[0];
    var j :| 0 <= j < |a| && a[j] == b[0];
    assert CharLe(b[0], b[i]) && CharLe(a[0], a[j]);
  }

  /** The key of a pattern depends only on its letters, and determines them. */
  lemma KeyIsLetters(p: string, q: string)
    ensures Key(p) == Key(q) <==> multiset(p) == multiset(q)
  {
    if multiset(p) == multiset(q) {
      CharLeIsTotalPreorder();
      SortIsSorted(p, CharLe);
      SortIsSorted(q, CharLe);
      SortedUnique(Key(p), Key(q));
    }
  }

  /** Patterns that light the same letters light the same segments. */
  lemma LitDetermines(w: seq<char>, p: seq<char>, S: set<nat>, q: seq<char>, T: set<nat>)
    requires Wiring(w) && Lit(w, p, S) && Lit(w, q, T)
    requires (forall s :: s in S ==> s < 7) && forall s :: s in T ==> s < 7
    ensures multiset(p) == multiset(q) <==> S == T
  {
    ImageMember(w, S);
    ImageMember(w, T);
    if multiset(p) == multiset(q) {
      assert forall s :: 0 <= s < 7 ==> multiset(p)[w[s]] == multiset(q)[w[s]];
    } else if S == T {
      assert forall a :: multiset(p)[a] == multiset(q)[a];
    }
  }

  /** No two digits light the same segments. */
  lemma StandardDistinct()
    ensures forall d, e :: 0 <= d < e < 10 ==> Standard[d] != Standard[e]
  {
  }

  // ---------------------------------------------------------------------------------------
  // The decoder is correct

  /** On a scrambled line `parse_signals` succeeds, and maps the sorted letters of any
      pattern that shows digit `d` under the line's wiring to `d`; in particular each
      signal's sorted form to its true digit. */
  lemma DecodingRelabelled(signals: seq<string>, w: seq<char>, dig: seq<nat>)
    requires Scrambled(signals, w, dig)
    ensures Decoding(signals).Some?
    ensures forall p, d :: Shows(w, p, d) ==>
      Key(p) in Decoding(signals).value && Decoding(signals).value[Key(p)] == d
  {
    WiresFound(signals, w, dig);
    KnownShows(signals, w, dig);
    var nums := Known(signals).value;
    DeduceShows(nums, w);
    var all := Deduce(nums, Some(w[1]), Some(w[4]), Some(w[5])).value;
    assert Decoding(signals) == Some(Index(Keys(all)));
    forall p, d | Shows(w, p, d)
      ensures Key(p) in Index(Keys(all)) && Index(Keys(all))[Key(p)] == d
    {
      DecodedSlot(all, w, p, d);
    }
  }

  /** In the `out` dict built from slots that each show their own digit, the key of a
      pattern showing `d` maps to `d`. */
  lemma DecodedSlot(all: seq<seq<char>>, w: seq<char>, p: seq<char>, d: nat)
    requires |all| == 10 && forall e :: 0 <= e < 10 ==> Shows(w, all[e], e)
    requires Shows(w, p, d)
    ensures Key(p) in Index(Keys(all)) && Index(Keys(all))[Key(p)] == d
  {
    StandardInRange(d);
    LitDetermines(w, p, Standard[d], all[d], Standard[d]);
    KeyIsLetters(p, all[d]);
    IndexIsLastSlot(Keys(all));
    var j := Index(Keys(all))[Key(p)];
    KeyIsLetters(p, all[j]);
    StandardInRange(j);
    LitDetermines(w, p, Standard[d], all[j], Standard[j]);
    StandardDistinct();
  }

  /** The outputs of a scrambled line read as the digits they show. */
  lemma ReadingRelabelled(signals: seq<string>, output: seq<string>, w: seq<char>,
                          dig: seq<nat>, ds: seq<nat>)
    requires Scrambled(signals, w, dig)
    requires |ds| == |output| && forall i :: 0 <= i < |output| ==> Shows(w, output[i], ds[i])
    ensures Reading(signals, output) == Some(ds)
  {
    DecodingRelabelled(signals, w, dig);
    var nums := Decoding(signals).value;
    var keys := Keys(output);
    forall i | 0 <= i < |output|
      ensures keys[i] in nums && nums[keys[i]] == ds[i]
    {
      assert Shows(w, output[i], ds[i]);
    }
    LookupFailsIffMissing(keys, nums);
    LookupIsPerPattern(keys, nums);
    var v := Lookup(keys, nums).value;
    assert v == ds;
    assert Reading(signals, output) == Lookup(keys, nums);
  }

  /** Input lines that are what the puzzle promises: line `k` is scrambled by the wiring
      `ws[k]` and its outputs show the digits `dss[k]`. */
  ghost predicate Honest(lines: seq<(seq<string>, seq<string>)>, ws: seq<seq<char>>,
                         digs: seq<seq<nat>>, dss: seq<seq<nat>>) {
    |ws| == |lines| && |digs| == |lines| && |dss| == |lines| &&
    forall k :: 0 <= k < |lines| ==>
      Scrambled(lines[k].0, ws[k], digs[k]) && |dss[k]| == |lines[k].1| &&
      forall i :: 0 <= i < |lines[k].1| ==> Shows(ws[k], lines[k].1[i], dss[k][i])
  }

  /** How many of the digits shown are 1, 4, 7 or 8, over all lines. */
  ghost function EasySum(dss: seq<seq<nat>>): nat {
    if dss == [] then 0 else EasySum(dss[..|dss| - 1]) + EasyCount(dss[|dss| - 1])
  }

  /** The numbers the lines show, summed. */
  ghost function DecimalSum(dss: seq<seq<nat>>): nat {
    if dss == [] then 0 else DecimalSum(dss[..|dss| - 1]) + Decimal(dss[|dss| - 1])
  }

  /** On honest input `part_a` counts the 1s, 4s, 7s and 8s shown and `part_b` sums the
      numbers shown; `part_b` needs every line to have an output. */
  lemma {:induction false} PartsRelabelled(lines: seq<(seq<string>, seq<string>)>,
                                           ws: seq<seq<char>>, digs: seq<seq<nat>>,
                                           dss: seq<seq<nat>>)
    requires Honest(lines, ws, digs, dss)
    ensures EasyTotal(lines).Some? && EasyTotal(lines).value == EasySum(dss)
    ensures (forall k :: 0 <= k < |lines| ==> lines[k].1 != []) ==>
      ReadingTotal(lines).Some? && ReadingTotal(lines).value == DecimalSum(dss)
  {
    if lines != [] {
      var n := |lines| - 1;
      assert Honest(lines[..n], ws[..n], digs[..n], dss[..n]) by {
        assert forall k :: 0 <= k < n ==> lines[..n][k] == lines[k];
      }
      PartsRelabelled(lines[..n], ws[..n], digs[..n], dss[..n]);
      ReadingRelabelled(lines[n].0, lines[n].1, ws[n], digs[n], dss[n]);
      EasyStep(lines, dss);
      if forall k :: 0 <= k < |lines| ==> lines[k].1 != [] {
        NumberStep(lines, dss);
      }
    }
  }

  lemma EasyStep(lines: seq<(seq<string>, seq<string>)>, dss: seq<seq<nat>>)
    requires lines != [] && |dss| == |lines|
    requires Reading(lines[|lines| - 1].0, lines[|lines| - 1].1) == Some(dss[|lines| - 1])
    requires EasyTotal(lines[..|lines| - 1]).Some?
    requires EasyTotal(lines[..|lines| - 1]).value == EasySum(dss[..|lines| - 1])
    ensures EasyTotal(lines).Some? && EasyTotal(lines).value == EasySum(dss)
  {
    var n := |lines| - 1;
    EasyTotalLast(lines);
    EasyArith(EasyTotal(lines[..n]), EasyTotal(lines), Reading(lines[n].0, lines[n].1), dss);
  }

  lemma EasyTotalLast(lines: seq<(seq<string>, seq<string>)>)
    requires lines != []
    ensures EasyTotal(lines) == AddEasy(EasyTotal(lines[..|lines| - 1]),
      Reading(lines[|lines| - 1].0, lines[|lines| - 1].1))
  {
  }

  lemma EasyArith(before: Option<nat>, after: Option<nat>, r: Option<seq<nat>>,
                  dss: seq<seq<nat>>)
    requires dss != [] && r == Some(dss[|dss| - 1])
    requires before.Some? && before.value == EasySum(dss[..|dss| - 1])
    requires after == AddEasy(before, r)
    ensures after.Some? && after.value == EasySum(dss)
  {
    SumsSnoc(dss);
  }

  lemma SumsSnoc(dss: seq<seq<nat>>)
    requires dss != []
    ensures EasySum(dss) == EasySum(dss[..|dss| - 1]) + EasyCount(dss[|dss| - 1])
    ensures DecimalSum(dss) == DecimalSum(dss[..|dss| - 1]) + Decimal(dss[|dss| - 1])
  {
  }

  lemma ReadingTotalLast(lines: seq<(seq<string>, seq<string>)>)
    requires lines != []
    ensures ReadingTotal(lines) == AddNumber(ReadingTotal(lines[..|lines| - 1]),
      Reading(lines[|lines| - 1].0, lines[|lines| - 1].1))
  {
  }


  lemma NumberStep(lines: seq<(seq<string>, seq<string>)>, dss: seq<seq<nat>>)
    requires lines != [] && |dss| == |lines| && lines[|lines| - 1].1 != []
    requires Reading(lines[|lines| - 1].0, lines[|lines| - 1].1) == Some(dss[|lines| - 1])
    requires dss[|lines| - 1] != []
    requires ReadingTotal(lines[..|lines| - 1]).Some?
    requires ReadingTotal(lines[..|lines| - 1]).value == DecimalSum(dss[..|lines| - 1])
    ensures ReadingTotal(lines).Some? && ReadingTotal(lines).value == DecimalSum(dss)
  {
    var n := |lines| - 1;
    ReadingTotalLast(lines);
    NumberArith(ReadingTotal(lines[..n]), ReadingTotal(lines), Reading(lines[n].0, lines[n].1), dss);
  }

  lemma NumberArith(before: Option<nat>, after: Option<nat>, r: Option<seq<nat>>,
                    dss: seq<seq<nat>>)
    requires dss != [] && dss[|dss| - 1] != [] && r == Some(dss[|dss| - 1])
    requires before.Some? && before.value == DecimalSum(dss[..|dss| - 1])
    requires after == AddNumber(before, r)
    ensures after.Some? && after.value == DecimalSum(dss)
  {
    SumsSnoc(dss);
  }

  /** How many of the patterns have a length only one digit has. */
  function UniqueLengthCount(output: seq<string>): nat {
    if output == [] then 0
    else
      var last := output[|output| - 1];
      UniqueLengthCount(output[..|output| - 1]) + if |last| in {2, 3, 4, 7} then 1 else 0
  }

  /** Counting the digits 1, 4, 7 and 8 among the shown digits is counting the patterns of
      length 2, 3, 4 and 7, as the puzzle intends part one to be solved. */
  lemma {:induction false} EasyByLength(output: seq<string>, w: seq<char>, ds: seq<nat>)
    requires |ds| == |output| && forall i :: 0 <= i < |output| ==> Shows(w, output[i], ds[i])
    ensures EasyCount(ds) == UniqueLengthCount(output)
  {
    if output != [] {
      var n := |output| - 1;
      EasyByLength(output[..n], w, ds[..n]);
      ShowsSize(w, output[n], ds[n]);
      EasyDigit(ds[n]);
      assert output[..n] == output[..|output| - 1] && ds[..n] == ds[..|ds| - 1];
    }
  }

  /** 1, 4, 7 and 8 are the digits whose number of segments no other digit has. */
  lemma EasyDigit(d: nat)
    requires d < 10
    ensures d in [1, 4, 7, 8] <==> |Standard[d]| in {2, 3, 4, 7}
  {
    StandardSizes();
  }
}
