/** Extended polymerization: a polymer grown by pair insertion rules, once as a list rebuilt
    every step (part_a) and once as counts of adjacent pairs (part_b). */
module Day14 {
  import opened Common

  /** The insertion for the adjacent pair `a`, `b`: the rule's character, or nothing. */
  function Ins(rules: map<string, char>, a: char, b: char): seq<char> {
    if [a, b] in rules then [rules[[a, b]]] else []
  }

  /** The polymer after one step: each character followed by the insertion for it and its
      right neighbour; the last character closes the list. */
  function Inserted(p: seq<char>, rules: map<string, char>): seq<char> {
    if |p| <= 1 then p else [p[0]] + Ins(rules, p[0], p[1]) + Inserted(p[1..], rules)
  }

  function Iterate(p: seq<char>, rules: map<string, char>, steps: nat): seq<char> {
    if steps == 0 then p else Inserted(Iterate(p, rules, steps - 1), rules)
  }

  /** How many of the adjacent pairs `(k, k + 1)` with `k < i` have a rule. */
  function RulesBefore(p: seq<char>, rules: map<string, char>, i: nat): nat
    requires i <= |p|
  {
    if i == 0 || |p| <= 1 then 0
    else |Ins(rules, p[0], p[1])| + RulesBefore(p[1..], rules, i - 1)
  }

  /** The `Formula` dataclass; `do_insertion` replaces its `polymer`. */
  class Formula {
    var polymer: seq<char>
    var rules: map<string, char>

    constructor(polymer: seq<char>, rules: map<string, char>)
      ensures this.polymer == polymer && this.rules == rules
    {
      this.polymer := polymer;
      this.rules := rules;
    }

    /** `do_insertion`; `polymer[-1]` needs a non-empty polymer. */
    method DoInsertion()
      requires |polymer| > 0
      modifies this
      ensures polymer == Inserted(old(polymer), rules) && rules == old(rules)
    {
      var p := polymer;
      var out := [];
      for i := 0 to |p| - 1
        invariant out + Inserted(p[i..], rules) == Inserted(p, rules)
      {
        assert p[i..][1..] == p[i + 1..];
        var pair := [p[i], p[i + 1]];
        out := out + [p[i]];
        if pair in rules {
          out := out + [rules[pair]];
        }
      }
      out := out + [p[|p| - 1]];
      polymer := out;
    }
  }

  /** The new polymer is longer by the number of adjacent pairs that have a rule. */
  lemma {:induction false} InsertedLength(p: seq<char>, rules: map<string, char>)
    ensures |Inserted(p, rules)| == |p| + RulesBefore(p, rules, |p|)
  {
    if |p| > 1 {
      InsertedLength(p[1..], rules);
    }
  }

  /** The first and the last character are kept. */
  lemma {:induction false} InsertedEnds(p: seq<char>, rules: map<string, char>)
    requires |p| > 0
    ensures |Inserted(p, rules)| > 0
    ensures Inserted(p, rules)[0] == p[0]
    ensures Inserted(p, rules)[|Inserted(p, rules)| - 1] == p[|p| - 1]
  {
    if |p| > 1 {
      InsertedEnds(p[1..], rules);
    }
  }

  /** The old polymer is an order-preserving subsequence of the new one: character `i` lands
      at `i` plus the number of insertions before it, and an insertion sits right after the
      left character of the pair that triggered it. */
  lemma {:induction false} InsertedPositions(p: seq<char>, rules: map<string, char>, i: nat)
    requires i < |p|
    ensures i + RulesBefore(p, rules, i) < |Inserted(p, rules)|
    ensures Inserted(p, rules)[i + RulesBefore(p, rules, i)] == p[i]
    ensures i + 1 < |p| && [p[i], p[i + 1]] in rules ==>
      i + RulesBefore(p, rules, i) + 1 < |Inserted(p, rules)| &&
      Inserted(p, rules)[i + RulesBefore(p, rules, i) + 1] == rules[[p[i], p[i + 1]]]
  {
    InsertedLength(p, rules);
    if i > 0 {
      InsertedPositions(p[1..], rules, i - 1);
      assert p[1..][i - 1] == p[i];
      if i < |p| - 1 {
        assert p[1..][i] == p[i + 1];
      }
      var head := [p[0]] + Ins(rules, p[0], p[1]);
      assert Inserted(p, rules) == head + Inserted(p[1..], rules);
      assert RulesBefore(p, rules, i) == |head| - 1 + RulesBefore(p[1..], rules, i - 1);
    } else if |p| > 1 {
      assert Inserted(p, rules) == [p[0]] + Ins(rules, p[0], p[1]) + Inserted(p[1..], rules);
    }
  }

  /** The adjacent pairs of a polymer, left to right, as two-character strings. */
  function Pairs(p: seq<char>): seq<string> {
    if |p| < 2 then [] else [[p[0], p[1]]] + Pairs(p[1..])
  }

  /** Pair `i` is characters `i` and `i + 1`. */
  lemma {:induction false} PairsAt(p: seq<char>)
    ensures |Pairs(p)| == if |p| < 2 then 0 else |p| - 1
    ensures forall i :: 0 <= i < |Pairs(p)| ==> Pairs(p)[i] == [p[i], p[i + 1]]
  {
    if |p| >= 2 {
      PairsAt(p[1..]);
      assert forall i :: 1 <= i < |Pairs(p)| ==> Pairs(p)[i] == Pairs(p[1..])[i - 1];
    }
  }

  lemma PairsCons(a: char, q: seq<char>)
    requires |q| > 0
    ensures Pairs([a] + q) == [[a, q[0]]] + Pairs(q)
  {
    assert ([a] + q)[1..] == q;
  }

  /** Every adjacent pair of `p` has a rule. */
  predicate AllRuled(p: seq<char>, rules: map<string, char>) {
    forall i :: 0 <= i < |p| - 1 ==> [p[i], p[i + 1]] in rules
  }

  // ---------------------------------------------------------------------------------------
  // Multisets viewed through a function: the abstract meaning of a loop over a Counter

  /** `n` copies of `a`. */
  function Times<T>(n: nat, a: multiset<T>): multiset<T> {
    if n == 0 then multiset{} else a + Times(n - 1, a)
  }

  lemma {:induction false} TimesSingleton<T>(n: nat, y: T, x: T)
    ensures Times(n, multiset{y})[x] == if x == y then n else 0
  {
    if n > 0 {
      TimesSingleton(n - 1, y, x);
    }
  }

  /** The union of `f(x)` over the elements `x` of `m`, counted with multiplicity. */
  ghost function Bind<K(!new), T(!new)>(m: multiset<K>, f: K -> multiset<T>): multiset<T>
    decreases |m|
  {
    if m == multiset{} then multiset{}
    else
      var x := Pick(m);
      f(x) + Bind(m - multiset{x}, f)
  }

  ghost function Pick<K(!new)>(m: multiset<K>): (x: K)
    requires m != multiset{}
    ensures x in m
  {
    var x :| x in m; x
  }

  /** `Bind` does not depend on the order in which elements are chosen. */
  lemma {:induction false} BindAdd<K(!new), T(!new)>(m: multiset<K>, y: K, f: K -> multiset<T>)
    ensures Bind(m + multiset{y}, f) == f(y) + Bind(m, f)
    decreases |m|
  {
    var m' := m + multiset{y};
    var x := Pick(m');
    if x != y {
      assert x in m;
      var rest := m - multiset{x};
      assert m' - multiset{x} == rest + multiset{y};
      assert m == rest + multiset{x};
      BindAdd(rest, y, f);
      BindAdd(rest, x, f);
    } else {
      assert m' - multiset{x} == m;
    }
  }

  lemma {:induction false} BindTimes<K(!new), T(!new)>(m: multiset<K>, n: nat, y: K, f: K -> multiset<T>)
    ensures Bind(m + Times(n, multiset{y}), f) == Times(n, f(y)) + Bind(m, f)
  {
    if n > 0 {
      BindOneMore(m, n, y, f);
      BindTimes(m, n - 1, y, f);
      UnionAssoc(f(y), Times(n - 1, f(y)), Bind(m, f));
    } else {
      assert m + Times(n, multiset{y}) == m;
    }
  }

  lemma BindOneMore<K(!new), T(!new)>(m: multiset<K>, n: nat, y: K, f: K -> multiset<T>)
    requires n > 0
    ensures Bind(m + Times(n, multiset{y}), f) == f(y) + Bind(m + Times(n - 1, multiset{y}), f)
  {
    UnionSwap(m, multiset{y}, Times(n - 1, multiset{y}));
    BindAdd(m + Times(n - 1, multiset{y}), y, f);
  }

  lemma UnionSwap<T>(a: multiset<T>, b: multiset<T>, c: multiset<T>)
    ensures a + (b + c) == (a + c) + b
  {
  }

  lemma UnionAssoc<T>(a: multiset<T>, b: multiset<T>, c: multiset<T>)
    ensures a + (b + c) == (a + b) + c
  {
  }

  /** The union of `f(x)` over a sequence. */
  function SeqBind<K, T>(s: seq<K>, f: K -> multiset<T>): multiset<T> {
    if s == [] then multiset{} else f(s[0]) + SeqBind(s[1..], f)
  }

  lemma {:induction false} BindSeq<K(!new), T(!new)>(s: seq<K>, f: K -> multiset<T>)
    ensures Bind(multiset(s), f) == SeqBind(s, f)
  {
    if s != [] {
      assert s == [s[0]] + s[1..];
      assert multiset(s) == multiset(s[1..]) + multiset{s[0]};
      BindAdd(multiset(s[1..]), s[0], f);
      BindSeq(s[1..], f);
    }
  }

  // ---------------------------------------------------------------------------------------
  // Counters

  /** A `collections.Counter`: its keys in insertion order, each with its count. */
  type Counter<K> = seq<(K, nat)>

  /** `counter[k]`: zero for a missing key. */
  function Get<K(==)>(c: Counter<K>, k: K): nat {
    if c == [] then 0 else if c[0].0 == k then c[0].1 else Get(c[1..], k)
  }

  function Keys<K>(c: Counter<K>): set<K> {
    set i | 0 <= i < |c| :: c[i].0
  }

  predicate Distinct<K(==)>(c: Counter<K>) {
    forall i, j :: 0 <= i < j < |c| ==> c[i].0 != c[j].0
  }

  predicate Positive<K>(c: Counter<K>) {
    forall i :: 0 <= i < |c| ==> c[i].1 > 0
  }

  /** `c` holds exactly the multiset `m`: each key once, with its positive multiplicity. */
  ghost predicate Represents<K(!new)>(c: Counter<K>, m: multiset<K>) {
    Distinct(c) && Positive(c) && forall k :: Get(c, k) == m[k]
  }

  /** `counter[k] += n`: an existing key keeps its place, a new one goes last. */
  function AddTo<K(==,!new)>(c: Counter<K>, k: K, n: nat): (r: Counter<K>)
    ensures forall j :: Get(r, j) == Get(c, j) + (if j == k then n else 0)
    ensures Keys(r) == Keys(c) + {k}
    ensures Distinct(c) ==> Distinct(r)
    ensures Positive(c) && n > 0 ==> Positive(r)
  {
    assert c != [] ==> c == [c[0]] + c[1..] && Keys(c) == {c[0].0} + Keys(c[1..]) by {
      if c != [] {
        KeysCons(c[0], c[1..]);
      }
    }
    if c == [] then
      KeysCons((k, n), []);
      assert [(k, n)] == [(k, n)] + [];
      [(k, n)]
    else if c[0].0 == k then
      KeysCons((k, c[0].1 + n), c[1..]);
      [(k, c[0].1 + n)] + c[1..]
    else
      KeysCons(c[0], AddTo(c[1..], k, n));
      [c[0]] + AddTo(c[1..], k, n)
  }

  lemma KeysCons<K>(e: (K, nat), c: Counter<K>)
    ensures Keys([e] + c) == {e.0} + Keys(c)
  {
    var r := [e] + c;
    forall x | x in Keys(c) ensures x in Keys(r) {
      var i :| 0 <= i < |c| && c[i].0 == x;
      assert r[i + 1].0 == x;
    }
    assert r[0].0 == e.0;
  }

  lemma {:induction false} AddToRepresents<K(!new)>(c: Counter<K>, m: multiset<K>, k: K, n: nat)
    requires Represents(c, m) && n > 0
    ensures Represents(AddTo(c, k, n), m + Times(n, multiset{k}))
  {
    forall x ensures Get(AddTo(c, k, n), x) == (m + Times(n, multiset{k}))[x] {
      TimesSingleton(n, k, x);
    }
  }

  lemma {:induction false} GetAt<K>(c: Counter<K>, i: nat)
    requires Distinct(c) && i < |c|
    ensures Get(c, c[i].0) == c[i].1
  {
    if i > 0 {
      assert c[0].0 != c[i].0;
      GetAt(c[1..], i - 1);
    }
  }

  lemma {:induction false} GetFound<K>(c: Counter<K>, k: K)
    requires Positive(c) && Get(c, k) > 0
    ensures exists i :: 0 <= i < |c| && c[i].0 == k && c[i].1 == Get(c, k)
  {
    if c[0].0 != k {
      GetFound(c[1..], k);
      var i :| 0 <= i < |c[1..]| && c[1..][i].0 == k && c[1..][i].1 == Get(c[1..], k);
      assert c[i + 1].0 == k;
    }
  }

  lemma {:induction false} GetSnoc<K>(c: Counter<K>, e: (K, nat), k: K)
    requires e.0 !in Keys(c)
    ensures Get(c + [e], k) == Get(c, k) + (if k == e.0 then e.1 else 0)
  {
    if c == [] {
    } else {
      assert (c + [e])[1..] == c[1..] + [e];
      assert Keys(c) == {c[0].0} + Keys(c[1..]);
      GetSnoc(c[1..], e, k);
    }
  }

  /** The union of `f(key)`, `count` times, over the entries of a counter, first to last:
      what a `for key in counter` loop accumulates. */
  function EntriesBind<K, T(!new)>(c: Counter<K>, f: K -> multiset<T>): multiset<T> {
    if c == [] then multiset{}
    else EntriesBind(c[..|c| - 1], f) + Times(c[|c| - 1].1, f(c[|c| - 1].0))
  }

  /** The loop's result depends only on the multiset the counter holds. */
  lemma {:induction false} EntriesBindIsBind<K(!new), T(!new)>(c: Counter<K>, m: multiset<K>, f: K -> multiset<T>)
    requires Represents(c, m)
    ensures EntriesBind(c, f) == Bind(m, f)
  {
    if c == [] {
      assert forall k :: m[k] == 0;
      assert m == multiset{};
    } else {
      var init, e := c[..|c| - 1], c[|c| - 1];
      assert c == init + [e];
      assert e.0 !in Keys(init);
      var rest := m[e.0 := 0];
      forall k ensures Get(init, k) == rest[k] {
        GetSnoc(init, e, k);
        if k == e.0 {
          if Get(init, k) > 0 {
            GetFound(init, k);
          }
        }
      }
      assert Represents(init, rest);
      GetSnoc(init, e, e.0);
      forall k ensures m[k] == (rest + Times(e.1, multiset{e.0}))[k] {
        TimesSingleton(e.1, e.0, k);
      }
      assert m == rest + Times(e.1, multiset{e.0});
      EntriesBindIsBind(init, rest, f);
      BindTimes(rest, e.1, e.0, f);
    }
  }

  lemma {:induction false} TimesUnion<T(!new)>(n: nat, a: multiset<T>, b: multiset<T>)
    ensures Times(n, a + b) == Times(n, a) + Times(n, b)
  {
    if n > 0 {
      TimesUnion(n - 1, a, b);
    }
  }

  lemma EntriesBindSnoc<K, T(!new)>(c: Counter<K>, i: nat, f: K -> multiset<T>)
    requires i < |c|
    ensures EntriesBind(c[..i + 1], f) == EntriesBind(c[..i], f) + Times(c[i].1, f(c[i].0))
  {
    assert c[..i + 1][..i] == c[..i];
  }

  /** Every key of a counter of `m` occurs in `m`, with its count. */
  lemma KeyCounted<K(!new)>(c: Counter<K>, m: multiset<K>, i: nat)
    requires Represents(c, m) && i < |c|
    ensures c[i].0 in m && m[c[i].0] == c[i].1
  {
    GetAt(c, i);
  }

  /** Every element of `m` is a key of a counter of `m`. */
  lemma CountedKey<K(!new)>(c: Counter<K>, m: multiset<K>, x: K)
    requires Represents(c, m) && x in m
    ensures exists i :: 0 <= i < |c| && c[i].0 == x && c[i].1 == m[x]
  {
    GetFound(c, x);
  }

  // ---------------------------------------------------------------------------------------
  // Part B: counting pairs instead of building the list

  const PartASteps := 10
  const PartBSteps := 40

  /** What one counted pair turns into in a step: the pair formed with the inserted character
      on each side of it. */
  function Expansion(rules: map<string, char>, pair: string): multiset<string> {
    if |pair| == 2 && pair in rules then multiset{[pair[0], rules[pair]], [rules[pair], pair[1]]}
    else multiset{}
  }

  function Splitter(rules: map<string, char>): string -> multiset<string> {
    pair => Expansion(rules, pair)
  }

  /** The first character of a pair: what `char_counter` counts. */
  function Head(pair: string): multiset<char> {
    if |pair| > 0 then multiset{pair[0]} else multiset{}
  }

  lemma {:induction false} PairsOfInserted(q: seq<char>, rules: map<string, char>)
    requires AllRuled(q, rules)
    ensures multiset(Pairs(Inserted(q, rules))) == SeqBind(Pairs(q), Splitter(rules))
  {
    if |q| >= 2 {
      var t := q[1..];
      AllRuledTail(q, rules);
      PairsOfInserted(t, rules);
      InsertedEnds(t, rules);
      var r := rules[[q[0], q[1]]];
      var tail := Inserted(t, rules);
      assert Inserted(q, rules) == [q[0]] + ([r] + tail);
      PairsCons(r, tail);
      PairsCons(q[0], [r] + tail);
      MultisetPairs([q[0], r], [r, q[1]], Pairs(tail));
      SeqBindCons([q[0], q[1]], Pairs(t), Splitter(rules));
      assert Splitter(rules)([q[0], q[1]]) == multiset{[q[0], r], [r, q[1]]};
    }
  }

  lemma MultisetPairs(a: string, b: string, s: seq<string>)
    ensures multiset([a] + ([b] + s)) == multiset{a, b} + multiset(s)
  {
  }

  lemma SeqBindCons<K, T>(x: K, s: seq<K>, f: K -> multiset<T>)
    ensures SeqBind([x] + s, f) == f(x) + SeqBind(s, f)
  {
    assert ([x] + s)[1..] == s;
  }

  lemma MultisetCons(q: seq<char>)
    requires |q| >= 1
    ensures multiset(q) == multiset{q[0]} + multiset(q[1..])
  {
    assert q == [q[0]] + q[1..];
  }

  lemma AllRuledTail(q: seq<char>, rules: map<string, char>)
    requires |q| >= 1 && AllRuled(q, rules)
    ensures AllRuled(q[1..], rules)
  {
    forall i | 0 <= i < |q[1..]| - 1 ensures [q[1..][i], q[1..][i + 1]] in rules {
      assert [q[1..][i], q[1..][i + 1]] == [q[i + 1], q[i + 2]];
    }
  }

  /** The first characters of the pairs, plus the last character, are the polymer's characters. */
  lemma {:induction false} PairHeads(q: seq<char>)
    requires |q| > 0
    ensures SeqBind(Pairs(q), Head) + multiset{q[|q| - 1]} == multiset(q)
  {
    if |q| >= 2 {
      var t := q[1..];
      PairHeads(t);
      SeqBindCons([q[0], q[1]], Pairs(t), Head);
      assert Head([q[0], q[1]]) == multiset{q[0]};
      MultisetCons(q);
      assert q[|q| - 1] == t[|t| - 1];
    } else {
      assert q == [q[0]];
    }
  }

  /** With a rule for every pair, a step doubles the number of pairs. */
  lemma {:induction false} PairCountDoubles(q: seq<char>, rules: map<string, char>)
    requires AllRuled(q, rules)
    ensures |Pairs(Inserted(q, rules))| == 2 * |Pairs(q)|
  {
    if q == [] {
      return;
    }
    InsertedLength(q, rules);
    AllRuledCount(q, rules);
    PairsAt(q);
    PairsAt(Inserted(q, rules));
  }

  lemma {:induction false} AllRuledCount(q: seq<char>, rules: map<string, char>)
    requires |q| > 0 && AllRuled(q, rules)
    ensures RulesBefore(q, rules, |q|) == |q| - 1
  {
    if |q| > 1 {
      AllRuledTail(q, rules);
      AllRuledCount(q[1..], rules);
    }
  }

  lemma {:induction false} IterateEnds(p: seq<char>, rules: map<string, char>, steps: nat)
    requires |p| > 0
    ensures |Iterate(p, rules, steps)| > 0
    ensures Iterate(p, rules, steps)[|Iterate(p, rules, steps)| - 1] == p[|p| - 1]
  {
    if steps > 0 {
      IterateEnds(p, rules, steps - 1);
      InsertedEnds(Iterate(p, rules, steps - 1), rules);
    }
  }

  /** The loop that fills `pair_counter` from the starting polymer. */
  method CountPairs(p: seq<char>) returns (c: Counter<string>)
    ensures Represents(c, multiset(Pairs(p)))
  {
    var pairs := Pairs(p);
    PairsAt(p);
    c := [];
    for i := 0 to |pairs|
      invariant Represents(c, multiset(pairs[..i]))
    {
      assert pairs[..i + 1] == pairs[..i] + [[p[i], p[i + 1]]];
      AddToRepresents(c, multiset(pairs[..i]), [p[i], p[i + 1]], 1);
      c := AddTo(c, [p[i], p[i + 1]], 1);
    }
    assert pairs[..|pairs|] == pairs;
  }

  /** One of the 40 steps: each counted pair adds its count to the two pairs its insertion
      creates. A pair without a rule is a `KeyError`, here `None`. */
  method Step(c: Counter<string>, rules: map<string, char>, ghost q: seq<char>)
    returns (r: Option<Counter<string>>)
    requires Represents(c, multiset(Pairs(q)))
    ensures r.None? <==> !AllRuled(q, rules)
    ensures r.Some? ==> Represents(r.value, multiset(Pairs(Inserted(q, rules))))
    ensures r.Some? ==> Total(r.value) == 2 * Total(c)
  {
    var missing, tmp := SpreadPairs(c, rules, q);
    if missing {
      return None;
    }
    StepDone(c, q, rules);
    PairCountDoubles(q, rules);
    RepresentsTotal(c, Pairs(q));
    RepresentsTotal(tmp, Pairs(Inserted(q, rules)));
    r := Some(tmp);
  }

  /** The loop of one step: it stops at the first pair without a rule, and otherwise has
      added each pair's count to the two pairs it becomes. */
  method SpreadPairs(c: Counter<string>, rules: map<string, char>, ghost q: seq<char>)
    returns (missing: bool, tmp: Counter<string>)
    requires Represents(c, multiset(Pairs(q)))
    ensures missing ==> !AllRuled(q, rules)
    ensures !missing ==> forall j :: 0 <= j < |c| ==> c[j].0 in rules
    ensures !missing ==> Represents(tmp, EntriesBind(c[..|c|], Splitter(rules)))
  {
    tmp := [];
    for i := 0 to |c|
      invariant forall j :: 0 <= j < i ==> c[j].0 in rules
      invariant Represents(tmp, EntriesBind(c[..i], Splitter(rules)))
    {
      var pair, count := c[i].0, c[i].1;
      KeyIsPair(c, q, i);
      if pair !in rules {
        return true, tmp;
      }
      var ins := rules[pair];
      StepEntry(tmp, EntriesBind(c[..i], Splitter(rules)), pair, count, rules);
      tmp := AddTo(tmp, [pair[0], ins], count);
      tmp := AddTo(tmp, [ins, pair[1]], count);
      EntriesBindSnoc(c, i, Splitter(rules));
    }
    missing := false;
  }

  /** A key of the pair counter is a pair of the polymer; a missing rule for it means the
      polymer has a pair without a rule. */
  lemma KeyIsPair(c: Counter<string>, q: seq<char>, i: nat)
    requires Represents(c, multiset(Pairs(q))) && i < |c|
    ensures |c[i].0| == 2 && c[i].1 > 0
    ensures exists j :: 0 <= j < |q| - 1 && c[i].0 == [q[j], q[j + 1]]
  {
    KeyCounted(c, multiset(Pairs(q)), i);
    PairsAt(q);
    var j :| 0 <= j < |Pairs(q)| && Pairs(q)[j] == c[i].0;
    assert c[i].0 == [q[j], q[j + 1]];
  }

  /** The two `+=` of one loop iteration add `count` copies of the pair's expansion. */
  lemma StepEntry(tmp: Counter<string>, before: multiset<string>, pair: string, count: nat,
                  rules: map<string, char>)
    requires Represents(tmp, before) && count > 0 && |pair| == 2 && pair in rules
    ensures Represents(AddTo(AddTo(tmp, [pair[0], rules[pair]], count), [rules[pair], pair[1]], count),
                       before + Times(count, Splitter(rules)(pair)))
  {
    var ins := rules[pair];
    var a, b := [pair[0], ins], [ins, pair[1]];
    AddToRepresents(tmp, before, a, count);
    AddToRepresents(AddTo(tmp, a, count), before + Times(count, multiset{a}), b, count);
    TimesUnion(count, multiset{a}, multiset{b});
    assert Splitter(rules)(pair) == multiset{a} + multiset{b};
  }

  /** A loop that ran to the end saw a rule for every key, hence for every pair of the
      polymer, and accumulated the pairs of the next polymer. */
  lemma StepDone(c: Counter<string>, q: seq<char>, rules: map<string, char>)
    requires Represents(c, multiset(Pairs(q)))
    requires forall j :: 0 <= j < |c| ==> c[j].0 in rules
    ensures AllRuled(q, rules)
    ensures EntriesBind(c[..|c|], Splitter(rules)) == multiset(Pairs(Inserted(q, rules)))
  {
    PairsAt(q);
    forall i | 0 <= i < |q| - 1 ensures [q[i], q[i + 1]] in rules {
      assert Pairs(q)[i] == [q[i], q[i + 1]];
      CountedKey(c, multiset(Pairs(q)), [q[i], q[i + 1]]);
    }
    assert c[..|c|] == c;
    EntriesBindIsBind(c, multiset(Pairs(q)), Splitter(rules));
    BindSeq(Pairs(q), Splitter(rules));
    PairsOfInserted(q, rules);
  }

  // ---------------------------------------------------------------------------------------
  // Character counts, and the most minus the least frequent character

  /** The sum of the counts. */
  function Total<K>(c: Counter<K>): nat {
    if c == [] then 0 else Total(c[..|c| - 1]) + c[|c| - 1].1
  }

  function Single<K>(x: K): multiset<K> {
    multiset{x}
  }

  lemma {:induction false} TimesSize<T>(n: nat, x: T)
    ensures |Times(n, multiset{x})| == n
  {
    if n > 0 {
      TimesSize(n - 1, x);
    }
  }

  lemma {:induction false} EntriesSingleSize<K(!new)>(c: Counter<K>)
    ensures |EntriesBind(c, Single)| == Total(c)
  {
    if c != [] {
      var init, e := c[..|c| - 1], c[|c| - 1];
      EntriesSingleSize(init);
      TimesSize(e.1, e.0);
      assert Single(e.0) == multiset{e.0};
      assert EntriesBind(c, Single) == EntriesBind(init, Single) + Times(e.1, multiset{e.0});
    }
  }

  lemma {:induction false} BindSingle<K(!new)>(m: multiset<K>)
    ensures Bind(m, Single) == m
    decreases |m|
  {
    if m != multiset{} {
      var x := Pick(m);
      BindSingle(m - multiset{x});
    }
  }

  /** A counter of the elements of `s` counts `|s|` of them in all. */
  lemma RepresentsTotal<K(!new)>(c: Counter<K>, s: seq<K>)
    requires Represents(c, multiset(s))
    ensures Total(c) == |s|
  {
    EntriesSingleSize(c);
    EntriesBindIsBind(c, multiset(s), Single);
    BindSingle(multiset(s));
  }

  /** The `char_counter` loop over the final pair counts. */
  method CountHeads(c: Counter<string>, ghost q: seq<char>) returns (chars: Counter<char>)
    requires |q| > 0 && Represents(c, multiset(Pairs(q)))
    ensures Represents(chars, multiset(q[..|q| - 1]))
  {
    chars := [];
    for i := 0 to |c|
      invariant Represents(chars, EntriesBind(c[..i], Head))
    {
      var pair, count := c[i].0, c[i].1;
      KeyIsPair(c, q, i);
      HeadEntry(chars, EntriesBind(c[..i], Head), pair, count);
      chars := AddTo(chars, pair[0], count);
      EntriesBindSnoc(c, i, Head);
    }
    HeadsDone(c, q);
  }

  lemma HeadEntry(chars: Counter<char>, before: multiset<char>, pair: string, count: nat)
    requires Represents(chars, before) && count > 0 && |pair| == 2
    ensures Represents(AddTo(chars, pair[0], count), before + Times(count, Head(pair)))
  {
    AddToRepresents(chars, before, pair[0], count);
  }

  lemma HeadsDone(c: Counter<string>, q: seq<char>)
    requires |q| > 0 && Represents(c, multiset(Pairs(q)))
    ensures EntriesBind(c[..|c|], Head) == multiset(q[..|q| - 1])
  {
    assert c[..|c|] == c;
    assert EntriesBind(c, Head) == SeqBind(Pairs(q), Head) by {
      EntriesBindIsBind(c, multiset(Pairs(q)), Head);
      BindSeq(Pairs(q), Head);
    }
    PairHeads(q);
    MultisetSnoc(q);
    UnionCancel(SeqBind(Pairs(q), Head), multiset(q[..|q| - 1]), q[|q| - 1]);
  }

  lemma UnionCancel<T>(a: multiset<T>, b: multiset<T>, x: T)
    requires a + multiset{x} == b + multiset{x}
    ensures a == b
  {
    assert forall y :: a[y] == (a + multiset{x})[y] - multiset{x}[y];
  }

  lemma MultisetSnoc(q: seq<char>)
    requires |q| > 0
    ensures multiset(q) == multiset(q[..|q| - 1]) + multiset{q[|q| - 1]}
  {
    assert q == q[..|q| - 1] + [q[|q| - 1]];
  }

  /** `Counter(polymer)`. */
  method CountChars(s: seq<char>) returns (c: Counter<char>)
    ensures Represents(c, multiset(s))
  {
    c := [];
    for i := 0 to |s|
      invariant Represents(c, multiset(s[..i]))
    {
      assert s[..i + 1] == s[..i] + [s[i]];
      AddToRepresents(c, multiset(s[..i]), s[i], 1);
      assert Times(1, multiset{s[i]}) == multiset{s[i]};
      c := AddTo(c, s[i], 1);
    }
    assert s[..|s|] == s;
  }

  /** The count of the first entry of `most_common()`: the largest. */
  function MaxCount<K>(c: Counter<K>): (r: nat)
    ensures forall i :: 0 <= i < |c| ==> c[i].1 <= r
    ensures c != [] ==> exists i :: 0 <= i < |c| && c[i].1 == r
  {
    if c == [] then 0
    else
      var rest := MaxCount(c[1..]);
      assert forall i :: 1 <= i < |c| ==> c[i] == c[1..][i - 1];
      if c[0].1 >= rest then c[0].1 else rest
  }

  /** The count of the last entry of `most_common()`: the smallest. */
  function MinCount<K>(c: Counter<K>): (r: nat)
    requires c != []
    ensures forall i :: 0 <= i < |c| ==> r <= c[i].1
    ensures exists i :: 0 <= i < |c| && c[i].1 == r
  {
    if |c| == 1 then c[0].1
    else
      var rest := MinCount(c[1..]);
      assert forall i :: 1 <= i < |c| ==> c[i] == c[1..][i - 1];
      if c[0].1 <= rest then c[0].1 else rest
  }

  /** How often the most frequent of the characters `q` occurs in `s`. */
  function MostOften(s: seq<char>, q: seq<char>): (r: nat)
    ensures forall i :: 0 <= i < |q| ==> multiset(s)[q[i]] <= r
    ensures q != [] ==> exists i :: 0 <= i < |q| && multiset(s)[q[i]] == r
  {
    if q == [] then 0
    else
      var rest := MostOften(s, q[1..]);
      assert forall i :: 1 <= i < |q| ==> q[i] == q[1..][i - 1];
      if multiset(s)[q[0]] >= rest then multiset(s)[q[0]] else rest
  }

  /** How often the least frequent of the characters `q` occurs in `s`. */
  function LeastOften(s: seq<char>, q: seq<char>): (r: nat)
    requires q != []
    ensures forall i :: 0 <= i < |q| ==> r <= multiset(s)[q[i]]
    ensures exists i :: 0 <= i < |q| && multiset(s)[q[i]] == r
  {
    if |q| == 1 then multiset(s)[q[0]]
    else
      var rest := LeastOften(s, q[1..]);
      assert forall i :: 1 <= i < |q| ==> q[i] == q[1..][i - 1];
      if multiset(s)[q[0]] <= rest then multiset(s)[q[0]] else rest
  }

  /** The puzzle's answer for a polymer: the most frequent character's count minus the least
      frequent one's. */
  function PolymerSpread(s: seq<char>): int
    requires |s| > 0
  {
    MostOften(s, s) - LeastOften(s, s)
  }

  /** A counter of the characters of `s` has the same largest and smallest counts. */
  lemma CounterSpread(c: Counter<char>, s: seq<char>)
    requires |s| > 0 && Represents(c, multiset(s))
    ensures c != []
    ensures MaxCount(c) - MinCount(c) == PolymerSpread(s)
  {
    var m := multiset(s);
    CountedKey(c, m, s[0]);
    var i :| 0 <= i < |c| && c[i].1 == MaxCount(c);
    KeyCounted(c, m, i);
    var j :| 0 <= j < |s| && m[s[j]] == MostOften(s, s);
    CountedKey(c, m, s[j]);
    var i' :| 0 <= i' < |c| && c[i'].0 == s[j] && c[i'].1 == m[s[j]];
    var k :| 0 <= k < |c| && c[k].1 == MinCount(c);
    KeyCounted(c, m, k);
    var l :| 0 <= l < |s| && m[s[l]] == LeastOften(s, s);
    CountedKey(c, m, s[l]);
    var k' :| 0 <= k' < |c| && c[k'].0 == s[l] && c[k'].1 == m[s[l]];
    assert c[i].0 in s && c[k].0 in s;
  }

  /** `part_a`: ten insertion steps on the list, then the spread of `Counter(polymer)`. */
  method PartA(f: Formula) returns (result: int)
    requires |f.polymer| > 0
    modifies f
    ensures f.rules == old(f.rules) && f.polymer == Iterate(old(f.polymer), f.rules, PartASteps)
    ensures |f.polymer| > 0 && result == PolymerSpread(f.polymer)
  {
    ghost var p := f.polymer;
    for k := 0 to PartASteps
      invariant f.rules == old(f.rules) && f.polymer == Iterate(p, f.rules, k)
      invariant |f.polymer| > 0
    {
      InsertedEnds(f.polymer, f.rules);
      f.DoInsertion();
    }
    var counts := CountChars(f.polymer);
    CounterSpread(counts, f.polymer);
    result := MaxCount(counts) - MinCount(counts);
  }

  /** `part_b`: forty steps on the pair counts, then the character counts and their spread.
      The results are those the list would give after the same number of steps; a pair
      without a rule is a `KeyError`, here `None`. */
  method PartB(f: Formula) returns (result: Option<int>, ghost chars: Counter<char>)
    requires |f.polymer| > 0
    ensures result.None? <==>
      exists k :: 0 <= k < PartBSteps && !AllRuled(Iterate(f.polymer, f.rules, k), f.rules)
    ensures result.Some? ==> Represents(chars, multiset(Iterate(f.polymer, f.rules, PartBSteps)))
    ensures result.Some? ==> Total(chars) == |Iterate(f.polymer, f.rules, PartBSteps)|
    ensures |Iterate(f.polymer, f.rules, PartBSteps)| > 0
    ensures result.Some? ==> result.value == PolymerSpread(Iterate(f.polymer, f.rules, PartBSteps))
  {
    var polymer, rules := f.polymer, f.rules;
    IterateEnds(polymer, rules, PartBSteps);
    var stepped := PairSteps(polymer, rules, PartBSteps);
    if stepped.None? {
      ghost var k :| 0 <= k < PartBSteps && !RuledAt(polymer, rules, k);
      assert !AllRuled(Iterate(f.polymer, f.rules, k), f.rules);
      return None, [];
    }
    forall k | 0 <= k < PartBSteps
      ensures AllRuled(Iterate(f.polymer, f.rules, k), f.rules)
    {
      assert RuledAt(polymer, rules, k);
    }
    var pairs := stepped.value;
    ghost var q := Iterate(polymer, rules, PartBSteps);
    IterateEnds(polymer, rules, PartBSteps);
    var counts := CountHeads(pairs, q);
    LastCharacter(counts, q);
    counts := AddTo(counts, polymer[|polymer| - 1], 1);
    CounterSpread(counts, q);
    RepresentsTotal(counts, q);
    result, chars := Some(MaxCount(counts) - MinCount(counts)), counts;
  }

  /** The polymer after `k` steps has a rule for each of its pairs. */
  ghost predicate RuledAt(polymer: seq<char>, rules: map<string, char>, k: nat) {
    AllRuled(Iterate(polymer, rules, k), rules)
  }

  /** The loop of `part_b`: `n` steps on the pair counts, which raise at the first step
      whose polymer has a pair without a rule. */
  method PairSteps(polymer: seq<char>, rules: map<string, char>, n: nat)
    returns (r: Option<Counter<string>>)
    ensures r.None? <==> exists k :: 0 <= k < n && !RuledAt(polymer, rules, k)
    ensures r.Some? ==> Represents(r.value, multiset(Pairs(Iterate(polymer, rules, n))))
  {
    var pairs := CountPairs(polymer);
    ghost var q := polymer;
    for k := 0 to n
      invariant q == Iterate(polymer, rules, k)
      invariant Represents(pairs, multiset(Pairs(q)))
      invariant forall k' :: 0 <= k' < k ==> RuledAt(polymer, rules, k')
    {
      var next := Step(pairs, rules, q);
      if next.None? {
        assert 0 <= k < n && !RuledAt(polymer, rules, k);
        return None;
      }
      assert RuledAt(polymer, rules, k);
      pairs, q := next.value, Inserted(q, rules);
    }
    r := Some(pairs);
  }

  /** Adding the last character completes the count of the polymer's characters. */
  lemma LastCharacter(c: Counter<char>, q: seq<char>)
    requires |q| > 0 && Represents(c, multiset(q[..|q| - 1]))
    ensures Represents(AddTo(c, q[|q| - 1], 1), multiset(q))
  {
    AddToRepresents(c, multiset(q[..|q| - 1]), q[|q| - 1], 1);
    assert Times(1, multiset{q[|q| - 1]}) == multiset{q[|q| - 1]};
    assert q == q[..|q| - 1] + [q[|q| - 1]];
  }
}
