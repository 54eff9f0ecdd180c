/** Day 12: paths through a cave system. Caves are nodes named by strings; big caves (upper
    case) may be passed through any number of times, small ones a limited number of times. */
module Day12 {
  import opened Common

  /** The graph `parse_input` builds: each cave's name mapped to its neighbours' names, in the
      order the edges were appended. A name stands for its node object, since exactly one node
      is created per name. */
  type Graph = map<string, seq<string>>

  /** Python's `str.isupper` on ASCII text: some letter, and no lower-case letter. */
  predicate IsUpper(name: string) {
    (exists i :: 0 <= i < |name| && 'A' <= name[i] <= 'Z') &&
    forall i :: 0 <= i < |name| ==> !('a' <= name[i] <= 'z')
  }

  /** `Node.big`: neither "start" nor "end", and upper case. */
  predicate Big(name: string) {
    name != "start" && name != "end" && IsUpper(name)
  }

  /** "start" and "end" are never big; other names are big exactly when they hold some
      upper-case letter and no lower-case one. */
  lemma BigNames()
    ensures !Big("start") && !Big("end")
    ensures Big("LN") && Big("A-1") && !Big("dc") && !Big("kW") && !Big("12")
  {
    assert 'A' <= "LN"[0] <= 'Z' && 'A' <= "A-1"[0] <= 'Z';
    assert 'a' <= "kW"[0] <= 'z';
  }

  // ---------------------------------------------------------------------------------------
  // Building the graph

  /** The edge loop of `parse_input` after one more line `a-b`: each name gets a node once,
      then `b` is appended to `a`'s edges and `a` to `b`'s. */
  function AddEdge(g: Graph, a: string, b: string): (r: Graph)
    ensures r.Keys == g.Keys + {a, b}
  {
    var g1 := if a in g then g else g[a := []];
    var g2 := if b in g1 then g1 else g1[b := []];
    var g3 := g2[a := g2[a] + [b]];
    g3[b := g3[b] + [a]]
  }

  /** The graph of the first lines, as the loop has built it. */
  function Build(lines: seq<(string, string)>): Graph {
    if lines == [] then map[]
    else
      var last := lines[|lines| - 1];
      AddEdge(Build(lines[..|lines| - 1]), last.0, last.1)
  }

  /** The edge-building loop of `parse_input`, over lines already split at `-`. */
  method BuildGraph(lines: seq<(string, string)>) returns (g: Graph)
    ensures g == Build(lines)
  {
    g := map[];
    for i := 0 to |lines|
      invariant g == Build(lines[..i])
    {
      var (a, b) := lines[i];
      if a !in g {
        g := g[a := []];
      }
      if b !in g {
        g := g[b := []];
      }
      g := g[a := g[a] + [b]];
      g := g[b := g[b] + [a]];
      assert lines[..i + 1][..i] == lines[..i];
    }
    assert lines[..|lines|] == lines;
  }

  /** The names on the lines. */
  function Names(lines: seq<(string, string)>): set<string> {
    if lines == [] then {}
    else
      var last := lines[|lines| - 1];
      Names(lines[..|lines| - 1]) + {last.0, last.1}
  }

  /** The neighbours of `a` the lines give, in order: for each line `x-y`, `y` when `x` is
      `a`, then `x` when `y` is `a`. */
  function Neighbours(lines: seq<(string, string)>, a: string): seq<string> {
    if lines == [] then []
    else
      Neighbours(lines[..|lines| - 1], a) + Ends(lines[|lines| - 1], a)
  }

  /** The neighbours of `a` one line `x-y` gives. */
  function Ends(line: (string, string), a: string): seq<string> {
    (if line.0 == a then [line.1] else []) + (if line.1 == a then [line.0] else [])
  }

  /** The graph has a node for every name on the lines and no other, and each node's edges
      are its neighbours in line order. */
  lemma {:induction false} BuildIsNeighbours(lines: seq<(string, string)>)
    ensures Build(lines).Keys == Names(lines)
    ensures forall a :: a in Build(lines) ==> Build(lines)[a] == Neighbours(lines, a)
  {
    if lines != [] {
      var init, last := lines[..|lines| - 1], lines[|lines| - 1];
      BuildIsNeighbours(init);
      forall a | a in Build(lines)
        ensures Build(lines)[a] == Neighbours(lines, a)
      {
        AddEdgeAt(Build(init), last.0, last.1, a);
        if a !in Build(init) {
          NeighboursOutside(init, a);
        }
      }
    }
  }

  /** How one line changes a node's edges. */
  lemma AddEdgeAt(g: Graph, x: string, y: string, a: string)
    requires a in AddEdge(g, x, y)
    ensures AddEdge(g, x, y)[a] == (if a in g then g[a] else []) + Ends((x, y), a)
  {
  }

  /** A name on no line has no neighbours. */
  lemma {:induction false} NeighboursOutside(lines: seq<(string, string)>, a: string)
    requires a !in Names(lines)
    ensures Neighbours(lines, a) == []
  {
    if lines != [] {
      NeighboursOutside(lines[..|lines| - 1], a);
    }
  }

  /** Every edge leads to a node of the graph. */
  predicate Closed(g: Graph) {
    forall a, i :: a in g && 0 <= i < |g[a]| ==> g[a][i] in g
  }

  /** Edges are undirected: `b` is a neighbour of `a` as often as `a` is one of `b`. */
  lemma {:induction false} BuildSymmetric(lines: seq<(string, string)>, a: string, b: string)
    requires a in Build(lines) && b in Build(lines)
    ensures multiset(Build(lines)[a])[b] == multiset(Build(lines)[b])[a]
  {
    BuildIsNeighbours(lines);
    NeighboursSymmetric(lines, a, b);
  }

  lemma {:induction false} NeighboursSymmetric(lines: seq<(string, string)>, a: string, b: string)
    ensures multiset(Neighbours(lines, a))[b] == multiset(Neighbours(lines, b))[a]
  {
    if lines != [] {
      var init, last := lines[..|lines| - 1], lines[|lines| - 1];
      NeighboursSymmetric(init, a, b);
      assert multiset(Neighbours(lines, a)) == multiset(Neighbours(init, a)) + multiset(Ends(last, a));
      assert multiset(Neighbours(lines, b)) == multiset(Neighbours(init, b)) + multiset(Ends(last, b));
      EndsSymmetric(last, a, b);
    }
  }

  lemma EndsSymmetric(line: (string, string), a: string, b: string)
    ensures multiset(Ends(line, a))[b] == multiset(Ends(line, b))[a]
  {
    if line.0 == a && line.1 == a {
      assert Ends(line, a) == [line.1, line.0];
    }
    if line.0 == b && line.1 == b {
      assert Ends(line, b) == [line.1, line.0];
    }
  }

  /** The graph built from any lines is closed. */
  lemma {:induction false} BuildClosed(lines: seq<(string, string)>)
    ensures Closed(Build(lines))
  {
    if lines != [] {
      BuildClosed(lines[..|lines| - 1]);
    }
  }

  // ---------------------------------------------------------------------------------------
  // Searching

  /** No big cave is joined to another: the condition under which the searches end. */
  predicate NoBigPair(g: Graph) {
    forall a, i :: a in g && 0 <= i < |g[a]| ==> !(Big(a) && Big(g[a][i]))
  }

  /** The graphs searched for paths to `small`'s rule: closed, without two adjacent big
      caves, and with `small` a small node of the graph. */
  predicate Searchable(g: Graph, small: string) {
    Closed(g) && NoBigPair(g) && small in g && !Big(small)
  }

  /** Whether `dfs_b` turns back at `curr` when `small` may be visited twice: that cave once
      it is on the path twice, any other small cave once it is on the path. */
  predicate Blocked(curr: string, visited: multiset<string>, small: string) {
    if curr == small then visited[curr] > 1 else !Big(curr) && visited[curr] > 0
  }

  function SmallKeys(g: Graph): set<string> {
    set n | n in g && !Big(n)
  }

  /** How many more small-cave visits the rule allows a path with these visits. */
  function Slack(g: Graph, small: string, visited: multiset<string>): nat {
    |multiset(SmallKeys(g)) + multiset{small} - visited|
  }

  /** The termination measure of a search at `curr`, and of the loop over the edges of a
      node whose bigness is `parentBig`. */
  function Rank(g: Graph, small: string, visited: multiset<string>, curr: string): nat {
    2 * Slack(g, small, visited) + (if Big(curr) then 2 else 1)
  }

  function RankAll(g: Graph, small: string, visited: multiset<string>, parentBig: bool): nat {
    2 * Slack(g, small, visited) + (if parentBig then 1 else 2)
  }

  /** Passing a cave the rule lets through uses up one visit when the cave is small. */
  lemma SlackStep(g: Graph, small: string, visited: multiset<string>, curr: string)
    requires Searchable(g, small) && curr in g && !Blocked(curr, visited, small)
    ensures Big(curr) ==>
      Slack(g, small, visited + multiset{curr}) == Slack(g, small, visited)
    ensures !Big(curr) ==>
      Slack(g, small, visited + multiset{curr}) + 1 == Slack(g, small, visited)
  {
    var allow := multiset(SmallKeys(g)) + multiset{small};
    if Big(curr) {
      assert curr !in SmallKeys(g) && allow[curr] == 0;
      assert allow - (visited + multiset{curr}) == allow - visited;
    } else {
      assert curr in SmallKeys(g);
      assert visited[curr] < allow[curr];
      assert allow - visited == (allow - (visited + multiset{curr})) + multiset{curr};
    }
  }

  /** Every edge of `edges` is a node, and a small one when the edges leave a big node. */
  predicate Onward(g: Graph, parentBig: bool, edges: seq<string>) {
    forall i :: 0 <= i < |edges| ==> edges[i] in g && (parentBig ==> !Big(edges[i]))
  }

  /** The paths `dfs_b` records from `curr` with `visited` already on the path. */
  function Completions(g: Graph, curr: string, goal: string, visited: seq<string>, small: string)
    : set<seq<string>>
    requires Searchable(g, small) && curr in g
    decreases Rank(g, small, multiset(visited), curr), 0
  {
    if curr == goal then {visited + [curr]}
    else if Blocked(curr, multiset(visited), small) then {}
    else
      SlackStep(g, small, multiset(visited), curr);
      assert multiset(visited + [curr]) == multiset(visited) + multiset{curr};
      CompletionsAll(g, goal, visited + [curr], small, Big(curr), g[curr])
  }

  /** The paths recorded through the first `|edges|` edges. */
  function CompletionsAll(g: Graph, goal: string, visited: seq<string>, small: string,
                          parentBig: bool, edges: seq<string>): set<seq<string>>
    requires Searchable(g, small) && Onward(g, parentBig, edges)
    decreases RankAll(g, small, multiset(visited), parentBig), 1, |edges|
  {
    if edges == [] then {}
    else
      CompletionsAll(g, goal, visited, small, parentBig, edges[..|edges| - 1]) +
      Completions(g, edges[|edges| - 1], goal, visited, small)
  }

  /** The number of paths `dfs` counts from `curr` with the caves of `visited` on the path,
      each small cave at most once. */
  function Count(g: Graph, curr: string, goal: string, visited: multiset<string>): nat
    requires Searchable(g, goal) && curr in g
    decreases Rank(g, goal, visited, curr), 0
  {
    if curr == goal then 1
    else if !Big(curr) && curr in visited then 0
    else
      SlackStep(g, goal, visited, curr);
      CountAll(g, goal, visited + multiset{curr}, Big(curr), g[curr])
  }

  function CountAll(g: Graph, goal: string, visited: multiset<string>, parentBig: bool,
                    edges: seq<string>): nat
    requires Searchable(g, goal) && Onward(g, parentBig, edges)
    decreases RankAll(g, goal, visited, parentBig), 1, |edges|
  {
    if edges == [] then 0
    else
      CountAll(g, goal, visited, parentBig, edges[..|edges| - 1]) +
      Count(g, edges[|edges| - 1], goal, visited)
  }

  /** Python's `list.remove`: drops the first occurrence of `x`. */
  function RemoveFirst(s: seq<string>, x: string): (r: seq<string>)
    requires x in s
    ensures multiset(r) == multiset(s) - multiset{x}
    ensures |r| == |s| - 1
  {
    assert s == [s[0]] + s[1..];
    if s[0] == x then s[1..]
    else [s[0]] + RemoveFirst(s[1..], x)
  }

  /** `dfs`: counts the paths from `curr` to `goal` that pass small caves at most once. The
      list `visited` is handed in and back, as the source mutates it; it comes back holding
      the same caves, though `remove` may have reordered them, and that order does not change
      the count. */
  method Dfs(g: Graph, curr: string, goal: string, visited: seq<string>)
    returns (total: nat, after: seq<string>)
    requires Searchable(g, goal) && curr in g
    ensures multiset(after) == multiset(visited)
    ensures total == Count(g, curr, goal, multiset(visited))
    decreases Rank(g, goal, multiset(visited), curr), 0
  {
    if curr == goal {
      return 1, visited;
    }
    if !Big(curr) && curr in visited {
      return 0, visited;
    }
    SlackStep(g, goal, multiset(visited), curr);
    var path;
    total, path := DfsEdges(g, goal, visited + [curr], Big(curr), g[curr]);
    assert multiset(path)[curr] > 0;
    after := RemoveFirst(path, curr);
  }

  /** The loop of `dfs` over the edges of the node just appended to `path`. */
  method DfsEdges(g: Graph, goal: string, path: seq<string>, parentBig: bool, edges: seq<string>)
    returns (total: nat, after: seq<string>)
    requires Searchable(g, goal) && Onward(g, parentBig, edges)
    ensures multiset(after) == multiset(path)
    ensures total == CountAll(g, goal, multiset(path), parentBig, edges)
    decreases RankAll(g, goal, multiset(path), parentBig), 1
  {
    total := 0;
    after := path;
    for i := 0 to |edges|
      invariant multiset(after) == multiset(path)
      invariant total == CountAll(g, goal, multiset(path), parentBig, edges[..i])
    {
      var t;
      t, after := Dfs(g, edges[i], goal, after);
      assert edges[..i + 1][..i] == edges[..i];
      total := total + t;
    }
    assert edges[..|edges|] == edges;
  }

  /** `dfs_b`: adds to `paths` every path from `curr` to `goal` on which `small` appears at
      most twice and every other small cave at most once, each path with `visited` in front.
      `visited` comes back exactly as it was handed in. */
  method DfsB(g: Graph, curr: string, goal: string, visited: seq<string>, small: string,
              paths: set<seq<string>>)
    returns (after: seq<string>, paths': set<seq<string>>)
    requires Searchable(g, small) && curr in g
    ensures after == visited
    ensures paths' == paths + Completions(g, curr, goal, visited, small)
    decreases Rank(g, small, multiset(visited), curr), 0
  {
    if curr == goal {
      return visited, paths + {visited + [curr]};
    }
    if curr == small {
      if multiset(visited)[curr] > 1 {
        return visited, paths;
      }
    } else if !Big(curr) && curr in visited {
      return visited, paths;
    }
    SlackStep(g, small, multiset(visited), curr);
    assert multiset(visited + [curr]) == multiset(visited) + multiset{curr};
    var path;
    path, paths' := DfsBEdges(g, goal, visited + [curr], small, Big(curr), g[curr], paths);
    after := path[..|path| - 1];
  }

  /** The loop of `dfs_b` over the edges of the node just appended to `path`. */
  method DfsBEdges(g: Graph, goal: string, path: seq<string>, small: string, parentBig: bool,
                   edges: seq<string>, paths: set<seq<string>>)
    returns (after: seq<string>, paths': set<seq<string>>)
    requires Searchable(g, small) && Onward(g, parentBig, edges)
    ensures after == path
    ensures paths' == paths + CompletionsAll(g, goal, path, small, parentBig, edges)
    decreases RankAll(g, small, multiset(path), parentBig), 1
  {
    after := path;
    paths' := paths;
    for i := 0 to |edges|
      invariant after == path
      invariant paths' == paths + CompletionsAll(g, goal, path, small, parentBig, edges[..i])
    {
      after, paths' := DfsB(g, edges[i], goal, after, small, paths');
      assert edges[..i + 1][..i] == edges[..i];
    }
    assert edges[..|edges|] == edges;
  }

  /** `part_a`: the number of paths from "start" to "end", `None` where `graph["start"]` or
      `graph["end"]` raises `KeyError`. */
  method PartA(g: Graph) returns (r: Option<nat>)
    requires Closed(g) && ("start" in g && "end" in g ==> NoBigPair(g))
    ensures r.None? <==> "start" !in g || "end" !in g
    ensures r.Some? ==> r.value == Count(g, "start", "end", multiset{})
    ensures r.Some? && DistinctEdges(g) ==> r.value == |Completions(g, "start", "end", [], "end")|
  {
    if "start" !in g || "end" !in g {
      return None;
    }
    var n, left := Dfs(g, "start", "end", []);
    if DistinctEdges(g) {
      CountIsRoutes(g, "start", "end", []);
    }
    r := Some(n);
  }

  /** The small caves `part_b` lets be visited twice in turn. */
  function SmallOnes(g: Graph): set<string> {
    set n | n in g && !Big(n) && n != "start" && n != "end"
  }

  /** `part_b`: the distinct paths from "start" to "end" over all choices of the small cave
      that may be visited twice, and their number. `graph["start"]` and `graph["end"]` are
      read only inside the loop over the small caves, so a missing one raises `KeyError`
      (`None` here) only when there is some small cave. */
  method PartB(g: Graph) returns (r: Option<nat>, paths: set<seq<string>>)
    requires Closed(g) && (SmallOnes(g) != {} && "start" in g && "end" in g ==> NoBigPair(g))
    ensures r.None? <==> SmallOnes(g) != {} && ("start" !in g || "end" !in g)
    ensures r.Some? ==> forall p :: p in paths <==>
      p != [] && p[0] == "start" && exists s :: s in SmallOnes(g) && Route(g, "end", s, [], p)
    ensures r.Some? ==> r.value == |paths|
  {
    var todo := SmallOnes(g);
    paths := {};
    if todo != {} && ("start" !in g || "end" !in g) {
      return None, paths;
    }
    while todo != {}
      invariant todo <= SmallOnes(g)
      invariant forall p :: p in paths <==>
        exists s :: s in SmallOnes(g) - todo && p in Completions(g, "start", "end", [], s)
      decreases |todo|
    {
      var s :| s in todo;
      ghost var before := paths;
      var left;
      left, paths := DfsB(g, "start", "end", [], s, paths);
      todo := todo - {s};
      forall p | p in paths
        ensures exists t :: t in SmallOnes(g) - todo && p in Completions(g, "start", "end", [], t)
      {
        if p !in before {
          assert p in Completions(g, "start", "end", [], s);
        }
      }
    }
    forall p
      ensures p in paths <==>
        p != [] && p[0] == "start" && exists s :: s in SmallOnes(g) && Route(g, "end", s, [], p)
    {
      assert p[..0] == [] && p[0..] == p;
      forall s | s in SmallOnes(g)
        ensures p in Completions(g, "start", "end", [], s) <==>
          p != [] && p[0] == "start" && Route(g, "end", s, [], p)
      {
        CompletionsAreRoutes(g, "start", "end", [], s, p);
      }
    }
    r := Some(|paths|);
  }

  // ---------------------------------------------------------------------------------------
  // What the searches find

  /** `q` is a route onward from a path that already holds `visited`: each step follows an
      edge, it ends at `goal` and meets `goal` nowhere before, and the rule lets every cave
      before `goal` onto the path at the point where it is appended. */
  ghost predicate Route(g: Graph, goal: string, small: string, visited: seq<string>,
                        q: seq<string>) {
    |q| > 0 && q[|q| - 1] == goal &&
    (forall i :: 0 <= i < |q| - 1 ==> q[i] in g && q[i + 1] in g[q[i]]) &&
    forall i :: 0 <= i < |q| - 1 ==>
      q[i] != goal && !Blocked(q[i], multiset(visited + q[..i]), small)
  }

  /** A route of two or more caves is its first step followed by a route from there. */
  lemma RouteCons(g: Graph, goal: string, small: string, visited: seq<string>,
                  curr: string, rest: seq<string>)
    requires rest != []
    ensures Route(g, goal, small, visited, [curr] + rest) <==>
      curr in g && rest[0] in g[curr] && curr != goal &&
      !Blocked(curr, multiset(visited), small) && Route(g, goal, small, visited + [curr], rest)
  {
    if Route(g, goal, small, visited, [curr] + rest) {
      RouteTail(g, goal, small, visited, curr, rest);
    }
    if curr in g && rest[0] in g[curr] && curr != goal &&
       !Blocked(curr, multiset(visited), small) && Route(g, goal, small, visited + [curr], rest) {
      RouteJoin(g, goal, small, visited, curr, rest);
    }
  }

  /** Position `i` of `[curr] + rest` past the first, and the path before it. */
  lemma ConsAt(visited: seq<string>, curr: string, rest: seq<string>, i: int)
    requires 1 <= i <= |rest|
    ensures ([curr] + rest)[i] == rest[i - 1]
    ensures visited + ([curr] + rest)[..i] == visited + [curr] + rest[..i - 1]
  {
    assert ([curr] + rest)[..i] == [curr] + rest[..i - 1];
  }

  lemma RouteTail(g: Graph, goal: string, small: string, visited: seq<string>,
                  curr: string, rest: seq<string>)
    requires rest != [] && Route(g, goal, small, visited, [curr] + rest)
    ensures curr in g && rest[0] in g[curr] && curr != goal
    ensures !Blocked(curr, multiset(visited), small) && Route(g, goal, small, visited + [curr], rest)
  {
    var q := [curr] + rest;
    assert q[..0] == [] && visited + [] == visited;
    ConsAt(visited, curr, rest, 1);
    forall i | 0 <= i < |rest| - 1
      ensures rest[i] in g && rest[i + 1] in g[rest[i]]
    {
      ConsAt(visited, curr, rest, i + 1);
      ConsAt(visited, curr, rest, i + 2);
    }
    forall i | 0 <= i < |rest| - 1
      ensures rest[i] != goal && !Blocked(rest[i], multiset(visited + [curr] + rest[..i]), small)
    {
      ConsAt(visited, curr, rest, i + 1);
    }
    ConsAt(visited, curr, rest, |rest|);
  }

  lemma RouteJoin(g: Graph, goal: string, small: string, visited: seq<string>,
                  curr: string, rest: seq<string>)
    requires rest != [] && curr in g && rest[0] in g[curr] && curr != goal
    requires !Blocked(curr, multiset(visited), small) && Route(g, goal, small, visited + [curr], rest)
    ensures Route(g, goal, small, visited, [curr] + rest)
  {
    var q := [curr] + rest;
    assert q[..0] == [] && visited + [] == visited;
    ConsAt(visited, curr, rest, |rest|);
    forall i | 0 <= i < |q| - 1
      ensures q[i] in g && q[i + 1] in g[q[i]]
    {
      ConsAt(visited, curr, rest, i + 1);
      if i > 0 {
        ConsAt(visited, curr, rest, i);
      }
    }
    forall i | 0 <= i < |q| - 1
      ensures q[i] != goal && !Blocked(q[i], multiset(visited + q[..i]), small)
    {
      if i > 0 {
        ConsAt(visited, curr, rest, i);
      }
    }
  }

  /** The paths through a list of edges are those through one of them. */
  lemma {:induction false} CompletionsAllMember(g: Graph, goal: string, visited: seq<string>,
                                                small: string, parentBig: bool,
                                                edges: seq<string>, p: seq<string>)
    requires Searchable(g, small) && Onward(g, parentBig, edges)
    ensures p in CompletionsAll(g, goal, visited, small, parentBig, edges) <==>
      exists j :: 0 <= j < |edges| && p in Completions(g, edges[j], goal, visited, small)
  {
    if edges != [] {
      var init := edges[..|edges| - 1];
      CompletionsAllMember(g, goal, visited, small, parentBig, init, p);
      assert forall j :: 0 <= j < |init| ==> init[j] == edges[j];
    }
  }

  /** `p` continues `visited` with a route that starts at `curr`. */
  ghost predicate Continues(g: Graph, curr: string, goal: string, visited: seq<string>,
                            small: string, p: seq<string>) {
    |p| > |visited| && p[..|visited|] == visited && p[|visited|] == curr &&
    Route(g, goal, small, visited, p[|visited|..])
  }

  /** `dfs_b` records from `curr` exactly the paths that continue `visited` with a route
      starting at `curr`. */
  lemma CompletionsAreRoutes(g: Graph, curr: string, goal: string, visited: seq<string>,
                             small: string, p: seq<string>)
    requires Searchable(g, small) && curr in g
    ensures p in Completions(g, curr, goal, visited, small) <==>
      Continues(g, curr, goal, visited, small, p)
  {
    if p in Completions(g, curr, goal, visited, small) {
      RoutesSound(g, curr, goal, visited, small, p);
    }
    if Continues(g, curr, goal, visited, small, p) {
      RoutesComplete(g, curr, goal, visited, small, p);
    }
  }

  /** A continuation through `curr`, cut after `curr`, is a continuation of one cave more. */
  lemma ContinuesCons(g: Graph, curr: string, goal: string, visited: seq<string>,
                      small: string, p: seq<string>)
    requires |p| > |visited| + 1 && p[..|visited|] == visited && p[|visited|] == curr
    ensures Continues(g, curr, goal, visited, small, p) <==>
      curr in g && p[|visited| + 1] in g[curr] && curr != goal &&
      !Blocked(curr, multiset(visited), small) &&
      Continues(g, p[|visited| + 1], goal, visited + [curr], small, p)
  {
    var n := |visited|;
    var m := n + 1;
    var rest := p[m..];
    assert p[..m] == visited + [curr];
    assert p[n..] == [curr] + rest;
    RouteCons(g, goal, small, visited, curr, rest);
  }

  /** The search moves on from `curr` to a neighbour at a lower rank. */
  lemma RankStep(g: Graph, small: string, visited: seq<string>, curr: string, e: string)
    requires Searchable(g, small) && curr in g && e in g[curr]
    requires !Blocked(curr, multiset(visited), small)
    ensures Rank(g, small, multiset(visited + [curr]), e) < Rank(g, small, multiset(visited), curr)
  {
    SlackStep(g, small, multiset(visited), curr);
    assert multiset(visited + [curr]) == multiset(visited) + multiset{curr};
  }

  /** A path recorded from `curr` other than `goal` is recorded from one of its neighbours. */
  lemma SoundStep(g: Graph, curr: string, goal: string, visited: seq<string>,
                  small: string, p: seq<string>) returns (e: string)
    requires Searchable(g, small) && curr in g && curr != goal
    requires p in Completions(g, curr, goal, visited, small)
    ensures e in g[curr] && e in g && !Blocked(curr, multiset(visited), small)
    ensures p in Completions(g, e, goal, visited + [curr], small)
  {
    CompletionsAllMember(g, goal, visited + [curr], small, Big(curr), g[curr], p);
    var j :| 0 <= j < |g[curr]| && p in Completions(g, g[curr][j], goal, visited + [curr], small);
    e := g[curr][j];
  }

  /** A path recorded from a neighbour the rule lets the search reach is recorded from
      `curr`. */
  lemma CompleteStep(g: Graph, curr: string, goal: string, visited: seq<string>,
                     small: string, e: string, p: seq<string>)
    requires Searchable(g, small) && curr in g && curr != goal && e in g[curr]
    requires !Blocked(curr, multiset(visited), small)
    requires e in g && p in Completions(g, e, goal, visited + [curr], small)
    ensures p in Completions(g, curr, goal, visited, small)
  {
    var j :| 0 <= j < |g[curr]| && g[curr][j] == e;
    CompletionsAllMember(g, goal, visited + [curr], small, Big(curr), g[curr], p);
  }

  lemma RoutesSound(g: Graph, curr: string, goal: string, visited: seq<string>,
                    small: string, p: seq<string>)
    requires Searchable(g, small) && curr in g
    requires p in Completions(g, curr, goal, visited, small)
    ensures Continues(g, curr, goal, visited, small, p)
    decreases Rank(g, small, multiset(visited), curr)
  {
    var n := |visited|;
    if curr == goal {
      assert p[n..] == [goal];
    } else {
      var e := SoundStep(g, curr, goal, visited, small, p);
      RankStep(g, small, visited, curr, e);
      RoutesSound(g, e, goal, visited + [curr], small, p);
      assert p[..n] == (visited + [curr])[..n];
      ContinuesCons(g, curr, goal, visited, small, p);
    }
  }

  lemma RoutesComplete(g: Graph, curr: string, goal: string, visited: seq<string>,
                       small: string, p: seq<string>)
    requires Searchable(g, small) && curr in g
    requires Continues(g, curr, goal, visited, small, p)
    ensures p in Completions(g, curr, goal, visited, small)
    decreases Rank(g, small, multiset(visited), curr)
  {
    var n := |visited|;
    var q := p[n..];
    if curr == goal {
      assert |q| == 1 && q == [curr];
      assert p == p[..n] + q;
    } else {
      assert |q| > 1;
      assert q[..0] == [] && visited + [] == visited;
      ContinuesCons(g, curr, goal, visited, small, p);
      var e := p[n + 1];
      RankStep(g, small, visited, curr, e);
      RoutesComplete(g, e, goal, visited + [curr], small, p);
      CompleteStep(g, curr, goal, visited, small, e, p);
    }
  }

  /** Every list of a node's edges names distinct nodes, as when no line repeats an edge. */
  predicate DistinctEdges(g: Graph) {
    forall a, i, j :: a in g && 0 <= i < j < |g[a]| ==> g[a][i] != g[a][j]
  }

  /** With distinct edges, `dfs` counts the routes along which each small cave is met at
      most once: those `dfs_b` records when only `goal` may be met twice, which it never is. */
  lemma CountIsRoutes(g: Graph, curr: string, goal: string, visited: seq<string>)
    requires Searchable(g, goal) && DistinctEdges(g) && curr in g
    ensures Count(g, curr, goal, multiset(visited)) == |Completions(g, curr, goal, visited, goal)|
    decreases Rank(g, goal, multiset(visited), curr), 0
  {
    if curr != goal && !Blocked(curr, multiset(visited), goal) {
      SlackStep(g, goal, multiset(visited), curr);
      assert multiset(visited + [curr]) == multiset(visited) + multiset{curr};
      CountAllIsRoutes(g, goal, visited + [curr], Big(curr), g[curr]);
    }
  }

  lemma CountAllIsRoutes(g: Graph, goal: string, visited: seq<string>, parentBig: bool,
                         edges: seq<string>)
    requires Searchable(g, goal) && DistinctEdges(g) && Onward(g, parentBig, edges)
    requires forall i, j :: 0 <= i < j < |edges| ==> edges[i] != edges[j]
    ensures CountAll(g, goal, multiset(visited), parentBig, edges) ==
      |CompletionsAll(g, goal, visited, goal, parentBig, edges)|
    decreases RankAll(g, goal, multiset(visited), parentBig), 1, |edges|
  {
    if edges != [] {
      var init, last := edges[..|edges| - 1], edges[|edges| - 1];
      CountAllIsRoutes(g, goal, visited, parentBig, init);
      CountIsRoutes(g, last, goal, visited);
      var before := CompletionsAll(g, goal, visited, goal, parentBig, init);
      var here := Completions(g, last, goal, visited, goal);
      forall p | p in before
        ensures p !in here
      {
        CompletionsAllMember(g, goal, visited, goal, parentBig, init, p);
        var j :| 0 <= j < |init| && p in Completions(g, init[j], goal, visited, goal);
        CompletionsAreRoutes(g, init[j], goal, visited, goal, p);
        CompletionsAreRoutes(g, last, goal, visited, goal, p);
      }
      assert before * here == {};
    }
  }
}
