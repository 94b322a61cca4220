/** The execution DAG of analyzers: Kahn's algorithm with in-degree counters, grouped into levels, against
    the set of nodes whose dependencies are settled, and the report of a cycle when some node is left over. */
module Dag {

  /** Each analyzer's dependencies, in the order it lists them and possibly with repeats. */
  type Edges = map<string, seq<string>>

  /** Every dependency is registered. */
  predicate Closed(edges: Edges) {
    forall n, d :: n in edges && d in edges[n] ==> d in edges
  }

  function ElementsOf(s: seq<string>): set<string> {
    set x | x in s
  }

  predicate Distinct(s: seq<string>) {
    forall i, j :: 0 <= i < j < |s| ==> s[i] != s[j]
  }

  // ---- the order of names ----

  /** Names are ordered by their characters, a name before its extensions. */
  predicate Before(a: string, b: string) {
    b != "" && (a == "" || a[0] < b[0] || (a[0] == b[0] && Before(a[1..], b[1..])))
  }

  lemma {:induction false} BeforeTotal(a: string, b: string)
    ensures a == b || Before(a, b) || Before(b, a)
    ensures Before(a, b) ==> a != b && !Before(b, a)
  {
    if a != "" && b != "" {
      BeforeTotal(a[1..], b[1..]);
      assert a == [a[0]] + a[1..] && b == [b[0]] + b[1..];
    }
  }

  lemma {:induction false} BeforeTransitive(a: string, b: string, c: string)
    requires Before(a, b) && Before(b, c)
    ensures Before(a, c)
  {
    if a != "" && a[0] == b[0] == c[0] { BeforeTransitive(a[1..], b[1..], c[1..]); }
  }

  lemma NotAfterTransitive(a: string, b: string, c: string)
    requires !Before(b, a) && !Before(c, b)
    ensures !Before(c, a)
  {
    BeforeTotal(a, b);
    BeforeTotal(b, c);
    if Before(c, a) && Before(a, b) { BeforeTransitive(c, a, b); }
  }

  predicate Sorted(s: seq<string>) {
    forall i, j :: 0 <= i < j < |s| ==> !Before(s[j], s[i])
  }

  function Insert(x: string, s: seq<string>): (r: seq<string>)
    ensures multiset(r) == multiset(s) + multiset{x}
  {
    if s == [] || !Before(s[0], x) then [x] + s
    else
      assert s == [s[0]] + s[1..];
      [s[0]] + Insert(x, s[1..])
  }

  /** sort.Strings. */
  function Sort(s: seq<string>): (r: seq<string>)
    ensures multiset(r) == multiset(s)
  {
    if s == [] then []
    else
      assert s == [s[0]] + s[1..];
      Insert(s[0], Sort(s[1..]))
  }

  lemma {:induction false} InsertSorts(x: string, s: seq<string>)
    requires Sorted(s)
    ensures Sorted(Insert(x, s))
  {
    if s == [] {
    } else if !Before(s[0], x) {
      var r := [x] + s;
      forall i, j | 0 <= i < j < |r| ensures !Before(r[j], r[i]) {
        if i == 0 && j > 1 { NotAfterTransitive(x, s[0], s[j - 1]); }
      }
    } else {
      var rest := Insert(x, s[1..]);
      InsertSorts(x, s[1..]);
      BeforeTotal(s[0], x);
      var r := [s[0]] + rest;
      assert r == Insert(x, s);
      forall i, j | 0 <= i < j < |r| ensures !Before(r[j], r[i]) {
        if i == 0 {
          assert rest[j - 1] in multiset(s[1..]) + multiset{x};
          assert rest[j - 1] == x || rest[j - 1] in s[1..];
        }
      }
    }
  }

  lemma {:induction false} SortSorts(s: seq<string>)
    ensures Sorted(Sort(s))
  {
    if s != [] {
      SortSorts(s[1..]);
      InsertSorts(s[0], Sort(s[1..]));
    }
  }

  lemma {:induction false} DistinctIsOnce(s: seq<string>)
    ensures Distinct(s) <==> forall x :: multiset(s)[x] <= 1
  {
    if s != [] {
      var front, last := s[..|s| - 1], s[|s| - 1];
      DistinctIsOnce(front);
      assert s == front + [last];
      assert multiset(s) == multiset(front) + multiset{last};
      if Distinct(s) {
        assert last !in front;
        assert multiset(front)[last] == 0;
      }
      if forall x :: multiset(s)[x] <= 1 {
        assert multiset(s)[last] <= 1;
        assert last !in front;
        forall x ensures multiset(front)[x] <= 1 { assert multiset(s)[x] <= 1; }
      }
    }
  }

  lemma SortKeeps(s: seq<string>)
    ensures ElementsOf(Sort(s)) == ElementsOf(s) && (Distinct(s) ==> Distinct(Sort(s)))
    ensures forall x :: x in Sort(s) <==> x in s
  {
    hide Sort;
    forall x ensures x in Sort(s) <==> x in s {
      assert x in Sort(s) <==> x in multiset(Sort(s));
      assert x in s <==> x in multiset(s);
    }
    DistinctIsOnce(s);
    DistinctIsOnce(Sort(s));
  }

  /** There is one way to list a set of names in order. */
  lemma {:induction false} SortedOnce(a: seq<string>, b: seq<string>)
    requires Sorted(a) && Distinct(a) && Sorted(b) && Distinct(b) && forall x :: x in a <==> x in b
    ensures a == b
  {
    assert a == [] || a[0] in a;
    assert b == [] || b[0] in b;
    if a != [] && b != [] {
      BeforeTotal(a[0], b[0]);
      assert a[0] in b && b[0] in a;
      assert a[0] == b[0];
      forall x ensures x in a[1..] <==> x in b[1..] {
        assert x in a <==> x == a[0] || x in a[1..];
        assert x in b <==> x == b[0] || x in b[1..];
        assert a[0] !in a[1..] && b[0] !in b[1..];
      }
      SortedOnce(a[1..], b[1..]);
      assert a == [a[0]] + a[1..] && b == [b[0]] + b[1..];
    }
  }

  // ---- the reference: nodes settled after i rounds ----

  function Settled(edges: Edges, i: nat): set<string> {
    if i == 0 then {} else set n | n in edges && forall d :: d in edges[n] ==> d in Settled(edges, i - 1)
  }

  function LevelOf(edges: Edges, i: nat): set<string> {
    Settled(edges, i + 1) - Settled(edges, i)
  }

  lemma {:induction false} SettledGrows(edges: Edges, i: nat)
    ensures Settled(edges, i) <= Settled(edges, i + 1)
  {
    if i > 0 { SettledGrows(edges, i - 1); }
  }

  lemma {:induction false} SettledMonotone(edges: Edges, i: nat, j: nat)
    requires i <= j
    ensures Settled(edges, i) <= Settled(edges, j)
    decreases j - i
  {
    if i < j {
      SettledGrows(edges, i);
      SettledMonotone(edges, i + 1, j);
    }
  }

  /** A chain of dependencies from its first node down. */
  predicate IsChain(edges: Edges, chain: seq<string>) {
    && chain != []
    && (forall i :: 0 <= i < |chain| ==> chain[i] in edges)
    && (forall i :: 0 < i < |chain| ==> chain[i] in edges[chain[i - 1]])
  }

  lemma {:induction false} ChainsAreShort(edges: Edges, i: nat, chain: seq<string>)
    requires IsChain(edges, chain) && chain[0] in Settled(edges, i)
    ensures |chain| <= i
  {
    if |chain| > 1 {
      assert chain[1] in edges[chain[1 - 1]];
      var tail := chain[1..];
      forall k | 0 < k < |tail| ensures tail[k] in edges[tail[k - 1]] {
        assert chain[k + 1] in edges[chain[k + 1 - 1]];
      }
      ChainsAreShort(edges, i - 1, tail);
    }
  }

  lemma {:induction false} LongestChain(edges: Edges, i: nat, n: string) returns (chain: seq<string>)
    requires n in LevelOf(edges, i)
    ensures IsChain(edges, chain) && chain[0] == n && |chain| == i + 1
  {
    if i == 0 {
      chain := [n];
    } else {
      var d :| d in edges[n] && d !in Settled(edges, i - 1);
      var tail := LongestChain(edges, i - 1, d);
      chain := [n] + tail;
      forall k | 0 < k < |chain| ensures chain[k] in edges[chain[k - 1]] {
        if k > 1 { assert tail[k - 1] in edges[tail[k - 1 - 1]]; }
      }
    }
  }

  /** A rank that every dependency lowers: there is no cycle. */
  ghost predicate Ranks(edges: Edges, rank: map<string, nat>) {
    rank.Keys == edges.Keys && forall n, d :: n in edges && d in edges[n] ==> d in rank && rank[d] < rank[n]
  }

  ghost predicate Acyclic(edges: Edges) {
    exists rank :: Ranks(edges, rank)
  }

  lemma {:induction false} RankSettles(edges: Edges, rank: map<string, nat>, i: nat, n: string)
    requires Ranks(edges, rank) && n in edges && rank[n] < i
    ensures n in Settled(edges, i)
  {
    forall d | d in edges[n] ensures d in Settled(edges, i - 1) {
      RankSettles(edges, rank, i - 1, d);
    }
  }

  lemma {:induction false} Fixed(edges: Edges, i: nat, j: nat)
    requires i <= j && Settled(edges, i + 1) == Settled(edges, i)
    ensures Settled(edges, j) == Settled(edges, i)
    decreases j - i
  {
    if i < j {
      Fixed(edges, i, j - 1);
      assert Settled(edges, j) == Settled(edges, i + 1);
    }
  }

  function LevelIn(edges: Edges, i: nat, n: string): (r: nat)
    requires n in Settled(edges, i)
    ensures r < i && n in LevelOf(edges, r)
  {
    if n in Settled(edges, i - 1) then LevelIn(edges, i - 1, n) else i - 1
  }

  lemma DependencyIsEarlier(edges: Edges, i: nat, n: string, d: string)
    requires n in Settled(edges, i) && d in edges[n] && d in Settled(edges, i)
    ensures LevelIn(edges, i, d) < LevelIn(edges, i, n)
  {
    var a, b := LevelIn(edges, i, n), LevelIn(edges, i, d);
    assert d in Settled(edges, a);
    hide Settled;
    if a <= b { SettledMonotone(edges, a, b); }
  }

  /** The level of a node is its longest chain of dependencies: one that long exists and none is longer. */
  lemma LevelIsLongestChain(edges: Edges, rounds: nat, i: nat, n: string)
    requires n in Settled(edges, rounds)
    ensures n in LevelOf(edges, i) <==>
            && (exists chain :: IsChain(edges, chain) && chain[0] == n && |chain| == i + 1)
            && (forall chain :: IsChain(edges, chain) && chain[0] == n ==> |chain| <= i + 1)
  {
    hide Settled;
    var level := LevelIn(edges, rounds, n);
    var longest := LongestChain(edges, level, n);
    forall chain | IsChain(edges, chain) && chain[0] == n ensures |chain| <= level + 1 {
      ChainsAreShort(edges, level + 1, chain);
    }
    if n in LevelOf(edges, i) {
      OneLevel(edges, i, level, n);
    }
  }

  lemma OneLevel(edges: Edges, i: nat, j: nat, n: string)
    requires n in LevelOf(edges, i) && n in LevelOf(edges, j)
    ensures i == j
  {
    hide Settled;
    if i < j { SettledMonotone(edges, i + 1, j); }
    if j < i { SettledMonotone(edges, j + 1, i); }
  }

  /** The nodes that the rounds never settle are none exactly when there is no cycle. */
  lemma AllSettledIffAcyclic(edges: Edges, rounds: nat)
    requires Closed(edges) && Settled(edges, rounds + 1) == Settled(edges, rounds)
    ensures Settled(edges, rounds) == edges.Keys <==> Acyclic(edges)
  {
    hide Settled;
    SettledAreNodes(edges, rounds);
    if Settled(edges, rounds) == edges.Keys {
      var rank := map n | n in edges :: LevelIn(edges, rounds, n);
      forall n, d | n in edges && d in edges[n] ensures d in rank && rank[d] < rank[n] {
        DependencyIsEarlier(edges, rounds, n, d);
      }
      assert Ranks(edges, rank);
    }
    if Acyclic(edges) {
      var rank :| Ranks(edges, rank);
      forall n | n in edges ensures n in Settled(edges, rounds) {
        var late := rounds + rank[n] + 1;
        RankSettles(edges, rank, late, n);
        Fixed(edges, rounds, late);
      }
    }
  }

  lemma SettledAreNodes(edges: Edges, i: nat)
    ensures Settled(edges, i) <= edges.Keys
  {
  }

  // ---- counting ----

  function Count(s: seq<string>, x: string): nat {
    if s == [] then 0 else Count(s[..|s| - 1], x) + (if s[|s| - 1] == x then 1 else 0)
  }

  lemma CountMore(s: seq<string>, i: nat, x: string)
    requires i < |s|
    ensures Count(s[..i + 1], x) == Count(s[..i], x) + (if s[i] == x then 1 else 0)
  {
    assert s[..i + 1][..i] == s[..i];
  }

  lemma {:induction false} CountPrefix(s: seq<string>, i: nat, x: string)
    requires i <= |s|
    ensures Count(s[..i], x) <= Count(s, x)
    decreases |s| - i
  {
    if i < |s| {
      CountMore(s, i, x);
      CountPrefix(s, i + 1, x);
    } else {
      assert s[..i] == s;
    }
  }

  lemma {:induction false} CountPositive(s: seq<string>, x: string)
    ensures Count(s, x) > 0 <==> x in s
  {
    if s != [] {
      CountPositive(s[..|s| - 1], x);
      assert s == s[..|s| - 1] + [s[|s| - 1]];
    }
  }

  /** How many of the dependencies, repeats counted, are not settled yet: the in-degree counter. */
  function Unmet(deps: seq<string>, settled: set<string>): nat {
    if deps == [] then 0 else Unmet(deps[..|deps| - 1], settled) + (if deps[|deps| - 1] in settled then 0 else 1)
  }

  lemma {:induction false} UnmetNone(deps: seq<string>, settled: set<string>)
    ensures Unmet(deps, settled) == 0 <==> forall d :: d in deps ==> d in settled
  {
    if deps != [] {
      UnmetNone(deps[..|deps| - 1], settled);
      assert deps == deps[..|deps| - 1] + [deps[|deps| - 1]];
    }
  }

  lemma {:induction false} UnmetLess(deps: seq<string>, settled: set<string>, x: string)
    requires x !in settled
    ensures Unmet(deps, settled + {x}) + Count(deps, x) == Unmet(deps, settled)
  {
    if deps != [] { UnmetLess(deps[..|deps| - 1], settled, x); }
  }

  lemma {:induction false} UnmetAll(deps: seq<string>)
    ensures Unmet(deps, {}) == |deps|
  {
    if deps != [] { UnmetAll(deps[..|deps| - 1]); }
  }

  // ---- Kahn's algorithm ----

  /** The reverse adjacency: how often each dependent is listed under a dependency. */
  ghost predicate Reversed(edges: Edges, dependents: map<string, seq<string>>) {
    forall d, n :: Count(if d in dependents then dependents[d] else [], n) == (if n in edges then Count(edges[n], d) else 0)
  }

  /** Every counter holds the dependencies still unmet. */
  ghost predicate Counters(edges: Edges, settled: set<string>, inDegree: map<string, int>) {
    inDegree.Keys == edges.Keys && forall n :: n in edges ==> inDegree[n] == Unmet(edges[n], settled)
  }

  function Get(dependents: map<string, seq<string>>, d: string): seq<string> {
    if d in dependents then dependents[d] else []
  }

  lemma CountAdd(s: seq<string>, y: string, x: string)
    ensures Count(s + [y], x) == Count(s, x) + (if y == x then 1 else 0)
  {
    assert (s + [y])[..|s|] == s;
  }

  /** The dependents found so far: those of the first i names, and the first j dependencies of name i. */
  ghost predicate ReversedSoFar(edges: Edges, names: seq<string>, dependents: map<string, seq<string>>, i: nat, j: nat)
    requires i <= |names| && (forall n :: n in names ==> n in edges)
    requires i < |names| ==> j <= |edges[names[i]]|
  {
    forall d, n :: Count(Get(dependents, d), n) == FoundSoFar(edges, names, i, j, d, n)
  }

  function FoundSoFar(edges: Edges, names: seq<string>, i: nat, j: nat, d: string, n: string): nat
    requires i <= |names| && (forall n :: n in names ==> n in edges)
    requires i < |names| ==> j <= |edges[names[i]]|
  {
    if n in names[..i] then Count(edges[n], d) else if i < |names| && n == names[i] then Count(edges[n][..j], d) else 0
  }

  lemma OneMoreDependent(edges: Edges, names: seq<string>, dependents: map<string, seq<string>>, i: nat, j: nat)
    requires i < |names| && (forall n :: n in names ==> n in edges) && j < |edges[names[i]]| && Distinct(names)
    requires ReversedSoFar(edges, names, dependents, i, j)
    ensures var d := edges[names[i]][j];
      ReversedSoFar(edges, names, dependents[d := Get(dependents, d) + [names[i]]], i, j + 1)
  {
    hide Count;
    var x, e := names[i], edges[names[i]][j];
    var later := dependents[e := Get(dependents, e) + [x]];
    assert x !in names[..i];
    forall d, n ensures Count(Get(later, d), n) ==
      if n in names[..i] then Count(edges[n], d) else if n == x then Count(edges[n][..j + 1], d) else 0
    {
      assert Count(Get(dependents, d), n) ==
        if n in names[..i] then Count(edges[n], d) else if n == x then Count(edges[n][..j], d) else 0;
      CountMore(edges[x], j, d);
      CountAdd(Get(dependents, e), x, n);
    }
  }

  lemma NextName(edges: Edges, names: seq<string>, dependents: map<string, seq<string>>, i: nat)
    requires i < |names| && (forall n :: n in names ==> n in edges) && Distinct(names)
    requires ReversedSoFar(edges, names, dependents, i, |edges[names[i]]|)
    ensures ReversedSoFar(edges, names, dependents, i + 1, 0)
  {
    forall d, n ensures Count(Get(dependents, d), n) == FoundSoFar(edges, names, i + 1, 0, d, n) {
      FoundOn(edges, names, i, d, n);
      assert Count(Get(dependents, d), n) == FoundSoFar(edges, names, i, |edges[names[i]]|, d, n);
    }
    hide FoundSoFar, Count, Get;
  }

  lemma FoundOn(edges: Edges, names: seq<string>, i: nat, d: string, n: string)
    requires i < |names| && (forall n :: n in names ==> n in edges)
    ensures FoundSoFar(edges, names, i + 1, 0, d, n) == FoundSoFar(edges, names, i, |edges[names[i]]|, d, n)
  {
    hide Count;
    var x := names[i];
    assert edges[x][..|edges[x]|] == edges[x];
    assert n in names[..i + 1] <==> n in names[..i] || n == x;
    assert n in edges ==> edges[n][..0] == [];
    CountNone(d);
  }

  lemma CountNone(x: string)
    ensures Count([], x) == 0
  {
  }

  /** Reverses the edges, whatever order the map is ranged over in. */
  method Reverse(edges: Edges, names: seq<string>) returns (dependents: map<string, seq<string>>)
    requires Distinct(names) && ElementsOf(names) == edges.Keys
    ensures Reversed(edges, dependents)
  {
    assert forall n :: n in names <==> n in ElementsOf(names);
    hide Count, ReversedSoFar, Distinct;
    dependents := map[];
    assert ReversedSoFar(edges, names, dependents, 0, 0) by { NoneYet(edges, names); }
    for i := 0 to |names|
      invariant ReversedSoFar(edges, names, dependents, i, 0)
    {
      for j := 0 to |edges[names[i]]|
        invariant ReversedSoFar(edges, names, dependents, i, j)
      {
        OneMoreDependent(edges, names, dependents, i, j);
        var d := edges[names[i]][j];
        dependents := dependents[d := Get(dependents, d) + [names[i]]];
      }
      NextName(edges, names, dependents, i);
    }
    AllReversed(edges, names, dependents);
  }

  lemma NoneYet(edges: Edges, names: seq<string>)
    requires forall n :: n in names ==> n in edges
    ensures ReversedSoFar(edges, names, map[], 0, 0)
  {
  }

  lemma AllReversed(edges: Edges, names: seq<string>, dependents: map<string, seq<string>>)
    requires (forall n :: n in names <==> n in edges) && ReversedSoFar(edges, names, dependents, |names|, 0)
    ensures Reversed(edges, dependents)
  {
    hide Count;
    assert names[..|names|] == names;
    forall d, n ensures Count(if d in dependents then dependents[d] else [], n) == if n in edges then Count(edges[n], d) else 0 {
      assert Count(Get(dependents, d), n) == if n in edges then Count(edges[n], d) else 0;
    }
  }

  // ---- settling one node ----

  /** Part of the way through the dependents of x: counters lowered, and the ones that reached zero queued. */
  ghost predicate Lowering(edges: Edges, settled: set<string>, before: seq<string>, list: seq<string>, k: nat,
                           inDegree: map<string, int>, next: seq<string>)
    requires k <= |list|
  {
    && inDegree.Keys == edges.Keys
    && (forall n :: n in edges ==> inDegree[n] == Unmet(edges[n], settled) - Count(list[..k], n))
    && (forall n :: n in next <==> n in before || (n in edges && Count(list[..k], n) > 0 && inDegree[n] == 0))
    && Distinct(next)
  }

  lemma LowerOne(edges: Edges, settled: set<string>, before: seq<string>, list: seq<string>, k: nat,
                 inDegree: map<string, int>, next: seq<string>)
    requires k < |list| && list[k] in edges && Lowering(edges, settled, before, list, k, inDegree, next)
    requires Count(list, list[k]) <= Unmet(edges[list[k]], settled)
    requires forall n :: n in before ==> n in edges && Unmet(edges[n], settled) == 0
    ensures var n := list[k]; var lower := inDegree[n := inDegree[n] - 1];
      Lowering(edges, settled, before, list, k + 1, lower, if lower[n] == 0 then next + [n] else next)
  {
    hide Count, Unmet;
    var x := list[k];
    forall n ensures Count(list[..k + 1], n) == Count(list[..k], n) + (if n == x then 1 else 0) {
      CountMore(list, k, n);
    }
    CountPrefix(list, k + 1, x);
    assert inDegree[x] > 0;
    assert x !in next;
  }

  /** Lowers the counters of the dependents of x, and queues each that reaches zero. */
  method Settle(edges: Edges, dependents: map<string, seq<string>>, ghost settled: set<string>, x: string,
                inDegree: map<string, int>, next: seq<string>)
    returns (lower: map<string, int>, queued: seq<string>)
    requires Reversed(edges, dependents) && Counters(edges, settled, inDegree) && x !in settled
    requires Distinct(next) && forall n :: n in next ==> n in edges && Unmet(edges[n], settled) == 0
    ensures Counters(edges, settled + {x}, lower) && Distinct(queued)
    ensures forall n :: n in queued <==>
      n in next || (n in edges && Unmet(edges[n], settled) > 0 && Unmet(edges[n], settled + {x}) == 0)
  {
    hide Count, Unmet, Lowering, Distinct;
    var list := Get(dependents, x);
    lower, queued := inDegree, next;
    forall n ensures Count(list, n) == (if n in edges then Count(edges[n], x) else 0) &&
                     (n in edges ==> Count(list, n) + Unmet(edges[n], settled + {x}) == Unmet(edges[n], settled))
    {
      if n in edges { UnmetLess(edges[n], settled, x); }
    }
    assert Lowering(edges, settled, next, list, 0, lower, queued) by { NoneLowered(edges, settled, next, list, inDegree); }
    for k := 0 to |list|
      invariant Lowering(edges, settled, next, list, k, lower, queued)
    {
      var n := list[k];
      CountPositive(list, n);
      assert n in lower by { LoweringKeys(edges, settled, next, list, k, lower, queued); }
      LowerOne(edges, settled, next, list, k, lower, queued);
      lower := lower[n := lower[n] - 1];
      if lower[n] == 0 { queued := queued + [n]; }
    }
    AllLowered(edges, settled, x, next, list, lower, queued);
  }

  lemma LoweringKeys(edges: Edges, settled: set<string>, before: seq<string>, list: seq<string>, k: nat,
                     inDegree: map<string, int>, next: seq<string>)
    requires k <= |list| && Lowering(edges, settled, before, list, k, inDegree, next)
    ensures inDegree.Keys == edges.Keys
  {
  }

  lemma NoneLowered(edges: Edges, settled: set<string>, before: seq<string>, list: seq<string>, inDegree: map<string, int>)
    requires Counters(edges, settled, inDegree) && Distinct(before)
    ensures Lowering(edges, settled, before, list, 0, inDegree, before)
  {
    hide Unmet;
    assert list[..0] == [];
  }

  lemma AllLowered(edges: Edges, settled: set<string>, x: string, before: seq<string>, list: seq<string>,
                   lower: map<string, int>, queued: seq<string>)
    requires Lowering(edges, settled, before, list, |list|, lower, queued)
    requires forall n :: n in edges ==> Count(list, n) + Unmet(edges[n], settled + {x}) == Unmet(edges[n], settled)
    ensures Counters(edges, settled + {x}, lower) && Distinct(queued)
    ensures forall n :: n in queued <==>
      n in before || (n in edges && Unmet(edges[n], settled) > 0 && Unmet(edges[n], settled + {x}) == 0)
  {
    hide Count, Unmet;
    assert list[..|list|] == list;
  }

  // ---- the levels ----

  /** Part of the way through a level: `done` of it settled, and the nodes that became free queued. */
  ghost predicate Within(edges: Edges, settled: set<string>, done: set<string>, inDegree: map<string, int>, next: seq<string>) {
    && Counters(edges, settled + done, inDegree)
    && Distinct(next)
    && (forall n :: n in next <==> n in edges && Unmet(edges[n], settled) > 0 && Unmet(edges[n], settled + done) == 0)
  }

  lemma {:induction false} UnmetMonotone(deps: seq<string>, settled: set<string>, more: set<string>)
    requires settled <= more
    ensures Unmet(deps, more) <= Unmet(deps, settled)
  {
    if deps != [] { UnmetMonotone(deps[..|deps| - 1], settled, more); }
  }

  /** Settles one level's nodes in turn. */
  method SettleLevel(edges: Edges, dependents: map<string, seq<string>>, ghost settled: set<string>, level: seq<string>,
                     inDegree: map<string, int>)
    returns (lower: map<string, int>, next: seq<string>)
    requires Reversed(edges, dependents) && Counters(edges, settled, inDegree)
    requires Distinct(level) && settled !! ElementsOf(level)
    ensures Within(edges, settled, ElementsOf(level), lower, next)
  {
    hide Unmet, Counters, Reversed;
    lower, next := inDegree, [];
    assert settled + ElementsOf(level[..0]) == settled;
    for k := 0 to |level|
      invariant Within(edges, settled, ElementsOf(level[..k]), lower, next)
    {
      var done := ElementsOf(level[..k]);
      assert ElementsOf(level[..k + 1]) == done + {level[k]};
      assert (settled + done) + {level[k]} == settled + ElementsOf(level[..k + 1]);
      assert level[k] !in settled + done;
      var before := next;
      lower, next := Settle(edges, dependents, settled + done, level[k], lower, next);
      forall n | n in edges ensures Unmet(edges[n], settled + ElementsOf(level[..k + 1])) <= Unmet(edges[n], settled + done) <= Unmet(edges[n], settled) {
        UnmetMonotone(edges[n], settled + done, settled + ElementsOf(level[..k + 1]));
        UnmetMonotone(edges[n], settled, settled + done);
      }
    }
    assert level[..|level|] == level;
  }

  lemma WithinSorted(edges: Edges, settled: set<string>, done: set<string>, inDegree: map<string, int>, next: seq<string>)
    requires Within(edges, settled, done, inDegree, next)
    ensures Within(edges, settled, done, inDegree, Sort(next)) && Sorted(Sort(next))
  {
    hide Unmet, Counters, Sort, Distinct;
    SortKeeps(next);
    SortSorts(next);
  }

  lemma QueueIsNextLevel(edges: Edges, i: nat, inDegree: map<string, int>, next: seq<string>)
    requires Within(edges, Settled(edges, i), LevelOf(edges, i), inDegree, next)
    ensures Counters(edges, Settled(edges, i + 1), inDegree)
    ensures ElementsOf(next) == LevelOf(edges, i + 1) && Distinct(next)
  {
    hide Unmet;
    SettledGrows(edges, i);
    assert Settled(edges, i) + LevelOf(edges, i) == Settled(edges, i + 1);
    forall n | n in edges
      ensures Unmet(edges[n], Settled(edges, i)) == 0 <==> n in Settled(edges, i + 1)
      ensures Unmet(edges[n], Settled(edges, i + 1)) == 0 <==> n in Settled(edges, i + 2)
    {
      UnmetNone(edges[n], Settled(edges, i));
      UnmetNone(edges[n], Settled(edges, i + 1));
    }
    SettledAreNodes(edges, i + 2);
  }

  function Flatten(levels: seq<seq<string>>): seq<string> {
    if levels == [] then [] else Flatten(levels[..|levels| - 1]) + levels[|levels| - 1]
  }

  /** The levels so far are the first settled ones, each node once and the names of a level in order. */
  ghost predicate LevelsOk(edges: Edges, levels: seq<seq<string>>, order: seq<string>) {
    && (forall l :: 0 <= l < |levels| ==>
          Sorted(levels[l]) && Distinct(levels[l]) && levels[l] != [] && ElementsOf(levels[l]) == LevelOf(edges, l))
    && order == Flatten(levels) && Distinct(order) && ElementsOf(order) == Settled(edges, |levels|)
  }

  lemma OneMoreLevel(edges: Edges, levels: seq<seq<string>>, order: seq<string>, level: seq<string>)
    requires LevelsOk(edges, levels, order)
    requires Sorted(level) && Distinct(level) && level != [] && ElementsOf(level) == LevelOf(edges, |levels|)
    ensures LevelsOk(edges, levels + [level], order + level)
  {
    hide Settled, Before;
    assert (levels + [level])[..|levels|] == levels;
    SettledGrows(edges, |levels|);
    assert ElementsOf(order + level) == ElementsOf(order) + ElementsOf(level);
    forall i, j | 0 <= i < j < |order + level| ensures (order + level)[i] != (order + level)[j] {
      if i < |order| <= j {
        assert order[i] in ElementsOf(order) && level[j - |order|] in ElementsOf(level);
      }
    }
  }

  /** kahnSort: the nodes with no unmet dependency, level by level. Level i holds the nodes whose longest
      chain of dependencies has i steps, and the order ends when a round settles nothing new. */
  method KahnSort(edges: Edges, names: seq<string>) returns (levels: seq<seq<string>>, order: seq<string>)
    requires Distinct(names) && ElementsOf(names) == edges.Keys
    ensures LevelsOk(edges, levels, order)
    ensures Settled(edges, |levels| + 1) == Settled(edges, |levels|)
  {
    hide Unmet, Reversed, Within, LevelsOk, Counters, Settled, Distinct, KahnOk, ElementsOf, Sorted;
    var inDegree: map<string, int> := map n | n in edges :: |edges[n]|;
    var queue := FirstLevel(edges, names);
    var dependents := Reverse(edges, names);
    levels, order := [], [];
    KahnStarts(edges, inDegree, queue);
    while queue != []
      invariant KahnOk(edges, levels, order, inDegree, queue)
      decreases edges.Keys - Settled(edges, |levels|)
    {
      KahnReady(edges, levels, order, inDegree, queue);
      var lower, freed := SettleLevel(edges, dependents, Settled(edges, |levels|), queue, inDegree);
      WithinSorted(edges, Settled(edges, |levels|), ElementsOf(queue), lower, freed);
      var next := Sort(freed);
      KahnRound(edges, levels, order, inDegree, queue, lower, next);
      levels, order := levels + [queue], order + queue;
      inDegree, queue := lower, next;
    }
    KahnEnds(edges, levels, order, inDegree);
  }

  /** Between two rounds: the queue is the next level, and the counters are those of the settled nodes. */
  ghost predicate KahnOk(edges: Edges, levels: seq<seq<string>>, order: seq<string>, inDegree: map<string, int>, queue: seq<string>) {
    && LevelsOk(edges, levels, order)
    && Counters(edges, Settled(edges, |levels|), inDegree)
    && Sorted(queue) && Distinct(queue) && ElementsOf(queue) == LevelOf(edges, |levels|)
  }

  lemma KahnStarts(edges: Edges, inDegree: map<string, int>, queue: seq<string>)
    requires inDegree == map n | n in edges :: |edges[n]|
    requires Sorted(queue) && Distinct(queue) && ElementsOf(queue) == LevelOf(edges, 0)
    ensures KahnOk(edges, [], [], inDegree, queue)
  {
    hide Unmet, Sorted;
    forall n | n in edges ensures |edges[n]| == Unmet(edges[n], {}) { UnmetAll(edges[n]); }
  }

  lemma KahnReady(edges: Edges, levels: seq<seq<string>>, order: seq<string>, inDegree: map<string, int>, queue: seq<string>)
    requires KahnOk(edges, levels, order, inDegree, queue)
    ensures Counters(edges, Settled(edges, |levels|), inDegree)
    ensures Distinct(queue) && Settled(edges, |levels|) !! ElementsOf(queue)
  {
    hide Settled, ElementsOf, Distinct, Counters, LevelsOk;
  }

  lemma KahnRound(edges: Edges, levels: seq<seq<string>>, order: seq<string>, inDegree: map<string, int>, queue: seq<string>,
                  lower: map<string, int>, next: seq<string>)
    requires KahnOk(edges, levels, order, inDegree, queue) && queue != []
    requires Within(edges, Settled(edges, |levels|), ElementsOf(queue), lower, next) && Sorted(next)
    ensures KahnOk(edges, levels + [queue], order + queue, lower, next)
    ensures edges.Keys - Settled(edges, |levels| + 1) < edges.Keys - Settled(edges, |levels|)
  {
    hide Settled, Distinct, Counters, LevelsOk, Within, Sorted;
    assert queue[0] in ElementsOf(queue);
    SettledShrinksRest(edges, |levels|);
    OneMoreLevel(edges, levels, order, queue);
    QueueIsNextLevel(edges, |levels|, lower, next);
  }

  lemma KahnEnds(edges: Edges, levels: seq<seq<string>>, order: seq<string>, inDegree: map<string, int>)
    requires KahnOk(edges, levels, order, inDegree, [])
    ensures LevelsOk(edges, levels, order)
    ensures Settled(edges, |levels| + 1) == Settled(edges, |levels|)
  {
    hide Settled, Distinct, Counters, LevelsOk;
    SettledGrows(edges, |levels|);
    assert Settled(edges, |levels| + 1) == Settled(edges, |levels|) + LevelOf(edges, |levels|);
  }

  lemma SettledShrinksRest(edges: Edges, i: nat)
    requires LevelOf(edges, i) != {}
    ensures edges.Keys - Settled(edges, i + 1) < edges.Keys - Settled(edges, i)
  {
    SettledGrows(edges, i);
    SettledAreNodes(edges, i + 1);
    hide Settled;
    var n :| n in LevelOf(edges, i);
    assert n in edges.Keys - Settled(edges, i);
  }

  method FirstLevel(edges: Edges, names: seq<string>) returns (queue: seq<string>)
    requires Distinct(names) && ElementsOf(names) == edges.Keys
    ensures Sorted(queue) && Distinct(queue) && ElementsOf(queue) == LevelOf(edges, 0)
  {
    assert forall n :: n in names <==> n in ElementsOf(names);
    hide Sorted, Sort;
    var free := [];
    for i := 0 to |names|
      invariant Distinct(free) && forall n :: n in free <==> n in names[..i] && edges[n] == []
    {
      if edges[names[i]] == [] { free := free + [names[i]]; }
    }
    assert names[..|names|] == names;
    FreeFromStart(edges);
    queue := Sort(free);
    SortKeeps(free);
    SortSorts(free);
  }

  lemma FreeFromStart(edges: Edges)
    ensures LevelOf(edges, 0) == set n | n in edges && edges[n] == []
  {
    assert forall n :: n in edges && edges[n] != [] ==> edges[n][0] in edges[n];
  }

  // ---- reporting a cycle ----

  /** Each node depends on the next, and the last is the first again. */
  predicate IsCycle(edges: Edges, cycle: seq<string>) {
    |cycle| > 1 && cycle[0] == cycle[|cycle| - 1] && IsChain(edges, cycle)
  }

  lemma LeftOverHasLeftOver(edges: Edges, rounds: nat, n: string)
    requires Settled(edges, rounds + 1) == Settled(edges, rounds) && n in edges && n !in Settled(edges, rounds)
    ensures exists d :: d in edges[n] && d !in Settled(edges, rounds)
  {
  }

  /** The dependency of n that is first in the order of names among those left over. */
  ghost predicate FirstLeft(edges: Edges, visited: set<string>, n: string, d: string)
    requires n in edges
  {
    d in edges[n] && d !in visited && forall e :: e in edges[n] && e !in visited ==> !Before(e, d)
  }

  /** A chain in which every node is followed by its first dependency left over. */
  ghost predicate FollowsFirst(edges: Edges, visited: set<string>, chain: seq<string>) {
    IsChain(edges, chain) && (forall i :: 0 <= i < |chain| ==> chain[i] !in visited)
    && forall i :: 0 < i < |chain| ==> FirstLeft(edges, visited, chain[i - 1], chain[i])
  }

  /** The sorted dependencies of a node left over, scanned for the first one left over. */
  method NextLeft(edges: Edges, ghost rounds: nat, visited: set<string>, current: string) returns (dep: string)
    requires visited == Settled(edges, rounds) == Settled(edges, rounds + 1) && current in edges && current !in visited
    ensures FirstLeft(edges, visited, current, dep)
  {
    hide Settled, Sort;
    LeftOverHasLeftOver(edges, rounds, current);
    var deps := Sort(edges[current]);
    SortKeeps(edges[current]);
    SortSorts(edges[current]);
    var k := 0;
    while k < |deps| && deps[k] in visited
      invariant k <= |deps| && forall m :: 0 <= m < k ==> deps[m] in visited
    {
      k := k + 1;
    }
    assert exists d :: d in deps && d !in visited;
    dep := deps[k];
    forall e | e in edges[current] && e !in visited ensures !Before(e, dep) {
      var m :| 0 <= m < |deps| && deps[m] == e;
      BeforeTotal(e, dep);
    }
  }

  lemma ChainMore(edges: Edges, visited: set<string>, path: seq<string>, d: string)
    requires FollowsFirst(edges, visited, path) && FirstLeft(edges, visited, path[|path| - 1], d) && d in edges
    ensures FollowsFirst(edges, visited, path + [d])
  {
    var longer := path + [d];
    forall i | 0 < i < |longer| ensures longer[i] in edges[longer[i - 1]] && FirstLeft(edges, visited, longer[i - 1], longer[i]) {
      if i < |path| { assert FirstLeft(edges, visited, path[i - 1], path[i]); }
    }
  }

  lemma ChainEnd(edges: Edges, visited: set<string>, path: seq<string>, k: nat)
    requires FollowsFirst(edges, visited, path) && k < |path|
    ensures FollowsFirst(edges, visited, path[k..])
  {
    var tail := path[k..];
    forall i | 0 < i < |tail| ensures tail[i] in edges[tail[i - 1]] && FirstLeft(edges, visited, tail[i - 1], tail[i]) {
      assert FirstLeft(edges, visited, path[k + i - 1], path[k + i]);
    }
  }

  /** The cycle is where a walk from `start` along first dependencies left over ends. */
  ghost predicate WalkedTo(edges: Edges, visited: set<string>, start: string, cycle: seq<string>) {
    exists walk, i :: 0 <= i < |walk| && walk[i..] == cycle && walk[0] == start && FollowsFirst(edges, visited, walk)
  }

  /** findCycle: walks from the first node left over, in the order of names, to its first dependency left
      over, until a node repeats. The walk never meets a dead end, and what it reports is a cycle. */
  method FindCycle(edges: Edges, ghost rounds: nat, visited: set<string>, remaining: seq<string>) returns (cycle: seq<string>)
    requires Closed(edges) && visited == Settled(edges, rounds) == Settled(edges, rounds + 1)
    requires remaining != [] && forall n :: n in remaining ==> n in edges && n !in visited
    ensures Sort(remaining) != []
    ensures IsCycle(edges, cycle) && FollowsFirst(edges, visited, cycle)
    ensures WalkedTo(edges, visited, Sort(remaining)[0], cycle)
  {
    hide Settled, FirstLeft, Sort, Before;
    SortKeeps(remaining);
    var start := Sort(remaining)[0];
    var path := [start];
    while true
      invariant FollowsFirst(edges, visited, path) && Distinct(path) && path[0] == start
      decreases edges.Keys - ElementsOf(path)
    {
      var current := path[|path| - 1];
      var dep := NextLeft(edges, rounds, visited, current);
      assert dep in edges by { LeftIsNode(edges, visited, current, dep); }
      ChainMore(edges, visited, path, dep);
      if dep in path {
        var i := 0;
        while path[i] != dep
          invariant 0 <= i < |path| && dep in path[i..]
          decreases |path| - i
        {
          i := i + 1;
        }
        ChainEnd(edges, visited, path + [dep], i);
        assert (path + [dep])[i..] == path[i..] + [dep];
        return path[i..] + [dep];
      }
      assert dep in (edges.Keys - ElementsOf(path)) - (edges.Keys - ElementsOf(path + [dep]));
      path := path + [dep];
    }
  }

  lemma LeftIsNode(edges: Edges, visited: set<string>, n: string, d: string)
    requires Closed(edges) && n in edges && FirstLeft(edges, visited, n, d)
    ensures d in edges
  {
  }

  // ---- building the DAG ----

  datatype Built = Ok(levels: seq<seq<string>>, order: seq<string>) | MissingDependency | CycleDetected(cycle: seq<string>)

  lemma {:induction false} DistinctCount(s: seq<string>)
    requires Distinct(s)
    ensures |ElementsOf(s)| == |s|
  {
    if s != [] {
      var front, last := s[..|s| - 1], s[|s| - 1];
      DistinctCount(front);
      assert ElementsOf(s) == ElementsOf(front) + {last};
      assert last !in front;
    }
  }

  lemma SubsetCount(a: set<string>, b: set<string>)
    requires a <= b && |a| == |b|
    ensures a == b
  {
    assert b == a + (b - a);
  }

  /** BuildDAG succeeds exactly on the acyclic graphs whose dependencies are all registered, and otherwise
      reports a missing dependency or a cycle that is there. In the order it builds, every node comes once
      and in a later level than each of its dependencies. */
  method BuildDag(edges: Edges, names: seq<string>) returns (built: Built)
    requires Distinct(names) && ElementsOf(names) == edges.Keys
    ensures built.MissingDependency? <==> !Closed(edges)
    ensures built.Ok? <==> Closed(edges) && Acyclic(edges)
    ensures built.CycleDetected? ==> IsCycle(edges, built.cycle)
    ensures built.Ok? ==> LevelsOk(edges, built.levels, built.order) && ElementsOf(built.order) == edges.Keys
  {
    hide Acyclic, Settled, Distinct;
    if exists n :: n in edges && exists d :: d in edges[n] && d !in edges { return MissingDependency; }
    var levels, order := KahnSort(edges, names);
    AllSettledIffAcyclic(edges, |levels|);
    SettledAreNodes(edges, |levels|);
    DistinctCount(order);
    assert |edges.Keys| == |edges|;
    if |order| == |edges| {
      SubsetCount(ElementsOf(order), edges.Keys);
      return Ok(levels, order);
    }
    SomeLeft(edges, names, order);
    var remaining := [];
    for i := 0 to |names|
      invariant forall n :: n in remaining <==> n in names[..i] && n !in order
    {
      if names[i] !in order { remaining := remaining + [names[i]]; }
    }
    assert names[..|names|] == names;
    assert forall n :: n in names ==> n in ElementsOf(names);
    var cycle := FindCycle(edges, |levels|, ElementsOf(order), remaining);
    return CycleDetected(cycle);
  }

  lemma SomeLeft(edges: Edges, names: seq<string>, order: seq<string>)
    requires ElementsOf(names) == edges.Keys && ElementsOf(order) <= edges.Keys && |ElementsOf(order)| != |edges.Keys|
    ensures exists n :: n in names && n !in order
  {
    assert ElementsOf(order) != edges.Keys;
    var n :| n in edges.Keys && n !in ElementsOf(order);
    assert n in ElementsOf(names);
  }

  /** Two sorts of a graph give the same levels and the same order, whatever order its maps were ranged over in. */
  lemma {:induction false} SortIsDeterministic(edges: Edges, levels: seq<seq<string>>, order: seq<string>,
                                               levels': seq<seq<string>>, order': seq<string>)
    requires LevelsOk(edges, levels, order) && Settled(edges, |levels| + 1) == Settled(edges, |levels|)
    requires LevelsOk(edges, levels', order') && Settled(edges, |levels'| + 1) == Settled(edges, |levels'|)
    ensures levels == levels' && order == order'
  {
    hide Settled, Sorted, Distinct, Flatten;
    if |levels| < |levels'| {
      LevelIsThere(edges, levels', order', |levels|);
    }
    if |levels'| < |levels| {
      LevelIsThere(edges, levels, order, |levels'|);
    }
    assert |levels| == |levels'|;
    forall l | 0 <= l < |levels| ensures levels[l] == levels'[l] {
      forall x ensures x in levels[l] <==> x in levels'[l] {
        assert x in levels[l] <==> x in ElementsOf(levels[l]);
        assert x in levels'[l] <==> x in ElementsOf(levels'[l]);
      }
      SortedOnce(levels[l], levels'[l]);
    }
  }

  lemma LevelIsThere(edges: Edges, levels: seq<seq<string>>, order: seq<string>, l: nat)
    requires LevelsOk(edges, levels, order) && l < |levels|
    ensures Settled(edges, l + 1) != Settled(edges, l)
  {
    hide Settled, Sorted, Distinct;
    assert levels[l][0] in ElementsOf(levels[l]);
  }

  /** In a built DAG each dependency of a node sits in a strictly earlier level. */
  lemma DependenciesComeFirst(edges: Edges, levels: seq<seq<string>>, order: seq<string>, l: nat, n: string, d: string)
    requires LevelsOk(edges, levels, order) && ElementsOf(order) == edges.Keys && Closed(edges)
    requires l < |levels| && n in levels[l] && n in edges && d in edges[n]
    ensures exists m :: 0 <= m < l && d in levels[m]
  {
    assert n in ElementsOf(levels[l]);
    assert d in Settled(edges, l);
    var m := LevelIn(edges, l, d);
    assert d in ElementsOf(levels[m]);
  }
}
