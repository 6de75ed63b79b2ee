/**
What a start-up order of CRDs is: the dependsOn relation, topological orders, cycles, and the
order that always starts the least CRD whose dependencies are running. Values only; the graph
that computes it is in DependencyGraph.dfy.
*/
module DependencyOrder {
  import opened Ordering

  /** CRD name to the names in its dependsOn block. */
  type Deps = map<string, set<string>>

  function DepsOf(deps: Deps, name: string): set<string> {
    if name in deps then deps[name] else {}
  }

  /** Every declared dependency is itself an enabled CRD. */
  ghost predicate Closed(deps: Deps) {
    forall n :: n in deps ==> deps[n] <= deps.Keys
  }

  function Dependents(deps: Deps, name: string): set<string> {
    set n | n in deps && name in deps[n]
  }

  // ---------------------------------------------------------------- cycles

  /** Each name in p depends on the next one. */
  ghost predicate Chain(deps: Deps, p: seq<string>) {
    forall i :: 0 <= i < |p| - 1 ==> p[i + 1] in DepsOf(deps, p[i])
  }

  ghost predicate Cycle(deps: Deps, p: seq<string>) {
    |p| >= 2 && Chain(deps, p) && p[0] == p[|p| - 1]
  }

  ghost predicate HasCycle(deps: Deps) {
    exists p :: Cycle(deps, p)
  }

  // ---------------------------------------------------------------- orders

  /** Every name comes after all its dependencies. */
  ghost predicate Respects(deps: Deps, o: seq<string>) {
    forall i :: 0 <= i < |o| ==> DepsOf(deps, o[i]) <= Elems(o[..i])
  }

  ghost predicate Topological(deps: Deps, o: seq<string>) {
    Distinct(o) && Elems(o) == deps.Keys && Respects(deps, o)
  }

  /** Names not started yet whose dependencies all are. */
  function Ready(deps: Deps, done: set<string>): set<string> {
    set n | n in deps && n !in done && deps[n] <= done
  }

  ghost predicate IsLeast(n: string, s: set<string>) {
    n in s && forall m :: m in s ==> StringLeq(n, m)
  }

  ghost predicate Greedy(deps: Deps, o: seq<string>) {
    forall i :: 0 <= i < |o| ==> IsLeast(o[i], Ready(deps, Elems(o[..i])))
  }

  /** Dictionary order on sequences of names. */
  ghost predicate LexLeq(a: seq<string>, b: seq<string>) {
    a <= b || exists k :: 0 <= k < |a| && k < |b| && a[..k] == b[..k] && StringLess(a[k], b[k])
  }

  ghost predicate LeastTopological(deps: Deps, o: seq<string>) {
    Topological(deps, o) && forall t :: Topological(deps, t) ==> LexLeq(o, t)
  }

  lemma ExtendOrder(deps: Deps, o: seq<string>, n: string)
    requires Distinct(o) && Respects(deps, o)
    requires n !in o && DepsOf(deps, n) <= Elems(o)
    ensures Distinct(o + [n]) && Respects(deps, o + [n])
    ensures Elems(o + [n]) == Elems(o) + {n}
  {
    var p := o + [n];
    forall i | 0 <= i < |p| ensures DepsOf(deps, p[i]) <= Elems(p[..i]) {
      assert p[..i] == o[..i];
    }
  }

  lemma ExtendGreedy(deps: Deps, o: seq<string>, n: string)
    requires Greedy(deps, o) && IsLeast(n, Ready(deps, Elems(o)))
    ensures Greedy(deps, o + [n])
  {
    var p := o + [n];
    forall i | 0 <= i < |p| ensures IsLeast(p[i], Ready(deps, Elems(p[..i]))) {
      assert p[..i] == o[..i];
      assert i == |o| ==> o[..i] == o;
    }
  }

  // ---------------------------------------------------------------- no order through a cycle

  /** Following dependencies from a name in a respected order stays strictly before it. */
  lemma {:induction false} ChainGoesBack(deps: Deps, o: seq<string>, i: nat, p: seq<string>)
    requires Respects(deps, o) && i < |o|
    requires |p| >= 2 && Chain(deps, p) && p[0] == o[i]
    ensures p[|p| - 1] in Elems(o[..i])
  {
    assert p[1] in DepsOf(deps, p[0]);
    assert p[1] in Elems(o[..i]);
    if |p| > 2 {
      var j :| 0 <= j < i && o[j] == p[1];
      ChainGoesBack(deps, o, j, p[1..]);
      assert forall x :: x in o[..j] ==> x in o[..i];
    }
  }

  lemma CyclesAvoidOrders(deps: Deps, o: seq<string>, p: seq<string>)
    requires Respects(deps, o) && Distinct(o) && Cycle(deps, p)
    ensures p[0] !in o
  {
    if p[0] in o {
      var i :| 0 <= i < |o| && o[i] == p[0];
      ChainGoesBack(deps, o, i, p);
    }
  }

  // ---------------------------------------------------------------- stuck means cyclic

  /** Follow unstarted dependencies inside `stuck` for k steps. */
  ghost function Walk(deps: Deps, stuck: set<string>, n: string, k: nat): (p: seq<string>)
    requires n in stuck
    requires forall m :: m in stuck ==> DepsOf(deps, m) * stuck != {}
    ensures |p| == k + 1 && p[0] == n && Chain(deps, p) && Elems(p) <= stuck
    decreases k
  {
    if k == 0 then [n]
    else
      var m :| m in DepsOf(deps, n) * stuck;
      [n] + Walk(deps, stuck, m, k - 1)
  }

  lemma StuckHasCycle(deps: Deps, stuck: set<string>)
    requires stuck != {}
    requires forall m :: m in stuck ==> DepsOf(deps, m) * stuck != {}
    ensures HasCycle(deps)
  {
    var n :| n in stuck;
    var p := Walk(deps, stuck, n, |stuck|);
    var i, j := Pigeonhole(p, stuck);
    var q := p[i..j + 1];
    assert Cycle(deps, q) by {
      forall k | 0 <= k < |q| - 1 ensures q[k + 1] in DepsOf(deps, q[k]) {
        assert q[k] == p[i + k] && q[k + 1] == p[i + k + 1];
      }
    }
  }

  // ---------------------------------------------------------------- main results

  /**
  An order that cannot be continued misses some name exactly when the relation has a cycle, and is
  a topological order otherwise.
  */
  lemma OrderWhenReadyRunsOut(deps: Deps, o: seq<string>)
    requires Closed(deps) && Distinct(o) && Respects(deps, o) && Elems(o) <= deps.Keys
    requires Ready(deps, Elems(o)) == {}
    ensures |o| <= |deps| && (HasCycle(deps) <==> |o| < |deps|)
    ensures !HasCycle(deps) <==> Topological(deps, o)
  {
    DistinctCardinality(o);
    SubsetCardinality(Elems(o), deps.Keys);
    var stuck := deps.Keys - Elems(o);
    if stuck != {} {
      forall m | m in stuck ensures DepsOf(deps, m) * stuck != {} {
        assert m !in Ready(deps, Elems(o));
        var d :| d in deps[m] && d !in Elems(o);
        assert d in DepsOf(deps, m) * stuck;
      }
      StuckHasCycle(deps, stuck);
      var m :| m in stuck;
    } else {
      forall m | m in deps.Keys ensures m in Elems(o) {
        assert m in Elems(o) || m in stuck;
      }
      TopologicalMeansAcyclic(deps, o);
    }
  }

  /** Without cycles there is a topological order. */
  lemma SomeTopological(deps: Deps) returns (o: seq<string>)
    requires Closed(deps) && !HasCycle(deps)
    ensures Topological(deps, o)
  {
    o := [];
    while Ready(deps, Elems(o)) != {}
      invariant Distinct(o) && Respects(deps, o) && Elems(o) <= deps.Keys
      decreases |deps.Keys - Elems(o)|
    {
      var n :| n in Ready(deps, Elems(o));
      ExtendOrder(deps, o, n);
      assert deps.Keys - Elems(o + [n]) == deps.Keys - Elems(o) - {n};
      o := o + [n];
    }
    OrderWhenReadyRunsOut(deps, o);
  }

  lemma TopologicalMeansAcyclic(deps: Deps, o: seq<string>)
    requires Topological(deps, o)
    ensures !HasCycle(deps)
  {
    if p :| Cycle(deps, p) {
      assert p[1] in DepsOf(deps, p[0]);
      assert p[0] in Elems(o);
      CyclesAvoidOrders(deps, o, p);
    }
  }

  lemma {:induction false} FirstDifference(a: seq<string>, b: seq<string>) returns (k: nat)
    requires |a| == |b|
    ensures k <= |a| && a[..k] == b[..k] && (k < |a| ==> a[k] != b[k])
  {
    k := 0;
    while k < |a| && a[k] == b[k]
      invariant k <= |a| && a[..k] == b[..k]
    {
      assert a[..k + 1] == a[..k] + [a[k]] && b[..k + 1] == b[..k] + [b[k]];
      k := k + 1;
    }
  }

  /** In a topological order each name is ready when its turn comes. */
  lemma NextIsReady(deps: Deps, t: seq<string>, k: nat)
    requires Topological(deps, t) && k < |t|
    ensures t[k] in Ready(deps, Elems(t[..k]))
  {
    hide Elems;
    assert DepsOf(deps, t[k]) <= Elems(t[..k]);
    ElemsStep(t, k);
    InTheOrder(deps, t, k);
  }

  lemma InTheOrder(deps: Deps, t: seq<string>, k: nat)
    requires Topological(deps, t) && k < |t|
    ensures t[k] in deps
  {
    hide Respects;
    assert t[k] in Elems(t);
  }

  lemma GreedyAt(deps: Deps, o: seq<string>, k: nat, m: string)
    requires Greedy(deps, o) && k < |o| && m in Ready(deps, Elems(o[..k]))
    ensures StringLeq(o[k], m)
  {
    hide Ready, Elems, StringLeq;
    assert IsLeast(o[k], Ready(deps, Elems(o[..k])));
  }

  lemma LexAt(a: seq<string>, b: seq<string>, k: nat)
    requires k < |a| && k < |b| && a[..k] == b[..k] && StringLeq(a[k], b[k]) && a[k] != b[k]
    ensures LexLeq(a, b)
  {
    hide StringLess;
  }

  lemma SameLength(deps: Deps, o: seq<string>, t: seq<string>)
    requires Topological(deps, o) && Topological(deps, t)
    ensures |o| == |t|
  {
    hide Respects;
    DistinctCardinality(o);
    DistinctCardinality(t);
  }

  lemma GreedyIsFirst(deps: Deps, o: seq<string>, t: seq<string>)
    requires Topological(deps, o) && Greedy(deps, o) && Topological(deps, t)
    ensures LexLeq(o, t)
  {
    hide *;
    SameLength(deps, o, t);
    var k := FirstDifference(o, t);
    if k < |o| {
      NextIsReady(deps, t, k);
      GreedyAt(deps, o, k, t[k]);
      LexAt(o, t, k);
    } else {
      assert o == o[..k] && t == t[..k];
      LexReflexive(o);
    }
  }

  lemma LexReflexive(a: seq<string>)
    ensures LexLeq(a, a)
  {
  }

  /** Always starting the least ready name gives the least of all topological orders. */
  lemma GreedyIsLeast(deps: Deps, o: seq<string>)
    requires Topological(deps, o) && Greedy(deps, o)
    ensures LeastTopological(deps, o)
  {
    hide Topological, Greedy, LexLeq;
    forall t | Topological(deps, t) ensures LexLeq(o, t) {
      GreedyIsFirst(deps, o, t);
    }
  }

  lemma LexAntisymmetric(a: seq<string>, b: seq<string>)
    requires |a| == |b| && LexLeq(a, b) && LexLeq(b, a)
    ensures a == b
  {
    if a != b {
      var i :| 0 <= i < |a| && a[..i] == b[..i] && StringLess(a[i], b[i]);
      var j :| 0 <= j < |a| && b[..j] == a[..j] && StringLess(b[j], a[j]);
      StringLessTrichotomy(a[i], b[i]);
      StringLessTrichotomy(b[j], a[j]);
      if i < j {
        PrefixAgrees(a, b, j, i);
      } else if j < i {
        PrefixAgrees(a, b, i, j);
      }
    }
  }

  lemma PrefixAgrees(a: seq<string>, b: seq<string>, n: nat, i: nat)
    requires i < n <= |a| && n <= |b| && a[..n] == b[..n]
    ensures a[i] == b[i]
  {
    assert a[..n][i] == b[..n][i];
  }

  /** There is only one least topological order, whatever order the maps were iterated in. */
  lemma LeastTopologicalUnique(deps: Deps, a: seq<string>, b: seq<string>)
    requires LeastTopological(deps, a) && LeastTopological(deps, b)
    ensures a == b
  {
    DistinctCardinality(a);
    DistinctCardinality(b);
    assert LexLeq(a, b) && LexLeq(b, a);
    LexAntisymmetric(a, b);
  }

  // ---------------------------------------------------------------- counting edges

  ghost function Edges(deps: Deps): set<(string, string)> {
    set d, n | n in deps && d in deps[n] :: (d, n)
  }

  ghost function SumOver(names: set<string>, f: string -> nat): nat {
    if names == {} then 0
    else
      var n := Pick(names);
      f(n) + SumOver(names - {n}, f)
  }

  ghost function Pick(names: set<string>): (n: string)
    requires names != {}
    ensures n in names
  {
    var n :| n in names; n
  }

  ghost function EdgesAt(edges: set<(string, string)>, end: ((string, string)) -> string,
      n: string): set<(string, string)> {
    set e | e in edges && end(e) == n
  }

  lemma WithoutOneEnd(edges: set<(string, string)>, end: ((string, string)) -> string, n: string, m: string)
    requires m != n
    ensures EdgesAt(edges - EdgesAt(edges, end, n), end, m) == EdgesAt(edges, end, m)
  {
  }

  /** Edges counted by one of their ends. */
  lemma {:induction false} SumPartition(names: set<string>, f: string -> nat, end: ((string, string)) -> string,
      edges: set<(string, string)>)
    requires forall e :: e in edges ==> end(e) in names
    requires forall n :: n in names ==> f(n) == |EdgesAt(edges, end, n)|
    ensures SumOver(names, f) == |edges|
    decreases |names|
  {
    if names == {} {
      assert edges == {};
    } else {
      var n := Pick(names);
      var here := EdgesAt(edges, end, n);
      var rest := edges - here;
      forall m | m in names - {n} ensures f(m) == |EdgesAt(rest, end, m)| {
        WithoutOneEnd(edges, end, n, m);
      }
      SumPartition(names - {n}, f, end, rest);
      assert here + rest == edges && here !! rest;
    }
  }

  lemma {:induction false} SameCardinality<A, B>(a: set<A>, b: set<B>, f: A -> B)
    requires forall x, y :: x in a && y in a && f(x) == f(y) ==> x == y
    requires b == set x | x in a :: f(x)
    ensures |a| == |b|
    decreases |a|
  {
    if x :| x in a {
      var a', b' := a - {x}, b - {f(x)};
      assert b' == set y | y in a' :: f(y);
      SameCardinality(a', b', f);
    }
  }

  function Dependent(e: (string, string)): string {
    e.1
  }

  function Dependency(e: (string, string)): string {
    e.0
  }

  lemma EdgesInto(deps: Deps, n: string)
    requires n in deps
    ensures |DepsOf(deps, n)| == |EdgesAt(Edges(deps), Dependent, n)|
  {
    SameCardinality(deps[n], EdgesAt(Edges(deps), Dependent, n), d => (d, n));
  }

  lemma EdgesFrom(deps: Deps, n: string)
    requires n in deps
    ensures |Dependents(deps, n)| == |EdgesAt(Edges(deps), Dependency, n)|
  {
    var out := EdgesAt(Edges(deps), Dependency, n);
    forall m | m in Dependents(deps, n) ensures (n, m) in out {
      assert (n, m) in Edges(deps);
    }
    assert out == set m | m in Dependents(deps, n) :: (n, m);
    SameCardinality(Dependents(deps, n), out, m => (n, m));
  }

  lemma EdgesStayInside(deps: Deps)
    requires Closed(deps)
    ensures forall e :: e in Edges(deps) ==> Dependent(e) in deps.Keys && Dependency(e) in deps.Keys
  {
  }

  lemma InDegreesAddUp(deps: Deps)
    requires Closed(deps)
    ensures SumOver(deps.Keys, n => |DepsOf(deps, n)|) == |Edges(deps)|
  {
    hide *;
    EdgesStayInside(deps);
    var degree: string -> nat := n => |DepsOf(deps, n)|;
    forall n | n in deps.Keys ensures degree(n) == |EdgesAt(Edges(deps), Dependent, n)| {
      EdgesInto(deps, n);
    }
    SumPartition(deps.Keys, degree, Dependent, Edges(deps));
  }

  lemma OutDegreesAddUp(deps: Deps)
    requires Closed(deps)
    ensures SumOver(deps.Keys, n => |Dependents(deps, n)|) == |Edges(deps)|
  {
    hide *;
    EdgesStayInside(deps);
    var degree: string -> nat := n => |Dependents(deps, n)|;
    forall n | n in deps.Keys ensures degree(n) == |EdgesAt(Edges(deps), Dependency, n)| {
      EdgesFrom(deps, n);
    }
    SumPartition(deps.Keys, degree, Dependency, Edges(deps));
  }

  /** In-degrees, out-degrees and edges all add up to the same number. */
  lemma DegreesAddUp(deps: Deps)
    requires Closed(deps)
    ensures SumOver(deps.Keys, n => |DepsOf(deps, n)|) == |Edges(deps)| ==
      SumOver(deps.Keys, n => |Dependents(deps, n)|)
  {
    hide *;
    InDegreesAddUp(deps);
    OutDegreesAddUp(deps);
  }
}
