/**
The dependency graph of a Catalog and the two algorithms that read it: the deterministic Kahn
sort that orders start-up, and the depth-first cycle check that validation runs first.
*/
module DependencyGraphs {
  import opened Ordering
  import opened DependencyOrder

  datatype GraphError =
    | MissingDependency(dependency: string, dependent: string)
    | CircularDependency

  class Node {
    const Name: string
    var InDegree: int
    var OutDegree: int

    constructor (name: string)
      ensures Name == name && InDegree == 0 && OutDegree == 0
    {
      Name, InDegree, OutDegree := name, 0, 0;
    }
  }

  class DependencyGraph {
    var nodes: map<string, Node>
    var edges: map<string, seq<string>>
    var startupOrder: seq<string>
    var computed: bool
    ghost var declared: Deps

    /** The adjacency list of name; a missing key reads as the empty list. */
    function Adjacent(name: string): seq<string>
      reads this
    {
      AdjacentIn(edges, name)
    }

    /** Everything the node objects must be for the degrees to be written independently. */
    ghost predicate NodesSeparate()
      reads this
    {
      forall a, b :: a in nodes && b in nodes && a != b ==> nodes[a] != nodes[b]
    }

    /** The graph holds exactly the dependsOn relation, and its degrees count that relation. */
    ghost predicate Represents(deps: Deps)
      reads this, nodes.Values
    {
      && NodesSeparate()
      && nodes.Keys == deps.Keys
      && Closed(deps)
      && (forall n :: n in nodes ==>
        nodes[n].Name == n && nodes[n].InDegree == |deps[n]| && nodes[n].OutDegree == |Dependents(deps, n)|)
      && ListsEdges(edges, deps)
    }

    ghost predicate Valid()
      reads this, nodes.Values
    {
      Represents(declared) && (computed ==> LeastTopological(declared, startupOrder))
    }

    constructor Empty(ghost deps: Deps)
      ensures nodes == map[] && edges == map[] && !computed && declared == deps
    {
      nodes, edges, startupOrder, computed := map[], map[], [], false;
      declared := deps;
    }

    /** How far the edge loop has come: every edge in `known`, and no other. */
    ghost predicate Building(known: Deps)
      reads this, nodes.Values
    {
      && NodesSeparate()
      && nodes.Keys == known.Keys
      && ListsEdges(edges, known)
      && (forall n :: n in nodes ==>
        nodes[n].Name == n && nodes[n].InDegree == |known[n]| && nodes[n].OutDegree == |AdjacentIn(edges, n)|)
    }

    lemma BuildingIsDone()
      requires Building(Known(declared, {})) && Closed(declared)
      ensures Represents(declared)
    {
      assert Known(declared, {}) == declared;
      forall n ensures |AdjacentIn(edges, n)| == |Dependents(declared, n)| {
        ListsCount(edges, declared, n);
      }
    }

    /** A node for each CRD, no edges yet. */
    method AddNodes(crds: Deps)
      requires nodes == map[] && edges == map[]
      modifies this`nodes
      ensures fresh(nodes.Values) && nodes.Keys == crds.Keys
      ensures Building(Known(crds, crds.Keys))
    {
      var todo := crds.Keys;
      while todo != {}
        invariant todo <= crds.Keys && nodes.Keys == crds.Keys - todo
        invariant fresh(nodes.Values) && NodesSeparate()
        invariant forall n :: n in nodes ==> nodes[n].Name == n && nodes[n].InDegree == 0 && nodes[n].OutDegree == 0
      {
        var name :| name in todo;
        var node := new Node(name);
        ghost var before := nodes.Values;
        nodes := nodes[name := node];
        assert nodes.Values <= before + {node};
        todo := todo - {name};
      }
    }

    /** The edges into name, one for each of its dependencies; stops at one that is not a node. */
    method AddDependencies(name: string, dependsOn: set<string>, ghost known: Deps) returns (missing: Option<string>)
      requires Building(known) && known.Keys == nodes.Keys && name in nodes && known[name] == {}
      modifies this`edges, nodes.Values
      ensures missing.Some? ==> missing.value in dependsOn - nodes.Keys
      ensures missing.None? ==> dependsOn <= nodes.Keys && Building(known[name := dependsOn])
    {
      hide Building;
      var pending := dependsOn;
      assert dependsOn - pending == {} && known[name := {}] == known;
      while pending != {}
        invariant pending <= dependsOn && dependsOn - pending <= nodes.Keys
        invariant Building(known[name := dependsOn - pending])
      {
        var dep :| dep in pending;
        if dep !in nodes {
          return Some(dep);
        }
        ghost var sofar := known[name := dependsOn - pending];
        AddEdge(dep, name, sofar);
        pending := pending - {dep};
        assert dependsOn - pending == sofar[name] + {dep};
        assert sofar[name := dependsOn - pending] == known[name := dependsOn - pending];
      }
      assert dependsOn - {} == dependsOn;
      missing := None;
    }

    /** One edge dep → name, with both degrees. */
    method AddEdge(dep: string, name: string, ghost known: Deps)
      requires Building(known) && name in nodes && dep in nodes && dep !in known[name]
      modifies this`edges, nodes.Values
      ensures Building(known[name := known[name] + {dep}])
    {
      ListsStep(edges, known, dep, name);
      edges := edges[dep := Adjacent(dep) + [name]];
      nodes[name].InDegree := nodes[name].InDegree + 1;
      nodes[dep].OutDegree := nodes[dep].OutDegree + 1;
    }

    /** All edges dep → dependent. */
    method AddEdges(crds: Deps) returns (missing: Option<GraphError>)
      requires Building(Known(crds, crds.Keys)) && nodes.Keys == crds.Keys && crds == declared
      modifies this`edges, nodes.Values
      ensures missing.None? ==> Represents(crds)
      ensures missing.Some? ==> missing.value.MissingDependency? && missing.value.dependent in crds
                                && missing.value.dependency in crds[missing.value.dependent] - crds.Keys
    {
      hide Building, Represents, Known;
      var todo := crds.Keys;
      while todo != {}
        invariant todo <= crds.Keys
        invariant Building(Known(crds, todo))
        invariant forall n :: n in crds.Keys - todo ==> crds[n] <= crds.Keys
      {
        var name :| name in todo;
        KnownStep(crds, todo, name);
        var dep := AddDependencies(name, crds[name], Known(crds, todo));
        if dep.Some? {
          return Some(MissingDependency(dep.value, name));
        }
        todo := todo - {name};
      }
      BuildingIsDone();
      missing := None;
    }

    /**
    The start-up order, computed once. Success is the least of all topological orders; Failure is
    the program exit, and it happens exactly when the dependsOn relation has a cycle.
    */
    method StartupOrder() returns (r: Result<seq<string>, GraphError>)
      requires Valid()
      modifies this`startupOrder, this`computed
      ensures r.Success? <==> !HasCycle(declared)
      ensures r.Success? ==> LeastTopological(declared, r.value)
      ensures r.Success? ==> Valid() && computed && startupOrder == r.value
      ensures r.Failure? ==> r.error == CircularDependency && unchanged(this)
    {
      if computed {
        TopologicalMeansAcyclic(declared, startupOrder);
        return Success(startupOrder);
      }
      var order := Kahn();
      OrderWhenReadyRunsOut(declared, order);
      assert |nodes| == |nodes.Keys| == |declared.Keys| == |declared|;
      if |order| != |nodes| {
        return Failure(CircularDependency);
      }
      GreedyIsLeast(declared, order);
      startupOrder, computed := order, true;
      r := Success(startupOrder);
    }

    /** The start-up order backwards: nothing stops before everything that depends on it has. */
    method ShutdownOrder() returns (r: Result<seq<string>, GraphError>)
      requires Valid()
      modifies this`startupOrder, this`computed
      ensures r.Success? <==> !HasCycle(declared)
      ensures r.Success? ==> LeastTopological(declared, Mirror(r.value)) && StopsDependentsFirst(declared, r.value)
      ensures r.Success? ==> Valid()
    {
      var startup := StartupOrder();
      if startup.Failure? {
        return startup;
      }
      var order := Reversed(startup.value);
      MirrorTwice(startup.value);
      MirrorStopsDependentsFirst(declared, startup.value);
      r := Success(order);
    }

    /**
    Collects the keys of the edge map whose list holds name. An edge runs from a dependency to its
    dependent, so despite the method's name these are the CRDs that `name` depends on.
    */
    method GetDependents(name: string) returns (r: seq<string>)
      requires Represents(declared)
      ensures Distinct(r) && Elems(r) == DepsOf(declared, name)
    {
      r := [];
      var todo := edges.Keys;
      while todo != {}
        invariant todo <= edges.Keys && Distinct(r)
        invariant forall d :: d in r <==> d in edges.Keys - todo && name in edges[d]
      {
        var dep :| dep in todo;
        var deps := edges[dep];
        ghost var before := r;
        assert Distinct(AdjacentIn(edges, dep));
        for k := 0 to |deps|
          invariant r == before + if name in deps[..k] then [dep] else []
        {
          if deps[k] == name {
            r := r + [dep];
          }
        }
        assert deps[..|deps|] == deps;
        todo := todo - {dep};
      }
      forall d ensures d in r <==> d in DepsOf(declared, name) {
        assert name in Elems(AdjacentIn(edges, d)) <==> name in Dependents(declared, d);
      }
    }

    /** The list of one key of the edge map: the CRDs that depend on `name`, again against the name. */
    method GetDependencies(name: string) returns (r: seq<string>)
      requires Represents(declared)
      ensures Distinct(r) && Elems(r) == Dependents(declared, name)
    {
      r := Adjacent(name);
      assert ListsEdges(edges, declared);
    }

    method CopyInDegrees() returns (indegree: map<string, int>)
      requires Represents(declared)
      ensures Remaining(declared, {}, indegree)
      ensures Ready(declared, {}) == set n | n in indegree && indegree[n] == 0
    {
      indegree := map n | n in nodes :: nodes[n].InDegree;
      NothingStarted(declared, indegree);
      ReadyAtFirst(declared, indegree);
    }

    /** The names Kahn's loop emits before its queue runs empty. */
    method Kahn() returns (order: seq<string>)
      requires Represents(declared) && ListsEdges(edges, declared)
      ensures Distinct(order) && Elems(order) <= declared.Keys
      ensures Respects(declared, order) && Greedy(declared, order)
      ensures Ready(declared, Elems(order)) == {}
    {
      hide *;
      var indegree := CopyInDegrees();
      var queue := ZeroInDegree(indegree);
      order := [];
      EmptyOrder(declared);
      while |queue| > 0
        invariant Elems(order) <= declared.Keys && Distinct(order)
        invariant Respects(declared, order) && Greedy(declared, order)
        invariant Remaining(declared, Elems(order), indegree) && ListsEdges(edges, declared)
        invariant Distinct(queue) && SortedBy(StringLeq, queue)
        invariant Elems(queue) == Ready(declared, Elems(order))
        decreases |declared| - |order|
      {
        var current := queue[0];
        KahnStep(declared, order, queue);
        ReadyIsDeclared(declared, Elems(order));
        RoomLeft(declared, order, current);
        StartedIsClosed(declared, order);
        PopHead(queue);
        indegree, queue := Start(current, order, indegree, queue[1..]);
        order := order + [current];
      }
    }

    /** One round of the loop: start `current`, release its dependents, keep the queue sorted. */
    method Start(current: string, ghost order: seq<string>, indegree: map<string, int>, rest: seq<string>)
      returns (indegree': map<string, int>, queue: seq<string>)
      requires ListsEdges(edges, declared) && current in Ready(declared, Elems(order))
      requires forall n :: n in Elems(order) ==> DepsOf(declared, n) <= Elems(order)
      requires Remaining(declared, Elems(order), indegree)
      requires Distinct(rest) && Elems(rest) == Ready(declared, Elems(order)) - {current}
      ensures Remaining(declared, Elems(order) + {current}, indegree')
      ensures Distinct(queue) && Elems(queue) == Ready(declared, Elems(order) + {current})
      ensures SortedBy(StringLeq, queue)
    {
      var neighbors := Sort(StringLeq, Adjacent(current));
      NeighborsAreDependents(edges, declared, current);
      indegree', queue := Release(declared, Elems(order), current, neighbors, indegree, rest);
      SortKeepsElements(StringLeq, queue);
      StringsAreTotallyOrdered();
      queue := Sort(StringLeq, queue);
    }
  }

  // ---------------------------------------------------------------- Kahn's algorithm

  /** The in-degree copy counts the dependencies that have not been started. */
  ghost predicate Remaining(deps: Deps, done: set<string>, indegree: map<string, int>) {
    indegree.Keys == deps.Keys && forall n :: n in deps ==> indegree[n] == |deps[n] - done|
  }

  lemma RemoveOne(s: set<string>, done: set<string>, x: string)
    ensures x !in done && x in s ==> |s - (done + {x})| == |s - done| - 1
    ensures x !in s ==> s - (done + {x}) == s - done
  {
    if x !in done && x in s {
      assert s - done == s - (done + {x}) + {x};
    }
  }

  /** The keys of a map, in any order, then sorted. */
  method SortedNames(indegree: map<string, int>) returns (names: seq<string>)
    ensures Distinct(names) && Elems(names) == indegree.Keys && SortedBy(StringLeq, names)
  {
    names := [];
    var todo := indegree.Keys;
    while todo != {}
      invariant todo <= indegree.Keys
      invariant Distinct(names) && Elems(names) == indegree.Keys - todo
    {
      var name :| name in todo;
      assert name !in Elems(names) && Elems(names + [name]) == Elems(names) + {name};
      names := names + [name];
      todo := todo - {name};
    }
    SortKeepsElements(StringLeq, names);
    StringsAreTotallyOrdered();
    names := Sort(StringLeq, names);
  }

  /** A later name keeps a sorted selection sorted. */
  lemma SelectionStep(names: seq<string>, i: nat, queue: seq<string>)
    requires Distinct(names) && SortedBy(StringLeq, names) && i < |names|
    requires Distinct(queue) && SortedBy(StringLeq, queue) && Elems(queue) <= Elems(names[..i])
    ensures Distinct(queue + [names[i]]) && SortedBy(StringLeq, queue + [names[i]])
    ensures Elems(queue + [names[i]]) == Elems(queue) + {names[i]}
  {
    forall m | m in queue ensures StringLeq(m, names[i]) && m != names[i] {
      assert m in Elems(queue);
      assert m in names[..i];
      var j :| 0 <= j < i && names[j] == m;
    }
    var longer := queue + [names[i]];
    forall k, l | 0 <= k < l < |longer| ensures StringLeq(longer[k], longer[l]) && longer[k] != longer[l] {
      assert longer[k] == queue[k] && queue[k] in queue;
    }
  }

  /** The names that start with nothing to wait for, in sorted order. */
  method ZeroInDegree(indegree: map<string, int>) returns (queue: seq<string>)
    ensures Distinct(queue) && SortedBy(StringLeq, queue)
    ensures Elems(queue) == set n | n in indegree && indegree[n] == 0
  {
    var names := SortedNames(indegree);
    hide Distinct, SortedBy, Elems;
    queue := [];
    NothingSelected(names);
    ElemsOfPrefixes(names);
    for i := 0 to |names|
      invariant Distinct(queue) && SortedBy(StringLeq, queue)
      invariant Elems(queue) == set n | n in Elems(names[..i]) && n in indegree && indegree[n] == 0
    {
      ElemsStep(names, i);
      if indegree[names[i]] == 0 {
        SelectionStep(names, i, queue);
        queue := queue + [names[i]];
      }
    }
  }

  lemma NothingSelected(names: seq<string>)
    ensures Distinct<string>([]) && SortedBy(StringLeq, []) && Elems<string>([]) == {}
  {
  }

  lemma NothingStarted(deps: Deps, indegree: map<string, int>)
    requires indegree.Keys == deps.Keys && forall n :: n in deps ==> indegree[n] == |deps[n]|
    ensures Remaining(deps, {}, indegree)
  {
    forall n | n in deps ensures deps[n] - {} == deps[n] {
    }
  }

  lemma ReadyAtFirst(deps: Deps, indegree: map<string, int>)
    requires indegree.Keys == deps.Keys && forall n :: n in deps ==> indegree[n] == |deps[n]|
    ensures Ready(deps, {}) == set n | n in indegree && indegree[n] == 0
  {
    forall n | n in deps ensures n in Ready(deps, {}) <==> indegree[n] == 0 {
      assert |deps[n]| == 0 <==> deps[n] == {};
    }
  }

  lemma EmptyOrder(deps: Deps)
    ensures Elems<string>([]) == {} && Distinct<string>([]) && Respects(deps, []) && Greedy(deps, [])
  {
  }

  /** The head of a sorted queue of ready names extends the greedy order. */
  lemma KahnStep(deps: Deps, order: seq<string>, queue: seq<string>)
    requires Distinct(order) && Respects(deps, order) && Greedy(deps, order) && Elems(order) <= deps.Keys
    requires queue != [] && SortedBy(StringLeq, queue) && Elems(queue) == Ready(deps, Elems(order))
    ensures var current, order' := queue[0], order + [queue[0]];
      && current in Ready(deps, Elems(order))
      && Distinct(order') && Respects(deps, order') && Greedy(deps, order')
      && Elems(order') == Elems(order) + {current}
  {
    var current := queue[0];
    assert current in Elems(queue);
    forall m | m in Ready(deps, Elems(order)) ensures StringLeq(current, m) {
      assert m in Elems(queue);
      var i :| 0 <= i < |queue| && queue[i] == m;
    }
    ExtendOrder(deps, order, current);
    ExtendGreedy(deps, order, current);
  }

  lemma ReadyIsDeclared(deps: Deps, done: set<string>)
    ensures Ready(deps, done) <= deps.Keys - done
  {
  }

  lemma RoomLeft(deps: Deps, order: seq<string>, next: string)
    requires Distinct(order + [next]) && Elems(order + [next]) <= deps.Keys
    ensures |order| < |deps|
  {
    DistinctCardinality(order + [next]);
    SubsetCardinality(Elems(order + [next]), deps.Keys);
  }

  lemma PopHead(queue: seq<string>)
    requires queue != [] && Distinct(queue)
    ensures Distinct(queue[1..]) && Elems(queue[1..]) == Elems(queue) - {queue[0]}
  {
    assert queue == [queue[0]] + queue[1..];
  }

  lemma StartedIsClosed(deps: Deps, order: seq<string>)
    requires Respects(deps, order)
    ensures forall n :: n in Elems(order) ==> DepsOf(deps, n) <= Elems(order)
  {
    forall n | n in Elems(order) ensures DepsOf(deps, n) <= Elems(order) {
      var i :| 0 <= i < |order| && order[i] == n;
      assert forall d :: d in order[..i] ==> d in order;
    }
  }

  lemma NeighborsAreDependents(edges: map<string, seq<string>>, deps: Deps, name: string)
    requires ListsEdges(edges, deps)
    ensures var neighbors := Sort(StringLeq, AdjacentIn(edges, name));
      Distinct(neighbors) && Elems(neighbors) == Dependents(deps, name)
  {
    SortKeepsElements(StringLeq, AdjacentIn(edges, name));
    assert Distinct(AdjacentIn(edges, name));
  }

  /** Half-way through the dependents of `current`: those in `released` have seen it start. */
  ghost predicate Releasing(deps: Deps, done: set<string>, current: string, released: set<string>,
      indegree: map<string, int>, queue: seq<string>)
  {
    && indegree.Keys == deps.Keys
    && (forall n :: n in deps ==> indegree[n] == |deps[n] - if n in released then done + {current} else done|)
    && Distinct(queue)
    && (forall n :: n in queue <==>
      n in Ready(deps, done) - {current} || (n in released && DepsOf(deps, n) <= done + {current}))
  }

  lemma ReleaseBegins(deps: Deps, done: set<string>, current: string, indegree: map<string, int>, queue: seq<string>)
    requires Remaining(deps, done, indegree)
    requires Distinct(queue) && Elems(queue) == Ready(deps, done) - {current}
    ensures Releasing(deps, done, current, {}, indegree, queue)
    ensures indegree.Keys == deps.Keys
  {
    assert forall n :: n in queue <==> n in Elems(queue);
  }

  /** The dependent's in-degree drops by one, and reaches zero exactly when nothing else is waited for. */
  lemma ReleaseOne(deps: Deps, done: set<string>, current: string, indegree: int, neighbor: string)
    requires current in Ready(deps, done) && neighbor in Dependents(deps, current) &&
      indegree == |deps[neighbor] - done|
    ensures indegree - 1 == |deps[neighbor] - (done + {current})|
    ensures indegree - 1 == 0 <==> DepsOf(deps, neighbor) <= done + {current}
    ensures neighbor !in Ready(deps, done)
  {
    RemoveOne(deps[neighbor], done, current);
    assert deps[neighbor] - (done + {current}) == {} <==> deps[neighbor] <= done + {current};
  }

  lemma ReleaseQueue(deps: Deps, done: set<string>, current: string, released: set<string>,
      indegree: map<string, int>, queue: seq<string>, neighbor: string)
    requires Releasing(deps, done, current, released, indegree, queue)
    requires neighbor !in released && neighbor !in Ready(deps, done)
    ensures var queue' := if DepsOf(deps, neighbor) <= done + {current} then queue + [neighbor] else queue;
      && Distinct(queue')
      && forall n :: n in queue' <==>
        n in Ready(deps, done) - {current} || (n in released + {neighbor} && DepsOf(deps, n) <= done + {current})
  {
    hide Ready, DepsOf;
  }

  lemma ReleaseStep(deps: Deps, done: set<string>, current: string, released: set<string>, indegree: map<string, int>,
      queue: seq<string>, neighbor: string)
    requires Releasing(deps, done, current, released, indegree, queue)
    requires current in Ready(deps, done) && neighbor in Dependents(deps, current) - released
    ensures neighbor in indegree
    ensures var indegree' := indegree[neighbor := indegree[neighbor] - 1];
      Releasing(deps, done, current, released + {neighbor}, indegree',
                if indegree'[neighbor] == 0 then queue + [neighbor] else queue)
  {
    hide Ready, DepsOf, Distinct;
    IsDependent(deps, current, neighbor);
    ReleaseOne(deps, done, current, indegree[neighbor], neighbor);
    ReleaseQueue(deps, done, current, released, indegree, queue, neighbor);
  }

  lemma IsDependent(deps: Deps, current: string, neighbor: string)
    requires neighbor in Dependents(deps, current)
    ensures neighbor in deps && current in deps[neighbor]
  {
  }

  lemma ReleaseEnds(deps: Deps, done: set<string>, current: string, indegree: map<string, int>, queue: seq<string>)
    requires current in Ready(deps, done) && forall n :: n in done ==> DepsOf(deps, n) <= done
    requires Releasing(deps, done, current, Dependents(deps, current), indegree, queue)
    ensures Remaining(deps, done + {current}, indegree)
    ensures Distinct(queue) && Elems(queue) == Ready(deps, done + {current})
  {
    hide Ready, DepsOf, Distinct;
    forall n | n in deps ensures indegree[n] == |deps[n] - (done + {current})| {
      RemoveOne(deps[n], done, current);
    }
    NewlyReady(deps, done, current);
    assert forall n :: n in queue <==> n in Ready(deps, done + {current});
  }

  /** Starting `current` lowers the in-degree of its dependents and queues those that reach zero. */
  method Release(ghost deps: Deps, ghost done: set<string>, ghost current: string, neighbors: seq<string>,
      indegree: map<string, int>, queue: seq<string>)
    returns (indegree': map<string, int>, queue': seq<string>)
    requires Remaining(deps, done, indegree)
    requires current in Ready(deps, done) && forall n :: n in done ==> DepsOf(deps, n) <= done
    requires Distinct(neighbors) && Elems(neighbors) == Dependents(deps, current)
    requires Distinct(queue) && Elems(queue) == Ready(deps, done) - {current}
    ensures Remaining(deps, done + {current}, indegree')
    ensures Distinct(queue') && Elems(queue') == Ready(deps, done + {current})
  {
    indegree', queue' := indegree, queue;
    hide *;
    ReleaseBegins(deps, done, current, indegree, queue);
    ElemsOfPrefixes(neighbors);
    for k := 0 to |neighbors|
      invariant indegree'.Keys == deps.Keys
      invariant Releasing(deps, done, current, Elems(neighbors[..k]), indegree', queue')
    {
      var neighbor := neighbors[k];
      ElemsStep(neighbors, k);
      ReleaseStep(deps, done, current, Elems(neighbors[..k]), indegree', queue', neighbor);
      indegree' := indegree'[neighbor := indegree'[neighbor] - 1];
      if indegree'[neighbor] == 0 {
        queue' := queue' + [neighbor];
      }
    }
    ReleaseEnds(deps, done, current, indegree', queue');
  }

  lemma NewlyReady(deps: Deps, done: set<string>, current: string)
    requires current in Ready(deps, done) && forall n :: n in done ==> DepsOf(deps, n) <= done
    ensures Ready(deps, done + {current})
      == Ready(deps, done) - {current}
       + set n | n in Dependents(deps, current) && DepsOf(deps, n) <= done + {current}
  {
    var done' := done + {current};
    forall n | n in Ready(deps, done') && n !in Dependents(deps, current) ensures n in Ready(deps, done) {
      assert current !in deps[n];
    }
    forall n | n in Dependents(deps, current) ensures n !in done {
      assert current in DepsOf(deps, n);
    }
  }

  // ---------------------------------------------------------------- shutting down

  ghost function Mirror<T>(s: seq<T>): (r: seq<T>) {
    seq(|s|, i requires 0 <= i < |s| => s[|s| - 1 - i])
  }

  lemma MirrorTwice<T>(s: seq<T>)
    ensures Mirror(Mirror(s)) == s
  {
  }

  ghost predicate StopsDependentsFirst(deps: Deps, o: seq<string>) {
    && Distinct(o)
    && Elems(o) == deps.Keys
    && forall i :: 0 <= i < |o| ==> Dependents(deps, o[i]) <= Elems(o[..i])
  }

  lemma MirrorElements(o: seq<string>)
    ensures Elems(Mirror(o)) == Elems(o) && (Distinct(o) ==> Distinct(Mirror(o)))
  {
    var m := Mirror(o);
    forall x ensures x in m <==> x in o {
      assert x in o ==> exists i :: 0 <= i < |o| && o[i] == x && m[|o| - 1 - i] == x;
    }
  }

  lemma MirrorStopsDependentsFirst(deps: Deps, o: seq<string>)
    requires Topological(deps, o)
    ensures StopsDependentsFirst(deps, Mirror(o))
  {
    var m := Mirror(o);
    MirrorElements(o);
    forall i, n | 0 <= i < |m| && n in Dependents(deps, m[i]) ensures n in Elems(m[..i]) {
      assert n in Elems(o);
      var j :| 0 <= j < |o| && o[j] == n;
      assert m[i] in DepsOf(deps, o[j]);
      var k :| 0 <= k < j && o[k] == m[i];
      assert k == |o| - 1 - i;
      assert m[..i][|o| - 1 - j] == n;
    }
  }

  ghost predicate NoDependencies(deps: Deps) {
    forall n :: n in deps ==> deps[n] == {}
  }

  /** The reversed order is dependency-safe only when there is nothing to respect. */
  lemma MirrorRespectsIff(deps: Deps, o: seq<string>)
    requires Topological(deps, o)
    ensures Respects(deps, Mirror(o)) <==> NoDependencies(deps)
  {
    var m := Mirror(o);
    forall n, d | n in deps && d in deps[n] ensures !Respects(deps, m) {
      assert n in Elems(o) && d in DepsOf(deps, n);
      var i :| 0 <= i < |o| && o[i] == n;
      assert d in o[..i];
      var j :| 0 <= j < i && o[j] == d;
      var at := |o| - 1 - i;
      assert m[at] == n;
      assert d !in m[..at];
    }
  }

  method Reversed<T(0)>(s: seq<T>) returns (r: seq<T>)
    ensures r == Mirror(s)
  {
    var out := new T[|s|];
    for i := 0 to |s|
      invariant forall k :: 0 <= k < i ==> out[|s| - 1 - k] == s[k]
    {
      out[|s| - 1 - i] := s[i];
    }
    r := out[..];
    forall k | 0 <= k < |s| ensures r[k] == s[|s| - 1 - k] {
      assert out[|s| - 1 - (|s| - 1 - k)] == s[|s| - 1 - k];
    }
  }

  // ---------------------------------------------------------------- adjacency lists

  function AdjacentIn(edges: map<string, seq<string>>, name: string): seq<string> {
    if name in edges then edges[name] else []
  }

  /** The adjacency lists hold each edge of deps once. */
  ghost predicate ListsEdges(edges: map<string, seq<string>>, deps: Deps) {
    forall d :: Distinct(AdjacentIn(edges, d)) && Elems(AdjacentIn(edges, d)) == Dependents(deps, d)
  }

  lemma ListsStep(edges: map<string, seq<string>>, deps: Deps, dep: string, name: string)
    requires ListsEdges(edges, deps) && name in deps && dep !in deps[name]
    ensures ListsEdges(edges[dep := AdjacentIn(edges, dep) + [name]], deps[name := deps[name] + {dep}])
  {
    var edges', deps' := edges[dep := AdjacentIn(edges, dep) + [name]], deps[name := deps[name] + {dep}];
    forall d ensures Distinct(AdjacentIn(edges', d)) && Elems(AdjacentIn(edges', d)) == Dependents(deps', d) {
      var before := AdjacentIn(edges, d);
      assert Distinct(before) && Elems(before) == Dependents(deps, d);
      if d == dep {
        assert Dependents(deps', d) == Dependents(deps, d) + {name};
        assert name !in Elems(before);
        assert Elems(before + [name]) == Elems(before) + {name};
      } else {
        assert Dependents(deps', d) == Dependents(deps, d);
      }
    }
  }

  lemma ListsCount(edges: map<string, seq<string>>, deps: Deps, name: string)
    requires ListsEdges(edges, deps)
    ensures |AdjacentIn(edges, name)| == |Dependents(deps, name)|
  {
    assert Distinct(AdjacentIn(edges, name));
    DistinctCardinality(AdjacentIn(edges, name));
  }

  /** The part of deps the loop over CRDs has entered, when `todo` remain. */
  ghost function Known(deps: Deps, todo: set<string>): Deps {
    map n | n in deps :: if n in todo then {} else deps[n]
  }

  lemma KnownStep(deps: Deps, todo: set<string>, name: string)
    requires name in deps && name in todo
    ensures Known(deps, todo).Keys == deps.Keys && Known(deps, todo)[name] == {}
    ensures Known(deps, todo)[name := deps[name]] == Known(deps, todo - {name})
  {
  }

  /**
  Builds the graph; a dependency on a CRD that is not enabled ends the program, here Failure.
  The loops range over maps, so they take their keys in any order.
  */
  method NewDependencyGraph(crds: Deps) returns (r: Result<DependencyGraph, GraphError>)
    ensures r.Success? <==> Closed(crds)
    ensures r.Success? ==> fresh(r.value) && fresh(r.value.nodes.Values) && r.value.Valid() && r.value.declared == crds
    ensures r.Failure? ==> r.error.MissingDependency? && r.error.dependent in crds
                           && r.error.dependency in crds[r.error.dependent] - crds.Keys
  {
    var g := new DependencyGraph.Empty(crds);
    g.AddNodes(crds);
    var missing := g.AddEdges(crds);
    if missing.Some? {
      return Failure(missing.value);
    }
    r := Success(g);
  }

  // ---------------------------------------------------------------- validation

  /** The visited and stack sets of the depth-first search. */
  class CycleDetector {
    const deps: Deps
    var visited: set<string>
    var stack: set<string>
    ghost var path: seq<string>
    ghost var finished: seq<string>

    constructor (deps: Deps)
      ensures this.deps == deps && Valid() && visited == {} && path == []
    {
      this.deps := deps;
      visited, stack, path, finished := {}, {}, [], [];
    }

    /** Every name the search can reach: the CRDs and whatever they name, known or not. */
    ghost function Universe(): set<string> {
      deps.Keys + set n, d | n in deps && d in deps[n] :: d
    }

    /** The stack is a chain of dependencies; what has left it forms an order without cycles. */
    ghost predicate Valid()
      reads this
    {
      && stack == Elems(path) && Chain(deps, path)
      && Distinct(finished) && Respects(deps, finished)
      && visited == Elems(path) + Elems(finished) && Elems(path) !! Elems(finished)
      && visited <= Universe()
    }

    /** Explores node; ok means no cycle can be reached from it, otherwise there is one. */
    method Dfs(node: string) returns (ok: bool)
      requires Valid() && node in Universe()
      requires path != [] ==> node in DepsOf(deps, path[|path| - 1])
      modifies this`visited, this`stack, this`path, this`finished
      ensures !ok ==> HasCycle(deps)
      ensures ok ==> Valid() && path == old(path) && node in Elems(finished)
      ensures ok ==> old(visited) <= visited && old(Elems(finished)) <= Elems(finished)
      decreases Universe() - visited
    {
      if node in stack {
        BackEdge(deps, path, node);
        return false;
      }
      if node in visited {
        return true;
      }
      visited := visited + {node};
      stack := stack + {node};
      PathStep(deps, path, node);
      path := path + [node];
      var todo := DepsOf(deps, node);
      while todo != {}
        invariant Valid() && path == old(path) + [node] && todo <= DepsOf(deps, node)
        invariant DepsOf(deps, node) - todo <= Elems(finished)
        invariant old(visited) + {node} <= visited && old(Elems(finished)) <= Elems(finished)
      {
        var dep :| dep in todo;
        todo := todo - {dep};
        ok := Dfs(dep);
        if !ok {
          return;
        }
      }
      stack := stack - {node};
      path := old(path);
      ExtendOrder(deps, finished, node);
      finished := finished + [node];
      ok := true;
    }
  }

  lemma BackEdge(deps: Deps, path: seq<string>, node: string)
    requires Chain(deps, path) && node in path
    requires node in DepsOf(deps, path[|path| - 1])
    ensures HasCycle(deps)
  {
    var i :| 0 <= i < |path| && path[i] == node;
    var p := path[i..] + [node];
    assert Cycle(deps, p) by {
      forall k | 0 <= k < |p| - 1 ensures p[k + 1] in DepsOf(deps, p[k]) {
        assert p[k] == path[i + k];
        assert k + 1 < |path[i..]| ==> p[k + 1] == path[i + k + 1];
      }
    }
  }

  lemma PathStep(deps: Deps, path: seq<string>, node: string)
    requires Chain(deps, path) && (path != [] ==> node in DepsOf(deps, path[|path| - 1]))
    ensures Chain(deps, path + [node]) && Elems(path + [node]) == Elems(path) + {node}
  {
  }

  /** detectDependencyCycles: the search from every CRD, in any order. */
  method DetectCycles(deps: Deps) returns (ok: bool)
    ensures ok <==> !HasCycle(deps)
  {
    var d := new CycleDetector(deps);
    var todo := deps.Keys;
    while todo != {}
      invariant fresh(d) && d.deps == deps && d.Valid() && d.path == []
      invariant todo <= deps.Keys && deps.Keys - todo <= Elems(d.finished)
    {
      var name :| name in todo;
      todo := todo - {name};
      ok := d.Dfs(name);
      if !ok {
        return;
      }
    }
    if p :| Cycle(deps, p) {
      assert p[1] in DepsOf(deps, p[0]);
      assert p[0] in Elems(d.finished);
      CyclesAvoidOrders(deps, d.finished, p);
    }
    ok := true;
  }

  /** validateDependsOn: no self-dependency, no unknown name, no cycle. */
  method ValidateDependsOn(crds: Deps) returns (ok: bool)
    ensures ok <==> Closed(crds) && !HasCycle(crds)
  {
    var todo := crds.Keys;
    while todo != {}
      invariant todo <= crds.Keys
      invariant forall n :: n in crds.Keys - todo ==> n !in crds[n] && crds[n] <= crds.Keys
    {
      var name :| name in todo;
      todo := todo - {name};
      var pending := crds[name];
      while pending != {}
        invariant pending <= crds[name]
        invariant name !in crds[name] - pending && crds[name] - pending <= crds.Keys
      {
        var dep :| dep in pending;
        pending := pending - {dep};
        if dep == name {
          assert Cycle(crds, [name, name]);
          return false;
        }
        if dep !in crds {
          return false;
        }
      }
    }
    ok := DetectCycles(crds);
  }

  /** A Catalog that passes validation always builds its graph and gets a start-up order. */
  method StartValidated(crds: Deps) returns (valid: bool, order: Result<seq<string>, GraphError>)
    ensures valid <==> order.Success?
    ensures order.Success? ==> LeastTopological(crds, order.value)
  {
    valid := ValidateDependsOn(crds);
    var graph := NewDependencyGraph(crds);
    if graph.Failure? {
      return valid, Failure(graph.error);
    }
    order := graph.value.StartupOrder();
  }

  /**
  Catalog.Order. Its documentation promises a topological sort, but it is the shutdown order: every CRD
  stands before what it depends on, so dependencies come first only where there are none.
  */
  method CatalogOrder(crds: Deps) returns (r: Result<seq<string>, GraphError>)
    ensures r.Success? <==> Closed(crds) && !HasCycle(crds)
    ensures r.Success? ==> StopsDependentsFirst(crds, r.value)
    ensures r.Success? ==> (Respects(crds, r.value) <==> NoDependencies(crds))
  {
    var graph := NewDependencyGraph(crds);
    if graph.Failure? {
      return Failure(graph.error);
    }
    r := graph.value.ShutdownOrder();
    if r.Success? {
      MirrorTwice(r.value);
      MirrorRespectsIff(crds, Mirror(r.value));
    }
  }
}
