/**
Orders in which the writes of a submitted intent can happen: the writes of one field come together,
everything else is up to the iteration of two maps. When all orders build the same tree, and when
they all fail.
*/
module RoutingOrders {
  import opened JsonValues
  import opened Ordering
  import opened FieldTrees
  import DependencyOrder

  /** The writes of one field come together, whatever order the map of fields is taken in. */
  ghost predicate Grouped(order: seq<Put>) {
    forall i, j, k :: 0 <= i < j < k < |order| && order[i].field == order[k].field ==> order[j].field == order[i].field
  }

  ghost predicate RouteOrder(order: seq<Put>, puts: set<Put>) {
    Distinct(order) && Elems(order) == puts && Grouped(order)
  }

  ghost predicate AllAgree(puts: set<Put>) {
    forall p, q :: p in puts && q in puts ==> Agree(p, q)
  }

  /** The plain sufficient condition: no path written twice, none inside another. */
  ghost predicate AllIncomparable(puts: set<Put>) {
    forall p, q :: p in puts && q in puts && p != q ==> Incomparable(p.path, q.path)
  }

  lemma IncomparableAgree(puts: set<Put>)
    requires AllIncomparable(puts)
    ensures AllAgree(puts)
  {
    forall p, q | p in puts && q in puts ensures Agree(p, q) {
      assert p == q ==> p.path[|p.path|..] == [];
    }
  }

  lemma RouteOrdersArePermutations(a: seq<Put>, b: seq<Put>, puts: set<Put>)
    requires RouteOrder(a, puts) && RouteOrder(b, puts)
    ensures multiset(a) == multiset(b)
  {
    DistinctPermutation(a, b);
  }

  ghost predicate NonEmptyPaths(puts: set<Put>) {
    forall p :: p in puts ==> p.path != []
  }

  lemma ElemsAgree(order: seq<Put>, puts: set<Put>)
    requires Elems(order) == puts
    ensures AllAgree(puts) <==> PairwiseAgree(order)
    ensures forall p :: p in puts <==> p in order
  {
    assert forall p :: p in order <==> p in Elems(order);
  }

  /** Agreeing writes build one tree in every iteration order, and each path reads back its value. */
  lemma RoutingConfluent(a: seq<Put>, b: seq<Put>, puts: set<Put>)
    requires RouteOrder(a, puts) && RouteOrder(b, puts) && AllAgree(puts) && NonEmptyPaths(puts)
    ensures PutAll(a) == PutAll(b) && PutAll(a).Some?
    ensures forall p :: p in puts ==> Lookup(PutAll(a).value, p.path) == Some(p.value)
  {
    ElemsAgree(a, puts);
    RouteOrdersArePermutations(b, a, puts);
    OrderIrrelevantIffAgree(a);
  }

  // ---------------------------------------------------------------- the exact condition

  /** The writes of one more field after those of others. */
  lemma AppendGroup(order: seq<Put>, group: seq<Put>, puts: set<Put>, field: string)
    requires RouteOrder(order, puts) && Distinct(group)
    requires (forall p :: p in puts ==> p.field != field) && (forall p :: p in group ==> p.field == field)
    ensures RouteOrder(order + group, puts + Elems(group))
  {
    assert Elems(order + group) == Elems(order) + Elems(group);
    forall p | p in order ensures p.field != field {
      assert p in Elems(order);
    }
  }

  /** Any writes can be brought into an order that keeps each field together. */
  lemma {:induction false} SomeRouteOrder(puts: set<Put>) returns (order: seq<Put>)
    ensures RouteOrder(order, puts)
    decreases |puts|
  {
    hide RouteOrder, Distinct;
    if p :| p in puts {
      var mine, others := OneField(puts, p);
      var before := SomeRouteOrder(others);
      var group := Enumerate(mine);
      assert forall q :: q in group ==> q in Elems(group);
      AppendGroup(before, group, others, p.field);
      order := before + group;
    } else {
      order := [];
      EmptyRouteOrder();
    }
  }

  lemma EmptyRouteOrder()
    ensures RouteOrder([], {})
  {
  }

  /** The writes of the field of p, and the others. */
  lemma OneField(puts: set<Put>, p: Put) returns (mine: set<Put>, others: set<Put>)
    requires p in puts
    ensures p in mine && mine + others == others + mine == puts && |others| < |puts|
    ensures (forall q :: q in mine ==> q.field == p.field) && forall q :: q in others ==> q.field != p.field
  {
    mine := set q | q in puts && q.field == p.field;
    others := puts - mine;
    assert others <= puts - {p};
    SubsetCardinality(others, puts - {p});
  }

  /** Every write comes last in some order: its field last, and the write last in its field. */
  lemma OrderEndingIn(puts: set<Put>, p: Put) returns (order: seq<Put>)
    requires p in puts
    ensures RouteOrder(order, puts) && order != [] && order[|order| - 1] == p
  {
    hide RouteOrder;
    var mine, others := OneField(puts, p);
    var before := SomeRouteOrder(others);
    var rest := Enumerate(mine - {p});
    var group := rest + [p];
    assert p !in Elems(rest) && Elems(group) == Elems(rest) + {p} == mine;
    assert forall q :: q in group ==> q in Elems(group);
    AppendGroup(before, group, others, p.field);
    order := before + group;
  }

  ghost predicate AlwaysBuilds(puts: set<Put>, t: Json) {
    forall a :: RouteOrder(a, puts) ==> PutAll(a) == Some(t)
  }

  /** If every order builds one tree, each write is in it, because it could have come last. */
  lemma LastWriteReadsBack(puts: set<Put>, t: Json, p: Put)
    requires AlwaysBuilds(puts, t) && p in puts
    ensures Lookup(t, p.path) == Some(p.value)
  {
    hide RouteOrder, Set, Lookup;
    var order := OrderEndingIn(puts, p);
    assert PutAll(order) == Some(t);
    var before := PutAll(order[..|order| - 1]);
    ReadBack(before.value, p.path, p.value);
  }

  lemma OneTreeMeansAgreement(puts: set<Put>, t: Json)
    requires AlwaysBuilds(puts, t)
    ensures AllAgree(puts)
  {
    hide AlwaysBuilds;
    forall p, q | p in puts && q in puts ensures Agree(p, q) {
      LastWriteReadsBack(puts, t, p);
      LastWriteReadsBack(puts, t, q);
      if p.path <= q.path {
        LookupBelow(t, p, q.path);
      }
      if q.path <= p.path {
        LookupBelow(t, q, p.path);
      }
    }
  }

  /** A successful order is matched by all others exactly when the writes agree, fan-out or not. */
  lemma RoutingConfluentIffAgree(a: seq<Put>, puts: set<Put>)
    requires RouteOrder(a, puts) && NonEmptyPaths(puts)
    ensures PutAll(a).Some? && (forall b :: RouteOrder(b, puts) ==> PutAll(b) == PutAll(a)) <==> AllAgree(puts)
  {
    hide RouteOrder, PutAll, AllAgree, NonEmptyPaths;
    if AllAgree(puts) {
      forall b | RouteOrder(b, puts) ensures PutAll(b) == PutAll(a) && PutAll(a).Some? {
        RoutingConfluent(a, b, puts);
      }
    } else if PutAll(a).Some? && forall b :: RouteOrder(b, puts) ==> PutAll(b) == PutAll(a) {
      OneTreeMeansAgreement(puts, PutAll(a).value);
    }
  }

  ghost predicate AlwaysFails(puts: set<Put>) {
    forall a :: RouteOrder(a, puts) ==> PutAll(a).None?
  }

  ghost predicate OrderFree(puts: set<Put>) {
    forall a, b :: RouteOrder(a, puts) && RouteOrder(b, puts) ==> PutAll(a) == PutAll(b)
  }

  // ---------------------------------------------------------------- fields that must precede one another

  function FieldsOf(puts: set<Put>): set<string> {
    set p | p in puts :: p.field
  }

  /** Field f writes strictly above a path of field g. */
  ghost predicate WritesAbove(puts: set<Put>, f: string, g: string) {
    exists p, q :: p in puts && q in puts && p.field == f && q.field == g && p.path < q.path
  }

  /** For each field the other fields that write below it, and so should come before it. */
  ghost function FieldsBelow(puts: set<Put>): DependencyOrder.Deps {
    map f | f in FieldsOf(puts) :: set g | g in FieldsOf(puts) && g != f && WritesAbove(puts, f, g)
  }

  ghost predicate AllScalar(puts: set<Put>) {
    forall p :: p in puts ==> IsScalar(p.value)
  }

  /** The writes of one field, longest path first. */
  lemma {:induction false} ByLength(puts: set<Put>) returns (order: seq<Put>)
    ensures Distinct(order) && Elems(order) == puts && Descending(order)
  {
    order := [];
    if puts != {} {
      var all := Enumerate(puts);
      assert all == [] ==> Elems(all) == {};
      var i := Shortest(all);
      var p := all[i];
      assert p in Elems(all) && forall q :: q in puts ==> q in all;
      var longer := ByLength(puts - {p});
      order := longer + [p];
      ShortestLast(longer, p, puts);
    }
  }

  lemma ShortestLast(longer: seq<Put>, p: Put, puts: set<Put>)
    requires Distinct(longer) && p in puts && Elems(longer) == puts - {p} && Descending(longer)
    requires forall q :: q in puts ==> |p.path| <= |q.path|
    ensures Distinct(longer + [p]) && Elems(longer + [p]) == puts && Descending(longer + [p])
  {
    var order := longer + [p];
    forall i, j | 0 <= i < j < |order| ensures order[i] != order[j] && !(order[i].path < order[j].path) {
      assert order[i] in Elems(longer);
      assert j < |longer| ==> order[j] in Elems(longer);
    }
    assert Elems(order) == Elems(longer) + {p};
  }

  /** The writes of these fields. */
  ghost function PutsIn(puts: set<Put>, fields: set<string>): set<Put> {
    set p | p in puts && p.field in fields
  }

  lemma DescendingAppend(order: seq<Put>, group: seq<Put>)
    requires Descending(order) && Descending(group)
    requires forall p, q :: p in order && q in group ==> !(p.path < q.path)
    ensures Descending(order + group)
  {
    var all := order + group;
    forall i, j | 0 <= i < j < |all| ensures !(all[i].path < all[j].path) {
      if i < |order| <= j {
        assert all[i] in order && all[j] in group;
      }
    }
  }

  /** A field does not write above one that comes later. */
  lemma NotAbove(puts: set<Put>, fields: seq<string>, k: nat, p: Put, q: Put)
    requires DependencyOrder.Topological(FieldsBelow(puts), fields) && k < |fields|
    requires p in puts && p.field in Elems(fields[..k]) && q in puts && q.field == fields[k]
    ensures !(p.path < q.path)
  {
    var i :| 0 <= i < k && fields[i] == p.field;
    assert fields[k] !in Elems(fields[..i]);
    assert q.field !in DependencyOrder.DepsOf(FieldsBelow(puts), fields[i]);
    assert p.field in FieldsOf(puts) && q.field in FieldsOf(puts) && p.field != q.field;
    assert !WritesAbove(puts, p.field, q.field);
  }

  /** Field by field, each longest path first: no write is strictly below an earlier one. */
  lemma {:induction false} FieldByField(puts: set<Put>, fields: seq<string>, k: nat) returns (order: seq<Put>)
    requires DependencyOrder.Topological(FieldsBelow(puts), fields) && k <= |fields|
    ensures RouteOrder(order, PutsIn(puts, Elems(fields[..k]))) && Descending(order)
  {
    hide Descending, FieldsBelow, DependencyOrder.Topological;
    if k == 0 {
      order := [];
      EmptyRouteOrder();
      NothingDescends();
      assert PutsIn(puts, Elems(fields[..0])) == {};
    } else {
      var before, mine := PutsIn(puts, Elems(fields[..k - 1])), PutsIn(puts, {fields[k - 1]});
      var first := FieldByField(puts, fields, k - 1);
      var group := ByLength(mine);
      OneMore(puts, fields, k - 1);
      assert (forall p :: p in first <==> p in Elems(first)) && forall q :: q in group <==> q in Elems(group);
      forall p, q | p in first && q in group ensures !(p.path < q.path) {
        NotAbove(puts, fields, k - 1, p, q);
      }
      AppendGroup(first, group, before, fields[k - 1]);
      DescendingAppend(first, group);
      order := first + group;
    }
  }

  lemma NothingDescends()
    ensures Descending([])
  {
  }

  lemma OneMore(puts: set<Put>, fields: seq<string>, k: nat)
    requires DependencyOrder.Topological(FieldsBelow(puts), fields) && k < |fields|
    ensures PutsIn(puts, Elems(fields[..k + 1])) == PutsIn(puts, Elems(fields[..k])) + PutsIn(puts, {fields[k]})
    ensures forall p :: p in PutsIn(puts, Elems(fields[..k])) ==> p.field != fields[k]
  {
    ElemsStep(fields, k);
  }

  /** Whatever the values: fields that do not write above one another in a circle can all be routed. */
  lemma AcyclicCanSucceed(puts: set<Put>) returns (order: seq<Put>)
    requires !DependencyOrder.HasCycle(FieldsBelow(puts))
    ensures RouteOrder(order, puts) && PutAll(order).Some?
  {
    hide RouteOrder, FieldsBelow, PutAll;
    BelowAreFields(puts);
    var fields := DependencyOrder.SomeTopological(FieldsBelow(puts));
    order := FieldByField(puts, fields, |fields|);
    assert fields[..|fields|] == fields;
    assert PutsIn(puts, Elems(fields)) == puts;
    DescendingSucceeds(order);
  }

  lemma BelowAreFields(puts: set<Put>)
    ensures DependencyOrder.Closed(FieldsBelow(puts)) && FieldsBelow(puts).Keys == FieldsOf(puts)
  {
  }

  /** In a descending order a field comes, as a whole, after the fields below it. */
  lemma BelowComesFirst(order: seq<Put>, puts: set<Put>, i: nat, j: nat)
    requires RouteOrder(order, puts) && Descending(order) && i < |order| && j < |order|
    requires order[j].field in DependencyOrder.DepsOf(FieldsBelow(puts), order[i].field)
    ensures j < i
  {
    hide RouteOrder, Descending, Grouped;
    var f, g := order[i].field, order[j].field;
    assert f != g && WritesAbove(puts, f, g);
    var p, q :| p in puts && q in puts && p.field == f && q.field == g && p.path < q.path;
    var a := PlaceOf(order, puts, p);
    var b := PlaceOf(order, puts, q);
    LowerFirst(order, a, b);
    WhollyBefore(order, puts, b, a, j, i);
  }

  lemma PlaceOf(order: seq<Put>, puts: set<Put>, p: Put) returns (k: nat)
    requires RouteOrder(order, puts) && p in puts
    ensures k < |order| && order[k] == p
  {
    hide Distinct, Grouped;
    assert p in Elems(order);
    k :| 0 <= k < |order| && order[k] == p;
  }

  lemma LowerFirst(order: seq<Put>, a: nat, b: nat)
    requires Descending(order) && a < |order| && b < |order| && order[a].path < order[b].path
    ensures b < a
  {
  }

  lemma WhollyBefore(order: seq<Put>, puts: set<Put>, b: nat, a: nat, j: nat, i: nat)
    requires RouteOrder(order, puts) && b < a < |order| && j < |order| && i < |order|
    requires order[b].field == order[j].field != order[a].field == order[i].field
    ensures j < i
  {
    hide Distinct, Elems;
  }

  /** Along a chain of fields that each write above the next, the writes go back in the order. */
  lemma {:induction false} FieldsGoBack(order: seq<Put>, puts: set<Put>, chain: seq<string>, i: nat, j: nat)
    requires RouteOrder(order, puts) && Descending(order) && i < |order| && j < |order|
    requires |chain| >= 2 && DependencyOrder.Chain(FieldsBelow(puts), chain)
    requires order[i].field == chain[0] && order[j].field == chain[|chain| - 1]
    ensures j < i
  {
    hide RouteOrder, Descending;
    var deps := FieldsBelow(puts);
    assert chain[1] in DependencyOrder.DepsOf(deps, chain[0]);
    if |chain| == 2 {
      BelowComesFirst(order, puts, i, j);
    } else {
      var k := SomeWrite(order, puts, chain[1]);
      BelowComesFirst(order, puts, i, k);
      assert forall n :: 0 <= n < |chain[1..]| - 1 ==> chain[1..][n + 1] in DependencyOrder.DepsOf(deps, chain[1..][n]);
      FieldsGoBack(order, puts, chain[1..], k, j);
    }
  }

  lemma SomeWrite(order: seq<Put>, puts: set<Put>, field: string) returns (k: nat)
    requires RouteOrder(order, puts) && field in FieldsOf(puts)
    ensures k < |order| && order[k].field == field
  {
    var p :| p in puts && p.field == field;
    k := PlaceOf(order, puts, p);
  }

  lemma CyclesFail(order: seq<Put>, puts: set<Put>)
    requires RouteOrder(order, puts) && AllScalar(puts) && DependencyOrder.HasCycle(FieldsBelow(puts))
    ensures PutAll(order).None?
  {
    hide PutAll, Descending;
    assert forall p :: p in order ==> p in Elems(order);
    ScalarsSucceedIff(order);
    if Descending(order) {
      var chain :| DependencyOrder.Cycle(FieldsBelow(puts), chain);
      assert chain[1] in DependencyOrder.DepsOf(FieldsBelow(puts), chain[0]);
      var i := SomeWrite(order, puts, chain[0]);
      FieldsGoBack(order, puts, chain, i, i);
    }
  }

  /**
  When every order fails: for writes of anything but maps, exactly when some fields write above one
  another in a circle.
  */
  lemma AlwaysFailsIff(puts: set<Put>)
    ensures AlwaysFails(puts) ==> DependencyOrder.HasCycle(FieldsBelow(puts))
    ensures AllScalar(puts) && DependencyOrder.HasCycle(FieldsBelow(puts)) ==> AlwaysFails(puts)
  {
    hide RouteOrder, PutAll, FieldsBelow, AllScalar;
    if !DependencyOrder.HasCycle(FieldsBelow(puts)) {
      var order := AcyclicCanSucceed(puts);
    } else if AllScalar(puts) {
      forall order | RouteOrder(order, puts) ensures PutAll(order).None? {
        CyclesFail(order, puts);
      }
    }
  }

  /**
  Routing does not depend on the iteration order if and only if the writes agree or every order
  fails, which for writes of anything but maps is a cycle of fields that write above one another.
  */
  lemma OrderFreeIff(puts: set<Put>)
    requires NonEmptyPaths(puts)
    ensures OrderFree(puts) <==> AllAgree(puts) || AlwaysFails(puts)
    ensures AllScalar(puts) ==>
      (OrderFree(puts) <==> AllAgree(puts) || DependencyOrder.HasCycle(FieldsBelow(puts)))
  {
    hide RouteOrder, PutAll, AllAgree, NonEmptyPaths, FieldsBelow, AllScalar, DependencyOrder.HasCycle;
    var a := SomeRouteOrder(puts);
    RoutingConfluentIffAgree(a, puts);
    if OrderFree(puts) && PutAll(a).None? {
      assert AlwaysFails(puts);
    }
    AlwaysFailsIff(puts);
  }

  // ---------------------------------------------------------------- two fan-outs that block each other

  const F_A := Put(["a"], Text("1"), "f")
  const F_BC := Put(["b", "c"], Text("2"), "f")
  const G_AB := Put(["a", "b"], Text("3"), "g")
  const G_B := Put(["b"], Text("4"), "g")
  const MAP_A := Put(["a"], EMPTY, "h")

  const BLOCKED := {F_A, F_BC, G_AB, G_B}

  lemma BlockedBothWays(puts: set<Put>)
    requires BLOCKED <= puts
    ensures DependencyOrder.HasCycle(FieldsBelow(puts))
  {
    assert F_A.path == G_AB.path[..1] && G_B.path == F_BC.path[..1];
    assert WritesAbove(puts, "f", "g") && WritesAbove(puts, "g", "f");
    assert F_A.field in FieldsOf(puts) && G_B.field in FieldsOf(puts);
    assert "f" != "g";
    assert DependencyOrder.Cycle(FieldsBelow(puts), ["f", "g", "f"]);
  }

  /**
  The fan-outs of two fields can block each other both ways: then the writes disagree and every
  order fails alike.
  */
  lemma DisagreeingFanOutsCanAlwaysFail()
    ensures !AllAgree(BLOCKED) && AlwaysFails(BLOCKED)
  {
    hide AlwaysFails;
    assert F_A.path <= G_AB.path && Lookup(F_A.value, ["b"]).None? && G_AB.path[1..] == ["b"];
    assert !Agree(F_A, G_AB);
    BlockedBothWays(BLOCKED);
    AlwaysFailsIff(BLOCKED);
  }

  lemma IsRouteOrder(order: seq<Put>)
    requires order == [F_BC, F_A, MAP_A, G_AB, G_B]
    ensures RouteOrder(order, BLOCKED + {MAP_A})
  {
    assert F_A.path != F_BC.path && F_A.path[0] != "b" && G_AB.path[0] != G_B.path[0];
    assert "f" != "g" && "g" != "h" && "f" != "h";
  }

  lemma SetFlat(t: Json, k: string, v: Json)
    requires t.Object?
    ensures Set(t, [k], v) == Some(Object(t.fields[k := v]))
  {
    assert [k][1..] == [];
  }

  lemma SetNested(t: Json, k: string, l: string, v: Json)
    requires t.Object? && (k in t.fields ==> t.fields[k].Object?)
    ensures Set(t, [k, l], v).Some? && Set(t, [k, l], v).value.Object?
  {
    assert [k, l][1..] == [l];
    SetFlat(if k in t.fields then t.fields[k] else EMPTY, l, v);
  }

  lemma MapBetween(order: seq<Put>)
    requires order == [F_BC, F_A, MAP_A, G_AB, G_B]
    ensures PutAll(order).Some?
  {
    var flat, cleared := [F_BC, F_A], [F_BC, F_A, MAP_A];
    assert flat[..1] == [F_BC] && [F_BC][..0] == [] && cleared[..2] == flat;
    assert order[..4][..3] == cleared;
    SetNested(EMPTY, "b", "c", F_BC.value);
    assert PutAll([F_BC]) == Set(EMPTY, F_BC.path, F_BC.value);
    SetFlat(PutAll([F_BC]).value, "a", F_A.value);
    SetFlat(PutAll(flat).value, "a", MAP_A.value);
    SetNested(PutAll(cleared).value, "a", "b", G_AB.value);
    SetFlat(PutAll(order[..4]).value, "b", G_B.value);
  }

  /** A third field that writes a map can make room between the two. */
  lemma MapsCanUnblock()
    ensures var puts := BLOCKED + {MAP_A}; DependencyOrder.HasCycle(FieldsBelow(puts)) && !AlwaysFails(puts)
  {
    var puts, order := BLOCKED + {MAP_A}, [F_BC, F_A, MAP_A, G_AB, G_B];
    BlockedBothWays(puts);
    hide *;
    MapBetween(order);
    IsRouteOrder(order);
  }
}
