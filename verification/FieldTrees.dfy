/**
Nested maps as the intent builder sees them, and writes at dotted paths. When several writes land
in one tree, the order of the writes does not matter exactly when every two of them agree.
*/
module FieldTrees {
  import opened JsonValues
  import opened Ordering

  predicate IsScalar(v: Json) {
    !v.Object?
  }

  const EMPTY := Object(map[])

  /**
  SetNestedPath: creates missing maps on the way down and fails at a segment that holds something
  other than a map; a failing write leaves the tree as it was.
  */
  function Set(t: Json, path: seq<string>, v: Json): Option<Json>
    decreases path
  {
    if path == [] then Some(v)
    else if IsScalar(t) then None
    else
      var child := if path[0] in t.fields then t.fields[path[0]] else EMPTY;
      match Set(child, path[1..], v)
      case None => None
      case Some(c) => Some(Object(t.fields[path[0] := c]))
  }

  /** GetNestedPath. */
  function Lookup(t: Json, path: seq<string>): Option<Json> {
    if path == [] then Some(t)
    else if t.Object? && path[0] in t.fields then Lookup(t.fields[path[0]], path[1..])
    else None
  }

  // ---------------------------------------------------------------- one write

  lemma {:induction false} LookupConcat(t: Json, p: seq<string>, r: seq<string>)
    ensures Lookup(t, p + r) == match Lookup(t, p) { case None => None case Some(u) => Lookup(u, r) }
  {
    if p == [] {
      assert p + r == r;
    } else {
      assert (p + r)[1..] == p[1..] + r;
      if t.Object? && p[0] in t.fields {
        LookupConcat(t.fields[p[0]], p[1..], r);
      }
    }
  }

  /** What was written reads back. */
  lemma {:induction false} ReadBack(t: Json, p: seq<string>, v: Json)
    requires Set(t, p, v).Some?
    ensures Lookup(Set(t, p, v).value, p) == Some(v)
    decreases p
  {
    if p != [] {
      ReadBack(if p[0] in t.fields then t.fields[p[0]] else EMPTY, p[1..], v);
    }
  }

  predicate Incomparable(p: seq<string>, q: seq<string>) {
    !(p <= q) && !(q <= p)
  }

  lemma {:induction false} ReadElsewhere(t: Json, p: seq<string>, v: Json, x: seq<string>)
    requires Set(t, p, v).Some? && Incomparable(p, x)
    ensures Lookup(Set(t, p, v).value, x) == Lookup(t, x)
    decreases p
  {
    var child := if p[0] in t.fields then t.fields[p[0]] else EMPTY;
    if x[0] == p[0] {
      assert Incomparable(p[1..], x[1..]) by {
        assert p == [p[0]] + p[1..] && x == [x[0]] + x[1..];
      }
      ReadElsewhere(child, p[1..], v, x[1..]);
    }
  }

  /** Every proper prefix of a written path holds a map. */
  lemma {:induction false} ReadAbove(t: Json, p: seq<string>, v: Json, x: seq<string>)
    requires Set(t, p, v).Some? && x < p
    ensures Lookup(Set(t, p, v).value, x).Some? && Lookup(Set(t, p, v).value, x).value.Object?
    decreases p
  {
    if x != [] {
      assert x[1..] < p[1..];
      ReadAbove(if p[0] in t.fields then t.fields[p[0]] else EMPTY, p[1..], v, x[1..]);
    }
  }

  lemma {:induction false} SetOnEmpty(p: seq<string>, v: Json)
    ensures Set(EMPTY, p, v).Some?
    decreases p
  {
    if p != [] {
      SetOnEmpty(p[1..], v);
    }
  }

  /** A write fails only below something that is not a map. */
  lemma {:induction false} FailsBelowScalar(t: Json, p: seq<string>, v: Json) returns (x: seq<string>)
    requires Set(t, p, v).None?
    ensures x < p && Lookup(t, x).Some? && IsScalar(Lookup(t, x).value)
    decreases p
  {
    if IsScalar(t) {
      x := [];
    } else {
      var child := if p[0] in t.fields then t.fields[p[0]] else EMPTY;
      SetOnEmpty(p[1..], v);
      var y := FailsBelowScalar(child, p[1..], v);
      x := [p[0]] + y;
      assert x[1..] == y && p == [p[0]] + p[1..];
    }
  }

  /** Writing what is already there changes nothing. */
  lemma {:induction false} SetSame(t: Json, p: seq<string>, v: Json)
    requires Lookup(t, p) == Some(v)
    ensures Set(t, p, v) == Some(t)
  {
    if p != [] {
      SetSame(t.fields[p[0]], p[1..], v);
      assert t.fields[p[0] := t.fields[p[0]]] == t.fields;
    }
  }

  // ---------------------------------------------------------------- equal trees

  datatype Kind = Absent | Leaf(value: Json) | Branch

  function KindAt(t: Json, x: seq<string>): Kind {
    match Lookup(t, x)
    case None => Absent
    case Some(v) => if IsScalar(v) then Leaf(v) else Branch
  }

  lemma {:induction false} SameKindsSameTree(t: Json, u: Json)
    requires forall x :: KindAt(t, x) == KindAt(u, x)
    ensures t == u
    decreases t
  {
    assert KindAt(t, []) == KindAt(u, []);
    if t.Object? {
      forall k ensures k in t.fields <==> k in u.fields {
        assert KindAt(t, [k]) == KindAt(u, [k]);
        assert k in t.fields ==> Lookup(t, [k]) == Lookup(t.fields[k], []);
        assert k in u.fields ==> Lookup(u, [k]) == Lookup(u.fields[k], []);
      }
      forall k | k in t.fields ensures t.fields[k] == u.fields[k] {
        forall x ensures KindAt(t.fields[k], x) == KindAt(u.fields[k], x) {
          assert KindAt(t, [k] + x) == KindAt(u, [k] + x);
          assert ([k] + x)[1..] == x;
        }
        SameKindsSameTree(t.fields[k], u.fields[k]);
      }
    }
  }

  // ---------------------------------------------------------------- many writes

  /** One write, tagged with the submitted field it comes from. */
  datatype Put = Put(path: seq<string>, value: Json, field: string)

  /** All the writes in turn; None once one of them fails. */
  function PutAll(puts: seq<Put>): Option<Json> {
    if puts == [] then Some(EMPTY)
    else
      match PutAll(puts[..|puts| - 1])
      case None => None
      case Some(t) => Set(t, puts[|puts| - 1].path, puts[|puts| - 1].value)
  }

  /** If one path lies within the other, the outer value already holds the inner one there. */
  predicate Agree(p: Put, q: Put) {
    && (p.path <= q.path ==> Lookup(p.value, q.path[|p.path|..]) == Some(q.value))
    && (q.path <= p.path ==> Lookup(q.value, p.path[|q.path|..]) == Some(p.value))
  }

  ghost predicate PairwiseAgree(puts: seq<Put>) {
    forall p, q :: p in puts && q in puts ==> Agree(p, q)
  }

  /** t holds exactly what the writes say: each one reads back, and nothing else is there. */
  ghost predicate Holds(t: Json, puts: seq<Put>) {
    && t.Object?
    && (forall p :: p in puts ==> Lookup(t, p.path) == Some(p.value))
    && (forall x :: x != [] && Lookup(t, x).Some? ==> exists p :: p in puts && (p.path <= x || x <= p.path))
  }

  lemma LookupBelow(t: Json, p: Put, x: seq<string>)
    requires Lookup(t, p.path) == Some(p.value) && p.path <= x
    ensures Lookup(t, x) == Lookup(p.value, x[|p.path|..])
  {
    LookupConcat(t, p.path, x[|p.path|..]);
    assert x == p.path + x[|p.path|..];
  }

  lemma {:induction false} LookupAbove(t: Json, p: Put, x: seq<string>)
    requires Lookup(t, p.path) == Some(p.value) && x < p.path
    ensures Lookup(t, x).Some? && Lookup(t, x).value.Object?
  {
    LookupConcat(t, x, p.path[|x|..]);
    assert p.path == x + p.path[|x|..];
  }

  /** Two trees that hold the same writes are the same tree. */
  lemma HoldsUnique(t: Json, u: Json, puts: seq<Put>, puts': seq<Put>)
    requires Holds(t, puts) && Holds(u, puts') && forall p :: p in puts <==> p in puts'
    ensures t == u
  {
    forall x ensures KindAt(t, x) == KindAt(u, x) {
      if p :| p in puts && p.path <= x {
        LookupBelow(t, p, x);
        LookupBelow(u, p, x);
      } else if p :| p in puts && x < p.path {
        LookupAbove(t, p, x);
        LookupAbove(u, p, x);
      } else if x != [] {
        assert Lookup(t, x).None? && Lookup(u, x).None?;
      }
    }
    SameKindsSameTree(t, u);
  }

  /** A write that agrees with all earlier ones succeeds and keeps them. */
  lemma HoldsStep(t: Json, puts: seq<Put>, q: Put)
    requires q.path != [] && Holds(t, puts) && forall p :: p in puts ==> Agree(p, q)
    ensures Set(t, q.path, q.value).Some?
    ensures Holds(Set(t, q.path, q.value).value, puts + [q])
  {
    if p :| p in puts && p.path <= q.path {
      LookupBelow(t, p, q.path);
      SetSame(t, q.path, q.value);
    } else {
      if Set(t, q.path, q.value).None? {
        var x := FailsBelowScalar(t, q.path, q.value);
        ScalarsAreWritten(t, puts, x);
        assert false;
      }
      HoldsFreshWrite(t, puts, q);
    }
  }

  lemma ScalarsAreWritten(t: Json, puts: seq<Put>, x: seq<string>)
    requires Holds(t, puts) && Lookup(t, x).Some? && IsScalar(Lookup(t, x).value)
    ensures exists p :: p in puts && p.path <= x
  {
    var p :| p in puts && (p.path <= x || x <= p.path);
    if !(p.path <= x) {
      LookupAbove(t, p, x);
    }
  }

  lemma HoldsFreshWrite(t: Json, puts: seq<Put>, q: Put)
    requires q.path != [] && Holds(t, puts) && Set(t, q.path, q.value).Some?
    requires forall p :: p in puts ==> Agree(p, q) && !(p.path <= q.path)
    ensures Holds(Set(t, q.path, q.value).value, puts + [q])
  {
    var u := Set(t, q.path, q.value).value;
    ReadBack(t, q.path, q.value);
    forall p | p in puts ensures Lookup(u, p.path) == Some(p.value) {
      if q.path <= p.path {
        LookupBelow(u, q, p.path);
      } else {
        ReadElsewhere(t, q.path, q.value, p.path);
      }
    }
    forall x | x != [] && Lookup(u, x).Some?
      ensures exists p :: p in puts + [q] && (p.path <= x || x <= p.path)
    {
      if Incomparable(q.path, x) {
        ReadElsewhere(t, q.path, q.value, x);
        var p :| p in puts && (p.path <= x || x <= p.path);
        assert p in puts + [q];
      } else {
        assert q in puts + [q];
      }
    }
  }

  lemma NothingHeld()
    ensures Holds(EMPTY, [])
  {
    forall x | x != [] ensures Lookup(EMPTY, x).None? {
    }
  }

  lemma {:induction false} AgreeingWritesHold(puts: seq<Put>)
    requires PairwiseAgree(puts) && forall p :: p in puts ==> p.path != []
    ensures PutAll(puts).Some? && Holds(PutAll(puts).value, puts)
  {
    NothingHeld();
    if puts != [] {
      hide Holds, Set, Agree;
      var before, q := puts[..|puts| - 1], puts[|puts| - 1];
      assert puts == before + [q];
      assert PairwiseAgree(before);
      AgreeingWritesHold(before);
      HoldsStep(PutAll(before).value, before, q);
    }
  }

  // ---------------------------------------------------------------- when the order matters

  ghost predicate OrderIrrelevant(puts: seq<Put>) {
    forall o :: multiset(o) == multiset(puts) ==> PutAll(o) == PutAll(puts)
  }

  lemma SameElements(a: seq<Put>, b: seq<Put>)
    requires multiset(a) == multiset(b)
    ensures |a| == |b| && forall p :: p in a <==> p in b
  {
    assert |a| == |multiset(a)| == |multiset(b)| == |b|;
    assert forall p :: p in a <==> p in multiset(a);
    assert forall p :: p in b <==> p in multiset(b);
  }

  lemma AgreeingOrderIrrelevant(puts: seq<Put>, o: seq<Put>)
    requires PairwiseAgree(puts) && forall p :: p in puts ==> p.path != []
    requires multiset(o) == multiset(puts)
    ensures PutAll(o) == PutAll(puts)
  {
    SameElements(o, puts);
    AgreeingWritesHold(puts);
    AgreeingWritesHold(o);
    HoldsUnique(PutAll(o).value, PutAll(puts).value, o, puts);
  }

  /** No value other than a map above depth n. */
  ghost predicate MapsAbove(t: Json, n: nat) {
    forall x :: |x| < n && Lookup(t, x).Some? ==> Lookup(t, x).value.Object?
  }

  lemma MapsAboveStep(t: Json, p: Put)
    requires MapsAbove(t, |p.path|)
    ensures Set(t, p.path, p.value).Some? && MapsAbove(Set(t, p.path, p.value).value, |p.path|)
  {
    if Set(t, p.path, p.value).None? {
      var x := FailsBelowScalar(t, p.path, p.value);
    } else {
      var u := Set(t, p.path, p.value).value;
      forall x | |x| < |p.path| && Lookup(u, x).Some? ensures Lookup(u, x).value.Object? {
        if x < p.path {
          ReadAbove(t, p.path, p.value, x);
        } else {
          ReadElsewhere(t, p.path, p.value, x);
        }
      }
    }
  }

  function DropAt(puts: seq<Put>, i: nat): seq<Put>
    requires i < |puts|
  {
    puts[..i] + puts[i + 1..]
  }

  lemma DropAtMultiset(puts: seq<Put>, i: nat)
    requires i < |puts|
    ensures multiset(DropAt(puts, i) + [puts[i]]) == multiset(puts)
    ensures forall p :: p in DropAt(puts, i) ==> p in puts
  {
    assert puts == puts[..i] + [puts[i]] + puts[i + 1..];
  }

  lemma Shortest(puts: seq<Put>) returns (i: nat)
    requires puts != []
    ensures i < |puts| && forall p :: p in puts ==> |puts[i].path| <= |p.path|
  {
    i := 0;
    for k := 0 to |puts|
      invariant i < |puts| && forall j :: 0 <= j < k ==> |puts[i].path| <= |puts[j].path|
    {
      if |puts[k].path| < |puts[i].path| {
        i := k;
      }
    }
  }

  /** Writing longer paths before shorter ones always succeeds. */
  lemma {:induction false} LongestFirst(puts: seq<Put>, n: nat) returns (o: seq<Put>)
    requires forall p :: p in puts ==> |p.path| >= n
    ensures multiset(o) == multiset(puts)
    ensures PutAll(o).Some? && MapsAbove(PutAll(o).value, n)
    decreases |puts|
  {
    hide Set;
    if puts == [] {
      o := [];
      forall x | x != [] ensures Lookup(EMPTY, x).None? {
      }
    } else {
      var i := Shortest(puts);
      var p := puts[i];
      DropAtMultiset(puts, i);
      var first := LongestFirst(DropAt(puts, i), |p.path|);
      MapsAboveStep(PutAll(first).value, p);
      o := first + [p];
      assert o[..|o| - 1] == first;
      assert multiset(o) == multiset(DropAt(puts, i) + [p]);
    }
  }

  /** If no order matters, each write survives to the end, because it could have come last. */
  lemma EachReadsBack(puts: seq<Put>, i: nat)
    requires OrderIrrelevant(puts) && PutAll(puts).Some? && i < |puts|
    ensures Lookup(PutAll(puts).value, puts[i].path) == Some(puts[i].value)
  {
    var rest := DropAt(puts, i);
    var o := rest + [puts[i]];
    DropAtMultiset(puts, i);
    assert o[..|o| - 1] == rest;
    assert PutAll(o) == PutAll(puts);
    var before := PutAll(rest);
    hide Set, Lookup;
    ReadBack(before.value, puts[i].path, puts[i].value);
  }

  /**
  The exact condition: all orders of a list of writes build the same tree, or fail alike, if and
  only if every two of the writes agree. Then they all succeed and every write reads back.
  */
  lemma OrderIrrelevantIffAgree(puts: seq<Put>)
    requires forall p :: p in puts ==> p.path != []
    ensures OrderIrrelevant(puts) <==> PairwiseAgree(puts)
    ensures PairwiseAgree(puts) ==>
      PutAll(puts).Some? && forall p :: p in puts ==> Lookup(PutAll(puts).value, p.path) == Some(p.value)
  {
    if PairwiseAgree(puts) {
      AgreeingWritesHold(puts);
      forall o | multiset(o) == multiset(puts) ensures PutAll(o) == PutAll(puts) {
        AgreeingOrderIrrelevant(puts, o);
      }
    }
    if OrderIrrelevant(puts) {
      var o := LongestFirst(puts, 0);
      forall p, q | p in puts && q in puts ensures Agree(p, q) {
        SurvivorsAgree(puts, p, q);
        SurvivorsAgree(puts, q, p);
      }
    }
  }

  lemma SurvivorsAgree(puts: seq<Put>, p: Put, q: Put)
    requires OrderIrrelevant(puts) && PutAll(puts).Some? && p in puts && q in puts
    ensures p.path <= q.path ==> Lookup(p.value, q.path[|p.path|..]) == Some(q.value)
  {
    var i :| 0 <= i < |puts| && puts[i] == p;
    var j :| 0 <= j < |puts| && puts[j] == q;
    EachReadsBack(puts, i);
    EachReadsBack(puts, j);
    if p.path <= q.path {
      LookupBelow(PutAll(puts).value, p, q.path);
    }
  }

  /** A field written to a and another to a.b: whether the second succeeds depends on the order. */
  lemma OrderCanMatter()
    ensures var a, ab := Put(["a"], Text("x"), "f"), Put(["a", "b"], Text("y"), "g");
      PutAll([a, ab]).None? && PutAll([ab, a]).Some?
  {
    var a, ab := Put(["a"], Text("x"), "f"), Put(["a", "b"], Text("y"), "g");
    assert [a, ab][..1] == [a] && [a][..0] == [] && [ab, a][..1] == [ab] && [ab][..0] == [];
    assert ["a", "b"][1..] == ["b"] && ["a"][1..] == [];
    SetOnEmpty(ab.path, ab.value);
    assert PutAll([ab]) == Set(EMPTY, ab.path, ab.value);
    var t := PutAll([ab]).value;
    assert t.Object?;
    assert Set(t, ["a"], a.value).Some?;
  }

  // ---------------------------------------------------------------- writes of scalars

  /** Above a path only what is written at it or above it can make room again. */
  lemma {:induction false} ScalarBlocks(order: seq<Put>, i: nat, j: nat)
    requires i < j < |order| && IsScalar(order[i].value) && order[i].path < order[j].path
    requires forall k :: i < k < j ==> !(order[k].path <= order[i].path)
    ensures PutAll(order[..j + 1]).None?
  {
    var p := order[i];
    ScalarStays(order, i, j);
    assert order[..j + 1][..j] == order[..j];
    if PutAll(order[..j]).Some? {
      BelowScalarFails(PutAll(order[..j]).value, p.path, p.value, order[j].path, order[j].value);
    }
  }

  lemma {:induction false} ScalarStays(order: seq<Put>, i: nat, n: nat)
    requires i < n <= |order| && IsScalar(order[i].value)
    requires forall k :: i < k < n ==> !(order[k].path <= order[i].path)
    ensures PutAll(order[..n]).Some? ==> Lookup(PutAll(order[..n]).value, order[i].path) == Some(order[i].value)
    decreases n
  {
    hide Set, Lookup;
    var p, last := order[i], order[n - 1];
    assert order[..n][..n - 1] == order[..n - 1];
    if PutAll(order[..n]).Some? {
      var before := PutAll(order[..n - 1]).value;
      if n - 1 == i {
        ReadBack(before, p.path, p.value);
      } else {
        ScalarStays(order, i, n - 1);
        if p.path <= last.path {
          BelowScalarFails(before, p.path, p.value, last.path, last.value);
        } else {
          ReadElsewhere(before, last.path, last.value, p.path);
        }
      }
    }
  }

  lemma {:induction false} BelowScalarFails(t: Json, p: seq<string>, scalar: Json, path: seq<string>, v: Json)
    requires Lookup(t, p) == Some(scalar) && IsScalar(scalar) && p < path
    ensures Set(t, path, v).None?
    decreases p
  {
    if p != [] {
      assert p[1..] < path[1..];
      BelowScalarFails(t.fields[p[0]], p[1..], scalar, path[1..], v);
    }
  }

  lemma {:induction false} FailureStays(order: seq<Put>, n: nat)
    requires n <= |order| && PutAll(order[..n]).None?
    ensures PutAll(order).None?
    decreases |order|
  {
    if n < |order| {
      assert order[..|order| - 1][..n] == order[..n];
      FailureStays(order[..|order| - 1], n);
    } else {
      assert order[..n] == order;
    }
  }

  /** No write is strictly below an earlier one. */
  ghost predicate Descending(order: seq<Put>) {
    forall i, j :: 0 <= i < j < |order| ==> !(order[i].path < order[j].path)
  }

  lemma {:induction false} ScalarsComeFromWrites(order: seq<Put>, x: seq<string>)
    requires PutAll(order).Some? && Lookup(PutAll(order).value, x).Some?
    requires IsScalar(Lookup(PutAll(order).value, x).value)
    ensures exists p :: p in order && p.path <= x
  {
    hide Set, Lookup;
    if order == [] {
      NothingHeld();
      EmptyIsNoScalar(x);
    } else {
      var rest, last := order[..|order| - 1], order[|order| - 1];
      var before := PutAll(rest).value;
      if last.path <= x {
        assert last in order;
      } else if x <= last.path {
        ReadAbove(before, last.path, last.value, x);
      } else {
        ReadElsewhere(before, last.path, last.value, x);
        ScalarsComeFromWrites(rest, x);
        var p :| p in rest && p.path <= x;
        assert p in order;
      }
    }
  }

  lemma EmptyIsNoScalar(x: seq<string>)
    ensures Lookup(EMPTY, x).Some? ==> Lookup(EMPTY, x).value.Object?
  {
  }

  /** Whatever the values, no write fails that is not strictly below an earlier one. */
  lemma {:induction false} DescendingSucceeds(order: seq<Put>)
    requires Descending(order)
    ensures PutAll(order).Some?
  {
    if order != [] {
      var rest, last := order[..|order| - 1], order[|order| - 1];
      DescendingSucceeds(rest);
      var before := PutAll(rest).value;
      forall p | p in rest ensures !(p.path < last.path) {
        var i :| 0 <= i < |rest| && rest[i] == p;
        assert order[i] == p;
      }
      if Set(before, last.path, last.value).None? {
        var x := FailsBelowScalar(before, last.path, last.value);
        ScalarsComeFromWrites(rest, x);
      }
    }
  }

  /** The last write at or above a path that an earlier one has as well. */
  lemma LastAbove(order: seq<Put>, i: nat, j: nat) returns (k: nat)
    requires i < j <= |order|
    ensures i <= k < j && order[k].path <= order[i].path
    ensures forall l :: k < l < j ==> !(order[l].path <= order[k].path)
  {
    k := i;
    for n := i + 1 to j
      invariant i <= k < n && order[k].path <= order[i].path
      invariant forall l :: k < l < n ==> !(order[l].path <= order[k].path)
    {
      if order[n].path <= order[k].path {
        k := n;
      }
    }
  }

  /** Writes of scalars all succeed if and only if none is strictly below an earlier one. */
  lemma ScalarsSucceedIff(order: seq<Put>)
    requires forall p :: p in order ==> IsScalar(p.value)
    ensures PutAll(order).Some? <==> Descending(order)
  {
    hide PutAll;
    if Descending(order) {
      DescendingSucceeds(order);
    } else {
      var i, j :| 0 <= i < j < |order| && order[i].path < order[j].path;
      var k := LastAbove(order, i, j);
      assert order[k] in order;
      ScalarBlocks(order, k, j);
      FailureStays(order, j + 1);
    }
  }
}
