/** Finalizer lists of an object: slices that are compacted and extended in place. */
module Finalizers {
  import opened Ordering

  /** A Go slice: the first len cells of a backing array. */
  class Object {
    var cells: array<string>
    var len: nat

    ghost predicate Valid()
      reads this
    {
      len <= cells.Length
    }

    ghost function Finalizers(): seq<string>
      requires Valid()
      reads this, cells
    {
      cells[..len]
    }

    constructor (list: seq<string>)
      ensures Valid() && fresh(cells) && Finalizers() == list
    {
      cells := new string[|list|](i requires 0 <= i < |list| => list[i]);
      len := |list|;
    }
  }

  // ---------------------------------------------------------------- what the lists become

  ghost function Ensured(s: seq<string>, want: seq<string>): (r: seq<string>)
    ensures s <= r && Elems(r) == Elems(s) + Elems(want)
    ensures Distinct(s) ==> Distinct(r)
  {
    if want == [] then s
    else
      var rest, last := want[..|want| - 1], want[|want| - 1];
      assert want == rest + [last];
      var r := Ensured(s, rest);
      if last in r then
        assert last in Elems(r);
        r
      else
        assert Elems(r + [last]) == Elems(r) + {last};
        r + [last]
  }

  lemma EnsuredStep(s: seq<string>, want: seq<string>, k: nat)
    requires k < |want|
    ensures var before := Ensured(s, want[..k]);
      Ensured(s, want[..k + 1]) == if want[k] in before then before else before + [want[k]]
  {
    assert want[..k + 1][..k] == want[..k];
  }

  lemma EnsuredOne(s: seq<string>, x: string)
    ensures Ensured(s, [x]) == if x in s then s else s + [x]
  {
    EnsuredStep(s, [x], 0);
    assert [x][..0] == [] && [x][..1] == [x];
  }

  lemma {:induction false} NothingMissing(s: seq<string>, want: seq<string>)
    ensures Ensured(s, want) == s <==> Elems(want) <= Elems(s)
  {
    if want != [] {
      var rest, last := want[..|want| - 1], want[|want| - 1];
      assert want == rest + [last];
      assert Elems(want) == Elems(rest) + {last};
      NothingMissing(s, rest);
      assert last in s <==> last in Elems(s);
    }
  }

  /** Stripping what was ensured leaves exactly the finalizers that were never wanted. */
  lemma {:induction false} StripAfterEnsure(s: seq<string>, want: seq<string>, strip: set<string>)
    requires Elems(want) <= strip
    ensures Without(Ensured(s, want), strip) == Without(s, strip)
  {
    if want != [] {
      var rest, last := want[..|want| - 1], want[|want| - 1];
      assert want == rest + [last];
      assert Elems(rest) <= Elems(want) && last in Elems(want);
      StripAfterEnsure(s, rest, strip);
      assert (Ensured(s, rest) + [last])[..|Ensured(s, rest)|] == Ensured(s, rest);
    }
  }

  lemma {:induction false} WithoutDisjoint(s: seq<string>, strip: set<string>)
    ensures Without(s, strip) == s <==> Elems(s) !! strip
  {
    if s != [] {
      var rest, last := s[..|s| - 1], s[|s| - 1];
      assert s == rest + [last];
      assert Elems(s) == Elems(rest) + {last};
      WithoutDisjoint(rest, strip);
    }
  }

  /** Adding finalizers and taking them away again restores the list exactly when none was there before. */
  lemma EnsureThenStripRestoresIff(s: seq<string>, want: seq<string>)
    ensures Without(Ensured(s, want), Elems(want)) == s <==> Elems(s) !! Elems(want)
  {
    StripAfterEnsure(s, want, Elems(want));
    WithoutDisjoint(s, Elems(want));
  }

  /** Half-way through the compaction: i elements looked at, n of them kept at the front. */
  ghost predicate Compacted(cells: seq<string>, list: seq<string>, i: nat, n: nat, x: string) {
    && n <= i <= |list| <= |cells|
    && cells[..n] == Without(list[..i], {x})
    && cells[i..|list|] == list[i..]
    && (n != i <==> x in list[..i])
  }

  lemma CompactionStep(cells: seq<string>, list: seq<string>, i: nat, n: nat, x: string)
    requires Compacted(cells, list, i, n, x) && i < |list|
    ensures cells[i] == list[i]
    ensures if list[i] != x then Compacted(cells[n := list[i]], list, i + 1, n + 1, x)
            else Compacted(cells, list, i + 1, n, x)
  {
    assert cells[i] == cells[i..|list|][0];
    assert list[..i + 1] == list[..i] + [list[i]] && list[..i + 1][..i] == list[..i];
    if list[i] != x {
      assert cells[n := list[i]][..n + 1] == cells[..n] + [list[i]];
    }
  }

  lemma CompactionEnds(cells: seq<string>, list: seq<string>, n: nat, x: string)
    ensures Compacted(cells, list, 0, 0, x) <==> |list| <= |cells| && cells[..|list|] == list
    ensures Compacted(cells, list, |list|, n, x) ==>
      n <= |cells| && cells[..n] == Without(list, {x}) && (n != |list| <==> x in list)
  {
    assert list[..|list|] == list;
  }

  // ---------------------------------------------------------------- the operations

  method ContainsFinalizer(o: Object, finalizer: string) returns (found: bool)
    requires o.Valid()
    ensures found <==> finalizer in o.Finalizers()
  {
    for i := 0 to o.len
      invariant finalizer !in o.cells[..i]
    {
      if o.cells[i] == finalizer {
        return true;
      }
    }
    found := false;
  }

  /** Go's append: in place while there is room, else into a larger copy. */
  method AddFinalizer(o: Object, finalizer: string) returns (updated: bool)
    requires o.Valid()
    modifies o, o.cells
    ensures o.Valid() && (o.cells == old(o.cells) || fresh(o.cells))
    ensures o.Finalizers() == Ensured(old(o.Finalizers()), [finalizer])
    ensures updated <==> finalizer !in old(o.Finalizers())
  {
    hide Elems, Distinct, Ensured;
    var found := ContainsFinalizer(o, finalizer);
    EnsuredOne(o.Finalizers(), finalizer);
    if found {
      return false;
    }
    ghost var before := o.Finalizers();
    if o.len == o.cells.Length {
      var cells, room := o.cells, 2 * o.len + 1;
      o.cells := new string[room](i requires 0 <= i < room reads cells => if i < cells.Length then cells[i] else "");
    }
    assert o.cells[..o.len] == before;
    o.cells[o.len] := finalizer;
    o.len := o.len + 1;
    updated := true;
  }

  /** The kept elements move down over the removed ones. */
  method RemoveFinalizer(o: Object, finalizer: string) returns (updated: bool)
    requires o.Valid()
    modifies o`len, o.cells
    ensures o.Valid() && o.Finalizers() == Without(old(o.Finalizers()), {finalizer})
    ensures updated <==> finalizer in old(o.Finalizers())
  {
    hide Without, Elems, Compacted;
    var cur, len := o.cells, o.len;
    ghost var list := o.Finalizers();
    var n := 0;
    CompactionEnds(cur[..], list, 0, finalizer);
    for i := 0 to len
      invariant n <= i && Compacted(cur[..], list, i, n, finalizer)
    {
      CompactionStep(cur[..], list, i, n, finalizer);
      if cur[i] != finalizer {
        ghost var before := cur[..];
        cur[n] := cur[i];
        assert cur[..] == before[n := list[i]];
        n := n + 1;
      }
    }
    CompactionEnds(cur[..], list, n, finalizer);
    o.len := n;
    updated := n != len;
  }

  method EnsureFinalizers(o: Object, want: seq<string>) returns (updated: bool)
    requires o.Valid()
    modifies o, o.cells
    ensures o.Valid() && (o.cells == old(o.cells) || fresh(o.cells))
    ensures o.Finalizers() == Ensured(old(o.Finalizers()), want)
    ensures updated <==> !(Elems(want) <= Elems(old(o.Finalizers())))
  {
    hide Elems, Distinct;
    ghost var list := o.Finalizers();
    updated := false;
    for i := 0 to |want|
      invariant o.Valid() && (o.cells == old(o.cells) || fresh(o.cells))
      invariant o.Finalizers() == Ensured(list, want[..i])
      invariant updated <==> o.Finalizers() != list
    {
      EnsuredStep(list, want, i);
      EnsuredOne(o.Finalizers(), want[i]);
      var added := AddFinalizer(o, want[i]);
      if added {
        updated := true;
      }
    }
    assert want[..|want|] == want;
    NothingMissing(list, want);
  }

  method StripFinalizers(o: Object, strip: seq<string>) returns (updated: bool)
    requires o.Valid()
    modifies o, o.cells
    ensures o.Valid() && o.cells == old(o.cells)
    ensures o.Finalizers() == Without(old(o.Finalizers()), Elems(strip))
    ensures updated <==> !(Elems(old(o.Finalizers())) !! Elems(strip))
  {
    ghost var list := o.Finalizers();
    updated := false;
    WithoutDisjoint(list, {});
    assert Elems(strip[..0]) == {};
    for i := 0 to |strip|
      invariant o.Valid() && o.cells == old(o.cells)
      invariant o.Finalizers() == Without(list, Elems(strip[..i]))
      invariant updated <==> !(Elems(list) !! Elems(strip[..i]))
    {
      ElemsStep(strip, i);
      WithoutTwice(list, Elems(strip[..i]), {strip[i]});
      ghost var before := o.Finalizers();
      assert strip[i] in before <==> strip[i] in Elems(before);
      var removed := RemoveFinalizer(o, strip[i]);
      if removed {
        updated := true;
      }
    }
    assert strip[..|strip|] == strip;
  }
}
