/**
Go's string order and the library sort, as the catalog, forEach and statistics code use
them, together with the few facts about sequences that several modules share.
*/
module Ordering {

  datatype Option<+T> = None | Some(value: T)

  datatype Result<+T, +E> = Success(value: T) | Failure(error: E)

  // ---------------------------------------------------------------- sequences as sets

  function Elems<T(==)>(s: seq<T>): set<T> {
    set x | x in s
  }

  ghost predicate Distinct<T>(s: seq<T>) {
    forall i, j :: 0 <= i < j < |s| ==> s[i] != s[j]
  }

  lemma {:induction false} DistinctCardinality<T>(s: seq<T>)
    requires Distinct(s)
    ensures |Elems(s)| == |s|
  {
    if s != [] {
      var rest, last := s[..|s| - 1], s[|s| - 1];
      DistinctCardinality(rest);
      assert s == rest + [last] && last !in rest;
      assert Elems(s) == Elems(rest) + {last};
    }
  }

  lemma {:induction false} Enumerate<T>(all: set<T>) returns (s: seq<T>)
    ensures Distinct(s) && Elems(s) == all
  {
    s := [];
    if x :| x in all {
      var rest := Enumerate(all - {x});
      assert x !in Elems(rest);
      s := rest + [x];
      assert Elems(s) == Elems(rest) + {x};
    }
  }

  /** The set of the first k + 1 elements, one element at a time. */
  lemma ElemsStep<T>(s: seq<T>, k: nat)
    requires k < |s|
    ensures Elems(s[..k + 1]) == Elems(s[..k]) + {s[k]}
    ensures Distinct(s) ==> s[k] !in Elems(s[..k])
  {
    assert s[..k + 1] == s[..k] + [s[k]];
  }

  lemma ElemsOfPrefixes<T>(s: seq<T>)
    ensures Elems(s[..0]) == {} && Elems(s[..|s|]) == Elems(s)
    ensures forall k :: 0 <= k < |s| ==> s[k] in Elems(s)
  {
    assert s[..|s|] == s;
  }

  /** More positions than values: two positions hold the same value. */
  lemma {:induction false} Pigeonhole<T>(s: seq<T>, values: set<T>) returns (i: nat, j: nat)
    requires Elems(s) <= values && |s| > |values|
    ensures i < j < |s| && s[i] == s[j]
  {
    if Distinct(s) {
      DistinctCardinality(s);
      SubsetCardinality(Elems(s), values);
      assert false;
    }
    i, j :| 0 <= i < j < |s| && s[i] == s[j];
  }

  lemma {:induction false} SubsetCardinality<T>(a: set<T>, b: set<T>)
    requires a <= b
    ensures |a| <= |b|
    ensures |a| == |b| ==> a == b
    decreases |a|
  {
    if x :| x in a {
      SubsetCardinality(a - {x}, b - {x});
      assert a - {x} + {x} == a && b - {x} + {x} == b;
    } else if y :| y in b {
      assert |b - {y}| < |b|;
    }
  }

  /** Moving one element of a set being worked through to the part already done. */
  lemma TakeFrom<T>(all: set<T>, todo: set<T>, x: T)
    requires todo <= all && x in todo
    ensures todo - {x} <= all && |todo - {x}| < |todo|
    ensures all - (todo - {x}) == (all - todo) + {x}
  {
  }

  // ---------------------------------------------------------------- filtering

  /** The elements not in a set, in order. */
  ghost function Without<T>(s: seq<T>, seen: set<T>): (r: seq<T>)
    ensures Elems(r) == Elems(s) - seen
    ensures |r| <= |s|
  {
    if s == [] then []
    else
      var rest, last := s[..|s| - 1], s[|s| - 1];
      assert s == rest + [last];
      var r := Without(rest, seen);
      if last in seen then r
      else
        assert Elems(r + [last]) == Elems(r) + {last};
        r + [last]
  }

  lemma {:induction false} WithoutConcat<T>(a: seq<T>, b: seq<T>, seen: set<T>)
    ensures Without(a + b, seen) == Without(a, seen) + Without(b, seen)
  {
    if b == [] {
      assert a + b == a;
    } else {
      assert (a + b)[..|a + b| - 1] == a + b[..|b| - 1];
      WithoutConcat(a, b[..|b| - 1], seen);
    }
  }

  lemma {:induction false} WithoutTwice<T>(s: seq<T>, a: set<T>, b: set<T>)
    ensures Without(Without(s, a), b) == Without(s, a + b)
  {
    if s != [] {
      var rest, last := s[..|s| - 1], s[|s| - 1];
      WithoutTwice(rest, a, b);
      if last !in a {
        var r := Without(rest, a);
        assert (r + [last])[..|r|] == r;
      }
    }
  }

  lemma {:induction false} WithoutAll<T>(s: seq<T>, seen: set<T>)
    requires Elems(s) <= seen
    ensures Without(s, seen) == []
  {
    if s != [] {
      assert s[|s| - 1] in Elems(s);
      assert Elems(s[..|s| - 1]) <= Elems(s);
      WithoutAll(s[..|s| - 1], seen);
    }
  }

  // ---------------------------------------------------------------- string order

  predicate StringLess(a: string, b: string) {
    b != [] && (a == [] || a[0] < b[0] || (a[0] == b[0] && StringLess(a[1..], b[1..])))
  }

  predicate StringLeq(a: string, b: string) {
    a == b || StringLess(a, b)
  }

  /** Dictionary order: a proper prefix, or the first character that differs is smaller. */
  ghost predicate DictionaryLess(a: string, b: string) {
    a < b || exists k :: 0 <= k < |a| && k < |b| && a[..k] == b[..k] && a[k] < b[k]
  }

  lemma {:induction false} StringLessIsDictionaryOrder(a: string, b: string)
    ensures StringLess(a, b) <==> DictionaryLess(a, b)
  {
    if a != [] && b != [] {
      if a[0] == b[0] {
        StringLessIsDictionaryOrder(a[1..], b[1..]);
        AfterEqualHeads(a, b);
      } else {
        DifferentHeads(a, b);
      }
    }
  }

  lemma AfterEqualHeads(a: string, b: string)
    requires a != [] && b != [] && a[0] == b[0]
    ensures DictionaryLess(a, b) <==> DictionaryLess(a[1..], b[1..])
  {
    assert a == [a[0]] + a[1..] && b == [b[0]] + b[1..];
    assert a < b <==> a[1..] < b[1..];
    if k :| 0 <= k < |a| && k < |b| && a[..k] == b[..k] && a[k] < b[k] {
      assert a[1..][..k - 1] == a[..k][1..] == b[..k][1..] == b[1..][..k - 1];
      assert a[1..][k - 1] < b[1..][k - 1];
    }
    if k :| 0 <= k < |a[1..]| && k < |b[1..]| && a[1..][..k] == b[1..][..k] && a[1..][k] < b[1..][k] {
      assert a[..k + 1] == [a[0]] + a[1..][..k] == [b[0]] + b[1..][..k] == b[..k + 1];
      assert a[k + 1] < b[k + 1];
    }
  }

  lemma DifferentHeads(a: string, b: string)
    requires a != [] && b != [] && a[0] != b[0]
    ensures DictionaryLess(a, b) <==> a[0] < b[0]
  {
    assert a[..0] == b[..0];
    forall k | 0 < k < |a| && k < |b| ensures a[..k] != b[..k] {
      assert a[..k][0] == a[0] && b[..k][0] == b[0];
    }
  }

  /** A string comes after its proper prefixes, and the first difference decides. */
  lemma StringOrderOnCharacters(p: string, s: string, c: char, d: char, t: string)
    ensures s != [] ==> StringLess(p, p + s)
    ensures c < d ==> StringLess(p + [c] + s, p + [d] + t)
  {
    StringLessIsDictionaryOrder(p, p + s);
    if c < d {
      var a, b := p + [c] + s, p + [d] + t;
      assert a[..|p|] == p == b[..|p|] && a[|p|] == c && b[|p|] == d;
      StringLessIsDictionaryOrder(a, b);
    }
  }

  lemma {:induction false} StringLessTransitive(a: string, b: string, c: string)
    requires StringLess(a, b) && StringLess(b, c)
    ensures StringLess(a, c)
  {
    if a != [] && a[0] == b[0] == c[0] {
      StringLessTransitive(a[1..], b[1..], c[1..]);
    }
  }

  lemma {:induction false} StringLessTrichotomy(a: string, b: string)
    ensures !StringLess(a, a)
    ensures StringLess(a, b) ==> !StringLess(b, a)
    ensures a == b || StringLess(a, b) || StringLess(b, a)
  {
    if a != [] {
      StringLessTrichotomy(a[1..], if b != [] then b[1..] else []);
      assert b != [] && a[0] == b[0] && a[1..] == b[1..] ==> a == [a[0]] + a[1..] == b;
    }
  }

  // ---------------------------------------------------------------- sorting

  ghost predicate TotalOrder<T(!new)>(leq: (T, T) -> bool) {
    && (forall x, y :: leq(x, y) || leq(y, x))
    && (forall x, y :: leq(x, y) && leq(y, x) ==> x == y)
    && (forall x, y, z :: leq(x, y) && leq(y, z) ==> leq(x, z))
  }

  lemma StringsAreTotallyOrdered()
    ensures TotalOrder(StringLeq)
  {
    forall x, y
      ensures StringLeq(x, y) || StringLeq(y, x)
      ensures StringLeq(x, y) && StringLeq(y, x) ==> x == y
    {
      StringLessTrichotomy(x, y);
    }
    forall x, y, z | StringLeq(x, y) && StringLeq(y, z)
      ensures StringLeq(x, z)
    {
      if StringLess(x, y) && StringLess(y, z) {
        StringLessTransitive(x, y, z);
      }
    }
  }

  ghost predicate SortedBy<T(!new)>(leq: (T, T) -> bool, s: seq<T>) {
    forall i, j :: 0 <= i < j < |s| ==> leq(s[i], s[j])
  }

  function Insert<T(!new)>(leq: (T, T) -> bool, x: T, s: seq<T>): (r: seq<T>)
    ensures multiset(r) == multiset(s) + multiset{x}
  {
    if s == [] || leq(x, s[0]) then [x] + s
    else
      assert s == [s[0]] + s[1..];
      [s[0]] + Insert(leq, x, s[1..])
  }

  lemma {:induction false} InsertKeepsSorted<T(!new)>(leq: (T, T) -> bool, x: T, s: seq<T>)
    requires TotalOrder(leq) && SortedBy(leq, s)
    ensures SortedBy(leq, Insert(leq, x, s))
  {
    if s != [] && !leq(x, s[0]) {
      var rest := Insert(leq, x, s[1..]);
      InsertKeepsSorted(leq, x, s[1..]);
      forall y | y in rest ensures leq(s[0], y) {
        assert y in multiset(rest);
        assert y == x || y in s[1..];
      }
    }
  }

  /** The library sort: any sorting algorithm returns this sequence (SortedPermutationUnique). */
  function Sort<T(!new)>(leq: (T, T) -> bool, s: seq<T>): (r: seq<T>)
    ensures multiset(r) == multiset(s)
    ensures |r| == |s|
    ensures TotalOrder(leq) ==> SortedBy(leq, r)
  {
    if s == [] then []
    else
      assert s == [s[0]] + s[1..];
      var r := Insert(leq, s[0], Sort(leq, s[1..]));
      assert TotalOrder(leq) ==> SortedBy(leq, r) by {
        if TotalOrder(leq) { InsertKeepsSorted(leq, s[0], Sort(leq, s[1..])); }
      }
      assert |r| == |multiset(r)| == |multiset(s)| == |s|;
      r
  }

  /** Sorted permutations of each other start alike. */
  lemma SameHead<T(!new)>(leq: (T, T) -> bool, a: seq<T>, b: seq<T>)
    requires TotalOrder(leq) && SortedBy(leq, a) && SortedBy(leq, b)
    requires multiset(a) == multiset(b) && a != []
    ensures b != [] && a[0] == b[0]
  {
    assert a[0] in multiset(b) && b[0] in multiset(a);
    var i :| 0 <= i < |b| && b[i] == a[0];
    var j :| 0 <= j < |a| && a[j] == b[0];
    assert leq(a[0], b[0]) && leq(b[0], a[0]);
  }

  lemma SameTail<T>(a: seq<T>, b: seq<T>)
    requires multiset(a) == multiset(b) && a != [] && b != [] && a[0] == b[0]
    ensures multiset(a[1..]) == multiset(b[1..])
  {
    assert a == [a[0]] + a[1..] && b == [b[0]] + b[1..];
    assert multiset(a[1..]) == multiset(a) - multiset{a[0]};
  }

  lemma {:induction false} SortedPermutationUnique<T(!new)>(leq: (T, T) -> bool, a: seq<T>, b: seq<T>)
    requires TotalOrder(leq) && SortedBy(leq, a) && SortedBy(leq, b)
    requires multiset(a) == multiset(b)
    ensures a == b
  {
    hide TotalOrder, SortedBy;
    if a == [] {
      assert |b| == |multiset(b)| == 0;
    } else {
      SameHead(leq, a, b);
      SameTail(a, b);
      SortedTail(leq, a);
      SortedTail(leq, b);
      SortedPermutationUnique(leq, a[1..], b[1..]);
      assert a == [a[0]] + a[1..] && b == [b[0]] + b[1..];
    }
  }

  lemma SortedTail<T(!new)>(leq: (T, T) -> bool, s: seq<T>)
    requires SortedBy(leq, s) && s != []
    ensures SortedBy(leq, s[1..])
  {
  }

  lemma PermutationKeepsElements<T>(a: seq<T>, b: seq<T>)
    requires multiset(a) == multiset(b)
    ensures Elems(a) == Elems(b) && |a| == |b|
  {
    assert |a| == |multiset(a)| == |multiset(b)| == |b|;
    forall x ensures x in a <==> x in b {
      assert x in a <==> x in multiset(a);
      assert x in b <==> x in multiset(b);
    }
  }

  /** A repeated element could be left out. */
  lemma RepeatedElement<T>(s: seq<T>, i: nat, j: nat)
    requires i < j < |s| && s[i] == s[j]
    ensures |Elems(s)| < |s|
  {
    var without := s[..j] + s[j + 1..];
    forall x | x in s ensures x in without {
      var k :| 0 <= k < |s| && s[k] == x;
      if k < j {
        assert without[k] == x;
      } else if k > j {
        assert without[k - 1] == x;
      } else {
        assert without[i] == x;
      }
    }
    assert Elems(without) == Elems(s);
    ElemsBound(without);
  }

  /** Sorting neither adds, drops nor repeats an element. */
  lemma SortKeepsElements<T(!new)>(leq: (T, T) -> bool, s: seq<T>)
    ensures Elems(Sort(leq, s)) == Elems(s)
    ensures Distinct(s) ==> Distinct(Sort(leq, s))
  {
    hide Elems;
    var r := Sort(leq, s);
    PermutationKeepsElements(r, s);
    if Distinct(s) {
      DistinctCardinality(s);
      if i, j :| 0 <= i < j < |r| && r[i] == r[j] {
        RepeatedElement(r, i, j);
        assert false;
      }
    }
  }

  lemma {:induction false} OccursOnce<T>(s: seq<T>, x: T)
    requires Distinct(s)
    ensures multiset(s)[x] == if x in s then 1 else 0
  {
    if s != [] {
      var rest, last := s[..|s| - 1], s[|s| - 1];
      OccursOnce(rest, x);
      assert s == rest + [last];
    }
  }

  /** Two sequences without repeats and with the same elements are permutations of each other. */
  lemma DistinctPermutation<T>(a: seq<T>, b: seq<T>)
    requires Distinct(a) && Distinct(b) && Elems(a) == Elems(b)
    ensures multiset(a) == multiset(b)
  {
    forall x ensures multiset(a)[x] == multiset(b)[x] {
      OccursOnce(a, x);
      OccursOnce(b, x);
      assert x in Elems(a) <==> x in Elems(b);
    }
  }

  /** Where a permutation holds the last element, and what it holds around it. */
  lemma TakeOut<T>(a: seq<T>, b: seq<T>) returns (before: seq<T>, after: seq<T>)
    requires a != [] && multiset(a) == multiset(b)
    ensures b == before + [a[|a| - 1]] + after
    ensures multiset(a[..|a| - 1]) == multiset(before + after)
  {
    var rest, last := a[..|a| - 1], a[|a| - 1];
    assert a == rest + [last];
    assert last in multiset(b);
    var i :| 0 <= i < |b| && b[i] == last;
    before, after := b[..i], b[i + 1..];
    assert b == before + [last] + after;
    assert multiset(rest) == multiset(a) - multiset{last};
    assert multiset(before + after) == multiset(b) - multiset{last};
  }

  lemma {:induction false} ElemsBound<T>(s: seq<T>)
    ensures |Elems(s)| <= |s|
  {
    if s != [] {
      var rest := s[..|s| - 1];
      ElemsBound(rest);
      assert Elems(s) == Elems(rest) + {s[|s| - 1]};
    }
  }
}
