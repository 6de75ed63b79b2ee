/**
The rolling-window statistics of the conversion and admission webhooks: running totals and a
ring buffer, against the whole history of recorded calls. Durations are unbounded integers.
*/
module HealthStats {
  import opened Ordering

  datatype Outcome = Converted | Allowed | Denied | Warned | Applied | Skipped

  /** A failed conversion is counted but carries no latency. */
  datatype Event = Timed(outcome: Outcome, latency: int) | Failed

  // ---------------------------------------------------------------- what a history determines

  ghost function Latencies(events: seq<Event>): (h: seq<int>)
    ensures |h| <= |events|
  {
    if events == [] then []
    else
      var rest, last := Latencies(events[..|events| - 1]), events[|events| - 1];
      if last.Timed? then rest + [last.latency] else rest
  }

  ghost function Count(events: seq<Event>, outcome: Outcome): nat {
    if events == [] then 0
    else
      var last := events[|events| - 1];
      Count(events[..|events| - 1], outcome) + if last.Timed? && last.outcome == outcome then 1 else 0
  }

  ghost predicate Outcomes(events: seq<Event>, allowed: set<Outcome>) {
    forall e :: e in events && e.Timed? ==> e.outcome in allowed
  }

  ghost function Sum(h: seq<int>): int {
    if h == [] then 0 else Sum(h[..|h| - 1]) + h[|h| - 1]
  }

  /** The running maximum, which starts at zero. */
  ghost function MaxField(h: seq<int>): int {
    if h == [] then 0
    else
      var m, last := MaxField(h[..|h| - 1]), h[|h| - 1];
      if last > m then last else m
  }

  /** The running minimum, which takes zero to mean "nothing recorded yet". */
  ghost function MinField(h: seq<int>): int {
    if h == [] then 0
    else
      var m, last := MinField(h[..|h| - 1]), h[|h| - 1];
      if m == 0 || last < m then last else m
  }

  ghost predicate IsMinimum(h: seq<int>, x: int) {
    x in h && forall y :: y in h ==> x <= y
  }

  ghost predicate IsMaximum(h: seq<int>, x: int) {
    x in h && forall y :: y in h ==> y <= x
  }

  /** The last w latencies. */
  ghost function Window(h: seq<int>, w: nat): seq<int> {
    if |h| <= w then h else h[|h| - w..]
  }

  /** Go's integer division truncates toward zero. */
  function TruncDiv(a: int, b: int): int
    requires b > 0
  {
    if a >= 0 then a / b else -((-a) / b)
  }

  ghost function Average(h: seq<int>): int {
    if h == [] then 0 else TruncDiv(Sum(h), |h|)
  }

  predicate IntLeq(a: int, b: int) {
    a <= b
  }

  /** The position picked among size sorted values, for a fraction p. */
  function Rank(size: nat, p: real): (k: nat)
    requires size > 0 && p >= 0.0
    ensures k < size
  {
    var k := (size as real * p).Floor;
    if k >= size then size - 1 else k
  }

  ghost function Percentile(w: seq<int>, p: real): int
    requires p >= 0.0
  {
    if w == [] then 0 else Sort(IntLeq, w)[Rank(|w|, p)]
  }

  // ---------------------------------------------------------------- the ring

  /** The ring slots against the history: a rotation of the last |ring| entries once filled. */
  ghost predicate Ring(h: seq<int>, ring: seq<int>, index: int, filled: bool) {
    && 0 <= index < |ring|
    && (filled <==> |h| >= |ring|)
    && (filled ==> ring[index..] + ring[..index] == h[|h| - |ring|..])
    && (!filled ==> index == |h| && ring[..index] == h)
  }

  /** The window of a longer history drops its oldest entry. */
  lemma WindowSlides(h: seq<int>, w: nat, d: int)
    requires 0 < w <= |h|
    ensures (h + [d])[|h| + 1 - w..] == h[|h| - w..][1..] + [d]
  {
  }

  lemma RingStepInside(h: seq<int>, ring: seq<int>, index: int, filled: bool, d: int)
    requires Ring(h, ring, index, filled) && index + 1 < |ring|
    ensures Ring(h + [d], ring[index := d], index + 1, filled)
  {
    var after, next := ring[index := d], index + 1;
    assert after[..next] == ring[..index] + [d] && after[next..] == ring[next..];
    if filled {
      WindowSlides(h, |ring|, d);
      assert ring[index..] == [ring[index]] + ring[next..];
      assert (ring[index..] + ring[..index])[1..] == ring[next..] + ring[..index];
      assert after[next..] + after[..next] == ring[next..] + ring[..index] + [d];
    }
  }

  lemma RingStepWraps(h: seq<int>, ring: seq<int>, index: int, filled: bool, d: int)
    requires Ring(h, ring, index, filled) && index + 1 == |ring|
    ensures Ring(h + [d], ring[index := d], 0, true)
  {
    var after, g := ring[index := d], h + [d];
    assert after[0..] + after[..0] == ring[..index] + [d];
    if filled {
      WindowSlides(h, |ring|, d);
      assert ring[index..] == [ring[index]];
      assert (ring[index..] + ring[..index])[1..] == ring[..index];
    } else {
      assert g[|g| - |ring|..] == g;
    }
  }

  lemma RingBounds(h: seq<int>, ring: seq<int>, index: int, filled: bool)
    requires Ring(h, ring, index, filled)
    ensures 0 <= index < |ring|
  {
  }

  lemma RingStep(h: seq<int>, ring: seq<int>, index: int, filled: bool, d: int)
    requires Ring(h, ring, index, filled)
    ensures var next := (index + 1) % |ring|; Ring(h + [d], ring[index := d], next, filled || next == 0)
  {
    hide Ring;
    RingBounds(h, ring, index, filled);
    if index + 1 < |ring| {
      assert (index + 1) % |ring| == index + 1;
      RingStepInside(h, ring, index, filled, d);
    } else {
      RingStepWraps(h, ring, index, filled, d);
    }
  }

  /** The used slots are exactly the last min(n, W) latencies, in some order. */
  lemma SlotsHoldWindow(h: seq<int>, ring: seq<int>, index: int, filled: bool)
    requires Ring(h, ring, index, filled)
    ensures var size := if filled then |ring| else index;
      size == |Window(h, |ring|)| && multiset(ring[..size]) == multiset(Window(h, |ring|))
  {
    if filled {
      assert Window(h, |ring|) == ring[index..] + ring[..index];
      assert ring[..|ring|] == ring[..index] + ring[index..];
    }
  }

  lemma PercentileOfPermutation(a: seq<int>, b: seq<int>, p: real)
    requires p >= 0.0 && multiset(a) == multiset(b)
    ensures Percentile(a, p) == Percentile(b, p)
  {
    assert |a| == |multiset(a)| == |multiset(b)| == |b|;
    SortedPermutationUnique(IntLeq, Sort(IntLeq, a), Sort(IntLeq, b));
  }

  // ---------------------------------------------------------------- the percentile is an order statistic

  /** How many entries are smaller than x. */
  ghost function Below(s: seq<int>, x: int): (n: nat)
    ensures n <= |s|
  {
    if s == [] then 0 else Below(s[..|s| - 1], x) + if s[|s| - 1] < x then 1 else 0
  }

  lemma {:induction false} BelowConcat(a: seq<int>, b: seq<int>, x: int)
    ensures Below(a + b, x) == Below(a, x) + Below(b, x)
  {
    if b == [] {
      assert a + b == a;
    } else {
      assert (a + b)[..|a + b| - 1] == a + b[..|b| - 1];
      BelowConcat(a, b[..|b| - 1], x);
    }
  }

  lemma BelowAround(before: seq<int>, y: int, after: seq<int>, x: int)
    ensures Below(before + [y] + after, x) == Below(before + after, x) + if y < x then 1 else 0
  {
    BelowConcat(before, after, x);
    BelowConcat(before, [y], x);
    BelowConcat(before + [y], after, x);
  }

  lemma {:induction false} BelowPermuted(a: seq<int>, b: seq<int>, x: int)
    requires multiset(a) == multiset(b)
    ensures Below(a, x) == Below(b, x)
    decreases |a|
  {
    if a == [] {
      assert |b| == |multiset(b)| == 0;
    } else {
      var before, after := TakeOut(a, b);
      BelowPermuted(a[..|a| - 1], before + after, x);
      BelowAround(before, a[|a| - 1], after, x);
    }
  }

  lemma {:induction false} BelowAll(s: seq<int>, x: int)
    ensures (forall y :: y in s ==> y < x) ==> Below(s, x) == |s|
    ensures (forall y :: y in s ==> x <= y) ==> Below(s, x) == 0
  {
    if s != [] {
      var rest := s[..|s| - 1];
      BelowAll(rest, x);
      assert s[|s| - 1] in s && forall y :: y in rest ==> y in s;
    }
  }

  /** x has at most k smaller values in w, and more than k values up to itself. */
  ghost predicate HasRank(w: seq<int>, k: nat, x: int) {
    x in w && Below(w, x) <= k < Below(w, x + 1)
  }

  lemma SortedRank(s: seq<int>, k: nat)
    requires SortedBy(IntLeq, s) && k < |s|
    ensures HasRank(s, k, s[k])
  {
    hide Below;
    SortedBelow(s, k);
    SortedUpTo(s, k);
  }

  lemma SortedBelow(s: seq<int>, k: nat)
    requires SortedBy(IntLeq, s) && k < |s|
    ensures Below(s, s[k]) <= k
  {
    hide Below;
    assert s == s[..k] + s[k..];
    BelowConcat(s[..k], s[k..], s[k]);
    forall y | y in s[k..] ensures s[k] <= y {
      var j :| k <= j < |s| && s[j] == y;
      assert j == k || IntLeq(s[k], s[j]);
    }
    BelowAll(s[k..], s[k]);
  }

  lemma SortedUpTo(s: seq<int>, k: nat)
    requires SortedBy(IntLeq, s) && k < |s|
    ensures Below(s, s[k] + 1) > k
  {
    hide Below;
    var upTo, x := s[..k + 1], s[k];
    assert s == upTo + s[k + 1..];
    BelowConcat(upTo, s[k + 1..], x + 1);
    forall y | y in upTo ensures y <= x {
      var j :| 0 <= j <= k && s[j] == y;
      assert j == k || IntLeq(s[j], s[k]);
    }
    BelowAll(upTo, x + 1);
  }

  lemma PercentileHasRank(w: seq<int>, p: real)
    requires p >= 0.0 && w != []
    ensures HasRank(w, Rank(|w|, p), Percentile(w, p))
  {
    hide Below, Rank;
    var s := Sort(IntLeq, w);
    var k := Rank(|w|, p);
    SortedRank(s, k);
    assert s[k] in multiset(s);
    BelowPermuted(s, w, s[k]);
    BelowPermuted(s, w, s[k] + 1);
  }

  lemma {:induction false} BelowMonotone(s: seq<int>, x: int, z: int)
    requires x <= z
    ensures Below(s, x) <= Below(s, z)
  {
    if s != [] {
      BelowMonotone(s[..|s| - 1], x, z);
    }
  }

  /** No other value has that rank, so the percentile needs no mention of sorting. */
  lemma RankIsUnique(w: seq<int>, k: nat, x: int, z: int)
    requires HasRank(w, k, x) && HasRank(w, k, z)
    ensures x == z
  {
    if x < z {
      BelowMonotone(w, x + 1, z);
    } else if z < x {
      BelowMonotone(w, z + 1, x);
    }
  }

  /** Below a fraction of one the clamp is never used. */
  lemma RankIsFloor(size: nat, p: real)
    requires size > 0 && 0.0 <= p < 1.0
    ensures Rank(size, p) == (size as real * p).Floor
  {
    assert size as real * p < size as real * 1.0;
  }

  // ---------------------------------------------------------------- what the aggregates mean

  lemma {:induction false} MaxFieldMeaning(h: seq<int>, greatest: int)
    requires IsMaximum(h, greatest)
    ensures MaxField(h) == if greatest > 0 then greatest else 0
  {
    var rest, last := h[..|h| - 1], h[|h| - 1];
    assert h == rest + [last];
    if rest != [] {
      var g := Greatest(rest);
      MaxFieldMeaning(rest, g);
      assert g in h && last in h;
      assert greatest == if last > g then last else g;
    }
  }

  lemma {:induction false} Greatest(h: seq<int>) returns (x: int)
    requires h != []
    ensures IsMaximum(h, x)
  {
    var rest, last := h[..|h| - 1], h[|h| - 1];
    assert h == rest + [last];
    x := last;
    if rest != [] {
      var g := Greatest(rest);
      x := if g > last then g else last;
    }
  }

  lemma {:induction false} Least(h: seq<int>) returns (x: int)
    requires h != []
    ensures IsMinimum(h, x)
  {
    var rest, last := h[..|h| - 1], h[|h| - 1];
    assert h == rest + [last];
    x := last;
    if rest != [] {
      var g := Least(rest);
      x := if g < last then g else last;
    }
  }

  ghost predicate HasNegative(h: seq<int>) {
    exists x :: x in h && x < 0
  }

  lemma HasNegativeStep(h: seq<int>)
    requires h != []
    ensures HasNegative(h) <==> HasNegative(h[..|h| - 1]) || h[|h| - 1] < 0
  {
    var rest, last := h[..|h| - 1], h[|h| - 1];
    assert h == rest + [last];
    assert last in h && forall x :: x in rest ==> x in h;
  }

  /** The sign of the running minimum, step by step. */
  lemma {:induction false} MinFieldSign(h: seq<int>)
    requires h != []
    ensures MinField(h) < 0 <==> HasNegative(h)
    ensures MinField(h) == 0 <==> !HasNegative(h) && h[|h| - 1] == 0
  {
    hide HasNegative;
    HasNegativeStep(h);
    if |h| > 1 {
      MinFieldSign(h[..|h| - 1]);
    } else {
      NoNegative(h[..|h| - 1]);
    }
  }

  lemma NoNegative(h: seq<int>)
    requires h == []
    ensures !HasNegative(h)
  {
  }

  lemma {:induction false} MinFieldRight(h: seq<int>, least: int)
    requires IsMinimum(h, least) && (least < 0 || 0 !in h)
    ensures MinField(h) == least
  {
    var rest, last := h[..|h| - 1], h[|h| - 1];
    assert h == rest + [last];
    if rest != [] {
      var m := Least(rest);
      MinFieldSign(rest);
      assert m in h && last in h;
      assert least == if m < last then m else last;
      if m < 0 || 0 !in rest {
        MinFieldRight(rest, m);
      } else {
        assert 0 in h;
      }
    }
  }

  /**
  The reported minimum is the smallest latency exactly when a negative one was recorded, or no
  zero one, or the last one is zero: after a zero the running minimum starts over.
  */
  lemma MinRightIff(h: seq<int>, least: int)
    requires IsMinimum(h, least)
    ensures MinField(h) == least <==> HasNegative(h) || 0 !in h || h[|h| - 1] == 0
  {
    if least < 0 || 0 !in h {
      MinFieldRight(h, least);
    } else {
      MinFieldSign(h);
    }
  }

  lemma MinCanBeWrong()
    ensures MinField([10, 0, 20]) == 20 && Average([10, 0, 20]) == 10
  {
    var h := [10, 0, 20];
    assert h[..2] == [10, 0] && [10, 0][..1] == [10] && [10][..0] == [];
    assert MinField([10, 0]) == 0 && Sum([10, 0]) == 10;
  }

  lemma OneMore(x: int, n: int)
    ensures x * n == x * (n - 1) + x
  {
  }

  lemma {:induction false} SumBounds(h: seq<int>, lo: int, hi: int)
    requires forall x :: x in h ==> lo <= x <= hi
    ensures lo * |h| <= Sum(h) <= hi * |h|
  {
    if h != [] {
      var rest := h[..|h| - 1];
      assert h[|h| - 1] in h && forall x :: x in rest ==> x in h;
      SumBounds(rest, lo, hi);
      OneMore(lo, |h|);
      OneMore(hi, |h|);
    }
  }

  lemma TruncDivBounds(a: int, n: int, lo: int, hi: int)
    requires n > 0 && lo * n <= a <= hi * n
    ensures lo <= TruncDiv(a, n) <= hi
  {
    if a >= 0 {
      FloorBounds(a, n, lo, hi);
    } else {
      assert (-hi) * n == -(hi * n) && (-lo) * n == -(lo * n);
      FloorBounds(-a, n, -hi, -lo);
    }
  }

  lemma FloorBounds(a: int, n: int, lo: int, hi: int)
    requires n > 0 && a >= 0 && lo * n <= a <= hi * n
    ensures lo <= a / n <= hi
  {
    var q := a / n;
    QuotientBounds(a, n, q);
    assert (hi + 1) * n == hi * n + n;
    LessFactor(lo, q + 1, n);
    LessFactor(q, hi + 1, n);
  }

  lemma QuotientBounds(a: int, n: int, q: int)
    requires n > 0 && a >= 0 && q == a / n
    ensures q * n <= a < (q + 1) * n
  {
    assert a == n * q + a % n;
  }

  lemma LessFactor(x: int, y: int, n: int)
    requires n > 0
    ensures x * n < y * n ==> x < y
  {
    if x >= y {
      assert (x - y) * n >= 0;
    }
  }

  /** The average lies between the extremes, and so does the percentile of any window. */
  lemma AverageAndPercentileWithinBounds(h: seq<int>, w: nat, p: real, least: int, greatest: int)
    requires IsMinimum(h, least) && IsMaximum(h, greatest) && w > 0 && p >= 0.0
    ensures least <= Average(h) <= greatest
    ensures least <= Percentile(Window(h, w), p) <= greatest
  {
    SumBounds(h, least, greatest);
    TruncDivBounds(Sum(h), |h|, least, greatest);
    PercentileHasRank(Window(h, w), p);
    assert forall x :: x in Window(h, w) ==> x in h;
  }

  /** The average times the count misses the sum by less than the count, on the side of zero. */
  lemma AverageIsTruncated(h: seq<int>)
    requires h != []
    ensures var rest := Sum(h) - Average(h) * |h|;
      -|h| < rest < |h| && (rest > 0 ==> Sum(h) > 0) && (rest < 0 ==> Sum(h) < 0)
  {
    var a, n := Sum(h), |h|;
    if a >= 0 {
      DivMod(a, n);
    } else {
      DivMod(-a, n);
      assert -((-a) / n) * n == -((-a) / n * n);
    }
  }

  lemma DivMod(a: int, n: int)
    requires n > 0
    ensures a == a / n * n + a % n && 0 <= a % n < n
  {
  }

  /** Nineteen in twenty values of the window are no greater, and no more than that are smaller. */
  ghost predicate IsNinetyFifth(w: seq<int>, x: int) {
    x in w && 20 * Below(w, x) <= 19 * |w| < 20 * Below(w, x + 1)
  }

  lemma NinetyFifth(w: seq<int>)
    requires w != []
    ensures IsNinetyFifth(w, Percentile(w, 0.95))
  {
    hide Percentile, Below, Rank;
    PercentileHasRank(w, 0.95);
    RankIsFloor(|w|, 0.95);
  }

  /** For positive durations the reported numbers are in order. */
  lemma PositiveDurationsAreOrdered(h: seq<int>, w: nat)
    requires h != [] && w > 0 && forall x :: x in h ==> x > 0
    ensures MinField(h) <= Average(h) <= MaxField(h)
    ensures MinField(h) <= Percentile(Window(h, w), 0.95) <= MaxField(h)
  {
    var least := Least(h);
    var greatest := Greatest(h);
    MinRightIff(h, least);
    MaxFieldMeaning(h, greatest);
    AverageAndPercentileWithinBounds(h, w, 0.95, least, greatest);
  }

  lemma LatenciesStep(events: seq<Event>, e: Event)
    ensures Latencies(events + [e]) == if e.Timed? then Latencies(events) + [e.latency] else Latencies(events)
  {
    assert (events + [e])[..|events|] == events;
  }

  /** One outcome counter, one event later. */
  lemma CountStep(events: seq<Event>, e: Event, outcome: Outcome)
    ensures Count(events + [e], outcome) == Count(events, outcome) + if e.Timed? && e.outcome == outcome then 1 else 0
  {
    assert (events + [e])[..|events|] == events;
  }

  lemma NothingYet(events: seq<Event>)
    requires events == []
    ensures Latencies(events) == [] && forall o :: Count(events, o) == 0
  {
  }

  lemma OutcomesRest(events: seq<Event>, allowed: set<Outcome>)
    requires events != [] && Outcomes(events, allowed)
    ensures Outcomes(events[..|events| - 1], allowed)
    ensures events[|events| - 1].Timed? ==> events[|events| - 1].outcome in allowed
  {
    var rest := events[..|events| - 1];
    assert events == rest + [events[|events| - 1]];
    assert events[|events| - 1] in events;
  }

  lemma {:induction false} CountsAddUp(events: seq<Event>, a: Outcome, b: Outcome, c: Outcome)
    requires a != b && b != c && a != c && Outcomes(events, {a, b, c})
    ensures Count(events, a) + Count(events, b) + Count(events, c) == |Latencies(events)|
  {
    hide *;
    if events == [] {
      NothingYet(events);
    } else {
      var rest, last := events[..|events| - 1], events[|events| - 1];
      assert events == rest + [last];
      OutcomesRest(events, {a, b, c});
      CountsAddUp(rest, a, b, c);
      LatenciesStep(rest, last);
      CountStep(rest, last, a);
      CountStep(rest, last, b);
      CountStep(rest, last, c);
    }
  }

  // ---------------------------------------------------------------- one tracked latency

  /** The six latency fields, all determined by the history and the window size. */
  ghost predicate Tracks(h: seq<int>, total: int, max: int, min: int, ring: seq<int>, index: int, filled: bool) {
    total == Sum(h) && max == MaxField(h) && min == MinField(h) && Ring(h, ring, index, filled)
  }

  ghost predicate TracksAfter(h: seq<int>, d: int, total: int, max: int, min: int, ring: seq<int>, index: int,
      filled: bool)
    requires 0 <= index < |ring|
  {
    var next := (index + 1) % |ring|;
    Tracks(h + [d], total + d, if d > max then d else max, if min == 0 || d < min then d else min,
           ring[index := d], next, filled || next == 0)
  }

  lemma TracksStep(h: seq<int>, d: int, total: int, max: int, min: int, ring: seq<int>, index: int, filled: bool)
    requires Tracks(h, total, max, min, ring, index, filled)
    ensures 0 <= index < |ring| && TracksAfter(h, d, total, max, min, ring, index, filled)
  {
    assert (h + [d])[..|h|] == h;
    RingStep(h, ring, index, filled, d);
  }
}
