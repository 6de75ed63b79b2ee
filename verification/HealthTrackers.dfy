/**
The two statistics objects of the health server. Every field is determined by the events recorded
so far and the window size, so the two implementations agree wherever they overlap.
*/
module HealthTrackers {
  import opened Ordering
  import opened HealthStats

  const DEFAULT_WINDOW := 1000

  function WindowSize(asked: int): (w: nat)
    ensures w > 0 && (asked > 0 ==> w == asked) && (asked <= 0 ==> w == 1000)
  {
    if asked <= 0 then DEFAULT_WINDOW else asked
  }

  const P95 := 0.95

  datatype ConversionSnapshot = ConversionSnapshot(
    total: int, success: int, failed: int, avg: int, p95: int, max: int, min: int)

  /** What a conversion snapshot must be, from the events alone. */
  ghost function ConversionReport(events: seq<Event>, window: nat): ConversionSnapshot {
    var h := Latencies(events);
    ConversionSnapshot(|events|, |h|, |events| - |h|, Average(h), Percentile(Window(h, window), P95), MaxField(h),
      MinField(h))
  }

  class ConversionStats {
    var totalRequests: int
    var successRequests: int
    var failedRequests: int
    var totalLatency: int
    var maxLatency: int
    var minLatency: int
    const latencyRing: array<int>
    var ringIndex: int
    const ringSize: int
    var ringFilled: bool
    /** Everything recorded so far, oldest first. */
    ghost var events: seq<Event>

    ghost predicate Valid()
      reads this, latencyRing
    {
      && ringSize == latencyRing.Length
      && totalRequests == |events|
      && successRequests == |Latencies(events)|
      && failedRequests == |events| - |Latencies(events)|
      && Tracks(Latencies(events), totalLatency, maxLatency, minLatency, latencyRing[..], ringIndex, ringFilled)
    }

    constructor (windowSize: int)
      ensures Valid() && fresh(latencyRing)
      ensures events == [] && ringSize == WindowSize(windowSize)
    {
      var size := WindowSize(windowSize);
      latencyRing := new int[size](_ => 0);
      ringSize := size;
      totalRequests, successRequests, failedRequests := 0, 0, 0;
      totalLatency, maxLatency, minLatency := 0, 0, 0;
      ringIndex, ringFilled := 0, false;
      events := [];
    }

    method RecordSuccess(duration: int)
      requires Valid()
      modifies this, latencyRing
      ensures Valid() && events == old(events) + [Timed(Converted, duration)]
    {
      hide Tracks, Latencies, Count;
      TracksStep(Latencies(events), duration, totalLatency, maxLatency, minLatency, latencyRing[..], ringIndex,
        ringFilled);
      LatenciesStep(events, Timed(Converted, duration));
      totalRequests := totalRequests + 1;
      successRequests := successRequests + 1;
      totalLatency := totalLatency + duration;
      if duration > maxLatency {
        maxLatency := duration;
      }
      if minLatency == 0 || duration < minLatency {
        minLatency := duration;
      }
      latencyRing[ringIndex] := duration;
      ringIndex := (ringIndex + 1) % ringSize;
      if ringIndex == 0 {
        ringFilled := true;
      }
      events := events + [Timed(Converted, duration)];
    }

    method RecordFailure()
      requires Valid()
      modifies this
      ensures Valid() && events == old(events) + [Failed]
    {
      hide Tracks, Latencies, Count;
      LatenciesStep(events, Failed);
      totalRequests := totalRequests + 1;
      failedRequests := failedRequests + 1;
      events := events + [Failed];
    }

    method CopySlots(size: nat) returns (latencies: array<int>)
      requires size <= latencyRing.Length
      ensures fresh(latencies) && latencies[..] == latencyRing[..size]
    {
      latencies := new int[size];
      for i := 0 to size
        invariant latencies[..i] == latencyRing[..i]
      {
        latencies[i] := latencyRing[i];
      }
      assert latencies[..] == latencies[..size];
    }

    method CalculatePercentile(percentile: real) returns (d: int)
      requires Valid() && percentile >= 0.0
      ensures d == Percentile(Window(Latencies(events), ringSize), percentile)
    {
      hide Latencies, Percentile, Window, Sum, MaxField, MinField, Rank;
      ghost var window := Window(Latencies(events), ringSize);
      SlotsHoldWindow(Latencies(events), latencyRing[..], ringIndex, ringFilled);
      var size := ringSize;
      if !ringFilled {
        size := ringIndex;
      }
      assert latencyRing[..][..size] == latencyRing[..size];
      PercentileOfPermutation(latencyRing[..size], window, percentile);
      PercentileOfSlots(latencyRing[..size], percentile);
      if size == 0 {
        return 0;
      }
      var latencies := CopySlots(size);
      var sorted := Sort(IntLeq, latencies[..]);
      return sorted[Rank(size, percentile)];
    }

    method GetStats() returns (snapshot: ConversionSnapshot)
      requires Valid()
      ensures snapshot == ConversionReport(events, ringSize)
    {
      var avg := 0;
      if successRequests > 0 {
        avg := TruncDiv(totalLatency, successRequests);
      }
      var p95 := CalculatePercentile(P95);
      snapshot := ConversionSnapshot(totalRequests, successRequests, failedRequests, avg, p95, maxLatency, minLatency);
    }
  }

  /** The percentile of all three reports is the ninety-fifth of the last latencies. */
  lemma ReportsNinetyFifth(events: seq<Event>, validations: seq<Event>, mutations: seq<Event>, window: nat,
      enabled: bool)
    requires window > 0
    ensures Latencies(events) != [] ==>
      IsNinetyFifth(Window(Latencies(events), window), ConversionReport(events, window).p95)
    ensures Latencies(validations) != [] ==>
      IsNinetyFifth(Window(Latencies(validations), window),
        AdmissionReport(validations, mutations, window, enabled).valP95)
    ensures Latencies(mutations) != [] ==>
      IsNinetyFifth(Window(Latencies(mutations), window),
        AdmissionReport(validations, mutations, window, enabled).mutP95)
  {
    hide Percentile, IsNinetyFifth, Latencies;
    if Latencies(events) != [] {
      NinetyFifth(Window(Latencies(events), window));
    }
    if Latencies(validations) != [] {
      NinetyFifth(Window(Latencies(validations), window));
    }
    if Latencies(mutations) != [] {
      NinetyFifth(Window(Latencies(mutations), window));
    }
  }

  function One(yes: bool): int {
    if yes then 1 else 0
  }

  /** One more validation raises the total and its own outcome by one, and leaves the mutations alone. */
  lemma ValidationCounted(v: seq<Event>, m: seq<Event>, window: nat, enabled: bool, outcome: Outcome, latency: int)
    ensures var was, now := AdmissionReport(v, m, window, enabled),
        AdmissionReport(v + [Timed(outcome, latency)], m, window, enabled);
      && now.validationTotal == was.validationTotal + 1
      && now.validationAllowed == was.validationAllowed + One(outcome == Allowed)
      && now.validationDenied == was.validationDenied + One(outcome == Denied)
      && now.validationWarned == was.validationWarned + One(outcome == Warned)
      && now == was.(validationTotal := now.validationTotal, validationAllowed := now.validationAllowed,
        validationDenied := now.validationDenied, validationWarned := now.validationWarned,
        valAvg := now.valAvg, valP95 := now.valP95, valMax := now.valMax)
  {
    hide Percentile, Average, MaxField, Window;
    assert (v + [Timed(outcome, latency)])[..|v|] == v;
  }

  /** One more mutation raises the total and its own outcome by one, and leaves the validations alone. */
  lemma MutationCounted(v: seq<Event>, m: seq<Event>, window: nat, enabled: bool, outcome: Outcome, latency: int)
    ensures var was, now := AdmissionReport(v, m, window, enabled),
        AdmissionReport(v, m + [Timed(outcome, latency)], window, enabled);
      && now.mutationTotal == was.mutationTotal + 1
      && now.mutationApplied == was.mutationApplied + One(outcome == Applied)
      && now.mutationSkipped == was.mutationSkipped + One(outcome == Skipped)
      && now == was.(mutationTotal := now.mutationTotal, mutationApplied := now.mutationApplied,
        mutationSkipped := now.mutationSkipped,
        mutAvg := now.mutAvg, mutP95 := now.mutP95, mutMax := now.mutMax)
  {
    hide Percentile, Average, MaxField, Window;
    assert (m + [Timed(outcome, latency)])[..|m|] == m;
  }

  /** A conversion counts as a success with its latency, or as a failure without one. */
  lemma ConversionCounted(events: seq<Event>, window: nat, e: Event)
    ensures var was, now := ConversionReport(events, window), ConversionReport(events + [e], window);
      && now.total == was.total + 1
      && now.success == was.success + One(e.Timed?) && now.failed == was.failed + One(e.Failed?)
      && (e.Failed? ==> now == was.(total := now.total, failed := now.failed))
  {
    hide Percentile, Average, MaxField, MinField, Window;
    assert (events + [e])[..|events|] == events;
  }

  /** Averages and maxima are those of the latencies of their own side. */
  lemma ReportsAggregates(v: seq<Event>, m: seq<Event>, window: nat, enabled: bool)
    ensures var r := ConversionReport(v, window);
      r.avg == Average(Latencies(v)) && r.max == MaxField(Latencies(v)) && r.min == MinField(Latencies(v))
    ensures var r := AdmissionReport(v, m, window, enabled);
      && r.valAvg == Average(Latencies(v)) && r.valMax == MaxField(Latencies(v))
      && r.mutAvg == Average(Latencies(m)) && r.mutMax == MaxField(Latencies(m))
      && r.webhooksEnabled == enabled
  {
  }

  datatype AdmissionSnapshot = AdmissionSnapshot(
    validationTotal: int, validationAllowed: int, validationDenied: int, validationWarned: int,
    valAvg: int, valP95: int, valMax: int,
    mutationTotal: int, mutationApplied: int, mutationSkipped: int,
    mutAvg: int, mutP95: int, mutMax: int,
    webhooksEnabled: bool)

  /** What an admission snapshot must be, from the events alone. */
  ghost function AdmissionReport(validations: seq<Event>, mutations: seq<Event>, window: nat,
      enabled: bool): AdmissionSnapshot {
    var v, m := Latencies(validations), Latencies(mutations);
    AdmissionSnapshot(
      |v|, Count(validations, Allowed), Count(validations, Denied), Count(validations, Warned),
      Average(v), Percentile(Window(v, window), P95), MaxField(v),
      |m|, Count(mutations, Applied), Count(mutations, Skipped),
      Average(m), Percentile(Window(m, window), P95), MaxField(m),
      enabled)
  }

  class AdmissionStats {
    var validationTotal: int
    var validationAllowed: int
    var validationDenied: int
    var validationWarned: int
    var mutationTotal: int
    var mutationApplied: int
    var mutationSkipped: int
    var validationTotalLatency: int
    var validationMaxLatency: int
    var validationMinLatency: int
    const validationRing: array<int>
    var validationRingIndex: int
    var validationRingFilled: bool
    var mutationTotalLatency: int
    var mutationMaxLatency: int
    var mutationMinLatency: int
    const mutationRing: array<int>
    var mutationRingIndex: int
    var mutationRingFilled: bool
    const ringSize: int
    ghost var validations: seq<Event>
    ghost var mutations: seq<Event>

    ghost predicate Valid()
      reads this, validationRing, mutationRing
    {
      validationRing != mutationRing && ValidationValid() && MutationValid()
    }

    ghost predicate ValidationValid()
      reads this, validationRing
    {
      && ringSize == validationRing.Length
      && Outcomes(validations, {Allowed, Denied, Warned})
      && validationTotal == |Latencies(validations)|
      && validationAllowed == Count(validations, Allowed)
      && validationDenied == Count(validations, Denied)
      && validationWarned == Count(validations, Warned)
      && ValidationTracked(Latencies(validations))
    }

    ghost predicate ValidationTracked(h: seq<int>)
      reads this`validationTotalLatency, this`validationMaxLatency, this`validationMinLatency
      reads this`validationRingIndex, this`validationRingFilled, validationRing
    {
      Tracks(h, validationTotalLatency, validationMaxLatency, validationMinLatency,
             validationRing[..], validationRingIndex, validationRingFilled)
    }

    ghost predicate MutationValid()
      reads this, mutationRing
    {
      && ringSize == mutationRing.Length
      && Outcomes(mutations, {Applied, Skipped})
      && mutationTotal == |Latencies(mutations)|
      && mutationApplied == Count(mutations, Applied)
      && mutationSkipped == Count(mutations, Skipped)
      && MutationTracked(Latencies(mutations))
    }

    ghost predicate MutationTracked(h: seq<int>)
      reads this`mutationTotalLatency, this`mutationMaxLatency, this`mutationMinLatency
      reads this`mutationRingIndex, this`mutationRingFilled, mutationRing
    {
      Tracks(h, mutationTotalLatency, mutationMaxLatency, mutationMinLatency,
             mutationRing[..], mutationRingIndex, mutationRingFilled)
    }

    constructor (windowSize: int)
      ensures Valid() && fresh(validationRing) && fresh(mutationRing)
      ensures validations == [] && mutations == [] && ringSize == WindowSize(windowSize)
    {
      var size := WindowSize(windowSize);
      validationRing := new int[size](_ => 0);
      mutationRing := new int[size](_ => 0);
      ringSize := size;
      validationTotal, validationAllowed, validationDenied, validationWarned := 0, 0, 0, 0;
      mutationTotal, mutationApplied, mutationSkipped := 0, 0, 0;
      validationTotalLatency, validationMaxLatency, validationMinLatency := 0, 0, 0;
      validationRingIndex, validationRingFilled := 0, false;
      mutationTotalLatency, mutationMaxLatency, mutationMinLatency := 0, 0, 0;
      mutationRingIndex, mutationRingFilled := 0, false;
      validations, mutations := [], [];
    }

    method RecordValidationAllowed(duration: int)
      requires Valid()
      modifies this, validationRing
      ensures Valid() && mutations == old(mutations)
      ensures validations == old(validations) + [Timed(Allowed, duration)]
    {
      hide Tracks, Outcomes, Latencies, Count, AdmissionStats.ValidationTracked, AdmissionStats.MutationTracked;
      ValidationCounts(validations, Timed(Allowed, duration));
      OutcomesStep(validations, Timed(Allowed, duration), {Allowed, Denied, Warned});
      validationTotal := validationTotal + 1;
      validationAllowed := validationAllowed + 1;
      RecordValidationLatency(duration, Latencies(validations));
      validations := validations + [Timed(Allowed, duration)];
    }

    method RecordValidationDenied(duration: int)
      requires Valid()
      modifies this, validationRing
      ensures Valid() && mutations == old(mutations)
      ensures validations == old(validations) + [Timed(Denied, duration)]
    {
      hide Tracks, Outcomes, Latencies, Count, AdmissionStats.ValidationTracked, AdmissionStats.MutationTracked;
      ValidationCounts(validations, Timed(Denied, duration));
      OutcomesStep(validations, Timed(Denied, duration), {Allowed, Denied, Warned});
      validationTotal := validationTotal + 1;
      validationDenied := validationDenied + 1;
      RecordValidationLatency(duration, Latencies(validations));
      validations := validations + [Timed(Denied, duration)];
    }

    method RecordValidationWarned(duration: int)
      requires Valid()
      modifies this, validationRing
      ensures Valid() && mutations == old(mutations)
      ensures validations == old(validations) + [Timed(Warned, duration)]
    {
      hide Tracks, Outcomes, Latencies, Count, AdmissionStats.ValidationTracked, AdmissionStats.MutationTracked;
      ValidationCounts(validations, Timed(Warned, duration));
      OutcomesStep(validations, Timed(Warned, duration), {Allowed, Denied, Warned});
      validationTotal := validationTotal + 1;
      validationWarned := validationWarned + 1;
      RecordValidationLatency(duration, Latencies(validations));
      validations := validations + [Timed(Warned, duration)];
    }

    method RecordValidationLatency(d: int, ghost h: seq<int>)
      requires ringSize == validationRing.Length && ValidationTracked(h)
      modifies this`validationTotalLatency, this`validationMaxLatency, this`validationMinLatency
      modifies this`validationRingIndex, this`validationRingFilled, validationRing
      ensures ValidationTracked(h + [d])
    {
      hide Tracks;
      TracksStep(h, d, validationTotalLatency, validationMaxLatency, validationMinLatency,
                 validationRing[..], validationRingIndex, validationRingFilled);
      validationTotalLatency := validationTotalLatency + d;
      if d > validationMaxLatency {
        validationMaxLatency := d;
      }
      if validationMinLatency == 0 || d < validationMinLatency {
        validationMinLatency := d;
      }
      validationRing[validationRingIndex] := d;
      assert validationRing[..] == old(validationRing[..])[validationRingIndex := d];
      validationRingIndex := (validationRingIndex + 1) % ringSize;
      if validationRingIndex == 0 {
        validationRingFilled := true;
      }
    }

    method RecordMutationApplied(duration: int)
      requires Valid()
      modifies this, mutationRing
      ensures Valid() && validations == old(validations)
      ensures mutations == old(mutations) + [Timed(Applied, duration)]
    {
      hide Tracks, Outcomes, Latencies, Count, AdmissionStats.ValidationTracked, AdmissionStats.MutationTracked;
      MutationCounts(mutations, Timed(Applied, duration));
      OutcomesStep(mutations, Timed(Applied, duration), {Applied, Skipped});
      mutationTotal := mutationTotal + 1;
      mutationApplied := mutationApplied + 1;
      RecordMutationLatency(duration, Latencies(mutations));
      mutations := mutations + [Timed(Applied, duration)];
    }

    method RecordMutationSkipped(duration: int)
      requires Valid()
      modifies this, mutationRing
      ensures Valid() && validations == old(validations)
      ensures mutations == old(mutations) + [Timed(Skipped, duration)]
    {
      hide Tracks, Outcomes, Latencies, Count, AdmissionStats.ValidationTracked, AdmissionStats.MutationTracked;
      MutationCounts(mutations, Timed(Skipped, duration));
      OutcomesStep(mutations, Timed(Skipped, duration), {Applied, Skipped});
      mutationTotal := mutationTotal + 1;
      mutationSkipped := mutationSkipped + 1;
      RecordMutationLatency(duration, Latencies(mutations));
      mutations := mutations + [Timed(Skipped, duration)];
    }

    method RecordMutationLatency(d: int, ghost h: seq<int>)
      requires ringSize == mutationRing.Length && MutationTracked(h)
      modifies this`mutationTotalLatency, this`mutationMaxLatency, this`mutationMinLatency
      modifies this`mutationRingIndex, this`mutationRingFilled, mutationRing
      ensures MutationTracked(h + [d])
    {
      hide Tracks;
      TracksStep(h, d, mutationTotalLatency, mutationMaxLatency, mutationMinLatency,
                 mutationRing[..], mutationRingIndex, mutationRingFilled);
      mutationTotalLatency := mutationTotalLatency + d;
      if d > mutationMaxLatency {
        mutationMaxLatency := d;
      }
      if mutationMinLatency == 0 || d < mutationMinLatency {
        mutationMinLatency := d;
      }
      mutationRing[mutationRingIndex] := d;
      assert mutationRing[..] == old(mutationRing[..])[mutationRingIndex := d];
      mutationRingIndex := (mutationRingIndex + 1) % ringSize;
      if mutationRingIndex == 0 {
        mutationRingFilled := true;
      }
    }

    method RingPercentile(ring: array<int>, index: int, filled: bool, p: real, ghost h: seq<int>) returns (d: int)
      requires ringSize == ring.Length && p >= 0.0 && Ring(h, ring[..], index, filled)
      ensures d == Percentile(Window(h, ringSize), p)
    {
      hide Percentile, Window;
      SlotsHoldWindow(h, ring[..], index, filled);
      var size := ringSize;
      if !filled {
        size := index;
      }
      assert ring[..][..size] == ring[..size];
      PercentileOfPermutation(ring[..size], Window(h, ringSize), p);
      PercentileOfSlots(ring[..size], p);
      if size == 0 {
        return 0;
      }
      var sorted := Sort(IntLeq, ring[..size]);
      return sorted[Rank(size, p)];
    }

    method GetStats(enabled: bool) returns (snapshot: AdmissionSnapshot)
      requires Valid()
      ensures snapshot == AdmissionReport(validations, mutations, ringSize, enabled)
    {
      var valAvg, valMax, mutAvg, mutMax := 0, 0, 0, 0;
      if validationTotal > 0 {
        valAvg := TruncDiv(validationTotalLatency, validationTotal);
        valMax := validationMaxLatency;
      }
      var valP95 := RingPercentile(validationRing, validationRingIndex, validationRingFilled, P95,
        Latencies(validations));
      if mutationTotal > 0 {
        mutAvg := TruncDiv(mutationTotalLatency, mutationTotal);
        mutMax := mutationMaxLatency;
      }
      var mutP95 := RingPercentile(mutationRing, mutationRingIndex, mutationRingFilled, P95, Latencies(mutations));
      snapshot := AdmissionSnapshot(
        validationTotal, validationAllowed, validationDenied, validationWarned, valAvg, valP95, valMax,
        mutationTotal, mutationApplied, mutationSkipped, mutAvg, mutP95, mutMax, enabled);
    }
  }

  lemma ValidationCounts(events: seq<Event>, e: Event)
    requires e.Timed?
    ensures Latencies(events + [e]) == Latencies(events) + [e.latency]
    ensures Count(events + [e], Allowed) == Count(events, Allowed) + if e.outcome == Allowed then 1 else 0
    ensures Count(events + [e], Denied) == Count(events, Denied) + if e.outcome == Denied then 1 else 0
    ensures Count(events + [e], Warned) == Count(events, Warned) + if e.outcome == Warned then 1 else 0
  {
    hide Latencies, Count;
    LatenciesStep(events, e);
    CountStep(events, e, Allowed);
    CountStep(events, e, Denied);
    CountStep(events, e, Warned);
  }

  lemma MutationCounts(events: seq<Event>, e: Event)
    requires e.Timed?
    ensures Latencies(events + [e]) == Latencies(events) + [e.latency]
    ensures Count(events + [e], Applied) == Count(events, Applied) + if e.outcome == Applied then 1 else 0
    ensures Count(events + [e], Skipped) == Count(events, Skipped) + if e.outcome == Skipped then 1 else 0
  {
    hide Latencies, Count;
    LatenciesStep(events, e);
    CountStep(events, e, Applied);
    CountStep(events, e, Skipped);
  }

  lemma OutcomesStep(events: seq<Event>, e: Event, allowed: set<Outcome>)
    requires Outcomes(events, allowed) && (e.Timed? ==> e.outcome in allowed)
    ensures Outcomes(events + [e], allowed)
  {
  }

  lemma PercentileOfSlots(slots: seq<int>, p: real)
    requires p >= 0.0
    ensures Percentile(slots, p) == if |slots| == 0 then 0 else Sort(IntLeq, slots)[Rank(|slots|, p)]
  {
  }

  // ---------------------------------------------------------------- what the snapshots promise

  /** The totals are the sums of their outcome counters. */
  lemma TotalsAddUp(a: AdmissionStats)
    requires a.Valid()
    ensures a.validationTotal == a.validationAllowed + a.validationDenied + a.validationWarned
    ensures a.mutationTotal == a.mutationApplied + a.mutationSkipped
  {
    CountsAddUp(a.validations, Allowed, Denied, Warned);
    assert Outcomes(a.mutations, {Applied, Skipped, Converted});
    CountsAddUp(a.mutations, Applied, Skipped, Converted);
    NeverCounted(a.mutations, Converted, {Applied, Skipped});
  }

  lemma {:induction false} NeverCounted(events: seq<Event>, outcome: Outcome, allowed: set<Outcome>)
    requires Outcomes(events, allowed) && outcome !in allowed
    ensures Count(events, outcome) == 0
  {
    if events != [] {
      assert events[|events| - 1] in events;
      NeverCounted(events[..|events| - 1], outcome, allowed);
    }
  }

  /** Fed the same latencies with the same window, both trackers report the same numbers. */
  method CompareTrackers(c: ConversionStats, a: AdmissionStats, enabled: bool)
    returns (x: ConversionSnapshot, y: AdmissionSnapshot)
    requires c.Valid() && a.Valid() && c.ringSize == a.ringSize
    requires Latencies(c.events) == Latencies(a.validations)
    ensures x.avg == y.valAvg && x.p95 == y.valP95 && x.max == y.valMax && x.success == y.validationTotal
    ensures x.total == x.success + x.failed
    ensures y.validationTotal == y.validationAllowed + y.validationDenied + y.validationWarned
    ensures y.mutationTotal == y.mutationApplied + y.mutationSkipped
    ensures (forall d :: d in Latencies(c.events) ==> d > 0) ==> x.min <= x.avg <= x.max && x.p95 <= x.max
  {
    x := c.GetStats();
    y := a.GetStats(enabled);
    TotalsAddUp(a);
    var h := Latencies(c.events);
    if h == [] {
      SnapshotOfNothing(h, c.ringSize);
    } else if forall d :: d in h ==> d > 0 {
      PositiveDurationsAreOrdered(h, c.ringSize);
    }
  }

  lemma SnapshotOfNothing(h: seq<int>, window: nat)
    requires h == []
    ensures Average(h) == 0 && MaxField(h) == 0 && MinField(h) == 0 && Percentile(Window(h, window), P95) == 0
  {
  }
}
