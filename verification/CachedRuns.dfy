/**
Runs of the external-call runner that share its cache: when no run sees the cache, and what a run
makes of an answer that a fetch would not have given.
*/
module CachedRuns {
  import opened JsonValues
  import opened Ordering
  import opened ExternalCalls

  // ---------------------------------------------------------------- all runs that share a cache

  /** One run: what its resolver starts with, and its calls. */
  datatype Episode = Episode(start: View, calls: seq<Call>)

  /** A call with its rendered parts. */
  datatype Question = Question(call: Call, prepared: Prepared)

  function QuestionKey(env: Env, q: Question): string {
    KeyOf(env, q.call, q.prepared)
  }

  function AnswerTo(env: Env, q: Question): Result<Entry, string> {
    Uncached(env, q.call, q.prepared)
  }

  /** What the rest of an uncached run asks its backends. */
  function Asked(env: Env, start: View, calls: seq<Call>, i: nat, results: map<string, Entry>,
      injected: bool): set<Question>
    requires i <= |calls|
    decreases |calls| - i
  {
    var view := Seen(start, results, injected);
    if i == |calls| then {}
    else
      var c := calls[i];
      if !env.holds(view, c.conditions) then
        Asked(env, start, calls, i + 1, results[c.name := SkippedResult(c.protocol)], injected)
      else
        match Prepare(env, view, c, i)
        case Failure(_) => {}
        case Success(p) =>
          var r := Uncached(env, c, p);
          {Question(c, p)} + if r.Failure? || (ErrorOf(r.value) != "" && !c.continueOnError) then {}
                             else Asked(env, start, calls, i + 1, results[c.name := r.value], true)
  }

  /** What an error of a run says: which call stopped it, and why. */
  ghost predicate Explains(env: Env, start: View, calls: seq<Call>, asked: set<Question>, error: Option<CallError>) {
    match error
    case None =>
      forall q :: q in asked && !q.call.continueOnError ==>
        AnswerTo(env, q).Success? && ErrorOf(AnswerTo(env, q).value) == ""
    case Some(Unresolved(k, part, msg)) =>
      k < |calls| && exists view: View ::
        view.data == start.data && env.holds(view, calls[k].conditions)
        && (part, Failure(msg)) in Parts(env, view, calls[k])
    case Some(Hard(name, msg)) =>
      exists q ::
        q in asked && q.call.name == name && !q.call.continueOnError
        && env.fetch(q.call, q.prepared) == Failure(msg)
    case Some(Soft(name, msg)) =>
      msg != "" && exists q ::
        q in asked && q.call.name == name && !q.call.continueOnError
        && env.fetch(q.call, q.prepared).Success? && ErrorOf(env.fetch(q.call, q.prepared).value) == msg
  }

  /** A run stops at a call that cannot be resolved, or at a strict one that fails, and at no other. */
  lemma {:induction false} RunStopsFor(env: Env, start: View, calls: seq<Call>, i: nat, results: map<string, Entry>,
      injected: bool)
    requires i <= |calls|
    ensures Explains(env, start, calls, Asked(env, start, calls, i, results, injected),
      RunFrom(env, start, calls, i, results, injected).error)
    decreases |calls| - i
  {
    hide ErrorOf, SkippedResult, Prepare, Parts, Uncached;
    if i < |calls| {
      var c, view := calls[i], Seen(start, results, injected);
      if !env.holds(view, c.conditions) {
        RunStopsFor(env, start, calls, i + 1, results[c.name := SkippedResult(c.protocol)], injected);
      } else {
        PrepareIff(env, view, c, i);
        if Prepare(env, view, c, i).Success? {
          var q := Question(c, Prepare(env, view, c, i).value);
          var r := AnswerTo(env, q);
          UncachedMeans(env, q.call, q.prepared);
          if r.Success? && !(ErrorOf(r.value) != "" && !c.continueOnError) {
            RunStopsFor(env, start, calls, i + 1, results[c.name := r.value], true);
            assert Asked(env, start, calls, i, results, injected)
              == {q} + Asked(env, start, calls, i + 1, results[c.name := r.value], true);
          }
        }
      }
    }
  }

  lemma UncachedMeans(env: Env, c: Call, p: Prepared)
    ensures var r := Uncached(env, c, p);
      && (r.Failure? <==> env.fetch(c, p).Failure? && !c.continueOnError) && (r.Failure? ==> r == env.fetch(c, p))
      && (env.fetch(c, p).Success? ==> r == env.fetch(c, p))
      && (env.fetch(c, p).Failure? && c.continueOnError ==> r == Success(ErrorResult(env.fetch(c, p).error)))
  {
  }

  /** A result stays where later calls and the caller find it, as long as no later call has the same name. */
  lemma {:induction false} ResultStays(env: Env, start: View, calls: seq<Call>, i: nat, results: map<string, Entry>,
      name: string)
    requires i <= |calls| && name in results && forall k :: i <= k < |calls| ==> calls[k].name != name
    ensures var seen := RunFrom(env, start, calls, i, results, true).view.external;
      seen.Some? && name in seen.value && seen.value[name] == results[name]
    decreases |calls| - i
  {
    hide ErrorOf, SkippedResult, Prepare, Uncached;
    if i < |calls| {
      var c, view := calls[i], Seen(start, results, true);
      if !env.holds(view, c.conditions) {
        ResultStays(env, start, calls, i + 1, results[c.name := SkippedResult(c.protocol)], name);
      } else if Prepare(env, view, c, i).Success? {
        var r := Uncached(env, c, Prepare(env, view, c, i).value);
        if r.Success? && !(ErrorOf(r.value) != "" && !c.continueOnError) {
          ResultStays(env, start, calls, i + 1, results[c.name := r.value], name);
        }
      }
    }
  }

  /** After a run every answer is found under the name of its call, that of a failing call included. */
  lemma {:induction false} AnswersAreVisible(env: Env, start: View, calls: seq<Call>, i: nat,
      results: map<string, Entry>, injected: bool, q: Question)
    requires i <= |calls| && forall j, k :: i <= j < k < |calls| ==> calls[j].name != calls[k].name
    requires q in Asked(env, start, calls, i, results, injected) && AnswerTo(env, q).Success?
    ensures var seen := RunFrom(env, start, calls, i, results, injected).view.external;
      seen.Some? && q.call.name in seen.value && seen.value[q.call.name] == AnswerTo(env, q).value
    decreases |calls| - i
  {
    hide ErrorOf, SkippedResult, Prepare, Uncached;
    if i < |calls| {
      var c, view := calls[i], Seen(start, results, injected);
      if !env.holds(view, c.conditions) {
        AnswersAreVisible(env, start, calls, i + 1, results[c.name := SkippedResult(c.protocol)], injected, q);
      } else {
        var p := Prepare(env, view, c, i).value;
        var r := Uncached(env, c, p);
        if r.Success? && !(ErrorOf(r.value) != "" && !c.continueOnError) {
          if q == Question(c, p) {
            ResultStays(env, start, calls, i + 1, results[c.name := r.value], c.name);
          } else {
            AnswersAreVisible(env, start, calls, i + 1, results[c.name := r.value], true, q);
          }
        }
      }
    }
  }

  function QuestionsOf(env: Env, e: Episode): set<Question> {
    Asked(env, e.start, e.calls, 0, map[], false)
  }

  /** The answer is kept for a while. */
  predicate Keeps(env: Env, q: Question) {
    q.call.cacheFor != "" && AnswerTo(env, q).Success?
    && var ttl := env.ttl(q.call.cacheFor); ttl.Some? && ttl.value >= 0
  }

  /** A call that looks where another one keeps its answer has that answer itself. */
  predicate Interchangeable(env: Env, q: Question, q': Question) {
    Keeps(env, q) && q'.call.cacheFor != "" && QuestionKey(env, q) == QuestionKey(env, q') ==>
      AnswerTo(env, q) == AnswerTo(env, q')
  }

  /** Among these runs, the answers of cached calls depend on the key only. */
  ghost predicate KeyDetermined(env: Env, runs: iset<Episode>) {
    forall e, e', q, q' :: e in runs && e' in runs && q in QuestionsOf(env, e) && q' in QuestionsOf(env, e') ==>
      Interchangeable(env, q, q')
  }

  /** The cache after a history of runs, empty at first. */
  function CacheAfter(env: Env, reading: nat -> int, history: seq<Episode>): Store {
    if history == [] then Store(map[], 0)
    else
      var e := history[|history| - 1];
      CachedFrom(env, reading, e.start, e.calls, 0, map[], false,
        CacheAfter(env, reading, history[..|history| - 1])).1
  }

  ghost predicate AgreesThroughout(env: Env, reading: nat -> int, e: Episode, s: Store) {
    forall k :: 0 <= k <= |e.calls| ==>
      CachedFrom(env, reading, e.start, e.calls[..k], 0, map[], false, s).0
        == RunFrom(env, e.start, e.calls[..k], 0, map[], false)
  }

  /** Whatever the clock and the runs before it, no run sees the cache at any of its calls. */
  ghost predicate CacheInvisible(env: Env, runs: iset<Episode>) {
    forall reading, history, e :: Monotone(reading) && e in runs && (forall h :: h in history ==> h in runs) ==>
      AgreesThroughout(env, reading, e, CacheAfter(env, reading, history))
  }

  // ---------------------------------------------------------------- answers that depend on the key only

  /** Entries that have not expired are known answers. */
  ghost predicate Truthful(reading: nat -> int, s: Store, known: (string, Entry) -> bool) {
    forall k :: k in s.entries && reading(s.ticks) <= s.entries[k].expiresAt ==> known(k, s.entries[k].data)
  }

  lemma LookedTruthful(reading: nat -> int, s: Store, key: string, known: (string, Entry) -> bool)
    requires Monotone(reading) && Truthful(reading, s, known)
    ensures var (found, s') := Looked(reading, s, key);
      Truthful(reading, s', known) && (found.Some? ==> known(key, found.value))
  {
    assert reading(s.ticks) <= reading(s.ticks + 1);
  }

  lemma KeptTruthful(reading: nat -> int, s: Store, key: string, data: Entry, ttl: int,
      known: (string, Entry) -> bool)
    requires Monotone(reading) && Truthful(reading, s, known) && (ttl >= 0 ==> known(key, data))
    ensures Truthful(reading, Kept(reading, s, key, data, ttl), known)
  {
    assert reading(s.ticks) <= reading(s.ticks + 1);
  }

  /** What is found is a known answer, and as long as known answers are kept, every unexpired entry stays one. */
  lemma ObtainedTruthful(env: Env, reading: nat -> int, c: Call, p: Prepared, s: Store,
      known: (string, Entry) -> bool)
    requires Monotone(reading) && Truthful(reading, s, known)
    requires Keeps(env, Question(c, p)) ==> known(KeyOf(env, c, p), Uncached(env, c, p).value)
    ensures var (found, _) := Hit(env, reading, c, p, s);
      && Truthful(reading, Obtained(env, reading, c, p, s).1, known)
      && (found.Some? ==> c.cacheFor != "" && known(KeyOf(env, c, p), found.value))
  {
    hide Looked, Kept, Truthful, KeyOf, Uncached;
    var key := KeyOf(env, c, p);
    if c.cacheFor != "" {
      LookedTruthful(reading, s, key, known);
      var s' := Looked(reading, s, key).1;
      if Uncached(env, c, p).Success? && env.ttl(c.cacheFor).Some? {
        KeptTruthful(reading, s', key, Uncached(env, c, p).value, env.ttl(c.cacheFor).value, known);
      }
    }
  }

  /** Whatever is known under the key of a cached call is its answer, and what it keeps is known. */
  ghost predicate Settled(env: Env, q: Question, known: (string, Entry) -> bool) {
    && (q.call.cacheFor != "" ==> forall d :: known(QuestionKey(env, q), d) ==> AnswerTo(env, q) == Success(d))
    && (Keeps(env, q) ==> known(QuestionKey(env, q), AnswerTo(env, q).value))
  }

  lemma ObtainedSettled(env: Env, reading: nat -> int, q: Question, s: Store, known: (string, Entry) -> bool)
    requires Monotone(reading) && Truthful(reading, s, known) && Settled(env, q, known)
    ensures var (r, s') := Obtained(env, reading, q.call, q.prepared, s);
      r == AnswerTo(env, q) && Truthful(reading, s', known)
  {
    hide Obtained, Hit, Uncached, Truthful, Keeps, KeyOf, Monotone;
    ObtainedTruthful(env, reading, q.call, q.prepared, s, known);
    ObtainedUncachedIff(env, reading, q.call, q.prepared, s);
    var (found, _) := Hit(env, reading, q.call, q.prepared, s);
    if found.Some? {
      assert known(QuestionKey(env, q), found.value);
    }
  }

  lemma {:induction false} SettledNeverWrong(env: Env, reading: nat -> int, start: View, calls: seq<Call>, i: nat,
      results: map<string, Entry>, injected: bool, s: Store, known: (string, Entry) -> bool)
    requires i <= |calls| && Monotone(reading) && Truthful(reading, s, known)
    requires forall q :: q in Asked(env, start, calls, i, results, injected) ==> Settled(env, q, known)
    ensures FirstWrong(env, reading, start, calls, i, results, injected, s).None?
    ensures Truthful(reading, CachedFrom(env, reading, start, calls, i, results, injected, s).1, known)
    decreases |calls| - i
  {
    hide Obtained, Hit, Uncached, Truthful, ErrorOf, SkippedResult, Prepare, Seen, Keeps, KeyOf, Monotone;
    if i < |calls| {
      var c, view := calls[i], Seen(start, results, injected);
      if !env.holds(view, c.conditions) {
        SettledNeverWrong(env, reading, start, calls, i + 1, results[c.name := SkippedResult(c.protocol)], injected,
          s, known);
      } else if Prepare(env, view, c, i).Success? {
        var p := Prepare(env, view, c, i).value;
        var q := Question(c, p);
        ObtainedSettled(env, reading, q, s, known);
        ObtainedUncachedIff(env, reading, c, p, s);
        var (r, s') := Obtained(env, reading, c, p, s);
        if r.Success? && !(ErrorOf(r.value) != "" && !c.continueOnError) {
          assert Asked(env, start, calls, i, results, injected)
            == {q} + Asked(env, start, calls, i + 1, results[c.name := r.value], true);
          SettledNeverWrong(env, reading, start, calls, i + 1, results[c.name := r.value], true, s', known);
        }
      }
    }
  }

  /** What some run has fetched and kept under the key. */
  ghost predicate Fetched(env: Env, runs: iset<Episode>, key: string, d: Entry) {
    exists e, q :: e in runs && q in QuestionsOf(env, e) && Keeps(env, q) && QuestionKey(env, q) == key
      && AnswerTo(env, q) == Success(d)
  }

  ghost function FetchedBy(env: Env, runs: iset<Episode>): (string, Entry) -> bool {
    (key, d) => Fetched(env, runs, key, d)
  }

  lemma DeterminedSettles(env: Env, runs: iset<Episode>, e: Episode, q: Question)
    requires KeyDetermined(env, runs) && e in runs && q in QuestionsOf(env, e)
    ensures Settled(env, q, FetchedBy(env, runs))
  {
    hide QuestionsOf, QuestionKey, AnswerTo;
    var known := FetchedBy(env, runs);
    if q.call.cacheFor != "" {
      forall d | known(QuestionKey(env, q), d) ensures AnswerTo(env, q) == Success(d) {
        var e', q' :| e' in runs && q' in QuestionsOf(env, e') && Keeps(env, q')
          && QuestionKey(env, q') == QuestionKey(env, q) && AnswerTo(env, q') == Success(d);
        assert Interchangeable(env, q', q);
      }
    }
    if Keeps(env, q) {
      assert Fetched(env, runs, QuestionKey(env, q), AnswerTo(env, q).value);
    }
  }

  lemma DeterminedRun(env: Env, reading: nat -> int, runs: iset<Episode>, e: Episode, s: Store)
    requires KeyDetermined(env, runs) && e in runs && Monotone(reading) && Truthful(reading, s, FetchedBy(env, runs))
    ensures FirstWrong(env, reading, e.start, e.calls, 0, map[], false, s).None?
    ensures Truthful(reading, CachedFrom(env, reading, e.start, e.calls, 0, map[], false, s).1, FetchedBy(env, runs))
  {
    hide *;
    forall q | q in Asked(env, e.start, e.calls, 0, map[], false) ensures Settled(env, q, FetchedBy(env, runs)) {
      InQuestionsOf(env, e, q);
      DeterminedSettles(env, runs, e, q);
    }
    SettledNeverWrong(env, reading, e.start, e.calls, 0, map[], false, s, FetchedBy(env, runs));
  }

  lemma InQuestionsOf(env: Env, e: Episode, q: Question)
    ensures q in Asked(env, e.start, e.calls, 0, map[], false) <==> q in QuestionsOf(env, e)
  {
  }

  lemma {:induction false} DeterminedHistory(env: Env, reading: nat -> int, runs: iset<Episode>, history: seq<Episode>)
    requires KeyDetermined(env, runs) && Monotone(reading) && forall h :: h in history ==> h in runs
    ensures Truthful(reading, CacheAfter(env, reading, history), FetchedBy(env, runs))
  {
    hide KeyDetermined, FetchedBy, Monotone, CachedFrom;
    if history != [] {
      var n := |history| - 1;
      DeterminedHistory(env, reading, runs, history[..n]);
      assert history[n] in runs;
      DeterminedRun(env, reading, runs, history[n], CacheAfter(env, reading, history[..n]));
    }
  }

  // ---------------------------------------------------------------- answers that do not

  /** A clock that stands still. */
  function Still(n: nat): int {
    0
  }

  /** Under that clock, an entry that has not expired. */
  predicate Unexpired(s: Store, key: string, d: Entry) {
    key in s.entries && s.entries[key].data == d && s.entries[key].expiresAt >= 0
  }

  lemma ObtainedUnexpired(env: Env, c: Call, p: Prepared, s: Store, key: string, d: Entry)
    requires Unexpired(s, key, d)
    ensures Unexpired(Obtained(env, Still, c, p, s).1, key, d)
    ensures c.cacheFor != "" && KeyOf(env, c, p) == key ==> Hit(env, Still, c, p, s).0 == Some(d)
  {
    hide KeyOf, Uncached;
  }

  lemma ObtainedKeeps(env: Env, c: Call, p: Prepared, s: Store)
    requires Keeps(env, Question(c, p)) && Obtained(env, Still, c, p, s).0 == Uncached(env, c, p)
    ensures Unexpired(Obtained(env, Still, c, p, s).1, KeyOf(env, c, p), Uncached(env, c, p).value)
  {
    hide KeyOf, Uncached;
  }

  /** An unexpired entry answers every later call with its key. */
  lemma {:induction false} HeldAnswers(env: Env, start: View, calls: seq<Call>, i: nat, results: map<string, Entry>,
      injected: bool, s: Store, key: string, d: Entry)
    requires i <= |calls| && Unexpired(s, key, d)
    requires FirstWrong(env, Still, start, calls, i, results, injected, s).None?
    ensures Unexpired(CachedFrom(env, Still, start, calls, i, results, injected, s).1, key, d)
    ensures forall q | q in Asked(env, start, calls, i, results, injected) ::
      q.call.cacheFor != "" && QuestionKey(env, q) == key ==> AnswerTo(env, q) == Success(d)
    decreases |calls| - i
  {
    hide Obtained, Hit, Uncached, ErrorOf, SkippedResult, Prepare, Seen, KeyOf, Unexpired;
    if i < |calls| {
      var c, view := calls[i], Seen(start, results, injected);
      if !env.holds(view, c.conditions) {
        HeldAnswers(env, start, calls, i + 1, results[c.name := SkippedResult(c.protocol)], injected, s, key, d);
      } else if Prepare(env, view, c, i).Success? {
        var p := Prepare(env, view, c, i).value;
        ObtainedUnexpired(env, c, p, s, key, d);
        ObtainedUncachedIff(env, Still, c, p, s);
        var (r, s') := Obtained(env, Still, c, p, s);
        if r.Success? && !(ErrorOf(r.value) != "" && !c.continueOnError) {
          HeldAnswers(env, start, calls, i + 1, results[c.name := r.value], true, s', key, d);
        }
      }
    }
  }

  /** A run without wrong answers leaves in the cache what its calls keep. */
  lemma {:induction false} KeptIsHeld(env: Env, start: View, calls: seq<Call>, i: nat, results: map<string, Entry>,
      injected: bool, s: Store, q: Question)
    requires i <= |calls| && q in Asked(env, start, calls, i, results, injected) && Keeps(env, q)
    requires FirstWrong(env, Still, start, calls, i, results, injected, s).None?
    ensures Unexpired(CachedFrom(env, Still, start, calls, i, results, injected, s).1, QuestionKey(env, q),
      AnswerTo(env, q).value)
    decreases |calls| - i
  {
    hide Obtained, Hit, Uncached, ErrorOf, SkippedResult, Prepare, Seen, KeyOf, Unexpired;
    if i < |calls| {
      var c, view := calls[i], Seen(start, results, injected);
      if !env.holds(view, c.conditions) {
        KeptIsHeld(env, start, calls, i + 1, results[c.name := SkippedResult(c.protocol)], injected, s, q);
      } else {
        var p := Prepare(env, view, c, i).value;
        ObtainedUncachedIff(env, Still, c, p, s);
        var (r, s') := Obtained(env, Still, c, p, s);
        if q == Question(c, p) {
          ObtainedKeeps(env, c, p, s);
          if !(ErrorOf(r.value) != "" && !c.continueOnError) {
            HeldAnswers(env, start, calls, i + 1, results[c.name := r.value], true, s', QuestionKey(env, q), r.value);
          }
        } else {
          KeptIsHeld(env, start, calls, i + 1, results[c.name := r.value], true, s', q);
        }
      }
    }
  }

  /** Two runs one after the other, the clock standing still. */
  lemma InvisibleTwice(env: Env, runs: iset<Episode>, e: Episode, e': Episode, q: Question, q': Question)
    requires CacheInvisible(env, runs) && e in runs && e' in runs
    requires q in QuestionsOf(env, e) && q' in QuestionsOf(env, e')
    ensures Interchangeable(env, q, q')
  {
    hide FirstWrong, CachedFrom, RunFrom, Asked, KeyOf, Uncached, Unexpired;
    if Keeps(env, q) && q'.call.cacheFor != "" && QuestionKey(env, q) == QuestionKey(env, q') {
      var s, s' := CacheAfter(env, Still, []), CacheAfter(env, Still, [e]);
      assert AgreesThroughout(env, Still, e, s) && AgreesThroughout(env, Still, e', s');
      CachedAgreesIff(env, Still, e.start, e.calls, s);
      CachedAgreesIff(env, Still, e'.start, e'.calls, s');
      KeptIsHeld(env, e.start, e.calls, 0, map[], false, s, q);
      assert [e][..0] == [];
      HeldAnswers(env, e'.start, e'.calls, 0, map[], false, s', QuestionKey(env, q), AnswerTo(env, q).value);
    }
  }

  /**
  When caching is right: no run ever sees the cache, whatever the clock and the runs before, if and
  only if each cached call has the answer that any call of these runs keeps under its key.
  */
  lemma CacheInvisibleIff(env: Env, runs: iset<Episode>)
    ensures CacheInvisible(env, runs) <==> KeyDetermined(env, runs)
  {
    hide FirstWrong, CachedFrom, RunFrom, QuestionsOf, Interchangeable, CacheAfter, Monotone, FetchedBy, Truthful;
    if CacheInvisible(env, runs) {
      forall e, e', q, q' | e in runs && e' in runs && q in QuestionsOf(env, e) && q' in QuestionsOf(env, e')
        ensures Interchangeable(env, q, q')
      {
        InvisibleTwice(env, runs, e, e', q, q');
      }
    }
    if KeyDetermined(env, runs) {
      forall reading, history, e | Monotone(reading) && e in runs && (forall h :: h in history ==> h in runs)
        ensures AgreesThroughout(env, reading, e, CacheAfter(env, reading, history))
      {
        var s := CacheAfter(env, reading, history);
        DeterminedHistory(env, reading, runs, history);
        DeterminedRun(env, reading, runs, e, s);
        CachedAgreesIff(env, reading, e.start, e.calls, s);
      }
    }
  }

  /**
  The runner on any cache: the uncached run unless a lookup finds something else, which never
  happens among runs whose answers depend on the key only.
  */
  method RunRefinesUncached(env: Env, resolver: Resolver, calls: seq<Call>, cache: ResultCache, clock: Clock,
      ghost runs: iset<Episode>)
    returns (out: Resolver, error: Option<CallError>)
    requires Monotone(clock.reading)
    modifies cache, clock
    ensures FirstWrong(env, clock.reading, old(ViewOf(resolver)), calls, 0, map[], false,
      old(StoreOf(cache, clock))).None? ==>
        Outcome(ViewOf(out), error) == RunFrom(env, old(ViewOf(resolver)), calls, 0, map[], false)
    ensures
      (KeyDetermined(env, runs) && Episode(old(ViewOf(resolver)), calls) in runs
        && old(Truthful(clock.reading, StoreOf(cache, clock), FetchedBy(env, runs)))) ==>
      (Outcome(ViewOf(out), error) == RunFrom(env, old(ViewOf(resolver)), calls, 0, map[], false)
        && Truthful(clock.reading, StoreOf(cache, clock), FetchedBy(env, runs)))
    ensures ViewOf(resolver) == old(ViewOf(resolver))
  {
    hide *;
    ghost var start, before := ViewOf(resolver), StoreOf(cache, clock);
    out, error := Run(env, resolver, calls, cache, clock);
    assert calls[..|calls|] == calls;
    if FirstWrong(env, clock.reading, start, calls, 0, map[], false, before).None? {
      AgreesUntil(env, clock.reading, start, calls, 0, map[], false, before, |calls|);
    }
    if KeyDetermined(env, runs) && Episode(start, calls) in runs
      && Truthful(clock.reading, before, FetchedBy(env, runs)) {
      DeterminedRun(env, clock.reading, runs, Episode(start, calls), before);
    }
  }

  // ---------------------------------------------------------------- a backend that looks at nothing but the key

  /** A cached call's answer depends only on its cache key. */
  ghost predicate FixedPerKey(env: Env, calls: seq<Call>, answer: string -> Result<Entry, string>) {
    forall c, p :: c in calls && c.cacheFor != "" ==> env.fetch(c, p) == answer(KeyOf(env, c, p))
  }

  /** The answers of a backend that looks at nothing but the key. */
  ghost function Gives(answer: string -> Result<Entry, string>): (string, Entry) -> bool {
    (key, d) => d == Recorded(answer(key))
  }

  /** Where the uncached run stops on a hard failure, and what the cached run has by then. */
  datatype Stop = Stop(index: nat, key: string, msg: string, results: map<string, Entry>, injected: bool, store: Store)

  /** The call that ends the uncached run with a hard failure while the cache still answers it, if there is one. */
  ghost function Shadow(env: Env, reading: nat -> int, start: View, calls: seq<Call>, i: nat,
      results: map<string, Entry>, injected: bool, s: Store): (stop: Option<Stop>)
    requires i <= |calls|
    ensures stop.Some? ==> i <= stop.value.index < |calls|
    decreases |calls| - i
  {
    var view := Seen(start, results, injected);
    if i == |calls| then None
    else
      var c := calls[i];
      if !env.holds(view, c.conditions) then
        Shadow(env, reading, start, calls, i + 1, results[c.name := SkippedResult(c.protocol)], injected, s)
      else
        match Prepare(env, view, c, i)
        case Failure(_) => None
        case Success(p) =>
          var r := Uncached(env, c, p);
          if r.Failure? then
            var (cached, s') := Hit(env, reading, c, p, s);
            if cached.Some? then Some(Stop(i, KeyOf(env, c, p), r.error, results, injected, s')) else None
          else if ErrorOf(r.value) != "" && !c.continueOnError then None
          else
            Shadow(env, reading, start, calls, i + 1, results[c.name := r.value], true,
              Obtained(env, reading, c, p, s).1)
  }

  /** How a cached run goes on from a shadowed call: with the failure as the call's entry. */
  function Resumed(env: Env, reading: nat -> int, start: View, calls: seq<Call>, stop: Stop): Outcome
    requires stop.index < |calls|
  {
    var c := calls[stop.index];
    var results := stop.results[c.name := ErrorResult(stop.msg)];
    if stop.msg != "" then Outcome(Seen(start, results, true), Some(Soft(c.name, stop.msg)))
    else CachedFrom(env, reading, start, calls, stop.index + 1, results, true, stop.store).0
  }

  lemma ErrorOfResult(msg: string)
    ensures ErrorOf(ErrorResult(msg)) == msg
  {
  }

  lemma UncachedIsRecorded(env: Env, c: Call, p: Prepared)
    ensures Uncached(env, c, p).Success? ==> Uncached(env, c, p) == Success(Recorded(env.fetch(c, p)))
    ensures Uncached(env, c, p).Failure? ==>
      && env.fetch(c, p) == Uncached(env, c, p) && !c.continueOnError
      && Recorded(env.fetch(c, p)) == ErrorResult(Uncached(env, c, p).error)
      && ErrorOf(ErrorResult(Uncached(env, c, p).error)) == Uncached(env, c, p).error
  {
  }

  lemma FixedIsKnown(env: Env, calls: seq<Call>, c: Call, p: Prepared, answer: string -> Result<Entry, string>)
    requires c in calls && FixedPerKey(env, calls, answer)
    ensures Keeps(env, Question(c, p)) ==> Gives(answer)(KeyOf(env, c, p), Uncached(env, c, p).value)
    ensures c.cacheFor != "" ==> forall d :: Gives(answer)(KeyOf(env, c, p), d) <==> d == Recorded(env.fetch(c, p))
  {
    hide KeyOf;
  }

  /**
  The cached run against the uncached one, for every call list and clock: the same view and error,
  unless a call that ends the uncached run with a hard failure is shadowed by a cached answer;
  then the cached run goes on with that failure as the call's entry.
  */
  lemma {:induction false} CachedRunIs(env: Env, reading: nat -> int, start: View, calls: seq<Call>, i: nat,
      results: map<string, Entry>, injected: bool, s: Store, answer: string -> Result<Entry, string>)
    requires i <= |calls| && Monotone(reading) && FixedPerKey(env, calls, answer) && Truthful(reading, s, Gives(answer))
    ensures var shadow := Shadow(env, reading, start, calls, i, results, injected, s);
      var cached := CachedFrom(env, reading, start, calls, i, results, injected, s);
      && Truthful(reading, cached.1, Gives(answer))
      && cached.0 == match shadow
        case None => RunFrom(env, start, calls, i, results, injected)
        case Some(stop) => Resumed(env, reading, start, calls, stop)
    decreases |calls| - i
  {
    hide Obtained, Hit, Uncached, Truthful, ErrorOf, SkippedResult, Prepare, Seen, Keeps, Gives, FixedPerKey;
    if i < |calls| {
      var c, view := calls[i], Seen(start, results, injected);
      if !env.holds(view, c.conditions) {
        CachedRunIs(env, reading, start, calls, i + 1, results[c.name := SkippedResult(c.protocol)], injected, s,
          answer);
      } else if Prepare(env, view, c, i).Success? {
        var p := Prepare(env, view, c, i).value;
        assert c in calls;
        FixedIsKnown(env, calls, c, p, answer);
        ObtainedTruthful(env, reading, c, p, s, Gives(answer));
        ObtainedUncachedIff(env, reading, c, p, s);
        UncachedIsRecorded(env, c, p);
        var (found, _) := Hit(env, reading, c, p, s);
        assert found.Some? ==> found.value == Recorded(env.fetch(c, p));
        var (r, s') := Obtained(env, reading, c, p, s);
        if r.Success? {
          CachedRunIs(env, reading, start, calls, i + 1, results[c.name := r.value], true, s', answer);
        }
      }
    }
  }

  /** Then the only wrong answer a run can get is that of a shadowed call. */
  lemma {:induction false} ShadowIsFirstWrong(env: Env, reading: nat -> int, start: View, calls: seq<Call>, i: nat,
      results: map<string, Entry>, injected: bool, s: Store, answer: string -> Result<Entry, string>)
    requires i <= |calls| && Monotone(reading) && FixedPerKey(env, calls, answer)
    requires Truthful(reading, s, Gives(answer))
    ensures var shadow := Shadow(env, reading, start, calls, i, results, injected, s);
      FirstWrong(env, reading, start, calls, i, results, injected, s)
        == if shadow.Some? then Some(shadow.value.index) else None
    decreases |calls| - i
  {
    hide Obtained, Hit, Uncached, Truthful, ErrorOf, SkippedResult, Prepare, Seen, Keeps, Gives, FixedPerKey;
    if i < |calls| {
      var c, view := calls[i], Seen(start, results, injected);
      if !env.holds(view, c.conditions) {
        ShadowIsFirstWrong(env, reading, start, calls, i + 1, results[c.name := SkippedResult(c.protocol)], injected,
          s, answer);
      } else if Prepare(env, view, c, i).Success? {
        var p := Prepare(env, view, c, i).value;
        assert c in calls;
        FixedIsKnown(env, calls, c, p, answer);
        ObtainedTruthful(env, reading, c, p, s, Gives(answer));
        UncachedIsRecorded(env, c, p);
        var r, s' := Uncached(env, c, p), Obtained(env, reading, c, p, s).1;
        if r.Success? {
          ShadowIsFirstWrong(env, reading, start, calls, i + 1, results[c.name := r.value], true, s', answer);
        }
      }
    }
  }

  /** A tolerant call that keeps a failure under this key. */
  ghost predicate KeepsFailure(env: Env, c: Call, key: string) {
    c.cacheFor != "" && c.continueOnError && env.ttl(c.cacheFor).Some?
    && exists p :: KeyOf(env, c, p) == key && env.fetch(c, p).Failure?
  }

  /** A shadowed call is answered by an entry that was there before the run or that a tolerant call kept during it. */
  lemma {:induction false} ShadowCause(env: Env, reading: nat -> int, start: View, calls: seq<Call>, i: nat,
      results: map<string, Entry>, injected: bool, s: Store, answer: string -> Result<Entry, string>)
    requires i <= |calls| && FixedPerKey(env, calls, answer)
    ensures var shadow := Shadow(env, reading, start, calls, i, results, injected, s);
      shadow.Some? ==>
        && answer(shadow.value.key) == Failure(shadow.value.msg)
        && (shadow.value.key in s.entries ||
            exists j :: i <= j < shadow.value.index && KeepsFailure(env, calls[j], shadow.value.key))
    decreases |calls| - i
  {
    hide ErrorOf, ErrorResult, SkippedResult, Prepare, Seen, Obtained, KeyOf;
    if i < |calls| {
      var c, view := calls[i], Seen(start, results, injected);
      if !env.holds(view, c.conditions) {
        ShadowCause(env, reading, start, calls, i + 1, results[c.name := SkippedResult(c.protocol)], injected, s,
          answer);
      } else if Prepare(env, view, c, i).Success? {
        var p := Prepare(env, view, c, i).value;
        assert c in calls;
        var r, s' := Uncached(env, c, p), Obtained(env, reading, c, p, s).1;
        if r.Success? {
          ShadowCause(env, reading, start, calls, i + 1, results[c.name := r.value], true, s', answer);
          var later := Shadow(env, reading, start, calls, i + 1, results[c.name := r.value], true, s');
          if later.Some? {
            NewKey(env, reading, c, p, s, later.value.key);
          }
        }
      }
    }
  }

  lemma NewKey(env: Env, reading: nat -> int, c: Call, p: Prepared, s: Store, key: string)
    ensures key in Obtained(env, reading, c, p, s).1.entries ==>
      key in s.entries || (c.cacheFor != "" && env.ttl(c.cacheFor).Some? && KeyOf(env, c, p) == key
        && (env.fetch(c, p).Failure? ==> c.continueOnError))
  {
    hide KeyOf;
  }

  /** No strict call fails outright: so it is with the clients of the program, which report errors in the entry. */
  ghost predicate NoHardFailures(env: Env, calls: seq<Call>) {
    forall c, p :: c in calls && c.cacheFor != "" ==> Uncached(env, c, p).Success?
  }

  /** Each part that is sent is the part of the call as the view renders it, the credential included. */
  ghost predicate RenderedIn(env: Env, view: View, q: Question) {
    && env.render(view, q.call.url) == Success(q.prepared.url)
    && env.render(view, q.call.query) == Success(q.prepared.query)
    && env.render(view, q.call.body) == Success(q.prepared.body)
    && env.credential(q.call.auth) == Success(q.prepared.credential)
  }

  /** What a run sends is a call of its list whose conditions hold, rendered in a view of the same data. */
  lemma {:induction false} AskedAreCalls(env: Env, start: View, calls: seq<Call>, i: nat, results: map<string, Entry>,
      injected: bool, q: Question)
    requires i <= |calls| && q in Asked(env, start, calls, i, results, injected)
    ensures q.call in calls
    ensures exists view: View ::
      view.data == start.data && env.holds(view, q.call.conditions) && RenderedIn(env, view, q)
    decreases |calls| - i
  {
    hide Uncached, ErrorOf, SkippedResult, Prepare, RenderedIn;
    if i < |calls| {
      var c, view := calls[i], Seen(start, results, injected);
      assert c in calls;
      if !env.holds(view, c.conditions) {
        AskedAreCalls(env, start, calls, i + 1, results[c.name := SkippedResult(c.protocol)], injected, q);
      } else {
        var p := Prepare(env, view, c, i).value;
        PreparedIsRendered(env, view, c, i);
        if q != Question(c, p) {
          AskedAreCalls(env, start, calls, i + 1, results[c.name := Uncached(env, c, p).value], true, q);
        }
      }
    }
  }

  lemma PreparedIsRendered(env: Env, view: View, c: Call, index: nat)
    requires Prepare(env, view, c, index).Success?
    ensures RenderedIn(env, view, Question(c, Prepare(env, view, c, index).value))
  {
    hide Prepare;
    PrepareIff(env, view, c, index);
  }

  /** A backend that looks at nothing but the key and clients that never fail outright make caching right. */
  lemma FixedPerKeySuffices(env: Env, runs: iset<Episode>, answer: string -> Result<Entry, string>)
    requires forall e :: e in runs ==> FixedPerKey(env, e.calls, answer) && NoHardFailures(env, e.calls)
    ensures KeyDetermined(env, runs) && CacheInvisible(env, runs)
  {
    hide CacheInvisible, KeyOf;
    forall e, e', q, q' | e in runs && e' in runs && q in QuestionsOf(env, e) && q' in QuestionsOf(env, e')
      ensures Interchangeable(env, q, q')
    {
      AskedAreCalls(env, e.start, e.calls, 0, map[], false, q);
      AskedAreCalls(env, e'.start, e'.calls, 0, map[], false, q');
      UncachedIsRecorded(env, q.call, q.prepared);
      UncachedIsRecorded(env, q'.call, q'.prepared);
    }
    CacheInvisibleIff(env, runs);
  }

  // ---------------------------------------------------------------- a shadowed call

  const TOLERANT := Call("x", "http", "", "u", "", "", "", "1m", true)
  const STRICT := Call("x", "http", "", "u", "", "", "", "1m", false)

  const STRICT_UNCACHED := STRICT.(cacheFor := "")

  /** Every fetch fails outright. */
  function DownEnv(msg: string): Env {
    Env("g", (v, c) => true, (v, t) => Success(t), a => Success(""), (c, p) => Failure(msg), d => Some(10))
  }

  const XKEY := CacheKey("g", "x", "u", "")
  const XPREPARED := Prepared("u", "", "", "")

  function XEntries(msg: string): map<string, Entry> {
    map["x" := ErrorResult(msg)]
  }

  function XStore(msg: string, ticks: nat): Store {
    Store(map[XKEY := Cached(ErrorResult(msg), 10)], ticks)
  }

  /** The tolerant call keeps its failure, and both runs go on. */
  lemma AfterTolerant(start: View, calls: seq<Call>, msg: string)
    requires |calls| > 0 && calls[0] == TOLERANT
    ensures RunFrom(DownEnv(msg), start, calls, 0, map[], false) ==
      RunFrom(DownEnv(msg), start, calls, 1, XEntries(msg), true)
    ensures CachedFrom(DownEnv(msg), Still, start, calls, 0, map[], false, Store(map[], 0))
      == CachedFrom(DownEnv(msg), Still, start, calls, 1, XEntries(msg), true, XStore(msg, 1))
  {
    var env := DownEnv(msg);
    ErrorOfResult(msg);
    assert Prepare(env, start, TOLERANT, 0) == Success(XPREPARED);
    assert KeyOf(env, TOLERANT, XPREPARED) == XKEY;
    assert Obtained(env, Still, TOLERANT, XPREPARED, Store(map[], 0)) == (Success(ErrorResult(msg)), XStore(msg, 1));
  }

  lemma StrictIsAnswered(view: View, index: nat, msg: string)
    ensures Prepare(DownEnv(msg), view, STRICT, index) == Success(XPREPARED)
    ensures Obtained(DownEnv(msg), Still, STRICT, XPREPARED, XStore(msg, 1)) ==
      (Success(ErrorResult(msg)), XStore(msg, 2))
  {
    assert KeyOf(DownEnv(msg), STRICT, XPREPARED) == XKEY;
  }

  /** A tolerant and a strict call with one key: the failure comes back as the cached entry's error. */
  lemma ShadowedRunDiffers(start: View)
    ensures var calls := [TOLERANT, STRICT];
      && RunFrom(DownEnv("down"), start, calls, 0, map[], false).error == Some(Hard("x", "down"))
      && CachedFrom(DownEnv("down"), Still, start, calls, 0, map[], false, Store(map[], 0)).0.error ==
        Some(Soft("x", "down"))
  {
    var calls, view := [TOLERANT, STRICT], Seen(start, XEntries("down"), true);
    ErrorOfResult("down");
    AfterTolerant(start, calls, "down");
    StrictIsAnswered(view, 1, "down");
  }

  /** Without a message the cached run goes on, here to a third call that fails as the second did without the cache. */
  lemma ShadowedRunCanAgree(start: View)
    ensures var calls := [TOLERANT, STRICT, STRICT_UNCACHED];
      var cached := CachedFrom(DownEnv(""), Still, start, calls, 0, map[], false, Store(map[], 0)).0;
      cached == RunFrom(DownEnv(""), start, calls, 0, map[], false)
      && cached == Outcome(Seen(start, XEntries(""), true), Some(Hard("x", "")))
  {
    var env, calls := DownEnv(""), [TOLERANT, STRICT, STRICT_UNCACHED];
    var view := Seen(start, XEntries(""), true);
    ErrorOfResult("");
    AfterTolerant(start, calls, "");
    StrictIsAnswered(view, 1, "");
    assert XEntries("")["x" := ErrorResult("")] == XEntries("");
    assert CachedFrom(env, Still, start, calls, 1, XEntries(""), true, XStore("", 1))
      == CachedFrom(env, Still, start, calls, 2, XEntries(""), true, XStore("", 2));
    assert Prepare(env, view, STRICT_UNCACHED, 2) == Success(XPREPARED);
    assert Obtained(env, Still, STRICT_UNCACHED, XPREPARED, XStore("", 2)) == (Failure(""), XStore("", 2));
  }

  // ---------------------------------------------------------------- a key without the body

  const OF_ID := Call("x", "http", "", "u", "", "{{ .id }}", "", "1m", false)

  /** The body is the resource's id, and the backend sends it back. */
  function EchoEnv(): Env {
    Env("g", (v, c) => true,
      (v: View, t) =>
        Success(if t == "{{ .id }}" && "id" in v.data && v.data["id"].Text? then v.data["id"].text else t),
      a => Success(""), (c, p: Prepared) => Success(EchoOf(p.body)), d => Some(10))
  }

  function EchoOf(body: string): Entry {
    map["body" := Text(body), "error" := Text("")]
  }

  function ResourceWith(id: string): View {
    View(map["id" := Text(id)], None)
  }

  function EchoStore(ticks: nat): Store {
    Store(map[XKEY := Cached(EchoOf("1"), 10)], ticks)
  }

  lemma EchoSteps(id: string, s: Store)
    requires s == Store(map[], 0) || s == EchoStore(1)
    ensures RunFrom(EchoEnv(), ResourceWith(id), [OF_ID], 0, map[], false)
      == Outcome(Seen(ResourceWith(id), map["x" := EchoOf(id)], true), None)
    ensures s == EchoStore(1) ==>
      CachedFrom(EchoEnv(), Still, ResourceWith(id), [OF_ID], 0, map[], false, s)
        == (Outcome(Seen(ResourceWith(id), map["x" := EchoOf("1")], true), None), EchoStore(2))
    ensures id == "1" && s == Store(map[], 0) ==>
      CachedFrom(EchoEnv(), Still, ResourceWith(id), [OF_ID], 0, map[], false, s).1 == EchoStore(1)
  {
    var env, p := EchoEnv(), Prepared("u", "", id, "");
    assert Prepare(env, ResourceWith(id), OF_ID, 0) == Success(p);
    assert KeyOf(env, OF_ID, p) == XKEY;
    assert Uncached(env, OF_ID, p) == Success(EchoOf(id)) && ErrorOf(EchoOf(id)) == "" && ErrorOf(EchoOf("1")) == "";
    var entries := map["x" := EchoOf(id)];
    assert RunFrom(env, ResourceWith(id), [OF_ID], 1, entries, true)
      == Outcome(Seen(ResourceWith(id), entries, true), None);
    if s == EchoStore(1) {
      assert Obtained(env, Still, OF_ID, p, s) == (Success(EchoOf("1")), EchoStore(2));
    } else if id == "1" {
      assert Obtained(env, Still, OF_ID, p, s) == (Success(EchoOf(id)), EchoStore(1));
    }
  }

  /** Two resources whose calls differ in the body only: the second one gets the first one's answer. */
  lemma SameKeyOtherBody()
    ensures NoHardFailures(EchoEnv(), [OF_ID])
    ensures var s := CachedFrom(EchoEnv(), Still, ResourceWith("1"), [OF_ID], 0, map[], false, Store(map[], 0)).1;
      && CachedFrom(EchoEnv(), Still, ResourceWith("2"), [OF_ID], 0, map[], false, s).0.view.external
        == Some(map["x" := EchoOf("1")])
      && RunFrom(EchoEnv(), ResourceWith("2"), [OF_ID], 0, map[], false).view.external
        == Some(map["x" := EchoOf("2")])
  {
    EchoSteps("1", Store(map[], 0));
    EchoSteps("2", EchoStore(1));
  }
}
