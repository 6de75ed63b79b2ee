/**
The external-call runner and its result cache. Calls run in declaration order and read the
results of earlier ones; a cached run should go as the same run without the cache would.
*/
module ExternalCalls {
  import opened JsonValues
  import opened Ordering
  import Paths

  /** What one call leaves under .external.<name>. */
  type Entry = map<string, Json>

  /** entry["error"].(string), "" when absent or not a string. */
  function ErrorOf(e: Entry): string {
    if "error" in e && e["error"].Text? then e["error"].text else ""
  }

  function ErrorResult(msg: string): Entry {
    map["result" := Text(""), "raw" := Object(map[]), "error" := Text(msg), "called" := Text("true")]
  }

  function SkippedResult(protocol: string): Entry {
    if protocol == "" || protocol == "http" then
      map["status" := Text(""), "body" := Text(""), "error" := Text(""), "called" := Text("false")]
    else
      map["result" := Text(""), "raw" := Object(map[]), "error" := Text(""), "called" := Text("false")]
  }

  /** What templates read of a skipped call: not called, no error, all texts empty, in the shape of its protocol. */
  lemma SkippedLooksEmpty(protocol: string)
    ensures var e := SkippedResult(protocol);
      && ErrorOf(e) == "" && "called" in e && e["called"] == Text("false")
      && (forall k :: k in e && e[k].Text? && k != "called" ==> e[k].text == "")
      && (forall k :: k in e && !e[k].Text? ==> e[k] == Object(map[]))
      && ("status" in e <==> protocol in {"", "http"}) && ("body" in e <==> protocol in {"", "http"})
      && ("result" in e <==> protocol !in {"", "http"}) && ("raw" in e <==> protocol !in {"", "http"})
      && e.Keys <= {"status", "body", "result", "raw", "error", "called"}
  {
  }

  /** The entry that stands for a failure: called, with the message as its error and no result. */
  lemma ErrorResultTells(msg: string)
    ensures var e := ErrorResult(msg);
      && ErrorOf(e) == msg && e.Keys == {"result", "raw", "error", "called"}
      && e["called"] == Text("true") && e["result"] == Text("") && e["raw"] == Object(map[])
  {
  }

  /** A call has failed exactly when its entry has a non-empty text under error. */
  lemma ErrorOfIff(e: Entry, msg: string)
    requires msg != ""
    ensures ErrorOf(e) == msg <==> ("error", Text(msg)) in e.Items
    ensures ErrorOf(e) == "" <==> forall m :: ("error", Text(m)) in e.Items ==> m == ""
  {
  }

  datatype Call = Call(
    name: string, protocol: string, conditions: string,
    url: string, query: string, body: string, auth: string,
    cacheFor: string, continueOnError: bool)

  datatype Prepared = Prepared(url: string, query: string, body: string, credential: string)

  datatype CallError =
    | Unresolved(index: nat, what: string, msg: string)
    | Hard(name: string, msg: string)
    | Soft(name: string, msg: string)

  /** What templates and conditions see of a resolver. */
  datatype View = View(data: map<string, Json>, external: Option<map<string, Entry>>)

  /** The parts of the program this model takes as given functions. */
  datatype Env = Env(
    gvk: string,
    holds: (View, string) -> bool,
    render: (View, string) -> Result<string, string>,
    credential: string -> Result<string, string>,
    fetch: (Call, Prepared) -> Result<Entry, string>,
    ttl: string -> Option<int>)

  // ---------------------------------------------------------------- the run without a cache

  datatype Outcome = Outcome(view: View, error: Option<CallError>)

  function Prepare(env: Env, view: View, c: Call, index: nat): Result<Prepared, CallError> {
    match env.render(view, c.url)
    case Failure(m) => Failure(Unresolved(index, "url", m))
    case Success(url) =>
      match env.render(view, c.query)
      case Failure(m) => Failure(Unresolved(index, "query", m))
      case Success(query) =>
        match env.render(view, c.body)
        case Failure(m) => Failure(Unresolved(index, "body", m))
        case Success(body) =>
          match env.credential(c.auth)
          case Failure(m) => Failure(Unresolved(index, "auth", m))
          case Success(credential) => Success(Prepared(url, query, body, credential))
  }

  /** The parts of a call in the order in which they are resolved, each with what it resolves to. */
  function Parts(env: Env, view: View, c: Call): seq<(string, Result<string, string>)> {
    [("url", env.render(view, c.url)), ("query", env.render(view, c.query)), ("body", env.render(view, c.body)),
      ("auth", env.credential(c.auth))]
  }

  /**
  A call is prepared exactly when its four parts resolve, each of them then being that resolution;
  otherwise the error names the first one that does not, with the call's index.
  */
  lemma PrepareIff(env: Env, view: View, c: Call, index: nat)
    ensures var parts := Parts(env, view, c);
      match Prepare(env, view, c, index)
      case Success(p) =>
        && env.render(view, c.url) == Success(p.url) && env.render(view, c.query) == Success(p.query)
        && env.render(view, c.body) == Success(p.body) && env.credential(c.auth) == Success(p.credential)
      case Failure(e) =>
        exists k :: 0 <= k < |parts| && (forall j :: 0 <= j < k ==> parts[j].1.Success?)
          && parts[k].1.Failure? && e == Unresolved(index, parts[k].0, parts[k].1.error)
  {
    var parts := Parts(env, view, c);
    if Prepare(env, view, c, index).Failure? {
      var k := if parts[0].1.Failure? then 0
               else if parts[1].1.Failure? then 1
               else if parts[2].1.Failure? then 2
               else 3;
      assert parts[k].1.Failure?;
    }
  }

  /**
  The resolver's view. Once injected, the results map is shared with the resolver, so entries
  added later, skipped ones included, are visible at once; before that nothing is.
  */
  function Seen(start: View, results: map<string, Entry>, injected: bool): View {
    if injected then View(start.data, Some(results)) else start
  }

  /** What the runner records when the backend answers r. */
  function Recorded(r: Result<Entry, string>): Entry {
    match r
    case Success(e) => e
    case Failure(m) => ErrorResult(m)
  }

  /** What a fetch gives: the entry, or a failure of the client that the call does not tolerate. */
  function Uncached(env: Env, c: Call, p: Prepared): Result<Entry, string> {
    var r := env.fetch(c, p);
    if r.Failure? && !c.continueOnError then r else Success(Recorded(r))
  }

  /** The rest of a run, from call i on, fetching every call that is not skipped. */
  function RunFrom(env: Env, start: View, calls: seq<Call>, i: nat, results: map<string, Entry>,
      injected: bool): Outcome
    requires i <= |calls|
    decreases |calls| - i
  {
    var view := Seen(start, results, injected);
    if i == |calls| then Outcome(view, None)
    else
      var c := calls[i];
      if !env.holds(view, c.conditions) then
        RunFrom(env, start, calls, i + 1, results[c.name := SkippedResult(c.protocol)], injected)
      else
        match Prepare(env, view, c, i)
        case Failure(e) => Outcome(view, Some(e))
        case Success(p) =>
          match Uncached(env, c, p)
          case Failure(m) => Outcome(view, Some(Hard(c.name, m)))
          case Success(entry) => Conclude(env, start, calls, i, results, entry)
  }

  /** Injects the entry of call i, then stops or goes on. */
  function Conclude(env: Env, start: View, calls: seq<Call>, i: nat, results: map<string, Entry>, entry: Entry): Outcome
    requires i < |calls|
    decreases |calls| - i, 0
  {
    var c := calls[i];
    var results' := results[c.name := entry];
    if ErrorOf(entry) != "" && !c.continueOnError then
      Outcome(Seen(start, results', true), Some(Soft(c.name, ErrorOf(entry))))
    else
      RunFrom(env, start, calls, i + 1, results', true)
  }

  /** A run that skips every call injects nothing: its skipped results are not visible afterwards. */
  lemma {:induction false} SkippedOnlyLeavesNoTrace(env: Env, start: View, calls: seq<Call>, i: nat,
      results: map<string, Entry>)
    requires i <= |calls| && forall c :: c in calls ==> !env.holds(start, c.conditions)
    ensures RunFrom(env, start, calls, i, results, false) == Outcome(start, None)
    decreases |calls| - i
  {
    if i < |calls| {
      var c := calls[i];
      assert c in calls;
      SkippedOnlyLeavesNoTrace(env, start, calls, i + 1, results[c.name := SkippedResult(c.protocol)]);
    }
  }

  // ---------------------------------------------------------------- cache keys

  const NUL := '\0'

  function CacheKey(gvk: string, name: string, url: string, query: string): string {
    gvk + [NUL] + name + [NUL] + url + [NUL] + query
  }

  lemma CutAtSeparator(a: string, b: string, a': string, b': string, sep: char)
    requires sep !in a && sep !in a' && a + [sep] + b == a' + [sep] + b'
    ensures a == a' && b == b'
  {
    Paths.FindAfter(a, sep, b);
    Paths.FindAfter(a', sep, b');
    var s := a + [sep] + b;
    assert s[..|a|] == a && s[..|a|] == a';
    assert s[|a| + 1..] == b && s[|a| + 1..] == b';
  }

  /** Keys built from NUL-free parts identify the call; the query may even contain NUL. */
  lemma CacheKeyInjective(gvk: string, name: string, url: string, query: string, gvk': string, name': string,
      url': string, query': string)
    requires NUL !in gvk + name + url && NUL !in gvk' + name' + url'
    requires CacheKey(gvk, name, url, query) == CacheKey(gvk', name', url', query')
    ensures gvk == gvk' && name == name' && url == url' && query == query'
  {
    var rest, rest' := name + [NUL] + url + [NUL] + query, name' + [NUL] + url' + [NUL] + query';
    var last, last' := url + [NUL] + query, url' + [NUL] + query';
    assert CacheKey(gvk, name, url, query) == gvk + [NUL] + rest;
    assert CacheKey(gvk', name', url', query') == gvk' + [NUL] + rest';
    assert forall p :: p in gvk || p in name || p in url ==> p in gvk + name + url;
    assert forall p :: p in gvk' || p in name' || p in url' ==> p in gvk' + name' + url';
    CutAtSeparator(gvk, rest, gvk', rest', NUL);
    assert rest == name + [NUL] + last && rest' == name' + [NUL] + last';
    CutAtSeparator(name, last, name', last', NUL);
    CutAtSeparator(url, query, url', query', NUL);
  }

  /** With a NUL in a part, two different calls can share a key. */
  lemma CacheKeyCollides()
    ensures CacheKey("g", "n", "u" + [NUL] + "v", "q") == CacheKey("g", "n", "u", "v" + [NUL] + "q")
  {
  }

  // ---------------------------------------------------------------- the cache

  datatype Cached = Cached(data: Entry, expiresAt: int)

  /** The cache, and how often the clock has been read. */
  datatype Store = Store(entries: map<string, Cached>, ticks: nat)

  /** reading(n) is what the n-th reading of the clock shows; it never goes back. */
  ghost predicate Monotone(reading: nat -> int) {
    forall m, n :: 0 <= m <= n ==> reading(m) <= reading(n)
  }

  /** cacheGet: what is found, and the cache without an expired entry. */
  function Looked(reading: nat -> int, s: Store, key: string): (Option<Entry>, Store) {
    if key !in s.entries then (None, s)
    else if reading(s.ticks) > s.entries[key].expiresAt then (None, Store(s.entries - {key}, s.ticks + 1))
    else (Some(s.entries[key].data), Store(s.entries, s.ticks + 1))
  }

  /** cacheSet. */
  function Kept(reading: nat -> int, s: Store, key: string, data: Entry, ttl: int): Store {
    Store(s.entries[key := Cached(data, reading(s.ticks) + ttl)], s.ticks + 1)
  }

  class Clock {
    const reading: nat -> int
    var ticks: nat

    constructor (reading: nat -> int)
      ensures this.reading == reading && ticks == 0
    {
      this.reading, ticks := reading, 0;
    }

    method Now() returns (t: int)
      modifies this
      ensures t == reading(old(ticks)) && ticks == old(ticks) + 1
    {
      t := reading(ticks);
      ticks := ticks + 1;
    }
  }

  class ResultCache {
    var entries: map<string, Cached>

    constructor ()
      ensures entries == map[]
    {
      entries := map[];
    }

    method Get(key: string, clock: Clock) returns (hit: Option<Entry>)
      modifies this, clock
      ensures (hit, StoreOf(this, clock)) == Looked(clock.reading, old(StoreOf(this, clock)), key)
    {
      if key !in entries {
        return None;
      }
      var entry := entries[key];
      var now := clock.Now();
      if now > entry.expiresAt {
        entries := entries - {key};
        return None;
      }
      hit := Some(entry.data);
    }

    method Set(key: string, data: Entry, ttl: int, clock: Clock)
      modifies this, clock
      ensures StoreOf(this, clock) == Kept(clock.reading, old(StoreOf(this, clock)), key, data, ttl)
    {
      var now := clock.Now();
      entries := entries[key := Cached(data, now + ttl)];
    }
  }

  function StoreOf(cache: ResultCache, clock: Clock): Store
    reads cache, clock
  {
    Store(cache.entries, clock.ticks)
  }

  // ---------------------------------------------------------------- the run with the cache

  function KeyOf(env: Env, c: Call, p: Prepared): string {
    CacheKey(env.gvk, c.name, p.url, p.query)
  }

  /** The cache lookup of a call; one without cacheFor looks nowhere. */
  function Hit(env: Env, reading: nat -> int, c: Call, p: Prepared, s: Store): (Option<Entry>, Store) {
    if c.cacheFor != "" then Looked(reading, s, KeyOf(env, c, p)) else (None, s)
  }

  /** The cache lookup, the fetch on a miss, and keeping what was fetched. */
  function Obtained(env: Env, reading: nat -> int, c: Call, p: Prepared, s: Store): (Result<Entry, string>, Store) {
    var (cached, s') := Hit(env, reading, c, p, s);
    if cached.Some? then (Success(cached.value), s')
    else
      var r := Uncached(env, c, p);
      if r.Success? && c.cacheFor != "" && env.ttl(c.cacheFor).Some? then
        (r, Kept(reading, s', KeyOf(env, c, p), r.value, env.ttl(c.cacheFor).value))
      else (r, s')
  }

  /** The rest of a cached run, from call i on. */
  function CachedFrom(env: Env, reading: nat -> int, start: View, calls: seq<Call>, i: nat,
      results: map<string, Entry>, injected: bool, s: Store): (Outcome, Store)
    requires i <= |calls|
    decreases |calls| - i
  {
    var view := Seen(start, results, injected);
    if i == |calls| then (Outcome(view, None), s)
    else
      var c := calls[i];
      if !env.holds(view, c.conditions) then
        CachedFrom(env, reading, start, calls, i + 1, results[c.name := SkippedResult(c.protocol)], injected, s)
      else
        match Prepare(env, view, c, i)
        case Failure(e) => (Outcome(view, Some(e)), s)
        case Success(p) =>
          var (r, s') := Obtained(env, reading, c, p, s);
          match r
          case Failure(m) => (Outcome(view, Some(Hard(c.name, m))), s')
          case Success(entry) =>
            if ErrorOf(entry) != "" && !c.continueOnError then
              (Outcome(Seen(start, results[c.name := entry], true), Some(Soft(c.name, ErrorOf(entry)))), s')
            else CachedFrom(env, reading, start, calls, i + 1, results[c.name := entry], true, s')
  }

  /** The results object is shared by reference with every resolver it was injected into. */
  class Results {
    var entries: map<string, Entry>

    constructor ()
      ensures entries == map[]
    {
      entries := map[];
    }
  }

  datatype Resolver = Resolver(data: map<string, Json>, external: Results?)

  function ViewOf(r: Resolver): View
    reads r.external
  {
    View(r.data, if r.external == null then None else Some(r.external.entries))
  }

  method Obtain(env: Env, c: Call, p: Prepared, cache: ResultCache, clock: Clock) returns (r: Result<Entry, string>)
    modifies cache, clock
    ensures (r, StoreOf(cache, clock)) == Obtained(env, clock.reading, c, p, old(StoreOf(cache, clock)))
  {
    hide Looked, Kept;
    var key := CacheKey(env.gvk, c.name, p.url, p.query);
    if c.cacheFor != "" {
      var cached := cache.Get(key, clock);
      if cached.Some? {
        return Success(cached.value);
      }
    }
    r := env.fetch(c, p);
    if r.Failure? {
      if !c.continueOnError {
        return;
      }
      r := Success(ErrorResult(r.error));
    }
    if c.cacheFor != "" {
      var ttl := env.ttl(c.cacheFor);
      if ttl.Some? {
        cache.Set(key, r.value, ttl.value, clock);
      }
    }
  }

  /** Run, computing the cached run and leaving the caller's resolver as it was. */
  method Run(env: Env, resolver: Resolver, calls: seq<Call>, cache: ResultCache, clock: Clock)
    returns (out: Resolver, error: Option<CallError>)
    modifies cache, clock
    ensures (Outcome(ViewOf(out), error), StoreOf(cache, clock))
      == CachedFrom(env, clock.reading, old(ViewOf(resolver)), calls, 0, map[], false, old(StoreOf(cache, clock)))
    ensures ViewOf(resolver) == old(ViewOf(resolver))
  {
    hide Obtained;
    if |calls| == 0 {
      return resolver, None;
    }
    var results := new Results();
    out := resolver;
    ghost var start, before := ViewOf(resolver), StoreOf(cache, clock);
    ghost var injected := false;
    for i := 0 to |calls|
      invariant out == if injected then Resolver(resolver.data, results) else resolver
      invariant fresh(results) && ViewOf(resolver) == start
      invariant CachedFrom(env, clock.reading, start, calls, 0, map[], false, before)
        == CachedFrom(env, clock.reading, start, calls, i, results.entries, injected, StoreOf(cache, clock))
    {
      var c := calls[i];
      assert ViewOf(out) == Seen(start, results.entries, injected);
      if !env.holds(ViewOf(out), c.conditions) {
        results.entries := results.entries[c.name := SkippedResult(c.protocol)];
        continue;
      }
      var prepared := Prepare(env, ViewOf(out), c, i);
      if prepared.Failure? {
        return out, Some(prepared.error);
      }
      var obtained := Obtain(env, c, prepared.value, cache, clock);
      if obtained.Failure? {
        return out, Some(Hard(c.name, obtained.error));
      }
      var entry := obtained.value;
      results.entries := results.entries[c.name := entry];
      out := Resolver(resolver.data, results);
      injected := true;
      if ErrorOf(entry) != "" && !c.continueOnError {
        return out, Some(Soft(c.name, ErrorOf(entry)));
      }
    }
    error := None;
  }

  // ---------------------------------------------------------------- one run and the cache it finds

  /** A call gets what a fetch would give if and only if nothing is found in the cache or just that is. */
  lemma ObtainedUncachedIff(env: Env, reading: nat -> int, c: Call, p: Prepared, s: Store)
    ensures var (found, s') := Hit(env, reading, c, p, s);
      && (Obtained(env, reading, c, p, s).0 == Uncached(env, c, p) <==>
          found.None? || Success(found.value) == Uncached(env, c, p))
      && (found.Some? ==> Obtained(env, reading, c, p, s) == (Success(found.value), s'))
  {
    hide Looked, Uncached, Kept, KeyOf;
    var found := Hit(env, reading, c, p, s).0;
    if found.None? {
      assert Obtained(env, reading, c, p, s).0 == Uncached(env, c, p);
    } else {
      assert Obtained(env, reading, c, p, s).0 == Success(found.value);
    }
  }

  /** The first call of an uncached run that the cache answers otherwise, if there is one. */
  ghost function FirstWrong(env: Env, reading: nat -> int, start: View, calls: seq<Call>, i: nat,
      results: map<string, Entry>, injected: bool, s: Store): (wrong: Option<nat>)
    requires i <= |calls|
    ensures wrong.Some? ==> i <= wrong.value < |calls|
    decreases |calls| - i
  {
    var view := Seen(start, results, injected);
    if i == |calls| then None
    else
      var c := calls[i];
      if !env.holds(view, c.conditions) then
        FirstWrong(env, reading, start, calls, i + 1, results[c.name := SkippedResult(c.protocol)], injected, s)
      else
        match Prepare(env, view, c, i)
        case Failure(_) => None
        case Success(p) =>
          var found, r := Hit(env, reading, c, p, s).0, Uncached(env, c, p);
          if found.Some? && Success(found.value) != r then Some(i)
          else if r.Failure? || (ErrorOf(r.value) != "" && !c.continueOnError) then None
          else
            FirstWrong(env, reading, start, calls, i + 1, results[c.name := r.value], true,
              Obtained(env, reading, c, p, s).1)
  }

  /** Up to its first wrong answer a cached run goes as the uncached one. */
  lemma {:induction false} AgreesUntil(env: Env, reading: nat -> int, start: View, calls: seq<Call>, i: nat,
      results: map<string, Entry>, injected: bool, s: Store, k: nat)
    requires i <= k <= |calls|
    requires var wrong := FirstWrong(env, reading, start, calls, i, results, injected, s);
      wrong.None? || k <= wrong.value
    ensures CachedFrom(env, reading, start, calls[..k], i, results, injected, s).0
      == RunFrom(env, start, calls[..k], i, results, injected)
    decreases k - i
  {
    hide Obtained, Hit, Uncached, ErrorOf, SkippedResult, Prepare, Seen;
    if i < k {
      var c, view := calls[i], Seen(start, results, injected);
      assert calls[..k][i] == c;
      if !env.holds(view, c.conditions) {
        AgreesUntil(env, reading, start, calls, i + 1, results[c.name := SkippedResult(c.protocol)], injected, s, k);
      } else if Prepare(env, view, c, i).Success? {
        var p := Prepare(env, view, c, i).value;
        ObtainedUncachedIff(env, reading, c, p, s);
        var (r, s') := Obtained(env, reading, c, p, s);
        if r.Success? && !(ErrorOf(r.value) != "" && !c.continueOnError) {
          AgreesUntil(env, reading, start, calls, i + 1, results[c.name := r.value], true, s', k);
        }
      }
    }
  }

  /** At a wrong answer the two runs part. */
  lemma {:induction false} DiffersAt(env: Env, reading: nat -> int, start: View, calls: seq<Call>, i: nat,
      results: map<string, Entry>, injected: bool, s: Store, k: nat)
    requires i <= k < |calls| && FirstWrong(env, reading, start, calls, i, results, injected, s) == Some(k)
    ensures CachedFrom(env, reading, start, calls[..k + 1], i, results, injected, s).0
      != RunFrom(env, start, calls[..k + 1], i, results, injected)
    decreases k - i
  {
    hide Obtained, Hit, Uncached, ErrorOf, SkippedResult, Prepare;
    var c, view := calls[i], Seen(start, results, injected);
    assert calls[..k + 1][i] == c;
    if !env.holds(view, c.conditions) {
      DiffersAt(env, reading, start, calls, i + 1, results[c.name := SkippedResult(c.protocol)], injected, s, k);
    } else {
      var p := Prepare(env, view, c, i).value;
      ObtainedUncachedIff(env, reading, c, p, s);
      var (r, s') := Obtained(env, reading, c, p, s);
      if i < k {
        DiffersAt(env, reading, start, calls, i + 1, results[c.name := r.value], true, s', k);
      } else {
        var other := Uncached(env, c, p);
        var calls' := calls[..k + 1];
        assert CachedFrom(env, reading, start, calls', i + 1, results[c.name := r.value], true, s').0.error == None;
        assert results[c.name := r.value][c.name] == r.value;
        if other.Success? {
          var results' := results[c.name := other.value];
          assert results'[c.name] == other.value;
          assert RunFrom(env, start, calls', i + 1, results', true).error == None;
        }
      }
    }
  }

  /**
  The exact condition, for every cache: with and without it, a run has the same view and error at
  each of its calls if and only if no lookup finds anything but what a fetch would give.
  */
  lemma CachedAgreesIff(env: Env, reading: nat -> int, start: View, calls: seq<Call>, s: Store)
    ensures FirstWrong(env, reading, start, calls, 0, map[], false, s).None? <==>
      forall k :: 0 <= k <= |calls| ==>
        CachedFrom(env, reading, start, calls[..k], 0, map[], false, s).0
          == RunFrom(env, start, calls[..k], 0, map[], false)
  {
    hide FirstWrong, CachedFrom, RunFrom;
    var wrong := FirstWrong(env, reading, start, calls, 0, map[], false, s);
    if wrong.Some? {
      DiffersAt(env, reading, start, calls, 0, map[], false, s, wrong.value);
    } else {
      forall k | 0 <= k <= |calls|
        ensures CachedFrom(env, reading, start, calls[..k], 0, map[], false, s).0
          == RunFrom(env, start, calls[..k], 0, map[], false)
      {
        AgreesUntil(env, reading, start, calls, 0, map[], false, s, k);
      }
    }
  }
}
