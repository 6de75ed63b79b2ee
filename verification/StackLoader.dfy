/**
loadStack over the merger's state: what a Stack loads to, when it fails, and what no layer of it
can take away.
*/
module StackLoader {
  import opened Ordering
  import opened EntryMerge
  import opened StackMerge

  // ---------------------------------------------------------------- the entries of a Stack

  /** First occurrences, in order. */
  ghost function Dedup(s: seq<string>): (r: seq<string>)
    ensures Elems(r) == Elems(s) && Distinct(r)
  {
    if s == [] then []
    else
      var rest, last := s[..|s| - 1], s[|s| - 1];
      assert s == rest + [last];
      var r := Dedup(rest);
      if last in rest then r
      else
        assert last !in Elems(r) && Elems(r + [last]) == Elems(r) + {last};
        r + [last]
  }

  /** RestrictedNamespaces.Merge and AllowedNamespaces.Merge. */
  method MergeNamespaces(r: seq<string>, other: seq<string>) returns (merged: seq<string>)
    ensures merged == Dedup(r + other)
  {
    hide Distinct, Elems, Dedup;
    var seen: set<string> := {};
    merged := [];
    var all := r + other;
    NothingToDedup(all);
    for i := 0 to |r|
      invariant merged == Dedup(all[..i]) && seen == Elems(all[..i])
    {
      DedupStep(all, i);
      if r[i] !in seen {
        seen := seen + {r[i]};
        merged := merged + [r[i]];
      }
    }
    for i := 0 to |other|
      invariant merged == Dedup(all[..|r| + i]) && seen == Elems(all[..|r| + i])
    {
      DedupStep(all, |r| + i);
      if other[i] !in seen {
        seen := seen + {other[i]};
        merged := merged + [other[i]];
      }
    }
    assert all[..|all|] == all;
  }

  lemma NothingToDedup(s: seq<string>)
    ensures Dedup(s[..0]) == [] && Elems(s[..0]) == {}
  {
  }

  lemma DedupStep(s: seq<string>, k: nat)
    requires k < |s|
    ensures Dedup(s[..k + 1]) == if s[k] in Elems(s[..k]) then Dedup(s[..k]) else Dedup(s[..k]) + [s[k]]
    ensures Elems(s[..k + 1]) == Elems(s[..k]) + {s[k]}
  {
    hide Distinct, Elems;
    ElemsStep(s, k);
    InElems(s[..k], s[k]);
    assert s[..k + 1][..k] == s[..k];
  }

  lemma InElems(s: seq<string>, x: string)
    ensures x in s <==> x in Elems(s)
  {
  }

  ghost function InlineEntry(all: map<string, Entry>, crds: map<string, Entry>, n: string): Entry
    requires n in all || n in crds
  {
    if n !in crds then all[n]
    else if n in all then Merged(all[n], crds[n].(name := n))
    else crds[n].(name := n)
  }

  function Described(doc: Doc, e: Entry): Entry {
    e.(description := if e.description == "" then doc.description else e.description,
       version := if e.version == "" then doc.version else e.version)
  }

  ghost predicate Protects(doc: Doc) {
    doc.security.namespaceProtection.Some?
    && (|doc.security.namespaceProtection.value.restricted| > 0 || |doc.security.namespaceProtection.value.allowed| > 0)
  }

  ghost function Protected(doc: Doc, e: Entry): Entry {
    if !Protects(doc) then e
    else
      var p, rt := doc.security.namespaceProtection.value, OrElse(e.box.runtime, NO_RUNTIME);
      e.(box := e.box.(runtime := Some(rt.(
        restricted := Dedup(p.restricted + rt.restricted),
        allowed := Dedup(p.allowed + rt.allowed)))))
  }

  ghost function StackEntry(doc: Doc, all: map<string, Entry>, n: string): Entry
    requires n in all || n in doc.crds
  {
    Protected(doc, Described(doc, InlineEntry(all, doc.crds, n)))
  }

  /** Everything a Stack loads to, given the entries of its imports. */
  ghost function StackEntries(doc: Doc, all: map<string, Entry>): map<string, Entry> {
    map n | n in all.Keys + doc.crds.Keys :: StackEntry(doc, all, n)
  }

  ghost function Inlined(all: map<string, Entry>, crds: map<string, Entry>): map<string, Entry> {
    map n | n in crds :: InlineEntry(all, crds, n)
  }

  lemma InlinedWhole(all: map<string, Entry>, crds: map<string, Entry>)
    ensures all + Inlined(all, crds) == map n | n in all.Keys + crds.Keys :: InlineEntry(all, crds, n)
  {
  }

  /** One inline declaration: merged onto the import's entry, or new. */
  method InlineOne(r: map<string, Entry>, name: string, declared: Entry, ghost all: map<string, Entry>,
      ghost crds: map<string, Entry>)
    returns (crd: Entry)
    requires name in crds && crds[name] == declared
    requires (name in r <==> name in all) && (name in r ==> r[name] == all[name])
    ensures crd == Inlined(all, crds)[name]
  {
    crd := declared.(name := name);
    if name in r {
      crd := MergeCrdEntry(r[name], crd);
    }
  }

  ghost predicate Fresh(seen: map<string, string>, inlineKey: string, name: string) {
    name != "" && (name in seen ==> seen[name] != inlineKey)
  }

  ghost predicate InlineRefused(seen: map<string, string>, crds: map<string, Entry>, inlineKey: string, e: MergeError) {
    || (e == EmptyKey && "" in crds)
    || (e.Duplicate? && e.name in crds && e.name in seen && seen[e.name] == inlineKey)
  }

  /** Inline declarations on top of the imports, in any map order. */
  method Inline(all: map<string, Entry>, seen: map<string, string>, crds: map<string, Entry>, inlineKey: string)
    returns (error: Option<MergeError>, r: map<string, Entry>)
    ensures error.None? <==> forall n :: n in crds ==> Fresh(seen, inlineKey, n)
    ensures error.None? ==> r == all + Inlined(all, crds)
    ensures error.Some? ==> InlineRefused(seen, crds, inlineKey, error.value)
  {
    hide PartlyAdded, InlineEntry;
    r := all;
    var todo := crds.Keys;
    assert crds.Keys - todo == {};
    PartlyAddedBounds(all, Inlined(all, crds), all);
    while todo != {}
      invariant todo <= crds.Keys
      invariant forall n :: n in crds.Keys - todo ==> Fresh(seen, inlineKey, n)
      invariant PartlyAdded(all, Inlined(all, crds), crds.Keys - todo, r)
      decreases |todo|
    {
      var name :| name in todo;
      TakeFrom(crds.Keys, todo, name);
      PartlyAddedStep(all, Inlined(all, crds), crds.Keys - todo, r, name);
      if name == "" {
        return Some(EmptyKey), r;
      }
      if name in seen && seen[name] == inlineKey {
        return Some(Duplicate(name)), r;
      }
      var crd := InlineOne(r, name, crds[name], all, crds);
      r := r[name := crd];
      todo := todo - {name};
    }
    assert crds.Keys - todo == Inlined(all, crds).Keys;
    PartlyAddedBounds(all, Inlined(all, crds), r);
    error := None;
  }

  lemma AllAdded<V>(base: map<string, V>, more: map<string, V>, r: map<string, V>)
    requires base.Keys == more.Keys
    ensures PartlyAdded(base, more, base.Keys, r) ==> r == more
    ensures PartlyAdded(base, more, {}, base)
  {
  }

  lemma NextOf<V>(base: map<string, V>, more: map<string, V>, todo: set<string>, r: map<string, V>, n: string)
    requires base.Keys == more.Keys && todo <= base.Keys && n in todo && PartlyAdded(base, more, base.Keys - todo, r)
    ensures n in r && r[n] == base[n]
    ensures PartlyAdded(base, more, base.Keys - (todo - {n}), r[n := more[n]])
    ensures todo - {n} <= base.Keys && |todo - {n}| < |todo|
    ensures more[n] == base[n] ==> r[n := more[n]] == r
  {
    TakeFrom(base.Keys, todo, n);
  }

  method Describe(doc: Doc, e: Entry) returns (crd: Entry, changed: bool)
    ensures crd == Described(doc, e) && (!changed ==> crd == e)
  {
    crd, changed := e, false;
    if crd.description == "" && doc.description != "" {
      crd := crd.(description := doc.description);
      changed := true;
    }
    if crd.version == "" && doc.version != "" {
      crd := crd.(version := doc.version);
      changed := true;
    }
  }

  ghost function AllDescribed(doc: Doc, all: map<string, Entry>): map<string, Entry> {
    map n | n in all :: Described(doc, all[n])
  }

  /** Description and version fall back to the Stack's own. */
  method FillDescriptions(all: map<string, Entry>, doc: Doc) returns (r: map<string, Entry>)
    ensures r == AllDescribed(doc, all)
  {
    hide PartlyAdded, Described;
    r := all;
    var todo := all.Keys;
    assert all.Keys - todo == {};
    AllAdded(all, AllDescribed(doc, all), r);
    while todo != {}
      invariant todo <= all.Keys
      invariant PartlyAdded(all, AllDescribed(doc, all), all.Keys - todo, r)
      decreases |todo|
    {
      var name :| name in todo;
      NextOf(all, AllDescribed(doc, all), todo, r, name);
      var crd, changed := Describe(doc, r[name]);
      if changed {
        r := r[name := crd];
      }
      todo := todo - {name};
    }
    assert all.Keys - todo == all.Keys;
    AllAdded(all, AllDescribed(doc, all), r);
  }

  ghost function AllProtected(doc: Doc, all: map<string, Entry>): map<string, Entry> {
    map n | n in all :: Protected(doc, all[n])
  }

  method ProtectOne(doc: Doc, e: Entry) returns (crd: Entry)
    requires Protects(doc)
    ensures crd == Protected(doc, e)
  {
    var p := doc.security.namespaceProtection.value;
    var rt := OrElse(e.box.runtime, NO_RUNTIME);
    var restricted := MergeNamespaces(p.restricted, rt.restricted);
    var allowed := MergeNamespaces(p.allowed, rt.allowed);
    crd := e.(box := e.box.(runtime := Some(rt.(restricted := restricted, allowed := allowed))));
  }

  /** The Stack's namespace rules, added to every entry. */
  method ProtectAll(all: map<string, Entry>, doc: Doc) returns (r: map<string, Entry>)
    ensures r == AllProtected(doc, all)
  {
    hide PartlyAdded, Protected;
    r := all;
    var protect := doc.security.namespaceProtection;
    if protect.None? || !(|protect.value.restricted| > 0 || |protect.value.allowed| > 0) {
      NothingToProtect(doc, all);
      return;
    }
    var todo := all.Keys;
    assert all.Keys - todo == {};
    AllAdded(all, AllProtected(doc, all), r);
    while todo != {}
      invariant todo <= all.Keys
      invariant PartlyAdded(all, AllProtected(doc, all), all.Keys - todo, r)
      decreases |todo|
    {
      var name :| name in todo;
      NextOf(all, AllProtected(doc, all), todo, r, name);
      var crd := ProtectOne(doc, r[name]);
      r := r[name := crd];
      todo := todo - {name};
    }
    assert all.Keys - todo == all.Keys;
    AllAdded(all, AllProtected(doc, all), r);
  }

  lemma NothingToProtect(doc: Doc, all: map<string, Entry>)
    requires !Protects(doc)
    ensures AllProtected(doc, all) == all
  {
  }

  /** The three passes give each name its entry. */
  lemma PassesGiveEntries(doc: Doc, all: map<string, Entry>)
    ensures AllProtected(doc, AllDescribed(doc, all + Inlined(all, doc.crds))) == StackEntries(doc, all)
  {
    hide Protected, Described, InlineEntry;
    InlinedWhole(all, doc.crds);
  }

  // ---------------------------------------------------------------- the merger

  function ImportList(doc: Doc): seq<Loaded> {
    OrElse(doc.imports, [])
  }

  /** Nothing imported and nothing declared: the Stack is skipped with a warning. */
  predicate Empty(doc: Doc) {
    doc.imports.None? && |doc.crds| == 0
  }

  /** When a Stack loads at all. */
  ghost predicate StackOk(init: Settings, doc: Doc, inlineKey: string) {
    var loaded := ImportList(doc);
    && ImportsOk(init, loaded)
    && "" !in doc.crds
    && (forall i, n :: 0 <= i < |loaded| && n in doc.crds && n in loaded[i].source.crds ==>
      loaded[i].source.origin != inlineKey)
    && Keys(ProfilesOf(After(init, loaded))) !! Keys(doc.profiles)
    && doc.specImports == []
  }

  /** The merger's settings after a Stack: the imports' accumulated, with the Stack's own on top. */
  ghost function StackSettings(init: Settings, doc: Doc): Settings {
    var after := After(init, ImportList(doc));
    Settings(MergedSecurity(SecurityOf(after), doc.security), ProfilesOf(after) + doc.profiles,
             ImportsOf(after), MergedNotes(doc.notes, NotesOf(after)))
  }

  lemma InlineKeyUnused(loaded: seq<Loaded>, seen: map<string, string>, crds: map<string, Entry>, inlineKey: string)
    requires AllLoaded(loaded) && NoClash(SourcesOf(loaded)) && Labels(SourcesOf(loaded), seen)
    ensures (forall n :: n in crds ==> Fresh(seen, inlineKey, n))
      <==> "" !in crds && (forall i, n :: 0 <= i < |loaded| && n in crds && n in loaded[i].source.crds ==>
        loaded[i].source.origin != inlineKey)
  {
    var sources := SourcesOf(loaded);
    assert forall i :: 0 <= i < |loaded| ==> sources[i] == loaded[i].source;
    forall i, n | 0 <= i < |sources| && n in sources[i].crds ensures n in seen && seen[n] == sources[i].origin {
      assert n in seen;
      var k :| 0 <= k < |sources| && n in sources[k].crds && sources[k].origin == seen[n];
      assert k < i || k == i || i < k;
    }
  }

  class Merger {
    var security: Security
    var profiles: seq<Profile>
    var specImports: seq<Block>
    var notes: Notes

    constructor ()
      ensures Now() == Settings(NO_SECURITY, [], [], Notes("", []))
    {
      security, profiles, specImports, notes := NO_SECURITY, [], [], Notes("", []);
    }

    function Now(): Settings
      reads this
    {
      Settings(security, profiles, specImports, notes)
    }

    /** The side effect of a loader. */
    method Load(l: Loaded)
      modifies this
      ensures Now() == Left(old(Now()), l)
    {
      if l.Loaded? && l.settings.Some? {
        var s := l.settings.value;
        security, profiles, specImports, notes := s.security, s.profiles, s.imports, s.notes;
      }
    }

    /** One import: load it, check its names, accumulate what the merger now holds. */
    method ImportOne(l: Loaded, index: nat, acc: Acc) returns (error: Option<MergeError>, acc': Acc)
      requires acc.noteNames == Elems(NoteNames(acc.notes)) && Distinct(NoteNames(acc.notes))
      modifies this
      ensures Now() == Left(old(Now()), l)
      ensures error.None? <==> Accepts(acc, Now(), l)
      ensures error.None? ==> acc' == Grown(acc, Now(), l)
      ensures error.Some? ==> RefusedWith(acc, Now(), l, index, error.value)
    {
      hide NoteNames, Distinct, Keys, Elems, Fits, Misfit;
      acc' := acc;
      Load(l);
      if l.Broken? {
        return Some(LoadFailed(index)), acc;
      }
      var clash, seen, all := AddCrds(acc.seen, acc.all, l.source);
      if clash.Some? {
        return clash, acc;
      }
      var sec := MergeCatalogSecurity(acc.security, security);
      var merged := MergeProfiles(acc.profiles, profiles);
      if merged.None? {
        return Some(ProfileConflict), acc;
      }
      var mergedNotes, noteNames := MergeImportNotes(acc.notes, notes.functions, acc.noteNames);
      if mergedNotes.None? {
        return Some(NoteConflict), acc;
      }
      acc' := Acc(seen, all, sec, merged.value, acc.imports + specImports, mergedNotes.value, noteNames);
      error := None;
    }

    method ImportAll(loaded: seq<Loaded>) returns (error: Option<MergeError>, acc: Acc)
      modifies this
      ensures error.None? <==> ImportsOk(old(Now()), loaded)
      ensures error.None? ==> Gathered(old(Now()), loaded, acc)
      ensures error.Some? ==> ImportsFail(old(Now()), loaded, error.value)
    {
      ghost var init := Now();
      acc := NOTHING_YET;
      StartGathering(init);
      assert loaded[..0] == [];
      for k := 0 to |loaded|
        invariant ImportsOk(init, loaded[..k]) && Gathered(init, loaded[..k], acc)
        invariant Now() == Current(init, loaded[..k])
      {
        hide ImportsOk, Gathered, Accepts, Grown, Left, Current, Elems, NoteNames, Distinct;
        hide RefusedWith, FailsWith, ImportsFail;
        assert loaded[..k + 1] == loaded[..k] + [loaded[k]];
        Precondition(init, loaded[..k], acc, loaded[k]);
        var failed, next := ImportOne(loaded[k], k, acc);
        if failed.Some? {
          Stays(init, loaded, k + 1);
          RefusalMeans(init, loaded[..k], acc, loaded[k], failed.value);
          FailsAt(init, loaded, k, failed.value);
          return failed, acc;
        }
        acc := next;
      }
      assert loaded[..|loaded|] == loaded;
      error := None;
    }

    /** loadStack. */
    method LoadStack(doc: Doc, inlineKey: string) returns (r: Result<map<string, Entry>, MergeError>)
      modifies this
      ensures r.Success? <==> Empty(doc) || StackOk(old(Now()), doc, inlineKey)
      ensures Empty(doc) ==> r == Success(map[]) && Now() == old(Now())
      ensures r.Success? && !Empty(doc) ==>
        AllLoaded(ImportList(doc)) && r.value == StackEntries(doc, EntriesOf(SourcesOf(ImportList(doc))))
      ensures r.Success? && !Empty(doc) ==> Now() == StackSettings(old(Now()), doc)
      ensures r.Failure? ==> StackFails(old(Now()), doc, inlineKey, r.error)
    {
      ghost var init := Now();
      hide PartlyAdded, Labels, NoClash, Elems, NoteNames, Distinct, ProfilesApart, NotesApart;
      hide EntriesOf, SourcesOf, After, MergedNotes, Keys, Fresh, AllProtected, AllDescribed, Inlined, StackEntries;
      if doc.imports.None? && |doc.crds| == 0 {
        return Success(map[]);
      }
      var loaded := ImportList(doc);
      var failed, acc := ImportAll(loaded);
      if failed.Some? {
        return Failure(failed.value);
      }
      InlineKeyUnused(loaded, acc.seen, doc.crds, inlineKey);
      var wrong, all := Inline(acc.all, acc.seen, doc.crds, inlineKey);
      if wrong.Some? {
        InlineRefusedMeans(init, doc, inlineKey, acc.seen, wrong.value);
        return Failure(wrong.value);
      }
      PassesGiveEntries(doc, acc.all);
      all := FillDescriptions(all, doc);
      all := ProtectAll(all, doc);
      security := MergeCatalogSecurity(acc.security, doc.security);
      var merged := MergeProfiles(acc.profiles, doc.profiles);
      if merged.None? {
        return Failure(ProfileConflict);
      }
      profiles := merged.value;
      if |doc.specImports| > 0 {
        return Failure(StackImports);
      }
      specImports := acc.imports;
      notes := MergeNotes(doc.notes, acc.notes);
      r := Success(all);
    }
  }

  /** Imports fail at the first one that cannot be combined with those before it, for the reason given. */
  ghost predicate ImportsFail(init: Settings, loaded: seq<Loaded>, e: MergeError) {
    exists k :: 0 <= k < |loaded| && ImportsOk(init, loaded[..k]) && FailsWith(init, loaded[..k], loaded[k], e)
  }

  lemma FailsAt(init: Settings, loaded: seq<Loaded>, k: nat, e: MergeError)
    requires k < |loaded| && ImportsOk(init, loaded[..k]) && FailsWith(init, loaded[..k], loaded[k], e)
    ensures ImportsFail(init, loaded, e)
  {
    hide ImportsOk, FailsWith;
  }

  /** Why a Stack does not load: its imports, its inline declarations, its profiles, or an imports block of its own. */
  ghost predicate StackFails(init: Settings, doc: Doc, inlineKey: string, e: MergeError) {
    var loaded := ImportList(doc);
    if !ImportsOk(init, loaded) then ImportsFail(init, loaded, e)
    else if "" in doc.crds || exists i, n ::
      0 <= i < |loaded| && n in doc.crds && n in loaded[i].source.crds && loaded[i].source.origin == inlineKey
    then
      || (e == EmptyKey && "" in doc.crds)
      || (e.Duplicate? && e.name in doc.crds && exists i ::
        0 <= i < |loaded| && e.name in loaded[i].source.crds && loaded[i].source.origin == inlineKey)
    else if !(Keys(ProfilesOf(After(init, loaded))) !! Keys(doc.profiles)) then e == ProfileConflict
    else e == StackImports
  }

  lemma InlineRefusedMeans(init: Settings, doc: Doc, inlineKey: string, seen: map<string, string>, e: MergeError)
    requires ImportsOk(init, ImportList(doc)) && Labels(SourcesOf(ImportList(doc)), seen)
    requires InlineRefused(seen, doc.crds, inlineKey, e)
    ensures StackFails(init, doc, inlineKey, e)
  {
    hide After, NoClash, ProfilesApart, NotesApart, Keys, ProfilesOf;
    var loaded := ImportList(doc);
    var sources := SourcesOf(loaded);
    assert forall i :: 0 <= i < |loaded| ==> sources[i] == loaded[i].source;
    if e.Duplicate? {
      var i :| 0 <= i < |sources| && e.name in sources[i].crds && sources[i].origin == seen[e.name];
      assert e.name in loaded[i].source.crds;
    }
  }

  lemma StartGathering(init: Settings)
    ensures ImportsOk(init, []) && Gathered(init, [], NOTHING_YET) && Current(init, []) == init
  {
  }

  lemma Precondition(init: Settings, loaded: seq<Loaded>, acc: Acc, l: Loaded)
    requires ImportsOk(init, loaded) && Gathered(init, loaded, acc)
    ensures acc.noteNames == Elems(NoteNames(acc.notes)) && Distinct(NoteNames(acc.notes))
    ensures ImportsOk(init, loaded + [l]) <==> Accepts(acc, Left(Current(init, loaded), l), l)
    ensures ImportsOk(init, loaded + [l]) ==>
      Gathered(init, loaded + [l], Grown(acc, Left(Current(init, loaded), l), l))
    ensures Current(init, loaded + [l]) == Left(Current(init, loaded), l)
  {
    hide *;
    NamesOnce(init, loaded, acc);
    LastLoaded(init, loaded, l);
    ImportsStep(init, loaded, acc, l);
    AfterStep(init, loaded, l);
    if ImportsOk(init, loaded + [l]) {
      GatherStep(init, loaded, acc, l);
    }
  }

  lemma NamesOnce(init: Settings, loaded: seq<Loaded>, acc: Acc)
    requires ImportsOk(init, loaded) && Gathered(init, loaded, acc)
    ensures acc.noteNames == Elems(NoteNames(acc.notes)) && Distinct(NoteNames(acc.notes))
  {
    hide NoClash, Labels, ProfilesApart, Distinct, NoteNames;
  }

  lemma LastLoaded(init: Settings, loaded: seq<Loaded>, l: Loaded)
    ensures ImportsOk(init, loaded + [l]) ==> l.Loaded?
  {
    hide NoClash, ProfilesApart, NotesApart;
    assert (loaded + [l])[|loaded|] == l;
  }

  lemma Stays(init: Settings, loaded: seq<Loaded>, k: nat)
    requires k <= |loaded| && !ImportsOk(init, loaded[..k])
    ensures !ImportsOk(init, loaded)
  {
    hide *;
    if ImportsOk(init, loaded) {
      ImportsOkPrefix(init, loaded, k);
    }
  }

  // ---------------------------------------------------------------- what a loaded Stack promises

  /** A loaded Stack has exactly the names of its imports and its inline declarations. */
  lemma StackNames(doc: Doc, n: string)
    requires AllLoaded(ImportList(doc))
    ensures n in StackEntries(doc, EntriesOf(SourcesOf(ImportList(doc)))) <==>
      n in doc.crds || exists i :: 0 <= i < |ImportList(doc)| && n in ImportList(doc)[i].source.crds
  {
    var loaded := ImportList(doc);
    var sources := SourcesOf(loaded);
    assert forall i :: 0 <= i < |loaded| ==> sources[i] == loaded[i].source;
    if i :| 0 <= i < |sources| && n in sources[i].crds {
      assert n in loaded[i].source.crds;
    }
  }

  /** Description and version: the import's or, for a new name, the inline one's; else the Stack's. */
  lemma DescriptionFallsBack(doc: Doc, all: map<string, Entry>, n: string)
    requires n in all || n in doc.crds
    ensures var e, own := StackEntry(doc, all, n), if n in all then all[n] else doc.crds[n];
      && e.description == (if own.description != "" then own.description else doc.description)
      && e.version == (if own.version != "" then own.version else doc.version)
  {
  }

  /** Apart from the description, the version and the namespaces, the Stack itself adds nothing to an entry. */
  lemma StackAddsOnly(doc: Doc, all: map<string, Entry>, n: string)
    requires n in all || n in doc.crds
    ensures var e, own := StackEntry(doc, all, n), InlineEntry(all, doc.crds, n);
      && e == own.(description := e.description, version := e.version, box := own.box.(runtime := e.box.runtime))
      && ProtectionOf(e) == ProtectionOf(own) && ListsOf(e).2 == ListsOf(own).2
      && (n in all && n !in doc.crds ==> own == all[n])
      && (n !in all ==> own == doc.crds[n].(name := n))
      && (n in all && n in doc.crds ==> own == Layered(all[n], [doc.crds[n].(name := n)]))
  {
    hide Dedup;
    if n in all && n in doc.crds {
      LayeredStep(all[n], [], doc.crds[n].(name := n));
      assert [] + [doc.crds[n].(name := n)] == [doc.crds[n].(name := n)];
    }
  }

  function SecurityBlocks(s: seq<Settings>): (blocks: seq<Security>)
    ensures |blocks| == |s|
  {
    seq(|s|, i requires 0 <= i < |s| => s[i].security)
  }

  lemma {:induction false} LastSecurity<T(!new)>(s: seq<Settings>, get: Security -> T, says: Security -> Option<T>)
    requires forall b, o :: get(MergedSecurity(b, o)) == if says(o).Some? then says(o).value else get(b)
    ensures LastSaid(get(NO_SECURITY), SecurityBlocks(s), says, get(SecurityOf(s)))
  {
    hide MergedSecurity, LastSaid;
    if s == [] {
      NothingSaid(get(NO_SECURITY), SecurityBlocks(s), says);
    } else {
      var rest, last := s[..|s| - 1], s[|s| - 1];
      assert SecurityBlocks(s) == SecurityBlocks(rest) + [last.security];
      LastSecurity(rest, get, says);
      LastSaidStep(get(NO_SECURITY), SecurityBlocks(rest), says, get(SecurityOf(rest)), last.security);
    }
  }

  /** Each security field of a Stack is its own, or else that of the last settings in force that declare it. */
  lemma StackSecurityOverrides(init: Settings, doc: Doc)
    ensures var blocks, s := SecurityBlocks(After(init, ImportList(doc))) + [doc.security],
        StackSettings(init, doc).security;
      && LastSaid(None, blocks, (x: Security) => Declared(x.deletionProtection), s.deletionProtection)
      && LastSaid(None, blocks, (x: Security) => Declared(x.webhooks), s.webhooks)
      && LastSaid(None, blocks, (x: Security) => Declared(x.conversion), s.conversion)
      && LastSaid(None, blocks, (x: Security) => Declared(x.serviceName), s.serviceName)
      && LastSaid(None, blocks, (x: Security) => Namespaces(x), s.namespaceProtection)
  {
    hide LastSaid, After;
    var after := After(init, ImportList(doc));
    var all := after + [Settings(doc.security, [], [], doc.notes)];
    assert all[..|after|] == after && SecurityOf(all) == MergedSecurity(SecurityOf(after), doc.security);
    assert SecurityBlocks(all) == SecurityBlocks(after) + [doc.security];
    LastSecurity(all, (x: Security) => x.deletionProtection, (x: Security) => Declared(x.deletionProtection));
    LastSecurity(all, (x: Security) => x.webhooks, (x: Security) => Declared(x.webhooks));
    LastSecurity(all, (x: Security) => x.conversion, (x: Security) => Declared(x.conversion));
    LastSecurity(all, (x: Security) => x.serviceName, (x: Security) => Declared(x.serviceName));
    LastSecurity(all, (x: Security) => x.namespaceProtection, (x: Security) => Namespaces(x));
  }

  function Namespaces(s: Security): Option<Option<NamespaceProtection>> {
    if s.namespaceProtection.Some? then Some(s.namespaceProtection) else None
  }

  /** The namespaces a Stack adds to every entry. */
  ghost function OwnRules(doc: Doc): NamespaceProtection {
    OrElse(doc.security.namespaceProtection, NamespaceProtection([], []))
  }

  lemma ProtectedLists(doc: Doc, e: Entry)
    ensures var b, p := ListsOf(e), ListsOf(Protected(doc, e));
      && Elems(p.0) == Elems(b.0) + Elems(OwnRules(doc).restricted)
      && Elems(p.1) == Elems(b.1) + Elems(OwnRules(doc).allowed)
      && p.2 == b.2
  {
    var rules, b := OwnRules(doc), ListsOf(e);
    if Protects(doc) {
      assert Elems(rules.restricted + b.0) == Elems(rules.restricted) + Elems(b.0);
      assert Elems(rules.allowed + b.1) == Elems(rules.allowed) + Elems(b.1);
    } else {
      assert Elems(rules.restricted) == {} && Elems(rules.allowed) == {};
    }
  }

  /**
  For a name of some import, the restricted and allowed namespaces and the finalizers of the loaded
  entry are those of the import, of the inline declaration and of the Stack, and no others.
  */
  lemma NoLayerTakesAway(doc: Doc, all: map<string, Entry>, n: string)
    requires n in all
    ensures var base, m := ListsOf(all[n]), ListsOf(StackEntry(doc, all, n));
      var over := if n in doc.crds then ListsOf(doc.crds[n]) else ([], [], []);
      && Elems(m.0) == Elems(base.0) + Elems(over.0) + Elems(OwnRules(doc).restricted)
      && Elems(m.1) == Elems(base.1) + Elems(over.1) + Elems(OwnRules(doc).allowed)
      && Elems(m.2) == Elems(base.2) + Elems(over.2)
  {
    hide Protected, Merged, OwnRules, Elems;
    var e := InlineEntry(all, doc.crds, n);
    ProtectedLists(doc, Described(doc, e));
    NoElems();
    if n in doc.crds {
      ListsAreAdditive(all[n], doc.crds[n].(name := n));
    }
  }

  lemma NoElems()
    ensures Elems<string>([]) == {}
  {
  }

  /** An import that leaves settings alone repeats those of the import before it. */
  lemma {:induction false} AfterAt(init: Settings, loaded: seq<Loaded>, j: nat)
    requires j < |loaded| && loaded[j].Loaded?
    ensures var after := After(init, loaded);
      after[j] == if loaded[j].settings.Some? then loaded[j].settings.value else if j == 0 then init else after[j - 1]
  {
    if j < |loaded| - 1 {
      AfterAt(init, loaded[..|loaded| - 1], j);
    }
  }

  lemma RepeatedNotes(notes: seq<Note>, twice: seq<Note>)
    requires twice != []
    ensures !Distinct(NoteNames(notes + twice + twice))
  {
    var s := NoteNames(notes + twice + twice);
    assert s[|notes|] == twice[0].name == s[|notes| + |twice|];
  }

  /** The settings the imports themselves gave, without the repeats. */
  ghost function Given(loaded: seq<Loaded>): seq<Settings> {
    if loaded == [] then []
    else
      var last := loaded[|loaded| - 1];
      Given(loaded[..|loaded| - 1]) + if last.Loaded? && last.settings.Some? then [last.settings.value] else []
  }

  /** What the imports bring in: what they gave, after what an earlier load left if the first one gives nothing. */
  ghost function Announced(init: Settings, loaded: seq<Loaded>): seq<Settings> {
    (if loaded != [] && loaded[0].Loaded? && loaded[0].settings.None? then [init] else []) + Given(loaded)
  }

  /** No import that gives no settings finds profiles or notes of the import before it still on the merger. */
  ghost predicate NothingStale(init: Settings, loaded: seq<Loaded>) {
    forall j :: 0 < j < |loaded| && loaded[j].Loaded? && loaded[j].settings.None? ==>
      var now := After(init, loaded)[j]; now.profiles == [] && now.notes.functions == []
  }

  ghost predicate Apart(s: seq<Settings>) {
    ProfilesApart(s) && NotesApart(s)
  }

  lemma ApartStep(s: seq<Settings>, last: Settings)
    ensures Apart(s + [last]) <==>
      Apart(s) && Keys(ProfilesOf(s)) !! Keys(last.profiles)
      && Distinct(NoteNames(NotesOf(s) + last.notes.functions))
  {
    hide Keys, ProfilesOf, NotesOf, Distinct, NoteNames, ProfilesApart;
    SettingsStep(s, last);
    if ProfilesApart(s) {
      ProfilesApartStep(s, last);
    }
    if ProfilesApart(s + [last]) {
      ProfilesApartRest(s, last);
    }
    NotesOfRest(s, last);
  }

  lemma AnnouncedStep(init: Settings, rest: seq<Loaded>, last: Loaded)
    requires last.Loaded?
    ensures Announced(init, rest + [last]) ==
      if last.settings.Some? then Announced(init, rest) + [last.settings.value]
      else if rest == [] then [init]
      else Announced(init, rest)
  {
    var loaded := rest + [last];
    assert loaded[..|rest|] == rest;
    if rest != [] {
      assert loaded[0] == rest[0];
    }
  }

  lemma StaleStep(init: Settings, rest: seq<Loaded>, last: Loaded)
    requires last.Loaded?
    ensures var now := Left(Current(init, rest), last);
      NothingStale(init, rest + [last]) <==>
        NothingStale(init, rest)
        && (rest != [] && last.settings.None? ==> now.profiles == [] && now.notes.functions == [])
  {
    hide Current, Left;
    var loaded, after := rest + [last], After(init, rest);
    AfterStep(init, rest, last);
    var after' := After(init, loaded);
    assert forall j :: 0 <= j < |rest| ==> loaded[j] == rest[j] && after'[j] == after[j];
    assert loaded[|rest|] == last && after'[|rest|] == Left(Current(init, rest), last);
  }

  /** Without stale settings nothing is gathered but what is announced. */
  lemma {:induction false} NothingRepeated(init: Settings, loaded: seq<Loaded>)
    requires AllLoaded(loaded) && NothingStale(init, loaded)
    ensures ProfilesOf(After(init, loaded)) == ProfilesOf(Announced(init, loaded))
    ensures NotesOf(After(init, loaded)) == NotesOf(Announced(init, loaded))
  {
    hide After, AllLoaded, Current, Announced, NothingStale, ProfilesOf, NotesOf;
    if loaded == [] {
      NothingAnnounced(init);
    } else {
      var rest, last := loaded[..|loaded| - 1], loaded[|loaded| - 1];
      assert loaded == rest + [last];
      RestLoaded(rest, last);
      StaleStep(init, rest, last);
      NothingRepeated(init, rest);
      AfterStep(init, rest, last);
      AnnouncedStep(init, rest, last);
      SettingsStep(After(init, rest), Left(Current(init, rest), last));
      SettingsStep(Announced(init, rest), Left(Current(init, rest), last));
      NothingAnnounced(init);
    }
  }

  lemma NothingAnnounced(init: Settings)
    ensures After(init, []) == [] == Announced(init, []) && Current(init, []) == init
  {
  }

  /** Merging the same settings twice in a row works only when they hold neither profiles nor notes. */
  lemma TwiceApart(init: Settings, rest: seq<Loaded>)
    requires rest != []
    ensures var now := Current(init, rest);
      Apart(After(init, rest) + [now]) ==> now.profiles == [] && now.notes.functions == []
  {
    hide Distinct, NoteNames, ProfilesApart;
    var after, now := After(init, rest), Current(init, rest);
    var before := after[..|after| - 1];
    assert after == before + [now];
    SettingsStep(before, now);
    SettingsStep(after, now);
    ApartStep(after, now);
    if now.notes.functions != [] {
      RepeatedNotes(NotesOf(before), now.notes.functions);
    }
    if now.profiles != [] {
      var p := now.profiles[0];
      assert p in ProfilesOf(after) && (p.cls, p.name) in Keys(now.profiles);
    }
  }

  lemma {:induction false} ApartIff(init: Settings, loaded: seq<Loaded>)
    requires AllLoaded(loaded)
    ensures Apart(After(init, loaded)) <==> Apart(Announced(init, loaded)) && NothingStale(init, loaded)
  {
    hide After, AllLoaded, Current, Announced, NothingStale, ProfilesOf, NotesOf, Apart, Keys, Distinct, NoteNames;
    if loaded == [] {
      NothingAnnounced(init);
      NeverStale(init);
    } else {
      var rest, last := loaded[..|loaded| - 1], loaded[|loaded| - 1];
      assert loaded == rest + [last];
      RestLoaded(rest, last);
      var now := Left(Current(init, rest), last);
      ApartIff(init, rest);
      StaleStep(init, rest, last);
      AfterStep(init, rest, last);
      AnnouncedStep(init, rest, last);
      ApartStep(After(init, rest), now);
      ApartStep(Announced(init, rest), now);
      if NothingStale(init, rest) {
        NothingRepeated(init, rest);
      }
      if last.settings.None? && rest == [] {
        NothingAnnounced(init);
        NeverStale(init);
        assert After(init, loaded) == [init] == Announced(init, loaded);
      } else if last.settings.None? {
        TwiceApart(init, rest);
        NoSettings(After(init, rest), now);
      }
    }
  }

  lemma NeverStale(init: Settings)
    ensures NothingStale(init, [])
  {
  }

  /** Settings without profiles and notes stay apart from any others. */
  lemma NoSettings(s: seq<Settings>, empty: Settings)
    ensures Apart(s) && empty.profiles == [] && empty.notes.functions == [] ==>
      Keys(ProfilesOf(s)) !! Keys(empty.profiles) && Distinct(NoteNames(NotesOf(s) + empty.notes.functions))
  {
    hide Distinct, NoteNames, ProfilesApart, ProfilesOf, NotesOf;
    assert NotesOf(s) + [] == NotesOf(s);
  }

  /**
  Exactly when the imports of a Stack can be combined: all load, no two labels share a name, what
  they announce repeats no profile and no note name, and no import without settings of its own, a
  helm chart, say, finds profiles or notes of the import before it.
  */
  lemma ImportsOkIff(init: Settings, loaded: seq<Loaded>)
    ensures ImportsOk(init, loaded) <==>
      && AllLoaded(loaded) && NoClash(SourcesOf(loaded))
      && ProfilesApart(Announced(init, loaded)) && NotesApart(Announced(init, loaded))
      && NothingStale(init, loaded)
  {
    hide NoClash, ProfilesApart, NotesApart, After, Announced, NothingStale;
    if AllLoaded(loaded) {
      ApartIff(init, loaded);
    }
  }

  /** What comes in from an earlier load when the first import leaves the settings alone. */
  ghost function Inherited(init: Settings, loaded: seq<Loaded>): Security {
    if loaded != [] && loaded[0].Loaded? &&
      loaded[0].settings.None? then init.security.(certManager := None) else NO_SECURITY
  }

  /**
  Merging a stale security block again is harmless: the accumulated block is what the imports gave,
  on top of what an earlier load left if the first import gave nothing.
  */
  lemma {:induction false} StaleSecurityHarmless(init: Settings, loaded: seq<Loaded>)
    requires AllLoaded(loaded)
    ensures SecurityOf(After(init, loaded)) == MergedSecurity(Inherited(init, loaded), SecurityOf(Given(loaded)))
    ensures loaded != [] ==>
      MergedSecurity(SecurityOf(After(init, loaded)), Current(init, loaded).security) == SecurityOf(After(init, loaded))
  {
    hide After, Given, SecurityOf, AllLoaded, Current;
    if loaded == [] {
      NothingGiven(init);
    } else {
      var rest, last := loaded[..|loaded| - 1], loaded[|loaded| - 1];
      assert loaded == rest + [last];
      RestLoaded(rest, last);
      if rest == [] {
        OneImport(init, last);
      } else {
        StaleSecurityHarmless(init, rest);
        AfterStep(init, rest, last);
        SettingsStep(After(init, rest), Left(Current(init, rest), last));
        GivenStep(rest, last);
      }
    }
  }

  lemma NothingGiven(init: Settings)
    ensures SecurityOf(After(init, [])) == NO_SECURITY == SecurityOf(Given([]))
  {
  }

  lemma OneImport(init: Settings, l: Loaded)
    requires l.Loaded?
    ensures SecurityOf(After(init, [l])) == MergedSecurity(Inherited(init, [l]), SecurityOf(Given([l])))
    ensures var acc := SecurityOf(After(init, [l])); MergedSecurity(acc, Current(init, [l]).security) == acc
  {
    AfterStep(init, [], l);
    SettingsStep([], Left(init, l));
    GivenStep([], l);
  }

  lemma RestLoaded(rest: seq<Loaded>, last: Loaded)
    requires AllLoaded(rest + [last])
    ensures AllLoaded(rest) && last.Loaded?
    ensures rest != [] ==> (rest + [last])[0] == rest[0]
  {
    var all := rest + [last];
    assert all[|rest|] == last && forall i :: 0 <= i < |rest| ==> all[i] == rest[i];
  }

  lemma GivenStep(rest: seq<Loaded>, last: Loaded)
    ensures Given([]) == []
    ensures last.Loaded? && last.settings.Some? ==>
      SecurityOf(Given(rest + [last])) == MergedSecurity(SecurityOf(Given(rest)), last.settings.value.security)
    ensures !(last.Loaded? && last.settings.Some?) ==> Given(rest + [last]) == Given(rest)
  {
    assert (rest + [last])[..|rest|] == rest;
    if last.Loaded? && last.settings.Some? {
      SettingsStep(Given(rest), last.settings.value);
    }
  }

  /** When the first import leaves the settings alone, all those of an earlier load come in first. */
  lemma FirstImportInherits(init: Settings, loaded: seq<Loaded>)
    requires loaded != [] && loaded[0].Loaded? && loaded[0].settings.None?
    ensures var after := After(init, loaded);
      init.profiles <= ProfilesOf(after) && init.imports <= ImportsOf(after) && init.notes.functions <= NotesOf(after)
  {
    AfterAt(init, loaded, 0);
    FirstSettingsFirst(After(init, loaded));
  }

  lemma {:induction false} FirstSettingsFirst(after: seq<Settings>)
    requires after != []
    ensures after[0].profiles <= ProfilesOf(after)
    ensures after[0].imports <= ImportsOf(after)
    ensures after[0].notes.functions <= NotesOf(after)
  {
    var rest, last := after[..|after| - 1], after[|after| - 1];
    assert after == rest + [last];
    SettingsStep(rest, last);
    if rest != [] {
      FirstSettingsFirst(rest);
    }
  }

  /** No Stack keeps a certificate manager, declared or imported. */
  lemma {:induction false} CertManagerLost(init: Settings, doc: Doc)
    ensures StackSettings(init, doc).security.certManager.None?
  {
    NoCertManager(After(init, ImportList(doc)));
  }

  lemma {:induction false} NoCertManager(s: seq<Settings>)
    ensures SecurityOf(s).certManager.None?
  {
    if s != [] {
      NoCertManager(s[..|s| - 1]);
    }
  }
}
