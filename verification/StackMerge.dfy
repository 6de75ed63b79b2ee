/**
Loading a Stack: the CRDs and settings of its imports, in order, with the Stack's own declarations
on top. Fetching and parsing an import is given; what is modelled is what happens to the outcome.
*/
module StackMerge {
  import opened Ordering
  import opened EntryMerge

  /** The CRDs of one import, under the label that duplicates are checked against. */
  datatype Source = Source(origin: string, crds: map<string, Entry>)

  /** A profile of one class; the registry is read class by class, each in list order. */
  datatype Profile = Profile(cls: string, name: string, def: Block)

  datatype Note = Note(name: string, body: Block)

  datatype Notes = Notes(includeFile: string, functions: seq<Note>)

  /** The catalog-wide settings a loader leaves on the merger. */
  datatype Settings = Settings(security: Security, profiles: seq<Profile>, imports: seq<Block>, notes: Notes)

  /**
  The outcome of one import. A helm chart, or a file that is no catalog, leaves the settings of the
  previous load in place.
  */
  datatype Loaded = Broken(msg: string) | Loaded(source: Source, settings: Option<Settings>)

  datatype Doc = Doc(
    imports: Option<seq<Loaded>>, crds: map<string, Entry>, security: Security, profiles: seq<Profile>,
    specImports: seq<Block>, notes: Notes, description: string, version: string)

  datatype MergeError = LoadFailed(index: nat) | Duplicate(name: string) | ProfileConflict | NoteConflict | EmptyKey |
    StackImports

  // ---------------------------------------------------------------- CRD names across imports

  /** Two imports under different labels must not share a name. */
  ghost predicate NoClash(sources: seq<Source>) {
    forall i, j, n :: 0 <= i < j < |sources| && n in sources[i].crds && n in sources[j].crds ==>
      sources[i].origin == sources[j].origin
  }

  ghost function EntriesOf(sources: seq<Source>): (r: map<string, Entry>)
    ensures forall n :: n in r <==> exists i :: 0 <= i < |sources| && n in sources[i].crds
  {
    if sources == [] then map[] else EntriesOf(sources[..|sources| - 1]) + sources[|sources| - 1].crds
  }

  /** seen holds, for every name so far, the label of an import that has it. */
  ghost predicate Labels(sources: seq<Source>, seen: map<string, string>) {
    && (forall n :: n in seen ==> exists i ::
      0 <= i < |sources| && n in sources[i].crds && sources[i].origin == seen[n])
    && (forall i, n :: 0 <= i < |sources| && n in sources[i].crds ==> n in seen)
  }

  ghost predicate Fits(seen: map<string, string>, s: Source) {
    forall n :: n in s.crds && n in seen ==> seen[n] == s.origin
  }

  ghost function Marked(seen: map<string, string>, s: Source): map<string, string> {
    seen + map n | n in s.crds :: s.origin
  }

  lemma NoClashStep(sources: seq<Source>, seen: map<string, string>, s: Source)
    requires NoClash(sources) && Labels(sources, seen)
    ensures NoClash(sources + [s]) <==> Fits(seen, s)
  {
    if NoClash(sources + [s]) {
      forall n | n in s.crds && n in seen ensures seen[n] == s.origin {
        var i :| 0 <= i < |sources| && n in sources[i].crds && sources[i].origin == seen[n];
        assert (sources + [s])[i] == sources[i] && (sources + [s])[|sources|] == s;
      }
    }
    if Fits(seen, s) {
      forall i, n | 0 <= i < |sources| && n in sources[i].crds && n in s.crds ensures sources[i].origin == s.origin {
        var k :| 0 <= k < |sources| && n in sources[k].crds && sources[k].origin == seen[n];
        assert k < i || k == i || i < k;
      }
    }
  }

  lemma LabelsStep(sources: seq<Source>, seen: map<string, string>, s: Source)
    requires Labels(sources, seen)
    ensures Labels(sources + [s], Marked(seen, s))
  {
    var all := sources + [s];
    forall n | n in Marked(seen, s)
      ensures exists i :: 0 <= i < |all| && n in all[i].crds && all[i].origin == Marked(seen, s)[n]
    {
      if n in s.crds {
        assert all[|sources|] == s;
      } else {
        var i :| 0 <= i < |sources| && n in sources[i].crds && sources[i].origin == seen[n];
        assert all[i] == sources[i];
      }
    }
  }

  /** The entry of a name is the one of the last import that has it. */
  lemma {:induction false} EntryOfLast(sources: seq<Source>, i: nat, n: string)
    requires i < |sources| && n in sources[i].crds
    requires forall j :: i < j < |sources| ==> n !in sources[j].crds
    ensures n in EntriesOf(sources) && EntriesOf(sources)[n] == sources[i].crds[n]
  {
    if i < |sources| - 1 {
      EntryOfLast(sources[..|sources| - 1], i, n);
    }
  }

  lemma SameImport(sources: seq<Source>, i: nat, j: nat, n: string)
    requires NoClash(sources) && i < |sources| && j < |sources| && n in sources[i].crds && n in sources[j].crds
    requires forall j, k :: 0 <= j < k < |sources| ==> sources[j].origin != sources[k].origin
    ensures i == j
  {
  }

  /** Without clashes between distinct labels, every name has exactly one import. */
  lemma OneImportPerName(sources: seq<Source>, i: nat, n: string)
    requires NoClash(sources) && i < |sources| && n in sources[i].crds
    requires forall j, k :: 0 <= j < k < |sources| ==> sources[j].origin != sources[k].origin
    ensures n in EntriesOf(sources) && EntriesOf(sources)[n] == sources[i].crds[n]
    ensures forall j :: 0 <= j < |sources| && n in sources[j].crds ==> j == i
  {
    forall j | 0 <= j < |sources| && n in sources[j].crds ensures j == i {
      SameImport(sources, i, j, n);
    }
    EntryOfLast(sources, i, n);
  }

  /** base with the entries of more under the names in done. */
  ghost predicate PartlyAdded<V>(base: map<string, V>, more: map<string, V>, done: set<string>, r: map<string, V>) {
    && done <= more.Keys && r.Keys == base.Keys + done
    && forall n :: n in r ==> r[n] == if n in done then more[n] else base[n]
  }

  lemma PartlyAddedStep<V>(base: map<string, V>, more: map<string, V>, done: set<string>, r: map<string, V>, n: string)
    requires PartlyAdded(base, more, done, r) && n in more
    ensures PartlyAdded(base, more, done + {n}, r[n := more[n]])
    ensures n !in done ==> (n in r <==> n in base) && (n in r ==> r[n] == base[n])
  {
  }

  lemma PartlyAddedBounds<V>(base: map<string, V>, more: map<string, V>, r: map<string, V>)
    ensures PartlyAdded(base, more, {}, base)
    ensures PartlyAdded(base, more, more.Keys, r) ==> r == base + more
  {
  }

  /** The name under which an import does not fit. */
  ghost predicate Misfit(seen: map<string, string>, s: Source, e: MergeError) {
    e.Duplicate? && e.name in s.crds && e.name in seen && seen[e.name] != s.origin
  }

  /** Two sources with different labels hold the name. */
  ghost predicate ClashOn(sources: seq<Source>, n: string) {
    exists i, j :: 0 <= i < j < |sources| && n in sources[i].crds && n in sources[j].crds
      && sources[i].origin != sources[j].origin
  }

  lemma MisfitIsClash(sources: seq<Source>, seen: map<string, string>, s: Source, e: MergeError)
    requires Labels(sources, seen) && Misfit(seen, s, e)
    ensures e.Duplicate? && ClashOn(sources + [s], e.name)
  {
    var i :| 0 <= i < |sources| && e.name in sources[i].crds && sources[i].origin == seen[e.name];
    var all := sources + [s];
    assert all[i] == sources[i] && all[|sources|] == s;
  }

  lemma ClashStays(sources: seq<Source>, k: nat, n: string)
    requires k <= |sources| && ClashOn(sources[..k], n)
    ensures ClashOn(sources, n)
  {
    var i, j :| 0 <= i < j < k && n in sources[..k][i].crds && n in sources[..k][j].crds
      && sources[..k][i].origin != sources[..k][j].origin;
    assert sources[..k][i] == sources[i] && sources[..k][j] == sources[j];
  }

  /** One import's CRDs, in any map order, checked and added one by one. */
  method AddCrds(seen: map<string, string>, all: map<string, Entry>, s: Source)
    returns (error: Option<MergeError>, seen': map<string, string>, all': map<string, Entry>)
    ensures error.None? <==> Fits(seen, s)
    ensures error.None? ==> seen' == Marked(seen, s) && all' == all + s.crds
    ensures error.Some? ==> Misfit(seen, s, error.value)
  {
    hide PartlyAdded;
    seen', all' := seen, all;
    ghost var marks := map n | n in s.crds :: s.origin;
    var todo := s.crds.Keys;
    assert s.crds.Keys - todo == {};
    PartlyAddedBounds(seen, marks, seen);
    PartlyAddedBounds(all, s.crds, all);
    while todo != {}
      invariant todo <= s.crds.Keys
      invariant forall n :: n in s.crds.Keys - todo && n in seen ==> seen[n] == s.origin
      invariant PartlyAdded(seen, marks, s.crds.Keys - todo, seen') &&
        PartlyAdded(all, s.crds, s.crds.Keys - todo, all')
      decreases |todo|
    {
      var name :| name in todo;
      TakeFrom(s.crds.Keys, todo, name);
      PartlyAddedStep(seen, marks, s.crds.Keys - todo, seen', name);
      PartlyAddedStep(all, s.crds, s.crds.Keys - todo, all', name);
      if name in seen' && seen'[name] != s.origin {
        return Some(Duplicate(name)), seen', all';
      }
      todo := todo - {name};
      seen' := seen'[name := s.origin];
      all' := all'[name := s.crds[name]];
    }
    assert s.crds.Keys - todo == marks.Keys == s.crds.Keys;
    PartlyAddedBounds(seen, marks, seen');
    PartlyAddedBounds(all, s.crds, all');
    error := None;
  }

  /** Merge over the entry points: each file's CRDs under the file's path. */
  method MergeEntryPoints(files: seq<Source>) returns (r: Result<map<string, Entry>, MergeError>)
    ensures r.Success? <==> NoClash(files)
    ensures r.Success? ==> r.value == EntriesOf(files)
    ensures r.Failure? ==> r.error.Duplicate? && ClashOn(files, r.error.name)
  {
    hide ClashOn;
    var seen, merged: map<string, Entry> := map[], map[];
    for k := 0 to |files|
      invariant NoClash(files[..k]) && Labels(files[..k], seen)
      invariant merged == EntriesOf(files[..k])
    {
      assert files[..k + 1] == files[..k] + [files[k]];
      NoClashStep(files[..k], seen, files[k]);
      LabelsStep(files[..k], seen, files[k]);
      var error, seen', merged' := AddCrds(seen, merged, files[k]);
      if error.Some? {
        assert !NoClash(files[..k + 1]);
        ClashRemains(files, k + 1);
        MisfitIsClash(files[..k], seen, files[k], error.value);
        ClashStays(files, k + 1, error.value.name);
        return Failure(error.value);
      }
      seen, merged := seen', merged';
    }
    assert files[..|files|] == files;
    r := Success(merged);
  }

  lemma ClashRemains(sources: seq<Source>, k: nat)
    requires k <= |sources| && !NoClash(sources[..k])
    ensures !NoClash(sources)
  {
    var i, j, n :| 0 <= i < j < k && n in sources[i].crds && n in sources[j].crds &&
      sources[i].origin != sources[j].origin;
  }

  method Enabled(result: map<string, Entry>) returns (out: map<string, Entry>)
    ensures out == map n | n in result && On(result[n].enabled) :: result[n]
  {
    out := map[];
    var todo := result.Keys;
    while todo != {}
      invariant todo <= result.Keys
      invariant out == map n | n in result && n !in todo && On(result[n].enabled) :: result[n]
    {
      var name :| name in todo;
      todo := todo - {name};
      if On(result[name].enabled) {
        out := out[name := result[name]];
      }
    }
  }

  // ---------------------------------------------------------------- settings across imports

  /** The merger's settings after each import: what the import left, or else what was there before. */
  ghost function After(init: Settings, loaded: seq<Loaded>): (r: seq<Settings>)
    ensures |r| == |loaded|
  {
    if loaded == [] then []
    else
      var rest := After(init, loaded[..|loaded| - 1]);
      var last := loaded[|loaded| - 1];
      rest + [if last.Loaded? && last.settings.Some? then last.settings.value
              else if rest == [] then init else rest[|rest| - 1]]
  }

  ghost function SecurityOf(s: seq<Settings>): Security {
    if s == [] then NO_SECURITY else MergedSecurity(SecurityOf(s[..|s| - 1]), s[|s| - 1].security)
  }

  ghost function ProfilesOf(s: seq<Settings>): seq<Profile> {
    if s == [] then [] else ProfilesOf(s[..|s| - 1]) + s[|s| - 1].profiles
  }

  ghost function ImportsOf(s: seq<Settings>): seq<Block> {
    if s == [] then [] else ImportsOf(s[..|s| - 1]) + s[|s| - 1].imports
  }

  ghost function NotesOf(s: seq<Settings>): seq<Note> {
    if s == [] then [] else NotesOf(s[..|s| - 1]) + s[|s| - 1].notes.functions
  }

  /** Security blocks can be accumulated in any grouping, and the same run of blocks twice counts once. */
  lemma {:induction false} SecurityRegroups(a: seq<Settings>, b: seq<Settings>)
    ensures SecurityOf(a + b) == MergedSecurity(SecurityOf(a), SecurityOf(b))
    ensures SecurityOf(a + b + b) == SecurityOf(a + b)
  {
    SecurityConcat(a, b);
    SecurityConcat(a + b, b);
  }

  lemma {:induction false} SecurityConcat(a: seq<Settings>, b: seq<Settings>)
    ensures SecurityOf(a + b) == MergedSecurity(SecurityOf(a), SecurityOf(b))
  {
    if b == [] {
      assert a + b == a;
    } else {
      assert (a + b)[..|a + b| - 1] == a + b[..|b| - 1];
      SecurityConcat(a, b[..|b| - 1]);
    }
  }

  function Keys(profiles: seq<Profile>): set<(string, string)> {
    set p | p in profiles :: (p.cls, p.name)
  }

  function NoteNames(notes: seq<Note>): (r: seq<string>)
    ensures |r| == |notes| && forall i :: 0 <= i < |notes| ==> r[i] == notes[i].name
  {
    seq(|notes|, i requires 0 <= i < |notes| => notes[i].name)
  }

  /** No profile of a later import repeats one of an earlier import. */
  ghost predicate ProfilesApart(s: seq<Settings>) {
    forall i, j :: 0 <= i < j < |s| ==> Keys(s[i].profiles) !! Keys(s[j].profiles)
  }

  ghost predicate NotesApart(s: seq<Settings>) {
    Distinct(NoteNames(NotesOf(s)))
  }

  /** ProfileRegistry.Merge: conflicts are looked up in the receiver only. */
  method MergeProfiles(r: seq<Profile>, other: seq<Profile>) returns (merged: Option<seq<Profile>>)
    ensures merged.Some? <==> Keys(r) !! Keys(other)
    ensures merged.Some? ==> merged.value == r + other
  {
    var out := r;
    for i := 0 to |other|
      invariant out == r + other[..i]
      invariant forall k :: 0 <= k < i ==> (other[k].cls, other[k].name) !in Keys(r)
    {
      if (other[i].cls, other[i].name) in Keys(r) {
        assert (other[i].cls, other[i].name) in Keys(other);
        return None;
      }
      assert other[..i + 1] == other[..i] + [other[i]];
      out := out + [other[i]];
    }
    assert other[..|other|] == other;
    merged := Some(out);
  }

  /** NoteRegistry.MergeImport: a name seen before, in this import or an earlier one, is a conflict. */
  method MergeImportNotes(notes: seq<Note>, src: seq<Note>, seen: set<string>)
    returns (merged: Option<seq<Note>>, seen': set<string>)
    requires seen == Elems(NoteNames(notes)) && Distinct(NoteNames(notes))
    ensures merged.Some? <==> Distinct(NoteNames(notes + src))
    ensures merged.Some? ==> merged.value == notes + src && seen' == Elems(NoteNames(notes + src))
  {
    var out := notes;
    seen' := seen;
    for i := 0 to |src|
      invariant out == notes + src[..i]
      invariant seen' == Elems(NoteNames(out)) && Distinct(NoteNames(out))
    {
      var n := src[i];
      assert notes + src[..i + 1] == out + [n];
      NoteNamesStep(out, n);
      if n.name in seen' {
        PrefixNotDistinct(NoteNames(notes + src), NoteNames(out + [n]));
        return None, seen';
      }
      seen' := seen' + {n.name};
      out := out + [n];
    }
    assert src[..|src|] == src;
    merged := Some(out);
  }

  lemma NoteNamesStep(notes: seq<Note>, n: Note)
    ensures NoteNames(notes + [n]) == NoteNames(notes) + [n.name]
    ensures Elems(NoteNames(notes + [n])) == Elems(NoteNames(notes)) + {n.name}
    ensures Distinct(NoteNames(notes + [n])) <==> Distinct(NoteNames(notes)) && n.name !in Elems(NoteNames(notes))
  {
    var a, b := NoteNames(notes), NoteNames(notes + [n]);
    assert b == a + [n.name];
    if n.name in a {
      var i :| 0 <= i < |a| && a[i] == n.name;
      assert b[i] == b[|a|];
    }
    if Distinct(b) {
      forall i, j | 0 <= i < j < |a| ensures a[i] != a[j] {
        assert b[i] == a[i] && b[j] == a[j];
      }
    }
  }

  lemma PrefixNotDistinct(s: seq<string>, prefix: seq<string>)
    requires prefix <= s && !Distinct(prefix)
    ensures !Distinct(s)
  {
    var i, j :| 0 <= i < j < |prefix| && prefix[i] == prefix[j];
    assert s[i] == s[j];
  }

  /** NoteRegistry.Merge: the receiver's notes win silently; its include is kept only without a source. */
  ghost function MergedNotes(own: Notes, src: seq<Note>): Notes {
    if src == [] then own else Notes("", own.functions + Unseen(src, Elems(NoteNames(own.functions))))
  }

  /** The notes whose names are new, first occurrences only. */
  ghost function Unseen(src: seq<Note>, names: set<string>): seq<Note> {
    if src == [] then []
    else
      var rest, last := src[..|src| - 1], src[|src| - 1];
      Unseen(rest, names) + if last.name in names + Elems(NoteNames(rest)) then [] else [last]
  }

  lemma UnseenStep(src: seq<Note>, n: Note, names: set<string>)
    ensures Unseen(src + [n], names) == Unseen(src, names) + if n.name in names + Elems(NoteNames(src)) then [] else [n]
    ensures Unseen([], names) == [] && Elems(NoteNames([])) == {}
  {
    assert (src + [n])[..|src|] == src;
  }

  method MergeNotes(own: Notes, src: seq<Note>) returns (r: Notes)
    ensures r == MergedNotes(own, src)
  {
    hide NoteNames, Distinct, Unseen, Elems;
    if |src| == 0 {
      return own;
    }
    var names := Elems(NoteNames(own.functions));
    var existing := names;
    var out := own.functions;
    UnseenStep([], src[0], names);
    for i := 0 to |src|
      invariant out == own.functions + Unseen(src[..i], names)
      invariant existing == names + Elems(NoteNames(src[..i]))
    {
      var n := src[i];
      assert src[..i + 1] == src[..i] + [n];
      NoteNamesStep(src[..i], n);
      UnseenStep(src[..i], n, names);
      if n.name !in existing {
        existing := existing + {n.name};
        out := out + [n];
      }
    }
    assert src[..|src|] == src;
    r := Notes("", out);
  }

  /** The note that a name stands for: the first one in the list. */
  ghost function FirstNamed(notes: seq<Note>, name: string): Option<Note> {
    if notes == [] then None
    else
      var first, last := FirstNamed(notes[..|notes| - 1], name), notes[|notes| - 1];
      if first.Some? then first else if last.name == name then Some(last) else None
  }

  lemma {:induction false} FirstNamedConcat(a: seq<Note>, b: seq<Note>, name: string)
    ensures FirstNamed(a + b, name) == if FirstNamed(a, name).Some? then FirstNamed(a, name) else FirstNamed(b, name)
  {
    if b == [] {
      assert a + b == a;
    } else {
      assert (a + b)[..|a + b| - 1] == a + b[..|b| - 1];
      FirstNamedConcat(a, b[..|b| - 1], name);
    }
  }

  lemma {:induction false} FirstNamedIff(notes: seq<Note>, name: string)
    ensures FirstNamed(notes, name).Some? <==> name in NoteNames(notes)
  {
    if notes != [] {
      var rest, last := notes[..|notes| - 1], notes[|notes| - 1];
      FirstNamedIff(rest, name);
      assert NoteNames(notes) == NoteNames(rest) + [last.name];
    }
  }

  /** The new notes have just the new names, each once. */
  lemma {:induction false} UnseenNames(src: seq<Note>, names: set<string>)
    ensures Elems(NoteNames(Unseen(src, names))) == Elems(NoteNames(src)) - names
    ensures Distinct(NoteNames(Unseen(src, names)))
  {
    hide Distinct, NoteNames, Elems, Unseen;
    if src == [] {
      NoNotes(src, names);
    } else {
      var rest, last := src[..|src| - 1], src[|src| - 1];
      assert src == rest + [last];
      UnseenNames(rest, names);
      UnseenStep(rest, last, names);
      NoteNamesStep(rest, last);
      NoteNamesStep(Unseen(rest, names), last);
      if last.name in names + Elems(NoteNames(rest)) {
        assert Unseen(src, names) == Unseen(rest, names) + [] == Unseen(rest, names);
      } else {
        assert Unseen(src, names) == Unseen(rest, names) + [last];
      }
    }
  }

  lemma NoNotes(src: seq<Note>, names: set<string>)
    requires src == []
    ensures Unseen(src, names) == []
    ensures Elems(NoteNames(Unseen(src, names))) == Elems(NoteNames(src)) - names
    ensures Distinct(NoteNames(Unseen(src, names)))
  {
  }

  lemma {:induction false} UnseenNotes(src: seq<Note>, names: set<string>, name: string)
    ensures FirstNamed(Unseen(src, names), name) == if name in names then None else FirstNamed(src, name)
  {
    hide NoteNames, Elems, Unseen;
    if src == [] {
      NoNotes(src, names);
    } else {
      var rest, last := src[..|src| - 1], src[|src| - 1];
      assert src == rest + [last];
      UnseenNotes(rest, names, name);
      FirstNamedIff(rest, name);
      NamesAsSet(rest);
      UnseenStep(rest, last, names);
      FirstNamedConcat(Unseen(rest, names), [last], name);
      OneNote(last, name);
      assert Unseen(rest, names) + [] == Unseen(rest, names);
    }
  }

  lemma OneNote(n: Note, name: string)
    ensures FirstNamed([n], name) == if n.name == name then Some(n) else None
  {
    assert [n][..0] == [];
  }

  lemma NamesAsSet(notes: seq<Note>)
    ensures forall n :: n in NoteNames(notes) <==> n in Elems(NoteNames(notes))
  {
  }

  /** A Stack's own notes win, and of several imported ones the first; the include survives only without imports. */
  lemma StackNotesWin(own: Notes, src: seq<Note>, name: string)
    ensures var merged := MergedNotes(own, src);
      && FirstNamed(merged.functions, name) == FirstNamed(own.functions + src, name)
      && own.functions <= merged.functions
      && merged.includeFile == if src == [] then own.includeFile else ""
  {
    hide NoteNames, Unseen;
    var names := Elems(NoteNames(own.functions));
    UnseenNotes(src, names, name);
    FirstNamedConcat(own.functions, Unseen(src, names), name);
    FirstNamedConcat(own.functions, src, name);
    FirstNamedIff(own.functions, name);
    NamesAsSet(own.functions);
    assert own.functions + [] == own.functions;
  }

  // ---------------------------------------------------------------- gathering the imports

  ghost predicate AllLoaded(loaded: seq<Loaded>) {
    forall i :: 0 <= i < |loaded| ==> loaded[i].Loaded?
  }

  ghost function SourcesOf(loaded: seq<Loaded>): (r: seq<Source>)
    requires AllLoaded(loaded)
    ensures |r| == |loaded|
  {
    seq(|loaded|, i requires 0 <= i < |loaded| => loaded[i].source)
  }

  /** When the imports of a Stack can be combined at all. */
  ghost predicate ImportsOk(init: Settings, loaded: seq<Loaded>) {
    && AllLoaded(loaded)
    && NoClash(SourcesOf(loaded))
    && ProfilesApart(After(init, loaded))
    && NotesApart(After(init, loaded))
  }

  /** The local variables of loadStack that grow import by import. */
  datatype Acc = Acc(
    seen: map<string, string>, all: map<string, Entry>, security: Security,
    profiles: seq<Profile>, imports: seq<Block>, notes: seq<Note>, noteNames: set<string>)

  const NOTHING_YET := Acc(map[], map[], NO_SECURITY, [], [], [], {})

  ghost predicate Gathered(init: Settings, loaded: seq<Loaded>, acc: Acc)
    requires AllLoaded(loaded)
  {
    var sources, after := SourcesOf(loaded), After(init, loaded);
    && Labels(sources, acc.seen) && acc.all == EntriesOf(sources)
    && acc.security == SecurityOf(after) && acc.profiles == ProfilesOf(after)
    && acc.imports == ImportsOf(after) && acc.notes == NotesOf(after)
    && acc.noteNames == Elems(NoteNames(acc.notes))
  }

  /** What the merger holds once an import is loaded. */
  function Left(current: Settings, l: Loaded): Settings {
    if l.Loaded? && l.settings.Some? then l.settings.value else current
  }

  ghost function Current(init: Settings, loaded: seq<Loaded>): Settings {
    if loaded == [] then init else After(init, loaded)[|loaded| - 1]
  }

  ghost predicate Accepts(acc: Acc, now: Settings, l: Loaded) {
    && l.Loaded? && Fits(acc.seen, l.source)
    && Keys(acc.profiles) !! Keys(now.profiles)
    && Distinct(NoteNames(acc.notes + now.notes.functions))
  }

  /** Which error an import is refused with: the first check that fails, in the order of the code. */
  ghost predicate RefusedWith(acc: Acc, now: Settings, l: Loaded, index: nat, e: MergeError) {
    if l.Broken? then e == LoadFailed(index)
    else if !Fits(acc.seen, l.source) then Misfit(acc.seen, l.source, e)
    else if !(Keys(acc.profiles) !! Keys(now.profiles)) then e == ProfileConflict
    else e == NoteConflict
  }

  /** The same in terms of the imports: not loaded, a name under two labels, a profile twice, a note twice. */
  ghost predicate FailsWith(init: Settings, rest: seq<Loaded>, l: Loaded, e: MergeError)
    requires AllLoaded(rest)
  {
    if l.Broken? then e == LoadFailed(|rest|)
    else
      var sources, after := SourcesOf(rest) + [l.source], After(init, rest + [l]);
      if !NoClash(sources) then e.Duplicate? && ClashOn(sources, e.name)
      else if !ProfilesApart(after) then e == ProfileConflict
      else e == NoteConflict
  }

  lemma RefusalMeans(init: Settings, rest: seq<Loaded>, acc: Acc, l: Loaded, e: MergeError)
    requires ImportsOk(init, rest) && Gathered(init, rest, acc)
    requires RefusedWith(acc, Left(Current(init, rest), l), l, |rest|, e)
    ensures FailsWith(init, rest, l, e)
  {
    hide After, EntriesOf, Labels, NoClash, Fits, ProfilesApart, Keys, Misfit, ClashOn;
    hide ProfilesOf, ImportsOf, NotesOf, SecurityOf, Current, SourcesOf;
    if l.Loaded? {
      var now := Left(Current(init, rest), l);
      AfterStep(init, rest, l);
      ProfilesApartStep(After(init, rest), now);
      NoClashStep(SourcesOf(rest), acc.seen, l.source);
      assert After(init, rest + [l]) == After(init, rest) + [now] && acc.profiles == ProfilesOf(After(init, rest));
      assert ProfilesApart(After(init, rest + [l])) <==> Keys(acc.profiles) !! Keys(now.profiles);
      assert NoClash(SourcesOf(rest) + [l.source]) <==> Fits(acc.seen, l.source);
      if !Fits(acc.seen, l.source) {
        MisfitIsClash(SourcesOf(rest), acc.seen, l.source, e);
      }
    }
  }

  ghost function Grown(acc: Acc, now: Settings, l: Loaded): Acc
    requires l.Loaded?
  {
    var notes := acc.notes + now.notes.functions;
    Acc(Marked(acc.seen, l.source), acc.all + l.source.crds, MergedSecurity(acc.security, now.security),
        acc.profiles + now.profiles, acc.imports + now.imports, notes, Elems(NoteNames(notes)))
  }

  lemma AfterStep(init: Settings, loaded: seq<Loaded>, l: Loaded)
    ensures After(init, loaded + [l]) == After(init, loaded) + [Left(Current(init, loaded), l)]
    ensures Current(init, loaded + [l]) == Left(Current(init, loaded), l)
  {
    assert (loaded + [l])[..|loaded|] == loaded;
  }

  lemma SettingsStep(after: seq<Settings>, s: Settings)
    ensures SecurityOf(after + [s]) == MergedSecurity(SecurityOf(after), s.security)
    ensures ProfilesOf(after + [s]) == ProfilesOf(after) + s.profiles
    ensures ImportsOf(after + [s]) == ImportsOf(after) + s.imports
    ensures NotesOf(after + [s]) == NotesOf(after) + s.notes.functions
  {
    assert (after + [s])[..|after|] == after;
  }

  lemma SourcesStep(loaded: seq<Loaded>, l: Loaded)
    requires AllLoaded(loaded) && l.Loaded?
    ensures AllLoaded(loaded + [l]) && SourcesOf(loaded + [l]) == SourcesOf(loaded) + [l.source]
    ensures EntriesOf(SourcesOf(loaded) + [l.source]) == EntriesOf(SourcesOf(loaded)) + l.source.crds
  {
    var s := SourcesOf(loaded);
    assert (s + [l.source])[..|s|] == s;
  }

  lemma {:induction false} KeysOfAll(after: seq<Settings>, key: (string, string))
    ensures key in Keys(ProfilesOf(after)) <==> exists i :: 0 <= i < |after| && key in Keys(after[i].profiles)
  {
    if after != [] {
      var rest, last := after[..|after| - 1], after[|after| - 1];
      KeysOfAll(rest, key);
      assert Keys(ProfilesOf(after)) == Keys(ProfilesOf(rest)) + Keys(last.profiles);
      if key in Keys(ProfilesOf(rest)) {
        var i :| 0 <= i < |rest| && key in Keys(rest[i].profiles);
        assert after[i] == rest[i];
      }
    }
  }

  lemma ProfilesApartStep(after: seq<Settings>, s: Settings)
    requires ProfilesApart(after)
    ensures ProfilesApart(after + [s]) <==> Keys(ProfilesOf(after)) !! Keys(s.profiles)
  {
    hide Keys, ProfilesOf;
    var all := after + [s];
    if key :| key in Keys(ProfilesOf(after)) && key in Keys(s.profiles) {
      KeysOfAll(after, key);
      var i :| 0 <= i < |after| && key in Keys(after[i].profiles);
      assert all[i] == after[i] && all[|after|] == s;
    } else {
      forall i | 0 <= i < |after| ensures Keys(after[i].profiles) !! Keys(s.profiles) {
        forall key | key in Keys(after[i].profiles) ensures key !in Keys(s.profiles) {
          KeysOfAll(after, key);
        }
      }
    }
  }

  /** Each import either keeps everything combinable or breaks it, decided from what was gathered. */
  lemma ImportsStep(init: Settings, loaded: seq<Loaded>, acc: Acc, l: Loaded)
    requires ImportsOk(init, loaded) && Gathered(init, loaded, acc)
    ensures ImportsOk(init, loaded + [l]) <==> Accepts(acc, Left(Current(init, loaded), l), l)
  {
    hide After, EntriesOf, Labels, NoClash, Fits, ProfilesApart, Keys;
    hide ProfilesOf, ImportsOf, NotesOf, SecurityOf, Current, SourcesOf;
    var now := Left(Current(init, loaded), l);
    AfterStep(init, loaded, l);
    ProfilesApartStep(After(init, loaded), now);
    SettingsStep(After(init, loaded), now);
    if l.Loaded? {
      SourcesStep(loaded, l);
      NoClashStep(SourcesOf(loaded), acc.seen, l.source);
    } else {
      assert (loaded + [l])[|loaded|] == l;
    }
  }

  lemma GatherStep(init: Settings, loaded: seq<Loaded>, acc: Acc, l: Loaded)
    requires ImportsOk(init, loaded) && Gathered(init, loaded, acc) && l.Loaded?
    ensures AllLoaded(loaded + [l]) && Gathered(init, loaded + [l], Grown(acc, Left(Current(init, loaded), l), l))
  {
    hide After, EntriesOf, Labels, NoClash, ProfilesApart, NotesApart, Keys, Marked;
    hide ProfilesOf, ImportsOf, NotesOf, SecurityOf, Current, SourcesOf;
    AfterStep(init, loaded, l);
    SettingsStep(After(init, loaded), Left(Current(init, loaded), l));
    SourcesStep(loaded, l);
    LabelsStep(SourcesOf(loaded), acc.seen, l.source);
  }

  lemma {:induction false} ImportsOkPrefix(init: Settings, loaded: seq<Loaded>, k: nat)
    requires k <= |loaded| && ImportsOk(init, loaded)
    ensures ImportsOk(init, loaded[..k])
    decreases |loaded|
  {
    if k < |loaded| {
      var rest := loaded[..|loaded| - 1];
      assert loaded == rest + [loaded[|loaded| - 1]];
      ImportsOkRest(init, rest, loaded[|loaded| - 1]);
      ImportsOkPrefix(init, rest, k);
      assert rest[..k] == loaded[..k];
    } else {
      assert loaded[..k] == loaded;
    }
  }

  lemma ImportsOkRest(init: Settings, rest: seq<Loaded>, l: Loaded)
    requires ImportsOk(init, rest + [l])
    ensures ImportsOk(init, rest)
  {
    hide *;
    ImportsOkParts(init, rest + [l]);
    LoadedRest(rest, l);
    SourcesStep(rest, l);
    NoClashRest(SourcesOf(rest), l.source);
    AfterStep(init, rest, l);
    ProfilesApartRest(After(init, rest), Left(Current(init, rest), l));
    NotesOfRest(After(init, rest), Left(Current(init, rest), l));
    ImportsOkParts(init, rest);
  }

  lemma ImportsOkParts(init: Settings, loaded: seq<Loaded>)
    ensures ImportsOk(init, loaded) ==>
      AllLoaded(loaded) && NoClash(SourcesOf(loaded)) && ProfilesApart(After(init, loaded)) &&
        NotesApart(After(init, loaded))
    ensures AllLoaded(loaded) ==>
      (NoClash(SourcesOf(loaded)) && ProfilesApart(After(init, loaded)) && NotesApart(After(init, loaded)) ==>
        ImportsOk(init, loaded))
  {
    hide NoClash, ProfilesApart, NotesApart, AllLoaded;
  }

  lemma LoadedRest(rest: seq<Loaded>, l: Loaded)
    requires AllLoaded(rest + [l])
    ensures AllLoaded(rest) && l.Loaded?
  {
    var all := rest + [l];
    assert l == all[|rest|] && forall i :: 0 <= i < |rest| ==> rest[i] == all[i];
  }

  lemma NoClashRest(sources: seq<Source>, s: Source)
    requires NoClash(sources + [s])
    ensures NoClash(sources)
  {
    var all := sources + [s];
    assert forall i :: 0 <= i < |sources| ==> all[i] == sources[i];
  }

  lemma ProfilesApartRest(after: seq<Settings>, s: Settings)
    requires ProfilesApart(after + [s])
    ensures ProfilesApart(after)
  {
    hide Keys;
    var all := after + [s];
    assert forall i :: 0 <= i < |after| ==> all[i] == after[i];
  }

  lemma NotesOfRest(after: seq<Settings>, s: Settings)
    ensures NotesApart(after + [s]) ==> NotesApart(after)
  {
    SettingsStep(after, s);
    if !NotesApart(after) {
      PrefixNotDistinct(NoteNames(NotesOf(after) + s.notes.functions), NoteNames(NotesOf(after)));
    }
  }
}
