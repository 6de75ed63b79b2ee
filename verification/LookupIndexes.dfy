/**
The catalog's lookup indexes: maps from a lowercased key to a CRD name, filled while ranging over
the enabled CRDs in any order, against a plain search through them. How strings are lowercased and
trimmed is given.
*/
module LookupIndexes {
  import opened Ordering

  /** What a CRD is found by. */
  datatype Keys = Keys(apiVersion: string, kind: string, plural: string, gvk: string, gvr: string,
    target: Option<string>)

  datatype Which = ByApiVersionAndKind | ByKind | ByName | ByPlural | ByGvk | ByGvr | ByTarget

  /** The key a CRD is filed under, if it is filed at all. */
  function KeyOf(lower: string -> string, which: Which, name: string, crd: Keys): Option<string> {
    match which
    case ByApiVersionAndKind => Some(lower(crd.apiVersion + crd.kind))
    case ByKind => Some(lower(crd.kind))
    case ByName => Some(lower(name))
    case ByPlural => if crd.plural != "" then Some(lower(crd.plural)) else None
    case ByGvk => Some(lower(crd.gvk))
    case ByGvr => Some(lower(crd.gvr))
    case ByTarget => if crd.target.Some? then Some(lower(crd.target.value)) else None
  }

  ghost predicate Files(lower: string -> string, which: Which, enabled: map<string, Keys>, name: string, key: string) {
    name in enabled && KeyOf(lower, which, name, enabled[name]) == Some(key)
  }

  /** An index over some of the names: each key leads to one of the CRDs filed under it. */
  ghost predicate Index(lower: string -> string, which: Which, enabled: map<string, Keys>, done: set<string>,
      index: map<string, string>) {
    && (forall key :: key in index ==> index[key] in done && Files(lower, which, enabled, index[key], key))
    && (forall name, key :: name in done && Files(lower, which, enabled, name, key) ==> key in index)
  }

  function Filed(index: map<string, string>, key: Option<string>, name: string): map<string, string> {
    if key.Some? then index[key.value := name] else index
  }

  lemma IndexStep(lower: string -> string, which: Which, enabled: map<string, Keys>, done: set<string>,
      index: map<string, string>, name: string)
    requires Index(lower, which, enabled, done, index) && name in enabled
    ensures Index(lower, which, enabled, done + {name}, Filed(index, KeyOf(lower, which, name, enabled[name]), name))
  {
    hide KeyOf;
  }

  /** The index after filing the names in this order: the last one under a key stays. */
  function FiledIn(lower: string -> string, which: Which, enabled: map<string, Keys>,
      order: seq<string>): map<string, string>
    requires Elems(order) <= enabled.Keys
  {
    if order == [] then map[]
    else
      var rest, last := order[..|order| - 1], order[|order| - 1];
      assert order == rest + [last];
      assert last in Elems(order) && Elems(rest) <= Elems(order);
      Filed(FiledIn(lower, which, enabled, rest), KeyOf(lower, which, last, enabled[last]), last)
  }

  lemma FiledInStep(lower: string -> string, which: Which, enabled: map<string, Keys>, order: seq<string>, name: string)
    requires Elems(order) <= enabled.Keys && name in enabled
    ensures Elems(order + [name]) == Elems(order) + {name} <= enabled.Keys
    ensures FiledIn(lower, which, enabled, order + [name])
      == Filed(FiledIn(lower, which, enabled, order), KeyOf(lower, which, name, enabled[name]), name)
  {
    assert (order + [name])[..|order|] == order;
  }

  /** However the names are ordered, every key leads to one of the CRDs filed under it. */
  lemma {:induction false} FiledInIsIndex(lower: string -> string, which: Which, enabled: map<string, Keys>,
      order: seq<string>)
    requires Elems(order) <= enabled.Keys
    ensures Index(lower, which, enabled, Elems(order), FiledIn(lower, which, enabled, order))
  {
    hide Files, KeyOf, Filed, FiledIn, Index;
    if order == [] {
      NothingFiled(lower, which, enabled);
    } else {
      var rest, last := order[..|order| - 1], order[|order| - 1];
      assert order == rest + [last];
      assert last in Elems(order) && Elems(rest) <= Elems(order);
      FiledInIsIndex(lower, which, enabled, rest);
      IndexStep(lower, which, enabled, Elems(rest), FiledIn(lower, which, enabled, rest), last);
      FiledInStep(lower, which, enabled, rest, last);
    }
  }

  lemma NothingFiled(lower: string -> string, which: Which, enabled: map<string, Keys>)
    ensures Elems<string>([]) == {} && Index(lower, which, enabled, {}, FiledIn(lower, which, enabled, []))
  {
  }

  /** An order in which the enabled CRDs can be ranged over. */
  ghost predicate RangeOrder(enabled: map<string, Keys>, order: seq<string>) {
    Distinct(order) && Elems(order) == enabled.Keys
  }

  lemma DistinctStep(order: seq<string>, name: string)
    requires Distinct(order) && name !in Elems(order)
    ensures Distinct(order + [name]) && Elems(order + [name]) == Elems(order) + {name}
  {
  }

  lemma NothingRanged()
    ensures Distinct<string>([]) && Elems<string>([]) == {}
  {
  }

  /** What a lookup must return: some match if there is one, and only a match. */
  ghost predicate Finds(lower: string -> string, which: Which, enabled: map<string, Keys>, key: string,
      r: Option<(string, Keys)>) {
    && (r.Some? <==> exists name :: Files(lower, which, enabled, name, key))
    && (r.Some? ==> Files(lower, which, enabled, r.value.0, key) && enabled[r.value.0] == r.value.1)
  }

  /** With at most one CRD under the key, the match does not depend on the map order. */
  lemma FindsUnique(lower: string -> string, which: Which, enabled: map<string, Keys>, key: string,
      a: Option<(string, Keys)>, b: Option<(string, Keys)>)
    requires Finds(lower, which, enabled, key, a) && Finds(lower, which, enabled, key, b)
    requires forall m, n :: Files(lower, which, enabled, m, key) && Files(lower, which, enabled, n, key) ==> m == n
    ensures a == b
  {
  }

  /** The catalog's seven indexes. */
  datatype Indexes = Indexes(
    apiVersionAndKind: map<string, string>, kind: map<string, string>, name: map<string, string>,
    plural: map<string, string>, gvk: map<string, string>, gvr: map<string, string>, target: map<string, string>)
  {
    function At(which: Which): map<string, string> {
      match which
      case ByApiVersionAndKind => apiVersionAndKind
      case ByKind => kind
      case ByName => name
      case ByPlural => plural
      case ByGvk => gvk
      case ByGvr => gvr
      case ByTarget => target
    }
  }

  ghost function IndexesIn(lower: string -> string, enabled: map<string, Keys>, order: seq<string>): Indexes
    requires Elems(order) <= enabled.Keys
  {
    Indexes(FiledIn(lower, ByApiVersionAndKind, enabled, order), FiledIn(lower, ByKind, enabled, order),
            FiledIn(lower, ByName, enabled, order), FiledIn(lower, ByPlural, enabled, order),
            FiledIn(lower, ByGvk, enabled, order), FiledIn(lower, ByGvr, enabled, order),
            FiledIn(lower, ByTarget, enabled, order))
  }

  /** One CRD more in each of them. */
  lemma IndexesStep(lower: string -> string, enabled: map<string, Keys>, order: seq<string>, name: string)
    requires Elems(order) <= enabled.Keys && name in enabled
    ensures Elems(order + [name]) <= enabled.Keys
    ensures var x, crd := IndexesIn(lower, enabled, order), enabled[name];
      IndexesIn(lower, enabled, order + [name]) == Indexes(
        x.apiVersionAndKind[lower(crd.apiVersion + crd.kind) := name],
        x.kind[lower(crd.kind) := name],
        x.name[lower(name) := name],
        if crd.plural != "" then x.plural[lower(crd.plural) := name] else x.plural,
        x.gvk[lower(crd.gvk) := name],
        x.gvr[lower(crd.gvr) := name],
        if crd.target.Some? then x.target[lower(crd.target.value) := name] else x.target)
  {
    hide FiledIn, Elems;
    FiledInStep(lower, ByApiVersionAndKind, enabled, order, name);
    FiledInStep(lower, ByKind, enabled, order, name);
    FiledInStep(lower, ByName, enabled, order, name);
    FiledInStep(lower, ByPlural, enabled, order, name);
    FiledInStep(lower, ByGvk, enabled, order, name);
    FiledInStep(lower, ByGvr, enabled, order, name);
    FiledInStep(lower, ByTarget, enabled, order, name);
  }

  /** Lowercasing works rune by rune, so it distributes over concatenation. */
  ghost predicate PerRune(lower: string -> string) {
    forall a, b :: lower(a + b) == lower(a) + lower(b)
  }

  class Catalog {
    const lower: string -> string
    const trim: string -> string
    const enabled: map<string, Keys>
    var apiVersionIndex: map<string, string>
    var kindIndex: map<string, string>
    var nameIndex: map<string, string>
    var pluralIndex: map<string, string>
    var gvkIndex: map<string, string>
    var gvrIndex: map<string, string>
    var targetIndex: map<string, string>

    constructor (enabled: map<string, Keys>, lower: string -> string, trim: string -> string)
      ensures this.enabled == enabled && this.lower == lower && this.trim == trim
    {
      this.enabled, this.lower, this.trim := enabled, lower, trim;
    }

    function Snapshot(): Indexes
      reads this
    {
      Indexes(apiVersionIndex, kindIndex, nameIndex, pluralIndex, gvkIndex, gvrIndex, targetIndex)
    }

    /** The seven indexes hold what ranging over these names leaves in them. */
    ghost predicate FiledBy(order: seq<string>)
      reads this
    {
      Elems(order) <= enabled.Keys && Snapshot() == IndexesIn(lower, enabled, order)
    }

    ghost predicate Indexed()
      reads this
    {
      exists order :: RangeOrder(enabled, order) && FiledBy(order)
    }

    /** One CRD under all its keys. */
    method FileOne(name: string, ghost order: seq<string>)
      requires name in enabled && FiledBy(order)
      modifies this
      ensures FiledBy(order + [name])
    {
      hide FiledIn, Elems, IndexesIn;
      IndexesStep(lower, enabled, order, name);
      var crd := enabled[name];
      apiVersionIndex := apiVersionIndex[lower(crd.apiVersion + crd.kind) := name];
      kindIndex := kindIndex[lower(crd.kind) := name];
      nameIndex := nameIndex[lower(name) := name];
      if crd.plural != "" {
        pluralIndex := pluralIndex[lower(crd.plural) := name];
      }
      gvkIndex := gvkIndex[lower(crd.gvk) := name];
      gvrIndex := gvrIndex[lower(crd.gvr) := name];
      if crd.target.Some? {
        targetIndex := targetIndex[lower(crd.target.value) := name];
      }
    }

    method Clear()
      modifies this
      ensures FiledBy([])
    {
      apiVersionIndex, kindIndex, nameIndex, pluralIndex := map[], map[], map[], map[];
      gvkIndex, gvrIndex, targetIndex := map[], map[], map[];
    }

    method BuildLookupIndexes()
      modifies this
      ensures Indexed()
    {
      hide Catalog.FiledBy, Distinct, Elems;
      Clear();
      var todo := enabled.Keys;
      ghost var order: seq<string> := [];
      NothingRanged();
      assert enabled.Keys - todo == {};
      while todo != {}
        invariant todo <= enabled.Keys && FiledBy(order)
        invariant Distinct(order) && Elems(order) == enabled.Keys - todo
        decreases |todo|
      {
        var name :| name in todo;
        TakeFrom(enabled.Keys, todo, name);
        FileOne(name, order);
        DistinctStep(order, name);
        order := order + [name];
        todo := todo - {name};
      }
      assert RangeOrder(enabled, order);
    }

    lemma IndexedMeans(which: Which)
      requires Indexed()
      ensures Index(lower, which, enabled, enabled.Keys, Snapshot().At(which))
    {
      hide Index, FiledIn;
      var order :| RangeOrder(enabled, order) && FiledBy(order);
      FiledInIsIndex(lower, which, enabled, order);
    }

    method Find(index: map<string, string>, key: string, ghost which: Which) returns (r: Option<(string, Keys)>)
      requires Index(lower, which, enabled, enabled.Keys, index)
      ensures Finds(lower, which, enabled, key, r)
      ensures r == if key in index then Some((index[key], enabled[index[key]])) else None
    {
      if key in index {
        var name := index[key];
        if name in enabled {
          return Some((name, enabled[name]));
        }
      }
      r := None;
    }

    method LookupByKind(kind: string) returns (r: Option<(string, Keys)>)
      requires Indexed()
      ensures Finds(lower, ByKind, enabled, lower(trim(kind)), r)
    {
      IndexedMeans(ByKind);
      r := Find(kindIndex, lower(trim(kind)), ByKind);
    }

    method LookupByName(name: string) returns (r: Option<(string, Keys)>)
      requires Indexed()
      ensures Finds(lower, ByName, enabled, lower(trim(name)), r)
    {
      IndexedMeans(ByName);
      r := Find(nameIndex, lower(trim(name)), ByName);
    }

    method LookupByPlural(plural: string) returns (r: Option<(string, Keys)>)
      requires Indexed()
      ensures Finds(lower, ByPlural, enabled, lower(trim(plural)), r)
    {
      IndexedMeans(ByPlural);
      r := Find(pluralIndex, lower(trim(plural)), ByPlural);
    }

    method LookupByGvkString(gvk: string) returns (r: Option<(string, Keys)>)
      requires Indexed()
      ensures Finds(lower, ByGvk, enabled, lower(trim(gvk)), r)
    {
      IndexedMeans(ByGvk);
      r := Find(gvkIndex, lower(trim(gvk)), ByGvk);
    }

    method LookupByGvrString(gvr: string) returns (r: Option<(string, Keys)>)
      requires Indexed()
      ensures Finds(lower, ByGvr, enabled, lower(trim(gvr)), r)
    {
      IndexedMeans(ByGvr);
      r := Find(gvrIndex, lower(trim(gvr)), ByGvr);
    }

    method LookupByTarget(target: string) returns (r: Option<(string, Keys)>)
      requires Indexed()
      ensures Finds(lower, ByTarget, enabled, lower(trim(target)), r)
    {
      IndexedMeans(ByTarget);
      r := Find(targetIndex, lower(trim(target)), ByTarget);
    }

    /** Target first, then kind; the identifier is trimmed here and again in each lookup. */
    method LookupByTargetOrKind(identifier: string) returns (r: Option<(string, Keys)>)
      requires Indexed()
      ensures var key := lower(trim(trim(identifier)));
        if exists name :: Files(lower, ByTarget, enabled, name, key)
        then Finds(lower, ByTarget, enabled, key, r)
        else Finds(lower, ByKind, enabled, key, r)
    {
      var id := trim(identifier);
      r := LookupByTarget(id);
      if r.Some? {
        return;
      }
      r := LookupByKind(id);
    }

    /** Filed under the concatenation, the two parts of the query are told apart only if nothing collides. */
    method LookupByApiVersionAndKind(apiVersion: string, kind: string) returns (r: Option<(string, Keys)>)
      requires Indexed()
      ensures Finds(lower, ByApiVersionAndKind, enabled, lower(trim(apiVersion) + trim(kind)), r)
      ensures PerRune(lower) && NoCollision(lower, enabled, trim(apiVersion), trim(kind)) ==>
        FindsPair(lower, enabled, trim(apiVersion), trim(kind), r)
    {
      IndexedMeans(ByApiVersionAndKind);
      r := Find(apiVersionIndex, lower(trim(apiVersion) + trim(kind)), ByApiVersionAndKind);
      if PerRune(lower) && NoCollision(lower, enabled, trim(apiVersion), trim(kind)) {
        PairFound(lower, enabled, trim(apiVersion), trim(kind), r);
      }
    }
  }

  // ---------------------------------------------------------------- the concatenated key

  ghost predicate IsPair(lower: string -> string, enabled: map<string, Keys>, apiVersion: string, kind: string,
      name: string) {
    name in enabled && lower(enabled[name].apiVersion) == lower(apiVersion) && lower(enabled[name].kind) == lower(kind)
  }

  /** What a search by both parts would return. */
  ghost predicate FindsPair(lower: string -> string, enabled: map<string, Keys>, apiVersion: string, kind: string,
      r: Option<(string, Keys)>) {
    && (r.Some? <==> exists name :: IsPair(lower, enabled, apiVersion, kind, name))
    && (r.Some? ==> IsPair(lower, enabled, apiVersion, kind, r.value.0) && enabled[r.value.0] == r.value.1)
  }

  /** Whatever is filed under the concatenation has the two parts asked for. */
  ghost predicate NoCollision(lower: string -> string, enabled: map<string, Keys>, apiVersion: string, kind: string) {
    forall name :: Files(lower, ByApiVersionAndKind, enabled, name, lower(apiVersion + kind)) ==>
      IsPair(lower, enabled, apiVersion, kind, name)
  }

  lemma PairFiles(lower: string -> string, enabled: map<string, Keys>, apiVersion: string, kind: string, name: string)
    requires PerRune(lower)
    requires IsPair(lower, enabled, apiVersion, kind, name)
    ensures Files(lower, ByApiVersionAndKind, enabled, name, lower(apiVersion + kind))
  {
  }

  lemma PairFound(lower: string -> string, enabled: map<string, Keys>, apiVersion: string, kind: string,
      r: Option<(string, Keys)>)
    requires PerRune(lower)
    requires NoCollision(lower, enabled, apiVersion, kind)
    requires Finds(lower, ByApiVersionAndKind, enabled, lower(apiVersion + kind), r)
    ensures FindsPair(lower, enabled, apiVersion, kind, r)
  {
    hide Files, IsPair;
    if name :| IsPair(lower, enabled, apiVersion, kind, name) {
      PairFiles(lower, enabled, apiVersion, kind, name);
    }
    if r.Some? {
      FiledEntry(lower, enabled, r.value.0, lower(apiVersion + kind));
    }
  }

  lemma FiledEntry(lower: string -> string, enabled: map<string, Keys>, name: string, key: string)
    requires Files(lower, ByApiVersionAndKind, enabled, name, key)
    ensures name in enabled
  {
  }

  function Answer(enabled: map<string, Keys>, index: map<string, string>, key: string): Option<(string, Keys)>
    requires forall k :: k in index ==> index[k] in enabled
  {
    if key in index then Some((index[key], enabled[index[key]])) else None
  }

  /** The lookup by both parts is right on the index that this order leaves. */
  ghost predicate RightFor(lower: string -> string, enabled: map<string, Keys>, apiVersion: string, kind: string,
      order: seq<string>)
    requires RangeOrder(enabled, order)
  {
    var index := FiledIn(lower, ByApiVersionAndKind, enabled, order);
    FiledInIsIndex(lower, ByApiVersionAndKind, enabled, order);
    FindsPair(lower, enabled, apiVersion, kind, Answer(enabled, index, lower(apiVersion + kind)))
  }

  /** The enabled CRDs can be ranged over with any of them last, and then its keys lead to it. */
  lemma LastWins(lower: string -> string, which: Which, enabled: map<string, Keys>, name: string, key: string)
    returns (order: seq<string>)
    requires Files(lower, which, enabled, name, key)
    ensures RangeOrder(enabled, order) && key in FiledIn(lower, which, enabled, order)
    ensures FiledIn(lower, which, enabled, order)[key] == name
  {
    var rest := Enumerate(enabled.Keys - {name});
    assert name !in Elems(rest) && Elems(rest + [name]) == Elems(rest) + {name} == enabled.Keys;
    FiledInStep(lower, which, enabled, rest, name);
    order := rest + [name];
  }

  lemma RightWithoutCollision(lower: string -> string, enabled: map<string, Keys>, apiVersion: string, kind: string,
      order: seq<string>)
    requires PerRune(lower) && NoCollision(lower, enabled, apiVersion, kind) && RangeOrder(enabled, order)
    ensures RightFor(lower, enabled, apiVersion, kind, order)
  {
    hide KeyOf, PerRune, NoCollision, FindsPair, FiledIn;
    var index, key := FiledIn(lower, ByApiVersionAndKind, enabled, order), lower(apiVersion + kind);
    FiledInIsIndex(lower, ByApiVersionAndKind, enabled, order);
    AnswerFinds(lower, enabled, index, key);
    PairFound(lower, enabled, apiVersion, kind, Answer(enabled, index, key));
  }

  lemma AnswerFinds(lower: string -> string, enabled: map<string, Keys>, index: map<string, string>, key: string)
    requires Index(lower, ByApiVersionAndKind, enabled, enabled.Keys, index)
    ensures (forall k :: k in index ==> index[k] in enabled) &&
      Finds(lower, ByApiVersionAndKind, enabled, key, Answer(enabled, index, key))
  {
    hide KeyOf;
    if name :| Files(lower, ByApiVersionAndKind, enabled, name, key) {
      assert name in enabled.Keys;
    }
  }

  /** The lookup by both parts is right for every map order exactly when nothing collides with the query. */
  lemma PairLookupRightIff(lower: string -> string, enabled: map<string, Keys>, apiVersion: string, kind: string)
    requires PerRune(lower)
    ensures (forall order :: RangeOrder(enabled, order) ==> RightFor(lower, enabled, apiVersion, kind, order))
      <==> NoCollision(lower, enabled, apiVersion, kind)
  {
    hide FiledIn, KeyOf, PerRune;
    if NoCollision(lower, enabled, apiVersion, kind) {
      forall order | RangeOrder(enabled, order) ensures RightFor(lower, enabled, apiVersion, kind, order) {
        RightWithoutCollision(lower, enabled, apiVersion, kind, order);
      }
    } else {
      var key := lower(apiVersion + kind);
      var name :| Files(lower, ByApiVersionAndKind, enabled, name, key) &&
        !IsPair(lower, enabled, apiVersion, kind, name);
      var order := LastWins(lower, ByApiVersionAndKind, enabled, name, key);
      assert !RightFor(lower, enabled, apiVersion, kind, order);
    }
  }

  /** Two different pairs with one concatenation. */
  lemma PairsCanCollide(lower: string -> string)
    requires PerRune(lower)
    ensures "g/v1" + "beta" == "g/v1b" + "eta"
    ensures lower("beta") != lower("eta") ==>
      !NoCollision(lower, map["x" := Keys("g/v1b", "eta", "", "", "", None)], "g/v1", "beta")
  {
    var enabled := map["x" := Keys("g/v1b", "eta", "", "", "", None)];
    assert "g/v1" + "beta" == "g/v1b" + "eta";
    assert Files(lower, ByApiVersionAndKind, enabled, "x", lower("g/v1" + "beta"));
  }
}
