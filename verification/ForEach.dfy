/**
forEach expansion: one template source becomes one source per item of a field. Rendering an
item's templates is a given function; what is modelled is which items, in which order.
*/
module ForEach {
  import opened JsonValues
  import opened Ordering
  import FieldTrees
  import Paths

  /** value is Null for list items, and for map entries whose value is null. */
  datatype Item = Item(key: Json, value: Json)

  datatype Spec = Spec(field: string, alias: string)

  /** What one iteration step sees besides the data: the item, its alias and its index. */
  datatype Scope = Scope(item: Item, alias: string, index: nat)

  // ---------------------------------------------------------------- the items of a field

  /** Following a path through nested objects; a missing key gives Null, a key of a non-object nothing. */
  function Walk(current: Json, parts: seq<string>): Option<Json>
    decreases |parts|
  {
    if parts == [] then Some(current)
    else if !current.Object? then None
    else Walk(if parts[0] in current.fields then current.fields[parts[0]] else Null, parts[1..])
  }

  function ListItems(list: seq<Json>): (items: seq<Item>)
    ensures |items| == |list|
  {
    seq(|list|, i requires 0 <= i < |list| => Item(list[i], Null))
  }

  function MapItems(m: map<string, Json>, keys: seq<string>): (items: seq<Item>)
    requires Elems(keys) <= m.Keys
    ensures |items| == |keys|
    ensures forall i :: 0 <= i < |keys| ==> keys[i] in m && items[i] == Item(Text(keys[i]), m[keys[i]])
  {
    assert forall i :: 0 <= i < |keys| ==> keys[i] in Elems(keys);
    seq(|keys|, i requires 0 <= i < |keys| => Item(Text(keys[i]), m[keys[i]]))
  }

  /** The sorted keys of a map, each once. */
  ghost predicate SortedKeys(m: map<string, Json>, keys: seq<string>) {
    Distinct(keys) && Elems(keys) == m.Keys && SortedBy(StringLeq, keys)
  }

  /** What resolveForEachItems promises, without saying how the keys were collected. */
  ghost predicate ItemsOf(data: map<string, Json>, path: string, items: seq<Item>) {
    match Walk(Object(data), Paths.Split(path))
    case Some(List(list)) => items == ListItems(list)
    case Some(Object(m)) => exists keys :: SortedKeys(m, keys) && items == MapItems(m, keys)
    case _ => items == []
  }

  lemma SortedKeysUnique(m: map<string, Json>, a: seq<string>, b: seq<string>)
    requires SortedKeys(m, a) && SortedKeys(m, b)
    ensures a == b
  {
    StringsAreTotallyOrdered();
    DistinctPermutation(a, b);
    SortedPermutationUnique(StringLeq, a, b);
  }

  /** The items are determined by the data, not by the order in which the map was ranged over. */
  lemma ItemsUnique(data: map<string, Json>, path: string, a: seq<Item>, b: seq<Item>)
    requires ItemsOf(data, path, a) && ItemsOf(data, path, b)
    ensures a == b
  {
    var at := Walk(Object(data), Paths.Split(path));
    if at.Some? && at.value.Object? {
      var m := at.value.fields;
      var keysA :| SortedKeys(m, keysA) && a == MapItems(m, keysA);
      var keysB :| SortedKeys(m, keysB) && b == MapItems(m, keysB);
      SortedKeysUnique(m, keysA, keysB);
    }
  }

  /** Collecting the keys of a map, in any order, and sorting them. */
  method CollectKeys(m: map<string, Json>) returns (keys: seq<string>)
    ensures SortedKeys(m, keys)
  {
    keys := [];
    var todo := m.Keys;
    while todo != {}
      invariant todo <= m.Keys && Distinct(keys) && Elems(keys) == m.Keys - todo
    {
      var k :| k in todo;
      todo := todo - {k};
      assert k !in Elems(keys) && Elems(keys + [k]) == Elems(keys) + {k};
      keys := keys + [k];
    }
    StringsAreTotallyOrdered();
    SortKeepsElements(StringLeq, keys);
    keys := Sort(StringLeq, keys);
  }

  method ResolveForEachItems(data: map<string, Json>, path: string) returns (items: seq<Item>)
    ensures ItemsOf(data, path, items)
    ensures ItemsIn(FieldTrees.Lookup(Object(data), Paths.Split(path)), items)
  {
    hide SortedKeys;
    ItemsAsData(data, path);
    var current := Object(data);
    var parts := Paths.SplitFieldPath(path);
    assert parts[0..] == parts;
    for i := 0 to |parts|
      invariant Walk(current, parts[i..]) == Walk(Object(data), parts)
    {
      assert parts[i..][0] == parts[i] && parts[i..][1..] == parts[i + 1..];
      if !current.Object? {
        return [];
      }
      current := if parts[i] in current.fields then current.fields[parts[i]] else Null;
    }
    assert parts[|parts|..] == [];
    if current.List? {
      items := ListItems(current.items);
    } else if current.Object? {
      var keys := CollectKeys(current.fields);
      KeysPresent(current.fields, keys);
      items := MapItems(current.fields, keys);
    } else {
      items := [];
    }
  }

  /** The items of what is found at the path: those of a list in its order, those of a map by sorted key. */
  ghost predicate ItemsIn(found: Option<Json>, items: seq<Item>) {
    match found
    case Some(List(list)) =>
      |items| == |list| && forall i :: 0 <= i < |list| ==> items[i] == Item(list[i], Null)
    case Some(Object(m)) =>
      && |items| == |m|
      && (forall i :: 0 <= i < |items| ==>
        items[i].key.Text? && items[i].key.text in m && items[i].value == m[items[i].key.text])
      && (forall i, j :: 0 <= i < j < |items| ==> DictionaryLess(items[i].key.text, items[j].key.text))
    case _ => items == []
  }

  /** A missing key on the way, or a key of something that is no map, leaves nothing to range over. */
  lemma {:induction false} WalkFinds(current: Json, parts: seq<string>)
    ensures var found := FieldTrees.Lookup(current, parts);
      if found.Some? then Walk(current, parts) == found else Walk(current, parts) in {None, Some(Null)}
    decreases |parts|
  {
    if parts != [] && current.Object? {
      WalkFinds(if parts[0] in current.fields then current.fields[parts[0]] else Null, parts[1..]);
      if parts[0] !in current.fields && |parts| > 1 {
        assert Walk(Null, parts[1..]).None?;
      }
    }
  }

  lemma ItemsAsData(data: map<string, Json>, path: string)
    ensures forall items :: ItemsOf(data, path, items) ==>
      ItemsIn(FieldTrees.Lookup(Object(data), Paths.Split(path)), items)
  {
    hide ItemsIn;
    var parts := Paths.Split(path);
    WalkFinds(Object(data), parts);
    forall items | ItemsOf(data, path, items) ensures ItemsIn(FieldTrees.Lookup(Object(data), parts), items) {
      match Walk(Object(data), parts) {
        case Some(List(list)) => ListItemsIn(list, items);
        case Some(Object(m)) =>
          var keys :| SortedKeys(m, keys) && items == MapItems(m, keys);
          MapItemsIn(m, keys);
        case _ => NothingIn(Walk(Object(data), parts), FieldTrees.Lookup(Object(data), parts));
      }
    }
  }

  lemma ListItemsIn(list: seq<Json>, items: seq<Item>)
    requires items == ListItems(list)
    ensures ItemsIn(Some(List(list)), items)
  {
  }

  lemma NothingIn(walked: Option<Json>, found: Option<Json>)
    requires if found.Some? then walked == found else walked in {None, Some(Null)}
    requires walked.Some? ==> !walked.value.List? && !walked.value.Object?
    ensures ItemsIn(found, [])
  {
  }

  lemma MapItemsIn(m: map<string, Json>, keys: seq<string>)
    requires SortedKeys(m, keys)
    ensures ItemsIn(Some(Object(m)), MapItems(m, keys))
  {
    DistinctCardinality(keys);
    forall i, j | 0 <= i < j < |keys| ensures DictionaryLess(keys[i], keys[j]) {
      StringLessIsDictionaryOrder(keys[i], keys[j]);
    }
  }

  lemma KeysPresent(m: map<string, Json>, keys: seq<string>)
    requires SortedKeys(m, keys)
    ensures Elems(keys) <= m.Keys
  {
  }

  /** The items as a function of the data. */
  ghost function Items(data: map<string, Json>, path: string): (items: seq<Item>)
    ensures ItemsOf(data, path, items)
  {
    SomeItems(data, path);
    var items :| ItemsOf(data, path, items);
    items
  }

  lemma SomeItems(data: map<string, Json>, path: string)
    ensures exists items :: ItemsOf(data, path, items)
  {
    var at := Walk(Object(data), Paths.Split(path));
    if at.Some? && at.value.List? {
      assert ItemsOf(data, path, ListItems(at.value.items));
    } else if at.Some? && at.value.Object? {
      var m := at.value.fields;
      var keys := SortedKeysExist(m);
      assert ItemsOf(data, path, MapItems(m, keys));
    } else {
      assert ItemsOf(data, path, []);
    }
  }

  lemma SortedKeysExist(m: map<string, Json>) returns (keys: seq<string>)
    ensures SortedKeys(m, keys)
  {
    keys := Enumerate(m.Keys);
    StringsAreTotallyOrdered();
    SortKeepsElements(StringLeq, keys);
    keys := Sort(StringLeq, keys);
  }

  // ---------------------------------------------------------------- the expansion

  /** The copies one source expands to: itself without a forEach, else one per item. */
  ghost function Copies<T>(data: map<string, Json>, get: T -> Option<Spec>, resolve: (Scope, T) -> T,
      src: T): (r: seq<T>)
    ensures |r| == Count(data, get, src)
  {
    match get(src)
    case None => [src]
    case Some(spec) =>
      var items := Items(data, spec.field);
      seq(|items|, i requires 0 <= i < |items| => resolve(Scope(items[i], spec.alias, i), src))
  }

  ghost function Count<T>(data: map<string, Json>, get: T -> Option<Spec>, src: T): nat {
    match get(src)
    case None => 1
    case Some(spec) => |Items(data, spec.field)|
  }

  ghost function Total<T>(data: map<string, Json>, get: T -> Option<Spec>, srcs: seq<T>): nat {
    if srcs == [] then 0 else Total(data, get, srcs[..|srcs| - 1]) + Count(data, get, srcs[|srcs| - 1])
  }

  ghost function Expanded<T>(data: map<string, Json>, get: T -> Option<Spec>, resolve: (Scope, T) -> T,
      srcs: seq<T>): (r: seq<T>)
    ensures |r| == Total(data, get, srcs)
  {
    if srcs == [] then []
    else Expanded(data, get, resolve, srcs[..|srcs| - 1]) + Copies(data, get, resolve, srcs[|srcs| - 1])
  }

  method AnyHasForEach<T>(get: T -> Option<Spec>, srcs: seq<T>) returns (any: bool)
    ensures any <==> exists s :: s in srcs && get(s).Some?
  {
    for i := 0 to |srcs|
      invariant forall j :: 0 <= j < i ==> get(srcs[j]).None?
    {
      if get(srcs[i]).Some? {
        return true;
      }
    }
    any := false;
  }

  lemma {:induction false} NothingToExpand<T>(data: map<string, Json>, get: T -> Option<Spec>,
      resolve: (Scope, T) -> T, srcs: seq<T>)
    requires forall s :: s in srcs ==> get(s).None?
    ensures Expanded(data, get, resolve, srcs) == srcs
  {
    if srcs != [] {
      var rest, last := srcs[..|srcs| - 1], srcs[|srcs| - 1];
      assert last in srcs && srcs == rest + [last];
      NothingToExpand(data, get, resolve, rest);
    }
  }

  /** expandForEach, its fast path included. */
  method ExpandForEach<T>(data: map<string, Json>, srcs: seq<T>, get: T -> Option<Spec>, resolve: (Scope, T) -> T)
    returns (result: seq<T>)
    ensures result == Expanded(data, get, resolve, srcs)
  {
    hide ItemsOf;
    var any := AnyHasForEach(get, srcs);
    if !any {
      NothingToExpand(data, get, resolve, srcs);
      return srcs;
    }
    result := [];
    for k := 0 to |srcs|
      invariant result == Expanded(data, get, resolve, srcs[..k])
    {
      var src := srcs[k];
      assert srcs[..k + 1][..k] == srcs[..k];
      var fe := get(src);
      if fe.None? {
        result := result + [src];
        continue;
      }
      var more := Repeat(data, fe.value, src, resolve);
      assert more == Copies(data, get, resolve, src);
      result := result + more;
    }
    assert srcs[..|srcs|] == srcs;
  }

  method Repeat<T>(data: map<string, Json>, spec: Spec, src: T, resolve: (Scope, T) -> T) returns (more: seq<T>)
    ensures |more| == |Items(data, spec.field)|
    ensures forall i :: 0 <= i < |more| ==> more[i] == resolve(Scope(Items(data, spec.field)[i], spec.alias, i), src)
  {
    hide ItemsOf;
    var items := ResolveForEachItems(data, spec.field);
    ItemsUnique(data, spec.field, items, Items(data, spec.field));
    more := [];
    for i := 0 to |items|
      invariant |more| == i
      invariant forall j :: 0 <= j < i ==> more[j] == resolve(Scope(items[j], spec.alias, j), src)
    {
      more := more + [resolve(Scope(items[i], spec.alias, i), src)];
    }
  }

  /** Source i's copy for item j stands right after all copies of the sources before i and of the items before j. */
  lemma {:induction false} ExpansionKeepsOrder<T>(data: map<string, Json>, get: T -> Option<Spec>,
      resolve: (Scope, T) -> T, srcs: seq<T>, i: nat, j: nat)
    requires i < |srcs| && j < Count(data, get, srcs[i])
    ensures var at := Total(data, get, srcs[..i]) + j;
      at < |Expanded(data, get, resolve, srcs)| &&
        Expanded(data, get, resolve, srcs)[at] == Copies(data, get, resolve, srcs[i])[j]
  {
    hide Count, Copies;
    var rest := srcs[..|srcs| - 1];
    if i < |rest| {
      ExpansionKeepsOrder(data, get, resolve, rest, i, j);
      assert rest[..i] == srcs[..i];
    }
  }

  lemma CopiesOf<T>(data: map<string, Json>, get: T -> Option<Spec>, resolve: (Scope, T) -> T, src: T, spec: Spec)
    requires get(src) == Some(spec)
    ensures |Copies(data, get, resolve, src)| == |Items(data, spec.field)|
    ensures forall i :: 0 <= i < |Items(data, spec.field)| ==>
      Copies(data, get, resolve, src)[i] == resolve(Scope(Items(data, spec.field)[i], spec.alias, i), src)
  {
    hide ItemsOf;
  }

  lemma CopyIn<T>(data: map<string, Json>, get: T -> Option<Spec>, resolve: (Scope, T) -> T, src: T, x: T)
    requires forall scope, src :: get(resolve(scope, src)).None?
    requires x in Copies(data, get, resolve, src)
    ensures get(x).None?
  {
    hide Items;
    if get(src).Some? {
      CopiesOf(data, get, resolve, src, get(src).value);
      var i :| 0 <= i < |Copies(data, get, resolve, src)| && Copies(data, get, resolve, src)[i] == x;
      hide Copies, Count;
    }
  }

  lemma {:induction false} ExpandedIn<T>(data: map<string, Json>, get: T -> Option<Spec>, resolve: (Scope, T) -> T,
      srcs: seq<T>, x: T)
    requires forall scope, src :: get(resolve(scope, src)).None?
    requires x in Expanded(data, get, resolve, srcs)
    ensures get(x).None?
  {
    hide Copies, Count, Total;
    var rest, last := srcs[..|srcs| - 1], srcs[|srcs| - 1];
    if x in Copies(data, get, resolve, last) {
      CopyIn(data, get, resolve, last, x);
    } else {
      ExpandedIn(data, get, resolve, rest, x);
    }
  }

  /** Once resolve clears the forEach, expanding again changes nothing and takes the fast path. */
  lemma ExpansionIdempotent<T>(data: map<string, Json>, get: T -> Option<Spec>, resolve: (Scope, T) -> T, srcs: seq<T>)
    requires forall scope, src :: get(resolve(scope, src)).None?
    ensures var once := Expanded(data, get, resolve, srcs);
      Expanded(data, get, resolve, once) == once && forall x :: x in once ==> get(x).None?
  {
    var once := Expanded(data, get, resolve, srcs);
    forall x | x in once ensures get(x).None? {
      ExpandedIn(data, get, resolve, srcs, x);
    }
    NothingToExpand(data, get, resolve, once);
  }

  /** Map items come out sorted by key, one for each key, with that key's value. */
  lemma MapItemsSorted(data: map<string, Json>, path: string, m: map<string, Json>)
    requires Walk(Object(data), Paths.Split(path)) == Some(Object(m))
    ensures var items := Items(data, path);
      && (forall i :: 0 <= i < |items| ==>
        items[i].key.Text? && items[i].key.text in m && items[i].value == m[items[i].key.text])
      && (forall i, j :: 0 <= i < j < |items| ==>
        items[i].key.Text? && items[j].key.Text? && StringLess(items[i].key.text, items[j].key.text))
      && (forall k :: k in m ==> exists i :: 0 <= i < |items| && items[i].key == Text(k))
  {
    var items := Items(data, path);
    var keys :| SortedKeys(m, keys) && items == MapItems(m, keys);
    forall i, j | 0 <= i < j < |items| ensures StringLess(keys[i], keys[j]) {
      assert StringLeq(keys[i], keys[j]);
    }
    forall k | k in m ensures exists i :: 0 <= i < |items| && items[i].key == Text(k) {
      assert k in Elems(keys);
      var i :| 0 <= i < |keys| && keys[i] == k;
      assert items[i].key == Text(k);
    }
  }

  // ---------------------------------------------------------------- volume claims

  /** A StatefulSet copy: its own name, and the claim texts in the slice all copies share. */
  datatype StatefulSet = StatefulSet(name: string, claims: array<string>)

  function RenderEach(render: (Scope, string) -> string, scope: Scope, texts: seq<string>): (r: seq<string>)
    ensures |r| == |texts|
  {
    seq(|texts|, i requires 0 <= i < |texts| => render(scope, texts[i]))
  }

  /** What the shared texts hold after all items were rendered into them, one after the other. */
  ghost function RenderedInTurn(render: (Scope, string) -> string, scopes: seq<Scope>,
      texts: seq<string>): (r: seq<string>)
    ensures |r| == |texts|
  {
    if scopes == [] then texts
    else RenderEach(render, scopes[|scopes| - 1], RenderedInTurn(render, scopes[..|scopes| - 1], texts))
  }

  /** The StatefulSet expansion of one source: names per item, claims written into the source's own slice. */
  method ExpandStatefulSet(src: StatefulSet, scopes: seq<Scope>, render: (Scope, string) -> string)
    returns (copies: seq<StatefulSet>)
    modifies src.claims
    ensures |copies| == |scopes|
    ensures forall i :: 0 <= i < |copies| ==> copies[i] == StatefulSet(render(scopes[i], src.name), src.claims)
    ensures src.claims[..] == RenderedInTurn(render, scopes, old(src.claims[..]))
  {
    copies := [];
    ghost var texts := src.claims[..];
    for k := 0 to |scopes|
      invariant |copies| == k
      invariant forall i :: 0 <= i < k ==> copies[i] == StatefulSet(render(scopes[i], src.name), src.claims)
      invariant src.claims[..] == RenderedInTurn(render, scopes[..k], texts)
    {
      RenderClaims(src.claims, scopes[k], render);
      assert scopes[..k + 1][..k] == scopes[..k];
      copies := copies + [StatefulSet(render(scopes[k], src.name), src.claims)];
    }
    assert scopes[..|scopes|] == scopes;
  }

  method RenderClaims(claims: array<string>, scope: Scope, render: (Scope, string) -> string)
    modifies claims
    ensures claims[..] == RenderEach(render, scope, old(claims[..]))
  {
    ghost var before := claims[..];
    for i := 0 to claims.Length
      invariant forall j :: 0 <= j < claims.Length ==>
        claims[j] == if j < i then render(scope, before[j]) else before[j]
    {
      claims[i] := render(scope, claims[i]);
    }
  }

  /** Rendered text contains no templates, so rendering it again changes nothing. */
  ghost predicate RendersToText(render: (Scope, string) -> string) {
    forall s, t, x :: render(t, render(s, x)) == render(s, x)
  }

  lemma {:induction false} FirstItemWins(render: (Scope, string) -> string, scopes: seq<Scope>, texts: seq<string>)
    requires RendersToText(render) && scopes != []
    ensures RenderedInTurn(render, scopes, texts) == RenderEach(render, scopes[0], texts)
  {
    var rest := scopes[..|scopes| - 1];
    if rest != [] {
      FirstItemWins(render, rest, texts);
    }
  }

  /** A copy has its own item's claims exactly when the first item renders them to the same texts. */
  lemma OwnClaimsIff(render: (Scope, string) -> string, scopes: seq<Scope>, texts: seq<string>, i: nat)
    requires RendersToText(render) && i < |scopes|
    ensures RenderedInTurn(render, scopes, texts) == RenderEach(render, scopes[i], texts)
      <==> forall k :: 0 <= k < |texts| ==> render(scopes[0], texts[k]) == render(scopes[i], texts[k])
  {
    FirstItemWins(render, scopes, texts);
    var first, own := RenderEach(render, scopes[0], texts), RenderEach(render, scopes[i], texts);
    if first == own {
      forall k | 0 <= k < |texts| ensures render(scopes[0], texts[k]) == render(scopes[i], texts[k]) {
        assert first[k] == own[k];
      }
    }
  }

  /** The slice keeps the rendered texts, so a second expansion of the same source inherits the first one's. */
  lemma SecondExpansionInherits(render: (Scope, string) -> string, first: seq<Scope>, second: seq<Scope>,
      texts: seq<string>)
    requires RendersToText(render) && first != []
    ensures RenderedInTurn(render, second, RenderedInTurn(render, first, texts)) == RenderEach(render, first[0], texts)
  {
    FirstItemWins(render, first, texts);
    NothingLeftToRender(render, second, first[0], texts);
  }

  lemma {:induction false} NothingLeftToRender(render: (Scope, string) -> string, scopes: seq<Scope>, done: Scope,
      texts: seq<string>)
    requires RendersToText(render)
    ensures RenderedInTurn(render, scopes, RenderEach(render, done, texts)) == RenderEach(render, done, texts)
  {
    if scopes != [] {
      NothingLeftToRender(render, scopes[..|scopes| - 1], done, texts);
    }
  }

  /** Two expansions of one source, as by two resources or two reconciles. */
  method ExpandTwice(src: StatefulSet, first: seq<Scope>, second: seq<Scope>, render: (Scope, string) -> string)
    returns (early: seq<StatefulSet>, late: seq<StatefulSet>)
    requires RendersToText(render) && first != []
    modifies src.claims
    ensures forall c :: c in early + late ==> c.claims == src.claims
    ensures src.claims[..] == RenderEach(render, first[0], old(src.claims[..]))
  {
    ghost var texts := src.claims[..];
    early := ExpandStatefulSet(src, first, render);
    late := ExpandStatefulSet(src, second, render);
    SecondExpansionInherits(render, first, second, texts);
  }

  const ITEM := "{{ .item }}"

  /** Renders the one template ITEM to the item's key; anything else is text already. */
  function ItemKey(scope: Scope, text: string): string {
    if text != ITEM then text
    else if scope.item.key.Text? && scope.item.key.text != ITEM then scope.item.key.text
    else ""
  }

  lemma ItemKeyRendersToText()
    ensures RendersToText(ItemKey)
  {
    forall s, t, x ensures ItemKey(t, ItemKey(s, x)) == ItemKey(s, x) {
    }
  }

  /** Two items with different claims: the second copy gets the first one's. */
  lemma SecondCopyIsWrong()
    ensures var a, b := Scope(Item(Text("a"), Null), "it", 0), Scope(Item(Text("b"), Null), "it", 1);
      && RendersToText(ItemKey)
      && RenderedInTurn(ItemKey, [a, b], [ITEM]) == ["a"] != RenderEach(ItemKey, b, [ITEM]) == ["b"]
  {
    var a, b := Scope(Item(Text("a"), Null), "it", 0), Scope(Item(Text("b"), Null), "it", 1);
    assert ITEM[0] == '{' && "a"[0] != '{' && "b"[0] != '{' && "a"[0] != "b"[0];
    ItemKeyRendersToText();
    FirstItemWins(ItemKey, [a, b], [ITEM]);
    assert RenderEach(ItemKey, a, [ITEM])[0] == "a";
    assert RenderEach(ItemKey, b, [ITEM])[0] == "b";
  }
}
