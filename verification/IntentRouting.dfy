/**
Routing of a submitted intent into a custom resource: which field goes where, in whatever order
the two maps are iterated, and when the built resource is the same for every order.
*/
module IntentRouting {
  import opened JsonValues
  import opened Ordering
  import opened FieldTrees
  import opened RoutingOrders
  import opened DependencyOrder
  import Paths

  datatype FieldConfig = FieldConfig(path: string, value: string, values: map<string, string>) {
    function SpecPath(name: string): string {
      if path != "" then path else name
    }
  }

  datatype ServeConfig = ServeConfig(fields: map<string, FieldConfig>, labels: set<string>, annotations: set<string>)

  /** A template expression over the submitted value; None is a rendering error. */
  type Resolver = (string, Json) -> Option<string>

  datatype Destination = Nowhere | ToSpec | ToLabel | ToAnnotation

  function DestinationOf(key: string, serve: ServeConfig): Destination {
    if key == "target" then Nowhere
    else if key in serve.fields then ToSpec
    else if key in serve.labels then ToLabel
    else if key in serve.annotations then ToAnnotation
    else Nowhere
  }

  /** The expression to render for each spec path of a field; None writes the submitted value itself. */
  function Plan(key: string, config: FieldConfig): map<string, Option<string>> {
    if config.values != map[] then map p | p in config.values :: Some(config.values[p])
    else if config.value != "" then map[config.SpecPath(key) := Some(config.value)]
    else map[config.SpecPath(key) := None]
  }

  function Rendered(expr: Option<string>, submitted: Json, resolve: Resolver): Option<Json> {
    match expr
    case None => Some(submitted)
    case Some(e) => match resolve(e, submitted) { case None => None case Some(text) => Some(Text(text)) }
  }

  /** A submitted field that becomes a label: declared as one, and not as a spec field. */
  ghost predicate LabelKey(key: string, serve: ServeConfig) {
    key != "target" && key in serve.labels && key !in serve.fields
  }

  /** A submitted field that becomes an annotation: declared as nothing else. */
  ghost predicate AnnotationKey(key: string, serve: ServeConfig) {
    key != "target" && key in serve.annotations && key !in serve.labels && key !in serve.fields
  }

  /** The labels and annotations a resource gets, as the declaration says. */
  ghost predicate Tagged(raw: map<string, Json>, serve: ServeConfig, show: Json -> string, labels: map<string, string>,
      annotations: map<string, string>)
  {
    && (forall k :: k in labels <==> k in raw && LabelKey(k, serve))
    && (forall k :: k in annotations <==> k in raw && AnnotationKey(k, serve))
    && (forall k :: k in labels ==> labels[k] == show(raw[k]))
    && (forall k :: k in annotations ==> annotations[k] == show(raw[k]))
  }

  lemma ShownAsDeclared(raw: map<string, Json>, serve: ServeConfig, show: Json -> string)
    ensures Tagged(raw, serve, show, Shown(raw, raw.Keys, serve, ToLabel, show),
      Shown(raw, raw.Keys, serve, ToAnnotation, show))
  {
  }

  /** Where a field without a fan-out is written: at its path, or under its own name. */
  ghost predicate OwnPath(key: string, config: FieldConfig, path: string) {
    if config.path == "" then path == key else path == config.path
  }

  /** A write that a declared field asks for: each form of the declaration says where and what. */
  ghost predicate AskedFor(key: string, submitted: Json, config: FieldConfig, resolve: Resolver, put: Put) {
    && put.field == key
    && if config.values != map[] then
         exists p :: p in config.values && put.path == Paths.Split(p)
           && exists text :: resolve(config.values[p], submitted) == Some(text) && put.value == Text(text)
       else
         exists p :: OwnPath(key, config, p) && put.path == Paths.Split(p)
           && if config.value == "" then put.value == submitted
              else exists text :: resolve(config.value, submitted) == Some(text) && put.value == Text(text)
  }

  /** The writes of an intent are exactly those its declared fields ask for. */
  lemma WritesAsDeclared(raw: map<string, Json>, serve: ServeConfig, resolve: Resolver, put: Put)
    ensures put in AllPuts(raw, raw.Keys, serve, resolve) <==>
      put.field in raw && put.field != "target" && put.field in serve.fields
      && AskedFor(put.field, raw[put.field], serve.fields[put.field], resolve, put)
  {
    var key := put.field;
    if key in raw && key in serve.fields {
      PutsAsDeclared(key, raw[key], serve.fields[key], resolve, put);
    }
  }

  lemma PutsAsDeclared(key: string, submitted: Json, config: FieldConfig, resolve: Resolver, put: Put)
    ensures put in PutsOf(key, submitted, config, resolve) <==> AskedFor(key, submitted, config, resolve, put)
  {
    hide Rendered, Plan, Paths.Split;
    PlanForms(key, config);
    ghost var plan := Plan(key, config);
    if config.values != map[] {
      forall p | p in config.values {
        RenderedText(config.values[p], submitted, resolve, put.value);
      }
    } else {
      RenderedText(config.value, submitted, resolve, put.value);
      RenderedAsIs(submitted, resolve);
      var own := if config.path == "" then key else config.path;
      assert OwnPath(key, config, own) && plan.Keys == {own};
    }
  }

  /** The three forms of a declared field: fan-out, one expression, the value itself. */
  lemma PlanForms(key: string, config: FieldConfig)
    ensures var plan := Plan(key, config);
      if config.values != map[] then plan.Keys == config.values.Keys && forall p :: p in plan ==>
        plan[p] == Some(config.values[p])
      else (forall p :: p in plan <==> OwnPath(key, config, p)) && forall p :: p in plan ==>
        plan[p] == if config.value == "" then None else Some(config.value)
  {
  }

  lemma RenderedText(expr: string, submitted: Json, resolve: Resolver, value: Json)
    ensures Rendered(Some(expr), submitted, resolve) == Some(value) <==>
      exists text :: resolve(expr, submitted) == Some(text) && value == Text(text)
    ensures Rendered(Some(expr), submitted, resolve).Some? <==> resolve(expr, submitted).Some?
  {
  }

  lemma RenderedAsIs(submitted: Json, resolve: Resolver)
    ensures Rendered(None, submitted, resolve) == Some(submitted)
  {
  }

  /** An intent is rejected for its expressions exactly when one that is to be rendered does not. */
  lemma RendersAsDeclared(raw: map<string, Json>, serve: ServeConfig, resolve: Resolver)
    ensures AllRender(raw, raw.Keys, serve, resolve) <==>
      forall k :: k in raw && k != "target" && k in serve.fields ==>
        var config := serve.fields[k];
        if config.values != map[] then forall p :: p in config.values ==> resolve(config.values[p], raw[k]).Some?
        else config.value == "" || resolve(config.value, raw[k]).Some?
  {
    forall k | k in raw && k in serve.fields
      ensures RendersAll(k, raw[k], serve.fields[k], resolve) <==>
        var config := serve.fields[k];
        if config.values != map[] then forall p :: p in config.values ==> resolve(config.values[p], raw[k]).Some?
        else config.value == "" || resolve(config.value, raw[k]).Some?
    {
      FieldRendersAsDeclared(k, raw[k], serve.fields[k], resolve);
    }
  }

  lemma FieldRendersAsDeclared(key: string, submitted: Json, config: FieldConfig, resolve: Resolver)
    ensures RendersAll(key, submitted, config, resolve) <==>
      if config.values != map[] then forall p :: p in config.values ==> resolve(config.values[p], submitted).Some?
      else config.value == "" || resolve(config.value, submitted).Some?
  {
    hide Rendered, Plan;
    PlanForms(key, config);
    var plan := Plan(key, config);
    if config.values != map[] {
      forall p | p in config.values {
        RenderedText(config.values[p], submitted, resolve, submitted);
      }
    } else {
      RenderedText(config.value, submitted, resolve, submitted);
      RenderedAsIs(submitted, resolve);
      var own := if config.path == "" then key else config.path;
      assert OwnPath(key, config, own) && own in plan;
    }
  }

  /** The writes one field makes when its expressions render. */
  ghost function PutsOf(key: string, submitted: Json, config: FieldConfig, resolve: Resolver): set<Put> {
    set p | p in Plan(key, config) && Rendered(Plan(key, config)[p], submitted, resolve).Some?
      :: Put(Paths.Split(p), Rendered(Plan(key, config)[p], submitted, resolve).value, key)
  }

  ghost predicate RendersAll(key: string, submitted: Json, config: FieldConfig, resolve: Resolver) {
    forall p :: p in Plan(key, config) ==> Rendered(Plan(key, config)[p], submitted, resolve).Some?
  }

  ghost predicate AllRender(raw: map<string, Json>, keys: set<string>, serve: ServeConfig, resolve: Resolver) {
    forall k :: k in keys && k in raw && DestinationOf(k, serve).ToSpec? ==>
      RendersAll(k, raw[k], serve.fields[k], resolve)
  }

  ghost function AllPuts(raw: map<string, Json>, keys: set<string>, serve: ServeConfig, resolve: Resolver): set<Put> {
    set k, p | k in keys && k in raw && DestinationOf(k, serve).ToSpec? &&
      p in PutsOf(k, raw[k], serve.fields[k], resolve) :: p
  }

  /** The custom resource under construction, as newCRSkeleton makes it. */
  class Resource {
    var spec: Json
    var labels: map<string, string>
    var annotations: map<string, string>
    var errs: seq<(string, string)>
    ghost var order: seq<Put>      // writes attempted so far
    ghost var rendered: bool       // no expression has failed so far

    constructor Skeleton()
      ensures spec == EMPTY && labels == map[] && annotations == map[] && errs == []
      ensures order == [] && rendered
    {
      spec, labels, annotations, errs := EMPTY, map[], map[], [];
      order, rendered := [], true;
    }

    ghost predicate Valid()
      reads this
    {
      && spec.Object?
      && (errs == [] <==> rendered && PutAll(order).Some?)
      && (errs == [] ==> PutAll(order) == Some(spec))
    }

    /** setSpecValue: a flat key is assigned, a dotted path goes through the nested setter. */
    method SetSpecValue(path: string, value: Json) returns (ok: bool)
      requires spec.Object?
      modifies this`spec
      ensures spec.Object?
      ensures ok <==> Set(old(spec), Paths.Split(path), value).Some?
      ensures spec == if ok then Set(old(spec), Paths.Split(path), value).value else old(spec)
    {
      if !Paths.DotFree(path) {
        var t := Set(spec, Paths.Split(path), value);
        ok := t.Some?;
        if ok {
          spec := t.value;
        }
      } else {
        Paths.LastPart(path);
        assert [path][1..] == [];
        spec := Object(spec.fields[path := value]);
        ok := true;
      }
    }

    /** One write, or the rendering error that replaces it. */
    method Write(key: string, path: string, value: Option<Json>)
      requires Valid()
      modifies this`spec, this`errs, this`order, this`rendered
      ensures Valid()
      ensures order == old(order) + if value.Some? then [Put(Paths.Split(path), value.value, key)] else []
      ensures rendered <==> old(rendered) && value.Some?
      ensures errs == old(errs) +
        if value.None? || Set(old(spec), Paths.Split(path), value.value).None? then [(key, path)] else []
    {
      if value.None? {
        errs := errs + [(key, path)];
        rendered := false;
      } else {
        var ok := SetSpecValue(path, value.value);
        order := order + [Put(Paths.Split(path), value.value, key)];
        assert order[..|order| - 1] == old(order);
        if !ok {
          errs := errs + [(key, path)];
        }
      }
    }

    /** All writes of one declared field, the fan-out map in any order. */
    method RouteSpecField(key: string, submitted: Json, config: FieldConfig, resolve: Resolver)
      returns (ghost puts: seq<Put>)
      requires Valid()
      modifies this`spec, this`errs, this`order, this`rendered
      ensures Valid() && order == old(order) + puts
      ensures rendered <==> old(rendered) && RendersAll(key, submitted, config, resolve)
      ensures Distinct(puts) && Elems(puts) == PutsOf(key, submitted, config, resolve)
    {
      hide Valid, Plan, Rendered, PutsAt, Distinct;
      puts := [];
      var plan := Plan(key, config);
      var todo := plan.Keys;
      ghost var done: set<string> := {};
      NoPuts(plan, key, submitted, resolve);
      while todo != {}
        invariant todo !! done && todo + done == plan.Keys && Valid()
        invariant order == old(order) + puts
        invariant rendered <==> old(rendered) && forall p :: p in done ==> Rendered(plan[p], submitted, resolve).Some?
        invariant Distinct(puts) && Elems(puts) == PutsAt(plan, done, key, submitted, resolve)
      {
        var path :| path in todo;
        var value := Rendered(plan[path], submitted, resolve);
        PutsAtStep(plan, done, path, key, submitted, resolve, puts);
        Write(key, path, value);
        puts := puts + if value.Some? then [Put(Paths.Split(path), value.value, key)] else [];
        done := done + {path};
        todo := todo - {path};
      }
      AllPutsAt(key, submitted, config, resolve);
    }

    /** Everything the fields in `done` ask for has been written, and nothing else. */
    ghost predicate Routed(raw: map<string, Json>, done: set<string>, serve: ServeConfig, resolve: Resolver,
        show: Json -> string)
      reads this
    {
      && Valid()
      && (rendered <==> AllRender(raw, done, serve, resolve))
      && RouteOrder(order, AllPuts(raw, done, serve, resolve))
      && labels == Shown(raw, done, serve, ToLabel, show)
      && annotations == Shown(raw, done, serve, ToAnnotation, show)
    }

    method RouteField(key: string, submitted: Json, serve: ServeConfig, resolve: Resolver, show: Json -> string,
        ghost raw: map<string, Json>, ghost done: set<string>)
      requires key in raw && key !in done && raw[key] == submitted
      requires Routed(raw, done, serve, resolve, show)
      modifies this
      ensures Routed(raw, done + {key}, serve, resolve, show)
    {
      hide AllRender, AllPuts, Shown, RouteOrder, PutAll;
      OneMoreField(raw, done, serve, resolve, show, key);
      match DestinationOf(key, serve) {
        case ToSpec =>
          ghost var before := order;
          ghost var puts := RouteSpecField(key, submitted, serve.fields[key], resolve);
          RouteOrderStep(before, puts, key, raw, done, serve, resolve);
        case ToLabel => labels := labels[key := show(submitted)];
        case ToAnnotation => annotations := annotations[key := show(submitted)];
        case Nowhere =>
      }
    }

    /**
    routeFields: every submitted field to its destination, the map of fields in any order. A
    spec field that is also declared as a label or annotation goes to the spec only.
    */
    method RouteFields(raw: map<string, Json>, serve: ServeConfig, resolve: Resolver, show: Json -> string)
      returns (ok: bool)
      requires spec == EMPTY && labels == map[] && annotations == map[] && errs == [] && order == [] && rendered
      modifies this
      ensures ok <==> AllRender(raw, raw.Keys, serve, resolve) && PutAll(order).Some?
      ensures ok ==> PutAll(order) == Some(spec)
      ensures RouteOrder(order, AllPuts(raw, raw.Keys, serve, resolve))
      ensures labels == Shown(raw, raw.Keys, serve, ToLabel, show)
      ensures annotations == Shown(raw, raw.Keys, serve, ToAnnotation, show)
      ensures Tagged(raw, serve, show, labels, annotations)
    {
      hide AllRender, RouteOrder, AllPuts, Shown, PutAll, Tagged;
      var todo := raw.Keys;
      NothingRouted(raw, serve, resolve, show);
      assert raw.Keys - todo == {};
      while todo != {}
        invariant todo <= raw.Keys
        invariant Routed(raw, raw.Keys - todo, serve, resolve, show)
      {
        var key :| key in todo;
        RouteField(key, raw[key], serve, resolve, show, raw, raw.Keys - todo);
        assert raw.Keys - (todo - {key}) == raw.Keys - todo + {key};
        todo := todo - {key};
      }
      assert raw.Keys - todo == raw.Keys;
      ShownAsDeclared(raw, serve, show);
      ok := errs == [];
    }
  }

  ghost function PutsAt(plan: map<string, Option<string>>, paths: set<string>, key: string, submitted: Json,
      resolve: Resolver): set<Put> {
    set p | p in paths && p in plan && Rendered(plan[p], submitted, resolve).Some?
      :: Put(Paths.Split(p), Rendered(plan[p], submitted, resolve).value, key)
  }

  lemma PutsAtStep(plan: map<string, Option<string>>, paths: set<string>, path: string, key: string, submitted: Json,
      resolve: Resolver, puts: seq<Put>)
    requires path in plan && path !in paths
    requires Distinct(puts) && Elems(puts) == PutsAt(plan, paths, key, submitted, resolve)
    ensures var v := Rendered(plan[path], submitted, resolve);
      var puts' := puts + if v.Some? then [Put(Paths.Split(path), v.value, key)] else [];
      Distinct(puts') && Elems(puts') == PutsAt(plan, paths + {path}, key, submitted, resolve)
  {
    forall p | p in paths && Paths.Split(p) == Paths.Split(path) ensures false {
      Paths.JoinOfSplit(p);
      Paths.JoinOfSplit(path);
    }
    var v := Rendered(plan[path], submitted, resolve);
    if v.Some? {
      var put := Put(Paths.Split(path), v.value, key);
      assert put !in Elems(puts) && Elems(puts + [put]) == Elems(puts) + {put};
    } else {
      assert puts + [] == puts;
    }
  }

  lemma NoPuts(plan: map<string, Option<string>>, key: string, submitted: Json, resolve: Resolver)
    ensures Distinct<Put>([]) && Elems<Put>([]) == PutsAt(plan, {}, key, submitted, resolve)
  {
  }

  lemma AllPutsAt(key: string, submitted: Json, config: FieldConfig, resolve: Resolver)
    ensures PutsAt(Plan(key, config), Plan(key, config).Keys, key, submitted, resolve) ==
      PutsOf(key, submitted, config, resolve)
  {
  }

  /** What routing one more field adds to the errors, writes, labels and annotations asked for. */
  lemma OneMoreField(raw: map<string, Json>, done: set<string>, serve: ServeConfig, resolve: Resolver,
      show: Json -> string, key: string)
    requires key in raw && key !in done
    ensures var to := DestinationOf(key, serve);
      && (AllRender(raw, done + {key}, serve, resolve) <==>
           AllRender(raw, done, serve, resolve) &&
             (to == ToSpec ==> RendersAll(key, raw[key], serve.fields[key], resolve)))
      && (to != ToSpec ==> AllPuts(raw, done + {key}, serve, resolve) == AllPuts(raw, done, serve, resolve))
    ensures forall to ::
      Shown(raw, done + {key}, serve, to, show) ==
      var before := Shown(raw, done, serve, to, show);
      if DestinationOf(key, serve) == to then before[key := show(raw[key])] else before
  {
    hide RendersAll, PutsOf;
  }

  /** The label or annotation map: each submitted field routed there, printed. */
  ghost function Shown(raw: map<string, Json>, keys: set<string>, serve: ServeConfig, to: Destination,
      show: Json -> string): map<string, string> {
    map k | k in keys && k in raw && DestinationOf(k, serve) == to :: show(raw[k])
  }

  lemma NothingRouted(raw: map<string, Json>, serve: ServeConfig, resolve: Resolver, show: Json -> string)
    ensures AllRender(raw, {}, serve, resolve) && RouteOrder([], AllPuts(raw, {}, serve, resolve))
    ensures Shown(raw, {}, serve, ToLabel, show) == Shown(raw, {}, serve, ToAnnotation, show) == map[]
    ensures PutAll([]) == Some(EMPTY)
  {
  }

  lemma RouteOrderStep(order: seq<Put>, puts: seq<Put>, key: string, raw: map<string, Json>, done: set<string>,
      serve: ServeConfig, resolve: Resolver)
    requires key in raw && key !in done && DestinationOf(key, serve).ToSpec?
    requires RouteOrder(order, AllPuts(raw, done, serve, resolve))
    requires Distinct(puts) && Elems(puts) == PutsOf(key, raw[key], serve.fields[key], resolve)
    ensures RouteOrder(order + puts, AllPuts(raw, done + {key}, serve, resolve))
  {
    forall p | p in order ensures p.field != key { assert p in Elems(order); }
    forall p | p in puts ensures p.field == key { assert p in Elems(puts); }
    assert Elems(order + puts) == Elems(order) + Elems(puts);
  }

  // ---------------------------------------------------------------- independence of map order

  datatype Built = Built(spec: Json, labels: map<string, string>, annotations: map<string, string>)

  /** What an intent becomes when its writes happen in this order. */
  ghost function BuiltFrom(raw: map<string, Json>, serve: ServeConfig, resolve: Resolver, show: Json -> string,
      order: seq<Put>): Option<Built> {
    if AllRender(raw, raw.Keys, serve, resolve) && PutAll(order).Some?
    then Some(Built(PutAll(order).value, Shown(raw, raw.Keys, serve, ToLabel, show),
      Shown(raw, raw.Keys, serve, ToAnnotation, show)))
    else None
  }

  ghost predicate Routes(raw: map<string, Json>, serve: ServeConfig, resolve: Resolver, show: Json -> string,
      r: Option<Built>) {
    exists order :: RouteOrder(order, AllPuts(raw, raw.Keys, serve, resolve)) &&
      r == BuiltFrom(raw, serve, resolve, show, order)
  }

  /** Routes one intent; None is the translation error, on which the resource is discarded. */
  method Route(raw: map<string, Json>, serve: ServeConfig, resolve: Resolver, show: Json -> string)
    returns (r: Option<Built>)
    ensures Routes(raw, serve, resolve, show, r)
    ensures r.Some? ==> Tagged(raw, serve, show, r.value.labels, r.value.annotations)
  {
    hide AllRender, RouteOrder, AllPuts, Shown, PutAll, Tagged;
    var obj := new Resource.Skeleton();
    var ok := obj.RouteFields(raw, serve, resolve, show);
    r := if ok then Some(Built(obj.spec, obj.labels, obj.annotations)) else None;
    assert r == BuiltFrom(raw, serve, resolve, show, obj.order);
  }

  lemma AllPutsHavePaths(raw: map<string, Json>, serve: ServeConfig, resolve: Resolver)
    ensures NonEmptyPaths(AllPuts(raw, raw.Keys, serve, resolve))
  {
  }

  /** An expression writes text, so a map is written only where a map is submitted for a field without expressions. */
  lemma MapsComeFromMaps(raw: map<string, Json>, serve: ServeConfig, resolve: Resolver)
    requires forall k :: k in raw && DestinationOf(k, serve).ToSpec? ==>
      IsScalar(raw[k]) || serve.fields[k].value != "" || serve.fields[k].values != map[]
    ensures AllScalar(AllPuts(raw, raw.Keys, serve, resolve))
  {
  }

  /** Agreeing writes leave one possible outcome. */
  lemma OneOutcome(raw: map<string, Json>, serve: ServeConfig, resolve: Resolver, show: Json -> string,
      a: Option<Built>, b: Option<Built>)
    requires AllAgree(AllPuts(raw, raw.Keys, serve, resolve))
    requires Routes(raw, serve, resolve, show, a) && Routes(raw, serve, resolve, show, b)
    ensures a == b
    ensures a.Some? <==> AllRender(raw, raw.Keys, serve, resolve)
  {
    hide AllRender, RouteOrder, AllPuts, Shown, PutAll, AllAgree, NonEmptyPaths;
    var puts := AllPuts(raw, raw.Keys, serve, resolve);
    var x :| RouteOrder(x, puts) && a == BuiltFrom(raw, serve, resolve, show, x);
    var y :| RouteOrder(y, puts) && b == BuiltFrom(raw, serve, resolve, show, y);
    AllPutsHavePaths(raw, serve, resolve);
    RoutingConfluent(x, y, puts);
  }

  ghost predicate OneResult(raw: map<string, Json>, serve: ServeConfig, resolve: Resolver, show: Json -> string) {
    forall x, y :: Routes(raw, serve, resolve, show, x) && Routes(raw, serve, resolve, show, y) ==> x == y
  }

  lemma SameOutcomeSamePuts(raw: map<string, Json>, serve: ServeConfig, resolve: Resolver, show: Json -> string,
      a: seq<Put>, b: seq<Put>)
    requires OneResult(raw, serve, resolve, show) && AllRender(raw, raw.Keys, serve, resolve)
    requires RouteOrder(a, AllPuts(raw, raw.Keys, serve, resolve)) &&
      RouteOrder(b, AllPuts(raw, raw.Keys, serve, resolve))
    ensures PutAll(a) == PutAll(b)
  {
    hide AllRender, RouteOrder, AllPuts, Shown, PutAll;
    assert Routes(raw, serve, resolve, show, BuiltFrom(raw, serve, resolve, show, a));
    assert Routes(raw, serve, resolve, show, BuiltFrom(raw, serve, resolve, show, b));
  }

  /**
  An intent has one result, whatever the map order, if and only if one of its expressions does not
  render, its writes agree, or every order of its writes fails; when no map is written, the last
  is a circle of fields that write above one another.
  */
  lemma OneResultIff(raw: map<string, Json>, serve: ServeConfig, resolve: Resolver, show: Json -> string)
    ensures var puts := AllPuts(raw, raw.Keys, serve, resolve);
      OneResult(raw, serve, resolve, show) <==>
        !AllRender(raw, raw.Keys, serve, resolve) || AllAgree(puts) || AlwaysFails(puts)
    ensures var puts := AllPuts(raw, raw.Keys, serve, resolve);
      AllScalar(puts) ==>
        (OneResult(raw, serve, resolve, show) <==>
          !AllRender(raw, raw.Keys, serve, resolve) || AllAgree(puts) || HasCycle(FieldsBelow(puts)))
  {
    hide AllRender, RouteOrder, AllPuts, Shown, PutAll, AllAgree, NonEmptyPaths, AllScalar, HasCycle, FieldsBelow;
    var puts := AllPuts(raw, raw.Keys, serve, resolve);
    AllPutsHavePaths(raw, serve, resolve);
    OrderFreeIff(puts);
    AlwaysFailsIff(puts);
    if AllAgree(puts) {
      forall x, y | Routes(raw, serve, resolve, show, x) && Routes(raw, serve, resolve, show, y) ensures x == y {
        OneOutcome(raw, serve, resolve, show, x, y);
      }
    }
    if OneResult(raw, serve, resolve, show) && AllRender(raw, raw.Keys, serve, resolve) {
      forall a, b | RouteOrder(a, puts) && RouteOrder(b, puts) ensures PutAll(a) == PutAll(b) {
        SameOutcomeSamePuts(raw, serve, resolve, show, a, b);
      }
    }
  }

  /** Any two runs over the same intent agree, errors included, when its writes do. */
  method RouteTwice(raw: map<string, Json>, serve: ServeConfig, resolve: Resolver, show: Json -> string)
    returns (first: Option<Built>, second: Option<Built>)
    requires AllAgree(AllPuts(raw, raw.Keys, serve, resolve))
    ensures first == second
    ensures first.Some? <==> AllRender(raw, raw.Keys, serve, resolve)
  {
    hide *;
    first := Route(raw, serve, resolve, show);
    second := Route(raw, serve, resolve, show);
    OneOutcome(raw, serve, resolve, show, first, second);
  }
}
