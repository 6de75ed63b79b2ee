/**
Merging one CRD declaration on top of another, and merging the security blocks of catalogs.
Blocks the merge only copies or replaces whole are opaque texts.
*/
module EntryMerge {
  import opened Ordering

  type Block = string

  datatype Reconcile = Reconcile(
    workers: int, resync: int, maxDepth: int, failureThreshold: int,
    onCreate: Option<Block>, onReconcile: Option<Block>, onDelete: Option<Block>,
    hookFactory: Option<Block>, constr: Option<Block>, rest: Block)

  datatype Protection = Protection(protectCrd: Option<bool>, protectCrs: Option<bool>, strictMode: Option<bool>)

  datatype Runtime = Runtime(
    protection: Option<Protection>, restricted: seq<string>, allowed: seq<string>, finalizers: seq<string>, rest: Block)

  datatype Emit = Emit(status: Option<Block>, rest: Block)

  datatype Admission = Admission(
    validation: Option<Block>, mutation: Option<Block>, conversion: Option<Block>, rest: Block)

  /** Box() never returns nil, so a missing box is an empty one. */
  datatype OperatorBox = OperatorBox(reconcile: Option<Reconcile>, runtime: Option<Runtime>, emit: Option<Emit>,
    rest: Block)

  datatype Endpoints = Endpoints(enabled: Option<bool>, rest: Block)

  datatype Entry = Entry(
    name: string, kind: string, types: Block, crdFile: string, enabled: Option<bool>,
    box: OperatorBox, namespace: string, dependsOn: seq<string>, admission: Option<Admission>,
    endpoints: Endpoints, description: string, version: string, rest: Block)

  const NO_RECONCILE := Reconcile(0, 0, 0, 0, None, None, None, None, None, "")
  const NO_RUNTIME := Runtime(None, [], [], [], "")
  const NO_PROTECTION := Protection(None, None, None)
  const NO_EMIT := Emit(None, "")
  const NO_ADMISSION := Admission(None, None, None, "")
  const NO_ENDPOINTS := Endpoints(None, "")

  /** What an override is when its author declared nothing. */
  const NOTHING := Entry(
    "", "", "", "", None, OperatorBox(None, None, None, ""), "", [], None, NO_ENDPOINTS, "", "", "")

  function OrElse<T>(o: Option<T>, default: T): T {
    if o.Some? then o.value else default
  }

  function Prefer<T>(base: Option<T>, over: Option<T>): Option<T> {
    if over.Some? then over else base
  }

  predicate On(flag: Option<bool>) {
    OrElse(flag, true)
  }

  // ---------------------------------------------------------------- additive lists

  /** base first, then what the other list adds; entries repeated inside the addition stay repeated. */
  ghost function Added(base: seq<string>, more: seq<string>): (r: seq<string>)
    ensures base <= r && Elems(r) == Elems(base) + Elems(more)
  {
    var w := Without(more, Elems(base));
    assert Elems(base + w) == Elems(base) + Elems(w);
    base + w
  }

  method AppendNew(base: seq<string>, more: seq<string>) returns (r: seq<string>)
    ensures r == Added(base, more)
  {
    var seen := Elems(base);
    r := base;
    for i := 0 to |more|
      invariant r == base + Without(more[..i], seen)
    {
      assert more[..i + 1][..i] == more[..i];
      if more[i] !in seen {
        r := r + [more[i]];
      }
    }
    assert more[..|more|] == more;
  }

  lemma AddedAssociative(a: seq<string>, b: seq<string>, c: seq<string>)
    ensures Added(Added(a, b), c) == Added(a, Added(b, c))
  {
    var A, B := Elems(a), Elems(b);
    WithoutConcat(b, Without(c, B), A);
    WithoutTwice(c, B, A);
    assert B + A == A + B;
  }

  lemma AddedIdempotent(a: seq<string>, b: seq<string>)
    ensures Added(Added(a, b), b) == Added(a, b)
    ensures Added(a, []) == a
  {
    WithoutAll(b, Elems(Added(a, b)));
  }

  // ---------------------------------------------------------------- the merged entry

  function MergedReconcile(base: Option<Reconcile>, over: Option<Reconcile>): Option<Reconcile> {
    if over.None? then base
    else
      var b, o := OrElse(base, NO_RECONCILE), over.value;
      Some(Reconcile(
        if o.workers > 0 then o.workers else b.workers,
        if o.resync != 0 then o.resync else b.resync,
        if o.maxDepth > 0 then o.maxDepth else b.maxDepth,
        if o.failureThreshold > 0 then o.failureThreshold else b.failureThreshold,
        Prefer(b.onCreate, o.onCreate), Prefer(b.onReconcile, o.onReconcile), Prefer(b.onDelete, o.onDelete),
        Prefer(b.hookFactory, o.hookFactory), Prefer(b.constr, o.constr), b.rest))
  }

  function MergedProtection(base: Option<Protection>, over: Option<Protection>): Option<Protection> {
    if over.None? then base
    else
      var b, o := OrElse(base, NO_PROTECTION), over.value;
      Some(Protection(Prefer(b.protectCrd, o.protectCrd), Prefer(b.protectCrs, o.protectCrs),
        Prefer(b.strictMode, o.strictMode)))
  }

  predicate DeclaresRuntime(over: Option<Runtime>) {
    over.Some? && (over.value.protection.Some? || |over.value.restricted| > 0 || |over.value.allowed| > 0 ||
      |over.value.finalizers| > 0)
  }

  ghost function MergedRuntimes(b: Runtime, o: Runtime): Runtime {
    Runtime(MergedProtection(b.protection, o.protection), Added(b.restricted, o.restricted),
            Added(b.allowed, o.allowed), Added(b.finalizers, o.finalizers), b.rest)
  }

  ghost function MergedRuntime(base: Option<Runtime>, over: Option<Runtime>): Option<Runtime> {
    if !DeclaresRuntime(over) then base else Some(MergedRuntimes(OrElse(base, NO_RUNTIME), over.value))
  }

  function Status(emit: Option<Emit>): Option<Block> {
    OrElse(emit, NO_EMIT).status
  }

  function MergedEmit(base: Option<Emit>, over: Option<Emit>): Option<Emit> {
    if Status(over).None? then base else Some(OrElse(base, NO_EMIT).(status := Status(over)))
  }

  predicate DeclaresAdmission(over: Option<Admission>) {
    over.Some? && (over.value.validation.Some? || over.value.mutation.Some? || over.value.conversion.Some?)
  }

  function MergedAdmission(base: Option<Admission>, over: Option<Admission>): Option<Admission> {
    if !DeclaresAdmission(over) then base
    else
      var b, o := OrElse(base, NO_ADMISSION), over.value;
      Some(Admission(Prefer(b.validation, o.validation), Prefer(b.mutation, o.mutation),
        Prefer(b.conversion, o.conversion), b.rest))
  }

  ghost function MergedBox(base: OperatorBox, over: OperatorBox): OperatorBox {
    OperatorBox(MergedReconcile(base.reconcile, over.reconcile), MergedRuntime(base.runtime, over.runtime),
                MergedEmit(base.emit, over.emit), base.rest)
  }

  ghost function Merged(base: Entry, over: Entry): Entry {
    Entry(
      base.name,
      if over.kind != "" then over.kind else base.kind,
      if over.kind != "" then over.types else base.types,
      if over.crdFile != "" then over.crdFile else base.crdFile,
      if On(over.enabled) then base.enabled else over.enabled,
      MergedBox(base.box, over.box),
      if over.namespace != "" then over.namespace else base.namespace,
      if |over.dependsOn| > 0 then over.dependsOn else base.dependsOn,
      MergedAdmission(base.admission, over.admission),
      if On(over.endpoints.enabled) then over.endpoints else base.endpoints,
      base.description, base.version, base.rest)
  }

  function Untuned(o: Reconcile): Reconcile {
    o.(workers := 0, resync := 0, maxDepth := 0, failureThreshold := 0)
  }

  /** The tuning block. */
  method MergeTuning(base: Reconcile, o: Reconcile) returns (rc: Reconcile)
    ensures MergedReconcile(Some(base), Some(o)) == MergedReconcile(Some(rc), Some(Untuned(o)))
  {
    rc := base;
    if o.workers > 0 {
      rc := rc.(workers := o.workers);
    }
    if o.resync != 0 {
      rc := rc.(resync := o.resync);
    }
    if o.maxDepth > 0 {
      rc := rc.(maxDepth := o.maxDepth);
    }
    if o.failureThreshold > 0 {
      rc := rc.(failureThreshold := o.failureThreshold);
    }
  }

  /** The lifecycle block, which leaves the tuning alone. */
  method MergeLifecycle(base: Reconcile, o: Reconcile) returns (rc: Reconcile)
    ensures MergedReconcile(Some(base), Some(Untuned(o))) == Some(rc)
  {
    rc := base;
    if o.onCreate.Some? {
      rc := rc.(onCreate := o.onCreate);
    }
    if o.onReconcile.Some? {
      rc := rc.(onReconcile := o.onReconcile);
    }
    if o.onDelete.Some? {
      rc := rc.(onDelete := o.onDelete);
    }
    if o.hookFactory.Some? {
      rc := rc.(hookFactory := o.hookFactory);
    }
    if o.constr.Some? {
      rc := rc.(constr := o.constr);
    }
  }

  method MergeReconcile(base: Option<Reconcile>, over: Option<Reconcile>) returns (r: Option<Reconcile>)
    ensures r == MergedReconcile(base, over)
  {
    r := base;
    if over.Some? {
      var rc := MergeTuning(OrElse(r, NO_RECONCILE), over.value);
      rc := MergeLifecycle(rc, over.value);
      r := Some(rc);
    }
  }

  method MergeProtection(base: Option<Protection>, o: Protection) returns (r: Option<Protection>)
    ensures r == MergedProtection(base, Some(o))
  {
    var dp := if base.None? then NO_PROTECTION else base.value;
    if o.protectCrd.Some? {
      dp := dp.(protectCrd := o.protectCrd);
    }
    if o.protectCrs.Some? {
      dp := dp.(protectCrs := o.protectCrs);
    }
    if o.strictMode.Some? {
      dp := dp.(strictMode := o.strictMode);
    }
    r := Some(dp);
  }

  method MergeRuntime(base: Option<Runtime>, over: Option<Runtime>) returns (r: Option<Runtime>)
    ensures r == MergedRuntime(base, over)
  {
    r := base;
    if over.None? {
      return;
    }
    var o := over.value;
    var b := OrElse(base, NO_RUNTIME);
    AddedIdempotent(b.restricted, []);
    AddedIdempotent(b.allowed, []);
    AddedIdempotent(b.finalizers, []);
    if o.protection.Some? {
      var rt := OrElse(r, NO_RUNTIME);
      var p := MergeProtection(rt.protection, o.protection.value);
      r := Some(rt.(protection := p));
    }
    if |o.restricted| > 0 {
      var rt := OrElse(r, NO_RUNTIME);
      var list := AppendNew(rt.restricted, o.restricted);
      r := Some(rt.(restricted := list));
    }
    if |o.allowed| > 0 {
      var rt := OrElse(r, NO_RUNTIME);
      var list := AppendNew(rt.allowed, o.allowed);
      r := Some(rt.(allowed := list));
    }
    if |o.finalizers| > 0 {
      var rt := OrElse(r, NO_RUNTIME);
      var list := AppendNew(rt.finalizers, o.finalizers);
      r := Some(rt.(finalizers := list));
    }
  }

  method MergeAdmission(base: Option<Admission>, over: Option<Admission>) returns (r: Option<Admission>)
    ensures r == MergedAdmission(base, over)
  {
    r := base;
    if over.Some? && over.value.validation.Some? {
      r := Some(OrElse(r, NO_ADMISSION).(validation := over.value.validation));
    }
    if over.Some? && over.value.mutation.Some? {
      r := Some(OrElse(r, NO_ADMISSION).(mutation := over.value.mutation));
    }
    if over.Some? && over.value.conversion.Some? {
      r := Some(OrElse(r, NO_ADMISSION).(conversion := over.value.conversion));
    }
  }

  /** mergeCRDEntry. */
  method MergeCrdEntry(base: Entry, over: Entry) returns (result: Entry)
    ensures result == Merged(base, over)
  {
    hide MergedReconcile, MergedRuntime, MergedAdmission;
    result := base;
    if over.kind != "" {
      result := result.(kind := over.kind, types := over.types);
    }
    if over.crdFile != "" {
      result := result.(crdFile := over.crdFile);
    }
    if !On(over.enabled) {
      result := result.(enabled := over.enabled);
    }
    var reconcile := MergeReconcile(result.box.reconcile, over.box.reconcile);
    var runtime := MergeRuntime(result.box.runtime, over.box.runtime);
    result := result.(box := result.box.(reconcile := reconcile, runtime := runtime));
    if over.namespace != "" {
      result := result.(namespace := over.namespace);
    }
    if |over.dependsOn| > 0 {
      result := result.(dependsOn := over.dependsOn);
    }
    if Status(over.box.emit).Some? {
      var emit := OrElse(result.box.emit, NO_EMIT).(status := Status(over.box.emit));
      result := result.(box := result.box.(emit := Some(emit)));
    }
    var admission := MergeAdmission(result.admission, over.admission);
    result := result.(admission := admission);
    if On(over.endpoints.enabled) {
      result := result.(endpoints := over.endpoints);
    }
  }

  // ---------------------------------------------------------------- the override algebra

  lemma RuntimesAssociative(x: Runtime, y: Runtime, z: Runtime)
    ensures MergedRuntimes(MergedRuntimes(x, y), z) == MergedRuntimes(x, MergedRuntimes(y, z))
  {
    hide Added;
    AddedAssociative(x.restricted, y.restricted, z.restricted);
    AddedAssociative(x.allowed, y.allowed, z.allowed);
    AddedAssociative(x.finalizers, y.finalizers, z.finalizers);
  }

  lemma RuntimesUnchanged(x: Runtime, y: Runtime)
    ensures !DeclaresRuntime(Some(y)) ==> MergedRuntimes(x, y) == x
    ensures DeclaresRuntime(Some(x)) || DeclaresRuntime(Some(y)) ==> DeclaresRuntime(Some(MergedRuntimes(x, y)))
  {
    hide Without;
    AddedIdempotent(x.restricted, []);
    AddedIdempotent(x.allowed, []);
    AddedIdempotent(x.finalizers, []);
    AddedKeeps(x.restricted, y.restricted);
    AddedKeeps(x.allowed, y.allowed);
    AddedKeeps(x.finalizers, y.finalizers);
  }

  lemma AddedKeeps(a: seq<string>, b: seq<string>)
    ensures a != [] || b != [] ==> Added(a, b) != []
  {
    if b != [] {
      assert b[0] in Elems(b);
      assert b[0] in Elems(Added(a, b));
    }
  }

  lemma RuntimeAssociative(a: Option<Runtime>, b: Option<Runtime>, c: Option<Runtime>)
    ensures MergedRuntime(MergedRuntime(a, b), c) == MergedRuntime(a, MergedRuntime(b, c))
  {
    hide Added, Without, MergedProtection, DeclaresRuntime;
    var x, y, z := OrElse(a, NO_RUNTIME), OrElse(b, NO_RUNTIME), OrElse(c, NO_RUNTIME);
    RuntimesAssociative(x, y, z);
    RuntimesUnchanged(x, y);
    RuntimesUnchanged(y, z);
    UndeclaredRuntime(b);
    UndeclaredRuntime(c);
    assert DeclaresRuntime(b) && !DeclaresRuntime(c) ==> MergedRuntime(b, c) == b;
    assert DeclaresRuntime(c) ==> MergedRuntime(b, c) == Some(MergedRuntimes(y, z));
  }

  lemma UndeclaredRuntime(o: Option<Runtime>)
    ensures DeclaresRuntime(o) ==> o.Some?
    ensures !DeclaresRuntime(Some(NO_RUNTIME))
  {
  }

  /** Layering is associative: merging the layers in pairs, in either grouping, gives the same entry. */
  lemma MergedAssociative(a: Entry, b: Entry, c: Entry)
    ensures Merged(Merged(a, b), c) == Merged(a, Merged(b, c))
  {
    hide MergedRuntime;
    RuntimeAssociative(a.box.runtime, b.box.runtime, c.box.runtime);
  }

  lemma RuntimeIdempotent(base: Option<Runtime>, over: Option<Runtime>)
    ensures MergedRuntime(MergedRuntime(base, over), over) == MergedRuntime(base, over)
  {
    hide Added, Without;
    if DeclaresRuntime(over) {
      var b := OrElse(base, NO_RUNTIME);
      AddedIdempotent(b.restricted, over.value.restricted);
      AddedIdempotent(b.allowed, over.value.allowed);
      AddedIdempotent(b.finalizers, over.value.finalizers);
    }
  }

  /** Applying the same override again changes nothing. */
  lemma MergedIdempotent(base: Entry, over: Entry)
    ensures Merged(Merged(base, over), over) == Merged(base, over)
  {
    hide MergedRuntime;
    RuntimeIdempotent(base.box.runtime, over.box.runtime);
  }

  /**
  An override that declares nothing should inherit everything. It does, except that the endpoint
  settings of the base are lost; so it leaves an entry alone exactly when that entry had none.
  */
  lemma NothingInheritsExceptEndpoints(base: Entry)
    ensures Merged(base, NOTHING) == base.(endpoints := NO_ENDPOINTS)
    ensures Merged(base, NOTHING) == base <==> base.endpoints == NO_ENDPOINTS
  {
    assert !DeclaresRuntime(NOTHING.box.runtime);
  }

  ghost function ListsOf(e: Entry): (seq<string>, seq<string>, seq<string>) {
    var r := OrElse(e.box.runtime, NO_RUNTIME);
    (r.restricted, r.allowed, r.finalizers)
  }

  /** No layer removes a restricted or allowed namespace or a finalizer, and none adds one nobody declared. */
  lemma ListsAreAdditive(base: Entry, over: Entry)
    ensures var b, o, m := ListsOf(base), ListsOf(over), ListsOf(Merged(base, over));
      && b.0 <= m.0 && b.1 <= m.1 && b.2 <= m.2
      && Elems(m.0) == Elems(b.0) + Elems(o.0)
      && Elems(m.1) == Elems(b.1) + Elems(o.1)
      && Elems(m.2) == Elems(b.2) + Elems(o.2)
  {
    hide Without;
  }

  // ---------------------------------------------------------------- any number of layers

  /** Overrides applied one after the other. */
  ghost function Layered(base: Entry, overs: seq<Entry>): Entry {
    if overs == [] then base else Merged(Layered(base, overs[..|overs| - 1]), overs[|overs| - 1])
  }

  lemma LayeredStep(base: Entry, overs: seq<Entry>, over: Entry)
    ensures Layered(base, overs + [over]) == Merged(Layered(base, overs), over)
    ensures Layered(base, []) == base
  {
    assert (overs + [over])[..|overs|] == overs;
  }

  /** Any number of overrides can be merged with one another first. */
  lemma {:induction false} LayersAsOne(base: Entry, first: Entry, rest: seq<Entry>)
    ensures Layered(base, [first] + rest) == Merged(base, Layered(first, rest))
  {
    hide Merged, Layered;
    if rest == [] {
      LayeredStep(base, [], first);
      LayeredStep(first, [], first);
      assert [first] + rest == [] + [first];
    } else {
      var before, last := rest[..|rest| - 1], rest[|rest| - 1];
      assert rest == before + [last];
      LayersAsOne(base, first, before);
      LayeredStep(base, [first] + before, last);
      LayeredStep(first, before, last);
      assert [first] + rest == ([first] + before) + [last];
      MergedAssociative(base, Layered(first, before), last);
    }
  }

  // ---------------------------------------------------------------- the last layer that says something

  /** v is what the last layer that says something says, or the base when none does. */
  ghost predicate LastSaid<L(!new), T(!new)>(base: T, layers: seq<L>, says: L -> Option<T>, v: T) {
    && (forall i ::
          (0 <= i < |layers| && says(layers[i]).Some? && forall j :: i < j < |layers| ==> says(layers[j]).None?) ==>
          v == says(layers[i]).value)
    && ((forall i :: 0 <= i < |layers| ==> says(layers[i]).None?) ==> v == base)
  }

  lemma LastSaidStep<L(!new), T(!new)>(base: T, layers: seq<L>, says: L -> Option<T>, v: T, last: L)
    requires LastSaid(base, layers, says, v)
    ensures LastSaid(base, layers + [last], says, if says(last).Some? then says(last).value else v)
  {
    var all := layers + [last];
    assert all[|layers|] == last && forall i :: 0 <= i < |layers| ==> all[i] == layers[i];
  }

  /** A field that each merge takes from the override, if the override says anything about it. */
  ghost predicate Overrides<T(!new)>(get: Entry -> T, says: Entry -> Option<T>) {
    forall b, o :: get(Merged(b, o)) == if says(o).Some? then says(o).value else get(b)
  }

  lemma {:induction false} LastLayerWins<T(!new)>(base: Entry, overs: seq<Entry>, get: Entry -> T,
      says: Entry -> Option<T>)
    requires Overrides(get, says)
    ensures LastSaid(get(base), overs, says, get(Layered(base, overs)))
  {
    hide Merged, LastSaid;
    if overs == [] {
      NothingSaid(get(base), overs, says);
    } else {
      var rest, last := overs[..|overs| - 1], overs[|overs| - 1];
      assert overs == rest + [last];
      LastLayerWins(base, rest, get, says);
      LastSaidStep(get(base), rest, says, get(Layered(base, rest)), last);
    }
  }

  lemma NothingSaid<L(!new), T(!new)>(base: T, layers: seq<L>, says: L -> Option<T>)
    requires layers == []
    ensures LastSaid(base, layers, says, base)
  {
  }

  function NonEmpty(s: string): Option<string> {
    if s != "" then Some(s) else None
  }

  function NonEmptyList(s: seq<string>): Option<seq<string>> {
    if |s| > 0 then Some(s) else None
  }

  function Positive(n: int): Option<int> {
    if n > 0 then Some(n) else None
  }

  function NonZero(n: int): Option<int> {
    if n != 0 then Some(n) else None
  }

  function Declared(b: Option<Block>): Option<Option<Block>> {
    if b.Some? then Some(b) else None
  }

  function ReconcileOf(e: Entry): Reconcile {
    match e.box.reconcile { case Some(r) => r case None => Reconcile(0, 0, 0, 0, None, None, None, None, None, "") }
  }

  function AdmissionOf(e: Entry): Admission {
    match e.admission { case Some(a) => a case None => Admission(None, None, None, "") }
  }

  function ProtectionOf(e: Entry): Protection {
    match e.box.runtime
    case Some(Runtime(Some(p), _, _, _, _)) => p
    case _ => Protection(None, None, None)
  }

  function StatusOf(e: Entry): Option<Block> {
    match e.box.emit { case Some(emit) => emit.status case None => None }
  }

  /** Kind and types together, file, namespace and dependencies: the last layer that declares them. */
  lemma NamesOverride(base: Entry, overs: seq<Entry>)
    ensures var m := Layered(base, overs);
      && LastSaid(base.kind, overs, (e: Entry) => NonEmpty(e.kind), m.kind)
      && LastSaid(base.types, overs, (e: Entry) => if e.kind != "" then Some(e.types) else None, m.types)
      && LastSaid(base.crdFile, overs, (e: Entry) => NonEmpty(e.crdFile), m.crdFile)
      && LastSaid(base.namespace, overs, (e: Entry) => NonEmpty(e.namespace), m.namespace)
      && LastSaid(base.dependsOn, overs, (e: Entry) => NonEmptyList(e.dependsOn), m.dependsOn)
  {
    hide LastSaid, Layered;
    LastLayerWins(base, overs, (e: Entry) => e.kind, (e: Entry) => NonEmpty(e.kind));
    LastLayerWins(base, overs, (e: Entry) => e.types, (e: Entry) => if e.kind != "" then Some(e.types) else None);
    LastLayerWins(base, overs, (e: Entry) => e.crdFile, (e: Entry) => NonEmpty(e.crdFile));
    LastLayerWins(base, overs, (e: Entry) => e.namespace, (e: Entry) => NonEmpty(e.namespace));
    LastLayerWins(base, overs, (e: Entry) => e.dependsOn, (e: Entry) => NonEmptyList(e.dependsOn));
  }

  /** The tuning values: the last layer with a positive one, for resync with one other than zero. */
  lemma TuningOverrides(base: Entry, overs: seq<Entry>)
    ensures var b, m := ReconcileOf(base), ReconcileOf(Layered(base, overs));
      && LastSaid(b.workers, overs, (e: Entry) => Positive(ReconcileOf(e).workers), m.workers)
      && LastSaid(b.resync, overs, (e: Entry) => NonZero(ReconcileOf(e).resync), m.resync)
      && LastSaid(b.maxDepth, overs, (e: Entry) => Positive(ReconcileOf(e).maxDepth), m.maxDepth)
      && LastSaid(b.failureThreshold, overs, (e: Entry) => Positive(ReconcileOf(e).failureThreshold),
        m.failureThreshold)
  {
    hide LastSaid, Layered, MergedRuntime, MergedEmit, MergedAdmission;
    LastLayerWins(base, overs, (e: Entry) => ReconcileOf(e).workers, (e: Entry) => Positive(ReconcileOf(e).workers));
    LastLayerWins(base, overs, (e: Entry) => ReconcileOf(e).resync, (e: Entry) => NonZero(ReconcileOf(e).resync));
    LastLayerWins(base, overs, (e: Entry) => ReconcileOf(e).maxDepth, (e: Entry) => Positive(ReconcileOf(e).maxDepth));
    LastLayerWins(base, overs, (e: Entry) => ReconcileOf(e).failureThreshold,
      (e: Entry) => Positive(ReconcileOf(e).failureThreshold));
  }

  /** The lifecycle blocks: the last layer that declares each. */
  lemma LifecycleOverrides(base: Entry, overs: seq<Entry>)
    ensures var b, m := ReconcileOf(base), ReconcileOf(Layered(base, overs));
      && LastSaid(b.onCreate, overs, (e: Entry) => Declared(ReconcileOf(e).onCreate), m.onCreate)
      && LastSaid(b.onReconcile, overs, (e: Entry) => Declared(ReconcileOf(e).onReconcile), m.onReconcile)
      && LastSaid(b.onDelete, overs, (e: Entry) => Declared(ReconcileOf(e).onDelete), m.onDelete)
      && LastSaid(b.hookFactory, overs, (e: Entry) => Declared(ReconcileOf(e).hookFactory), m.hookFactory)
      && LastSaid(b.constr, overs, (e: Entry) => Declared(ReconcileOf(e).constr), m.constr)
  {
    hide LastSaid, Layered, MergedRuntime, MergedEmit, MergedAdmission;
    LastLayerWins(base, overs, (e: Entry) => ReconcileOf(e).onCreate,
      (e: Entry) => Declared(ReconcileOf(e).onCreate));
    LastLayerWins(base, overs, (e: Entry) => ReconcileOf(e).onReconcile,
      (e: Entry) => Declared(ReconcileOf(e).onReconcile));
    LastLayerWins(base, overs, (e: Entry) => ReconcileOf(e).onDelete,
      (e: Entry) => Declared(ReconcileOf(e).onDelete));
    LastLayerWins(base, overs, (e: Entry) => ReconcileOf(e).hookFactory,
      (e: Entry) => Declared(ReconcileOf(e).hookFactory));
    LastLayerWins(base, overs, (e: Entry) => ReconcileOf(e).constr, (e: Entry) => Declared(ReconcileOf(e).constr));
  }

  /** Admission blocks and the status block: the last layer that declares each. */
  lemma AdmissionOverrides(base: Entry, overs: seq<Entry>)
    ensures var b, m := AdmissionOf(base), AdmissionOf(Layered(base, overs));
      && LastSaid(b.validation, overs, (e: Entry) => Declared(AdmissionOf(e).validation), m.validation)
      && LastSaid(b.mutation, overs, (e: Entry) => Declared(AdmissionOf(e).mutation), m.mutation)
      && LastSaid(b.conversion, overs, (e: Entry) => Declared(AdmissionOf(e).conversion), m.conversion)
    ensures LastSaid(StatusOf(base), overs, (e: Entry) => Declared(StatusOf(e)), StatusOf(Layered(base, overs)))
  {
    hide LastSaid, Layered, MergedRuntime, MergedReconcile;
    LastLayerWins(base, overs, (e: Entry) => AdmissionOf(e).validation,
      (e: Entry) => Declared(AdmissionOf(e).validation));
    LastLayerWins(base, overs, (e: Entry) => AdmissionOf(e).mutation, (e: Entry) => Declared(AdmissionOf(e).mutation));
    LastLayerWins(base, overs, (e: Entry) => AdmissionOf(e).conversion,
      (e: Entry) => Declared(AdmissionOf(e).conversion));
    LastLayerWins(base, overs, StatusOf, (e: Entry) => Declared(StatusOf(e)));
  }

  function Switch(b: Option<bool>): Option<Option<bool>> {
    if b.Some? then Some(b) else None
  }

  function SwitchedBy(b: Protection, o: Protection): Protection {
    Protection(if o.protectCrd.Some? then o.protectCrd else b.protectCrd,
      if o.protectCrs.Some? then o.protectCrs else b.protectCrs,
      if o.strictMode.Some? then o.strictMode else b.strictMode)
  }

  lemma ProtectionMerges(b: Entry, o: Entry)
    ensures ProtectionOf(Merged(b, o)) == SwitchedBy(ProtectionOf(b), ProtectionOf(o))
  {
    hide Added, MergedReconcile, MergedEmit, MergedAdmission;
  }

  /** The protection switches: the last layer that sets each. */
  lemma ProtectionOverrides(base: Entry, overs: seq<Entry>)
    ensures var b, m := ProtectionOf(base), ProtectionOf(Layered(base, overs));
      && LastSaid(b.protectCrd, overs, (e: Entry) => Switch(ProtectionOf(e).protectCrd), m.protectCrd)
      && LastSaid(b.protectCrs, overs, (e: Entry) => Switch(ProtectionOf(e).protectCrs), m.protectCrs)
      && LastSaid(b.strictMode, overs, (e: Entry) => Switch(ProtectionOf(e).strictMode), m.strictMode)
  {
    hide LastSaid, Layered, Merged, ProtectionOf;
    forall b, o ensures ProtectionOf(Merged(b, o)) == SwitchedBy(ProtectionOf(b), ProtectionOf(o)) {
      ProtectionMerges(b, o);
    }
    LastLayerWins(base, overs, (e: Entry) => ProtectionOf(e).protectCrd,
      (e: Entry) => Switch(ProtectionOf(e).protectCrd));
    LastLayerWins(base, overs, (e: Entry) => ProtectionOf(e).protectCrs,
      (e: Entry) => Switch(ProtectionOf(e).protectCrs));
    LastLayerWins(base, overs, (e: Entry) => ProtectionOf(e).strictMode,
      (e: Entry) => Switch(ProtectionOf(e).strictMode));
  }

  function RuntimeRest(e: Entry): Block {
    match e.box.runtime { case Some(r) => r.rest case None => "" }
  }

  function EmitRest(e: Entry): Block {
    match e.box.emit { case Some(emit) => emit.rest case None => "" }
  }

  /** The undeclared part of each nested block stays the base's, and is empty in a block that a layer created. */
  lemma {:induction false} LayersKeepRest(base: Entry, overs: seq<Entry>)
    ensures var m := Layered(base, overs);
      && ReconcileOf(m).rest == ReconcileOf(base).rest && AdmissionOf(m).rest == AdmissionOf(base).rest
      && RuntimeRest(m) == RuntimeRest(base) && EmitRest(m) == EmitRest(base)
  {
    if overs != [] {
      LayersKeepRest(base, overs[..|overs| - 1]);
    }
  }

  /** What no layer touches, and the endpoints, which each layer replaces that does not disable its own. */
  lemma {:induction false} LayersKeep(base: Entry, overs: seq<Entry>)
    ensures var m := Layered(base, overs);
      && m.name == base.name && m.description == base.description && m.version == base.version && m.rest == base.rest
      && m.box.rest == base.box.rest
      && LastSaid(base.endpoints, overs,
        (e: Entry) => if e.endpoints.enabled != Some(false) then Some(e.endpoints) else None, m.endpoints)
  {
    LastLayerWins(base, overs, (e: Entry) => e.endpoints,
      (e: Entry) => if e.endpoints.enabled != Some(false) then Some(e.endpoints) else None);
    hide LastSaid;
    if overs != [] {
      LayersKeep(base, overs[..|overs| - 1]);
    }
  }

  /** Layers can only switch a CRD off: one that says "on" has no effect on a base or layer that says "off". */
  lemma {:induction false} LayersOnlyTurnOff(base: Entry, overs: seq<Entry>)
    ensures Layered(base, overs).enabled != Some(false) <==>
      base.enabled != Some(false) && forall o :: o in overs ==> o.enabled != Some(false)
  {
    if overs != [] {
      var rest, last := overs[..|overs| - 1], overs[|overs| - 1];
      assert overs == rest + [last];
      LayersOnlyTurnOff(base, rest);
    }
  }

  ghost predicate SomeEndpointsOn(overs: seq<Entry>) {
    exists i :: 0 <= i < |overs| && On(overs[i].endpoints.enabled)
  }

  /** The base's endpoints survive exactly under layers that all disable theirs; their own settings are ignored then. */
  lemma {:induction false} LayersAndEndpoints(base: Entry, e: Endpoints, overs: seq<Entry>)
    ensures Layered(base.(endpoints := e), overs)
      == if SomeEndpointsOn(overs) then Layered(base, overs) else Layered(base, overs).(endpoints := e)
  {
    if overs != [] {
      var rest, last := overs[..|overs| - 1], overs[|overs| - 1];
      LayersAndEndpoints(base, e, rest);
      assert overs == rest + [last] && overs[|rest|] == last;
      assert SomeEndpointsOn(overs) <==> SomeEndpointsOn(rest) || On(last.endpoints.enabled);
      assert base.(endpoints := e).(endpoints := base.endpoints) == base;
    }
  }

  /**
  A layer that declares nothing should make no difference. It makes none exactly when the base has
  no endpoint settings to lose or a later layer sets them anyway.
  */
  lemma EmptyLayerHarmlessIff(base: Entry, overs: seq<Entry>)
    ensures Layered(base, [NOTHING] + overs) == Layered(base, overs) <==>
      base.endpoints == NO_ENDPOINTS || SomeEndpointsOn(overs)
  {
    hide Merged, Layered, SomeEndpointsOn;
    FirstLayer(base, NOTHING, overs);
    NothingInheritsExceptEndpoints(base);
    LayersAndEndpoints(base, NO_ENDPOINTS, overs);
    LayersAndEndpoints(base, base.endpoints, overs);
    assert base.(endpoints := base.endpoints) == base;
  }

  lemma {:induction false} FirstLayer(base: Entry, first: Entry, rest: seq<Entry>)
    ensures Layered(base, [first] + rest) == Layered(Merged(base, first), rest)
  {
    hide Merged, Layered;
    if rest == [] {
      LayeredStep(base, [], first);
      LayeredStep(Merged(base, first), [], first);
      assert [first] + rest == [] + [first];
    } else {
      var before, last := rest[..|rest| - 1], rest[|rest| - 1];
      assert rest == before + [last];
      FirstLayer(base, first, before);
      LayeredStep(base, [first] + before, last);
      LayeredStep(Merged(base, first), before, last);
      assert [first] + rest == ([first] + before) + [last];
    }
  }

  ghost function AllLists(overs: seq<Entry>): (set<string>, set<string>, set<string>) {
    if overs == [] then ({}, {}, {})
    else
      var rest, last := AllLists(overs[..|overs| - 1]), ListsOf(overs[|overs| - 1]);
      (rest.0 + Elems(last.0), rest.1 + Elems(last.1), rest.2 + Elems(last.2))
  }

  /**
  No layer removes a restricted or allowed namespace or a finalizer of the base, and none adds one
  nobody declared.
  */
  lemma {:induction false} LayersAreAdditive(base: Entry, overs: seq<Entry>)
    ensures var b, all, m := ListsOf(base), AllLists(overs), ListsOf(Layered(base, overs));
      && b.0 <= m.0 && b.1 <= m.1 && b.2 <= m.2
      && Elems(m.0) == Elems(b.0) + all.0 && Elems(m.1) == Elems(b.1) + all.1 && Elems(m.2) == Elems(b.2) + all.2
  {
    hide Merged, ListsOf, Elems;
    if overs != [] {
      var rest := overs[..|overs| - 1];
      LayersAreAdditive(base, rest);
      ListsAreAdditive(Layered(base, rest), overs[|overs| - 1]);
    }
  }

  // ---------------------------------------------------------------- security blocks

  /** certManager belongs to the block but is not among the merged fields. */
  datatype Security = Security(
    deletionProtection: Option<Block>, webhooks: Option<Block>, conversion: Option<Block>,
    namespaceProtection: Option<NamespaceProtection>, serviceName: Option<Block>, certManager: Option<Block>)

  datatype NamespaceProtection = NamespaceProtection(restricted: seq<string>, allowed: seq<string>)

  const NO_SECURITY := Security(None, None, None, None, None, None)

  function MergedSecurity(base: Security, over: Security): Security {
    Security(Prefer(base.deletionProtection, over.deletionProtection), Prefer(base.webhooks, over.webhooks),
             Prefer(base.conversion, over.conversion), Prefer(base.namespaceProtection, over.namespaceProtection),
             Prefer(base.serviceName, over.serviceName), base.certManager)
  }

  /** mergeCatalogSecurity: a local copy of the base, field by field. */
  method MergeCatalogSecurity(base: Security, over: Security) returns (result: Security)
    ensures result == MergedSecurity(base, over)
  {
    result := base;
    if over.deletionProtection.Some? {
      result := result.(deletionProtection := over.deletionProtection);
    }
    if over.webhooks.Some? {
      result := result.(webhooks := over.webhooks);
    }
    if over.conversion.Some? {
      result := result.(conversion := over.conversion);
    }
    if over.namespaceProtection.Some? {
      result := result.(namespaceProtection := over.namespaceProtection);
    }
    if over.serviceName.Some? {
      result := result.(serviceName := over.serviceName);
    }
  }

  /** The declared certificate manager is dropped; on the other five fields this is override algebra. */
  lemma SecurityAlgebra(a: Security, b: Security, c: Security)
    ensures MergedSecurity(MergedSecurity(a, b), c) == MergedSecurity(a, MergedSecurity(b, c))
    ensures MergedSecurity(MergedSecurity(a, b), b) == MergedSecurity(a, b)
    ensures MergedSecurity(a, NO_SECURITY) == a
    ensures MergedSecurity(NO_SECURITY, a) == a <==> a.certManager.None?
  {
  }
}
