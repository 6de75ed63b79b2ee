/**
The generated RBAC rules of a Catalog, read as the permissions they grant: the runtime rules
against the per-CRD attribution, and the gateway rules for each remote cluster.
*/
module Rbac {
  import opened Ordering
  import Paths

  datatype Rule = Rule(groups: seq<string>, resources: seq<string>, names: seq<string>, verbs: seq<string>)

  datatype Scope = AnyName | Named(name: string)

  datatype Permission = Permission(group: string, resource: string, scope: Scope, verb: string)

  function Scopes(names: seq<string>): set<Scope> {
    if names == [] then {AnyName} else set n | n in names :: Named(n)
  }

  /** Everything one policy rule allows. */
  function Grants(r: Rule): set<Permission> {
    set g, res, s, v | g in r.groups && res in r.resources && s in Scopes(r.names) && v in r.verbs ::
      Permission(g, res, s, v)
  }

  /** Everything a list of rules allows. */
  function Meaning(rules: seq<Rule>): set<Permission> {
    set r, p | r in rules && p in Grants(r) :: p
  }

  lemma MeaningConcat(a: seq<Rule>, b: seq<Rule>)
    ensures Meaning(a + b) == Meaning(a) + Meaning(b)
  {
  }

  lemma MeaningNone()
    ensures Meaning([]) == {}
  {
  }

  lemma MeaningOne(r: Rule)
    ensures Meaning([r]) == Grants(r)
  {
  }

  // ---------------------------------------------------------------- the Catalog, as far as RBAC reads it

  const DEFAULT_VERBS := ["get", "list", "watch", "create", "update", "patch", "delete"]
  const WATCH_VERBS := ["get", "list", "watch"]
  const STATUS_VERBS := ["get", "update", "patch"]
  const RBAC_GROUP := "rbac.authorization.k8s.io"

  datatype CustomEntry = CustomEntry(apiVersion: string, kind: string)

  datatype Serve = Serve(enabled: bool, clusters: seq<string>, targets: map<string, seq<string>>)

  datatype Crd = Crd(
    name: string, group: string, plural: string, kind: string, builtIn: bool,
    hooks: seq<string>,            // managed resources declared under hooks,
    constructed: seq<string>,      // under the constructor,
    remote: seq<string>,           // and under the remote reconciler; empty when not declared
    watched: seq<string>,
    updatesCaBundle: bool,
    custom: seq<CustomEntry>,      // onCreate, then onReconcile
    serve: Option<Serve>)

  datatype BuiltIn = BuiltIn(group: string, plural: string, detect: Option<Crd -> bool>)

  datatype Gvr = Gvr(group: string, resource: string)

  /** The registry tables and the resource lookup, given. */
  datatype Registry = Registry(builtIns: seq<BuiltIn>, resolve: string -> Option<Gvr>, lower: string -> string)

  function RbacVerbsFor(group: string, plural: string): seq<string> {
    if group == RBAC_GROUP && (plural == "roles" || plural == "clusterroles") then DEFAULT_VERBS + ["escalate", "bind"]
    else DEFAULT_VERBS
  }

  function Plain(group: string, resource: string, verbs: seq<string>): Rule {
    Rule([group], [resource], [], verbs)
  }

  lemma PlainGrants(group: string, resource: string, verbs: seq<string>)
    ensures Grants(Plain(group, resource, verbs)) == set v | v in verbs :: Permission(group, resource, AnyName, v)
  {
  }

  // ---------------------------------------------------------------- what each part grants

  function MainRules(crd: Crd): seq<Rule> {
    [Plain(crd.group, crd.plural, DEFAULT_VERBS), Plain(crd.group, crd.plural + "/status", STATUS_VERBS)]
  }

  function CaBundleRule(crd: Crd): Rule {
    Rule(["apiextensions.k8s.io"], ["customresourcedefinitions"], [crd.plural + "." + crd.group], ["patch"])
  }

  ghost function ResourceMeaning(reg: Registry, resources: seq<string>, verbs: seq<string>): set<Permission> {
    set r, p | r in resources && reg.resolve(r).Some? &&
      p in Grants(Plain(reg.resolve(r).value.group, reg.resolve(r).value.resource, verbs)) :: p
  }

  ghost function TypedMeaning(reg: Registry, crd: Crd): set<Permission> {
    ResourceMeaning(reg, crd.hooks, DEFAULT_VERBS) + ResourceMeaning(reg, crd.constructed, DEFAULT_VERBS)
    + ResourceMeaning(reg, crd.remote, DEFAULT_VERBS) + ResourceMeaning(reg, crd.watched, WATCH_VERBS)
  }

  predicate Detects(b: BuiltIn, crd: Crd) {
    b.detect.Some? && b.detect.value(crd)
  }

  ghost function BuiltInMeaning(reg: Registry, crd: Crd): set<Permission> {
    set b, p | b in reg.builtIns && Detects(b, crd) && p in Grants(Plain(b.group, b.plural, DEFAULT_VERBS)) :: p
  }

  /** schema.ParseGroupVersion, its group only: at most one slash is allowed. */
  function ParseGroup(apiVersion: string): (g: Option<string>)
    ensures g.Some? ==> '/' !in g.value
  {
    var k := Paths.Find(apiVersion, '/');
    if apiVersion == "/" || k == |apiVersion| then Some("")
    else if '/' in apiVersion[k + 1..] then None
    else Some(apiVersion[..k])
  }

  /** The rule of one custom: entry, or none when the entry is incomplete or malformed. */
  function CustomRule(reg: Registry, e: CustomEntry): Option<Rule> {
    if e.apiVersion == "" || e.kind == "" then None
    else match ParseGroup(e.apiVersion)
      case None => None
      case Some(g) => Some(Plain(g, reg.lower(e.kind) + "s", DEFAULT_VERBS))
  }

  ghost function CustomMeaning(reg: Registry, entries: seq<CustomEntry>): set<Permission> {
    set e, p | e in entries && CustomRule(reg, e).Some? && p in Grants(CustomRule(reg, e).value) :: p
  }

  /** What a CRD needs at run time, apart from its own main and status resources. */
  ghost function SideMeaning(reg: Registry, crd: Crd): set<Permission> {
    TypedMeaning(reg, crd) + BuiltInMeaning(reg, crd) + CustomMeaning(reg, crd.custom)
  }

  // ---------------------------------------------------------------- deduplication of custom rules

  ghost predicate IsCustomRule(r: Rule) {
    |r.groups| == 1 && |r.resources| == 1 && '/' !in r.groups[0] &&
      r == Plain(r.groups[0], r.resources[0], DEFAULT_VERBS)
  }

  /** strings.Join(groups, ",") + "/" + strings.Join(resources, ","). */
  function JoinComma(parts: seq<string>): string {
    if parts == [] then "" else if |parts| == 1 then parts[0] else parts[0] + "," + JoinComma(parts[1..])
  }

  function DedupKey(r: Rule): string {
    JoinComma(r.groups) + "/" + JoinComma(r.resources)
  }

  /** A group has no slash, so the key determines the rule. */
  lemma DedupKeyInjective(a: Rule, b: Rule)
    requires IsCustomRule(a) && IsCustomRule(b) && DedupKey(a) == DedupKey(b)
    ensures a == b
  {
    var k := DedupKey(a);
    Paths.FindAfter(a.groups[0], '/', a.resources[0]);
    Paths.FindAfter(b.groups[0], '/', b.resources[0]);
    assert k[..|a.groups[0]|] == a.groups[0] == b.groups[0];
    assert k[|a.groups[0]| + 1..] == a.resources[0] == b.resources[0];
  }

  /** `rules` keeps one copy of everything seen, and `seen` holds exactly its keys. */
  ghost predicate Deduped(rules: seq<Rule>, seen: set<string>, all: set<Permission>) {
    && (forall r :: r in rules ==> IsCustomRule(r))
    && seen == (set r | r in rules :: DedupKey(r))
    && Meaning(rules) == all
  }

  lemma DedupStep(rules: seq<Rule>, seen: set<string>, all: set<Permission>, r: Rule)
    requires Deduped(rules, seen, all) && IsCustomRule(r)
    ensures if DedupKey(r) in seen then Deduped(rules, seen, all + Grants(r))
            else Deduped(rules + [r], seen + {DedupKey(r)}, all + Grants(r))
  {
    if DedupKey(r) in seen {
      var q :| q in rules && DedupKey(q) == DedupKey(r);
      DedupKeyInjective(q, r);
      assert all + Grants(r) == all;
    } else {
      MeaningConcat(rules, [r]);
      MeaningOne(r);
    }
  }

  // ---------------------------------------------------------------- the generators

  method ResourceRules(reg: Registry, resources: seq<string>, verbs: seq<string>) returns (rules: seq<Rule>)
    ensures Meaning(rules) == ResourceMeaning(reg, resources, verbs)
  {
    rules := [];
    for i := 0 to |resources|
      invariant Meaning(rules) == ResourceMeaning(reg, resources[..i], verbs)
    {
      var gvr := reg.resolve(resources[i]);
      ResourceMeaningStep(reg, resources, i, verbs);
      if gvr.Some? {
        var rule := Plain(gvr.value.group, gvr.value.resource, verbs);
        MeaningConcat(rules, [rule]);
        MeaningOne(rule);
        rules := rules + [rule];
      }
    }
    assert resources[..|resources|] == resources;
  }

  lemma ResourceMeaningStep(reg: Registry, resources: seq<string>, i: nat, verbs: seq<string>)
    requires i < |resources|
    ensures var gvr := reg.resolve(resources[i]);
      ResourceMeaning(reg, resources[..i + 1], verbs) == ResourceMeaning(reg, resources[..i], verbs)
        + if gvr.Some? then Grants(Plain(gvr.value.group, gvr.value.resource, verbs)) else {}
  {
    assert resources[..i + 1] == resources[..i] + [resources[i]];
  }

  /** customRBACRulesForCRD: one rule per distinct group and plural. */
  method CustomRulesForCrd(reg: Registry, crd: Crd) returns (rules: seq<Rule>)
    ensures forall r :: r in rules ==> IsCustomRule(r)
    ensures Meaning(rules) == CustomMeaning(reg, crd.custom)
    ensures forall i, j :: 0 <= i < j < |rules| ==> DedupKey(rules[i]) != DedupKey(rules[j])
  {
    rules := [];
    var seen: set<string> := {};
    for i := 0 to |crd.custom|
      invariant Deduped(rules, seen, CustomMeaning(reg, crd.custom[..i]))
      invariant forall a, b :: 0 <= a < b < |rules| ==> DedupKey(rules[a]) != DedupKey(rules[b])
    {
      CustomMeaningStep(reg, crd.custom, i);
      var rule := CustomRule(reg, crd.custom[i]);
      if rule.None? {
        continue;
      }
      var key := DedupKey(rule.value);
      DedupStep(rules, seen, CustomMeaning(reg, crd.custom[..i]), rule.value);
      if key in seen {
        continue;
      }
      seen := seen + {key};
      rules := rules + [rule.value];
    }
    assert crd.custom[..|crd.custom|] == crd.custom;
  }

  lemma CustomMeaningStep(reg: Registry, entries: seq<CustomEntry>, i: nat)
    requires i < |entries|
    ensures var r := CustomRule(reg, entries[i]);
      && (r.Some? ==> IsCustomRule(r.value))
      && CustomMeaning(reg, entries[..i + 1]) == CustomMeaning(reg, entries[..i]) + if r.Some? then
        Grants(r.value) else {}
  {
    assert entries[..i + 1] == entries[..i] + [entries[i]];
  }

  // ---------------------------------------------------------------- over the enabled CRDs

  ghost function Union(enabled: map<string, Crd>, names: set<string>, f: Crd -> set<Permission>): set<Permission> {
    set n, p | n in names && n in enabled && p in f(enabled[n]) :: p
  }

  lemma UnionStep(enabled: map<string, Crd>, names: set<string>, n: string, f: Crd -> set<Permission>)
    requires n in enabled
    ensures Union(enabled, names + {n}, f) == Union(enabled, names, f) + f(enabled[n])
  {
  }

  /** customResourceRBACRules: the rules of all CRDs, each key once. */
  method CustomResourceRules(reg: Registry, enabled: map<string, Crd>) returns (rules: seq<Rule>)
    ensures Meaning(rules) == Union(enabled, enabled.Keys, (crd: Crd) => CustomMeaning(reg, crd.custom))
  {
    ghost var f := (crd: Crd) => CustomMeaning(reg, crd.custom);
    rules := [];
    var seen: set<string> := {};
    var todo := enabled.Keys;
    ghost var done: set<string> := {};
    while todo != {}
      invariant todo !! done && todo + done == enabled.Keys
      invariant Deduped(rules, seen, Union(enabled, done, f))
    {
      var name :| name in todo;
      var own := CustomRulesForCrd(reg, enabled[name]);
      UnionStep(enabled, done, name, f);
      rules, seen := AppendDeduped(rules, seen, own, Union(enabled, done, f));
      todo, done := todo - {name}, done + {name};
    }
  }

  method AppendDeduped(rules: seq<Rule>, seen: set<string>, more: seq<Rule>, ghost all: set<Permission>)
    returns (rules': seq<Rule>, seen': set<string>)
    requires Deduped(rules, seen, all) && forall r :: r in more ==> IsCustomRule(r)
    ensures Deduped(rules', seen', all + Meaning(more))
  {
    hide Deduped, Meaning, Grants, IsCustomRule, DedupKey;
    rules', seen' := rules, seen;
    MeaningNone();
    assert all + {} == all;
    for i := 0 to |more|
      invariant Deduped(rules', seen', all + Meaning(more[..i]))
    {
      var rule := more[i];
      assert more[..i + 1] == more[..i] + [rule];
      MeaningConcat(more[..i], [rule]);
      MeaningOne(rule);
      DedupStep(rules', seen', all + Meaning(more[..i]), rule);
      if DedupKey(rule) !in seen' {
        seen' := seen' + {DedupKey(rule)};
        rules' := rules' + [rule];
      }
      assert all + Meaning(more[..i]) + Grants(rule) == all + Meaning(more[..i + 1]);
    }
    assert more[..|more|] == more;
  }

  predicate IsTemplate(s: string) {
    exists i :: 0 <= i < |s| - 1 && s[i] == '{' && s[i + 1] == '{'
  }

  /** secretNamesFrom: the static names in order, and whether any name is a template. */
  method SecretNamesFrom(refs: seq<Option<string>>) returns (names: seq<string>, hasTemplate: bool)
    ensures forall n :: n in names <==> Some(n) in refs && !IsTemplate(n)
    ensures hasTemplate <==> exists n :: Some(n) in refs && IsTemplate(n)
  {
    names, hasTemplate := [], false;
    for i := 0 to |refs|
      invariant forall n :: n in names <==> Some(n) in refs[..i] && !IsTemplate(n)
      invariant hasTemplate <==> exists n :: Some(n) in refs[..i] && IsTemplate(n)
    {
      assert refs[..i + 1] == refs[..i] + [refs[i]];
      if refs[i].None? {
        continue;
      }
      if IsTemplate(refs[i].value) {
        hasTemplate := true;
      } else {
        names := names + [refs[i].value];
      }
    }
    assert refs[..|refs|] == refs;
  }

  const BASE_RULES := [
    Rule(["coordination.k8s.io"], ["leases"], [], ["get", "create", "update"]),
    Rule([""], ["events"], [], ["create", "patch"])]

  /** Leases, events, and get on each referenced secret; on all secrets once a name is a template. */
  ghost function SystemMeaning(ext: seq<Option<string>>, remote: seq<Option<string>>): set<Permission> {
    Meaning(BASE_RULES)
    + (set r | r in ext + remote && r.Some? && !IsTemplate(r.value) :: Permission("", "secrets", Named(r.value), "get"))
    + if exists n :: Some(n) in ext + remote && IsTemplate(n) then {Permission("", "secrets", AnyName, "get")} else {}
  }

  /** The scoped rule for the static names, if there are any. */
  method StaticSecretRules(names: seq<string>) returns (rules: seq<Rule>)
    ensures Meaning(rules) == set n | n in names :: Permission("", "secrets", Named(n), "get")
  {
    MeaningNone();
    rules := [];
    if |names| > 0 {
      var rule := Rule([""], ["secrets"], names, ["get"]);
      MeaningOne(rule);
      NamedSecrets(names);
      rules := [rule];
    }
  }

  method AnySecretRules(hasTemplate: bool) returns (rules: seq<Rule>)
    ensures Meaning(rules) == if hasTemplate then {Permission("", "secrets", AnyName, "get")} else {}
  {
    MeaningNone();
    rules := [];
    if hasTemplate {
      var rule := Plain("", "secrets", ["get"]);
      MeaningOne(rule);
      PlainGrants("", "secrets", ["get"]);
      rules := [rule];
    }
  }

  method SystemRules(ext: seq<Option<string>>, remote: seq<Option<string>>) returns (rules: seq<Rule>)
    ensures Meaning(rules) == SystemMeaning(ext, remote)
  {
    hide Meaning, Grants, IsTemplate;
    var extNames, extTemplate := SecretNamesFrom(ext);
    var remoteNames, remoteTemplate := SecretNamesFrom(remote);
    var allStatic := extNames + remoteNames;
    forall n ensures n in allStatic <==> Some(n) in ext + remote && !IsTemplate(n) {
    }
    var scoped := StaticSecretRules(allStatic);
    var any := AnySecretRules(extTemplate || remoteTemplate);
    rules := BASE_RULES + scoped + any;
    MeaningConcat(BASE_RULES, scoped);
    MeaningConcat(BASE_RULES + scoped, any);
  }

  lemma NamedSecrets(names: seq<string>)
    requires names != []
    ensures Grants(Rule([""], ["secrets"], names, ["get"])) == set n | n in names ::
      Permission("", "secrets", Named(n), "get")
  {
  }

  // ---------------------------------------------------------------- runtime rules

  ghost function RuntimeMain(crd: Crd): set<Permission> {
    if (crd.group == "" || crd.plural == "") && !crd.builtIn then {} else Meaning(MainRules(crd))
  }

  /** A built-in kind some enabled CRD uses, with the verbs rbacVerbsFor gives it. */
  ghost function DetectedMeaning(reg: Registry, enabled: map<string, Crd>): set<Permission> {
    set b, n, p | b in reg.builtIns && n in enabled && Detects(b, enabled[n]) &&
      p in Grants(Plain(b.group, b.plural, RbacVerbsFor(b.group, b.plural))) :: p
  }

  method MainRuntimeRules(enabled: map<string, Crd>) returns (rules: seq<Rule>)
    ensures Meaning(rules) == Union(enabled, enabled.Keys, RuntimeMain)
    ensures forall p :: p in Meaning(rules) <==> exists n :: n in enabled && RuntimeMainNeed(enabled[n], p)
  {
    hide Meaning, MainRules, RuntimeMainNeed;
    MeaningNone();
    rules := [];
    var todo := enabled.Keys;
    ghost var done: set<string> := {};
    while todo != {}
      invariant todo !! done && todo + done == enabled.Keys
      invariant Meaning(rules) == Union(enabled, done, RuntimeMain)
    {
      var name :| name in todo;
      var crd := enabled[name];
      UnionStep(enabled, done, name, RuntimeMain);
      todo, done := todo - {name}, done + {name};
      if crd.group == "" || crd.plural == "" {
        if !crd.builtIn {
          continue;
        }
      }
      MeaningConcat(rules, MainRules(crd));
      rules := rules + MainRules(crd);
    }
    MainUnion(enabled);
  }

  lemma MainUnion(enabled: map<string, Crd>)
    ensures forall p ::
      p in Union(enabled, enabled.Keys, RuntimeMain) <==> exists n :: n in enabled && RuntimeMainNeed(enabled[n], p)
  {
    hide Meaning, MainRules, MainNeed;
    forall p
      ensures p in Union(enabled, enabled.Keys, RuntimeMain) <==>
        exists n :: n in enabled && RuntimeMainNeed(enabled[n], p)
    {
      forall n | n in enabled ensures p in RuntimeMain(enabled[n]) <==> RuntimeMainNeed(enabled[n], p) {
        MainPermissions(enabled[n], p);
      }
      UnionIff(enabled, RuntimeMain, crd => RuntimeMainNeed(crd, p), p);
    }
  }

  method TypedRulesOf(reg: Registry, crd: Crd) returns (rules: seq<Rule>)
    ensures Meaning(rules) == TypedMeaning(reg, crd)
  {
    var hooks := ResourceRules(reg, crd.hooks, DEFAULT_VERBS);
    var constructed := ResourceRules(reg, crd.constructed, DEFAULT_VERBS);
    var remote := ResourceRules(reg, crd.remote, DEFAULT_VERBS);
    var watched := ResourceRules(reg, crd.watched, WATCH_VERBS);
    rules := hooks + constructed + remote + watched;
    MeaningConcat(hooks, constructed);
    MeaningConcat(hooks + constructed, remote);
    MeaningConcat(hooks + constructed + remote, watched);
  }

  method TypedRules(reg: Registry, enabled: map<string, Crd>) returns (rules: seq<Rule>)
    ensures Meaning(rules) == Union(enabled, enabled.Keys, (crd: Crd) => TypedMeaning(reg, crd))
  {
    ghost var f := (crd: Crd) => TypedMeaning(reg, crd);
    rules := [];
    var todo := enabled.Keys;
    ghost var done: set<string> := {};
    while todo != {}
      invariant todo !! done && todo + done == enabled.Keys
      invariant Meaning(rules) == Union(enabled, done, f)
    {
      var name :| name in todo;
      var own := TypedRulesOf(reg, enabled[name]);
      UnionStep(enabled, done, name, f);
      MeaningConcat(rules, own);
      rules := rules + own;
      todo, done := todo - {name}, done + {name};
    }
  }

  method AnyDetects(b: BuiltIn, enabled: map<string, Crd>) returns (found: bool)
    ensures found <==> exists n :: n in enabled && Detects(b, enabled[n])
  {
    var todo := enabled.Keys;
    while todo != {}
      invariant todo <= enabled.Keys
      invariant forall n :: n in enabled.Keys - todo ==> !Detects(b, enabled[n])
    {
      var name :| name in todo;
      if Detects(b, enabled[name]) {
        return true;
      }
      todo := todo - {name};
    }
    found := false;
  }

  method BuiltInRules(reg: Registry, enabled: map<string, Crd>) returns (rules: seq<Rule>)
    ensures Meaning(rules) == DetectedMeaning(reg, enabled)
  {
    rules := [];
    for i := 0 to |reg.builtIns|
      invariant Meaning(rules) == DetectedMeaning(reg.(builtIns := reg.builtIns[..i]), enabled)
    {
      var b := reg.builtIns[i];
      DetectedStep(reg, enabled, i);
      var found := AnyDetects(b, enabled);
      if found {
        var rule := Plain(b.group, b.plural, RbacVerbsFor(b.group, b.plural));
        MeaningConcat(rules, [rule]);
        MeaningOne(rule);
        rules := rules + [rule];
      }
    }
    assert reg.builtIns[..|reg.builtIns|] == reg.builtIns;
  }

  lemma DetectedStep(reg: Registry, enabled: map<string, Crd>, i: nat)
    requires i < |reg.builtIns|
    ensures var b := reg.builtIns[i];
      DetectedMeaning(reg.(builtIns := reg.builtIns[..i + 1]), enabled)
      == DetectedMeaning(reg.(builtIns := reg.builtIns[..i]), enabled)
         + if exists n :: n in enabled && Detects(b, enabled[n])
           then Grants(Plain(b.group, b.plural, RbacVerbsFor(b.group, b.plural))) else {}
  {
    assert reg.builtIns[..i + 1] == reg.builtIns[..i] + [reg.builtIns[i]];
  }

  /** GenerateRuntimeRBACRules. */
  method GenerateRuntimeRules(reg: Registry, enabled: map<string, Crd>, ext: seq<Option<string>>,
      remote: seq<Option<string>>)
    returns (rules: seq<Rule>)
    ensures Meaning(rules) == RuntimeMeaning(reg, enabled, ext, remote)
    ensures forall p :: p in Meaning(rules) <==>
      SystemNeed(ext + remote, p) || exists n :: n in enabled && RuntimeNeed(reg, enabled[n], p)
  {
    var system := SystemRules(ext, remote);
    var main := MainRuntimeRules(enabled);
    var typed := TypedRules(reg, enabled);
    var builtIn := BuiltInRules(reg, enabled);
    var custom := CustomResourceRules(reg, enabled);
    hide *;
    rules := system + main + typed + builtIn + custom;
    MeaningConcat(system, main);
    MeaningConcat(system + main, typed);
    MeaningConcat(system + main + typed, builtIn);
    MeaningConcat(system + main + typed + builtIn, custom);
    RuntimeMeaningParts(reg, enabled, ext, remote);
    forall p
      ensures p in Meaning(rules) <==>
        SystemNeed(ext + remote, p) || exists n :: n in enabled && RuntimeNeed(reg, enabled[n], p)
    {
      RuntimePermissions(reg, enabled, ext, remote, p);
    }
  }

  lemma RuntimeMeaningParts(reg: Registry, enabled: map<string, Crd>, ext: seq<Option<string>>,
      remote: seq<Option<string>>)
    ensures RuntimeMeaning(reg, enabled, ext, remote) == SystemMeaning(ext, remote)
      + Union(enabled, enabled.Keys, RuntimeMain) + Union(enabled, enabled.Keys, (crd: Crd) => TypedMeaning(reg, crd))
      + DetectedMeaning(reg, enabled) + Union(enabled, enabled.Keys, (crd: Crd) => CustomMeaning(reg, crd.custom))
  {
  }

  // ---------------------------------------------------------------- per-CRD rules

  predicate Routable(crd: Crd) {
    crd.group != "" || crd.builtIn
  }

  /** The permissions attributed to one CRD, apart from patching its CA bundle. */
  ghost function Attributed(reg: Registry, crd: Crd): set<Permission> {
    (if Routable(crd) && crd.plural != "" then Meaning(MainRules(crd)) else {}) + SideMeaning(reg, crd)
  }

  ghost function CaBundleMeaning(crd: Crd): set<Permission> {
    if Routable(crd) && crd.updatesCaBundle then Grants(CaBundleRule(crd)) else {}
  }

  method OwnMainRules(crd: Crd) returns (rules: seq<Rule>)
    ensures Meaning(rules) == (if Routable(crd) &&
      crd.plural != "" then Meaning(MainRules(crd)) else {}) + CaBundleMeaning(crd)
  {
    rules := [];
    if crd.group != "" || crd.builtIn {
      if crd.plural != "" {
        rules := rules + MainRules(crd);
      }
      if crd.updatesCaBundle {
        MeaningConcat(rules, [CaBundleRule(crd)]);
        MeaningOne(CaBundleRule(crd));
        rules := rules + [CaBundleRule(crd)];
      }
    }
  }

  /** The rule list of one CRD in GeneratePerCRDRBACRules. */
  method PerCrdRules(reg: Registry, crd: Crd) returns (rules: seq<Rule>)
    ensures Meaning(rules) == Attributed(reg, crd) + CaBundleMeaning(crd)
    ensures forall p :: p in Meaning(rules) <==> CrdNeed(reg, crd, p)
  {
    hide Meaning, TypedMeaning, BuiltInMeaning, CustomMeaning, CaBundleMeaning, MainRules, IsCustomRule, DedupKey;
    hide CrdNeed;
    var main := OwnMainRules(crd);
    var typed := TypedRulesOf(reg, crd);
    var builtIn := OwnBuiltInRules(reg, crd);
    var custom := CustomRulesForCrd(reg, crd);
    rules := main + typed + builtIn + custom;
    MeaningConcat(main, typed);
    MeaningConcat(main + typed, builtIn);
    MeaningConcat(main + typed + builtIn, custom);
    forall p ensures p in Meaning(rules) <==> CrdNeed(reg, crd, p) {
      CrdPermissions(reg, crd, p);
    }
  }

  method OwnBuiltInRules(reg: Registry, crd: Crd) returns (rules: seq<Rule>)
    ensures Meaning(rules) == BuiltInMeaning(reg, crd)
  {
    rules := [];
    for i := 0 to |reg.builtIns|
      invariant Meaning(rules) == BuiltInMeaning(reg.(builtIns := reg.builtIns[..i]), crd)
    {
      var b := reg.builtIns[i];
      BuiltInStep(reg, crd, i);
      if Detects(b, crd) {
        var rule := Plain(b.group, b.plural, DEFAULT_VERBS);
        MeaningConcat(rules, [rule]);
        MeaningOne(rule);
        rules := rules + [rule];
      }
    }
    assert reg.builtIns[..|reg.builtIns|] == reg.builtIns;
  }

  lemma BuiltInStep(reg: Registry, crd: Crd, i: nat)
    requires i < |reg.builtIns|
    ensures var b := reg.builtIns[i];
      BuiltInMeaning(reg.(builtIns := reg.builtIns[..i + 1]), crd)
      == BuiltInMeaning(reg.(builtIns := reg.builtIns[..i]), crd)
         + if Detects(b, crd) then Grants(Plain(b.group, b.plural, DEFAULT_VERBS)) else {}
  {
    assert reg.builtIns[..i + 1] == reg.builtIns[..i] + [reg.builtIns[i]];
  }

  method GeneratePerCrdRules(reg: Registry, enabled: map<string, Crd>) returns (result: map<string, seq<Rule>>)
    ensures result.Keys == enabled.Keys
    ensures forall n :: n in enabled ==> Meaning(result[n]) == Attributed(reg, enabled[n]) + CaBundleMeaning(enabled[n])
    ensures forall n, p :: n in enabled ==> (p in Meaning(result[n]) <==> CrdNeed(reg, enabled[n], p))
  {
    hide Attributed, CaBundleMeaning, Meaning, CrdNeed;
    result := map[];
    var todo := enabled.Keys;
    while todo != {}
      invariant todo <= enabled.Keys && result.Keys == enabled.Keys - todo
      invariant forall n :: n in result ==>
        Meaning(result[n]) == Attributed(reg, enabled[n]) + CaBundleMeaning(enabled[n])
      invariant forall n, p :: n in result ==> (p in Meaning(result[n]) <==> CrdNeed(reg, enabled[n], p))
    {
      var name :| name in todo;
      var rules := PerCrdRules(reg, enabled[name]);
      result := result[name := rules];
      todo := todo - {name};
    }
  }

  // ---------------------------------------------------------------- the generators agree

  /** escalate and bind, for roles and clusterroles only. */
  ghost function Escalation(b: BuiltIn): set<Permission> {
    if b.group == RBAC_GROUP && (b.plural == "roles" || b.plural == "clusterroles")
    then {Permission(b.group, b.plural, AnyName, "escalate"), Permission(b.group, b.plural, AnyName, "bind")}
    else {}
  }

  ghost function EscalationMeaning(reg: Registry, enabled: map<string, Crd>): set<Permission> {
    set b, n, p | b in reg.builtIns && n in enabled && Detects(b, enabled[n]) && p in Escalation(b) :: p
  }

  /** Guaranteed by the defaults pass, which fills in a missing plural. */
  ghost predicate BuiltInsHavePlurals(enabled: map<string, Crd>) {
    forall n :: n in enabled && enabled[n].builtIn ==> enabled[n].plural != ""
  }

  lemma RbacVerbsMeaning(b: BuiltIn)
    ensures Grants(Plain(b.group, b.plural, RbacVerbsFor(b.group, b.plural)))
      == Grants(Plain(b.group, b.plural, DEFAULT_VERBS)) + Escalation(b)
  {
    PlainGrants(b.group, b.plural, RbacVerbsFor(b.group, b.plural));
    PlainGrants(b.group, b.plural, DEFAULT_VERBS);
  }

  lemma InUnion(enabled: map<string, Crd>, n: string, f: Crd -> set<Permission>, p: Permission)
    requires n in enabled && p in f(enabled[n])
    ensures p in Union(enabled, enabled.Keys, f)
  {
  }

  lemma DetectedIsOwnPlusEscalation(reg: Registry, enabled: map<string, Crd>)
    ensures DetectedMeaning(reg, enabled)
      == Union(enabled, enabled.Keys, (crd: Crd) => BuiltInMeaning(reg, crd)) + EscalationMeaning(reg, enabled)
  {
    hide Grants, RbacVerbsFor, Escalation;
    var own := Union(enabled, enabled.Keys, (crd: Crd) => BuiltInMeaning(reg, crd));
    forall p | p in DetectedMeaning(reg, enabled) ensures p in own + EscalationMeaning(reg, enabled) {
      var b, n :| b in reg.builtIns && n in enabled && Detects(b, enabled[n])
        && p in Grants(Plain(b.group, b.plural, RbacVerbsFor(b.group, b.plural)));
      RbacVerbsMeaning(b);
      if p in BuiltInMeaning(reg, enabled[n]) {
        InUnion(enabled, n, (crd: Crd) => BuiltInMeaning(reg, crd), p);
      } else {
        assert p in Escalation(b);
      }
    }
    forall p | p in own ensures p in DetectedMeaning(reg, enabled) {
      var n :| n in enabled && p in BuiltInMeaning(reg, enabled[n]);
      var b :| b in reg.builtIns && Detects(b, enabled[n]) && p in Grants(Plain(b.group, b.plural, DEFAULT_VERBS));
      RbacVerbsMeaning(b);
    }
    forall p | p in EscalationMeaning(reg, enabled) ensures p in DetectedMeaning(reg, enabled) {
      var b, n :| b in reg.builtIns && n in enabled && Detects(b, enabled[n]) && p in Escalation(b);
      RbacVerbsMeaning(b);
    }
  }

  lemma UnionOfParts(enabled: map<string, Crd>, f: Crd -> set<Permission>, g: Crd -> set<Permission>,
      h: Crd -> set<Permission>)
    requires forall n :: n in enabled ==> h(enabled[n]) == f(enabled[n]) + g(enabled[n])
    ensures Union(enabled, enabled.Keys, h) == Union(enabled, enabled.Keys, f) + Union(enabled, enabled.Keys, g)
  {
  }

  /**
  Beyond the system rules, the runtime rules grant what the CRDs are attributed, plus escalate and
  bind exactly where roles or clusterroles are detected.
  */
  lemma RuntimeMatchesAttribution(reg: Registry, enabled: map<string, Crd>)
    requires BuiltInsHavePlurals(enabled)
    ensures Union(enabled, enabled.Keys, RuntimeMain)
      + Union(enabled, enabled.Keys, (crd: Crd) => TypedMeaning(reg, crd))
      + DetectedMeaning(reg, enabled) + Union(enabled, enabled.Keys, (crd: Crd) => CustomMeaning(reg, crd.custom))
      == Union(enabled, enabled.Keys, (crd: Crd) => Attributed(reg, crd)) + EscalationMeaning(reg, enabled)
  {
    var typed := (crd: Crd) => TypedMeaning(reg, crd);
    var builtIn := (crd: Crd) => BuiltInMeaning(reg, crd);
    var custom := (crd: Crd) => CustomMeaning(reg, crd.custom);
    var mainTyped := (crd: Crd) => RuntimeMain(crd) + TypedMeaning(reg, crd);
    var mainTypedBuiltIn := (crd: Crd) => RuntimeMain(crd) + TypedMeaning(reg, crd) + BuiltInMeaning(reg, crd);
    var all := (crd: Crd) => Attributed(reg, crd);
    hide Meaning, TypedMeaning, BuiltInMeaning, CustomMeaning, MainRules, DetectedMeaning, EscalationMeaning, Union;
    DetectedIsOwnPlusEscalation(reg, enabled);
    UnionOfParts(enabled, RuntimeMain, typed, mainTyped);
    UnionOfParts(enabled, mainTyped, builtIn, mainTypedBuiltIn);
    UnionOfParts(enabled, mainTypedBuiltIn, custom, all);
  }

  // ---------------------------------------------------------------- the permissions, one by one

  /** Reading, writing and deleting every object of a resource. */
  ghost predicate MayManage(p: Permission, group: string, resource: string) {
    && p.group == group && p.resource == resource && p.scope == AnyName
    && p.verb in {"get", "list", "watch", "create", "update", "patch", "delete"}
  }

  ghost predicate MayWatch(p: Permission, group: string, resource: string) {
    p.group == group && p.resource == resource && p.scope == AnyName && p.verb in {"get", "list", "watch"}
  }

  /** Its own resource, and reading and updating its status. */
  ghost predicate MainNeed(crd: Crd, p: Permission) {
    || MayManage(p, crd.group, crd.plural)
    || (p.group == crd.group && p.resource == crd.plural + "/status" && p.scope == AnyName
        && p.verb in {"get", "update", "patch"})
  }

  lemma MainPermissions(crd: Crd, p: Permission)
    ensures p in Meaning(MainRules(crd)) <==> MainNeed(crd, p)
  {
    MeaningConcat([MainRules(crd)[0]], [MainRules(crd)[1]]);
    MeaningOne(MainRules(crd)[0]);
    MeaningOne(MainRules(crd)[1]);
    assert MainRules(crd) == [MainRules(crd)[0]] + [MainRules(crd)[1]];
  }

  /** Patching the one definition object that carries the CA bundle. */
  ghost predicate CaBundleNeed(crd: Crd, p: Permission) {
    p == Permission("apiextensions.k8s.io", "customresourcedefinitions", Named(crd.plural + "." + crd.group), "patch")
  }

  lemma CaBundlePermission(crd: Crd, p: Permission)
    ensures p in Grants(CaBundleRule(crd)) <==> CaBundleNeed(crd, p)
  {
  }

  lemma ManagePermissions(group: string, resource: string, p: Permission)
    ensures p in Grants(Plain(group, resource, DEFAULT_VERBS)) <==> MayManage(p, group, resource)
    ensures p in Grants(Plain(group, resource, WATCH_VERBS)) <==> MayWatch(p, group, resource)
  {
    PlainGrants(group, resource, DEFAULT_VERBS);
    PlainGrants(group, resource, WATCH_VERBS);
  }

  /** Managing what the hooks, the constructor and the remote reconciler name, watching what is watched. */
  ghost predicate TypedNeed(reg: Registry, crd: Crd, p: Permission) {
    exists r :: reg.resolve(r).Some? &&
      var gvr := reg.resolve(r).value;
      || (r in crd.hooks + crd.constructed + crd.remote && MayManage(p, gvr.group, gvr.resource))
      || (r in crd.watched && MayWatch(p, gvr.group, gvr.resource))
  }

  lemma ResourcePermissions(reg: Registry, resources: seq<string>, p: Permission)
    ensures p in ResourceMeaning(reg, resources, DEFAULT_VERBS) <==>
      exists r :: r in resources && reg.resolve(r).Some?
        && MayManage(p, reg.resolve(r).value.group, reg.resolve(r).value.resource)
    ensures p in ResourceMeaning(reg, resources, WATCH_VERBS) <==>
      exists r :: r in resources && reg.resolve(r).Some?
        && MayWatch(p, reg.resolve(r).value.group, reg.resolve(r).value.resource)
  {
    hide Grants, MayManage, MayWatch;
    forall group, resource
      ensures p in Grants(Plain(group, resource, DEFAULT_VERBS)) <==> MayManage(p, group, resource)
      ensures p in Grants(Plain(group, resource, WATCH_VERBS)) <==> MayWatch(p, group, resource)
    {
      ManagePermissions(group, resource, p);
    }
  }

  lemma TypedPermissions(reg: Registry, crd: Crd, p: Permission)
    ensures p in TypedMeaning(reg, crd) <==> TypedNeed(reg, crd, p)
  {
    hide ResourceMeaning, MayManage, MayWatch;
    ResourcePermissions(reg, crd.hooks, p);
    ResourcePermissions(reg, crd.constructed, p);
    ResourcePermissions(reg, crd.remote, p);
    ResourcePermissions(reg, crd.watched, p);
  }

  /** Managing the built-in kinds it uses. */
  ghost predicate BuiltInNeed(reg: Registry, crd: Crd, p: Permission) {
    exists b :: b in reg.builtIns && b.detect.Some? && b.detect.value(crd) && MayManage(p, b.group, b.plural)
  }

  lemma BuiltInPermissions(reg: Registry, crd: Crd, p: Permission)
    ensures p in BuiltInMeaning(reg, crd) <==> BuiltInNeed(reg, crd, p)
  {
    hide Grants, MayManage;
    forall group, resource
      ensures p in Grants(Plain(group, resource, DEFAULT_VERBS)) <==> MayManage(p, group, resource)
    {
      ManagePermissions(group, resource, p);
    }
  }

  /** escalate and bind, for a roles or clusterroles kind that it uses. */
  ghost predicate EscalationNeed(reg: Registry, crd: Crd, p: Permission) {
    && p.group == "rbac.authorization.k8s.io" && p.resource in {"roles", "clusterroles"} && p.scope == AnyName
    && p.verb in {"escalate", "bind"}
    && exists b ::
      b in reg.builtIns && b.detect.Some? && b.detect.value(crd) && b.group == p.group && b.plural == p.resource
  }

  lemma EscalationPermissions(reg: Registry, enabled: map<string, Crd>, p: Permission)
    ensures p in EscalationMeaning(reg, enabled) <==> exists n :: n in enabled && EscalationNeed(reg, enabled[n], p)
  {
    if p in EscalationMeaning(reg, enabled) {
      var b, n :| b in reg.builtIns && n in enabled && Detects(b, enabled[n]) && p in Escalation(b);
      assert b.detect.value(enabled[n]) && b.group == p.group && b.plural == p.resource;
      assert EscalationNeed(reg, enabled[n], p);
    }
    if n :| n in enabled && EscalationNeed(reg, enabled[n], p) {
      var b :| b in reg.builtIns && b.detect.Some? && b.detect.value(enabled[n]) && b.group == p.group
        && b.plural == p.resource;
      assert Detects(b, enabled[n]) && p in Escalation(b);
    }
  }

  /** The group an apiVersion names: what precedes its only slash, the core group without one. */
  ghost predicate GroupOf(apiVersion: string, group: string) {
    if '/' !in apiVersion then group == ""
    else exists version :: apiVersion == group + "/" + version && '/' !in group + version
  }

  lemma ParseGroupIff(apiVersion: string, group: string)
    ensures ParseGroup(apiVersion) == Some(group) <==> GroupOf(apiVersion, group)
  {
    var k := Paths.Find(apiVersion, '/');
    if '/' in apiVersion {
      assert apiVersion == apiVersion[..k] + "/" + apiVersion[k + 1..];
      if ParseGroup(apiVersion) == Some(group) {
        assert '/' !in apiVersion[..k] + apiVersion[k + 1..];
        assert group == apiVersion[..k];
      }
      if version :| apiVersion == group + "/" + version && '/' !in group + version {
        assert forall c :: c in group || c in version ==> c in group + version;
        Paths.FindAfter(group, '/', version);
        assert apiVersion == group + ['/'] + version;
        assert apiVersion[..k] == group && apiVersion[k + 1..] == version;
        assert apiVersion == "/" ==> group == "";
      }
    }
  }

  /** Managing the complete and well-formed custom: entries, under the lowercased kind with an s. */
  ghost predicate CustomNeed(reg: Registry, entries: seq<CustomEntry>, p: Permission) {
    exists e :: e in entries && e.apiVersion != "" && e.kind != "" && GroupOf(e.apiVersion, p.group)
      && MayManage(p, p.group, reg.lower(e.kind) + "s")
  }

  lemma CustomPermissions(reg: Registry, entries: seq<CustomEntry>, p: Permission)
    ensures p in CustomMeaning(reg, entries) <==> CustomNeed(reg, entries, p)
  {
    hide Grants, MayManage, GroupOf, ParseGroup, CustomRule;
    forall e | e in entries
      ensures CustomRule(reg, e).Some? && p in Grants(CustomRule(reg, e).value) <==>
        e.apiVersion != "" && e.kind != "" && GroupOf(e.apiVersion, p.group)
          && MayManage(p, p.group, reg.lower(e.kind) + "s")
    {
      CustomPermission(reg, e, p);
    }
  }

  lemma CustomPermission(reg: Registry, e: CustomEntry, p: Permission)
    ensures CustomRule(reg, e).Some? && p in Grants(CustomRule(reg, e).value) <==>
      e.apiVersion != "" && e.kind != "" && GroupOf(e.apiVersion, p.group)
        && MayManage(p, p.group, reg.lower(e.kind) + "s")
  {
    hide Grants, GroupOf, ParseGroup;
    ParseGroupIff(e.apiVersion, p.group);
    if ParseGroup(e.apiVersion).Some? {
      ManagePermissions(ParseGroup(e.apiVersion).value, reg.lower(e.kind) + "s", p);
    }
  }

  /** A name with a template in it. */
  ghost predicate HasBraces(name: string) {
    exists before, after :: name == before + "{{" + after
  }

  lemma IsTemplateIff(name: string)
    ensures IsTemplate(name) <==> HasBraces(name)
  {
    if i :| 0 <= i < |name| - 1 && name[i] == '{' && name[i + 1] == '{' {
      assert name == name[..i] + "{{" + name[i + 2..];
    }
    if before, after :| name == before + "{{" + after {
      assert name[|before|] == '{' && name[|before| + 1] == '{';
    }
  }

  /** Leader election, events, and reading the secrets referred to: by name, or all of them for a template. */
  ghost predicate SystemNeed(refs: seq<Option<string>>, p: Permission) {
    || (p.group == "coordination.k8s.io" && p.resource == "leases" && p.scope == AnyName
        && p.verb in {"get", "create", "update"})
    || (p.group == "" && p.resource == "events" && p.scope == AnyName && p.verb in {"create", "patch"})
    || (p.group == "" && p.resource == "secrets" && p.verb == "get"
        && exists n :: Some(n) in refs && p.scope == if HasBraces(n) then AnyName else Named(n))
  }

  lemma BasePermissions(p: Permission)
    ensures p in Meaning(BASE_RULES) <==>
      || (p.group == "coordination.k8s.io" && p.resource == "leases" && p.scope == AnyName
          && p.verb in {"get", "create", "update"})
      || (p.group == "" && p.resource == "events" && p.scope == AnyName && p.verb in {"create", "patch"})
  {
    MeaningConcat([BASE_RULES[0]], [BASE_RULES[1]]);
    MeaningOne(BASE_RULES[0]);
    MeaningOne(BASE_RULES[1]);
    assert BASE_RULES == [BASE_RULES[0]] + [BASE_RULES[1]];
  }

  lemma SystemPermissions(ext: seq<Option<string>>, remote: seq<Option<string>>, p: Permission)
    ensures p in SystemMeaning(ext, remote) <==> SystemNeed(ext + remote, p)
  {
    hide Meaning, HasBraces, IsTemplate;
    BasePermissions(p);
    forall n ensures IsTemplate(n) <==> HasBraces(n) {
      IsTemplateIff(n);
    }
  }

  // ---------------------------------------------------------------- what the generators grant

  /** Its main resource needs a group and a plural, or to be built in. */
  ghost predicate RuntimeMainNeed(crd: Crd, p: Permission) {
    ((crd.group != "" && crd.plural != "") || crd.builtIn) && MainNeed(crd, p)
  }

  /** What the runtime rules grant for one CRD. */
  ghost predicate RuntimeNeed(reg: Registry, crd: Crd, p: Permission) {
    || RuntimeMainNeed(crd, p)
    || TypedNeed(reg, crd, p) || BuiltInNeed(reg, crd, p) || EscalationNeed(reg, crd, p)
    || CustomNeed(reg, crd.custom, p)
  }

  /** What is attributed to one CRD, whose main resource needs a group, or to be built in, and a plural. */
  ghost predicate CrdNeed(reg: Registry, crd: Crd, p: Permission) {
    || ((crd.group != "" || crd.builtIn) && crd.plural != "" && MainNeed(crd, p))
    || ((crd.group != "" || crd.builtIn) && crd.updatesCaBundle && CaBundleNeed(crd, p))
    || TypedNeed(reg, crd, p) || BuiltInNeed(reg, crd, p) || CustomNeed(reg, crd.custom, p)
  }

  lemma CrdPermissions(reg: Registry, crd: Crd, p: Permission)
    ensures p in Attributed(reg, crd) + CaBundleMeaning(crd) <==> CrdNeed(reg, crd, p)
  {
    hide Meaning, Grants, TypedMeaning, BuiltInMeaning, CustomMeaning, MainRules, CaBundleRule;
    hide MainNeed, CaBundleNeed, TypedNeed, BuiltInNeed, CustomNeed;
    MainPermissions(crd, p);
    CaBundlePermission(crd, p);
    TypedPermissions(reg, crd, p);
    BuiltInPermissions(reg, crd, p);
    CustomPermissions(reg, crd.custom, p);
  }

  ghost function RuntimeMeaning(reg: Registry, enabled: map<string, Crd>, ext: seq<Option<string>>,
      remote: seq<Option<string>>): set<Permission> {
    SystemMeaning(ext, remote)
    + Union(enabled, enabled.Keys, RuntimeMain) + Union(enabled, enabled.Keys, (crd: Crd) => TypedMeaning(reg, crd))
    + DetectedMeaning(reg, enabled) + Union(enabled, enabled.Keys, (crd: Crd) => CustomMeaning(reg, crd.custom))
  }

  lemma UnionIff(enabled: map<string, Crd>, f: Crd -> set<Permission>, need: Crd -> bool, p: Permission)
    requires forall n :: n in enabled ==> (p in f(enabled[n]) <==> need(enabled[n]))
    ensures p in Union(enabled, enabled.Keys, f) <==> exists n :: n in enabled && need(enabled[n])
  {
  }

  lemma RuntimePermissions(reg: Registry, enabled: map<string, Crd>, ext: seq<Option<string>>,
      remote: seq<Option<string>>, p: Permission)
    ensures p in RuntimeMeaning(reg, enabled, ext, remote) <==>
      SystemNeed(ext + remote, p) || exists n :: n in enabled && RuntimeNeed(reg, enabled[n], p)
  {
    hide SystemMeaning, SystemNeed, Meaning, TypedMeaning, BuiltInMeaning, CustomMeaning, MainRules, DetectedMeaning;
    hide EscalationMeaning, MainNeed, TypedNeed, BuiltInNeed, CustomNeed, EscalationNeed, Union;
    SystemPermissions(ext, remote, p);
    DetectedIsOwnPlusEscalation(reg, enabled);
    EscalationPermissions(reg, enabled, p);
    forall n | n in enabled
      ensures p in RuntimeMain(enabled[n]) <==> RuntimeMainNeed(enabled[n], p)
      ensures p in TypedMeaning(reg, enabled[n]) <==> TypedNeed(reg, enabled[n], p)
      ensures p in BuiltInMeaning(reg, enabled[n]) <==> BuiltInNeed(reg, enabled[n], p)
      ensures p in CustomMeaning(reg, enabled[n].custom) <==> CustomNeed(reg, enabled[n].custom, p)
    {
      MainPermissions(enabled[n], p);
      TypedPermissions(reg, enabled[n], p);
      BuiltInPermissions(reg, enabled[n], p);
      CustomPermissions(reg, enabled[n].custom, p);
    }
    UnionIff(enabled, RuntimeMain, crd => RuntimeMainNeed(crd, p), p);
    UnionIff(enabled, (crd: Crd) => TypedMeaning(reg, crd), crd => TypedNeed(reg, crd, p), p);
    UnionIff(enabled, (crd: Crd) => BuiltInMeaning(reg, crd), crd => BuiltInNeed(reg, crd, p), p);
    UnionIff(enabled, (crd: Crd) => CustomMeaning(reg, crd.custom), (crd: Crd) => CustomNeed(reg, crd.custom, p), p);
  }

  /** Both generators on one Catalog. */
  method CompareGenerators(reg: Registry, enabled: map<string, Crd>, ext: seq<Option<string>>,
      remote: seq<Option<string>>)
    returns (runtime: seq<Rule>, perCrd: map<string, seq<Rule>>)
    requires BuiltInsHavePlurals(enabled)
    ensures perCrd.Keys == enabled.Keys
    ensures forall n :: n in enabled ==> Meaning(perCrd[n]) == Attributed(reg, enabled[n]) + CaBundleMeaning(enabled[n])
    ensures Meaning(runtime) == SystemMeaning(ext, remote)
      + Union(enabled, enabled.Keys, (crd: Crd) => Attributed(reg, crd)) + EscalationMeaning(reg, enabled)
  {
    hide *;
    runtime := GenerateRuntimeRules(reg, enabled, ext, remote);
    perCrd := GeneratePerCrdRules(reg, enabled);
    RuntimeMatchesAttribution(reg, enabled);
    RuntimeMeaningParts(reg, enabled, ext, remote);
  }
}
