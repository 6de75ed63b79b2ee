/**
Which CRDs reach which remote cluster: the rules the gateway needs there, and the list of CRDs the
Catalog reports for it.
*/
module GatewayClusters {
  import opened Ordering
  import opened Rbac

  const SERVE_VERBS := ["get", "list", "create", "update", "patch", "delete"]

  /** Every cluster entry of a serve block: its own, and those of its targets. */
  ghost function Entries(s: Serve): set<string> {
    (set c | c in s.clusters :: c) + set t, c | t in s.targets && c in s.targets[t] :: c
  }

  /** Static entries match by name; a template could resolve to any cluster. */
  predicate Matches(entry: string, cluster: string) {
    IsTemplate(entry) || entry == cluster
  }

  ghost predicate Routes(s: Serve, cluster: string) {
    exists e :: e in Entries(s) && Matches(e, cluster)
  }

  ghost predicate CrdRoutes(crd: Crd, cluster: string) {
    crd.serve.Some? && Routes(crd.serve.value, cluster)
  }

  method AnyMatches(clusters: seq<string>, cluster: string) returns (found: bool)
    ensures found <==> exists e :: e in clusters && Matches(e, cluster)
  {
    for i := 0 to |clusters|
      invariant forall j :: 0 <= j < i ==> !Matches(clusters[j], cluster)
    {
      if IsTemplate(clusters[i]) || clusters[i] == cluster {
        assert Matches(clusters[i], cluster);
        return true;
      }
    }
    found := false;
  }

  /** crdRoutesToCluster: the targets come from a map, in any order. */
  method CrdRoutesToCluster(s: Serve, cluster: string) returns (found: bool)
    ensures found <==> Routes(s, cluster)
  {
    found := AnyMatches(s.clusters, cluster);
    if found {
      return;
    }
    var todo := s.targets.Keys;
    while todo != {}
      invariant todo <= s.targets.Keys && !found
      invariant forall t, e :: t in s.targets.Keys - todo && e in s.targets[t] ==> !Matches(e, cluster)
    {
      var target :| target in todo;
      todo := todo - {target};
      found := AnyMatches(s.targets[target], cluster);
      if found {
        return;
      }
    }
  }

  /** The static targets of one CRD and whether any of its entries is a template. */
  method Partition(clusters: seq<string>, static0: set<string>, template0: bool)
    returns (statics: set<string>, hasTemplate: bool)
    ensures statics == static0 + set e | e in clusters && !IsTemplate(e)
    ensures hasTemplate <==> template0 || exists e :: e in clusters && IsTemplate(e)
  {
    statics, hasTemplate := static0, template0;
    for i := 0 to |clusters|
      invariant statics == static0 + set e | e in clusters[..i] && !IsTemplate(e)
      invariant hasTemplate <==> template0 || exists e :: e in clusters[..i] && IsTemplate(e)
    {
      assert clusters[..i + 1] == clusters[..i] + [clusters[i]];
      if IsTemplate(clusters[i]) {
        hasTemplate := true;
      } else {
        statics := statics + {clusters[i]};
      }
    }
    assert clusters[..|clusters|] == clusters;
  }

  method Targets(crd: Crd) returns (statics: set<string>, hasTemplate: bool)
    ensures forall c :: CrdRoutes(crd, c) <==> hasTemplate || c in statics
    ensures hasTemplate <==> Templated(crd)
  {
    statics, hasTemplate := {}, false;
    if crd.serve.None? {
      return;
    }
    var s := crd.serve.value;
    statics, hasTemplate := Partition(s.clusters, {}, false);
    var todo := s.targets.Keys;
    while todo != {}
      invariant todo <= s.targets.Keys
      invariant forall e :: e in statics <==>
        !IsTemplate(e) && (e in s.clusters || exists t :: t in s.targets.Keys - todo && e in s.targets[t])
      invariant hasTemplate <==> exists e ::
        IsTemplate(e) && (e in s.clusters || exists t :: t in s.targets.Keys - todo && e in s.targets[t])
    {
      var target :| target in todo;
      statics, hasTemplate := Partition(s.targets[target], statics, hasTemplate);
      todo := todo - {target};
    }
    RoutesAre(s, statics, hasTemplate);
  }

  lemma RoutesAre(s: Serve, statics: set<string>, hasTemplate: bool)
    requires statics == set e | e in Entries(s) && !IsTemplate(e)
    requires hasTemplate <==> exists e :: e in Entries(s) && IsTemplate(e)
    ensures forall c :: Routes(s, c) <==> hasTemplate || c in statics
  {
    forall c ensures Routes(s, c) <==> hasTemplate || c in statics {
      assert c in statics ==> Matches(c, c);
      if e :| e in Entries(s) && IsTemplate(e) {
        assert Matches(e, c);
      }
    }
  }

  ghost predicate Templated(crd: Crd) {
    crd.serve.Some? && exists e :: e in Entries(crd.serve.value) && IsTemplate(e)
  }

  // ---------------------------------------------------------------- rules per cluster

  function RulePair(crd: Crd): seq<Rule> {
    [Rule([crd.group], [crd.plural, crd.plural + "/status"], [], SERVE_VERBS),
     Rule(["apiextensions.k8s.io"], ["customresourcedefinitions"], [crd.plural + "." + crd.group], ["get", "list"])]
  }

  // ---------------------------------------------------------------- the permissions at a cluster

  /** An entry of the serve block, or of one of its targets, names the cluster or has a template in it. */
  ghost predicate Reaches(crd: Crd, cluster: string) {
    crd.serve.Some? && exists e :: Mentions(crd.serve.value, e) && (e == cluster || HasBraces(e))
  }

  ghost predicate Mentions(s: Serve, entry: string) {
    entry in s.clusters || exists t :: t in s.targets && entry in s.targets[t]
  }

  lemma RoutesIff(crd: Crd, cluster: string)
    ensures CrdRoutes(crd, cluster) <==> Reaches(crd, cluster)
  {
    hide HasBraces, IsTemplate;
    forall e ensures IsTemplate(e) <==> HasBraces(e) {
      IsTemplateIff(e);
    }
    if CrdRoutes(crd, cluster) {
      var e :| e in Entries(crd.serve.value) && Matches(e, cluster);
      assert Mentions(crd.serve.value, e);
    }
    if Reaches(crd, cluster) {
      var e :| Mentions(crd.serve.value, e) && (e == cluster || HasBraces(e));
      assert e in Entries(crd.serve.value) && Matches(e, cluster);
    }
  }

  /** What the gateway may do with a CRD it serves: its objects and their status, and reading its definition. */
  ghost predicate GatewayNeed(crd: Crd, p: Permission) {
    || (p.group == crd.group && p.resource in {crd.plural, crd.plural + "/status"} && p.scope == AnyName
        && p.verb in {"get", "list", "create", "update", "patch", "delete"})
    || (p.group == "apiextensions.k8s.io" && p.resource == "customresourcedefinitions"
        && p.scope == Named(crd.plural + "." + crd.group) && p.verb in {"get", "list"})
  }

  lemma PairPermissions(crd: Crd, p: Permission)
    ensures p in Meaning(RulePair(crd)) <==> GatewayNeed(crd, p)
  {
    MeaningConcat([RulePair(crd)[0]], [RulePair(crd)[1]]);
    MeaningOne(RulePair(crd)[0]);
    MeaningOne(RulePair(crd)[1]);
    assert RulePair(crd) == [RulePair(crd)[0]] + [RulePair(crd)[1]];
  }

  lemma {:induction false} ClusterPermissions(served: seq<Crd>, cluster: string, p: Permission)
    ensures p in Meaning(PairsFor(served, cluster)) <==>
      exists crd :: crd in served && Reaches(crd, cluster) && GatewayNeed(crd, p)
  {
    hide Meaning, RulePair, CrdRoutes, Reaches, GatewayNeed;
    MeaningNone();
    if served != [] {
      var rest, last := served[..|served| - 1], served[|served| - 1];
      assert served == rest + [last];
      ClusterPermissions(rest, cluster, p);
      RoutesIff(last, cluster);
      PairPermissions(last, p);
      MeaningConcat(PairsFor(rest, cluster), RulePair(last));
      assert PairsFor(served, cluster)
        == PairsFor(rest, cluster) + if CrdRoutes(last, cluster) then RulePair(last) else [];
      if !CrdRoutes(last, cluster) {
        assert PairsFor(served, cluster) == PairsFor(rest, cluster);
      }
    }
  }

  /** The kinds whose clusters are not all known beforehand. */
  lemma {:induction false} TemplateKindsIff(served: seq<Crd>, kind: string)
    ensures kind in TemplateKinds(served) <==>
      exists crd :: crd in served && crd.kind == kind && crd.serve.Some?
        && exists e :: e in Entries(crd.serve.value) && HasBraces(e)
  {
    hide HasBraces, IsTemplate, Entries;
    if served != [] {
      var rest, last := served[..|served| - 1], served[|served| - 1];
      assert served == rest + [last];
      TemplateKindsIff(rest, kind);
      forall e ensures IsTemplate(e) <==> HasBraces(e) {
        IsTemplateIff(e);
      }
    }
  }

  /** One rule pair for each CRD of the list that routes to the cluster, in list order. */
  ghost function PairsFor(served: seq<Crd>, cluster: string): seq<Rule> {
    if served == [] then []
    else
      var last := served[|served| - 1];
      PairsFor(served[..|served| - 1], cluster) + if CrdRoutes(last, cluster) then RulePair(last) else []
  }

  ghost function TemplateKinds(served: seq<Crd>): seq<string> {
    if served == [] then []
    else
      var last := served[|served| - 1];
      TemplateKinds(served[..|served| - 1]) + if Templated(last) then [last.kind] else []
  }

  lemma {:induction false} PairsForNonEmpty(served: seq<Crd>, cluster: string)
    ensures PairsFor(served, cluster) != [] <==> exists crd :: crd in served && CrdRoutes(crd, cluster)
  {
    if served != [] {
      PairsForNonEmpty(served[..|served| - 1], cluster);
      assert served == served[..|served| - 1] + [served[|served| - 1]];
    }
  }

  /** Appends the pair to every listed cluster that has a slot. */
  method AppendTo(rules: map<string, seq<Rule>>, names: set<string>, pair: seq<Rule>)
    returns (r: map<string, seq<Rule>>)
    ensures r.Keys == rules.Keys
    ensures forall c :: c in rules ==> r[c] == rules[c] + if c in names then pair else []
  {
    r := rules;
    var todo := names;
    while todo != {}
      invariant todo <= names && r.Keys == rules.Keys
      invariant forall c :: c in rules ==> r[c] == rules[c] + if c in names - todo then pair else []
    {
      var name :| name in todo;
      todo := todo - {name};
      if name in r {
        r := r[name := r[name] + pair];
      }
    }
  }

  /** GenerateGatewayClusterRBACRules. A cluster has an entry exactly when some CRD routes to it. */
  method GenerateGatewayClusterRules(gatewayEnabled: bool, serveEnabled: bool, clusters: set<string>, served: seq<Crd>)
    returns (rules: map<string, seq<Rule>>, templateKinds: seq<string>)
    ensures !gatewayEnabled || !serveEnabled || clusters == {} ==> rules == map[] && templateKinds == []
    ensures gatewayEnabled && serveEnabled && clusters != {} ==>
      rules == (map c | c in clusters && PairsFor(served, c) != [] :: PairsFor(served, c)) &&
        templateKinds == TemplateKinds(served)
    ensures gatewayEnabled && serveEnabled && clusters != {} ==>
      forall c :: c in rules <==> c in clusters && exists crd :: crd in served && CrdRoutes(crd, c)
    ensures forall c, p :: c in rules ==>
      (p in Meaning(rules[c]) <==> exists crd :: crd in served && Reaches(crd, c) && GatewayNeed(crd, p))
  {
    hide Meaning, CrdRoutes, Reaches, GatewayNeed, PairsFor, TemplateKinds;
    if !gatewayEnabled || !serveEnabled || |clusters| == 0 {
      return map[], [];
    }
    rules, templateKinds := SpreadRules(clusters, served);
    rules := DropEmpty(rules);
    forall c ensures PairsFor(served, c) != [] <==> exists crd :: crd in served && CrdRoutes(crd, c) {
      PairsForNonEmpty(served, c);
    }
    forall c, p
      ensures p in Meaning(PairsFor(served, c)) <==>
        exists crd :: crd in served && Reaches(crd, c) && GatewayNeed(crd, p)
    {
      ClusterPermissions(served, c, p);
    }
  }

  lemma ServedStep(served: seq<Crd>, i: nat)
    requires i < |served|
    ensures forall c ::
      PairsFor(served[..i + 1], c)
      == PairsFor(served[..i], c) + if CrdRoutes(served[i], c) then RulePair(served[i]) else []
    ensures TemplateKinds(served[..i + 1])
      == TemplateKinds(served[..i]) + if Templated(served[i]) then [served[i].kind] else []
  {
    hide CrdRoutes, Templated, RulePair;
    assert served[..i + 1][..i] == served[..i];
  }

  lemma NothingServed(served: seq<Crd>)
    ensures TemplateKinds(served[..0]) == [] && forall c :: PairsFor(served[..0], c) == []
  {
  }

  /** The loop over the serve-enabled CRDs, with a slot for every registered cluster. */
  method SpreadRules(clusters: set<string>, served: seq<Crd>)
    returns (rules: map<string, seq<Rule>>, templateKinds: seq<string>)
    ensures rules.Keys == clusters && forall c :: c in clusters ==> rules[c] == PairsFor(served, c)
    ensures templateKinds == TemplateKinds(served)
  {
    hide PairsFor, TemplateKinds, CrdRoutes, Templated, RulePair;
    rules := map c | c in clusters :: [];
    templateKinds := [];
    NothingServed(served);
    for i := 0 to |served|
      invariant rules.Keys == clusters
      invariant forall c :: c in clusters ==> rules[c] == PairsFor(served[..i], c)
      invariant templateKinds == TemplateKinds(served[..i])
    {
      var crd := served[i];
      ServedStep(served, i);
      var statics, hasTemplate := Targets(crd);
      if hasTemplate {
        templateKinds := templateKinds + [crd.kind];
        rules := AppendTo(rules, clusters, RulePair(crd));
      } else if |statics| > 0 {
        rules := AppendTo(rules, statics, RulePair(crd));
      }
    }
    assert served[..|served|] == served;
  }

  method DropEmpty(rules: map<string, seq<Rule>>) returns (r: map<string, seq<Rule>>)
    ensures r == map c | c in rules && rules[c] != [] :: rules[c]
  {
    r := rules;
    var todo := rules.Keys;
    while todo != {}
      invariant todo <= rules.Keys
      invariant r == map c | c in rules && (c in todo || rules[c] != []) :: rules[c]
    {
      var name :| name in todo;
      todo := todo - {name};
      if |rules[name]| == 0 {
        r := r - {name};
      }
    }
  }

  // ---------------------------------------------------------------- the Catalog's own list

  /** A slice filled while ranging over the map of enabled CRDs: the CRDs of some names, each once. */
  ghost predicate ListsNamed(enabled: map<string, Crd>, out: seq<Crd>, names: seq<string>) {
    Distinct(names) && |out| == |names| && forall i :: 0 <= i < |names| ==>
      names[i] in enabled && out[i] == enabled[names[i]]
  }

  predicate ServeEnabled(crd: Crd) {
    crd.serve.Some? && crd.serve.value.enabled
  }

  /** The slice holds exactly the CRDs of these names, each once, in some order. */
  ghost predicate ListsExactly(enabled: map<string, Crd>, out: seq<Crd>, names: set<string>) {
    exists order :: ListsNamed(enabled, out, order) && Elems(order) == names
  }

  ghost function Served(enabled: map<string, Crd>): set<string> {
    set n | n in enabled && ServeEnabled(enabled[n])
  }

  ghost function ServedOn(enabled: map<string, Crd>, cluster: string): set<string> {
    set n | n in enabled && ServeEnabled(enabled[n]) && CrdRoutes(enabled[n], cluster)
  }

  lemma ListsStep(enabled: map<string, Crd>, out: seq<Crd>, names: seq<string>, name: string)
    requires ListsNamed(enabled, out, names) && name in enabled && name !in Elems(names)
    ensures ListsNamed(enabled, out + [enabled[name]], names + [name]) && Elems(names + [name]) == Elems(names) + {name}
  {
  }

  method BuildServeEnabledCrds(enabled: map<string, Crd>) returns (out: seq<Crd>)
    ensures ListsExactly(enabled, out, Served(enabled))
    ensures forall crd :: crd in out <==>
      exists n :: n in enabled && enabled[n] == crd && crd.serve.Some? && crd.serve.value.enabled
  {
    out := [];
    ghost var names := [];
    var todo := enabled.Keys;
    while todo != {}
      invariant todo <= enabled.Keys && ListsNamed(enabled, out, names)
      invariant Elems(names) == set n | n in enabled && n !in todo && ServeEnabled(enabled[n])
    {
      var name :| name in todo;
      todo := todo - {name};
      if ServeEnabled(enabled[name]) {
        ListsStep(enabled, out, names, name);
        out, names := out + [enabled[name]], names + [name];
      }
    }
    assert Elems(names) == Served(enabled);
    ListedServe(enabled, out, names);
  }

  lemma ListedServe(enabled: map<string, Crd>, out: seq<Crd>, names: seq<string>)
    requires ListsNamed(enabled, out, names) && Elems(names) == Served(enabled)
    ensures forall crd :: crd in out <==>
      exists n :: n in enabled && enabled[n] == crd && crd.serve.Some? && crd.serve.value.enabled
  {
    forall n | n in enabled && enabled[n].serve.Some? && enabled[n].serve.value.enabled ensures enabled[n] in out {
      assert n in Elems(names);
      var i :| 0 <= i < |names| && names[i] == n;
      assert out[i] == enabled[n];
    }
    forall crd | crd in out
      ensures exists n :: n in enabled && enabled[n] == crd && crd.serve.Some? && crd.serve.value.enabled
    {
      var i :| 0 <= i < |out| && out[i] == crd;
      assert names[i] in Elems(names);
    }
  }

  method ServeEnabledCrdsForCluster(enabled: map<string, Crd>, cluster: string) returns (out: seq<Crd>)
    ensures ListsExactly(enabled, out, ServedOn(enabled, cluster))
  {
    out := [];
    ghost var names := [];
    var todo := enabled.Keys;
    while todo != {}
      invariant todo <= enabled.Keys && ListsNamed(enabled, out, names)
      invariant Elems(names) == set n | n in enabled && n !in todo && ServeEnabled(enabled[n]) &&
        CrdRoutes(enabled[n], cluster)
    {
      var name :| name in todo;
      var crd := enabled[name];
      todo := todo - {name};
      if !ServeEnabled(crd) {
        continue;
      }
      var routes := CrdRoutesToCluster(crd.serve.value, cluster);
      if routes {
        ListsStep(enabled, out, names, name);
        out, names := out + [crd], names + [name];
      }
    }
    assert Elems(names) == ServedOn(enabled, cluster);
  }

  // ---------------------------------------------------------------- both agree

  /** One rule pair for each name of a list. */
  ghost function Pairs(enabled: map<string, Crd>, names: seq<string>): seq<Rule>
    requires Elems(names) <= enabled.Keys
  {
    if names == [] then []
    else
      assert names[|names| - 1] in Elems(names) && Elems(names[..|names| - 1]) <= Elems(names);
      Pairs(enabled, names[..|names| - 1]) + RulePair(enabled[names[|names| - 1]])
  }

  ghost function Routing(enabled: map<string, Crd>, names: seq<string>, cluster: string): (r: seq<string>)
    requires Elems(names) <= enabled.Keys
    ensures Elems(r) == set n | n in names && CrdRoutes(enabled[n], cluster)
    ensures Distinct(names) ==> Distinct(r)
  {
    if names == [] then []
    else
      var rest, last := names[..|names| - 1], names[|names| - 1];
      assert names == rest + [last] && last in Elems(names) && Elems(rest) <= Elems(names);
      var r := Routing(enabled, rest, cluster);
      if CrdRoutes(enabled[last], cluster) then
        assert Elems(r + [last]) == Elems(r) + {last};
        assert Distinct(names) ==> last !in Elems(r);
        r + [last]
      else r
  }

  lemma {:induction false} PairsForIsPairs(enabled: map<string, Crd>, served: seq<Crd>, names: seq<string>,
      cluster: string)
    requires ListsNamed(enabled, served, names) && Elems(names) <= enabled.Keys
    ensures PairsFor(served, cluster) == Pairs(enabled, Routing(enabled, names, cluster))
  {
    if names != [] {
      var rest, last := names[..|names| - 1], names[|names| - 1];
      assert Elems(rest) <= Elems(names) && last in Elems(names);
      PairsForIsPairs(enabled, served[..|served| - 1], rest, cluster);
      var r := Routing(enabled, rest, cluster);
      assert (r + [last])[..|r|] == r;
    }
  }

  lemma {:induction false} PairsConcat(enabled: map<string, Crd>, a: seq<string>, b: seq<string>)
    requires Elems(a) + Elems(b) <= enabled.Keys
    ensures Elems(a + b) <= enabled.Keys && Pairs(enabled, a + b) == Pairs(enabled, a) + Pairs(enabled, b)
  {
    assert Elems(a + b) == Elems(a) + Elems(b);
    if b == [] {
      assert a + b == a;
    } else {
      var rest, last := b[..|b| - 1], b[|b| - 1];
      assert Elems(rest) <= Elems(b);
      assert (a + b)[..|a + b| - 1] == a + rest;
      PairsConcat(enabled, a, rest);
    }
  }

  lemma {:induction false} PairsAround(enabled: map<string, Crd>, before: seq<string>, name: string, after: seq<string>)
    requires Elems(before) + {name} + Elems(after) <= enabled.Keys
    ensures Elems(before + [name] + after) <= enabled.Keys && Elems(before + after) <= enabled.Keys
    ensures multiset(Pairs(enabled, before + [name] + after)) ==
      multiset(Pairs(enabled, before + after)) + multiset(RulePair(enabled[name]))
  {
    assert Elems([name]) == {name} && Elems(before + [name]) == Elems(before) + {name};
    PairsConcat(enabled, before, after);
    PairsConcat(enabled, before, [name]);
    PairsConcat(enabled, before + [name], after);
  }

  /** The order in which the names were collected does not change the rules, only their order. */
  lemma {:induction false} PairsPermuted(enabled: map<string, Crd>, a: seq<string>, b: seq<string>)
    requires Elems(a) <= enabled.Keys && Elems(b) <= enabled.Keys && multiset(a) == multiset(b)
    ensures multiset(Pairs(enabled, a)) == multiset(Pairs(enabled, b))
    decreases |a|
  {
    assert |a| == |multiset(a)| == |multiset(b)| == |b|;
    if a != [] {
      var rest, last := a[..|a| - 1], a[|a| - 1];
      var before, after := TakeOut(a, b);
      assert a == rest + [last];
      assert Elems(rest) <= Elems(a) && last in Elems(a);
      assert Elems(before) + Elems(after) <= Elems(b);
      PairsAround(enabled, before, last, after);
      PairsPermuted(enabled, rest, before + after);
    }
  }

  /** One rule pair for each CRD of a list. */
  ghost function AllPairs(crds: seq<Crd>): seq<Rule> {
    if crds == [] then [] else AllPairs(crds[..|crds| - 1]) + RulePair(crds[|crds| - 1])
  }

  lemma {:induction false} AllPairsIsPairs(enabled: map<string, Crd>, crds: seq<Crd>, names: seq<string>)
    requires ListsNamed(enabled, crds, names) && Elems(names) <= enabled.Keys
    ensures AllPairs(crds) == Pairs(enabled, names)
  {
    if names != [] {
      var rest := names[..|names| - 1];
      assert Elems(rest) <= Elems(names);
      AllPairsIsPairs(enabled, crds[..|crds| - 1], rest);
    }
  }

  lemma ListedAreEnabled(enabled: map<string, Crd>, crds: seq<Crd>, names: seq<string>)
    requires ListsNamed(enabled, crds, names)
    ensures Elems(names) <= enabled.Keys
  {
  }

  /** The rules for a cluster are one pair for each CRD the Catalog lists for that cluster. */
  lemma ClusterRulesMatchListing(enabled: map<string, Crd>, served: seq<Crd>, listed: seq<Crd>, cluster: string)
    requires ListsExactly(enabled, served, Served(enabled)) && ListsExactly(enabled, listed, ServedOn(enabled, cluster))
    ensures multiset(PairsFor(served, cluster)) == multiset(AllPairs(listed))
    ensures PairsFor(served, cluster) == [] <==> listed == []
  {
    hide Pairs, PairsFor, AllPairs, CrdRoutes, RulePair;
    var names :| ListsNamed(enabled, served, names) && Elems(names) == Served(enabled);
    var forCluster :| ListsNamed(enabled, listed, forCluster) && Elems(forCluster) == ServedOn(enabled, cluster);
    ListedAreEnabled(enabled, served, names);
    ListedAreEnabled(enabled, listed, forCluster);
    PairsForIsPairs(enabled, served, names, cluster);
    AllPairsIsPairs(enabled, listed, forCluster);
    var r := Routing(enabled, names, cluster);
    assert forall n :: n in names <==> n in Elems(names);
    assert Elems(r) == Elems(forCluster);
    DistinctPermutation(r, forCluster);
    PairsPermuted(enabled, r, forCluster);
    NoPairs(listed);
    SameSize(PairsFor(served, cluster), AllPairs(listed));
  }

  lemma NoPairs(crds: seq<Crd>)
    ensures AllPairs(crds) == [] <==> crds == []
  {
  }

  lemma SameSize<T>(a: seq<T>, b: seq<T>)
    requires multiset(a) == multiset(b)
    ensures |a| == |b|
  {
    assert |a| == |multiset(a)| == |multiset(b)| == |b|;
  }

  /** Both views of one registered cluster, for a gateway that serves. */
  method CompareClusterViews(clusters: set<string>, enabled: map<string, Crd>, cluster: string)
    returns (rules: map<string, seq<Rule>>, listed: seq<Crd>)
    requires cluster in clusters
    ensures cluster in rules <==> listed != []
    ensures cluster in rules ==> multiset(rules[cluster]) == multiset(AllPairs(listed))
    ensures ListsExactly(enabled, listed, ServedOn(enabled, cluster))
  {
    var served := BuildServeEnabledCrds(enabled);
    listed := ServeEnabledCrdsForCluster(enabled, cluster);
    var templates;
    rules, templates := GenerateGatewayClusterRules(true, |served| > 0, clusters, served);
    ClusterRulesMatchListing(enabled, served, listed, cluster);
  }
}
