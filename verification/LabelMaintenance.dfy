/**
The system labels of a managed object and the user's own, applied in memory and then persisted by
one patch. A nil label map reads as an empty one.
*/
module LabelMaintenance {
  import opened JsonValues
  import opened LabelPatch
  import opened Ordering

  const MANAGED := "inrun.dev/managed"
  const PROTECTION := "inrun.dev/deletion-protection"
  const EXEMPT := "inrun.dev/strict-mode-exempt"
  const YES := "true"

  class Labelled {
    var labels: Labels

    constructor (labels: Labels)
      ensures this.labels == labels
    {
      this.labels := labels;
    }
  }

  // ---------------------------------------------------------------- the Ensure methods

  function WithManaged(l: Labels): Labels {
    l[MANAGED := YES]
  }

  /** A label brought to a value, where the empty value stands for "no label". */
  function WithLabel(l: Labels, k: string, v: string): Labels {
    if Get(l, k) == v then l else if v == "" then l - {k} else l[k := v]
  }

  function WithProtection(l: Labels, shouldHave: bool): Labels {
    WithLabel(l, PROTECTION, if shouldHave then YES else "")
  }

  function WithExemption(l: Labels, strict: bool): Labels {
    WithLabel(l, EXEMPT, if strict then "" else YES)
  }

  function WithUserLabels(l: Labels, extra: Labels): Labels {
    l + map k | k in extra && Get(l, k) != extra[k] :: extra[k]
  }

  method EnsureManagedLabel(obj: Labelled) returns (changed: bool)
    modifies obj
    ensures obj.labels == WithManaged(old(obj.labels))
    ensures changed <==> obj.labels != old(obj.labels)
  {
    var labels := obj.labels;
    if MANAGED in labels && labels[MANAGED] == YES {
      assert labels == labels[MANAGED := YES];
      return false;
    }
    obj.labels := labels[MANAGED := YES];
    assert obj.labels[MANAGED] == YES;
    changed := true;
  }

  method EnsureLabel(obj: Labelled, key: string, desired: string) returns (changed: bool)
    modifies obj
    ensures obj.labels == WithLabel(old(obj.labels), key, desired)
    ensures changed <==> obj.labels != old(obj.labels)
  {
    var labels := obj.labels;
    if Get(labels, key) == desired {
      return false;
    }
    if desired == "" {
      labels := labels - {key};
    } else {
      labels := labels[key := desired];
    }
    assert Get(labels, key) == desired;
    obj.labels := labels;
    changed := true;
  }

  method EnsureDeletionProtectionLabel(obj: Labelled, shouldHave: bool) returns (changed: bool)
    modifies obj
    ensures obj.labels == WithProtection(old(obj.labels), shouldHave)
    ensures changed <==> obj.labels != old(obj.labels)
  {
    var desired := "";
    if shouldHave {
      desired := YES;
    }
    changed := EnsureLabel(obj, PROTECTION, desired);
  }

  method EnsureStrictModeExemptLabel(obj: Labelled, strictModeEnabled: bool) returns (changed: bool)
    modifies obj
    ensures obj.labels == WithExemption(old(obj.labels), strictModeEnabled)
    ensures changed <==> obj.labels != old(obj.labels)
  {
    var desired := "";
    if !strictModeEnabled {
      desired := YES;
    }
    changed := EnsureLabel(obj, EXEMPT, desired);
  }

  /** One label of a map, and what the two kinds of write do to it. */
  function At(l: Labels, k: string): Option<string> {
    if k in l then Some(l[k]) else None
  }

  function Value(c: Option<string>): string {
    if c.Some? then c.value else ""
  }

  function Brought(c: Option<string>, v: Option<string>): Option<string> {
    if v.None? || Value(c) == v.value then c else if v.value == "" then None else v
  }

  function Overwritten(c: Option<string>, v: Option<string>): Option<string> {
    if v.None? || Value(c) == v.value then c else v
  }

  lemma SameLabels(a: Labels, b: Labels)
    requires forall k :: At(a, k) == At(b, k)
    ensures a == b
  {
    forall k ensures (k in a <==> k in b) && (k in a ==> a[k] == b[k]) {
      assert At(a, k) == At(b, k);
    }
  }

  lemma UserAt(l: Labels, extra: Labels, k: string)
    ensures At(WithUserLabels(l, extra), k) == Overwritten(At(l, k), At(extra, k))
  {
  }

  /** The user's labels under the names in done. */
  ghost predicate PartlyUser(l: Labels, extra: Labels, done: set<string>, now: Labels, changed: bool) {
    && (forall k :: At(now, k) == if k in done then Overwritten(At(l, k), At(extra, k)) else At(l, k))
    && (changed <==> exists k :: k in done && Overwritten(At(l, k), At(extra, k)) != At(l, k))
  }

  lemma UserStep(l: Labels, extra: Labels, done: set<string>, now: Labels, changed: bool, k: string)
    requires PartlyUser(l, extra, done, now, changed) && k in extra && k !in done
    ensures if Get(now, k) != extra[k] then PartlyUser(l, extra, done + {k}, now[k := extra[k]], true)
            else PartlyUser(l, extra, done + {k}, now, changed)
  {
    assert At(now, k) == At(l, k) && Value(At(l, k)) == Get(now, k);
    if Get(now, k) != extra[k] {
      assert Overwritten(At(l, k), At(extra, k)) == Some(extra[k]) != At(l, k);
    }
  }

  lemma UserStarts(l: Labels, extra: Labels)
    ensures PartlyUser(l, extra, {}, l, false)
  {
  }

  lemma UserEnds(l: Labels, extra: Labels, now: Labels, changed: bool)
    requires PartlyUser(l, extra, extra.Keys, now, changed)
    ensures now == WithUserLabels(l, extra) && (changed <==> now != l)
  {
    hide WithUserLabels;
    forall k ensures At(now, k) == At(WithUserLabels(l, extra), k) {
      UserAt(l, extra, k);
    }
    SameLabels(now, WithUserLabels(l, extra));
    if k :| k in extra.Keys && Overwritten(At(l, k), At(extra, k)) != At(l, k) {
      assert At(now, k) != At(l, k);
    } else {
      SameLabels(now, l);
    }
  }

  /** extra is ranged over in any order. */
  method EnsureUserLabels(obj: Labelled, extra: Labels) returns (changed: bool)
    modifies obj
    ensures obj.labels == WithUserLabels(old(obj.labels), extra)
    ensures changed <==> obj.labels != old(obj.labels)
  {
    hide WithUserLabels, PartlyUser;
    changed := false;
    if |extra| == 0 {
      NoUserLabels(obj.labels, extra);
      return;
    }
    ghost var start := obj.labels;
    var lbls := obj.labels;
    var todo := extra.Keys;
    UserStarts(start, extra);
    assert extra.Keys - todo == {};
    while todo != {}
      invariant obj.labels == start && todo <= extra.Keys
      invariant PartlyUser(start, extra, extra.Keys - todo, lbls, changed)
      decreases |todo|
    {
      var k :| k in todo;
      TakeFrom(extra.Keys, todo, k);
      UserStep(start, extra, extra.Keys - todo, lbls, changed, k);
      todo := todo - {k};
      if Get(lbls, k) != extra[k] {
        lbls := lbls[k := extra[k]];
        changed := true;
      }
    }
    assert extra.Keys - todo == extra.Keys;
    UserEnds(start, extra, lbls, changed);
    if changed {
      obj.labels := lbls;
    }
  }

  /** A second call of any of them reports no change. */
  lemma EnsuresAreIdempotent(l: Labels, key: string, value: string, extra: Labels)
    ensures WithManaged(WithManaged(l)) == WithManaged(l)
    ensures WithLabel(WithLabel(l, key, value), key, value) == WithLabel(l, key, value)
    ensures WithUserLabels(WithUserLabels(l, extra), extra) == WithUserLabels(l, extra)
  {
    var once := WithUserLabels(l, extra);
    assert forall k :: k in extra ==> Get(once, k) == extra[k];
  }

  // ---------------------------------------------------------------- one reconcile

  /** global: deletion protection is on in the Catalog; strict: the effective strict mode of the CRD. */
  datatype Policy = Policy(global: bool, forCleanup: bool, protectCrs: bool, strict: bool, userLabels: Labels)

  function ShouldProtect(p: Policy): bool {
    !p.forCleanup && p.global && p.protectCrs
  }

  /** Strict mode is suspended for the reconcile that drops the protection. */
  function EffectiveStrict(l: Labels, p: Policy): bool {
    p.strict && !(!ShouldProtect(p) && Get(l, PROTECTION) == YES)
  }

  function SystemLabels(l: Labels, p: Policy): Labels {
    SystemLabelsWith(l, p, EffectiveStrict(l, p))
  }

  function SystemLabelsWith(l: Labels, p: Policy, strict: bool): Labels {
    if !p.global then WithManaged(l)
    else WithExemption(WithProtection(WithManaged(l), ShouldProtect(p)), strict)
  }

  /** The labels after one reconcile, as a function of those before it. */
  function Maintained(l: Labels, p: Policy): Labels {
    WithUserLabels(SystemLabels(l, p), p.userLabels)
  }

  /** The in-memory half of applyLabels. */
  method MaintainLabels(obj: Labelled, p: Policy)
    modifies obj
    ensures obj.labels == Maintained(old(obj.labels), p)
  {
    hide WithManaged, WithProtection, WithExemption, WithUserLabels;
    var serverLabels := obj.labels;
    var changed := EnsureManagedLabel(obj);
    if p.global {
      var shouldHave := !p.forCleanup && p.global && p.protectCrs;
      changed := EnsureDeletionProtectionLabel(obj, shouldHave);
      var effectiveStrict := p.strict;
      var currentlyProtected := Get(serverLabels, PROTECTION) == YES;
      if !shouldHave && currentlyProtected {
        effectiveStrict := false;
      }
      changed := EnsureStrictModeExemptLabel(obj, effectiveStrict);
    }
    if |p.userLabels| > 0 {
      changed := EnsureUserLabels(obj, p.userLabels);
    } else {
      NoUserLabels(obj.labels, p.userLabels);
    }
  }

  lemma NoUserLabels(l: Labels, extra: Labels)
    requires |extra| == 0
    ensures WithUserLabels(l, extra) == l
  {
  }

  /** The labels the server holds after one reconcile that started from l. */
  function Stored(l: Labels, p: Policy): Labels {
    Persisted(l, Maintained(l, p))
  }

  /** applyLabels up to the label patch, against a server that follows RFC 7396. */
  method ApplyLabels(obj: Labelled, server: Json, p: Policy) returns (after: Json)
    requires LabelsOf(server) == Texts(obj.labels)
    modifies obj
    ensures obj.labels == Maintained(old(obj.labels), p)
    ensures LabelsOf(after) == Texts(Stored(old(obj.labels), p))
    ensures LabelsOf(after) == Texts(obj.labels) <==> AddsNoEmpty(old(obj.labels), obj.labels)
    ensures forall k :: k != "metadata" ==> Field(after, k) == Field(server, k)
  {
    hide Maintained, MergePatch, AddsNoEmpty, LabelsOf, Texts, Diff, Field, Persisted;
    var serverLabels := obj.labels;
    MaintainLabels(obj, p);
    var sent;
    after, sent := PatchLabels(server, serverLabels, obj.labels);
    PatchPersists(server, serverLabels, obj.labels);
    PersistedIsDesiredIff(serverLabels, obj.labels);
    PatchTouchesOnlyItsLabels(server, serverLabels, obj.labels);
  }

  // ---------------------------------------------------------------- over several reconciles

  /** Only a user label with an empty value under a system key can fail to be persisted. */
  lemma PersistedIff(l: Labels, p: Policy)
    ensures AddsNoEmpty(l, Maintained(l, p)) <==>
      forall k :: k in p.userLabels && p.userLabels[k] == "" && k !in l ==> k !in SystemLabels(l, p)
  {
    hide SystemLabels;
    SystemAddsYes(l, p);
    UserAddsEmptyIff(l, SystemLabels(l, p), p.userLabels);
  }

  lemma UserAddsEmptyIff(l: Labels, s: Labels, extra: Labels)
    requires forall k :: k in s && k !in l ==> s[k] == YES
    ensures AddsNoEmpty(l, WithUserLabels(s, extra)) <==>
      forall k :: k in extra && extra[k] == "" && k !in l ==> k !in s
  {
    var m := WithUserLabels(s, extra);
    if k :| k in extra && extra[k] == "" && k !in l && k in s {
      assert m[k] == "";
    }
  }

  lemma SystemAddsYes(l: Labels, p: Policy)
    ensures forall k :: k in SystemLabels(l, p) && k !in l ==>
      k in {MANAGED, PROTECTION, EXEMPT} && SystemLabels(l, p)[k] == YES
  {
  }

  /** A label by its effective value after the system labels were applied. */
  lemma SystemValues(l: Labels, p: Policy)
    ensures var s := SystemLabels(l, p);
      && Get(s, MANAGED) == YES
      && (p.global ==> Get(s, PROTECTION) == if ShouldProtect(p) then YES else "")
      && (p.global ==> Get(s, EXEMPT) == if p.strict &&
        (ShouldProtect(p) || Get(l, PROTECTION) != YES) then "" else YES)
      && (forall k :: k !in {MANAGED, PROTECTION, EXEMPT} ==> Get(s, k) == Get(l, k))
  {
  }

  lemma UserValues(l: Labels, extra: Labels, k: string)
    ensures Get(WithUserLabels(l, extra), k) == if k in extra then extra[k] else Get(l, k)
  {
  }

  /** The labels on the server after one reconcile, for user labels that are not system labels. */
  lemma LabelsAsDeclared(l: Labels, p: Policy)
    requires "inrun.dev/managed" !in p.userLabels && "inrun.dev/deletion-protection" !in p.userLabels
      && "inrun.dev/strict-mode-exempt" !in p.userLabels
    ensures var s, protect := Stored(l, p), p.protectCrs && !p.forCleanup;
      && At(s, "inrun.dev/managed") == Some("true")
      && (p.global ==> (At(s, "inrun.dev/deletion-protection") == Some("true") <==> protect))
      && (p.global ==> (At(s, "inrun.dev/strict-mode-exempt") == Some("true") <==>
           !p.strict || (!protect && At(l, "inrun.dev/deletion-protection") == Some("true"))))
      && (!p.global ==>
           At(s, "inrun.dev/deletion-protection") == At(l, "inrun.dev/deletion-protection") &&
           At(s, "inrun.dev/strict-mode-exempt") == At(l, "inrun.dev/strict-mode-exempt"))
    ensures forall k :: k !in {"inrun.dev/managed", "inrun.dev/deletion-protection", "inrun.dev/strict-mode-exempt"} ==>
      At(Stored(l, p), k) == if k in p.userLabels && (p.userLabels[k] != "" || k in l) then Some(p.userLabels[k])
                             else At(l, k)
  {
    hide SystemLabelsWith, WithUserLabels, Stored;
    assert PROTECTION != EXEMPT && PROTECTION != MANAGED && EXEMPT != MANAGED;
    forall k ensures At(Stored(l, p), k)
      == KeptAt(At(l, k), Overwritten(Brought(At(l, k), Wanted(p, EffectiveStrict(l, p), k)), At(p.userLabels, k)))
    {
      StoredAt(l, p, k);
    }
  }

  /** A label the server did not keep reads as the empty one it would have been. */
  lemma StoredValues(l: Labels, p: Policy, k: string)
    ensures Get(Stored(l, p), k) == Get(Maintained(l, p), k)
  {
  }

  /**
  Protection is removed in two steps. The patch that drops it carries the strict-mode exemption,
  which the next reconcile takes away again; both as the server sees it.
  */
  lemma ProtectionLeavesInTwoSteps(l: Labels, p: Policy)
    requires p.global && !ShouldProtect(p) && p.strict && Get(l, PROTECTION) == YES
    requires PROTECTION !in p.userLabels && EXEMPT !in p.userLabels
    ensures var first := Stored(l, p); PROTECTION !in first && EXEMPT in first && first[EXEMPT] == YES
    ensures var second := Stored(Stored(l, p), p); PROTECTION !in second && EXEMPT !in second
  {
    hide SystemLabelsWith, WithUserLabels;
    assert PROTECTION != EXEMPT && PROTECTION != MANAGED && EXEMPT != MANAGED;
    var first := Stored(l, p);
    StoredAt(l, p, PROTECTION);
    StoredAt(l, p, EXEMPT);
    assert At(first, PROTECTION).None? && At(first, EXEMPT) == Some(YES);
    StoredAt(first, p, PROTECTION);
    StoredAt(first, p, EXEMPT);
  }

  lemma MaintainedProtection(l: Labels, p: Policy)
    ensures Get(Maintained(l, p), PROTECTION) ==
      if PROTECTION in p.userLabels then p.userLabels[PROTECTION]
      else if p.global then (if ShouldProtect(p) then YES else "")
      else Get(l, PROTECTION)
  {
    hide WithUserLabels;
    assert PROTECTION != EXEMPT && PROTECTION != MANAGED;
    UserValues(SystemLabels(l, p), p.userLabels, PROTECTION);
    SystemValues(l, p);
  }

  /** The value the system wants under a key, if it has an opinion. */
  function Wanted(p: Policy, strict: bool, k: string): Option<string> {
    if k == MANAGED then Some(YES)
    else if p.global && k == PROTECTION then Some(if ShouldProtect(p) then YES else "")
    else if p.global && k == EXEMPT then Some(if strict then "" else YES)
    else None
  }

  lemma SystemAt(l: Labels, p: Policy, strict: bool, k: string)
    ensures At(SystemLabelsWith(l, p, strict), k) == Brought(At(l, k), Wanted(p, strict, k))
  {
    assert PROTECTION != EXEMPT && PROTECTION != MANAGED && EXEMPT != MANAGED;
  }

  function KeptAt(before: Option<string>, after: Option<string>): Option<string> {
    if before.None? && after == Some("") then None else after
  }

  /** One label of the server across one reconcile. */
  lemma StoredAt(l: Labels, p: Policy, k: string)
    ensures At(Stored(l, p), k)
      == KeptAt(At(l, k), Overwritten(Brought(At(l, k), Wanted(p, EffectiveStrict(l, p), k)), At(p.userLabels, k)))
  {
    hide SystemLabelsWith, WithUserLabels, Wanted, EffectiveStrict;
    SystemAt(l, p, EffectiveStrict(l, p), k);
    UserAt(SystemLabels(l, p), p.userLabels, k);
    KeptStep(l, Maintained(l, p), k);
  }

  lemma KeptStep(base: Labels, desired: Labels, k: string)
    ensures At(Persisted(base, desired), k) == KeptAt(At(base, k), At(desired, k))
  {
  }

  /** With the same strict mode, a second reconcile changes nothing on the server. */
  lemma SettlesWith(l: Labels, p: Policy, k: string)
    requires EffectiveStrict(Stored(l, p), p) == EffectiveStrict(l, p)
    ensures At(Stored(Stored(l, p), p), k) == At(Stored(l, p), k)
  {
    hide Stored, Wanted, At, EffectiveStrict;
    StoredAt(l, p, k);
    StoredAt(Stored(l, p), p, k);
  }

  /** The protection the server shows is settled after one reconcile, and with it the strict mode after two. */
  lemma StrictSettles(l: Labels, p: Policy)
    ensures EffectiveStrict(Stored(Stored(l, p), p), p) == EffectiveStrict(Stored(l, p), p)
  {
    hide Stored, Maintained;
    var once := Stored(l, p);
    StoredValues(l, p, PROTECTION);
    StoredValues(once, p, PROTECTION);
    MaintainedProtection(l, p);
    MaintainedProtection(once, p);
  }

  /** Two reconciles bring the server to labels that no further reconcile changes. */
  lemma LabelsSettle(l: Labels, p: Policy)
    ensures var twice := Stored(Stored(l, p), p); Stored(twice, p) == twice
  {
    hide Stored, EffectiveStrict, At;
    var once := Stored(l, p);
    var twice := Stored(once, p);
    StrictSettles(l, p);
    forall k ensures At(Stored(twice, p), k) == At(twice, k) {
      SettlesWith(once, p, k);
    }
    SameLabels(Stored(twice, p), twice);
  }
}
