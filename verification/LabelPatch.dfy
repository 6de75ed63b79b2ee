/**
The label patch: the difference between two label maps, sent as a JSON Merge Patch, against what
the server makes of it under section 2 of RFC 7396.
*/
module LabelPatch {
  import opened JsonValues

  type Labels = map<string, string>

  /** Go's map read: the empty string for a missing key. */
  function Get(m: Labels, k: string): string {
    if k in m then m[k] else ""
  }

  // ---------------------------------------------------------------- RFC 7396

  /** MergePatch of section 2: null removes a member, an object recurs, anything else replaces. */
  function MergePatch(target: Json, patch: Json): Json
    decreases patch
  {
    if !patch.Object? then patch
    else
      var t := if target.Object? then target.fields else map[];
      Object(map k | k in t.Keys + patch.fields.Keys && !(k in patch.fields && patch.fields[k].Null?) ::
        if k !in patch.fields then t[k] else MergePatch(if k in t then t[k] else Null, patch.fields[k]))
  }

  function Field(o: Json, k: string): Json {
    if o.Object? && k in o.fields then o.fields[k] else Null
  }

  /** The labels of a server object; an object without a labels block has none. */
  function LabelsOf(o: Json): map<string, Json> {
    var l := Field(Field(o, "metadata"), "labels");
    if l.Object? then l.fields else map[]
  }

  function Texts(m: Labels): map<string, Json> {
    map k | k in m :: Text(m[k])
  }

  function Body(patch: map<string, Json>): Json {
    Object(map["metadata" := Object(map["labels" := Object(patch)])])
  }

  // ---------------------------------------------------------------- the difference

  /** Keys to delete are null, keys to set carry their value. */
  function Diff(base: Labels, desired: Labels): (patch: map<string, Json>)
    ensures forall k :: k in patch ==> !patch[k].Object?
  {
    map k | k in base.Keys + desired.Keys && (k !in desired || Get(base, k) != desired[k]) ::
      if k in desired then Text(desired[k]) else Null
  }

  method LabelDiff(base: Labels, desired: Labels) returns (patch: map<string, Json>)
    ensures patch == Diff(base, desired)
  {
    patch := map[];
    var todo := base.Keys;
    while todo != {}
      invariant todo <= base.Keys
      invariant patch == map k | k in base && k !in todo && k !in desired :: Null
    {
      var key :| key in todo;
      todo := todo - {key};
      if key !in desired {
        patch := patch[key := Null];
      }
    }
    todo := desired.Keys;
    ghost var nulls := patch;
    while todo != {}
      invariant todo <= desired.Keys
      invariant forall k :: k in patch <==> k in nulls || (k in desired && k !in todo && Get(base, k) != desired[k])
      invariant forall k :: k in patch ==> patch[k] == if k in desired then Text(desired[k]) else Null
    {
      var key :| key in todo;
      todo := todo - {key};
      var val := desired[key];
      if Get(base, key) != val {
        patch := patch[key := Text(val)];
      }
    }
  }

  ghost predicate Differs(base: Labels, desired: Labels, k: string) {
    (k in base) != (k in desired) || (k in base && base[k] != desired[k])
  }

  /** The patch names exactly the keys that differ, except those to be added with an empty value. */
  lemma DiffNamesWhatDiffers(base: Labels, desired: Labels, k: string)
    ensures k in Diff(base, desired) <==> Differs(base, desired, k) && !(k !in base && k in desired && desired[k] == "")
  {
  }

  /** PatchLabels against a server that follows the RFC; an empty difference sends nothing. */
  method PatchLabels(server: Json, base: Labels, desired: Labels) returns (after: Json, sent: bool)
    ensures sent <==> Diff(base, desired) != map[]
    ensures after == if sent then MergePatch(server, Body(Diff(base, desired))) else server
  {
    var patch := LabelDiff(base, desired);
    if |patch| == 0 {
      assert patch == map[];
      return server, false;
    }
    after, sent := MergePatch(server, Body(patch)), true;
  }

  // ---------------------------------------------------------------- what the server ends up with

  lemma MergedField(target: Json, patch: Json, k: string)
    requires patch.Object? && k in patch.fields && patch.fields[k] != Null
    ensures Field(MergePatch(target, patch), k) == MergePatch(Field(target, k), patch.fields[k])
  {
  }

  lemma OtherField(target: Json, patch: Json, k: string)
    requires patch.Object? && k !in patch.fields
    ensures Field(MergePatch(target, patch), k) == Field(target, k)
  {
  }

  /** A flat patch removes its null keys and sets the others. */
  ghost function Patched(l: map<string, Json>, patch: map<string, Json>): map<string, Json> {
    map k | k in l.Keys + patch.Keys && !(k in patch && patch[k].Null?) :: if k in patch then patch[k] else l[k]
  }

  lemma MergedFlat(target: Json, patch: map<string, Json>)
    requires forall k :: k in patch ==> !patch[k].Object?
    ensures MergePatch(target, Object(patch)).Object?
    ensures MergePatch(target, Object(patch)).fields == Patched(if target.Object? then target.fields else map[], patch)
  {
  }

  lemma PatchedLabels(server: Json, patch: map<string, Json>)
    requires forall k :: k in patch ==> !patch[k].Object?
    ensures LabelsOf(MergePatch(server, Body(patch))) == Patched(LabelsOf(server), patch)
  {
    hide MergePatch;
    var body := Body(patch);
    MergedField(server, body, "metadata");
    MergedField(Field(server, "metadata"), body.fields["metadata"], "labels");
    MergedFlat(Field(Field(server, "metadata"), "labels"), patch);
  }

  /** Everything but the labels is left alone, and so are labels the patch does not name. */
  lemma PatchTouchesOnlyItsLabels(server: Json, base: Labels, desired: Labels)
    ensures var after := MergePatch(server, Body(Diff(base, desired)));
      && (forall k :: k != "metadata" ==> Field(after, k) == Field(server, k))
      && (forall k :: k != "labels" ==> Field(Field(after, "metadata"), k) == Field(Field(server, "metadata"), k))
      && (forall k :: k !in base && k !in desired ==>
           (k in LabelsOf(after) <==> k in LabelsOf(server)) &&
             (k in LabelsOf(server) ==> LabelsOf(after)[k] == LabelsOf(server)[k]))
  {
    hide MergePatch, Diff;
    var patch := Diff(base, desired);
    var body := Body(patch);
    DiffKeys(base, desired);
    PatchedLabels(server, patch);
    MergedField(server, body, "metadata");
    forall k | k != "metadata" ensures Field(MergePatch(server, body), k) == Field(server, k) {
      OtherField(server, body, k);
    }
    forall k | k != "labels"
      ensures Field(Field(MergePatch(server, body), "metadata"), k) == Field(Field(server, "metadata"), k)
    {
      OtherField(Field(server, "metadata"), body.fields["metadata"], k);
    }
  }

  lemma DiffKeys(base: Labels, desired: Labels)
    ensures Diff(base, desired).Keys <= base.Keys + desired.Keys
  {
  }

  /** No key is to be added with an empty value. */
  ghost predicate AddsNoEmpty(base: Labels, desired: Labels) {
    forall k :: k in desired && k !in base ==> desired[k] != ""
  }

  /** What the server keeps of the desired labels: a key that is new and empty is not in the patch. */
  function Persisted(base: Labels, desired: Labels): Labels {
    map k | k in desired && (k in base || desired[k] != "") :: desired[k]
  }

  lemma PersistedIsPatched(base: Labels, desired: Labels)
    ensures Patched(Texts(base), Diff(base, desired)) == Texts(Persisted(base, desired))
  {
    var after, want := Patched(Texts(base), Diff(base, desired)), Texts(Persisted(base, desired));
    forall k ensures (k in after <==> k in want) && (k in want ==> after[k] == want[k]) {
    }
  }

  lemma PersistedIsDesiredIff(base: Labels, desired: Labels)
    ensures Texts(Persisted(base, desired)) == Texts(desired) <==> AddsNoEmpty(base, desired)
  {
    if k :| k in desired && k !in base && desired[k] == "" {
      assert k in Texts(desired) && k !in Texts(Persisted(base, desired));
    }
  }

  /** A server whose labels are the snapshot keeps exactly the desired labels that are not new and empty. */
  lemma PatchPersists(server: Json, base: Labels, desired: Labels)
    requires LabelsOf(server) == Texts(base)
    ensures LabelsOf(MergePatch(server, Body(Diff(base, desired)))) == Texts(Persisted(base, desired))
    ensures Diff(base, desired) == map[] ==> LabelsOf(server) == Texts(Persisted(base, desired))
  {
    hide MergePatch;
    PatchedLabels(server, Diff(base, desired));
    PersistedIsPatched(base, desired);
    assert Diff(base, desired) == map[] ==> Patched(Texts(base), map[]) == Texts(base);
  }

  /**
  It ends up with the desired labels exactly when no key absent from the snapshot is to be added
  with an empty value.
  */
  lemma PatchReachesDesiredIff(server: Json, base: Labels, desired: Labels)
    requires LabelsOf(server) == Texts(base)
    ensures LabelsOf(MergePatch(server, Body(Diff(base, desired)))) == Texts(desired) <==> AddsNoEmpty(base, desired)
  {
    PatchPersists(server, base, desired);
    PersistedIsDesiredIff(base, desired);
  }

  /** The label a with an empty value, wanted on an object without labels, is never sent. */
  lemma EmptyLabelIsLost(server: Json)
    requires LabelsOf(server) == map[]
    ensures Diff(map[], map["a" := ""]) == map[]
    ensures LabelsOf(MergePatch(server, Body(Diff(map[], map["a" := ""])))) != Texts(map["a" := ""])
  {
    var base: Labels, desired: Labels := map[], map["a" := ""];
    assert Texts(base) == map[];
    PatchReachesDesiredIff(server, base, desired);
    assert "a" in desired && "a" !in base && desired["a"] == "";
    assert !AddsNoEmpty(base, desired);
  }
}
