/** ray_service_update without a rawSpec: the predicted path is settled by the curated deltas. */
module ServiceUpdate {
  import opened Json
  import opened Edits
  import opened GroupEdits
  import opened Normalize
  import opened Classify
  import opened WriteSpec
  import opened MergeSpec

  /** The config the deltas are applied to: a missing or non-object one is replaced by {}. */
  function BaseConfig(spec: Json): (r: Json)
    ensures r.Obj?
  {
    ObjectMember(spec, "rayClusterConfig")
  }

  /** The spec Update submits: the config deltas, then a new serve config if one was given. */
  function SubmittedSpec(spec: Json, d: Deltas, serve: Option<string>): (r: Json)
    requires spec.Obj?
    ensures r.Obj?
  {
    var s := WithMember(spec, "rayClusterConfig", ConfigDeltas(BaseConfig(spec), d));
    if serve.Some? then WithMember(s, "serveConfigV2", Leaf(Str(serve.value))) else s
  }

  /** No delta touches a path the hash ignores. */
  lemma DeltaIsVisible(config: Json, d: Deltas, q: Path)
    requires DeltaPath(d, q)
    ensures !Excluded(config, q)
  {
    if d.image != "" && ImagePath(q) {
      if [Key(HEAD)] + FIRST_CONTAINER + [Key("image")] <= q {
        assert q[0] == Key(HEAD) && q[1..][2] == Key("containers");
      } else {
        assert q[2..][0] == Key("template") && q[2..][2] == Key("containers");
      }
    } else {
      assert q[0] == Key("rayVersion") || q[0] == Key("enableInTreeAutoscaling");
    }
  }

  /** A delta that really changes the config changes its normal form, and never by appending. */
  lemma RealDeltaIsSeen(config: Json, d: Deltas)
    requires config.Obj? && ConfigDeltas(config, d) != config
    ensures Normal(ConfigDeltas(config, d)) != Normal(config)
    ensures !PartialHashEqual(Some(config), Some(ConfigDeltas(config, d)))
  {
    DeltasKeepGroups(config, d);
    var changed := ConfigDeltas(config, d);
    var q := Distinguish(changed, config);
    assert DeltaPath(d, q) by {
      if !DeltaPath(d, q) {
        AtConfigDeltas(config, d, q);
      }
    }
    DeltaIsVisible(config, d, q);
    DeltaIsVisible(changed, d, q);
    AtNormal(changed, q);
    AtNormal(config, q);
  }

  lemma NormalEmpty()
    ensures Normal(Obj(map[])) == Obj(map[])
  {
    var e := Obj(map[]);
    RootEdits(e, UPGRADE, NULL);
  }

  /** The whole prediction.  With no rawSpec, image, rayVersion and autoscaling changes that
      really change the config give a swap prediction and nothing else does; otherwise a serve
      config that really differs gives "in-place"; otherwise nothing changed, except that a
      service without a rayClusterConfig object is reported as "scale (no swap)" because the
      empty config the update creates is not DeepEqual to a missing one. */
  lemma UpdatePrediction(spec: Json, d: Deltas, serve: Option<string>)
    requires spec.Obj?
    ensures Classified(Some(spec), Some(SubmittedSpec(spec, d, serve)))
         == if ConfigDeltas(BaseConfig(spec), d) != BaseConfig(spec) then ClusterChange(spec)
            else if serve.Some? && serve.value != StringMember(spec, "serveConfigV2") then InPlaceServe
            else if ConfigOf(spec).None? then ScaleNoSwap
            else NoChange
    ensures IsSwap(ClusterChange(spec))
  {
    var submitted := SubmittedSpec(spec, d, serve);
    var base := BaseConfig(spec);
    var changed := ConfigDeltas(base, d);
    DeltasKeepGroups(base, d);
    assert Child(submitted, Key("rayClusterConfig")) == Some(changed);
    assert ConfigOf(submitted) == Some(changed);
    assert Child(submitted, Key(UPGRADE)) == Child(spec, Key(UPGRADE));
    assert NormalOpt(ConfigOf(spec)) == Normal(base) by {
      NormalEmpty();
    }
    if changed != base {
      RealDeltaIsSeen(base, d);
      assert !PartialHashEqual(ConfigOf(spec), Some(changed));
    }
  }

  // ---- The whole call

  /** The object Update builds, before rawSpec is merged over it. */
  function ServiceUpdated(raw: Json, namespace: string, name: string, d: Deltas, serve: Option<string>): (r: Json)
    requires raw.Obj?
    ensures r.Obj?
  {
    var obj := ReadForWrite(raw, "RayService", namespace, name, false);
    MetaDeltas(WithMember(obj, "spec", SubmittedSpec(ObjectMember(obj, "spec"), d, serve)), d)
  }

  function ServiceIntent(raw: Json, namespace: string, name: string, d: Deltas, serve: Option<string>, rawSpec: Json)
    : Result<Json, IdentityError>
    requires raw.Obj?
  {
    Merged(ServiceUpdated(raw, namespace, name, d, serve), rawSpec, Identity(namespace, name))
  }

  /** The spec of a merged object; None where the type assertion yields a nil map. */
  function SpecOf(j: Json): Option<Json> {
    match Child(j, Key("spec"))
    case Some(Obj(fields)) => Some(Obj(fields))
    case _ => None
  }

  /** What Update predicts: the live spec against the spec it submits. */
  function Predicted(raw: Json, submitted: Json): Prediction {
    Classified(Some(ObjectMember(raw, "spec")), SpecOf(submitted))
  }

  lemma MetaKeepsOthers(obj: Json, d: Deltas, k: string)
    requires obj.Obj? && k != "metadata"
    ensures Child(MetaDeltas(obj, d), Key(k)) == Child(obj, Key(k))
  {
  }

  lemma MetaKeepsIdentity(obj: Json, d: Deltas, k: string)
    requires obj.Obj? && k != "labels" && k != "annotations"
    ensures Child(ObjectMember(MetaDeltas(obj, d), "metadata"), Key(k)) == Child(ObjectMember(obj, "metadata"), Key(k))
  {
    MetaKeepsOne(obj, "labels", d.labels, k);
    MetaKeepsOne(ApplyMeta(obj, "labels", d.labels), "annotations", d.annotations, k);
  }

  lemma MetaKeepsOne(obj: Json, key: string, kv: map<string, string>, k: string)
    requires obj.Obj? && k != key
    ensures Child(ObjectMember(ApplyMeta(obj, key, kv), "metadata"), Key(k)) == Child(ObjectMember(obj, "metadata"), Key(k))
  {
  }

  lemma StringInMeta(j: Json, k: string)
    ensures StringAt(j, ["metadata", k]) == StringMember(ObjectMember(j, "metadata"), k)
  {
    TwoKeys("metadata", k);
    GetTwo(j, Key("metadata"), Key(k));
  }

  lemma IdentityPinned(raw: Json, namespace: string, name: string, d: Deltas, serve: Option<string>)
    requires raw.Obj?
    ensures var obj := ServiceUpdated(raw, namespace, name, d, serve);
            StringAt(obj, ["metadata", "name"]) == name && StringAt(obj, ["metadata", "namespace"]) == namespace
  {
    var read := ReadForWrite(raw, "RayService", namespace, name, false);
    var built := WithMember(read, "spec", SubmittedSpec(ObjectMember(read, "spec"), d, serve));
    MetaKeepsIdentity(built, d, "name");
    MetaKeepsIdentity(built, d, "namespace");
    StringInMeta(MetaDeltas(built, d), "name");
    StringInMeta(MetaDeltas(built, d), "namespace");
    assert ObjectMember(built, "metadata") == CleanMeta(ObjectMember(raw, "metadata"), namespace, name);
  }

  lemma SubmittedAsBuilt(raw: Json, namespace: string, name: string, d: Deltas, serve: Option<string>)
    requires raw.Obj?
    ensures SpecOf(ServiceUpdated(raw, namespace, name, d, serve)) == Some(SubmittedSpec(ObjectMember(raw, "spec"), d, serve))
  {
    var spec := ObjectMember(raw, "spec");
    var read := ReadForWrite(raw, "RayService", namespace, name, false);
    MetaKeepsOthers(WithMember(read, "spec", SubmittedSpec(spec, d, serve)), d, "spec");
  }

  lemma EmptyPatchAccepted(raw: Json, namespace: string, name: string, d: Deltas, serve: Option<string>)
    requires raw.Obj?
    ensures ServiceIntent(raw, namespace, name, d, serve, Obj(map[])) == Ok(ServiceUpdated(raw, namespace, name, d, serve))
  {
    var obj := ServiceUpdated(raw, namespace, name, d, serve);
    PatchedMembersNone(obj, Obj(map[]));
    assert Patched(obj, Obj(map[])) == obj;
    IdentityPinned(raw, namespace, name, d, serve);
  }

  /** ray_service_update end to end without a rawSpec: the identity guard never objects, and the
      prediction is settled by what the deltas really change in the live config. */
  lemma EndToEndPrediction(raw: Json, namespace: string, name: string, d: Deltas, serve: Option<string>)
    requires raw.Obj?
    ensures var r := ServiceIntent(raw, namespace, name, d, serve, Obj(map[]));
            var spec := ObjectMember(raw, "spec");
            r.Ok? && Predicted(raw, r.value)
                     == if ConfigDeltas(BaseConfig(spec), d) != BaseConfig(spec) then ClusterChange(spec)
                        else if serve.Some? && serve.value != StringMember(spec, "serveConfigV2") then InPlaceServe
                        else if ConfigOf(spec).None? then ScaleNoSwap
                        else NoChange
  {
    EmptyPatchAccepted(raw, namespace, name, d, serve);
    SubmittedAsBuilt(raw, namespace, name, d, serve);
    UpdatePrediction(ObjectMember(raw, "spec"), d, serve);
  }
}
