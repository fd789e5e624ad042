/** What ray_service_update submits, compared path by path with the object it read. */
module ServiceFrame {
  import opened Json
  import opened Edits
  import opened MergeSpec
  import opened GroupEdits
  import opened WriteSpec
  import opened ClusterFrame
  import opened ServiceUpdate

  /** The metadata deltas, seen from the metadata. */
  lemma MetaDeltasMember(obj: Json, d: Deltas)
    requires obj.Obj? && ObjectAt(obj, [Key("metadata")])
    ensures Child(MetaDeltas(obj, d), Key("metadata"))
         == Some(LabelsMerged(LabelsMerged(ObjectMember(obj, "metadata"), "labels", d.labels), "annotations", d.annotations))
  {
    ApplyMetaMember(obj, "labels", d.labels);
    var labeled := ApplyMeta(obj, "labels", d.labels);
    ApplyMetaMember(labeled, "annotations", d.annotations);
    MemberObject(ApplyMeta(labeled, "annotations", d.annotations), "metadata");
  }

  lemma ServiceMeta(raw: Json, namespace: string, name: string, d: Deltas, serve: Option<string>)
    requires raw.Obj?
    ensures Child(ServiceUpdated(raw, namespace, name, d, serve), Key("metadata"))
         == Some(FinalMeta(ObjectMember(raw, "metadata"), namespace, name, d))
  {
    var read := ReadForWrite(raw, "RayService", namespace, name, false);
    var built := WithMember(read, "spec", SubmittedSpec(ObjectMember(read, "spec"), d, serve));
    MemberObject(built, "metadata");
    assert ObjectMember(built, "metadata") == CleanMeta(ObjectMember(raw, "metadata"), namespace, name);
    MetaDeltasMember(built, d);
  }

  /** Server-written or pinned fields, the serve config if one is given, and the config fields asked for.
      A metadata, spec or rayClusterConfig that is not an object is replaced as a whole. */
  predicate ServiceTouches(raw: Json, d: Deltas, serve: Option<string>, q: Path) {
    || OwnedTop(q)
    || (q != [] && q[0] == Key("metadata")
        && (!ObjectAt(raw, [Key("metadata")]) || MetaTouched(ObjectMember(raw, "metadata"), d, q[1..])))
    || (q != [] && q[0] == Key("spec")
        && (!ObjectAt(raw, [Key("spec")]) || SpecTouched(ObjectMember(raw, "spec"), d, serve, q[1..])))
  }

  predicate SpecTouched(spec: Json, d: Deltas, serve: Option<string>, r: Path) {
    || (serve.Some? && [Key("serveConfigV2")] <= r)
    || (r != [] && r[0] == Key("rayClusterConfig") && (!ObjectAt(spec, [Key("rayClusterConfig")]) || DeltaPath(d, r[1..])))
  }

  lemma ServiceMembers(raw: Json, namespace: string, name: string, d: Deltas, serve: Option<string>, k: string)
    requires raw.Obj? && k != "metadata"
    ensures Child(ServiceUpdated(raw, namespace, name, d, serve), Key(k))
         == if k == "spec" then Some(SubmittedSpec(ObjectMember(raw, "spec"), d, serve))
            else if k == "apiVersion" then Some(Leaf(Str("ray.io/v1")))
            else if k == "kind" then Some(Leaf(Str("RayService")))
            else if k == "status" then None
            else Child(raw, Key(k))
  {
    var read := ReadForWrite(raw, "RayService", namespace, name, false);
    MetaKeepsOthers(WithMember(read, "spec", SubmittedSpec(ObjectMember(read, "spec"), d, serve)), d, k);
  }

  lemma SubmittedSpecFrame(spec: Json, d: Deltas, serve: Option<string>, r: Path)
    requires spec.Obj? && !SpecTouched(spec, d, serve, r)
    ensures At(SubmittedSpec(spec, d, serve), r) == At(spec, r)
  {
    if r != [] && r[0].Key? {
      var k, sent := r[0].key, SubmittedSpec(spec, d, serve);
      AtMember(spec, k, r);
      AtMember(sent, k, r);
      if k == "rayClusterConfig" {
        MemberObject(spec, k);
        AtConfigDeltas(BaseConfig(spec), d, r[1..]);
      }
    }
  }

  /** Frame of the service update: the live label at every path it does not own and was not asked to
      change, worker commands included. */
  lemma ServiceUpdateFrame(raw: Json, namespace: string, name: string, d: Deltas, serve: Option<string>, q: Path)
    requires raw.Obj? && !ServiceTouches(raw, d, serve, q)
    ensures At(ServiceUpdated(raw, namespace, name, d, serve), q) == At(raw, q)
  {
    var result := ServiceUpdated(raw, namespace, name, d, serve);
    if q != [] && q[0].Key? {
      var k := q[0].key;
      AtMember(raw, k, q);
      AtMember(result, k, q);
      if k == "metadata" {
        ServiceMeta(raw, namespace, name, d, serve);
        MemberObject(raw, k);
        MetaFrame(ObjectMember(raw, k), namespace, name, d, q[1..]);
      } else {
        ServiceMembers(raw, namespace, name, d, serve, k);
        if k == "spec" {
          MemberObject(raw, k);
          SubmittedSpecFrame(ObjectMember(raw, k), d, serve, q[1..]);
        }
      }
    }
  }

  /** What the touched paths carry: top level, identity, labels and annotations, the serve config, and the
      config deltas on the live config (see ConfigEffects). */
  lemma ServiceEffects(raw: Json, namespace: string, name: string, d: Deltas, serve: Option<string>)
    requires raw.Obj?
    ensures var sent := ServiceUpdated(raw, namespace, name, d, serve);
            && Get(sent, [Key("apiVersion")]) == Some(Leaf(Str("ray.io/v1")))
            && Get(sent, [Key("kind")]) == Some(Leaf(Str("RayService")))
            && Get(sent, [Key("status")]) == None
            && Get(sent, [Key("metadata"), Key("name")]) == Some(Leaf(Str(name)))
            && Get(sent, [Key("metadata"), Key("namespace")]) == Some(Leaf(Str(namespace)))
            && (forall k | k in SERVER_FIELDS :: Get(sent, [Key("metadata"), Key(k)]) == None)
            && (serve.Some? ==> Get(sent, [Key("spec"), Key("serveConfigV2")]) == Some(Leaf(Str(serve.value))))
            && Get(sent, [Key("spec"), Key("rayClusterConfig")])
               == Some(ConfigDeltas(if ObjectAt(ObjectMember(raw, "spec"), [Key("rayClusterConfig")])
                                    then Child(ObjectMember(raw, "spec"), Key("rayClusterConfig")).value
                                    else Obj(map[]), d))
  {
    var sent := ServiceUpdated(raw, namespace, name, d, serve);
    ServiceMembers(raw, namespace, name, d, serve, "apiVersion");
    ServiceMembers(raw, namespace, name, d, serve, "kind");
    ServiceMembers(raw, namespace, name, d, serve, "status");
    ServiceMembers(raw, namespace, name, d, serve, "spec");
    GetOne(sent, Key("apiVersion"));
    GetOne(sent, Key("kind"));
    GetOne(sent, Key("status"));
    GetTwo(sent, Key("spec"), Key("serveConfigV2"));
    GetTwo(sent, Key("spec"), Key("rayClusterConfig"));
    GetOne(ObjectMember(raw, "spec"), Key("rayClusterConfig"));
    ServiceIdentity(raw, namespace, name, d, serve);
  }

  lemma ServiceIdentity(raw: Json, namespace: string, name: string, d: Deltas, serve: Option<string>)
    requires raw.Obj?
    ensures var sent := ServiceUpdated(raw, namespace, name, d, serve);
            && Get(sent, [Key("metadata"), Key("name")]) == Some(Leaf(Str(name)))
            && Get(sent, [Key("metadata"), Key("namespace")]) == Some(Leaf(Str(namespace)))
            && (forall k | k in SERVER_FIELDS :: Get(sent, [Key("metadata"), Key(k)]) == None)
  {
    var sent := ServiceUpdated(raw, namespace, name, d, serve);
    ServiceMeta(raw, namespace, name, d, serve);
    forall k | k in SERVER_FIELDS + PINNED
      ensures Get(sent, [Key("metadata"), Key(k)])
           == if k == "name" then Some(Leaf(Str(name))) else if k == "namespace" then Some(Leaf(Str(namespace))) else None
    {
      GetTwo(sent, Key("metadata"), Key(k));
      PinnedKept(ObjectMember(raw, "metadata"), namespace, name, d, k);
    }
    assert "name" in PINNED && "namespace" in PINNED;
  }

  /** Every label and annotation asked for is there. */
  lemma ServiceLabels(raw: Json, namespace: string, name: string, d: Deltas, serve: Option<string>, k: string)
    requires raw.Obj?
    ensures var meta := Get(ServiceUpdated(raw, namespace, name, d, serve), [Key("metadata")]);
            && meta.Some?
            && (k in d.labels ==> Get(meta.value, [Key("labels"), Key(k)]) == Some(Leaf(Str(d.labels[k]))))
            && (k in d.annotations ==> Get(meta.value, [Key("annotations"), Key(k)]) == Some(Leaf(Str(d.annotations[k]))))
  {
    GetOne(ServiceUpdated(raw, namespace, name, d, serve), Key("metadata"));
    ServiceMeta(raw, namespace, name, d, serve);
    LabelsInstalled(ObjectMember(raw, "metadata"), namespace, name, d, k);
  }

  // ---- Names

  /** The fields the builders and the classifier name. */
  lemma FieldNames()
    ensures WORKERS == "workerGroupSpecs" && HEAD == "headGroupSpec"
    ensures STRATEGY == "scaleStrategy" && COMMANDS == "workersToDelete"
    ensures POD_SPEC == [Key("template"), Key("spec")]
    ensures FIRST_CONTAINER == [Key("template"), Key("spec"), Key("containers"), Index(0)]
    ensures API_VERSION == "ray.io/v1" && PINNED == {"name", "namespace"}
    ensures SERVER_FIELDS == {"managedFields", "resourceVersion", "uid", "creationTimestamp", "generation", "selfLink"}
  {
  }
}
