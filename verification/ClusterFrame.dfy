/** What ray_cluster_update and ray_cluster_scale submit, compared path by path with the object
    they read. */
module ClusterFrame {
  import opened Json
  import opened Edits
  import opened MergeSpec
  import opened GroupEdits
  import opened WriteSpec

  const PINNED: set<string> := {"name", "namespace"}

  // ---- Paths Update may change

  predicate LabelTouched(meta: Json, key: string, kv: map<string, string>, r: Path) {
    && kv != map[] && r != [] && r[0] == Key(key)
    && (!ObjectAt(meta, [Key(key)]) || (|r| >= 2 && r[1].Key? && r[1].key in kv))
  }

  predicate MetaTouched(meta: Json, d: Deltas, r: Path) {
    || (r != [] && r[0].Key? && r[0].key in SERVER_FIELDS + PINNED)
    || LabelTouched(meta, "labels", d.labels, r)
    || LabelTouched(meta, "annotations", d.annotations, r)
  }

  predicate StrippedPath(spec: Json, r: Path) {
    InGroup(r) && Get(spec, r[..2]).Some? && CommandPath(Get(spec, r[..2]).value, r[2..])
  }

  predicate OwnedTop(q: Path) {
    q != [] && q[0] in {Key("status"), Key("apiVersion"), Key("kind")}
  }

  /** Server-written or pinned fields, worker commands, and exactly the fields asked for.  A
      metadata or spec that is not an object is replaced as a whole. */
  predicate UpdateTouches(raw: Json, d: Deltas, q: Path) {
    || OwnedTop(q)
    || (q != [] && q[0] == Key("metadata")
        && (!ObjectAt(raw, [Key("metadata")]) || MetaTouched(ObjectMember(raw, "metadata"), d, q[1..])))
    || (q != [] && q[0] == Key("spec")
        && (!ObjectAt(raw, [Key("spec")])
            || DeltaPath(d, q[1..]) || StrippedPath(ObjectMember(raw, "spec"), q[1..])))
  }

  // ---- Frame lemmas, one builder step each

  lemma AtMember(j: Json, k: string, q: Path)
    requires q != [] && q[0] == Key(k)
    ensures At(j, q) == if Child(j, Key(k)).Some? then At(Child(j, Key(k)).value, q[1..]) else None
  {
  }

  lemma MemberObject(j: Json, k: string)
    ensures ObjectAt(j, [Key(k)]) <==> Child(j, Key(k)) == Some(ObjectMember(j, k))
  {
    GetOne(j, Key(k));
  }

  lemma StripKeepsShape(spec: Json)
    requires spec.Obj?
    ensures EditGroups(Stripping, spec).Obj?
    ensures HasGroups(EditGroups(Stripping, spec)) == HasGroups(spec)
    ensures Groups(EditGroups(Stripping, spec)) == EditList(Stripping, Groups(spec))
  {
    HasGroupsAfter(Stripping, spec);
  }

  lemma AtStripped(spec: Json, r: Path)
    requires spec.Obj? && !StrippedPath(spec, r)
    ensures At(EditGroups(Stripping, spec), r) == At(spec, r)
  {
    AtEditGroups(Stripping, spec, r);
    if InGroup(r) && Get(spec, r[..2]).Some? {
      AtDropCommands(Get(spec, r[..2]).value, r[2..]);
      GroupAtPath(spec, r);
    }
  }

  lemma AtCleanMeta(meta: Json, namespace: string, name: string, r: Path)
    requires meta.Obj? && !(r != [] && r[0].Key? && r[0].key in SERVER_FIELDS + PINNED)
    ensures At(CleanMeta(meta, namespace, name), r) == At(meta, r)
  {
    if r != [] && r[0].Key? {
      AtMember(meta, r[0].key, r);
      AtMember(CleanMeta(meta, namespace, name), r[0].key, r);
      assert Child(CleanMeta(meta, namespace, name), r[0]) == Child(meta, r[0]);
    }
  }

  /** applyMetaStringMap, inside the metadata object. */
  function LabelsMerged(meta: Json, key: string, kv: map<string, string>): (r: Json)
    requires meta.Obj?
    ensures r.Obj?
  {
    if kv == map[] then meta
    else WithMember(meta, key, Obj(ObjectMember(meta, key).fields + StringValues(kv)))
  }

  lemma ApplyMetaMember(obj: Json, key: string, kv: map<string, string>)
    requires obj.Obj? && ObjectAt(obj, [Key("metadata")])
    ensures ObjectAt(ApplyMeta(obj, key, kv), [Key("metadata")])
    ensures ObjectMember(ApplyMeta(obj, key, kv), "metadata") == LabelsMerged(ObjectMember(obj, "metadata"), key, kv)
    ensures forall s | s != Key("metadata") :: Child(ApplyMeta(obj, key, kv), s) == Child(obj, s)
  {
    MemberObject(obj, "metadata");
    MemberObject(ApplyMeta(obj, key, kv), "metadata");
  }

  lemma AtLabelsMerged(meta: Json, key: string, kv: map<string, string>, r: Path)
    requires meta.Obj? && !LabelTouched(meta, key, kv, r)
    ensures At(LabelsMerged(meta, key, kv), r) == At(meta, r)
  {
    var after := LabelsMerged(meta, key, kv);
    if kv != map[] && r != [] && r[0].Key? {
      AtMember(meta, r[0].key, r);
      AtMember(after, r[0].key, r);
      if r[0] == Key(key) {
        MemberObject(meta, key);
        var dst := ObjectMember(meta, key);
        if |r| >= 2 && r[1].Key? {
          AtMember(dst, r[1].key, r[1..]);
          AtMember(Child(after, Key(key)).value, r[1].key, r[1..]);
        }
      }
    }
  }

  /** The metadata Update submits. */
  lemma UpdatedMeta(raw: Json, namespace: string, name: string, d: Deltas)
    requires raw.Obj?
    ensures Child(ClusterUpdated(raw, namespace, name, d), Key("metadata"))
         == Some(LabelsMerged(LabelsMerged(CleanMeta(ObjectMember(raw, "metadata"), namespace, name), "labels", d.labels),
                              "annotations", d.annotations))
    ensures forall s | s != Key("metadata") ::
              Child(ClusterUpdated(raw, namespace, name, d), s)
              == Child(WithMember(ReadForWrite(raw, "RayCluster", namespace, name, true), "spec", UpdatedSpec(raw, d)), s)
  {
    var obj := ReadForWrite(raw, "RayCluster", namespace, name, true);
    UpdatedSpecMember(raw, namespace, name, d);
    var o1 := WithMember(obj, "spec", UpdatedSpec(raw, d));
    MemberObject(o1, "metadata");
    ApplyMetaMember(o1, "labels", d.labels);
    var o2 := ApplyMeta(o1, "labels", d.labels);
    ApplyMetaMember(o2, "annotations", d.annotations);
    MemberObject(ApplyMeta(o2, "annotations", d.annotations), "metadata");
  }

  /** The spec Update submits. */
  function UpdatedSpec(raw: Json, d: Deltas): Json {
    ConfigDeltas(EditGroups(Stripping, ObjectMember(raw, "spec")), d)
  }

  lemma UpdatedSpecMember(raw: Json, namespace: string, name: string, d: Deltas)
    requires raw.Obj?
    ensures ObjectMember(ReadForWrite(raw, "RayCluster", namespace, name, true), "spec")
         == EditGroups(Stripping, ObjectMember(raw, "spec"))
    ensures UpdatedSpec(raw, d).Obj?
  {
    StripKeepsShape(ObjectMember(raw, "spec"));
    AtConfigDeltasShape(EditGroups(Stripping, ObjectMember(raw, "spec")), d);
  }

  lemma AtConfigDeltasShape(config: Json, d: Deltas)
    requires config.Obj?
    ensures ConfigDeltas(config, d).Obj?
  {
    DeltasKeepGroups(config, d);
  }

  /** Frame of Update: what it submits carries the live value at every path it does not own and
      was not asked to change. */
  lemma UpdateFrame(raw: Json, namespace: string, name: string, d: Deltas, q: Path)
    requires raw.Obj? && !UpdateTouches(raw, d, q)
    ensures At(ClusterUpdated(raw, namespace, name, d), q) == At(raw, q)
  {
    var result := ClusterUpdated(raw, namespace, name, d);
    UpdatedMeta(raw, namespace, name, d);
    UpdatedSpecMember(raw, namespace, name, d);
    if q != [] && q[0].Key? {
      var k := q[0].key;
      AtMember(raw, k, q);
      AtMember(result, k, q);
      if k == "metadata" {
        MetaFrame(ObjectMember(raw, "metadata"), namespace, name, d, q[1..]);
        MemberObject(raw, "metadata");
      } else if k == "spec" {
        SpecFrame(ObjectMember(raw, "spec"), d, q[1..]);
        MemberObject(raw, "spec");
      }
    }
  }

  lemma MetaFrame(meta: Json, namespace: string, name: string, d: Deltas, r: Path)
    requires meta.Obj? && !MetaTouched(meta, d, r)
    ensures At(LabelsMerged(LabelsMerged(CleanMeta(meta, namespace, name), "labels", d.labels), "annotations", d.annotations), r)
         == At(meta, r)
  {
    var m1 := CleanMeta(meta, namespace, name);
    AtCleanMeta(meta, namespace, name, r);
    var m2 := LabelsMerged(m1, "labels", d.labels);
    GetOne(meta, Key("labels"));
    GetOne(m1, Key("labels"));
    AtLabelsMerged(m1, "labels", d.labels, r);
    GetOne(meta, Key("annotations"));
    GetOne(m2, Key("annotations"));
    AtLabelsMerged(m2, "annotations", d.annotations, r);
  }

  lemma SpecFrame(spec: Json, d: Deltas, r: Path)
    requires spec.Obj? && !DeltaPath(d, r) && !StrippedPath(spec, r)
    ensures At(ConfigDeltas(EditGroups(Stripping, spec), d), r) == At(spec, r)
  {
    AtStripped(spec, r);
    StripKeepsShape(spec);
    AtConfigDeltas(EditGroups(Stripping, spec), d, r);
  }

  // ---- What the touched paths carry

  lemma LabelsMember(meta: Json, key: string, kv: map<string, string>, k: string)
    requires meta.Obj?
    ensures k != key ==> Child(LabelsMerged(meta, key, kv), Key(k)) == Child(meta, Key(k))
    ensures k in kv ==> Get(LabelsMerged(meta, key, kv), [Key(key), Key(k)]) == Some(Leaf(Str(kv[k])))
  {
    GetTwo(LabelsMerged(meta, key, kv), Key(key), Key(k));
  }

  function FinalMeta(meta: Json, namespace: string, name: string, d: Deltas): Json
    requires meta.Obj?
  {
    LabelsMerged(LabelsMerged(CleanMeta(meta, namespace, name), "labels", d.labels), "annotations", d.annotations)
  }

  lemma PinnedKept(meta: Json, namespace: string, name: string, d: Deltas, k: string)
    requires meta.Obj? && k in SERVER_FIELDS + PINNED
    ensures Child(FinalMeta(meta, namespace, name, d), Key(k))
         == if k == "name" then Some(Leaf(Str(name))) else if k == "namespace" then Some(Leaf(Str(namespace))) else None
  {
    var m1 := CleanMeta(meta, namespace, name);
    LabelsMember(m1, "labels", d.labels, k);
    LabelsMember(LabelsMerged(m1, "labels", d.labels), "annotations", d.annotations, k);
  }

  lemma LabelsInstalled(meta: Json, namespace: string, name: string, d: Deltas, k: string)
    requires meta.Obj?
    ensures k in d.labels ==> Get(FinalMeta(meta, namespace, name, d), [Key("labels"), Key(k)]) == Some(Leaf(Str(d.labels[k])))
    ensures k in d.annotations ==>
              Get(FinalMeta(meta, namespace, name, d), [Key("annotations"), Key(k)]) == Some(Leaf(Str(d.annotations[k])))
  {
    var m1 := CleanMeta(meta, namespace, name);
    var m2 := LabelsMerged(m1, "labels", d.labels);
    LabelsMember(m1, "labels", d.labels, k);
    LabelsMember(m2, "annotations", d.annotations, k);
    LabelsMember(m2, "annotations", d.annotations, "labels");
    GetTwo(m2, Key("labels"), Key(k));
    GetTwo(FinalMeta(meta, namespace, name, d), Key("labels"), Key(k));
  }

  /** The submitted metadata: identity pinned, nothing server-written, every label and annotation
      asked for. */
  lemma UpdatedMetaEffects(raw: Json, namespace: string, name: string, d: Deltas) returns (meta: Json)
    requires raw.Obj?
    ensures Child(ClusterUpdated(raw, namespace, name, d), Key("metadata")) == Some(meta)
    ensures Child(meta, Key("name")) == Some(Leaf(Str(name)))
    ensures Child(meta, Key("namespace")) == Some(Leaf(Str(namespace)))
    ensures forall k | k in SERVER_FIELDS :: Child(meta, Key(k)) == None
    ensures forall k | k in d.labels :: Get(meta, [Key("labels"), Key(k)]) == Some(Leaf(Str(d.labels[k])))
    ensures forall k | k in d.annotations :: Get(meta, [Key("annotations"), Key(k)]) == Some(Leaf(Str(d.annotations[k])))
  {
    UpdatedMeta(raw, namespace, name, d);
    var was := ObjectMember(raw, "metadata");
    meta := FinalMeta(was, namespace, name, d);
    PinnedKept(was, namespace, name, d, "name");
    PinnedKept(was, namespace, name, d, "namespace");
    forall k | k in SERVER_FIELDS ensures Child(meta, Key(k)) == None {
      PinnedKept(was, namespace, name, d, k);
    }
    forall k ensures k in d.labels ==> Get(meta, [Key("labels"), Key(k)]) == Some(Leaf(Str(d.labels[k])))
    {
      LabelsInstalled(was, namespace, name, d, k);
    }
    forall k ensures k in d.annotations ==> Get(meta, [Key("annotations"), Key(k)]) == Some(Leaf(Str(d.annotations[k])))
    {
      LabelsInstalled(was, namespace, name, d, k);
    }
  }

  lemma ImageSet(group: Json, image: string)
    requires ObjectAt(group, FIRST_CONTAINER)
    ensures At(SetFirstImage(group, image), FIRST_CONTAINER + [Key("image")]) == Some(Leaf(Str(image)))
  {
    var p := FIRST_CONTAINER + [Key("image")];
    AtSet(group, FIRST_CONTAINER, "image", Leaf(Str(image)), p);
    assert p[|FIRST_CONTAINER| + 1..] == [];
  }

  /** The submitted config: version and flag as asked, and the new image in the first container of
      the head and of every worker group that has one; containers are never created. */
  lemma ConfigEffects(config: Json, d: Deltas)
    requires config.Obj?
    ensures d.rayVersion != "" ==> Child(ConfigDeltas(config, d), Key("rayVersion")) == Some(Leaf(Str(d.rayVersion)))
    ensures d.autoscaling.Some? ==>
              Child(ConfigDeltas(config, d), Key("enableInTreeAutoscaling")) == Some(Leaf(Bool(d.autoscaling.value)))
    ensures |Groups(ConfigDeltas(config, d))| == |Groups(config)|
    ensures d.image != "" ==>
              forall i | 0 <= i < |Groups(config)| && ObjectAt(Groups(config)[i], FIRST_CONTAINER) ::
                At(Groups(ConfigDeltas(config, d))[i], FIRST_CONTAINER + [Key("image")]) == Some(Leaf(Str(d.image)))
    ensures d.image != "" && Child(config, Key(HEAD)).Some? && ObjectAt(Child(config, Key(HEAD)).value, FIRST_CONTAINER) ==>
              && Child(ConfigDeltas(config, d), Key(HEAD)).Some?
              && At(Child(ConfigDeltas(config, d), Key(HEAD)).value, FIRST_CONTAINER + [Key("image")]) == Some(Leaf(Str(d.image)))
  {
    DeltasKeepGroups(config, d);
    ConfigMembers(config, d);
    if d.image != "" {
      forall i | 0 <= i < |Groups(config)| && ObjectAt(Groups(config)[i], FIRST_CONTAINER)
        ensures At(Groups(ConfigDeltas(config, d))[i], FIRST_CONTAINER + [Key("image")]) == Some(Leaf(Str(d.image)))
      {
        ImageSet(Groups(config)[i], d.image);
      }
      if Child(config, Key(HEAD)).Some? && ObjectAt(Child(config, Key(HEAD)).value, FIRST_CONTAINER) {
        ImageSet(Child(config, Key(HEAD)).value, d.image);
      }
    }
  }

  lemma ConfigMembers(config: Json, d: Deltas)
    requires config.Obj?
    ensures d.rayVersion != "" ==> Child(ConfigDeltas(config, d), Key("rayVersion")) == Some(Leaf(Str(d.rayVersion)))
    ensures d.autoscaling.Some? ==>
              Child(ConfigDeltas(config, d), Key("enableInTreeAutoscaling")) == Some(Leaf(Bool(d.autoscaling.value)))
    ensures d.image != "" && Child(config, Key(HEAD)).Some? ==>
              Child(ConfigDeltas(config, d), Key(HEAD)) == Some(SetFirstImage(Child(config, Key(HEAD)).value, d.image))
  {
    var e := SettingImage(d.image);
    var c1 := if d.rayVersion != "" then SetAt(config, [], "rayVersion", Leaf(Str(d.rayVersion))) else config;
    RootEdits(config, "rayVersion", Leaf(Str(d.rayVersion)));
    var c2 := if d.image != "" then SetClusterImage(c1, d.image) else c1;
    if d.image != "" {
      if Child(c1, Key(HEAD)).Some? {
        EditedHead(e, c1);
      }
      HasGroupsAfter(e, EditHead(e, c1));
      SetImageKeepsShape(c1, d.image);
    }
    if d.autoscaling.Some? {
      RootEdits(c2, "enableInTreeAutoscaling", Leaf(Bool(d.autoscaling.value)));
    }
  }

  /** No worker command is ever re-sent. */
  lemma CommandsStripped(spec: Json)
    requires spec.Obj?
    ensures forall i | 0 <= i < |Groups(EditGroups(Stripping, spec))| ::
              At(Groups(EditGroups(Stripping, spec))[i], [Key(STRATEGY), Key(COMMANDS)]) == None
  {
    StripKeepsShape(spec);
    forall i | 0 <= i < |Groups(spec)|
      ensures At(DropCommands(Groups(spec)[i]), [Key(STRATEGY), Key(COMMANDS)]) == None
    {
      AtDropCommands(Groups(spec)[i], [Key(STRATEGY), Key(COMMANDS)]);
    }
  }

  /** The submitted top level: apiVersion and kind set, status dropped. */
  lemma UpdatedTop(raw: Json, namespace: string, name: string, d: Deltas)
    requires raw.Obj?
    ensures var sent := ClusterUpdated(raw, namespace, name, d);
            && Child(sent, Key("apiVersion")) == Some(Leaf(Str("ray.io/v1")))
            && Child(sent, Key("kind")) == Some(Leaf(Str("RayCluster")))
            && Child(sent, Key("status")) == None
  {
    UpdatedMeta(raw, namespace, name, d);
    UpdatedSpecMember(raw, namespace, name, d);
  }

  /** No worker group Update submits carries a worker command, nor a scaleStrategy that held nothing
      else. */
  lemma NoCommandsSent(raw: Json, namespace: string, name: string, d: Deltas, i: nat)
    requires raw.Obj?
    ensures var group := [Key("spec"), Key("workerGroupSpecs"), Index(i)];
            var sent := ClusterUpdated(raw, namespace, name, d);
            && At(sent, group + [Key("scaleStrategy"), Key("workersToDelete")]) == None
            && (Get(raw, group).Some? && Husk(Get(raw, group).value) ==> At(sent, group + [Key("scaleStrategy")]) == None)
  {
    var group := [Key("spec"), Key("workerGroupSpecs"), Index(i)];
    var sent, spec := ClusterUpdated(raw, namespace, name, d), ObjectMember(raw, "spec");
    UpdatedMeta(raw, namespace, name, d);
    UpdatedSpecMember(raw, namespace, name, d);
    assert Child(sent, Key("spec")) == Some(UpdatedSpec(raw, d));
    NoCommandsAt(spec, d, i, [Key(STRATEGY), Key(COMMANDS)]);
    NoCommandsAt(spec, d, i, [Key(STRATEGY)]);
    InSpec(sent, group + [Key("scaleStrategy"), Key("workersToDelete")]);
    InSpec(sent, group + [Key("scaleStrategy")]);
    InSpec(raw, group);
    assert (group + [Key("scaleStrategy"), Key("workersToDelete")])[1..] == [Key(WORKERS), Index(i)] + [Key(STRATEGY), Key(COMMANDS)];
    assert (group + [Key("scaleStrategy")])[1..] == [Key(WORKERS), Index(i)] + [Key(STRATEGY)];
    assert group[1..] == [Key(WORKERS), Index(i)];
  }

  lemma InSpec(j: Json, q: Path)
    requires q != [] && q[0] == Key("spec")
    ensures Get(j, q) == if Child(j, Key("spec")).Some? then Get(Child(j, Key("spec")).value, q[1..]) else None
    ensures |q| >= 3 && q[1] == Key(WORKERS) && q[2].Index? && Get(j, q).Some? ==> Get(ObjectMember(j, "spec"), q[1..]) == Get(j, q)
  {
    if Child(j, Key("spec")).Some? && !Child(j, Key("spec")).value.Obj? && |q| >= 2 && q[1].Key? {
      assert q[1..][0] == q[1];
    }
  }

  /** r is a command path of the live group i, which nothing puts back. */
  lemma NoCommandsAt(spec: Json, d: Deltas, i: nat, r: Path)
    requires spec.Obj? && (r == [Key(STRATEGY), Key(COMMANDS)] || r == [Key(STRATEGY)])
    ensures var q := [Key(WORKERS), Index(i)];
            var sent := ConfigDeltas(EditGroups(Stripping, spec), d);
            Get(spec, q).None? || CommandPath(Get(spec, q).value, r) ==> At(sent, q + r) == None
    ensures r == [Key(STRATEGY), Key(COMMANDS)] ==>
              At(ConfigDeltas(EditGroups(Stripping, spec), d), [Key(WORKERS), Index(i)] + r) == None
  {
    var q := [Key(WORKERS), Index(i)];
    var p := q + r;
    assert p[..2] == q && p[2..] == r;
    assert p[0] == Key(WORKERS) && p[2] == Key(STRATEGY);
    assert !ImagePath(p) by {
      assert p[2..][0] == Key(STRATEGY);
    }
    StripKeepsShape(spec);
    AtConfigDeltas(EditGroups(Stripping, spec), d, p);
    AtEditGroups(Stripping, spec, p);
    GroupAtPath(spec, p);
    if Get(spec, q).Some? {
      AtDropCommands(Get(spec, q).value, r);
    }
  }
}
