/** What the read-modify-apply builders submit, as functions of the object they read. */
module WriteSpec {
  import opened Json
  import opened Edits
  import opened GroupEdits

  const API_VERSION := "ray.io/v1"

  /** Metadata the API server writes; the builders drop it from the intent. */
  const SERVER_FIELDS: set<string> :=
    {"managedFields", "resourceVersion", "uid", "creationTimestamp", "generation", "selfLink"}

  /** The curated changes of an update; an empty string, map or None means unchanged. */
  datatype Deltas = Deltas(
    image: string, rayVersion: string, autoscaling: Option<bool>,
    labels: map<string, string>, annotations: map<string, string>)

  /** The object member k, or a new empty object where it is missing or not an object. */
  function ObjectMember(j: Json, k: string): (r: Json)
    ensures r.Obj?
  {
    match Child(j, Key(k))
    case Some(Obj(fields)) => Obj(fields)
    case _ => Obj(map[])
  }

  function WithMember(j: Json, k: string, c: Json): (r: Json)
    requires j.Obj?
    ensures r.Obj?
  {
    Obj(j.fields[k := c])
  }

  /** Metadata without server fields and with the identity pinned. */
  function CleanMeta(meta: Json, namespace: string, name: string): (r: Json)
    requires meta.Obj?
    ensures r.Obj?
  {
    Obj((meta.fields - SERVER_FIELDS)["name" := Leaf(Str(name))]["namespace" := Leaf(Str(namespace))])
  }

  /** readForWrite; the cluster service also strips worker commands (strip). */
  function ReadForWrite(raw: Json, kind: string, namespace: string, name: string, strip: bool): (r: Json)
    requires raw.Obj?
    ensures r.Obj?
  {
    var spec := ObjectMember(raw, "spec");
    Obj((raw.fields - {"status"})
          ["apiVersion" := Leaf(Str(API_VERSION))]
          ["kind" := Leaf(Str(kind))]
          ["metadata" := CleanMeta(ObjectMember(raw, "metadata"), namespace, name)]
          ["spec" := if strip then EditGroups(Stripping, spec) else spec])
  }

  /** The cluster-config part of an update, in the order the code applies it. */
  function ConfigDeltas(config: Json, d: Deltas): Json {
    var c1 := if d.rayVersion != "" then SetAt(config, [], "rayVersion", Leaf(Str(d.rayVersion))) else config;
    var c2 := if d.image != "" then SetClusterImage(c1, d.image) else c1;
    if d.autoscaling.Some? then SetAt(c2, [], "enableInTreeAutoscaling", Leaf(Bool(d.autoscaling.value))) else c2
  }

  function StringValues(kv: map<string, string>): map<string, Json> {
    map k | k in kv :: Leaf(Str(kv[k]))
  }

  /** applyMetaStringMap. */
  function ApplyMeta(obj: Json, key: string, kv: map<string, string>): (r: Json)
    requires obj.Obj?
    ensures r.Obj?
  {
    if kv == map[] then obj
    else
      var meta := ObjectMember(obj, "metadata");
      WithMember(obj, "metadata", WithMember(meta, key, Obj(ObjectMember(meta, key).fields + StringValues(kv))))
  }

  function MetaDeltas(obj: Json, d: Deltas): (r: Json)
    requires obj.Obj?
    ensures r.Obj?
  {
    ApplyMeta(ApplyMeta(obj, "labels", d.labels), "annotations", d.annotations)
  }

  /** The object cluster Update builds, before rawSpec is merged over it. */
  function ClusterUpdated(raw: Json, namespace: string, name: string, d: Deltas): (r: Json)
    requires raw.Obj?
    ensures r.Obj?
  {
    var obj := ReadForWrite(raw, "RayCluster", namespace, name, true);
    MetaDeltas(WithMember(obj, "spec", ConfigDeltas(ObjectMember(obj, "spec"), d)), d)
  }

  // ---- Paths a config delta may change

  predicate ImagePath(q: Path) {
    || [Key(HEAD)] + FIRST_CONTAINER + [Key("image")] <= q
    || (InGroup(q) && FIRST_CONTAINER + [Key("image")] <= q[2..])
  }

  predicate DeltaPath(d: Deltas, q: Path) {
    || (d.rayVersion != "" && [Key("rayVersion")] <= q)
    || (d.image != "" && ImagePath(q))
    || (d.autoscaling.Some? && [Key("enableInTreeAutoscaling")] <= q)
  }

  lemma AtSetRoot(j: Json, k: string, c: Json, q: Path)
    requires j.Obj?
    ensures At(SetAt(j, [], k, c), q) == if [Key(k)] <= q then At(c, q[1..]) else At(j, q)
    ensures SetAt(j, [], k, c).Obj?
  {
    AtSet(j, [], k, c, q);
    assert [] + [Key(k)] == [Key(k)];
    RootEdits(j, k, c);
  }

  lemma AtSetImage(spec: Json, image: string, q: Path)
    requires !ImagePath(q)
    ensures At(SetClusterImage(spec, image), q) == At(spec, q)
  {
    var headed := EditHead(SettingImage(image), spec);
    AtEditGroups(SettingImage(image), headed, q);
    if InGroup(q) {
      GroupAtPath(headed, q);
      AtEditHead(SettingImage(image), spec, q);
      if Get(headed, q[..2]).Some? {
        AtSetFirstImage(Get(headed, q[..2]).value, image, q[2..]);
      }
    } else {
      AtImageHead(spec, image, q);
    }
  }

  lemma AtImageHead(spec: Json, image: string, q: Path)
    requires !ImagePath(q)
    ensures At(EditHead(SettingImage(image), spec), q) == At(spec, q)
  {
    AtEditHead(SettingImage(image), spec, q);
    if Child(spec, Key(HEAD)).Some? && q != [] && q[0] == Key(HEAD) {
      EditedHead(SettingImage(image), spec);
      var p := FIRST_CONTAINER + [Key("image")];
      assert [Key(HEAD)] + FIRST_CONTAINER + [Key("image")] == [Key(HEAD)] + p;
      assert q == [Key(HEAD)] + q[1..];
      assert p <= q[1..] ==> [Key(HEAD)] + p <= q;
      AtSetFirstImage(Child(spec, Key(HEAD)).value, image, q[1..]);
    }
  }

  lemma SetImageKeepsShape(spec: Json, image: string)
    requires spec.Obj?
    ensures SetClusterImage(spec, image).Obj?
    ensures HasGroups(SetClusterImage(spec, image)) == HasGroups(spec)
    ensures Groups(SetClusterImage(spec, image)) == EditList(SettingImage(image), Groups(spec))
  {
    var e := SettingImage(image);
    if Child(spec, Key(HEAD)).Some? {
      EditedHead(e, spec);
    }
    HasGroupsAfter(e, EditHead(e, spec));
  }

  /** A config delta changes nothing outside the paths asked for. */
  lemma AtConfigDeltas(config: Json, d: Deltas, q: Path)
    requires config.Obj? && !DeltaPath(d, q)
    ensures At(ConfigDeltas(config, d), q) == At(config, q)
    ensures ConfigDeltas(config, d).Obj?
  {
    var c1 := if d.rayVersion != "" then SetAt(config, [], "rayVersion", Leaf(Str(d.rayVersion))) else config;
    AtSetRoot(config, "rayVersion", Leaf(Str(d.rayVersion)), q);
    var c2 := if d.image != "" then SetClusterImage(c1, d.image) else c1;
    if d.image != "" {
      AtSetImage(c1, d.image, q);
      SetImageKeepsShape(c1, d.image);
    }
    if d.autoscaling.Some? {
      AtSetRoot(c2, "enableInTreeAutoscaling", Leaf(Bool(d.autoscaling.value)), q);
    }
  }

  /** The number of worker groups, and every group that is not an object, stay. */
  lemma DeltasKeepGroups(config: Json, d: Deltas)
    requires config.Obj?
    ensures ConfigDeltas(config, d).Obj?
    ensures HasGroups(ConfigDeltas(config, d)) == HasGroups(config)
    ensures Groups(ConfigDeltas(config, d))
         == if d.image != "" then EditList(SettingImage(d.image), Groups(config)) else Groups(config)
  {
    var c1 := if d.rayVersion != "" then SetAt(config, [], "rayVersion", Leaf(Str(d.rayVersion))) else config;
    RootEdits(config, "rayVersion", Leaf(Str(d.rayVersion)));
    var c2 := if d.image != "" then SetClusterImage(c1, d.image) else c1;
    if d.image != "" {
      SetImageKeepsShape(c1, d.image);
    }
    if d.autoscaling.Some? {
      RootEdits(c2, "enableInTreeAutoscaling", Leaf(Bool(d.autoscaling.value)));
    }
  }
}
