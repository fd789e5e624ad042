/** Worker replicas through the builders: Update resends every group's replicas as read, whatever
    else it changes, and so does any rawSpec that leaves the worker-group list alone. */
module Replicas {
  import opened Json
  import opened Edits
  import opened MergeSpec
  import opened GroupEdits
  import opened WriteSpec
  import opened ClusterFrame

  /** The replicas member of every worker group, in list order. */
  function ReplicasOf(spec: Json): (r: seq<Option<Json>>)
    ensures |r| == |Groups(spec)| && forall i | 0 <= i < |r| :: r[i] == Child(Groups(spec)[i], Key("replicas"))
  {
    var gs := Groups(spec);
    seq(|gs|, i requires 0 <= i < |gs| => Child(gs[i], Key("replicas")))
  }

  lemma EditKeepsReplicas(e: GroupEdit, group: Json)
    requires !e.Normalizing?
    ensures Child(EditGroup(e, group), Key("replicas")) == Child(group, Key("replicas"))
  {
    match e
    case Stripping =>
      var g := DeleteAt(group, [Key(STRATEGY)], COMMANDS);
      DeleteElsewhere(group, [Key(STRATEGY)], COMMANDS, Key("replicas"));
      if g.Obj? {
        RootEdits(g, STRATEGY, NULL);
      }
    case SettingImage(image) =>
      SetElsewhere(group, FIRST_CONTAINER, "image", Leaf(Str(image)), Key("replicas"));
  }

  lemma SetElsewhere(j: Json, p: Path, k: string, c: Json, s: Step)
    requires p != [] && p[0] != s
    ensures Child(SetAt(j, p, k, c), s) == Child(j, s)
  {
  }

  /** Update never alters a group's replicas, and never adds or drops a group. */
  lemma UpdateKeepsReplicas(raw: Json, d: Deltas)
    requires raw.Obj?
    ensures UpdatedSpec(raw, d).Obj?
    ensures ReplicasOf(UpdatedSpec(raw, d)) == ReplicasOf(ObjectMember(raw, "spec"))
  {
    var spec := ObjectMember(raw, "spec");
    var stripped := EditGroups(Stripping, spec);
    StripKeepsShape(spec);
    DeltasKeepGroups(stripped, d);
    forall i | 0 <= i < |Groups(spec)|
      ensures Child(Groups(UpdatedSpec(raw, d))[i], Key("replicas")) == Child(Groups(spec)[i], Key("replicas"))
    {
      EditKeepsReplicas(Stripping, Groups(spec)[i]);
      if d.image != "" {
        EditKeepsReplicas(SettingImage(d.image), Groups(stripped)[i]);
      }
    }
  }

  /** A rawSpec that says nothing about spec.workerGroupSpecs. */
  predicate LeavesGroups(rawSpec: Json) {
    && rawSpec.Obj?
    && match Child(rawSpec, Key("spec"))
       case None => true
       case Some(s) => s.Obj? && WORKERS !in s.fields
  }

  /** ... keeps the list of whatever it is merged over. */
  lemma PatchKeepsGroups(obj: Json, rawSpec: Json)
    requires obj.Obj? && LeavesGroups(rawSpec)
    ensures Groups(ObjectMember(Patched(obj, rawSpec), "spec")) == Groups(ObjectMember(obj, "spec"))
  {
    PatchedAt(obj, rawSpec, "spec");
    if "spec" in rawSpec.fields {
      PatchedAt(Member(obj, "spec"), rawSpec.fields["spec"], WORKERS);
    }
  }

  /** The object Update applies, after rawSpec and the identity guard. */
  function UpdateIntent(raw: Json, namespace: string, name: string, d: Deltas, rawSpec: Json): Result<Json, IdentityError>
    requires raw.Obj?
  {
    Merged(ClusterUpdated(raw, namespace, name, d), rawSpec, Identity(namespace, name))
  }

  lemma IntentKeepsReplicas(raw: Json, namespace: string, name: string, d: Deltas, rawSpec: Json)
    requires raw.Obj? && LeavesGroups(rawSpec)
    requires UpdateIntent(raw, namespace, name, d, rawSpec).Ok?
    ensures ReplicasOf(ObjectMember(UpdateIntent(raw, namespace, name, d, rawSpec).value, "spec"))
         == ReplicasOf(ObjectMember(raw, "spec"))
  {
    var obj := ClusterUpdated(raw, namespace, name, d);
    UpdatedMeta(raw, namespace, name, d);
    UpdateKeepsReplicas(raw, d);
    assert Child(obj, Key("spec")) == Some(UpdatedSpec(raw, d));
    PatchKeepsGroups(obj, rawSpec);
  }
}
