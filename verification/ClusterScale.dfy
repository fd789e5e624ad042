/** ray_cluster_scale: which group it changes, how, and when it refuses. */
module ClusterScale {
  import opened Json
  import opened Edits
  import opened MergeSpec
  import opened GroupEdits
  import opened WriteSpec
  import opened ClusterFrame
  import opened Replicas

  datatype ScaleParams = ScaleParams(
    workerGroup: string, replicas: Option<int>, minReplicas: Option<int>, maxReplicas: Option<int>, allowDestructive: bool)

  datatype ScaleError =
    | GroupNotFound
    | AutoscalerOwnsReplicas
    | NeedsAllowDestructive
    | InvalidBounds

  // ---- findWorkerGroup

  predicate Named(group: Json, name: string) {
    Child(group, Key("groupName")) == Some(Leaf(Str(name)))
  }

  /** The index of the first group from i on with the given name; the length when there is none. */
  function FirstNamed(groups: seq<Json>, name: string, i: nat): (r: nat)
    requires i <= |groups|
    ensures i <= r <= |groups|
    ensures forall j | i <= j < r :: !Named(groups[j], name)
    ensures r < |groups| ==> Named(groups[r], name)
    decreases |groups| - i
  {
    if i == |groups| || Named(groups[i], name) then i else FirstNamed(groups, name, i + 1)
  }

  // ---- The overlay and the bounds guard

  function SetBound(group: Json, k: string, n: Option<int>): Json {
    if n.Some? then SetAt(group, [], k, Leaf(Int(n.value))) else group
  }

  function SetBounds(group: Json, p: ScaleParams): Json {
    SetBound(SetBound(SetBound(group, "replicas", p.replicas), "minReplicas", p.minReplicas), "maxReplicas", p.maxReplicas)
  }

  /** Go converts a float64 to an int64 by truncating toward zero. */
  function Truncate(r: real): int {
    if r >= 0.0 then r.Floor else -(-r).Floor
  }

  /** intFromAny of a member. */
  function IntMember(j: Json, k: string): Option<int> {
    match Child(j, Key(k))
    case Some(Leaf(Int(n))) => Some(n)
    case Some(Leaf(Float(r))) => Some(Truncate(r))
    case _ => None
  }

  /** validateWorkerBounds accepts the group. */
  predicate BoundsOk(group: Json) {
    var lo, hi, n := IntMember(group, "minReplicas"), IntMember(group, "maxReplicas"), IntMember(group, "replicas");
    && (lo.Some? ==> lo.value >= 0)
    && (hi.Some? ==> hi.value >= 0)
    && (lo.Some? && hi.Some? ==> lo.value <= hi.value)
    && (n.Some? && hi.Some? ==> n.value <= hi.value)
  }

  predicate Autoscaling(spec: Json) {
    Child(spec, Key("enableInTreeAutoscaling")) == Some(Leaf(Bool(true)))
  }

  /** The builder of Scale: the object to submit, or why it refuses. */
  function Scaled(raw: Json, namespace: string, name: string, p: ScaleParams): Result<Json, ScaleError>
    requires raw.Obj?
  {
    var obj := ReadForWrite(raw, "RayCluster", namespace, name, true);
    var spec := ObjectMember(obj, "spec");
    var i := FirstNamed(Groups(spec), p.workerGroup, 0);
    if i == |Groups(spec)| then Err(GroupNotFound)
    else if p.replicas.Some? && Autoscaling(spec) then Err(AutoscalerOwnsReplicas)
    else if p.replicas == Some(0) && !p.allowDestructive then Err(NeedsAllowDestructive)
    else
      var group := SetBounds(Groups(spec)[i], p);
      if !BoundsOk(group) then Err(InvalidBounds)
      else Ok(WithMember(obj, "spec", WithMember(spec, WORKERS, Arr(Groups(spec)[i := group]))))
  }

  // ---- What a successful scale submits

  /** The live group the call addresses, as read. */
  function TargetIndex(raw: Json, p: ScaleParams): nat {
    FirstNamed(Groups(ObjectMember(raw, "spec")), p.workerGroup, 0)
  }

  lemma StripKeepsNames(group: Json, name: string)
    ensures Named(DropCommands(group), name) == Named(group, name)
    ensures forall k | k != STRATEGY :: Child(DropCommands(group), Key(k)) == Child(group, Key(k))
  {
    var g := DeleteAt(group, [Key(STRATEGY)], COMMANDS);
    forall k | k != STRATEGY ensures Child(DropCommands(group), Key(k)) == Child(group, Key(k)) {
      DeleteElsewhere(group, [Key(STRATEGY)], COMMANDS, Key(k));
      if g.Obj? {
        RootEdits(g, STRATEGY, NULL);
      }
    }
  }

  lemma {:induction false} FirstNamedStripped(groups: seq<Json>, name: string, i: nat)
    requires i <= |groups|
    ensures FirstNamed(EditList(Stripping, groups), name, i) == FirstNamed(groups, name, i)
    decreases |groups| - i
  {
    if i < |groups| {
      StripKeepsNames(groups[i], name);
      FirstNamedStripped(groups, name, i + 1);
    }
  }

  lemma BoundMember(group: Json, k: string, n: Option<int>, l: string)
    requires group.Obj?
    ensures SetBound(group, k, n).Obj?
    ensures Child(SetBound(group, k, n), Key(l)) == if l == k && n.Some? then Some(Leaf(Int(n.value))) else Child(group, Key(l))
  {
    if n.Some? {
      RootEdits(group, k, Leaf(Int(n.value)));
    }
  }

  /** The members of the scaled group: what was asked for, everything else as it was. */
  lemma BoundsMembers(group: Json, p: ScaleParams, l: string)
    requires group.Obj?
    ensures SetBounds(group, p).Obj?
    ensures Child(SetBounds(group, p), Key(l))
         == if l == "replicas" && p.replicas.Some? then Some(Leaf(Int(p.replicas.value)))
            else if l == "minReplicas" && p.minReplicas.Some? then Some(Leaf(Int(p.minReplicas.value)))
            else if l == "maxReplicas" && p.maxReplicas.Some? then Some(Leaf(Int(p.maxReplicas.value)))
            else Child(group, Key(l))
  {
    var g1 := SetBound(group, "replicas", p.replicas);
    BoundMember(group, "replicas", p.replicas, l);
    var g2 := SetBound(g1, "minReplicas", p.minReplicas);
    BoundMember(g1, "minReplicas", p.minReplicas, l);
    BoundMember(g2, "maxReplicas", p.maxReplicas, l);
  }

  /** A successful scale: it targets the first live group of that name, changes only the bounds
      asked for in it (besides the stripped worker commands), and every other group and spec member
      is resent as read; min, max and replicas satisfy the guard. */
  lemma ScaleFrame(raw: Json, namespace: string, name: string, p: ScaleParams)
    requires raw.Obj? && Scaled(raw, namespace, name, p).Ok?
    ensures TargetIndex(raw, p) < |Groups(ObjectMember(raw, "spec"))|
    ensures
      var spec := ObjectMember(raw, "spec");
      var sent := ObjectMember(Scaled(raw, namespace, name, p).value, "spec");
      var t := TargetIndex(raw, p);
      && |Groups(sent)| == |Groups(spec)|
      && (forall i | 0 <= i < |Groups(spec)| && i != t :: Groups(sent)[i] == DropCommands(Groups(spec)[i]))
      && Groups(sent)[t] == SetBounds(DropCommands(Groups(spec)[t]), p)
      && BoundsOk(Groups(sent)[t])
      && (forall k | k != WORKERS :: Child(sent, Key(k)) == Child(spec, Key(k)))
    ensures forall s | s != Key("spec") ::
              Child(Scaled(raw, namespace, name, p).value, s)
              == Child(ReadForWrite(raw, "RayCluster", namespace, name, true), s)
  {
    var spec := ObjectMember(raw, "spec");
    var obj := ReadForWrite(raw, "RayCluster", namespace, name, true);
    StripKeepsShape(spec);
    HasGroupsAfter(Stripping, spec);
    FirstNamedStripped(Groups(spec), p.workerGroup, 0);
    assert ObjectMember(obj, "spec") == EditGroups(Stripping, spec);
  }

  /** Scale succeeds exactly when the group exists, the autoscaler does not own the count that was
      asked for, a teardown is allowed, and the effective bounds are valid. */
  lemma ScaleSucceedsIff(raw: Json, namespace: string, name: string, p: ScaleParams)
    requires raw.Obj?
    ensures Scaled(raw, namespace, name, p).Ok? <==>
      var spec := ObjectMember(raw, "spec");
      var t := TargetIndex(raw, p);
      && t < |Groups(spec)|
      && !(p.replicas.Some? && Autoscaling(spec))
      && !(p.replicas == Some(0) && !p.allowDestructive)
      && BoundsOk(SetBounds(DropCommands(Groups(spec)[t]), p))
  {
    var spec := ObjectMember(raw, "spec");
    HasGroupsAfter(Stripping, spec);
    FirstNamedStripped(Groups(spec), p.workerGroup, 0);
    assert ObjectMember(ReadForWrite(raw, "RayCluster", namespace, name, true), "spec") == EditGroups(Stripping, spec);
  }

  // ---- Path by path

  /** The group a scale changes, in the object that is submitted. */
  ghost function GroupPath(i: nat): Path {
    [Key("spec")] + ([Key(WORKERS)] + [Index(i)])
  }

  lemma PutInList(spec: Json, i: nat, group: Json)
    requires spec.Obj? && i < |Groups(spec)|
    ensures var p := [Key(WORKERS)] + [Index(i)];
            && Get(spec, p) == Some(Groups(spec)[i])
            && Put(spec, p, group) == WithMember(spec, WORKERS, Arr(Groups(spec)[i := group]))
  {
    var p := [Key(WORKERS)] + [Index(i)];
    assert p[0] == Key(WORKERS) && p[1..] == [Index(i)];
    PutElement(spec.fields[WORKERS], i, group);
  }

  lemma PutElement(list: Json, i: nat, group: Json)
    requires list.Arr? && i < |list.elems|
    ensures Get(list, [Index(i)]) == Some(list.elems[i])
    ensures Put(list, [Index(i)], group) == Arr(list.elems[i := group])
  {
    assert [Index(i)][1..] == [];
  }

  lemma PutGroup(obj: Json, i: nat, group: Json)
    requires obj.Obj? && i < |Groups(ObjectMember(obj, "spec"))|
    ensures var spec := ObjectMember(obj, "spec");
            && Get(obj, GroupPath(i)) == Some(Groups(spec)[i])
            && Put(obj, GroupPath(i), group) == WithMember(obj, "spec", WithMember(spec, WORKERS, Arr(Groups(spec)[i := group])))
  {
    var p := GroupPath(i);
    assert p[0] == Key("spec") && p[1..] == [Key(WORKERS)] + [Index(i)];
    PutInList(ObjectMember(obj, "spec"), i, group);
  }

  const NO_DELTAS := Deltas("", "", None, map[], map[])

  lemma ReadIsEmptyUpdate(raw: Json, namespace: string, name: string)
    requires raw.Obj?
    ensures ReadForWrite(raw, "RayCluster", namespace, name, true) == ClusterUpdated(raw, namespace, name, NO_DELTAS)
  {
    var obj := ReadForWrite(raw, "RayCluster", namespace, name, true);
    UpdatedSpecMember(raw, namespace, name, NO_DELTAS);
    assert obj.fields["spec" := ObjectMember(obj, "spec")] == obj.fields;
  }

  /** A bound the call asks for, in a group. */
  predicate BoundPath(p: ScaleParams, r: Path) {
    || (p.replicas.Some? && [Key("replicas")] <= r)
    || (p.minReplicas.Some? && [Key("minReplicas")] <= r)
    || (p.maxReplicas.Some? && [Key("maxReplicas")] <= r)
  }

  lemma AtSetBound(group: Json, k: string, n: Option<int>, r: Path)
    requires group.Obj? && !(n.Some? && [Key(k)] <= r)
    ensures SetBound(group, k, n).Obj? && At(SetBound(group, k, n), r) == At(group, r)
  {
    if n.Some? {
      AtSetRoot(group, k, Leaf(Int(n.value)), r);
    }
  }

  lemma AtSetBounds(group: Json, p: ScaleParams, r: Path)
    requires group.Obj? && !BoundPath(p, r)
    ensures SetBounds(group, p).Obj? && At(SetBounds(group, p), r) == At(group, r)
  {
    var g1 := SetBound(group, "replicas", p.replicas);
    AtSetBound(group, "replicas", p.replicas, r);
    AtSetBound(g1, "minReplicas", p.minReplicas, r);
    AtSetBound(SetBound(g1, "minReplicas", p.minReplicas), "maxReplicas", p.maxReplicas, r);
  }

  /** Frame of Scale: what it submits carries the live value at every path except server fields, pinned
      identity, worker commands, and the bounds asked for in the first group of that name. */
  lemma ScalePathFrame(raw: Json, namespace: string, name: string, p: ScaleParams, q: Path)
    requires raw.Obj? && Scaled(raw, namespace, name, p).Ok?
    ensures UpdateTouches(raw, NO_DELTAS, q)
         || (GroupPath(TargetIndex(raw, p)) <= q && BoundPath(p, q[3..]))
         || At(Scaled(raw, namespace, name, p).value, q) == At(raw, q)
  {
    ScaleTarget(raw, namespace, name, p);
    if !UpdateTouches(raw, NO_DELTAS, q) && !(GroupPath(TargetIndex(raw, p)) <= q && BoundPath(p, q[3..])) {
      ReadIsEmptyUpdate(raw, namespace, name);
      UpdateFrame(raw, namespace, name, NO_DELTAS, q);
      GroupSetFrame(ReadForWrite(raw, "RayCluster", namespace, name, true), TargetIndex(raw, p), p, q);
    }
  }

  lemma GroupSetFrame(obj: Json, t: nat, p: ScaleParams, q: Path)
    requires obj.Obj? && t < |Groups(ObjectMember(obj, "spec"))| && Groups(ObjectMember(obj, "spec"))[t].Obj?
    requires !(GroupPath(t) <= q && BoundPath(p, q[3..]))
    ensures var spec := ObjectMember(obj, "spec");
            At(WithMember(obj, "spec", WithMember(spec, WORKERS, Arr(Groups(spec)[t := SetBounds(Groups(spec)[t], p)]))), q)
            == At(obj, q)
  {
    var group := Groups(ObjectMember(obj, "spec"))[t];
    PutGroup(obj, t, SetBounds(group, p));
    AtSetBounds(group, p, []);
    AtPut(obj, GroupPath(t), SetBounds(group, p), q);
    if GroupPath(t) <= q {
      AtSetBounds(group, p, q[3..]);
      SplitPath(GroupPath(t), q);
      GetConcat(obj, GroupPath(t), q[3..]);
    }
  }

  /** The group that is set is an object, and setting it is all that happens to what was read. */
  lemma ScaleTarget(raw: Json, namespace: string, name: string, p: ScaleParams)
    requires raw.Obj? && Scaled(raw, namespace, name, p).Ok?
    ensures var obj := ReadForWrite(raw, "RayCluster", namespace, name, true);
            var spec := ObjectMember(obj, "spec");
            var t := TargetIndex(raw, p);
            && t < |Groups(spec)| && Groups(spec)[t].Obj?
            && Scaled(raw, namespace, name, p).value
               == WithMember(obj, "spec", WithMember(spec, WORKERS, Arr(Groups(spec)[t := SetBounds(Groups(spec)[t], p)])))
  {
    var spec := ObjectMember(raw, "spec");
    StripKeepsShape(spec);
    FirstNamedStripped(Groups(spec), p.workerGroup, 0);
    assert ObjectMember(ReadForWrite(raw, "RayCluster", namespace, name, true), "spec") == EditGroups(Stripping, spec);
  }

  // ---- Replicas

  lemma GroupReplicasKept(group: Json, p: ScaleParams, target: bool)
    requires p.replicas.None? && (target ==> group.Obj?)
    ensures Child(if target then SetBounds(DropCommands(group), p) else DropCommands(group), Key("replicas"))
         == Child(group, Key("replicas"))
  {
    StripKeepsNames(group, "");
    if target {
      AtDropCommands(group, []);
      BoundsMembers(DropCommands(group), p, "replicas");
    }
  }

  /** Scaling only min and max resends every group's replicas as read; under autoscaling nothing
      else can succeed. */
  lemma ScaleKeepsReplicas(raw: Json, namespace: string, name: string, p: ScaleParams)
    requires raw.Obj? && Scaled(raw, namespace, name, p).Ok?
    requires p.replicas.None? || Autoscaling(ObjectMember(raw, "spec"))
    ensures p.replicas.None?
    ensures ReplicasOf(ObjectMember(Scaled(raw, namespace, name, p).value, "spec")) == ReplicasOf(ObjectMember(raw, "spec"))
  {
    var spec := ObjectMember(raw, "spec");
    ScaleSucceedsIff(raw, namespace, name, p);
    ScaleFrame(raw, namespace, name, p);
    var gs := Groups(spec);
    forall i | 0 <= i < |gs| {
      GroupReplicasKept(gs[i], p, i == TargetIndex(raw, p));
    }
  }

  predicate Negative(n: Option<int>) {
    n.Some? && n.value < 0
  }

  /** What the call asks for, or else what the live group holds. */
  function Chosen(live: Json, k: string, asked: Option<int>): Option<int> {
    if asked.Some? then asked else IntMember(live, k)
  }

  /** The bounds on min and max the guard does enforce. */
  predicate MinMaxOk(lo: Option<int>, hi: Option<int>) {
    && (lo.Some? ==> lo.value >= 0)
    && (hi.Some? ==> hi.value >= 0)
    && (lo.Some? && hi.Some? ==> lo.value <= hi.value)
  }

  lemma ChosenMembers(live: Json, p: ScaleParams)
    requires live.Obj?
    ensures var sent := SetBounds(DropCommands(live), p);
            && IntMember(sent, "replicas") == Chosen(live, "replicas", p.replicas)
            && IntMember(sent, "minReplicas") == Chosen(live, "minReplicas", p.minReplicas)
            && IntMember(sent, "maxReplicas") == Chosen(live, "maxReplicas", p.maxReplicas)
  {
    StripKeepsNames(live, p.workerGroup);
    AtDropCommands(live, []);
    var group := DropCommands(live);
    BoundsMembers(group, p, "replicas");
    BoundsMembers(group, p, "minReplicas");
    BoundsMembers(group, p, "maxReplicas");
  }

  /** The call goes through and the group it addresses is sent with a negative replicas. */
  predicate SubmitsNegative(raw: Json, namespace: string, name: string, p: ScaleParams)
    requires raw.Obj?
  {
    var r, t := Scaled(raw, namespace, name, p), TargetIndex(raw, p);
    && r.Ok?
    && t < |Groups(ObjectMember(r.value, "spec"))|
    && Negative(IntMember(Groups(ObjectMember(r.value, "spec"))[t], "replicas"))
  }

  /** The documentation promises non-negativity but the guard has no lower bound on replicas.  A
      negative count is submitted exactly when the group exists, the autoscaler rule lets the request
      through, min and max are in order, and the count asked for (or, if none, the live one) is
      negative. */
  lemma NegativeReplicasIff(raw: Json, namespace: string, name: string, p: ScaleParams)
    requires raw.Obj?
    ensures SubmitsNegative(raw, namespace, name, p) <==>
              var spec := ObjectMember(raw, "spec");
              var t := TargetIndex(raw, p);
              && t < |Groups(spec)|
              && !(p.replicas.Some? && Autoscaling(spec))
              && MinMaxOk(Chosen(Groups(spec)[t], "minReplicas", p.minReplicas), Chosen(Groups(spec)[t], "maxReplicas", p.maxReplicas))
              && Negative(Chosen(Groups(spec)[t], "replicas", p.replicas))
  {
    var spec, t := ObjectMember(raw, "spec"), TargetIndex(raw, p);
    ScaleSucceedsIff(raw, namespace, name, p);
    if t < |Groups(spec)| {
      NamedIsObject(Groups(spec)[t], p.workerGroup);
      ChosenMembers(Groups(spec)[t], p);
    }
    if Scaled(raw, namespace, name, p).Ok? {
      SentTarget(raw, namespace, name, p);
    }
  }

  lemma NamedIsObject(group: Json, name: string)
    requires Named(group, name)
    ensures group.Obj?
  {
  }

  lemma SentTarget(raw: Json, namespace: string, name: string, p: ScaleParams)
    requires raw.Obj? && Scaled(raw, namespace, name, p).Ok?
    ensures var spec, t := ObjectMember(raw, "spec"), TargetIndex(raw, p);
            var sent := ObjectMember(Scaled(raw, namespace, name, p).value, "spec");
            t < |Groups(spec)| == |Groups(sent)| && Groups(sent)[t] == SetBounds(DropCommands(Groups(spec)[t]), p)
  {
    ScaleFrame(raw, namespace, name, p);
  }

  function OneGroup(group: Json): (raw: Json)
    ensures raw.Obj?
  {
    Obj(map["spec" := Obj(map[WORKERS := Arr([group])])])
  }

  lemma OneGroupTarget(group: Json, p: ScaleParams)
    requires Named(group, p.workerGroup)
    ensures Groups(ObjectMember(OneGroup(group), "spec")) == [group]
    ensures !Autoscaling(ObjectMember(OneGroup(group), "spec"))
    ensures TargetIndex(OneGroup(group), p) == 0
  {
  }

  /** A concrete negative count that is accepted: one bare group of any name scaled to -1. */
  lemma NegativeReplicasPass(name: string)
    ensures Scaled(OneGroup(Obj(map["groupName" := Leaf(Str(name))])), "default", "demo",
                   ScaleParams(name, Some(-1), None, None, false)).Ok?
  {
    var group := Obj(map["groupName" := Leaf(Str(name))]);
    var p := ScaleParams(name, Some(-1), None, None, false);
    OneGroupTarget(group, p);
    ScaleSucceedsIff(OneGroup(group), "default", "demo", p);
    StripKeepsNames(group, name);
    BoundsMembers(DropCommands(group), p, "minReplicas");
    BoundsMembers(DropCommands(group), p, "maxReplicas");
    assert BoundsOk(SetBounds(DropCommands(group), p));
  }
}
