/** ray_cluster_scale read off the live object alone: which answer each call gets, and what the group it
    submits satisfies, in numbers. */
module ScaleLaw {
  import opened Json
  import opened Edits
  import opened MergeSpec
  import opened GroupEdits
  import opened WriteSpec
  import opened ClusterFrame
  import opened ClusterScale

  // ---- Reading numbers and groups

  /** n is r without its fraction. */
  predicate TowardZero(r: real, n: int) {
    if r >= 0.0 then n >= 0 && n as real <= r < n as real + 1.0 else n <= 0 && n as real - 1.0 < r <= n as real
  }

  /** n is the number at member k, None when there is none. */
  predicate NumberAt(j: Json, k: string, n: Option<int>) {
    match Get(j, [Key(k)])
    case Some(Leaf(Int(i))) => n == Some(i)
    case Some(Leaf(Float(r))) => n.Some? && TowardZero(r, n.value)
    case _ => n.None?
  }

  lemma NumberIs(j: Json, k: string)
    ensures NumberAt(j, k, IntMember(j, k))
    ensures forall n | NumberAt(j, k, n) :: n == IntMember(j, k)
  {
    GetOne(j, Key(k));
  }

  predicate GroupsAre(raw: Json, gs: seq<Json>) {
    gs == match Get(raw, [Key("spec"), Key("workerGroupSpecs")])
          case Some(Arr(elems)) => elems
          case _ => []
  }

  predicate IsNamed(group: Json, name: string) {
    Get(group, [Key("groupName")]) == Some(Leaf(Str(name)))
  }

  predicate NoneNamed(gs: seq<Json>, name: string) {
    forall i | 0 <= i < |gs| :: !IsNamed(gs[i], name)
  }

  /** t is the first group of that name. */
  predicate FirstOf(gs: seq<Json>, name: string, t: nat) {
    t < |gs| && IsNamed(gs[t], name) && NoneNamed(gs[..t], name)
  }

  predicate Autoscales(raw: Json) {
    Get(raw, [Key("spec"), Key("enableInTreeAutoscaling")]) == Some(Leaf(Bool(true)))
  }

  // ---- The bounds

  /** What min, max and replicas have to satisfy, where they are numbers. */
  predicate InOrder(lo: Option<int>, hi: Option<int>, n: Option<int>) {
    && (lo.Some? ==> lo.value >= 0)
    && (hi.Some? ==> hi.value >= 0)
    && (lo.Some? && hi.Some? ==> lo.value <= hi.value)
    && (n.Some? && hi.Some? ==> n.value <= hi.value)
  }

  /** n is what the call asks for, or else what the live group carries. */
  predicate Effective(group: Json, k: string, asked: Option<int>, n: Option<int>) {
    if asked.Some? then n == asked else NumberAt(group, k, n)
  }

  ghost predicate EffectiveInOrder(group: Json, p: ScaleParams) {
    forall lo, hi, n ::
      && Effective(group, "minReplicas", p.minReplicas, lo)
      && Effective(group, "maxReplicas", p.maxReplicas, hi)
      && Effective(group, "replicas", p.replicas, n)
      ==> InOrder(lo, hi, n)
  }

  /** The bounds the sent group carries. */
  ghost predicate SentInOrder(group: Json) {
    forall lo, hi, n ::
      NumberAt(group, "minReplicas", lo) && NumberAt(group, "maxReplicas", hi) && NumberAt(group, "replicas", n)
      ==> InOrder(lo, hi, n)
  }

  lemma SentBounds(group: Json)
    ensures SentInOrder(group) <==> BoundsOk(group)
  {
    NumberIs(group, "minReplicas");
    NumberIs(group, "maxReplicas");
    NumberIs(group, "replicas");
    assert BoundsOk(group) <==>
      InOrder(IntMember(group, "minReplicas"), IntMember(group, "maxReplicas"), IntMember(group, "replicas"));
  }

  lemma EffectiveIs(group: Json, k: string, asked: Option<int>)
    ensures Effective(group, k, asked, Chosen(group, k, asked))
    ensures forall n | Effective(group, k, asked, n) :: n == Chosen(group, k, asked)
  {
    NumberIs(group, k);
  }

  lemma EffectiveBounds(group: Json, p: ScaleParams)
    requires group.Obj?
    ensures EffectiveInOrder(group, p) <==> BoundsOk(SetBounds(DropCommands(group), p))
  {
    ChosenMembers(group, p);
    EffectiveIs(group, "minReplicas", p.minReplicas);
    EffectiveIs(group, "maxReplicas", p.maxReplicas);
    EffectiveIs(group, "replicas", p.replicas);
    var lo := Chosen(group, "minReplicas", p.minReplicas);
    var hi := Chosen(group, "maxReplicas", p.maxReplicas);
    var n := Chosen(group, "replicas", p.replicas);
    assert BoundsOk(SetBounds(DropCommands(group), p)) <==> InOrder(lo, hi, n);
  }

  // ---- The answer

  /** r is the answer to a scale of raw: the first reason to refuse, in this order, or success. */
  ghost predicate ScaleAnswer(raw: Json, p: ScaleParams, r: Result<Json, ScaleError>) {
    forall gs | GroupsAre(raw, gs) ::
      if NoneNamed(gs, p.workerGroup) then r == Err(GroupNotFound)
      else if p.replicas.Some? && Autoscales(raw) then r == Err(AutoscalerOwnsReplicas)
      else if p.replicas == Some(0) && !p.allowDestructive then r == Err(NeedsAllowDestructive)
      else forall t: nat | FirstOf(gs, p.workerGroup, t) ::
             if EffectiveInOrder(gs[t], p) then r.Ok? else r == Err(InvalidBounds)
  }

  lemma GroupsNamed(raw: Json)
    ensures GroupsAre(raw, Groups(ObjectMember(raw, "spec")))
    ensures Autoscales(raw) <==> Autoscaling(ObjectMember(raw, "spec"))
  {
    GetTwo(raw, Key("spec"), Key("workerGroupSpecs"));
    GetTwo(raw, Key("spec"), Key("enableInTreeAutoscaling"));
  }

  lemma NameIs(group: Json, name: string)
    ensures IsNamed(group, name) <==> Named(group, name)
  {
    GetOne(group, Key("groupName"));
  }

  lemma FirstIs(gs: seq<Json>, name: string)
    ensures var t := FirstNamed(gs, name, 0);
            && (NoneNamed(gs, name) <==> t == |gs|)
            && (t < |gs| ==> FirstOf(gs, name, t))
            && forall u: nat | FirstOf(gs, name, u) :: u == t
  {
    forall i | 0 <= i < |gs| ensures IsNamed(gs[i], name) <==> Named(gs[i], name) {
      NameIs(gs[i], name);
    }
    var t := FirstNamed(gs, name, 0);
    forall u: nat | FirstOf(gs, name, u) ensures u == t {
      assert forall j | 0 <= j < u :: gs[..u][j] == gs[j];
    }
  }

  /** Which answer a scale gets, for every live object and every request. */
  lemma ScaleAnswered(raw: Json, namespace: string, name: string, p: ScaleParams)
    requires raw.Obj?
    ensures ScaleAnswer(raw, p, Scaled(raw, namespace, name, p))
  {
    var spec := ObjectMember(raw, "spec");
    var gs, t := Groups(spec), TargetIndex(raw, p);
    GroupsNamed(raw);
    FirstIs(gs, p.workerGroup);
    ScaleRefusal(raw, namespace, name, p);
    if t < |gs| {
      EffectiveBounds(gs[t], p);
    }
  }

  /** The decision on the live groups. */
  lemma ScaleRefusal(raw: Json, namespace: string, name: string, p: ScaleParams)
    requires raw.Obj?
    ensures var spec := ObjectMember(raw, "spec");
            var gs, t := Groups(spec), TargetIndex(raw, p);
            var r := Scaled(raw, namespace, name, p);
            if t == |gs| then r == Err(GroupNotFound)
            else if p.replicas.Some? && Autoscaling(spec) then r == Err(AutoscalerOwnsReplicas)
            else if p.replicas == Some(0) && !p.allowDestructive then r == Err(NeedsAllowDestructive)
            else gs[t].Obj? && if BoundsOk(SetBounds(DropCommands(gs[t]), p)) then r.Ok? else r == Err(InvalidBounds)
  {
    var spec := ObjectMember(raw, "spec");
    HasGroupsAfter(Stripping, spec);
    FirstNamedStripped(Groups(spec), p.workerGroup, 0);
    assert ObjectMember(ReadForWrite(raw, "RayCluster", namespace, name, true), "spec") == EditGroups(Stripping, spec);
  }

  /** What a successful scale submits: at the first live group of that name, a group whose numbers are in
      order and which carries every number asked for. */
  lemma ScaleSends(raw: Json, namespace: string, name: string, p: ScaleParams, gs: seq<Json>, t: nat)
    requires raw.Obj? && Scaled(raw, namespace, name, p).Ok?
    requires GroupsAre(raw, gs) && FirstOf(gs, p.workerGroup, t)
    ensures var sent := Get(Scaled(raw, namespace, name, p).value, [Key("spec"), Key("workerGroupSpecs")] + [Index(t)]);
            && sent.Some? && SentInOrder(sent.value)
            && (p.replicas.Some? ==> NumberAt(sent.value, "replicas", p.replicas))
            && (p.minReplicas.Some? ==> NumberAt(sent.value, "minReplicas", p.minReplicas))
            && (p.maxReplicas.Some? ==> NumberAt(sent.value, "maxReplicas", p.maxReplicas))
            && IsNamed(sent.value, p.workerGroup)
  {
    GroupsNamed(raw);
    FirstIs(gs, p.workerGroup);
    SentTarget(raw, namespace, name, p);
    ScaleFrame(raw, namespace, name, p);
    var value := Scaled(raw, namespace, name, p).value;
    SentAt(value, t);
    var sent := Groups(ObjectMember(value, "spec"))[t];
    SentBounds(sent);
    NameIs(gs[t], p.workerGroup);
    NamedIsObject(gs[t], p.workerGroup);
    SentMembers(gs[t], p);
  }

  lemma SentAt(value: Json, t: nat)
    requires t < |Groups(ObjectMember(value, "spec"))|
    ensures Get(value, [Key("spec"), Key("workerGroupSpecs")] + [Index(t)]) == Some(Groups(ObjectMember(value, "spec"))[t])
  {
    GetTwo(value, Key("spec"), Key("workerGroupSpecs"));
    GetStep(value, [Key("spec"), Key("workerGroupSpecs")], Index(t));
  }

  lemma SentMembers(live: Json, p: ScaleParams)
    requires live.Obj? && Named(live, p.workerGroup)
    ensures var sent := SetBounds(DropCommands(live), p);
            && (p.replicas.Some? ==> NumberAt(sent, "replicas", p.replicas))
            && (p.minReplicas.Some? ==> NumberAt(sent, "minReplicas", p.minReplicas))
            && (p.maxReplicas.Some? ==> NumberAt(sent, "maxReplicas", p.maxReplicas))
            && IsNamed(sent, p.workerGroup)
  {
    var sent := SetBounds(DropCommands(live), p);
    ChosenMembers(live, p);
    NumberIs(sent, "replicas");
    NumberIs(sent, "minReplicas");
    NumberIs(sent, "maxReplicas");
    StripKeepsNames(live, p.workerGroup);
    AtDropCommands(live, []);
    BoundsMembers(DropCommands(live), p, "groupName");
    NameIs(sent, p.workerGroup);
  }
}
