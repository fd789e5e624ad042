/** The builders of ray_cluster_update and ray_cluster_scale on the heap: read, clone, edit the
    clone in place, and hand over an object that shares nothing with what was read. */
module ClusterBuild {
  import opened Json
  import opened Edits
  import opened Heap
  import opened HeapEdits
  import opened MergeSpec
  import opened Merge
  import opened GroupEdits
  import opened GroupHeap
  import opened WriteSpec
  import opened BuilderHeap
  import opened Replicas
  import opened ClusterScale

  // ---- Update

  /** The build closure of Update: the live object read as raw, the request's rawSpec merged last. */
  method BuildUpdate(raw: MapNode?, namespace: string, name: string, d: Deltas, rawSpec: MapNode?, ghost rt: Tree, ghost pt: Tree)
    returns (r: Result<MapNode, IdentityError>, ghost mt: Tree)
    requires HoldsMap(raw, rt) && HoldsMap(rawSpec, pt)
    ensures MapJson(raw, rt).Obj?
    ensures AgreesWith(r, mt, UpdateIntent(MapJson(raw, rt), namespace, name, d, MapJson(rawSpec, pt)))
    ensures forall n | n in Nodes(mt) :: fresh(n)
  {
    NodesAllocated(pt);
    var obj, t := UpdatedObject(raw, namespace, name, d, rt);
    NodesAllocated(t);
    r, mt := Merge.Merge(obj, rawSpec, Identity(namespace, name), t, pt);
  }

  method UpdatedObject(raw: MapNode?, namespace: string, name: string, d: Deltas, ghost rt: Tree)
    returns (obj: MapNode, ghost t: Tree)
    requires HoldsMap(raw, rt)
    ensures Owned(obj, t) && forall n | n in Nodes(t) :: fresh(n)
    ensures MapJson(raw, rt).Obj? && Erase(t) == ClusterUpdated(MapJson(raw, rt), namespace, name, d)
  {
    obj, t := ConfiguredObject(raw, namespace, name, d, rt);
    t := MetaDeltasOf(obj, d, t);
  }

  /** The clone with the deltas applied to its spec. */
  method ConfiguredObject(raw: MapNode?, namespace: string, name: string, d: Deltas, ghost rt: Tree)
    returns (obj: MapNode, ghost t: Tree)
    requires HoldsMap(raw, rt)
    ensures Owned(obj, t) && forall n | n in Nodes(t) :: fresh(n)
    ensures MapJson(raw, rt).Obj?
    ensures var read := ReadForWrite(MapJson(raw, rt), "RayCluster", namespace, name, true);
            Erase(t) == WithMember(read, "spec", ConfigDeltas(ObjectMember(read, "spec"), d))
  {
    var spec;
    obj, spec, t := ReadForWriteOf(raw, "RayCluster", namespace, name, true, rt);
    t := ConfigDeltasIn(obj, "spec", d, t);
  }

  // ---- Scale

  /** findWorkerGroup. */
  method FindWorkerGroup(spec: MapNode, name: string, ghost t: Tree) returns (wg: MapNode?)
    requires Owned(spec, t)
    ensures var i := FirstNamed(Groups(Erase(t)), name, 0);
            if wg == null then i == |Groups(Erase(t))|
            else i < |Groups(Erase(t))| && Locates(VMap(spec), t, [Key(WORKERS)] + [Index(i)], wg)
  {
    EraseChild(t, Key(WORKERS));
    wg := null;
    if WORKERS in spec.fields {
      assert Holds(spec.fields[WORKERS], t.members[WORKERS]);
      if spec.fields[WORKERS].VList? {
        NodesAllocated(t);
        wg := FindIn(spec.fields[WORKERS].elems, name, t.members[WORKERS]);
        if wg != null {
          GroupNodeAt(spec, t, FirstNamed(Groups(Erase(t)), name, 0));
        }
      }
    }
  }

  lemma GroupNodeAt(spec: MapNode, t: Tree, i: nat)
    requires Owned(spec, t) && WORKERS in t.members && t.members[WORKERS].TList?
    requires i < |t.members[WORKERS].kids| && t.members[WORKERS].kids[i].TMap?
    ensures Locates(VMap(spec), t, [Key(WORKERS)] + [Index(i)], t.members[WORKERS].kids[i].node)
  {
    TreeStep(t, [], Key(WORKERS));
    assert [] + [Key(WORKERS)] == [Key(WORKERS)];
    TreeStep(t, [Key(WORKERS)], Index(i));
  }

  /** The loop of findWorkerGroup: the first object whose groupName is the name. */
  method FindIn(groups: seq<Value>, name: string, ghost lt: Tree) returns (wg: MapNode?)
    requires Holds(VList(groups), lt)
    ensures lt.TList? && |lt.kids| == |groups| && Erase(lt).Arr?
    ensures var i := FirstNamed(Erase(lt).elems, name, 0);
            if wg == null then i == |groups| else i < |groups| && lt.kids[i].TMap? && lt.kids[i].node == wg
  {
    NodesAllocated(lt);
    for j := 0 to |groups|
      invariant Holds(VList(groups), lt)
      invariant FirstNamed(Erase(lt).elems, name, 0) == FirstNamed(Erase(lt).elems, name, j)
    {
      assert Holds(groups[j], lt.kids[j]);
      NameOf(groups[j], name, lt.kids[j]);
      if groups[j].VMap? {
        var g := groups[j].node;
        if "groupName" in g.fields && g.fields["groupName"] == VLeaf(Str(name)) {
          return g;
        }
      }
    }
    return null;
  }

  lemma NameOf(v: Value, name: string, t: Tree)
    requires Holds(v, t)
    ensures Named(Erase(t), name) <==>
              v.VMap? && "groupName" in v.node.fields && v.node.fields["groupName"] == VLeaf(Str(name))
  {
    if v.VMap? && "groupName" in v.node.fields {
      assert Holds(v.node.fields["groupName"], t.members["groupName"]);
    }
  }

  /** specIsAutoscaling. */
  method IsAutoscaling(spec: MapNode, ghost t: Tree) returns (b: bool)
    requires Owned(spec, t)
    ensures b == Autoscaling(Erase(t))
  {
    b := false;
    if "enableInTreeAutoscaling" in spec.fields {
      assert Holds(spec.fields["enableInTreeAutoscaling"], t.members["enableInTreeAutoscaling"]);
      b := spec.fields["enableInTreeAutoscaling"] == VLeaf(Bool(true));
    }
  }

  /** intFromAny(wg[k]). */
  method IntOf(wg: MapNode, k: string, ghost t: Tree) returns (n: Option<int>)
    requires Holds(VMap(wg), t)
    ensures n == IntMember(Erase(t), k)
  {
    n := None;
    if k in wg.fields {
      assert Holds(wg.fields[k], t.members[k]);
      match wg.fields[k]
      case VLeaf(Int(i)) => n := Some(i);
      case VLeaf(Float(r)) => n := Some(Truncate(r));
      case _ =>
    }
  }

  /** validateWorkerBounds. */
  method ValidateWorkerBounds(wg: MapNode, ghost t: Tree) returns (ok: bool)
    requires Holds(VMap(wg), t)
    ensures ok == BoundsOk(Erase(t))
  {
    NodesAllocated(t);
    var lo := IntOf(wg, "minReplicas", t);
    var hi := IntOf(wg, "maxReplicas", t);
    var n := IntOf(wg, "replicas", t);
    if lo.Some? && lo.value < 0 {
      return false;
    }
    if hi.Some? && hi.value < 0 {
      return false;
    }
    if lo.Some? && hi.Some? && lo.value > hi.value {
      return false;
    }
    if n.Some? && hi.Some? && n.value > hi.value {
      return false;
    }
    return true;
  }

  /** One optional bound of the group at p in the object. */
  method SetBoundOf(wg: MapNode, k: string, n: Option<int>, ghost v: Value, ghost t: Tree, ghost p: Path)
    returns (ghost t': Tree)
    requires Locates(v, t, p, wg)
    modifies wg
    ensures Locates(v, t', p, wg) && Nodes(t') <= Nodes(t)
    ensures ObjectAt(Erase(t), p) && Erase(t') == Put(Erase(t), p, SetBound(Get(Erase(t), p).value, k, n))
  {
    EraseAt(t, p);
    PutSame(Erase(t), p);
    t' := t;
    if n.Some? {
      t' := SetMember(wg, k, VLeaf(Int(n.value)), TLeaf(Int(n.value)), v, t, p);
    }
  }

  lemma {:induction false} PutSame(j: Json, p: Path)
    requires Get(j, p).Some?
    ensures Put(j, p, Get(j, p).value) == j
    decreases |p|
  {
    if p != [] {
      PutSame(Child(j, p[0]).value, p[1..]);
    }
  }

  lemma {:induction false} PutTwice(j: Json, p: Path, c: Json, d: Json)
    requires Get(j, p).Some?
    ensures Get(Put(j, p, c), p) == Some(c) && Put(Put(j, p, c), p, d) == Put(j, p, d)
    decreases |p|
  {
    if p != [] {
      ChildOfWithChild(j, p[0], Put(Child(j, p[0]).value, p[1..], c), p[0]);
      PutTwice(Child(j, p[0]).value, p[1..], c, d);
    }
  }

  /** The three optional bounds. */
  method SetBoundsOf(wg: MapNode, p: ScaleParams, ghost v: Value, ghost t: Tree, ghost q: Path) returns (ghost t': Tree)
    requires Locates(v, t, q, wg)
    modifies wg
    ensures Locates(v, t', q, wg) && Nodes(t') <= Nodes(t)
    ensures ObjectAt(Erase(t), q) && Erase(t') == Put(Erase(t), q, SetBounds(Get(Erase(t), q).value, p))
    ensures Get(Erase(t'), q) == Some(SetBounds(Get(Erase(t), q).value, p))
  {
    EraseAt(t, q);
    ghost var j := Erase(t);
    ghost var g1 := SetBound(Get(j, q).value, "replicas", p.replicas);
    ghost var g2 := SetBound(g1, "minReplicas", p.minReplicas);
    PutTwice(j, q, g1, g2);
    PutTwice(j, q, g2, SetBounds(Get(j, q).value, p));
    PutTwice(j, q, SetBounds(Get(j, q).value, p), NULL);
    t' := SetBoundOf(wg, "replicas", p.replicas, v, t, q);
    t' := SetBoundOf(wg, "minReplicas", p.minReplicas, v, t', q);
    t' := SetBoundOf(wg, "maxReplicas", p.maxReplicas, v, t', q);
  }

  lemma GroupInObject(obj: MapNode, spec: MapNode, t: Tree, i: nat, wg: MapNode)
    requires Owned(obj, t) && "spec" in t.members && t.members["spec"].TMap?
    requires Locates(VMap(spec), t.members["spec"], [Key(WORKERS)] + [Index(i)], wg)
    ensures Locates(VMap(obj), t, GroupPath(i), wg)
  {
    var p := GroupPath(i);
    assert p[0] == Key("spec") && p[1..] == [Key(WORKERS)] + [Index(i)];
  }

  /** The build closure of Scale. */
  method BuildScale(raw: MapNode?, namespace: string, name: string, p: ScaleParams, ghost rt: Tree)
    returns (r: Result<MapNode, ScaleError>, ghost t: Tree)
    requires HoldsMap(raw, rt)
    ensures MapJson(raw, rt).Obj?
    ensures ScaleAgrees(r, t, Scaled(MapJson(raw, rt), namespace, name, p))
    ensures forall n | n in Nodes(t) :: fresh(n)
  {
    var obj, spec;
    obj, spec, t := ReadForWriteOf(raw, "RayCluster", namespace, name, true, rt);
    Detach(obj, "spec", t);
    MemberErased(t, "spec");
    ghost var st := t.members["spec"];
    var wg := FindWorkerGroup(spec, p.workerGroup, st);
    ghost var i := FirstNamed(Groups(Erase(st)), p.workerGroup, 0);
    if wg == null {
      return Err(GroupNotFound), t;
    }
    var auto := IsAutoscaling(spec, st);
    if p.replicas.Some? && auto {
      return Err(AutoscalerOwnsReplicas), t;
    }
    if p.replicas == Some(0) && !p.allowDestructive {
      return Err(NeedsAllowDestructive), t;
    }
    GroupInObject(obj, spec, t, i, wg);
    ghost var group := SetBounds(Groups(Erase(st))[i], p);
    PutGroup(Erase(t), i, group);
    var ok;
    ok, t := ScaleGroup(obj, wg, p, t, GroupPath(i));
    r := if ok then Ok(obj) else Err(InvalidBounds);
  }

  /** The bounds are set and then checked on what the group holds. */
  method ScaleGroup(obj: MapNode, wg: MapNode, p: ScaleParams, ghost t: Tree, ghost q: Path) returns (ok: bool, ghost t': Tree)
    requires Locates(VMap(obj), t, q, wg) && Owned(obj, t)
    modifies Nodes(t)
    ensures Owned(obj, t') && Nodes(t') <= Nodes(t)
    ensures ObjectAt(Erase(t), q) && Erase(t') == Put(Erase(t), q, SetBounds(Get(Erase(t), q).value, p))
    ensures ok == BoundsOk(SetBounds(Get(Erase(t), q).value, p))
  {
    InsideNodes(VMap(obj), t, q, wg);
    t' := SetBoundsOf(wg, p, VMap(obj), t, q);
    RootKept(obj, t');
    NodesAllocated(t');
    ok := BoundsOkAt(wg, VMap(obj), t', q);
  }

  method BoundsOkAt(wg: MapNode, ghost v: Value, ghost t: Tree, ghost q: Path) returns (ok: bool)
    requires Locates(v, t, q, wg)
    ensures ObjectAt(Erase(t), q) && ok == BoundsOk(Get(Erase(t), q).value)
  {
    Split(v, t, q);
    EraseAt(t, q);
    ok := ValidateWorkerBounds(wg, TreeAt(t, q).value);
  }

  lemma RootKept(obj: MapNode, t: Tree)
    requires Holds(VMap(obj), t) && Separate(t)
    ensures Owned(obj, t)
  {
  }

  ghost predicate ScaleAgrees(r: Result<MapNode, ScaleError>, t: Tree, spec: Result<Json, ScaleError>)
    reads Nodes(t)
  {
    match r
    case Ok(obj) => Owned(obj, t) && spec == Ok(Erase(t))
    case Err(e) => spec == Err(e)
  }
}
