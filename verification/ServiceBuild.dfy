/** ray_service_update on the heap.  The live spec is snapshotted before the clone it lives in is
    edited, so the classifier compares two trees that share no node. */
module ServiceBuild {
  import opened Json
  import opened Edits
  import opened Heap
  import opened HeapEdits
  import opened MergeSpec
  import opened Merge
  import opened GroupEdits
  import opened Normalize
  import opened Classify
  import opened ServiceHeap
  import opened WriteSpec
  import opened BuilderHeap
  import opened ServiceUpdate

  // ---- Building the submitted object

  /** The deltas on the service spec: rayClusterConfig, created where it is missing, then the serve
      config. */
  method SubmittedSpecOf(spec: MapNode, d: Deltas, serve: Option<string>, ghost t: Tree) returns (ghost t': Tree)
    requires Owned(spec, t)
    modifies Nodes(t)
    ensures Owned(spec, t') && forall n | n in Nodes(t') :: n in Nodes(t) || fresh(n)
    ensures Erase(t).Obj? && Erase(t') == SubmittedSpec(Erase(t), d, serve)
  {
    t' := ConfiguredSpec(spec, d, t);
    RootInNodes(t');
    if serve.Some? {
      t' := SetScalar(spec, "serveConfigV2", Str(serve.value), t');
    }
  }

  method ConfiguredSpec(spec: MapNode, d: Deltas, ghost t: Tree) returns (ghost t': Tree)
    requires Owned(spec, t)
    modifies Nodes(t)
    ensures Owned(spec, t') && forall n | n in Nodes(t') :: n in Nodes(t) || fresh(n)
    ensures Erase(t).Obj?
         && Erase(t') == WithMember(Erase(t), "rayClusterConfig", ConfigDeltas(BaseConfig(Erase(t)), d))
  {
    RootInNodes(t);
    var _, mt := ObjectMemberOf(spec, "rayClusterConfig", t);
    t' := ConfigDeltasIn(spec, "rayClusterConfig", d, mt);
    MemberReset(Erase(t), "rayClusterConfig", ConfigDeltas(BaseConfig(Erase(t)), d));
  }

  method SubmittedSpecIn(obj: MapNode, d: Deltas, serve: Option<string>, ghost t: Tree) returns (ghost t': Tree)
    requires Owned(obj, t) && "spec" in obj.fields && obj.fields["spec"].VMap?
    modifies Nodes(t)
    ensures Owned(obj, t') && forall n | n in Nodes(t') :: n in Nodes(t) || fresh(n)
    ensures Erase(t).Obj? && Erase(t') == WithMember(Erase(t), "spec", SubmittedSpec(ObjectMember(Erase(t), "spec"), d, serve))
  {
    ghost var kid := t.members["spec"];
    Detach(obj, "spec", t);
    ghost var kid' := SubmittedSpecOf(obj.fields["spec"].node, d, serve, kid);
    Rejoin(obj, "spec", t, kid');
    t' := WithTree(t, Key("spec"), kid');
    MemberErased(t, "spec");
  }

  /** Read, snapshot the live spec, edit. */
  method EditedObject(raw: MapNode?, namespace: string, name: string, d: Deltas, serve: Option<string>, ghost rt: Tree)
    returns (obj: MapNode, liveSpec: MapNode, ghost t: Tree, ghost lt: Tree)
    requires HoldsMap(raw, rt)
    ensures Owned(obj, t) && forall n | n in Nodes(t) :: fresh(n)
    ensures Owned(liveSpec, lt) && forall n | n in Nodes(lt) :: fresh(n)
    ensures MapJson(raw, rt).Obj? && Erase(t) == ServiceUpdated(MapJson(raw, rt), namespace, name, d, serve)
    ensures Erase(lt) == ObjectMember(MapJson(raw, rt), "spec")
  {
    obj, liveSpec, t, lt := ReadAndSnapshot(raw, namespace, name, rt);
    NodesAllocated(lt);
    ReadSpec(MapJson(raw, rt), namespace, name);
    t := EditObject(obj, d, serve, t);
  }

  lemma ReadSpec(raw: Json, namespace: string, name: string)
    requires raw.Obj?
    ensures ObjectMember(ReadForWrite(raw, "RayService", namespace, name, false), "spec") == ObjectMember(raw, "spec")
  {
  }

  /** All curated deltas on the clone. */
  method EditObject(obj: MapNode, d: Deltas, serve: Option<string>, ghost t: Tree) returns (ghost t': Tree)
    requires Owned(obj, t) && "spec" in obj.fields && obj.fields["spec"].VMap?
    modifies Nodes(t)
    ensures Owned(obj, t') && forall n | n in Nodes(t') :: n in Nodes(t) || fresh(n)
    ensures Erase(t).Obj?
    ensures Erase(t') == MetaDeltas(WithMember(Erase(t), "spec", SubmittedSpec(ObjectMember(Erase(t), "spec"), d, serve)), d)
  {
    t' := SubmittedSpecIn(obj, d, serve, t);
    t' := MetaDeltasOf(obj, d, t');
  }

  method ReadAndSnapshot(raw: MapNode?, namespace: string, name: string, ghost rt: Tree)
    returns (obj: MapNode, liveSpec: MapNode, ghost t: Tree, ghost lt: Tree)
    requires HoldsMap(raw, rt)
    ensures Owned(obj, t) && forall n | n in Nodes(t) :: fresh(n)
    ensures Owned(liveSpec, lt) && forall n | n in Nodes(lt) :: fresh(n) && n !in Nodes(t)
    ensures "spec" in obj.fields && obj.fields["spec"].VMap?
    ensures MapJson(raw, rt).Obj? && Erase(t) == ReadForWrite(MapJson(raw, rt), "RayService", namespace, name, false)
    ensures Erase(lt) == ObjectMember(Erase(t), "spec")
  {
    var spec;
    obj, spec, t := ReadForWriteOf(raw, "RayService", namespace, name, false, rt);
    NodesAllocated(t);
    liveSpec, lt := SnapshotSpec(obj, t);
  }

  /** cloneMap(spec). */
  method SnapshotSpec(obj: MapNode, ghost t: Tree) returns (liveSpec: MapNode, ghost lt: Tree)
    requires Owned(obj, t) && "spec" in obj.fields && obj.fields["spec"].VMap?
    ensures Owned(liveSpec, lt) && forall n | n in Nodes(lt) :: fresh(n)
    ensures Erase(lt) == ObjectMember(Erase(t), "spec")
  {
    Detach(obj, "spec", t);
    MemberErased(t, "spec");
    liveSpec, lt := CloneMap(obj.fields["spec"].node, t.members["spec"]);
  }

  // ---- classifyServiceUpdate

  /** The tree of the member k, where there is one. */
  ghost function MemberTree(t: Tree, k: string): Tree {
    if t.TMap? && k in t.members then t.members[k] else t
  }

  /** The object member k of a map, or nil. */
  method MapMember(m: MapNode, k: string, ghost t: Tree) returns (c: MapNode?)
    requires Holds(VMap(m), t)
    ensures HoldsMap(c, MemberTree(t, k))
    ensures ConfigJson(c, MemberTree(t, k)) == match Child(Erase(t), Key(k))
                                               case Some(Obj(fields)) => Some(Obj(fields))
                                               case _ => None
  {
    EraseChild(t, Key(k));
    c := null;
    if k in m.fields {
      assert Holds(m.fields[k], t.members[k]);
      if m.fields[k].VMap? {
        c := m.fields[k].node;
      }
    }
  }

  /** A string member of a map, "" when there is none. */
  method StringIn(m: MapNode, k: string, ghost t: Tree) returns (s: string)
    requires Holds(VMap(m), t)
    ensures s == StringMember(Erase(t), k)
  {
    s := "";
    EraseChild(t, Key(k));
    if k in m.fields {
      assert Holds(m.fields[k], t.members[k]);
      if m.fields[k].VLeaf? && m.fields[k].v.Str? {
        s := m.fields[k].v.s;
      }
    }
  }

  /** classifyClusterChange and upgradeStrategyType. */
  method ClassifyClusterChange(spec: MapNode, ghost t: Tree) returns (p: Prediction)
    requires Holds(VMap(spec), t)
    ensures p == ClusterChange(Erase(t))
  {
    var us := MapMember(spec, UPGRADE, t);
    var strategy := "";
    if us != null {
      strategy := StringIn(us, "type", MemberTree(t, UPGRADE));
    }
    var lower := ToLower(strategy);
    p := if lower == "none" then SwapUnlessDisabled else if lower == "" then SwapByOperatorDefault else Swap;
  }

  /** reflect.DeepEqual of two possibly nil maps. */
  method SameConfig(x: MapNode?, y: MapNode?, ghost xt: Tree, ghost yt: Tree) returns (same: bool)
    requires HoldsMap(x, xt) && HoldsMap(y, yt)
    ensures same <==> ConfigJson(x, xt) == ConfigJson(y, yt)
  {
    if x == null || y == null {
      same := x == null && y == null;
    } else {
      same := DeepEqual(VMap(x), VMap(y), xt, yt);
    }
  }

  /** classifyServiceUpdate. */
  method ClassifyServiceUpdate(live: MapNode?, submitted: MapNode?, ghost lt: Tree, ghost st: Tree) returns (p: Prediction)
    requires HoldsMap(live, lt) && HoldsMap(submitted, st)
    ensures p == Classified(ConfigJson(live, lt), ConfigJson(submitted, st))
  {
    if live == null || submitted == null {
      return Unknown;
    }
    NodesAllocated(lt);
    NodesAllocated(st);
    var liveServe := StringIn(live, "serveConfigV2", lt);
    var submittedServe := StringIn(submitted, "serveConfigV2", st);
    var changed, partial, same := CompareConfigs(live, submitted, lt, st);
    if changed {
      if partial {
        return InPlaceAppend;
      }
      p := ClassifyClusterChange(submitted, st);
      return;
    }
    if liveServe != submittedServe {
      return InPlaceServe;
    }
    return if same then NoChange else ScaleNoSwap;
  }

  /** The three comparisons of the configs; the later ones are only made where they are needed. */
  method CompareConfigs(live: MapNode, submitted: MapNode, ghost lt: Tree, ghost st: Tree)
    returns (changed: bool, partial: bool, same: bool)
    requires Holds(VMap(live), lt) && Holds(VMap(submitted), st)
    ensures var lc, sc := ConfigOf(Erase(lt)), ConfigOf(Erase(st));
            && (changed <==> NormalOpt(lc) != NormalOpt(sc))
            && (changed ==> partial == PartialHashEqual(lc, sc))
            && (!changed ==> (same <==> lc == sc))
  {
    NodesAllocated(lt);
    NodesAllocated(st);
    ghost var lct, sct := MemberTree(lt, "rayClusterConfig"), MemberTree(st, "rayClusterConfig");
    NodesAllocated(lct);
    var lc := MapMember(live, "rayClusterConfig", lt);
    var sc := MapMember(submitted, "rayClusterConfig", st);
    changed, partial, same := CompareMaps(lc, sc, lct, sct);
  }

  method CompareMaps(lc: MapNode?, sc: MapNode?, ghost lct: Tree, ghost sct: Tree) returns (changed: bool, partial: bool, same: bool)
    requires HoldsMap(lc, lct) && HoldsMap(sc, sct)
    ensures changed <==> NormalOpt(ConfigJson(lc, lct)) != NormalOpt(ConfigJson(sc, sct))
    ensures changed ==> partial == PartialHashEqual(ConfigJson(lc, lct), ConfigJson(sc, sct))
    ensures !changed ==> (same <==> ConfigJson(lc, lct) == ConfigJson(sc, sct))
  {
    NodesAllocated(lct);
    NodesAllocated(sct);
    partial, same := false, false;
    var normal := SameNormal(lc, sc, lct, sct);
    changed := !normal;
    if changed {
      partial := PartialHashEqualOf(lc, sc, lct, sct);
    } else {
      same := SameConfig(lc, sc, lct, sct);
    }
  }

  // ---- Update up to the apply

  /** The object to apply and the predicted path, or the identity error. */
  method BuildServiceUpdate(raw: MapNode?, namespace: string, name: string, d: Deltas, serve: Option<string>,
        rawSpec: MapNode?, ghost rt: Tree, ghost pt: Tree)
    returns (r: Result<MapNode, IdentityError>, predicted: Prediction, ghost mt: Tree)
    requires HoldsMap(raw, rt) && HoldsMap(rawSpec, pt)
    ensures MapJson(raw, rt).Obj?
    ensures AgreesWith(r, mt, ServiceIntent(MapJson(raw, rt), namespace, name, d, serve, MapJson(rawSpec, pt)))
    ensures forall n | n in Nodes(mt) :: fresh(n)
    ensures r.Ok? ==> predicted == Predicted(MapJson(raw, rt), Erase(mt))
  {
    NodesAllocated(pt);
    var obj, liveSpec, t, lt := EditedObject(raw, namespace, name, d, serve, rt);
    NodesAllocated(lt);
    NodesAllocated(t);
    predicted := Unknown;
    r, mt := Merge.Merge(obj, rawSpec, Identity(namespace, name), t, pt);
    if r.Ok? {
      NodesAllocated(mt);
      predicted := PredictFor(r.value, liveSpec, mt, lt);
    }
  }

  /** The classification of a merged object against the snapshot. */
  method PredictFor(merged: MapNode, liveSpec: MapNode, ghost mt: Tree, ghost lt: Tree) returns (p: Prediction)
    requires Owned(merged, mt) && Owned(liveSpec, lt)
    ensures p == Classified(Some(Erase(lt)), SpecOf(Erase(mt)))
  {
    NodesAllocated(lt);
    ghost var st := MemberTree(mt, "spec");
    NodesAllocated(st);
    var submitted := MapMember(merged, "spec", mt);
    p := ClassifyServiceUpdate(liveSpec, submitted, lt, st);
  }
}
