/** The classifier of internal/domain/service_write.go on the heap: normalizeForHash edits a deep
    clone, partialHashEqual edits a shallow copy that shares the caller's nodes, and neither
    changes what it was given. */
module ServiceHeap {
  import opened Json
  import opened Edits
  import opened Heap
  import opened HeapEdits
  import opened Merge
  import opened GroupEdits
  import opened GroupHeap
  import opened Normalize
  import opened Classify

  /** A possibly nil config map. */
  ghost function ConfigJson(m: MapNode?, t: Tree): Option<Json> {
    if m == null then None else Some(Erase(t))
  }

  /** normalizeForHash. */
  method NormalizeForHash(config: MapNode?, ghost t: Tree) returns (norm: MapNode, ghost nt: Tree)
    requires HoldsMap(config, t)
    ensures Owned(norm, nt) && forall n | n in Nodes(nt) :: fresh(n)
    ensures Erase(nt) == NormalOpt(ConfigJson(config, t))
  {
    if config == null {
      norm := new MapNode();
      nt := TMap(norm, map[]);
      EmptyOwned(norm);
      return;
    }
    norm, nt := CloneMap(config, t);
    nt := EditHeadOf(Normalizing, norm, nt);
    nt := EditGroupsOf(Normalizing, norm, nt);
    AtRoot(norm, nt);
    RootInNodes(nt);
    nt := DeleteMember(norm, UPGRADE, VMap(norm), nt, []);
  }

  // ---- reflect.DeepEqual on JSON values

  method DeepEqual(v: Value, w: Value, ghost t: Tree, ghost u: Tree) returns (same: bool)
    requires Holds(v, t) && Holds(w, u)
    ensures same <==> Erase(t) == Erase(u)
    decreases t, 1
  {
    NodesAllocated(t);
    NodesAllocated(u);
    if v.VLeaf? && w.VLeaf? {
      same := v.v == w.v;
    } else if v.VList? && w.VList? {
      same := DeepEqualLists(v.elems, w.elems, t, u);
    } else if v.VMap? && w.VMap? {
      same := DeepEqualMaps(v.node, w.node, t, u);
    } else {
      same := false;
    }
  }

  method DeepEqualLists(v: seq<Value>, w: seq<Value>, ghost t: Tree, ghost u: Tree) returns (same: bool)
    requires Holds(VList(v), t) && Holds(VList(w), u)
    ensures same <==> Erase(t) == Erase(u)
    decreases t, 0
  {
    NodesAllocated(t);
    NodesAllocated(u);
    if |v| != |w| {
      return false;
    }
    for i := 0 to |v|
      invariant Holds(VList(v), t) && Holds(VList(w), u)
      invariant forall j | 0 <= j < i :: Erase(t.kids[j]) == Erase(u.kids[j])
    {
      var e := DeepEqual(v[i], w[i], t.kids[i], u.kids[i]);
      if !e {
        assert Child(Erase(t), Index(i)) != Child(Erase(u), Index(i));
        return false;
      }
    }
    assert Erase(t).elems == Erase(u).elems;
    return true;
  }

  method DeepEqualMaps(v: MapNode, w: MapNode, ghost t: Tree, ghost u: Tree) returns (same: bool)
    requires Holds(VMap(v), t) && Holds(VMap(w), u)
    ensures same <==> Erase(t) == Erase(u)
    decreases t, 0
  {
    NodesAllocated(t);
    NodesAllocated(u);
    if v.fields.Keys != w.fields.Keys {
      assert Erase(t).fields.Keys == v.fields.Keys && Erase(u).fields.Keys == w.fields.Keys;
      return false;
    }
    var todo := v.fields.Keys;
    while todo != {}
      invariant Holds(VMap(v), t) && Holds(VMap(w), u)
      invariant todo <= t.members.Keys
      invariant forall k | k in t.members && k !in todo :: Erase(t.members[k]) == Erase(u.members[k])
    {
      var k :| k in todo;
      var e := DeepEqual(v.fields[k], w.fields[k], t.members[k], u.members[k]);
      if !e {
        assert Child(Erase(t), Key(k)) != Child(Erase(u), Key(k));
        return false;
      }
      todo := todo - {k};
    }
    assert Erase(t).fields == Erase(u).fields;
    return true;
  }

  // ---- partialHashEqual

  /** The worker groups of a possibly nil config. */
  method GroupsOf(config: MapNode?, ghost t: Tree) returns (groups: seq<Value>)
    requires HoldsMap(config, t)
    ensures |groups| == |GroupsOpt(ConfigJson(config, t))|
    ensures |groups| > 0 ==> config != null && WORKERS in config.fields && config.fields[WORKERS] == VList(groups)
  {
    groups := [];
    if config != null {
      EraseChild(t, Key(WORKERS));
      if WORKERS in config.fields {
        assert Holds(config.fields[WORKERS], t.members[WORKERS]);
        if config.fields[WORKERS].VList? {
          groups := config.fields[WORKERS].elems;
        }
      }
    }
  }

  /** The tree of the truncated copy: the caller's own subtrees under a new root. */
  ghost function TruncatedTree(copy: MapNode, t: Tree, n: nat): Tree
    requires t.TMap? && WORKERS in t.members && t.members[WORKERS].TList? && n <= |t.members[WORKERS].kids|
  {
    TMap(copy, t.members[WORKERS := TList(t.members[WORKERS].kids[..n])])
  }

  /** The copy of the submitted config with its groups cut to n. */
  method TruncatedCopy(config: MapNode, groups: seq<Value>, n: nat, ghost t: Tree) returns (copy: MapNode, ghost ct: Tree)
    requires Holds(VMap(config), t) && n <= |groups|
    requires WORKERS in config.fields && config.fields[WORKERS] == VList(groups)
    ensures Holds(VMap(copy), ct) && fresh(copy)
    ensures HasGroups(Erase(t)) && |Groups(Erase(t))| == |groups| && Erase(ct) == Truncated(Erase(t), n)
  {
    NodesAllocated(t);
    assert Holds(config.fields[WORKERS], t.members[WORKERS]);
    copy := new MapNode();
    var todo := config.fields.Keys;
    while todo != {}
      invariant todo <= config.fields.Keys && copy.fields.Keys == config.fields.Keys - todo
      invariant forall k | k in copy.fields :: copy.fields[k] == config.fields[k]
    {
      var k :| k in todo;
      copy.fields := copy.fields[k := config.fields[k]];
      todo := todo - {k};
    }
    copy.fields := copy.fields[WORKERS := VList(groups[..n])];
    ct := TruncatedTree(copy, t, n);
    TruncatedHolds(copy, groups, config, t, n);
    TruncatedErase(copy, t, n);
  }

  lemma TruncatedHolds(copy: MapNode, groups: seq<Value>, config: MapNode, t: Tree, n: nat)
    requires Holds(VMap(config), t) && n <= |groups| && copy !in Nodes(t)
    requires WORKERS in config.fields && config.fields[WORKERS] == VList(groups)
    requires copy.fields == config.fields[WORKERS := VList(groups[..n])]
    ensures t.members[WORKERS].TList? && |t.members[WORKERS].kids| == |groups|
    ensures Holds(VMap(copy), TruncatedTree(copy, t, n))
  {
    assert Holds(config.fields[WORKERS], t.members[WORKERS]);
    assert Holds(VList(groups[..n]), TList(t.members[WORKERS].kids[..n]));
  }

  lemma TruncatedErase(copy: MapNode, t: Tree, n: nat)
    requires t.TMap? && WORKERS in t.members && t.members[WORKERS].TList? && n <= |t.members[WORKERS].kids|
    ensures HasGroups(Erase(t)) && |Groups(Erase(t))| == |t.members[WORKERS].kids|
    ensures Erase(TruncatedTree(copy, t, n)) == Truncated(Erase(t), n)
  {
    var kids := t.members[WORKERS].kids;
    EraseChild(t, Key(WORKERS));
    assert Erase(TList(kids[..n])) == Arr(Groups(Erase(t))[..n]);
  }

  /** partialHashEqual. */
  method PartialHashEqualOf(live: MapNode?, submitted: MapNode?, ghost lt: Tree, ghost st: Tree) returns (b: bool)
    requires HoldsMap(live, lt) && HoldsMap(submitted, st)
    ensures b == PartialHashEqual(ConfigJson(live, lt), ConfigJson(submitted, st))
  {
    NodesAllocated(lt);
    NodesAllocated(st);
    var liveGroups := GroupsOf(live, lt);
    var submittedGroups := GroupsOf(submitted, st);
    if |submittedGroups| <= |liveGroups| {
      return false;
    }
    var copy, ct := TruncatedCopy(submitted, submittedGroups, |liveGroups|, st);
    b := SameNormal(live, copy, lt, ct);
  }

  /** DeepEqual of two normal forms. */
  method SameNormal(x: MapNode?, y: MapNode?, ghost xt: Tree, ghost yt: Tree) returns (same: bool)
    requires HoldsMap(x, xt) && HoldsMap(y, yt)
    ensures same <==> NormalOpt(ConfigJson(x, xt)) == NormalOpt(ConfigJson(y, yt))
  {
    NodesAllocated(xt);
    NodesAllocated(yt);
    var nx, nxt := NormalizeForHash(x, xt);
    NodesAllocated(nxt);
    var ny, nyt := NormalizeForHash(y, yt);
    same := DeepEqual(VMap(nx), VMap(ny), nxt, nyt);
  }
}
