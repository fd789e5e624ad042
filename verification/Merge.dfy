/** internal/domain/merge.go on the heap: deep clones, the in-place merge patch and Merge,
    proved against MergeSpec together with who owns and who changes which node. */
module Merge {
  import opened Json
  import opened Edits
  import opened Heap
  import opened HeapEdits
  import opened MergeSpec

  /** The JSON object of a possibly nil map. */
  ghost function MapJson(m: MapNode?, t: Tree): Json {
    if m == null then Obj(map[]) else Erase(t)
  }

  ghost predicate HoldsMap(m: MapNode?, t: Tree)
    reads Nodes(t)
  {
    m != null ==> Holds(VMap(m), t)
  }

  // ---- Cloning

  /** The part of an object cloned so far: its members agree with the original's. */
  ghost predicate ClonedMembers(ms: map<string, Tree>, original: map<string, Tree>) {
    ms.Keys <= original.Keys && forall k | k in ms :: Erase(ms[k]) == Erase(original[k])
  }

  /** cloneMap: a nil map clones to an empty one. */
  method CloneMap(m: MapNode?, ghost t: Tree) returns (out: MapNode, ghost u: Tree)
    requires HoldsMap(m, t)
    ensures fresh(Nodes(u)) && Holds(VMap(out), u) && Separate(u)
    ensures u.TMap? && u.node == out
    ensures Erase(u) == MapJson(m, t)
    decreases t, 1
  {
    NodesAllocated(t);
    out := new MapNode();
    u := TMap(out, map[]);
    EmptyOwned(out);
    if m == null {
      return;
    }
    u := CloneMembers(m, t, out, u);
    ClonedAll(u, t);
  }

  /** The loop of cloneMap, over the names in any order. */
  method CloneMembers(m: MapNode, ghost t: Tree, out: MapNode, ghost u0: Tree) returns (ghost u: Tree)
    requires Holds(VMap(m), t) && out !in Nodes(t)
    requires u0 == TMap(out, map[]) && Holds(VMap(out), u0) && Separate(u0)
    modifies out
    ensures (forall n | n in Nodes(u) :: n == out || fresh(n)) && Holds(VMap(out), u) && Separate(u)
    ensures u.TMap? && u.node == out && u.members.Keys == t.members.Keys && ClonedMembers(u.members, t.members)
    decreases t, 0
  {
    u := u0;
    var todo := m.fields.Keys;
    while todo != {}
      invariant Holds(VMap(m), t)
      invariant (forall n | n in Nodes(u) :: n == out || fresh(n)) && Holds(VMap(out), u) && Separate(u)
      invariant u.TMap? && u.node == out
      invariant u.members.Keys !! todo && u.members.Keys + todo == t.members.Keys && ClonedMembers(u.members, t.members)
    {
      var k :| k in todo;
      ghost var u' := CloneMember(m, t, k, out, u);
      MoveKey(t.members.Keys, u.members.Keys, todo, k);
      u, todo := u', todo - {k};
    }
  }

  /** out[k] = cloneValue(m[k]). */
  method CloneMember(m: MapNode, ghost t: Tree, k: string, out: MapNode, ghost u: Tree) returns (ghost u': Tree)
    requires Holds(VMap(m), t) && k in m.fields && out !in Nodes(t)
    requires Holds(VMap(out), u) && Separate(u) && u.TMap? && u.node == out
    requires ClonedMembers(u.members, t.members)
    modifies out
    ensures Holds(VMap(m), t)
    ensures forall n | n in Nodes(u') :: n in Nodes(u) || fresh(n)
    ensures Holds(VMap(out), u') && Separate(u')
    ensures u'.TMap? && u'.node == out && u'.members.Keys == u.members.Keys + {k}
    ensures ClonedMembers(u'.members, t.members)
    decreases t.members[k], 3
  {
    NodesAllocated(u);
    NodesAllocated(t);
    ghost var owned := Nodes(u);
    var x, xt := CloneValue(m.fields[k], t.members[k]);
    assert Nodes(xt) !! owned;
    u' := With(u, k, xt);
    InsertMember(out, k, x, xt, u);
  }

  lemma MoveKey(all: set<string>, done: set<string>, todo: set<string>, k: string)
    requires done !! todo && done + todo == all && k in todo
    ensures done + {k} !! todo - {k} && done + {k} + (todo - {k}) == all
  {
  }

  lemma ClonedAll(u: Tree, t: Tree)
    requires u.TMap? && t.TMap? && u.members.Keys == t.members.Keys && ClonedMembers(u.members, t.members)
    ensures Erase(u) == Erase(t)
  {
  }

  /** cloneValue. */
  method CloneValue(v: Value, ghost t: Tree) returns (x: Value, ghost xt: Tree)
    requires Holds(v, t)
    ensures fresh(Nodes(xt)) && Holds(x, xt) && Separate(xt) && Erase(xt) == Erase(t)
    decreases t, 2
  {
    match v
    case VMap(node) =>
      var out;
      out, xt := CloneMap(node, t);
      x := VMap(out);
    case VList(elems) =>
      x, xt := CloneList(elems, t);
    case VLeaf(s) =>
      x, xt := v, t;
  }

  /** The slice case of cloneValue. */
  method CloneList(elems: seq<Value>, ghost t: Tree) returns (x: Value, ghost xt: Tree)
    requires Holds(VList(elems), t)
    ensures fresh(Nodes(xt)) && Holds(x, xt) && Separate(xt) && Erase(xt) == Erase(t)
    decreases t, 0
  {
    NodesAllocated(t);
    var out: seq<Value> := [];
    ghost var kids: seq<Tree> := [];
    for i := 0 to |elems|
      invariant |out| == |kids| == i && Holds(VList(elems), t)
      invariant fresh(Nodes(TList(kids))) && Holds(VList(out), TList(kids)) && Separate(TList(kids))
      invariant forall j | 0 <= j < i :: Erase(kids[j]) == Erase(t.kids[j])
    {
      ghost var owned := Nodes(TList(kids));
      NodesAllocated(TList(kids));
      var e, et := CloneValue(elems[i], t.kids[i]);
      assert Nodes(et) !! owned;
      AppendNodes(kids, et);
      AppendOwned(out, kids, e, et);
      out, kids := out + [e], kids + [et];
    }
    x, xt := VList(out), TList(kids);
    assert Erase(xt) == Erase(t);
  }

  lemma AppendNodes(kids: seq<Tree>, et: Tree)
    ensures Nodes(TList(kids + [et])) == Nodes(TList(kids)) + Nodes(et)
  {
    var all := kids + [et];
    forall n | n in Nodes(TList(all)) ensures n in Nodes(TList(kids)) + Nodes(et) {
      var i :| 0 <= i < |all| && n in Nodes(all[i]);
      if i < |kids| {
        assert n in Nodes(kids[i]);
      }
    }
    forall n | n in Nodes(TList(kids)) ensures n in Nodes(TList(all)) {
      var i :| 0 <= i < |kids| && n in Nodes(kids[i]);
      assert n in Nodes(all[i]);
    }
    assert all[|kids|] == et;
  }

  lemma AppendOwned(out: seq<Value>, kids: seq<Tree>, e: Value, et: Tree)
    requires Holds(VList(out), TList(kids)) && Separate(TList(kids))
    requires Holds(e, et) && Separate(et) && Nodes(et) !! Nodes(TList(kids))
    ensures Holds(VList(out + [e]), TList(kids + [et])) && Separate(TList(kids + [et]))
  {
    var all := kids + [et];
    forall i, j | 0 <= i < j < |all| ensures Nodes(all[i]) !! Nodes(all[j]) {
      assert all[i] == kids[i] && TreeChild(TList(kids), Index(i)) == Some(kids[i]);
      if j < |kids| {
        assert all[j] == kids[j];
      } else {
        assert all[j] == et;
        ChildNodes(TList(kids), Index(i));
      }
    }
    forall i | 0 <= i < |all| ensures Separate(all[i]) && Holds((out + [e])[i], all[i]) {
      if i < |kids| {
        assert all[i] == kids[i] && (out + [e])[i] == out[i];
      }
    }
  }

  // ---- The in-place patch

  /** target is the root of a tree it owns. */
  ghost predicate Owned(target: MapNode, t: Tree)
    reads Nodes(t)
  {
    t.TMap? && t.node == target && Holds(VMap(target), t) && Separate(t)
  }

  /** mergePatch: target is updated in place, patch is only read.  The names are visited in any order. */
  method MergePatch(target: MapNode, patch: MapNode?, ghost t: Tree, ghost pt: Tree) returns (ghost t': Tree)
    requires Owned(target, t)
    requires patch != null ==> Holds(VMap(patch), pt) && Nodes(pt) !! Nodes(t)
    modifies Nodes(t)
    ensures Owned(target, t') && forall n | n in Nodes(t') :: n in Nodes(t) || fresh(n)
    ensures Erase(t') == Patched(Erase(t), MapJson(patch, pt))
    decreases pt, 0
  {
    t' := t;
    if patch == null {
      PatchedMembersNone(Erase(t), Obj(map[]));
      return;
    }
    NodesAllocated(pt);
    NoNames(t, pt);
    var todo := patch.fields.Keys;
    ghost var done: set<string> := {};
    while todo != {}
      invariant Holds(VMap(patch), pt) && Owned(target, t') && Nodes(pt) !! Nodes(t')
      invariant forall n | n in Nodes(t') :: n in Nodes(t) || fresh(n)
      invariant done !! todo && done + todo == pt.members.Keys
      invariant Erase(t') == AfterNames(Erase(t), pt, done)
    {
      var k :| k in todo;
      t' := MergeNamed(target, k, patch, t', pt);
      NextName(Erase(t), pt, done, k);
      MoveKey(pt.members.Keys, done, todo, k);
      todo, done := todo - {k}, done + {k};
    }
    assert done == pt.members.Keys;
    AllNames(Erase(t), pt);
  }

  lemma NoNames(t: Tree, pt: Tree)
    requires t.TMap? && pt.TMap?
    ensures Erase(t) == AfterNames(Erase(t), pt, {})
  {
    PatchedMembersNone(Erase(t), Erase(pt));
  }

  lemma AllNames(target: Json, pt: Tree)
    requires pt.TMap?
    ensures AfterNames(target, pt, pt.members.Keys) == Patched(target, Erase(pt))
  {
  }

  /** The target after the patch's names in `done`. */
  ghost function AfterNames(target: Json, pt: Tree, done: set<string>): Json
    requires pt.TMap? && done <= pt.members.Keys
  {
    Obj(PatchedMembers(target, Erase(pt), done))
  }

  lemma NextName(target: Json, pt: Tree, done: set<string>, k: string)
    requires pt.TMap? && done <= pt.members.Keys && k in pt.members && k !in done
    ensures MemberApplied(AfterNames(target, pt, done), k, Erase(pt.members[k])) == AfterNames(target, pt, done + {k})
  {
    PatchedMembersNext(target, Erase(pt), done, k);
  }

  /** One iteration: the patch member k is applied and the patch is still intact. */
  method MergeNamed(target: MapNode, k: string, patch: MapNode, ghost t: Tree, ghost pt: Tree) returns (ghost t': Tree)
    requires Owned(target, t) && Holds(VMap(patch), pt) && Nodes(pt) !! Nodes(t)
    requires k in patch.fields
    modifies Nodes(t)
    ensures Holds(VMap(patch), pt) && Nodes(pt) !! Nodes(t')
    ensures Owned(target, t') && forall n | n in Nodes(t') :: n in Nodes(t) || fresh(n)
    ensures Erase(t') == MemberApplied(Erase(t), k, Erase(pt.members[k]))
    decreases pt.members[k], 3
  {
    NodesAllocated(pt);
    assert TreeChild(pt, Key(k)) == Some(pt.members[k]);
    ChildNodes(pt, Key(k));
    t' := MergeMember(target, k, patch.fields[k], t, pt.members[k]);
  }

  /** Applying one member of the patch. */
  ghost function MemberApplied(target: Json, k: string, pv: Json): Json {
    if pv == NULL then Obj(Members(target) - {k}) else Obj(Members(target)[k := Patched(Member(target, k), pv)])
  }

  /** The body of mergePatch's loop. */
  method MergeMember(target: MapNode, k: string, pv: Value, ghost t: Tree, ghost pvt: Tree) returns (ghost t': Tree)
    requires Owned(target, t) && Holds(pv, pvt) && Nodes(pvt) !! Nodes(t)
    modifies Nodes(t)
    ensures Owned(target, t') && forall n | n in Nodes(t') :: n in Nodes(t) || fresh(n)
    ensures Erase(t') == MemberApplied(Erase(t), k, Erase(pvt))
    decreases pvt, 2
  {
    RootInNodes(t);
    if pv == VLeaf(Null) {
      RemoveMember(target, k, t);
      t' := Without(t, k);
      WithoutOwned(t, k);
    } else if !pv.VMap? {
      t' := ReplaceMember(target, k, pv, t, pvt);
    } else if k in target.fields && target.fields[k].VMap? {
      t' := MergeIntoMember(target, k, pv.node, t, pvt);
    } else {
      t' := MergeIntoFresh(target, k, pv.node, t, pvt);
    }
  }

  /** A scalar or array replaces the member wholesale with a clone. */
  method ReplaceMember(target: MapNode, k: string, pv: Value, ghost t: Tree, ghost pvt: Tree) returns (ghost t': Tree)
    requires Owned(target, t) && Holds(pv, pvt) && !pv.VMap? && pv != VLeaf(Null)
    modifies target
    ensures Owned(target, t') && forall n | n in Nodes(t') :: n in Nodes(t) || fresh(n)
    ensures Erase(t') == MemberApplied(Erase(t), k, Erase(pvt))
    decreases pvt, 1
  {
    NodesAllocated(t);
    var x, xt := CloneValue(pv, pvt);
    InsertMember(target, k, x, xt, t);
    t' := With(t, k, xt);
    WithOwned(t, k, xt);
  }

  /** An object patches an object member in place. */
  method MergeIntoMember(target: MapNode, k: string, patch: MapNode, ghost t: Tree, ghost pvt: Tree) returns (ghost t': Tree)
    requires Owned(target, t) && Holds(VMap(patch), pvt) && Nodes(pvt) !! Nodes(t)
    requires k in target.fields && target.fields[k].VMap?
    modifies Nodes(t)
    ensures Owned(target, t') && forall n | n in Nodes(t') :: n in Nodes(t) || fresh(n)
    ensures Erase(t') == MemberApplied(Erase(t), k, Erase(pvt))
    decreases pvt, 1
  {
    ghost var kid := t.members[k];
    assert TreeChild(t, Key(k)) == Some(kid);
    SplitChild(VMap(target), t, Key(k));
    SeparateChild(t, Key(k));
    ChildNodes(t, Key(k));
    NodesAllocated(t);
    ghost var kid' := MergePatch(target.fields[k].node, patch, kid, pvt);
    JoinChild(VMap(target), t, Key(k), kid');
    SeparateWith(t, Key(k), kid');
    WithNodes(t, Key(k), kid');
    t' := WithTree(t, Key(k), kid');
    EraseWith(t, Key(k), kid');
  }

  /** An object lands on an absent or non-object member: it patches a fresh empty object. */
  method MergeIntoFresh(target: MapNode, k: string, patch: MapNode, ghost t: Tree, ghost pvt: Tree) returns (ghost t': Tree)
    requires Owned(target, t) && Holds(VMap(patch), pvt) && Nodes(pvt) !! Nodes(t)
    requires k !in target.fields || !target.fields[k].VMap?
    modifies target
    ensures Owned(target, t') && forall n | n in Nodes(t') :: n in Nodes(t) || fresh(n)
    ensures Erase(t') == MemberApplied(Erase(t), k, Erase(pvt))
    decreases pvt, 1
  {
    NodesAllocated(t);
    NodesAllocated(pvt);
    assert !Member(Erase(t), k).Obj? by {
      if k in t.members { assert Holds(target.fields[k], t.members[k]); }
    }
    var node := new MapNode();
    EmptyOwned(node);
    ghost var ft := MergePatch(node, patch, TMap(node, map[]), pvt);
    InsertMember(target, k, VMap(node), ft, t);
    t' := With(t, k, ft);
    WithOwned(t, k, ft);
    PatchedNonObject(Member(Erase(t), k), Erase(pvt));
  }

  lemma PatchedNonObject(target: Json, patch: Json)
    requires !target.Obj?
    ensures Patched(target, patch) == Patched(Obj(map[]), patch)
  {
    if patch.Obj? {
      assert PatchedMembers(target, patch, patch.fields.Keys) == PatchedMembers(Obj(map[]), patch, patch.fields.Keys);
    }
  }

  // ---- Reading strings and the public entry point

  /** nestedString: the string at a chain of keys and whether one is there. */
  method NestedString(m: MapNode, names: seq<string>, ghost t: Tree) returns (s: string, ok: bool)
    requires Holds(VMap(m), t)
    ensures s == StringAt(Erase(t), names)
    ensures ok <==> Get(Erase(t), KeyPath(names)).Some? && Get(Erase(t), KeyPath(names)).value.Leaf?
                    && Get(Erase(t), KeyPath(names)).value.v.Str?
  {
    var cur := VMap(m);
    ghost var ct := t;
    for i := 0 to |names|
      invariant Holds(cur, ct)
      invariant Get(Erase(t), KeyPath(names)) == Get(Erase(ct), KeyPath(names[i..]))
    {
      var k := names[i];
      assert KeyPath(names[i..])[0] == Key(k) && KeyPath(names[i..])[1..] == KeyPath(names[i + 1..]);
      EraseChild(ct, Key(k));
      if !cur.VMap? || k !in cur.node.fields {
        return "", false;
      }
      cur, ct := cur.node.fields[k], ct.members[k];
    }
    assert KeyPath(names[|names|..]) == [];
    if cur.VLeaf? && cur.v.Str? {
      return cur.v.s, true;
    }
    return "", false;
  }

  /** Merge: base and rawSpec are left as they were, and the result shares no node with them. */
  method Merge(base: MapNode?, rawSpec: MapNode?, id: Identity, ghost bt: Tree, ghost rt: Tree)
    returns (r: Result<MapNode, IdentityError>, ghost mt: Tree)
    requires HoldsMap(base, bt) && HoldsMap(rawSpec, rt)
    ensures AgreesWith(r, mt, Merged(MapJson(base, bt), MapJson(rawSpec, rt), id))
    ensures forall n | n in Nodes(mt) :: fresh(n)
  {
    var merged;
    merged, mt := MergeTrees(base, rawSpec, bt, rt);
    NodesAllocated(mt);
    var name, _ := NestedString(merged, ["metadata", "name"], mt);
    if name != id.name {
      return Err(IdentityError("name", id.name, name)), mt;
    }
    var namespace, _ := NestedString(merged, ["metadata", "namespace"], mt);
    if namespace != id.namespace {
      return Err(IdentityError("namespace", id.namespace, namespace)), mt;
    }
    return Ok(merged), mt;
  }

  /** The heap result of Merge against the specified one. */
  ghost predicate AgreesWith(r: Result<MapNode, IdentityError>, mt: Tree, spec: Result<Json, IdentityError>)
    reads Nodes(mt)
  {
    match r
    case Ok(merged) => Owned(merged, mt) && spec == Ok(Erase(mt))
    case Err(e) => spec == Err(e)
  }

  /** The clone and the patch of Merge. */
  method MergeTrees(base: MapNode?, rawSpec: MapNode?, ghost bt: Tree, ghost rt: Tree) returns (merged: MapNode, ghost mt: Tree)
    requires HoldsMap(base, bt) && HoldsMap(rawSpec, rt)
    ensures Owned(merged, mt) && forall n | n in Nodes(mt) :: fresh(n)
    ensures Erase(mt) == Patched(MapJson(base, bt), MapJson(rawSpec, rt))
  {
    NodesAllocated(rt);
    merged, mt := CloneMap(base, bt);
    mt := MergePatch(merged, rawSpec, mt, rt);
  }
}
