/** readForWrite and the curated edits of the update builders on the heap.  The object read from
    the server is cloned first; everything after that changes only nodes of the clone. */
module BuilderHeap {
  import opened Json
  import opened Edits
  import opened Heap
  import opened HeapEdits
  import opened MergeSpec
  import opened Merge
  import opened GroupEdits
  import opened GroupHeap
  import opened WriteSpec

  // ---- Members that are objects

  /** A member edited in place is put back under its owner. */
  lemma Rejoin(n: MapNode, k: string, t: Tree, kid: Tree)
    requires t.TMap? && t.node == n && Separate(t) && k in t.members
    requires HoldsBeside(VMap(n), t, Key(k)) && Holds(Inside(VMap(n), t, Key(k)), kid)
    requires Separate(kid) && forall m | m in Nodes(kid) && m in Nodes(t) :: m in Nodes(t.members[k])
    ensures Owned(n, WithTree(t, Key(k), kid))
    ensures Nodes(WithTree(t, Key(k), kid)) <= Nodes(t) + Nodes(kid)
    ensures Erase(t).Obj? && Erase(WithTree(t, Key(k), kid)) == WithMember(Erase(t), k, Erase(kid))
  {
    assert TreeChild(t, Key(k)) == Some(t.members[k]);
    JoinChild(VMap(n), t, Key(k), kid);
    SeparateWith(t, Key(k), kid);
    WithNodes(t, Key(k), kid);
    EraseWith(t, Key(k), kid);
  }

  /** What is known of a member before it is edited. */
  lemma Detach(n: MapNode, k: string, t: Tree)
    requires Owned(n, t) && k in n.fields && n.fields[k].VMap?
    ensures k in t.members && Owned(n.fields[k].node, t.members[k])
    ensures TreeChild(t, Key(k)) == Some(t.members[k]) && Nodes(t.members[k]) <= Nodes(t)
    ensures HoldsBeside(VMap(n), t, Key(k)) && Inside(VMap(n), t, Key(k)) == n.fields[k]
    ensures n !in Nodes(t.members[k])
    ensures forall m | m in Nodes(t) :: allocated(m)
  {
    NodesAllocated(t);
    SplitChild(VMap(n), t, Key(k));
    SeparateChild(t, Key(k));
    ChildNodes(t, Key(k));
  }

  /** n[k] = a scalar. */
  method SetScalar(n: MapNode, k: string, s: Scalar, ghost t: Tree) returns (ghost t': Tree)
    requires Owned(n, t)
    modifies n
    ensures Owned(n, t') && Nodes(t') <= Nodes(t)
    ensures Erase(t).Obj? && Erase(t') == WithMember(Erase(t), k, Leaf(s))
  {
    InsertMember(n, k, VLeaf(s), TLeaf(s), t);
    WithOwned(t, k, TLeaf(s));
    t' := With(t, k, TLeaf(s));
  }

  /** The object member k, created empty where it is missing or not an object. */
  method ObjectMemberOf(n: MapNode, k: string, ghost t: Tree) returns (m: MapNode, ghost t': Tree)
    requires Owned(n, t)
    modifies n
    ensures Owned(n, t') && forall x | x in Nodes(t') :: x in Nodes(t) || fresh(x)
    ensures k in n.fields && n.fields[k] == VMap(m)
    ensures Erase(t).Obj? && Erase(t') == WithMember(Erase(t), k, ObjectMember(Erase(t), k))
  {
    EraseChild(t, Key(k));
    if k in n.fields {
      assert Holds(n.fields[k], t.members[k]);
    }
    if k in n.fields && n.fields[k].VMap? {
      m := n.fields[k].node;
      t' := t;
    } else {
      NodesAllocated(t);
      m := new MapNode();
      EmptyOwned(m);
      ghost var mt := TMap(m, map[]);
      InsertMember(n, k, VMap(m), mt, t);
      WithOwned(t, k, mt);
      t' := With(t, k, mt);
    }
  }

  // ---- readForWrite

  /** Drops the server-written metadata and pins the identity. */
  method CleanMetaOf(meta: MapNode, namespace: string, name: string, ghost t: Tree) returns (ghost t': Tree)
    requires Owned(meta, t)
    modifies meta
    ensures Owned(meta, t') && Nodes(t') <= Nodes(t)
    ensures Erase(t).Obj? && Erase(t') == CleanMeta(Erase(t), namespace, name)
  {
    t' := DropServerFields(meta, t);
    t' := SetScalar(meta, "name", Str(name), t');
    t' := SetScalar(meta, "namespace", Str(namespace), t');
  }

  method DropServerFields(meta: MapNode, ghost t: Tree) returns (ghost t': Tree)
    requires Owned(meta, t)
    modifies meta
    ensures Owned(meta, t') && Nodes(t') <= Nodes(t)
    ensures Erase(t).Obj? && Erase(t') == Obj(Erase(t).fields - SERVER_FIELDS)
  {
    t' := t;
    var names := ["managedFields", "resourceVersion", "uid", "creationTimestamp", "generation", "selfLink"];
    for i := 0 to |names|
      invariant Owned(meta, t') && Nodes(t') <= Nodes(t)
      invariant Erase(t).Obj? && Erase(t') == Obj(Erase(t).fields - Elements(names[..i]))
    {
      t' := DropField(meta, names[i], t');
      ElementsNext(names, i, Erase(t).fields);
    }
    assert names[..|names|] == names;
    AllServerFields(names);
  }

  ghost function Elements(names: seq<string>): set<string> {
    set j | 0 <= j < |names| :: names[j]
  }

  lemma ElementsNext(names: seq<string>, i: nat, fields: map<string, Json>)
    requires i < |names|
    ensures fields - Elements(names[..i]) - {names[i]} == fields - Elements(names[..i + 1])
  {
    assert names[..i + 1] == names[..i] + [names[i]];
    assert Elements(names[..i + 1]) == Elements(names[..i]) + {names[i]} by {
      forall y | y in Elements(names[..i]) + {names[i]} ensures y in Elements(names[..i + 1]) {
        if y in Elements(names[..i]) {
          var j :| 0 <= j < i && names[..i][j] == y;
          assert names[..i + 1][j] == y;
        } else {
          assert names[..i + 1][i] == y;
        }
      }
    }
  }

  /** delete(n, k) on the root object. */
  method DropField(n: MapNode, k: string, ghost t: Tree) returns (ghost t': Tree)
    requires Owned(n, t)
    modifies n
    ensures Owned(n, t') && Nodes(t') <= Nodes(t)
    ensures Erase(t).Obj? && Erase(t') == Obj(Erase(t).fields - {k})
  {
    RemoveMember(n, k, t);
    WithoutOwned(t, k);
    t' := Without(t, k);
  }

  lemma AllServerFields(names: seq<string>)
    requires names == ["managedFields", "resourceVersion", "uid", "creationTimestamp", "generation", "selfLink"]
    ensures Elements(names) == SERVER_FIELDS
  {
    assert SERVER_FIELDS == {names[0], names[1], names[2], names[3], names[4], names[5]};
  }

  /** readForWrite, for both services: the clone of the live object without server noise, and its
      spec node for in-place edits. */
  method ReadForWriteOf(raw: MapNode?, kind: string, namespace: string, name: string, strip: bool, ghost rt: Tree)
    returns (obj: MapNode, spec: MapNode, ghost t: Tree)
    requires HoldsMap(raw, rt)
    ensures Owned(obj, t) && forall n | n in Nodes(t) :: fresh(n)
    ensures "spec" in obj.fields && obj.fields["spec"] == VMap(spec)
    ensures MapJson(raw, rt).Obj? && Erase(t) == ReadForWrite(MapJson(raw, rt), kind, namespace, name, strip)
  {
    obj, t := CloneMap(raw, rt);
    ghost var cloned := t;
    t := CleanTop(obj, kind, t);
    t := CleanMetadata(obj, namespace, name, t);
    spec, t := SpecForWrite(obj, strip, t);
    CleanedIsRead(Erase(cloned), kind, namespace, name, strip);
  }

  /** Status dropped, apiVersion and kind set. */
  ghost function CleanedTop(raw: Json, kind: string): (r: Json)
    requires raw.Obj?
    ensures r.Obj?
  {
    Obj((raw.fields - {"status"})["apiVersion" := Leaf(Str(API_VERSION))]["kind" := Leaf(Str(kind))])
  }

  ghost function WithCleanMeta(j: Json, namespace: string, name: string): (r: Json)
    requires j.Obj?
    ensures r.Obj?
  {
    WithMember(j, "metadata", CleanMeta(ObjectMember(j, "metadata"), namespace, name))
  }

  ghost function WithSpec(j: Json, strip: bool): Json
    requires j.Obj?
  {
    var s := ObjectMember(j, "spec");
    WithMember(j, "spec", if strip then EditGroups(Stripping, s) else s)
  }

  lemma CleanedIsRead(raw: Json, kind: string, namespace: string, name: string, strip: bool)
    requires raw.Obj?
    ensures WithSpec(WithCleanMeta(CleanedTop(raw, kind), namespace, name), strip)
         == ReadForWrite(raw, kind, namespace, name, strip)
  {
  }

  method CleanTop(obj: MapNode, kind: string, ghost t: Tree) returns (ghost t': Tree)
    requires Owned(obj, t)
    modifies obj
    ensures Owned(obj, t') && Nodes(t') <= Nodes(t)
    ensures Erase(t).Obj? && Erase(t') == CleanedTop(Erase(t), kind)
  {
    t' := DropField(obj, "status", t);
    t' := SetScalar(obj, "apiVersion", Str(API_VERSION), t');
    t' := SetScalar(obj, "kind", Str(kind), t');
  }

  /** Creating a missing object member first makes no difference to setting it. */
  lemma MemberReset(j: Json, k: string, c: Json)
    requires j.Obj?
    ensures ObjectMember(WithMember(j, k, ObjectMember(j, k)), k) == ObjectMember(j, k)
    ensures WithMember(WithMember(j, k, ObjectMember(j, k)), k, c) == WithMember(j, k, c)
  {
  }

  method CleanMetadata(obj: MapNode, namespace: string, name: string, ghost t: Tree) returns (ghost t': Tree)
    requires Owned(obj, t)
    modifies Nodes(t)
    ensures Owned(obj, t') && forall n | n in Nodes(t') :: n in Nodes(t) || fresh(n)
    ensures Erase(t).Obj? && Erase(t') == WithCleanMeta(Erase(t), namespace, name)
  {
    RootInNodes(t);
    var meta, mt := ObjectMemberOf(obj, "metadata", t);
    t' := CleanMetaMember(obj, namespace, name, mt);
    MemberReset(Erase(t), "metadata", CleanMeta(ObjectMember(Erase(t), "metadata"), namespace, name));
  }

  /** The metadata object of obj, cleaned in place. */
  method CleanMetaMember(obj: MapNode, namespace: string, name: string, ghost t: Tree) returns (ghost t': Tree)
    requires Owned(obj, t) && "metadata" in obj.fields && obj.fields["metadata"].VMap?
    modifies Nodes(t)
    ensures Owned(obj, t') && Nodes(t') <= Nodes(t)
    ensures Erase(t).Obj? && Erase(t') == WithCleanMeta(Erase(t), namespace, name)
  {
    ghost var kid := t.members["metadata"];
    Detach(obj, "metadata", t);
    RootInNodes(kid);
    ghost var kid' := CleanMetaOf(obj.fields["metadata"].node, namespace, name, kid);
    Rejoin(obj, "metadata", t, kid');
    t' := WithTree(t, Key("metadata"), kid');
    MemberErased(t, "metadata");
  }

  lemma MemberErased(t: Tree, k: string)
    requires t.TMap? && k in t.members && t.members[k].TMap?
    ensures Erase(t.members[k]).Obj? && ObjectMember(Erase(t), k) == Erase(t.members[k])
  {
  }

  method SpecForWrite(obj: MapNode, strip: bool, ghost t: Tree) returns (spec: MapNode, ghost t': Tree)
    requires Owned(obj, t)
    modifies Nodes(t)
    ensures Owned(obj, t') && forall n | n in Nodes(t') :: n in Nodes(t) || fresh(n)
    ensures "spec" in obj.fields && obj.fields["spec"] == VMap(spec)
    ensures Erase(t).Obj? && Erase(t') == WithSpec(Erase(t), strip)
  {
    RootInNodes(t);
    spec, t' := ObjectMemberOf(obj, "spec", t);
    if strip {
      t' := StripSpecMember(obj, t');
      MemberReset(Erase(t), "spec", EditGroups(Stripping, ObjectMember(Erase(t), "spec")));
    }
  }

  /** stripWorkersToDelete on the spec object of obj. */
  method StripSpecMember(obj: MapNode, ghost t: Tree) returns (ghost t': Tree)
    requires Owned(obj, t) && "spec" in obj.fields && obj.fields["spec"].VMap?
    modifies Nodes(t)
    ensures Owned(obj, t') && Nodes(t') <= Nodes(t)
    ensures obj.fields == old(obj.fields)
    ensures Erase(t).Obj? && Erase(t') == WithMember(Erase(t), "spec", EditGroups(Stripping, ObjectMember(Erase(t), "spec")))
  {
    ghost var kid := t.members["spec"];
    Detach(obj, "spec", t);
    ghost var kid' := EditGroupsOf(Stripping, obj.fields["spec"].node, kid);
    Rejoin(obj, "spec", t, kid');
    t' := WithTree(t, Key("spec"), kid');
    MemberErased(t, "spec");
  }

  // ---- The curated deltas

  /** The image, version and autoscaling deltas, on the config object itself. */
  method ConfigDeltasOf(config: MapNode, d: Deltas, ghost t: Tree) returns (ghost t': Tree)
    requires Owned(config, t)
    modifies Nodes(t)
    ensures Owned(config, t') && Nodes(t') <= Nodes(t)
    ensures Erase(t') == ConfigDeltas(Erase(t), d)
  {
    RootInNodes(t);
    t' := t;
    if d.rayVersion != "" {
      t' := SetScalar(config, "rayVersion", Str(d.rayVersion), t');
      RootEdits(Erase(t), "rayVersion", Leaf(Str(d.rayVersion)));
    }
    if d.image != "" {
      t' := SetClusterImageOf(config, d.image, t');
    }
    if d.autoscaling.Some? {
      RootEdits(Erase(t'), "enableInTreeAutoscaling", Leaf(Bool(d.autoscaling.value)));
      t' := SetScalar(config, "enableInTreeAutoscaling", Bool(d.autoscaling.value), t');
    }
  }

  /** The deltas on an object member of an object: rayClusterConfig of a service spec, spec of a
      cluster. */
  method ConfigDeltasIn(obj: MapNode, k: string, d: Deltas, ghost t: Tree) returns (ghost t': Tree)
    requires Owned(obj, t) && k in obj.fields && obj.fields[k].VMap?
    modifies Nodes(t)
    ensures Owned(obj, t') && Nodes(t') <= Nodes(t)
    ensures Erase(t).Obj? && Erase(t') == WithMember(Erase(t), k, ConfigDeltas(ObjectMember(Erase(t), k), d))
  {
    ghost var kid := t.members[k];
    Detach(obj, k, t);
    ghost var kid' := ConfigDeltasOf(obj.fields[k].node, d, kid);
    Rejoin(obj, k, t, kid');
    t' := WithTree(t, Key(k), kid');
    MemberErased(t, k);
  }

  // ---- Labels and annotations

  /** dst[k] = v for every pair, in any order. */
  method SetStrings(dst: MapNode, kv: map<string, string>, ghost t: Tree) returns (ghost t': Tree)
    requires Owned(dst, t)
    modifies dst
    ensures Owned(dst, t') && Nodes(t') <= Nodes(t)
    ensures Erase(t).Obj? && Erase(t') == Obj(Erase(t).fields + StringValues(kv))
  {
    t' := t;
    var todo := kv.Keys;
    ghost var done: set<string> := {};
    NoStrings(Erase(t), kv);
    while todo != {}
      invariant Owned(dst, t') && Nodes(t') <= Nodes(t)
      invariant done !! todo && done + todo == kv.Keys
      invariant Erase(t).Obj? && Erase(t') == Obj(WithStrings(Erase(t).fields, kv, done))
    {
      var k :| k in todo;
      t' := SetScalar(dst, k, Str(kv[k]), t');
      NextString(Erase(t).fields, kv, done, k);
      MoveKey(kv.Keys, done, todo, k);
      todo, done := todo - {k}, done + {k};
    }
    AllStrings(Erase(t).fields, kv, done);
  }

  /** The members once the pairs with keys in `done` have been set. */
  ghost function WithStrings(fields: map<string, Json>, kv: map<string, string>, done: set<string>): map<string, Json>
    requires done <= kv.Keys
  {
    fields + map k | k in done :: Leaf(Str(kv[k]))
  }

  lemma NoStrings(j: Json, kv: map<string, string>)
    requires j.Obj?
    ensures j == Obj(WithStrings(j.fields, kv, {}))
  {
  }

  lemma NextString(fields: map<string, Json>, kv: map<string, string>, done: set<string>, k: string)
    requires done <= kv.Keys && k in kv
    ensures WithStrings(fields, kv, done)[k := Leaf(Str(kv[k]))] == WithStrings(fields, kv, done + {k})
  {
  }

  lemma AllStrings(fields: map<string, Json>, kv: map<string, string>, done: set<string>)
    requires done == kv.Keys
    ensures WithStrings(fields, kv, done) == fields + StringValues(kv)
  {
  }

  /** The strings merged into the object member key of the metadata. */
  method LabelMeta(meta: MapNode, key: string, kv: map<string, string>, ghost t: Tree) returns (ghost t': Tree)
    requires Owned(meta, t)
    modifies Nodes(t)
    ensures Owned(meta, t') && forall n | n in Nodes(t') :: n in Nodes(t) || fresh(n)
    ensures Erase(t).Obj?
         && Erase(t') == WithMember(Erase(t), key, Obj(ObjectMember(Erase(t), key).fields + StringValues(kv)))
  {
    RootInNodes(t);
    var dst, mt := ObjectMemberOf(meta, key, t);
    t' := SetStringsIn(meta, key, kv, mt);
    MemberReset(Erase(t), key, Obj(ObjectMember(Erase(t), key).fields + StringValues(kv)));
  }

  method SetStringsIn(meta: MapNode, key: string, kv: map<string, string>, ghost t: Tree) returns (ghost t': Tree)
    requires Owned(meta, t) && key in meta.fields && meta.fields[key].VMap?
    modifies Nodes(t)
    ensures Owned(meta, t') && Nodes(t') <= Nodes(t)
    ensures Erase(t).Obj?
         && Erase(t') == WithMember(Erase(t), key, Obj(ObjectMember(Erase(t), key).fields + StringValues(kv)))
  {
    ghost var kid := t.members[key];
    Detach(meta, key, t);
    RootInNodes(kid);
    ghost var kid' := SetStrings(meta.fields[key].node, kv, kid);
    Rejoin(meta, key, t, kid');
    t' := WithTree(t, Key(key), kid');
    MemberErased(t, key);
  }

  /** applyMetaStringMap. */
  method ApplyMetaOf(obj: MapNode, key: string, kv: map<string, string>, ghost t: Tree) returns (ghost t': Tree)
    requires Owned(obj, t)
    modifies Nodes(t)
    ensures Owned(obj, t') && forall n | n in Nodes(t') :: n in Nodes(t) || fresh(n)
    ensures Erase(t).Obj? && Erase(t') == ApplyMeta(Erase(t), key, kv)
  {
    if |kv| == 0 {
      return t;
    }
    RootInNodes(t);
    var meta, mt := ObjectMemberOf(obj, "metadata", t);
    t' := LabelMetaIn(obj, key, kv, mt);
    LabelReset(Erase(t), key, kv);
  }

  lemma LabelReset(j: Json, key: string, kv: map<string, string>)
    requires j.Obj? && kv != map[]
    ensures Labeled(WithMember(j, "metadata", ObjectMember(j, "metadata")), key, kv) == ApplyMeta(j, key, kv)
  {
    var meta := ObjectMember(j, "metadata");
    MemberReset(j, "metadata", WithMember(meta, key, Obj(ObjectMember(meta, key).fields + StringValues(kv))));
  }

  ghost function Labeled(j: Json, key: string, kv: map<string, string>): Json
    requires j.Obj?
  {
    var meta := ObjectMember(j, "metadata");
    WithMember(j, "metadata", WithMember(meta, key, Obj(ObjectMember(meta, key).fields + StringValues(kv))))
  }

  method LabelMetaIn(obj: MapNode, key: string, kv: map<string, string>, ghost t: Tree) returns (ghost t': Tree)
    requires Owned(obj, t) && "metadata" in obj.fields && obj.fields["metadata"].VMap?
    modifies Nodes(t)
    ensures Owned(obj, t') && forall n | n in Nodes(t') :: n in Nodes(t) || fresh(n)
    ensures Erase(t).Obj? && Erase(t') == Labeled(Erase(t), key, kv)
  {
    ghost var kid := t.members["metadata"];
    Detach(obj, "metadata", t);
    ghost var kid' := LabelMeta(obj.fields["metadata"].node, key, kv, kid);
    Rejoin(obj, "metadata", t, kid');
    t' := WithTree(t, Key("metadata"), kid');
    MemberErased(t, "metadata");
  }

  method MetaDeltasOf(obj: MapNode, d: Deltas, ghost t: Tree) returns (ghost t': Tree)
    requires Owned(obj, t)
    modifies Nodes(t)
    ensures Owned(obj, t') && forall n | n in Nodes(t') :: n in Nodes(t) || fresh(n)
    ensures Erase(t).Obj? && Erase(t') == MetaDeltas(Erase(t), d)
  {
    t' := ApplyMetaOf(obj, "labels", d.labels, t);
    t' := ApplyMetaOf(obj, "annotations", d.annotations, t');
  }
}
