/** The group edits as the Go code makes them: in place, on nodes reached through map lookups,
    proved to be the functions of GroupEdits and to touch only nodes of the edited tree. */
module GroupHeap {
  import opened Json
  import opened Edits
  import opened Heap
  import opened HeapEdits
  import opened Merge
  import opened GroupEdits

  // ---- Following map lookups

  lemma {:induction false} TreeStep(t: Tree, p: Path, s: Step)
    ensures TreeAt(t, p + [s]) == if TreeAt(t, p).None? then None else TreeChild(TreeAt(t, p).value, s)
    decreases |p|
  {
    if p == [] {
      assert p + [s] == [s] && [s][1..] == [];
    } else {
      assert (p + [s])[0] == p[0] && (p + [s])[1..] == p[1..] + [s];
      if TreeChild(t, p[0]).Some? {
        TreeStep(TreeChild(t, p[0]).value, p[1..], s);
      }
    }
  }

  /** n[k] is an object: its node is where the path says. */
  lemma Descend(v: Value, t: Tree, p: Path, n: MapNode, k: string)
    requires Locates(v, t, p, n)
    ensures k in n.fields && n.fields[k].VMap? ==>
              Locates(v, t, p + [Key(k)], n.fields[k].node) && ObjectAt(Erase(t), p + [Key(k)])
    ensures !(k in n.fields && n.fields[k].VMap?) ==> !ObjectAt(Erase(t), p + [Key(k)])
  {
    Split(v, t, p);
    TreeStep(t, p, Key(k));
    EraseAt(t, p + [Key(k)]);
    var sub := TreeAt(t, p).value;
    if k in n.fields {
      assert Holds(n.fields[k], sub.members[k]);
    }
  }

  /** The first element of the list n[k] is an object. */
  lemma DescendFirst(v: Value, t: Tree, p: Path, n: MapNode, k: string)
    requires Locates(v, t, p, n)
    ensures var found := k in n.fields && n.fields[k].VList? && |n.fields[k].elems| > 0 && n.fields[k].elems[0].VMap?;
      && (found ==> Locates(v, t, p + [Key(k)] + [Index(0)], n.fields[k].elems[0].node)
                    && ObjectAt(Erase(t), p + [Key(k)] + [Index(0)]))
      && (!found ==> !ObjectAt(Erase(t), p + [Key(k)] + [Index(0)]))
  {
    Split(v, t, p);
    TreeStep(t, p, Key(k));
    TreeStep(t, p + [Key(k)], Index(0));
    EraseAt(t, p + [Key(k)] + [Index(0)]);
    var sub := TreeAt(t, p).value;
    if k in n.fields {
      assert Holds(n.fields[k], sub.members[k]);
      if n.fields[k].VList? && |n.fields[k].elems| > 0 {
        assert Holds(n.fields[k].elems[0], sub.members[k].kids[0]);
      }
    }
  }

  /** No object at a path: none below it either. */
  lemma NoObjectBelow(j: Json, p: Path, k: string)
    requires !ObjectAt(j, p)
    ensures !ObjectAt(j, p + [Key(k)])
    ensures !ObjectAt(j, p + [Key(k)] + [Index(0)])
  {
    GetStep(j, p, Key(k));
    GetStep(j, p + [Key(k)], Index(0));
  }

  lemma AtRoot(n: MapNode, t: Tree)
    requires Owned(n, t)
    ensures Locates(VMap(n), t, [], n)
  {
  }

  // ---- One group

  /** The lookups group["template"]["spec"]: the pod spec, or nil when either is not an object. */
  method PodSpecOf(group: MapNode, ghost g: Tree) returns (podSpec: MapNode?)
    requires Owned(group, g)
    ensures podSpec != null ==> Locates(VMap(group), g, POD_SPEC, podSpec)
    ensures podSpec == null ==> !ObjectAt(Erase(g), POD_SPEC)
  {
    podSpec := null;
    AtRoot(group, g);
    Descend(VMap(group), g, [], group, "template");
    PodSpecPath();
    if "template" in group.fields && group.fields["template"].VMap? {
      var tmpl := group.fields["template"].node;
      Descend(VMap(group), g, [] + [Key("template")], tmpl, "spec");
      if "spec" in tmpl.fields && tmpl.fields["spec"].VMap? {
        podSpec := tmpl.fields["spec"].node;
      }
    } else {
      NoObjectBelow(Erase(g), [] + [Key("template")], "spec");
    }
  }

  lemma PodSpecPath()
    ensures [] + [Key("template")] + [Key("spec")] == POD_SPEC
    ensures POD_SPEC + [Key("containers")] + [Index(0)] == FIRST_CONTAINER
  {
  }

  /** zeroPodExclusions. */
  method ZeroPod(group: MapNode, ghost g: Tree) returns (ghost g': Tree)
    requires Owned(group, g)
    modifies Nodes(g)
    ensures Owned(group, g') && Nodes(g') <= Nodes(g)
    ensures Erase(g') == ZeroPodExclusions(Erase(g))
  {
    g' := g;
    NodesAllocated(g);
    var podSpec := PodSpecOf(group, g);
    if podSpec == null {
      return;
    }
    InsideNodes(VMap(group), g, POD_SPEC, podSpec);
    g' := DeleteMember(podSpec, "tolerations", VMap(group), g, POD_SPEC);
    g' := DeleteMember(podSpec, "schedulingGates", VMap(group), g', POD_SPEC);
  }

  lemma InsideNodes(v: Value, t: Tree, p: Path, n: MapNode)
    requires Locates(v, t, p, n)
    ensures n in Nodes(t)
  {
    SubtreeNodes(t, p);
  }

  /** The scaleStrategy part of stripWorkersToDelete and normalizeForHash. */
  method DropCommandsOf(wg: MapNode, ghost g: Tree) returns (ghost g': Tree)
    requires Owned(wg, g)
    modifies Nodes(g)
    ensures Owned(wg, g') && Nodes(g') <= Nodes(g)
    ensures Erase(g') == DropCommands(Erase(g))
  {
    g' := g;
    AtRoot(wg, g);
    Descend(VMap(wg), g, [], wg, STRATEGY);
    assert [] + [Key(STRATEGY)] == [Key(STRATEGY)];
    if !(STRATEGY in wg.fields && wg.fields[STRATEGY].VMap?) {
      return;
    }
    var ss := wg.fields[STRATEGY].node;
    InsideNodes(VMap(wg), g, [Key(STRATEGY)], ss);
    g' := DeleteMember(ss, COMMANDS, VMap(wg), g, [Key(STRATEGY)]);
    StillEmpty(ss, VMap(wg), g', [Key(STRATEGY)]);
    if |ss.fields| == 0 {
      g' := DeleteMember(wg, STRATEGY, VMap(wg), g', []);
    }
  }

  lemma StillEmpty(n: MapNode, v: Value, t: Tree, p: Path)
    requires Locates(v, t, p, n)
    ensures |n.fields| == 0 <==> Get(Erase(t), p) == Some(Obj(map[]))
  {
    Split(v, t, p);
    EraseAt(t, p);
    var sub := TreeAt(t, p).value;
    assert n.fields.Keys == sub.members.Keys == Erase(sub).fields.Keys;
    assert |n.fields| == |n.fields.Keys|;
    if |n.fields| == 0 {
      assert Erase(sub).fields == map[];
    }
  }

  /** setFirstContainerImage. */
  method SetFirstImageOf(group: MapNode, image: string, ghost g: Tree) returns (ghost g': Tree)
    requires Owned(group, g)
    modifies Nodes(g)
    ensures Owned(group, g') && Nodes(g') <= Nodes(g)
    ensures Erase(g') == SetFirstImage(Erase(g), image)
  {
    g' := g;
    NodesAllocated(g);
    var c0 := FirstContainer(group, g);
    if c0 != null {
      InsideNodes(VMap(group), g, FIRST_CONTAINER, c0);
      g' := SetMember(c0, "image", VLeaf(Str(image)), TLeaf(Str(image)), VMap(group), g, FIRST_CONTAINER);
    }
  }

  /** The lookups of setFirstContainerImage: template.spec.containers[0], or nil. */
  method FirstContainer(group: MapNode, ghost g: Tree) returns (c0: MapNode?)
    requires Owned(group, g)
    ensures c0 != null ==> Locates(VMap(group), g, FIRST_CONTAINER, c0)
    ensures c0 == null ==> !ObjectAt(Erase(g), FIRST_CONTAINER)
  {
    c0 := null;
    PodSpecPath();
    NodesAllocated(g);
    var podSpec := PodSpecOf(group, g);
    if podSpec == null {
      NoObjectBelow(Erase(g), POD_SPEC, "containers");
      return;
    }
    DescendFirst(VMap(group), g, POD_SPEC, podSpec, "containers");
    if "containers" in podSpec.fields && podSpec.fields["containers"].VList? {
      var containers := podSpec.fields["containers"].elems;
      if |containers| > 0 && containers[0].VMap? {
        c0 := containers[0].node;
      }
    }
  }

  /** The body of normalizeForHash's loop. */
  method NormalizeGroupOf(wg: MapNode, ghost g: Tree) returns (ghost g': Tree)
    requires Owned(wg, g)
    modifies Nodes(g)
    ensures Owned(wg, g') && Nodes(g') <= Nodes(g)
    ensures Erase(g') == NormalizeGroup(Erase(g))
  {
    RootInNodes(g);
    AtRoot(wg, g);
    g' := DeleteMember(wg, "replicas", VMap(wg), g, []);
    g' := DeleteMember(wg, "minReplicas", VMap(wg), g', []);
    g' := DeleteMember(wg, "maxReplicas", VMap(wg), g', []);
    g' := DropCommandsOf(wg, g');
    g' := ZeroPod(wg, g');
  }

  method EditGroupOf(e: GroupEdit, wg: MapNode, ghost g: Tree) returns (ghost g': Tree)
    requires Owned(wg, g)
    modifies Nodes(g)
    ensures Owned(wg, g') && Nodes(g') <= Nodes(g)
    ensures Erase(g') == EditGroup(e, Erase(g))
  {
    match e
    case Normalizing => g' := NormalizeGroupOf(wg, g);
    case Stripping => g' := DropCommandsOf(wg, g);
    case SettingImage(image) => g' := SetFirstImageOf(wg, image, g);
  }

  // ---- All groups

  lemma EditNonObject(e: GroupEdit, group: Json)
    requires !group.Obj?
    ensures EditGroup(e, group) == group
  {
    GetOne(group, Key(STRATEGY));
    NotObjectBelowRoot(group, POD_SPEC);
    NotObjectBelowRoot(group, FIRST_CONTAINER);
    NotObjectBelowRoot(group, [Key(STRATEGY)]);
  }

  lemma NotObjectBelowRoot(j: Json, p: Path)
    requires !j.Obj? && p != [] && p[0].Key?
    ensures !ObjectAt(j, p)
  {
  }

  /** The groups edited so far: the first i as specified, the others untouched. */
  ghost predicate EditedUpTo(e: GroupEdit, was: seq<Tree>, kids: seq<Tree>, i: nat) {
    && |kids| == |was| && i <= |was|
    && (forall j | 0 <= j < i :: Erase(kids[j]) == EditGroup(e, Erase(was[j])))
    && (forall j | i <= j < |was| :: kids[j] == was[j])
  }

  /** One element of the list is edited in place; the list value is the same slice. */
  method EditElement(e: GroupEdit, elems: seq<Value>, i: nat, ghost lt: Tree) returns (ghost lt': Tree)
    requires Holds(VList(elems), lt) && Separate(lt) && i < |elems| && elems[i].VMap?
    modifies Nodes(lt)
    ensures lt'.TList? && Holds(VList(elems), lt') && Separate(lt') && Nodes(lt') <= Nodes(lt)
    ensures |lt'.kids| == |lt.kids| && Erase(lt'.kids[i]) == EditGroup(e, Erase(lt.kids[i]))
    ensures forall j | 0 <= j < |lt.kids| && j != i :: lt'.kids[j] == lt.kids[j]
  {
    ghost var kid := lt.kids[i];
    assert TreeChild(lt, Index(i)) == Some(kid);
    NodesAllocated(lt);
    SplitChild(VList(elems), lt, Index(i));
    SeparateChild(lt, Index(i));
    ChildNodes(lt, Index(i));
    ghost var kid' := EditGroupOf(e, elems[i].node, kid);
    JoinChild(VList(elems), lt, Index(i), kid');
    SeparateWith(lt, Index(i), kid');
    WithNodes(lt, Index(i), kid');
    lt' := WithTree(lt, Index(i), kid');
  }

  method EditElements(e: GroupEdit, elems: seq<Value>, ghost lt: Tree) returns (ghost lt': Tree)
    requires Holds(VList(elems), lt) && Separate(lt)
    modifies Nodes(lt)
    ensures lt'.TList? && Holds(VList(elems), lt') && Separate(lt') && Nodes(lt') <= Nodes(lt)
    ensures EditedUpTo(e, lt.kids, lt'.kids, |elems|)
  {
    lt' := lt;
    for i := 0 to |elems|
      invariant lt'.TList? && Holds(VList(elems), lt') && Separate(lt') && Nodes(lt') <= Nodes(lt)
      invariant EditedUpTo(e, lt.kids, lt'.kids, i)
    {
      if elems[i].VMap? {
        lt' := EditElement(e, elems, i, lt');
      } else {
        ElementNotObject(elems, lt', i);
        EditNonObject(e, Erase(lt.kids[i]));
      }
    }
  }

  lemma ElementNotObject(elems: seq<Value>, lt: Tree, i: nat)
    requires Holds(VList(elems), lt) && i < |elems| && !elems[i].VMap?
    ensures !Erase(lt.kids[i]).Obj?
  {
    assert Holds(elems[i], lt.kids[i]);
  }

  lemma EditedList(e: GroupEdit, lt: Tree, lt': Tree)
    requires lt.TList? && lt'.TList? && EditedUpTo(e, lt.kids, lt'.kids, |lt.kids|)
    ensures Erase(lt).Arr? && Erase(lt') == Arr(EditList(e, Erase(lt).elems))
  {
  }

  /** The loops over workerGroupSpecs: stripWorkersToDelete, and the group parts of normalizeForHash
      and setClusterImage. */
  method EditGroupsOf(e: GroupEdit, spec: MapNode, ghost t: Tree) returns (ghost t': Tree)
    requires Owned(spec, t)
    modifies Nodes(t)
    ensures Owned(spec, t') && Nodes(t') <= Nodes(t)
    ensures Erase(t') == EditGroups(e, Erase(t))
  {
    t' := t;
    EraseChild(t, Key(WORKERS));
    if WORKERS in spec.fields {
      assert Holds(spec.fields[WORKERS], t.members[WORKERS]);
      if spec.fields[WORKERS].VList? {
        t' := EditListMember(e, spec, t);
      }
    }
  }

  method EditListMember(e: GroupEdit, spec: MapNode, ghost t: Tree) returns (ghost t': Tree)
    requires Owned(spec, t) && WORKERS in spec.fields && spec.fields[WORKERS].VList?
    modifies Nodes(t)
    ensures Owned(spec, t') && Nodes(t') <= Nodes(t)
    ensures Erase(t') == EditGroups(e, Erase(t))
  {
    ghost var lt := t.members[WORKERS];
    assert TreeChild(t, Key(WORKERS)) == Some(lt);
    NodesAllocated(t);
    SplitChild(VMap(spec), t, Key(WORKERS));
    SeparateChild(t, Key(WORKERS));
    ChildNodes(t, Key(WORKERS));
    ghost var lt' := EditElements(e, spec.fields[WORKERS].elems, lt);
    JoinChild(VMap(spec), t, Key(WORKERS), lt');
    SeparateWith(t, Key(WORKERS), lt');
    WithNodes(t, Key(WORKERS), lt');
    EditedList(e, lt, lt');
    EraseChild(t, Key(WORKERS));
    EraseWith(t, Key(WORKERS), lt');
    RootEdits(Erase(t), WORKERS, Erase(lt'));
    t' := WithTree(t, Key(WORKERS), lt');
  }

  /** The head part of normalizeForHash and setClusterImage. */
  method EditHeadOf(e: GroupEdit, spec: MapNode, ghost t: Tree) returns (ghost t': Tree)
    requires Owned(spec, t) && !e.Stripping?
    modifies Nodes(t)
    ensures Owned(spec, t') && Nodes(t') <= Nodes(t)
    ensures Erase(t') == EditHead(e, Erase(t))
  {
    t' := t;
    EraseChild(t, Key(HEAD));
    if HEAD in spec.fields {
      assert Holds(spec.fields[HEAD], t.members[HEAD]);
      if spec.fields[HEAD].VMap? {
        t' := EditHeadMember(e, spec, t);
      } else {
        HeadNotObject(e, Erase(t));
      }
    }
  }

  lemma HeadNotObject(e: GroupEdit, spec: Json)
    requires Child(spec, Key(HEAD)).Some? && !Child(spec, Key(HEAD)).value.Obj?
    ensures EditHead(e, spec) == spec
  {
    var head := Child(spec, Key(HEAD)).value;
    NotObjectBelowRoot(head, POD_SPEC);
    NotObjectBelowRoot(head, FIRST_CONTAINER);
    RootEdits(spec, HEAD, head);
  }

  method EditHeadMember(e: GroupEdit, spec: MapNode, ghost t: Tree) returns (ghost t': Tree)
    requires Owned(spec, t) && HEAD in spec.fields && spec.fields[HEAD].VMap? && !e.Stripping?
    modifies Nodes(t)
    ensures Owned(spec, t') && Nodes(t') <= Nodes(t)
    ensures Erase(t') == EditHead(e, Erase(t))
  {
    ghost var kid := t.members[HEAD];
    assert TreeChild(t, Key(HEAD)) == Some(kid);
    NodesAllocated(t);
    SplitChild(VMap(spec), t, Key(HEAD));
    SeparateChild(t, Key(HEAD));
    ChildNodes(t, Key(HEAD));
    ghost var kid';
    if e.Normalizing? {
      kid' := ZeroPod(spec.fields[HEAD].node, kid);
    } else {
      kid' := SetFirstImageOf(spec.fields[HEAD].node, e.image, kid);
    }
    JoinChild(VMap(spec), t, Key(HEAD), kid');
    SeparateWith(t, Key(HEAD), kid');
    WithNodes(t, Key(HEAD), kid');
    EraseChild(t, Key(HEAD));
    EraseWith(t, Key(HEAD), kid');
    RootEdits(Erase(t), HEAD, Erase(kid'));
    t' := WithTree(t, Key(HEAD), kid');
  }

  /** setClusterImage. */
  method SetClusterImageOf(spec: MapNode, image: string, ghost t: Tree) returns (ghost t': Tree)
    requires Owned(spec, t)
    modifies Nodes(t)
    ensures Owned(spec, t') && Nodes(t') <= Nodes(t)
    ensures Erase(t') == SetClusterImage(Erase(t), image)
  {
    t' := EditHeadOf(SettingImage(image), spec, t);
    t' := EditGroupsOf(SettingImage(image), spec, t');
  }
}
