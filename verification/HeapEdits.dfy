/** In-place edits of a heap tree: what one map assignment or deletion deep inside an owned tree
    does to the whole, and that everything it does not own is left alone. */
module HeapEdits {
  import opened Json
  import opened Edits
  import opened Heap

  /** The subtree at a path. */
  function TreeAt(t: Tree, p: Path): Option<Tree>
    decreases |p|
  {
    if p == [] then Some(t)
    else
      var c := TreeChild(t, p[0]);
      if c.None? then None else TreeAt(c.value, p[1..])
  }

  function WithTree(t: Tree, s: Step, c: Tree): Tree
    requires TreeChild(t, s).Some?
  {
    match s
    case Key(k) => TMap(t.node, t.members[k := c])
    case Index(i) => TList(t.kids[i := c])
  }

  function PutTree(t: Tree, p: Path, c: Tree): Tree
    requires TreeAt(t, p).Some?
    decreases |p|
  {
    if p == [] then c
    else WithTree(t, p[0], PutTree(TreeChild(t, p[0]).value, p[1..], c))
  }

  // ---- Erasure

  lemma EraseChild(t: Tree, s: Step)
    ensures Child(Erase(t), s) == (if TreeChild(t, s).Some? then Some(Erase(TreeChild(t, s).value)) else None)
  {
  }

  lemma {:induction false} EraseAt(t: Tree, p: Path)
    ensures Get(Erase(t), p) == if TreeAt(t, p).Some? then Some(Erase(TreeAt(t, p).value)) else None
    decreases |p|
  {
    if p != [] {
      EraseChild(t, p[0]);
      if TreeChild(t, p[0]).Some? {
        EraseAt(TreeChild(t, p[0]).value, p[1..]);
      }
    }
  }

  lemma EraseWith(t: Tree, s: Step, c: Tree)
    requires TreeChild(t, s).Some?
    ensures Child(Erase(t), s).Some? && Erase(WithTree(t, s, c)) == WithChild(Erase(t), s, Erase(c))
  {
  }

  lemma {:induction false} ErasePut(t: Tree, p: Path, c: Tree)
    requires TreeAt(t, p).Some?
    ensures Get(Erase(t), p).Some? && Erase(PutTree(t, p, c)) == Put(Erase(t), p, Erase(c))
    decreases |p|
  {
    EraseAt(t, p);
    if p != [] {
      var kid := TreeChild(t, p[0]).value;
      EraseChild(t, p[0]);
      ErasePut(kid, p[1..], c);
      EraseWith(t, p[0], PutTree(kid, p[1..], c));
    }
  }

  // ---- Ownership

  lemma ChildNodes(t: Tree, s: Step)
    requires TreeChild(t, s).Some?
    ensures Nodes(TreeChild(t, s).value) <= Nodes(t)
  {
  }

  lemma {:induction false} SubtreeNodes(t: Tree, p: Path)
    requires TreeAt(t, p).Some?
    ensures Nodes(TreeAt(t, p).value) <= Nodes(t)
    decreases |p|
  {
    if p != [] {
      ChildNodes(t, p[0]);
      SubtreeNodes(TreeChild(t, p[0]).value, p[1..]);
    }
  }

  /** c can stand in for the subtree at p: it brings no node the rest of the tree already owns. */
  ghost predicate Fits(t: Tree, p: Path, c: Tree)
    requires TreeAt(t, p).Some?
  {
    Separate(c) && forall n | n in Nodes(c) && n in Nodes(t) :: n in Nodes(TreeAt(t, p).value)
  }

  lemma WithNodes(t: Tree, s: Step, c: Tree)
    requires TreeChild(t, s).Some?
    ensures Nodes(WithTree(t, s, c)) <= Nodes(t) + Nodes(c)
  {
  }

  lemma SeparateChild(t: Tree, s: Step)
    requires Separate(t) && TreeChild(t, s).Some?
    ensures Separate(TreeChild(t, s).value)
    ensures t.TMap? ==> t.node !in Nodes(TreeChild(t, s).value)
    ensures forall r | r != s && TreeChild(t, r).Some? :: Nodes(TreeChild(t, r).value) !! Nodes(TreeChild(t, s).value)
  {
  }

  lemma SeparateWith(t: Tree, s: Step, c: Tree)
    requires Separate(t) && TreeChild(t, s).Some? && Separate(c)
    requires forall n | n in Nodes(c) && n in Nodes(t) :: n in Nodes(TreeChild(t, s).value)
    ensures Separate(WithTree(t, s, c))
  {
    var kid := TreeChild(t, s).value;
    match s
    case Key(k) =>
      var ms := t.members[k := c];
      forall l | l in ms && l != k ensures Nodes(ms[l]) !! Nodes(c) {
        assert Nodes(t.members[l]) !! Nodes(kid);
        ChildNodes(t, Key(l));
      }
      assert t.node !in Nodes(c);
    case Index(i) =>
      forall j | 0 <= j < |t.kids| && j != i ensures Nodes(t.kids[j]) !! Nodes(c) {
        assert Nodes(t.kids[j]) !! Nodes(kid);
        ChildNodes(t, Index(j));
      }
  }

  lemma {:induction false} SeparatePut(t: Tree, p: Path, c: Tree)
    requires Separate(t) && TreeAt(t, p).Some? && Fits(t, p, c)
    ensures Separate(PutTree(t, p, c)) && Nodes(PutTree(t, p, c)) <= Nodes(t) + Nodes(c)
    decreases |p|
  {
    if p != [] {
      var kid := TreeChild(t, p[0]).value;
      ChildNodes(t, p[0]);
      SeparateChild(t, p[0]);
      SubtreeNodes(kid, p[1..]);
      SeparatePut(kid, p[1..], c);
      SeparateWith(t, p[0], PutTree(kid, p[1..], c));
      WithNodes(t, p[0], PutTree(kid, p[1..], c));
    }
  }

  // ---- The heap

  /** v is the tree t in the current heap, leaving out what is below the object at p. */
  ghost predicate Around(v: Value, t: Tree, p: Path)
    requires Separate(t) && TreeAt(t, p).Some? && TreeAt(t, p).value.TMap?
    reads Nodes(t) - Nodes(TreeAt(t, p).value)
    decreases |p|
  {
    if p == [] then v == VMap(t.node)
    else
      var kid := TreeChild(t, p[0]).value;
      ChildNodes(t, p[0]);
      SeparateChild(t, p[0]);
      SubtreeNodes(kid, p[1..]);
      && HoldsBeside(v, t, p[0])
      && Around(Inside(v, t, p[0]), kid, p[1..])
  }

  /** The node of t, and all children but the one at s. */
  ghost predicate HoldsBeside(v: Value, t: Tree, s: Step)
    requires Separate(t) && TreeChild(t, s).Some?
    reads Nodes(t) - Nodes(TreeChild(t, s).value)
  {
    SeparateChild(t, s);
    match t
    case TMap(node, members) =>
      && v == VMap(node)
      && node.fields.Keys == members.Keys
      && forall k | k in members && Key(k) != s ::
           (ChildNodes(t, Key(k)); assert TreeChild(t, Key(k)) == Some(members[k]); Holds(node.fields[k], members[k]))
    case TList(kids) =>
      && v.VList? && |v.elems| == |kids|
      && forall i | 0 <= i < |kids| && Index(i) != s ::
           (ChildNodes(t, Index(i)); assert TreeChild(t, Index(i)) == Some(kids[i]); Holds(v.elems[i], kids[i]))
  }

  /** The child value the code reads. */
  ghost function Inside(v: Value, t: Tree, s: Step): Value
    requires Separate(t) && TreeChild(t, s).Some? && HoldsBeside(v, t, s)
    reads Nodes(t) - Nodes(TreeChild(t, s).value)
  {
    SeparateChild(t, s);
    match s
    case Key(k) => v.node.fields[k]
    case Index(i) => v.elems[i]
  }

  /** Take the object at p out of a held tree. */
  lemma {:induction false} Split(v: Value, t: Tree, p: Path)
    requires Separate(t) && Holds(v, t) && TreeAt(t, p).Some? && TreeAt(t, p).value.TMap?
    ensures Around(v, t, p) && Holds(VMap(TreeAt(t, p).value.node), TreeAt(t, p).value)
    decreases |p|
  {
    if p != [] {
      SplitChild(v, t, p[0]);
      SeparateChild(t, p[0]);
      Split(Inside(v, t, p[0]), TreeChild(t, p[0]).value, p[1..]);
    }
  }

  lemma SplitChild(v: Value, t: Tree, s: Step)
    requires Separate(t) && Holds(v, t) && TreeChild(t, s).Some?
    ensures HoldsBeside(v, t, s) && Holds(Inside(v, t, s), TreeChild(t, s).value)
  {
  }

  /** Put an updated version of the object at p back. */
  lemma {:induction false} Join(v: Value, t: Tree, p: Path, c: Tree)
    requires Separate(t) && TreeAt(t, p).Some? && TreeAt(t, p).value.TMap?
    requires Around(v, t, p)
    requires c.TMap? && c.node == TreeAt(t, p).value.node && Holds(VMap(c.node), c)
    ensures Holds(v, PutTree(t, p, c))
    decreases |p|
  {
    if p != [] {
      var kid := TreeChild(t, p[0]).value;
      SeparateChild(t, p[0]);
      Join(Inside(v, t, p[0]), kid, p[1..], c);
      JoinChild(v, t, p[0], PutTree(kid, p[1..], c));
    }
  }

  lemma JoinChild(v: Value, t: Tree, s: Step, c: Tree)
    requires Separate(t) && TreeChild(t, s).Some? && HoldsBeside(v, t, s)
    requires Holds(Inside(v, t, s), c)
    ensures Holds(v, WithTree(t, s, c))
  {
  }

  // ---- The two updates

  lemma {:induction false} SeparateAt(t: Tree, p: Path)
    requires Separate(t) && TreeAt(t, p).Some?
    ensures Separate(TreeAt(t, p).value)
    decreases |p|
  {
    if p != [] {
      SeparateChild(t, p[0]);
      SeparateAt(TreeChild(t, p[0]).value, p[1..]);
    }
  }

  lemma {:induction false} TreeAtPut(t: Tree, p: Path, c: Tree)
    requires TreeAt(t, p).Some?
    ensures TreeAt(PutTree(t, p, c), p) == Some(c)
    decreases |p|
  {
    if p != [] {
      TreeAtPut(TreeChild(t, p[0]).value, p[1..], c);
    }
  }

  function Without(t: Tree, k: string): Tree
    requires t.TMap?
  {
    TMap(t.node, t.members - {k})
  }

  function With(t: Tree, k: string, x: Tree): Tree
    requires t.TMap?
  {
    TMap(t.node, t.members[k := x])
  }

  lemma WithoutOwned(t: Tree, k: string)
    requires t.TMap? && Separate(t)
    ensures Separate(Without(t, k)) && Nodes(Without(t, k)) <= Nodes(t)
    ensures Erase(t).Obj? && Erase(Without(t, k)) == Obj(Erase(t).fields - {k})
  {
  }

  lemma WithOwned(t: Tree, k: string, x: Tree)
    requires t.TMap? && Separate(t) && Separate(x) && Nodes(x) !! Nodes(t)
    ensures Separate(With(t, k, x)) && Nodes(With(t, k, x)) <= Nodes(t) + Nodes(x)
    ensures Erase(t).Obj? && Erase(With(t, k, x)) == Obj(Erase(t).fields[k := Erase(x)])
  {
    forall l | l in t.members ensures Nodes(t.members[l]) <= Nodes(t) {
      ChildNodes(t, Key(l));
    }
  }

  /** What replacing the object at p by c means for the whole tree. */
  lemma PutOwned(t: Tree, p: Path, c: Tree, extra: set<MapNode>)
    requires Separate(t) && TreeAt(t, p).Some? && TreeAt(t, p).value.TMap?
    requires c.TMap? && Separate(c) && Nodes(c) <= Nodes(TreeAt(t, p).value) + extra && extra !! Nodes(t)
    ensures Separate(PutTree(t, p, c)) && Nodes(PutTree(t, p, c)) <= Nodes(t) + extra
    ensures TreeAt(PutTree(t, p, c), p) == Some(c)
    ensures ObjectAt(Erase(t), p) && Get(Erase(t), p).value == Erase(TreeAt(t, p).value)
    ensures Erase(PutTree(t, p, c)) == Put(Erase(t), p, Erase(c))
  {
    SubtreeNodes(t, p);
    SeparatePut(t, p, c);
    TreeAtPut(t, p, c);
    EraseAt(t, p);
    ErasePut(t, p, c);
  }

  /** n is the node of the object at p in the owned tree t rooted at v. */
  ghost predicate Locates(v: Value, t: Tree, p: Path, n: MapNode)
    reads Nodes(t)
  {
    && Holds(v, t) && Separate(t)
    && TreeAt(t, p).Some? && TreeAt(t, p).value.TMap? && TreeAt(t, p).value.node == n
  }

  lemma DeleteOwned(t: Tree, p: Path, k: string)
    requires Separate(t) && TreeAt(t, p).Some? && TreeAt(t, p).value.TMap?
    ensures var c := Without(TreeAt(t, p).value, k);
            var t' := PutTree(t, p, c);
            && Separate(t') && Nodes(t') <= Nodes(t) && TreeAt(t', p) == Some(c)
            && Erase(t') == DeleteAt(Erase(t), p, k)
  {
    SeparateAt(t, p);
    WithoutOwned(TreeAt(t, p).value, k);
    PutOwned(t, p, Without(TreeAt(t, p).value, k), {});
  }

  lemma SetOwned(t: Tree, p: Path, k: string, x: Tree)
    requires Separate(t) && TreeAt(t, p).Some? && TreeAt(t, p).value.TMap?
    requires Separate(x) && Nodes(x) !! Nodes(t)
    ensures var c := With(TreeAt(t, p).value, k, x);
            var t' := PutTree(t, p, c);
            && Separate(t') && Nodes(t') <= Nodes(t) + Nodes(x) && TreeAt(t', p) == Some(c)
            && Erase(t') == SetAt(Erase(t), p, k, Erase(x))
  {
    SubtreeNodes(t, p);
    SeparateAt(t, p);
    WithOwned(TreeAt(t, p).value, k, x);
    PutOwned(t, p, With(TreeAt(t, p).value, k, x), Nodes(x));
  }

  lemma RootInNodes(t: Tree)
    requires t.TMap?
    ensures t.node in Nodes(t)
  {
  }

  /** The object at p is updated in place; the rest of the tree is framed. */
  method UpdateInside(n: MapNode, fields: map<string, Value>, ghost c: Tree, ghost v: Value, ghost t: Tree, ghost p: Path)
    requires Locates(v, t, p, n)
    requires c.TMap? && c.node == n && fields.Keys == c.members.Keys
    requires forall k | k in fields :: Holds(fields[k], c.members[k]) && n !in Nodes(c.members[k])
    modifies n
    ensures Holds(v, PutTree(t, p, c))
    ensures n.fields == fields
  {
    Split(v, t, p);
    RootInNodes(TreeAt(t, p).value);
    n.fields := fields;
    assert Holds(VMap(n), c);
    Join(v, t, p, c);
  }

  /** delete(n, k). */
  method DeleteMember(n: MapNode, k: string, ghost v: Value, ghost t: Tree, ghost p: Path) returns (ghost t': Tree)
    requires Locates(v, t, p, n)
    modifies n
    ensures Locates(v, t', p, n) && Nodes(t') <= Nodes(t)
    ensures Erase(t') == DeleteAt(Erase(t), p, k)
    ensures n.fields == old(n.fields) - {k}
  {
    ghost var c := Without(TreeAt(t, p).value, k);
    Split(v, t, p);
    SeparateAt(t, p);
    UpdateInside(n, n.fields - {k}, c, v, t, p);
    t' := PutTree(t, p, c);
    DeleteOwned(t, p, k);
  }

  /** n[k] = x, where x is a value that n's tree does not own yet. */
  method SetMember(n: MapNode, k: string, x: Value, ghost xt: Tree, ghost v: Value, ghost t: Tree, ghost p: Path)
    returns (ghost t': Tree)
    requires Locates(v, t, p, n)
    requires Holds(x, xt) && Separate(xt) && Nodes(xt) !! Nodes(t)
    modifies n
    ensures Locates(v, t', p, n) && Nodes(t') <= Nodes(t) + Nodes(xt)
    ensures Erase(t') == SetAt(Erase(t), p, k, Erase(xt))
    ensures n.fields == old(n.fields)[k := x]
  {
    ghost var c := With(TreeAt(t, p).value, k, xt);
    Split(v, t, p);
    SubtreeNodes(t, p);
    RootInNodes(TreeAt(t, p).value);
    SeparateAt(t, p);
    UpdateInside(n, n.fields[k := x], c, v, t, p);
    t' := PutTree(t, p, c);
    SetOwned(t, p, k, xt);
  }

  /** n[k] = x on the root object of a tree. */
  method InsertMember(n: MapNode, k: string, x: Value, ghost xt: Tree, ghost t: Tree)
    requires t.TMap? && t.node == n && Holds(VMap(n), t) && Separate(t)
    requires Holds(x, xt) && Separate(xt) && Nodes(xt) !! Nodes(t)
    modifies n
    ensures Holds(VMap(n), With(t, k, xt)) && Separate(With(t, k, xt))
    ensures Nodes(With(t, k, xt)) <= Nodes(t) + Nodes(xt)
    ensures n.fields == old(n.fields)[k := x]
  {
    WithOwned(t, k, xt);
    RootInNodes(t);
    n.fields := n.fields[k := x];
  }

  /** delete(n, k) on the root object of a tree. */
  method RemoveMember(n: MapNode, k: string, ghost t: Tree)
    requires t.TMap? && t.node == n && Holds(VMap(n), t) && Separate(t)
    modifies n
    ensures Holds(VMap(n), Without(t, k)) && Separate(Without(t, k)) && Nodes(Without(t, k)) <= Nodes(t)
    ensures n.fields == old(n.fields) - {k}
  {
    WithoutOwned(t, k);
    n.fields := n.fields - {k};
  }

  lemma EmptyOwned(n: MapNode)
    ensures Nodes(TMap(n, map[])) == {n} && Separate(TMap(n, map[])) && Erase(TMap(n, map[])) == Obj(map[])
  {
  }

  /** The nodes of a tree exist in the heap the tree is in. */
  lemma {:induction false} NodesAllocated(t: Tree)
    ensures forall n | n in Nodes(t) :: allocated(n)
    decreases t
  {
    match t
    case TLeaf(_) =>
    case TList(kids) =>
      forall i | 0 <= i < |kids| ensures forall n | n in Nodes(kids[i]) :: allocated(n) {
        NodesAllocated(kids[i]);
      }
    case TMap(node, members) =>
      forall k | k in members ensures forall n | n in Nodes(members[k]) :: allocated(n) {
        NodesAllocated(members[k]);
      }
  }
}
