/** Crossing the boundary to the server: an object arrives as a fresh tree of its own and leaves as
    plain JSON. */
module Wire {
  import opened Json
  import opened Edits
  import opened Heap
  import opened HeapEdits
  import opened Merge
  import opened WriteSpec
  import opened BuilderHeap

  /** The object as a tree nobody else holds. */
  method Decode(j: Json) returns (n: MapNode, ghost t: Tree)
    requires j.Obj?
    ensures Owned(n, t) && (forall m | m in Nodes(t) :: fresh(m)) && Erase(t) == j
    decreases j, 2
  {
    n := new MapNode();
    t := TMap(n, map[]);
    EmptyOwned(n);
    var todo := j.fields.Keys;
    ghost var done: set<string> := {};
    assert map[] == Part(j.fields, done);
    while todo != {}
      invariant Owned(n, t) && forall m | m in Nodes(t) :: fresh(m)
      invariant done !! todo && done + todo == j.fields.Keys
      invariant Erase(t) == Obj(Part(j.fields, done))
      decreases |todo|
    {
      var k :| k in todo;
      t := DecodeMember(n, k, j.fields[k], t, j);
      PartNext(j.fields, done, k);
      MoveKey(j.fields.Keys, done, todo, k);
      todo, done := todo - {k}, done + {k};
    }
    assert Part(j.fields, done) == j.fields;
  }

  ghost function Part(fields: map<string, Json>, done: set<string>): map<string, Json>
    requires done <= fields.Keys
  {
    map k | k in done :: fields[k]
  }

  lemma PartNext(fields: map<string, Json>, done: set<string>, k: string)
    requires done <= fields.Keys && k in fields
    ensures Part(fields, done)[k := fields[k]] == Part(fields, done + {k})
  {
  }

  method DecodeMember(n: MapNode, k: string, c: Json, ghost t: Tree, ghost j: Json) returns (ghost t': Tree)
    requires Owned(n, t) && j.Obj? && k in j.fields && j.fields[k] == c
    modifies n
    ensures Owned(n, t') && forall m | m in Nodes(t') :: m in Nodes(t) || fresh(m)
    ensures Erase(t).Obj? && Erase(t') == Obj(Erase(t).fields[k := c])
    decreases j, 1
  {
    NodesAllocated(t);
    var x, xt := DecodeValue(c);
    InsertMember(n, k, x, xt, t);
    WithOwned(t, k, xt);
    t' := With(t, k, xt);
  }

  method DecodeValue(j: Json) returns (v: Value, ghost t: Tree)
    ensures Holds(v, t) && Separate(t) && fresh(Nodes(t)) && Erase(t) == j
    decreases j, 3
  {
    match j
    case Leaf(s) =>
      v, t := VLeaf(s), TLeaf(s);
    case Obj(_) =>
      var n;
      n, t := Decode(j);
      v := VMap(n);
    case Arr(elems) =>
      var out: seq<Value> := [];
      ghost var kids: seq<Tree> := [];
      for i := 0 to |elems|
        invariant |out| == |kids| == i
        invariant Holds(VList(out), TList(kids)) && Separate(TList(kids)) && fresh(Nodes(TList(kids)))
        invariant forall l | 0 <= l < i :: Erase(kids[l]) == elems[l]
      {
        NodesAllocated(TList(kids));
        ghost var owned := Nodes(TList(kids));
        var e, et := DecodeValue(elems[i]);
        assert Nodes(et) !! owned;
        AppendNodes(kids, et);
        AppendOwned(out, kids, e, et);
        out, kids := out + [e], kids + [et];
      }
      v, t := VList(out), TList(kids);
      assert Erase(t).elems == elems;
  }

  /** The JSON of a tree, which is only read. */
  method Encode(v: Value, ghost t: Tree) returns (j: Json)
    requires Holds(v, t)
    ensures j == Erase(t)
    decreases t
  {
    NodesAllocated(t);
    match v
    case VLeaf(s) =>
      j := Leaf(s);
    case VList(elems) =>
      j := EncodeList(elems, t);
    case VMap(n) =>
      var fields: map<string, Json> := map[];
      var todo := n.fields.Keys;
      while todo != {}
        invariant Holds(v, t) && todo <= t.members.Keys && fields.Keys == t.members.Keys - todo
        invariant forall k | k in fields :: fields[k] == Erase(t.members[k])
      {
        var k :| k in todo;
        assert Holds(n.fields[k], t.members[k]);
        var c := Encode(n.fields[k], t.members[k]);
        fields := fields[k := c];
        todo := todo - {k};
      }
      j := Obj(fields);
      assert fields == Erase(t).fields;
  }

  method EncodeList(elems: seq<Value>, ghost t: Tree) returns (j: Json)
    requires Holds(VList(elems), t)
    ensures j == Erase(t)
    decreases t, 0
  {
    NodesAllocated(t);
    var out: seq<Json> := [];
    for i := 0 to |elems|
      invariant Holds(VList(elems), t) && |out| == i
      invariant forall l | 0 <= l < i :: out[l] == Erase(t.kids[l])
    {
      assert Holds(elems[i], t.kids[i]);
      var e := Encode(elems[i], t.kids[i]);
      out := out + [e];
    }
    j := Arr(out);
    assert out == Erase(t).elems;
  }
}
