/** The mutable trees the Go code works on.  A map[string]any is a heap node that is updated
    in place; a []any is a fixed sequence of values, because the code never assigns an element
    of a slice it did not just build.  A ghost Tree records which nodes make up a value, so
    that ownership, sharing and frame conditions can be stated. */
module Heap {
  import opened Json

  datatype Value = VLeaf(v: Scalar) | VList(elems: seq<Value>) | VMap(node: MapNode)

  class MapNode {
    var fields: map<string, Value>

    constructor ()
      ensures fields == map[]
    {
      fields := map[];
    }
  }

  /** A JSON value annotated with the node of every object. */
  datatype Tree = TLeaf(v: Scalar) | TList(kids: seq<Tree>) | TMap(node: MapNode, members: map<string, Tree>)

  ghost function Nodes(t: Tree): set<MapNode>
    decreases t
  {
    match t
    case TLeaf(_) => {}
    case TList(kids) => set i, n | 0 <= i < |kids| && n in Nodes(kids[i]) :: n
    case TMap(node, members) => {node} + set k, n | k in members && n in Nodes(members[k]) :: n
  }

  /** The JSON value, forgetting the nodes. */
  ghost function Erase(t: Tree): Json
    decreases t
  {
    match t
    case TLeaf(v) => Leaf(v)
    case TList(kids) => Arr(seq(|kids|, i requires 0 <= i < |kids| => Erase(kids[i])))
    case TMap(_, members) => Obj(map k | k in members :: Erase(members[k]))
  }

  /** The value v is the tree t in the current heap. */
  ghost predicate Holds(v: Value, t: Tree)
    reads Nodes(t)
    decreases t
  {
    match t
    case TLeaf(s) => v == VLeaf(s)
    case TList(kids) => v.VList? && |v.elems| == |kids| && forall i | 0 <= i < |kids| :: Holds(v.elems[i], kids[i])
    case TMap(node, members) =>
      && v == VMap(node)
      && node.fields.Keys == members.Keys
      && forall k | k in members :: Holds(node.fields[k], members[k])
  }

  /** No node occurs twice: each subtree owns its nodes. */
  ghost predicate Separate(t: Tree)
    decreases t
  {
    match t
    case TLeaf(_) => true
    case TList(kids) =>
      && (forall i | 0 <= i < |kids| :: Separate(kids[i]))
      && (forall i, j | 0 <= i < j < |kids| :: Nodes(kids[i]) !! Nodes(kids[j]))
    case TMap(node, members) =>
      && (forall k | k in members :: Separate(members[k]) && node !in Nodes(members[k]))
      && (forall k, l | k in members && l in members && k != l :: Nodes(members[k]) !! Nodes(members[l]))
  }

  function TreeChild(t: Tree, s: Step): (c: Option<Tree>)
    ensures c.Some? ==> c.value < t
  {
    match s
    case Key(k) => if t.TMap? && k in t.members then Some(t.members[k]) else None
    case Index(i) => if t.TList? && i < |t.kids| then Some(t.kids[i]) else None
  }
}
