/** JSON values as the domain package sees them (map[string]any, []any and scalars),
    and their meaning as a partial function from paths to labels.  Two trees are the
    same exactly when they carry the same label at every path, so most properties of
    the write pipeline are stated path by path. */
module Json {

  datatype Option<+T> = None | Some(value: T)

  /** int64 and float64 are different Go types, so Int(2) and Float(2.0) are different values. */
  datatype Scalar = Null | Bool(b: bool) | Int(n: int) | Float(r: real) | Str(s: string)

  datatype Json = Leaf(v: Scalar) | Arr(elems: seq<Json>) | Obj(fields: map<string, Json>)

  const NULL: Json := Leaf(Null)

  /** One step of a path: an object key or an array index. */
  datatype Step = Key(key: string) | Index(i: nat)

  type Path = seq<Step>

  /** The steps through a chain of object keys. */
  function KeyPath(names: seq<string>): (p: Path)
    ensures |p| == |names| && forall i | 0 <= i < |p| :: p[i] == Key(names[i])
  {
    seq(|names|, i requires 0 <= i < |names| => Key(names[i]))
  }

  function Child(j: Json, s: Step): (c: Option<Json>)
    ensures c.Some? ==> c.value < j
  {
    match s
    case Key(k) => if j.Obj? && k in j.fields then Some(j.fields[k]) else None
    case Index(i) => if j.Arr? && i < |j.elems| then Some(j.elems[i]) else None
  }

  /** The subtree at a path, if there is one. */
  function Get(j: Json, p: Path): Option<Json>
    decreases |p|
  {
    if p == [] then Some(j)
    else
      var c := Child(j, p[0]);
      if c.None? then None else Get(c.value, p[1..])
  }

  /** What is visible of a node without looking below it: a scalar itself, or the kind of container. */
  function Label(j: Json): Json {
    match j
    case Leaf(_) => j
    case Arr(_) => Arr([])
    case Obj(_) => Obj(map[])
  }

  function LabelOpt(o: Option<Json>): Option<Json> {
    if o.None? then None else Some(Label(o.value))
  }

  /** The label of the tree j at path p; None when nothing is there. */
  function At(j: Json, p: Path): Option<Json> {
    LabelOpt(Get(j, p))
  }

  /** A type assertion to string: "" for anything else. */
  function StringOf(o: Option<Json>): string {
    match o
    case Some(Leaf(Str(s))) => s
    case _ => ""
  }

  /** Reading below a node: Get distributes over path concatenation. */
  lemma {:induction false} GetConcat(j: Json, p: Path, q: Path)
    ensures Get(j, p + q) == if Get(j, p).None? then None else Get(Get(j, p).value, q)
    decreases |p|
  {
    if p == [] {
      assert p + q == q;
    } else {
      assert (p + q)[0] == p[0] && (p + q)[1..] == p[1..] + q;
      var c := Child(j, p[0]);
      if c.Some? {
        GetConcat(c.value, p[1..], q);
      }
    }
  }

  lemma GetStep(j: Json, p: Path, s: Step)
    ensures Get(j, p + [s]) == if Get(j, p).None? then None else Child(Get(j, p).value, s)
  {
    GetConcat(j, p, [s]);
    if Get(j, p).Some? {
      var c := Child(Get(j, p).value, s);
      assert [s][1..] == [];
    }
  }

  /** A container is its kind together with its children. */
  lemma SameChildren(x: Json, y: Json)
    requires Label(x) == Label(y)
    requires forall s :: Child(x, s) == Child(y, s)
    ensures x == y
  {
    if x.Obj? {
      forall k ensures (k in x.fields <==> k in y.fields) && (k in x.fields ==> x.fields[k] == y.fields[k]) {
        assert Child(x, Key(k)) == Child(y, Key(k));
      }
      assert x.fields == y.fields;
    } else if x.Arr? {
      assert Child(x, Index(|y.elems|)) == Child(y, Index(|y.elems|));
      assert Child(x, Index(|x.elems|)) == Child(y, Index(|x.elems|));
      forall i | 0 <= i < |x.elems| ensures x.elems[i] == y.elems[i] {
        assert Child(x, Index(i)) == Child(y, Index(i));
      }
    }
  }

  lemma GetOne(j: Json, s: Step)
    ensures Get(j, [s]) == Child(j, s)
  {
    GetStep(j, [], s);
    assert [] + [s] == [s];
  }

  lemma GetTwo(j: Json, s: Step, t: Step)
    ensures Get(j, [s, t]) == if Child(j, s).None? then None else Child(Child(j, s).value, t)
  {
    GetOne(j, s);
    GetStep(j, [s], t);
    assert [s] + [t] == [s, t];
  }

  lemma PathShift(p: Path, s: Step, q: Path)
    ensures p + ([s] + q) == (p + [s]) + q
  {
  }

  lemma StepPrefix(p: Path, q: Path)
    requires q != []
    ensures p + [q[0]] <= p + q
  {
  }

  /** Two different trees have a path where their labels differ. */
  lemma {:induction false} Distinguish(x: Json, y: Json) returns (p: Path)
    requires x != y
    ensures At(x, p) != At(y, p)
    decreases x
  {
    if Label(x) != Label(y) {
      return [];
    }
    if forall s :: Child(x, s) == Child(y, s) {
      SameChildren(x, y);
    }
    var s :| Child(x, s) != Child(y, s);
    var cx, cy := Child(x, s), Child(y, s);
    if cx.Some? && cy.Some? {
      var q := Distinguish(cx.value, cy.value);
      p := [s] + q;
      assert p[0] == s && p[1..] == q;
    } else {
      p := [] + [s];
      GetStep(x, [], s);
      GetStep(y, [], s);
    }
  }

  /** Trees are determined by their labels. */
  lemma Extensional(x: Json, y: Json)
    requires forall p :: At(x, p) == At(y, p)
    ensures x == y
  {
    if x != y {
      var p := Distinguish(x, y);
    }
  }
}
