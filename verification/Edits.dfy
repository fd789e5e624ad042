/** Point edits of a JSON tree and exactly which paths they change. */
module Edits {
  import opened Json

  /** The children of an existing node with one of them replaced. */
  function WithChild(j: Json, s: Step, c: Json): Json
    requires Child(j, s).Some?
  {
    match s
    case Key(k) => Obj(j.fields[k := c])
    case Index(i) => Arr(j.elems[i := c])
  }

  /** The subtree at an existing path replaced. */
  function Put(j: Json, p: Path, c: Json): Json
    requires Get(j, p).Some?
    decreases |p|
  {
    if p == [] then c
    else WithChild(j, p[0], Put(Child(j, p[0]).value, p[1..], c))
  }

  predicate ObjectAt(j: Json, p: Path) {
    Get(j, p).Some? && Get(j, p).value.Obj?
  }

  /** delete(m, k) where m is the object at p; nothing when there is no object at p. */
  function DeleteAt(j: Json, p: Path, k: string): Json {
    if ObjectAt(j, p) then Put(j, p, Obj(Get(j, p).value.fields - {k})) else j
  }

  /** m[k] = c where m is the object at p; nothing when there is no object at p. */
  function SetAt(j: Json, p: Path, k: string, c: Json): Json {
    if ObjectAt(j, p) then Put(j, p, Obj(Get(j, p).value.fields[k := c])) else j
  }

  lemma ChildOfWithChild(j: Json, s: Step, c: Json, r: Step)
    requires Child(j, s).Some?
    ensures Child(WithChild(j, s, c), r) == if r == s then Some(c) else Child(j, r)
    ensures Label(WithChild(j, s, c)) == Label(j)
  {
  }

  /** A replacement of one container by another of the same kind is seen only below it. */
  lemma {:induction false} AtPut(j: Json, p: Path, c: Json, q: Path)
    requires Get(j, p).Some? && Label(Get(j, p).value) == Label(c)
    ensures At(Put(j, p, c), q) == if p <= q then At(c, q[|p|..]) else At(j, q)
    decreases |p|
  {
    if p != [] {
      var s := p[0];
      var kid := Child(j, s).value;
      var kid' := Put(kid, p[1..], c);
      if q != [] {
        ChildOfWithChild(j, s, kid', q[0]);
        if q[0] == s {
          AtPut(kid, p[1..], c, q[1..]);
          assert p <= q <==> p[1..] <= q[1..] by {
            assert p == [s] + p[1..] && q == [s] + q[1..];
          }
        }
      }
    }
  }

  /** delete(m, k) removes exactly the paths at or below k. */
  lemma AtDelete(j: Json, p: Path, k: string, q: Path)
    ensures At(DeleteAt(j, p, k), q) == if p + [Key(k)] <= q then None else At(j, q)
  {
    var pk := p + [Key(k)];
    if p <= q {
      SplitPath(p, q);
      GetConcat(j, p, q[|p|..]);
      if ObjectAt(j, p) {
        AtPut(j, p, Obj(Get(j, p).value.fields - {k}), q);
      }
      PrefixSplit(p, Key(k), q);
    } else {
      NotPrefix(p, Key(k), q);
      if ObjectAt(j, p) {
        AtPut(j, p, Obj(Get(j, p).value.fields - {k}), q);
      }
    }
  }

  /** m[k] = c, where m exists, installs c at k and changes nothing else. */
  lemma AtSet(j: Json, p: Path, k: string, c: Json, q: Path)
    requires ObjectAt(j, p)
    ensures At(SetAt(j, p, k, c), q) == if p + [Key(k)] <= q then At(c, q[|p| + 1..]) else At(j, q)
  {
    AtPut(j, p, Obj(Get(j, p).value.fields[k := c]), q);
    if p <= q {
      SplitPath(p, q);
      GetConcat(j, p, q[|p|..]);
      PrefixSplit(p, Key(k), q);
      if p + [Key(k)] <= q {
        assert q[|p|..][1..] == q[|p| + 1..];
      }
    } else {
      NotPrefix(p, Key(k), q);
    }
  }

  /** At the root the edits are plain map operations. */
  lemma RootEdits(j: Json, k: string, c: Json)
    requires j.Obj?
    ensures SetAt(j, [], k, c) == Obj(j.fields[k := c])
    ensures DeleteAt(j, [], k) == Obj(j.fields - {k})
  {
  }

  lemma SplitPath(p: Path, q: Path)
    requires p <= q
    ensures q == p + q[|p|..]
  {
  }

  lemma PrefixSplit(p: Path, s: Step, q: Path)
    requires p <= q
    ensures p + [s] <= q <==> q[|p|..] != [] && q[|p|..][0] == s
  {
  }

  lemma NotPrefix(p: Path, s: Step, q: Path)
    requires !(p <= q)
    ensures !(p + [s] <= q)
  {
    assert p <= p + [s];
    if |p| < |q| {
      assert p == (p + [s])[..|p|];
    }
  }
}
