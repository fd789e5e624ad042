/** internal/domain/diff.go as it runs: loops that append to a shared output list, add up
    totals and collect sorted keys.  Each method is proved to compute the function of
    DiffSpec that the theorems are about. */
module Diff {
  import opened Json
  import opened Strings
  import opened DiffSpec

  /** The slice behind the *out parameter. */
  class ChangeList {
    var items: seq<Change<string>>

    constructor ()
      ensures items == []
    {
      items := [];
    }

    method Append(c: Change<string>)
      modifies this
      ensures items == old(items) + [c]
    {
      items := items + [c];
    }
  }

  /** Adds a map's keys to a set, in the map's arbitrary order. */
  method AddKeys(seen: set<string>, m: map<string, Json>) returns (r: set<string>)
    ensures r == seen + m.Keys
  {
    r := seen;
    var todo := m.Keys;
    while todo != {}
      invariant todo <= m.Keys && r == seen + (m.Keys - todo)
    {
      var k :| k in todo;
      r, todo := r + {k}, todo - {k};
    }
  }

  /** The elements of a set, sorted. */
  method SortKeys(seen: set<string>) returns (keys: seq<string>)
    ensures keys == SortedKeys(seen)
  {
    keys := [];
    var todo := seen;
    while todo != {}
      invariant todo <= seen && StrictlySorted(keys)
      invariant forall y :: y in keys <==> y in seen && y !in todo
    {
      var k :| k in todo;
      keys, todo := Insert(k, keys), todo - {k};
    }
    SortedUnique(keys, SortedKeys(seen));
  }

  /** The sorted union of two objects' keys, whatever order the maps are ranged over. */
  method UnionKeys(a: map<string, Json>, b: map<string, Json>) returns (keys: seq<string>)
    ensures keys == SortedKeys(a.Keys + b.Keys)
  {
    var seen := AddKeys({}, a);
    seen := AddKeys(seen, b);
    assert seen == a.Keys + b.Keys;
    keys := SortKeys(seen);
  }

  // ---- Counting

  /** The leaf sum does not depend on the order the children are visited in. */
  lemma {:induction false} LeavesAtRemove(j: Json, ss: seq<Step>, i: nat)
    requires i < |ss|
    ensures LeavesAt(j, ss) == LeavesAt(j, ss[..i] + ss[i + 1..]) + ChildLeaves(j, ss[i])
    decreases |ss|
  {
    var last := |ss| - 1;
    if i == last {
      assert ss[..i] + ss[i + 1..] == ss[..last];
    } else {
      LeavesAtRemove(j, ss[..last], i);
      var rest := ss[..i] + ss[i + 1..];
      assert rest[..|rest| - 1] == ss[..last][..i] + ss[..last][i + 1..];
    }
  }

  /** Taking one occurrence of the last step of ss out of a permutation of it. */
  lemma RemoveLast(ss: seq<Step>, tt: seq<Step>) returns (i: nat)
    requires multiset(ss) == multiset(tt) && ss != []
    ensures i < |tt| && tt[i] == ss[|ss| - 1]
    ensures multiset(ss[..|ss| - 1]) == multiset(tt[..i] + tt[i + 1..])
  {
    var s := ss[|ss| - 1];
    assert s in multiset(tt);
    i :| 0 <= i < |tt| && tt[i] == s;
    assert tt == tt[..i] + [s] + tt[i + 1..];
    assert ss == ss[..|ss| - 1] + [s];
    assert multiset(ss[..|ss| - 1]) == multiset(ss) - multiset{s} == multiset(tt[..i] + tt[i + 1..]);
  }

  lemma {:induction false} LeavesAtPermuted(j: Json, ss: seq<Step>, tt: seq<Step>)
    requires multiset(ss) == multiset(tt)
    ensures LeavesAt(j, ss) == LeavesAt(j, tt)
    decreases |ss|
  {
    if ss == [] {
      assert |multiset(tt)| == |tt|;
    } else {
      var i := RemoveLast(ss, tt);
      LeavesAtPermuted(j, ss[..|ss| - 1], tt[..i] + tt[i + 1..]);
      LeavesAtRemove(j, tt, i);
    }
  }

  lemma DistinctSameElements(ss: seq<Step>, tt: seq<Step>)
    requires Distinct(ss) && Distinct(tt) && forall s :: s in ss <==> s in tt
    ensures multiset(ss) == multiset(tt)
  {
    forall s ensures multiset(ss)[s] == multiset(tt)[s] {
      DistinctOnce(ss, s);
      DistinctOnce(tt, s);
    }
  }

  lemma {:induction false} DistinctOnce(ss: seq<Step>, s: Step)
    requires Distinct(ss)
    ensures multiset(ss)[s] == if s in ss then 1 else 0
    decreases |ss|
  {
    if ss != [] {
      assert ss == ss[..|ss| - 1] + [ss[|ss| - 1]];
      DistinctOnce(ss[..|ss| - 1], s);
    }
  }

  /** countLeaves: an object's members are summed in the map's arbitrary order. */
  method SumLeaves(v: Json) returns (n: nat)
    ensures n == CountLeaves(v)
    decreases v
  {
    match v
    case Leaf(_) => n := 1;
    case Obj(fields) =>
      n := 0;
      var todo := fields.Keys;
      ghost var visited: seq<Step> := [];
      while todo != {}
        invariant todo <= fields.Keys && Distinct(visited)
        invariant forall s :: s in visited <==> s.Key? && s.key in fields && s.key !in todo
        invariant n == LeavesAt(v, visited)
      {
        var k :| k in todo;
        var c := SumLeaves(fields[k]);
        assert Child(v, Key(k)) == Some(fields[k]);
        assert (visited + [Key(k)])[..|visited|] == visited;
        n, todo, visited := n + c, todo - {k}, visited + [Key(k)];
      }
      StepsExact(v, v);
      DistinctSameElements(visited, Steps(v, v));
      LeavesAtPermuted(v, visited, Steps(v, v));
    case Arr(elems) =>
      n := 0;
      for i := 0 to |elems|
        invariant n == LeavesAt(v, IndexSteps(i))
      {
        var c := SumLeaves(elems[i]);
        assert Child(v, Index(i)) == Some(elems[i]);
        assert IndexSteps(i + 1)[..i] == IndexSteps(i);
        n := n + c;
      }
  }

  /** The keys of an object pair, or the indices up to the longer array, in visiting order. */
  method VisitOrder(b: Json, a: Json) returns (steps: seq<Step>)
    requires SameKind(b, a)
    ensures steps == Steps(b, a)
  {
    if b.Obj? {
      var keys := UnionKeys(b.fields, a.fields);
      steps := KeyPath(keys);
    } else {
      var n := |b.elems|;
      if |a.elems| > n {
        n := |a.elems|;
      }
      steps := IndexSteps(n);
    }
  }

  /** countChanges. */
  method SumChanges(b: Json, a: Json) returns (total: nat)
    ensures total == CountChanges(b, a)
    decreases b, 2
  {
    if b == a {
      total := 0;
    } else if SameKind(b, a) {
      var steps := VisitOrder(b, a);
      total := SumChangesAt(b, a, steps);
    } else {
      total := 1;
    }
  }

  /** The loop of countChanges, over keys or indices. */
  method SumChangesAt(b: Json, a: Json, steps: seq<Step>) returns (total: nat)
    ensures total == ChangesAt(b, a, steps)
    decreases b, 1
  {
    total := 0;
    for i := 0 to |steps|
      invariant total == ChangesAt(b, a, steps[..i])
    {
      var c := SumStep(b, a, steps[i]);
      assert steps[..i + 1][..i] == steps[..i];
      total := total + c;
    }
    assert steps[..|steps|] == steps;
  }

  method SumStep(b: Json, a: Json, s: Step) returns (c: nat)
    ensures c == StepChanges(b, a, s)
    decreases b, 0
  {
    var bv, av := Child(b, s), Child(a, s);
    if bv.Some? && av.None? {
      c := SumLeaves(bv.value);
    } else if bv.None? && av.Some? {
      c := SumLeaves(av.value);
    } else if bv.Some? {
      c := SumChanges(bv.value, av.value);
    } else {
      c := 0;
    }
  }

  /** DiffResult.FieldCount. */
  method FieldCount(changes: seq<Change<string>>) returns (total: nat)
    ensures total == Total(changes)
  {
    total := 0;
    for i := 0 to |changes|
      invariant total == Total(changes[..i])
    {
      var c := changes[i];
      assert changes[..i + 1][..i] == changes[..i];
      match c.kind {
        case Subtree =>
          total := total + c.count;
        case _ =>
          if c.count > 0 {
            total := total + c.count;
          } else {
            total := total + 1;
          }
      }
    }
    assert changes[..|changes|] == changes;
  }

  // ---- The walk

  /** emitPresence; p is the structural path that path renders. */
  method EmitPresence(path: string, kind: ChangeKind, v: Json, out: ChangeList, ghost p: Path)
    requires path == RenderPath(p) && (kind == Added || kind == Removed)
    modifies out
    ensures out.items == old(out.items) + RenderAll([Presence(p, kind, v)])
  {
    var count := 0;
    var scalar := Null;
    if Composite(v) {
      count := SumLeaves(v);
    } else {
      scalar := v.v;
    }
    var c := Change(path, kind, Null, Null, count);
    if kind == Added {
      c := c.(now := scalar);
    } else {
      c := c.(was := scalar);
    }
    assert c == Render(Presence(p, kind, v));
    out.Append(c);
  }

  lemma RenderStep(p: Path, s: Step)
    ensures RenderPath(p + [s]) == AppendStep(RenderPath(p), s)
  {
    assert (p + [s])[..|p|] == p;
  }

  /** The rendered entries of the children visited so far. */
  ghost function EntriesUpTo(p: Path, depth: int, maxDepth: int, b: Json, a: Json, ss: seq<Step>, i: nat): seq<Change<string>>
    requires i <= |ss|
  {
    RenderAll(WalkAt(p, depth, maxDepth, b, a, ss[..i]))
  }

  ghost function EntriesOf(p: Path, depth: int, maxDepth: int, b: Json, a: Json, s: Step): seq<Change<string>> {
    RenderAll(StepEntries(p, depth, maxDepth, b, a, s))
  }

  lemma NoEntries(p: Path, depth: int, maxDepth: int, b: Json, a: Json, ss: seq<Step>)
    ensures EntriesUpTo(p, depth, maxDepth, b, a, ss, 0) == []
  {
    assert ss[..0] == [];
  }

  lemma NextEntries(p: Path, depth: int, maxDepth: int, b: Json, a: Json, ss: seq<Step>, i: nat)
    requires i < |ss|
    ensures EntriesUpTo(p, depth, maxDepth, b, a, ss, i + 1)
         == EntriesUpTo(p, depth, maxDepth, b, a, ss, i) + EntriesOf(p, depth, maxDepth, b, a, ss[i])
  {
    assert ss[..i + 1][..i] == ss[..i];
  }

  lemma AllEntries(p: Path, depth: int, maxDepth: int, b: Json, a: Json, ss: seq<Step>)
    ensures EntriesUpTo(p, depth, maxDepth, b, a, ss, |ss|) == RenderAll(WalkAt(p, depth, maxDepth, b, a, ss))
  {
    assert ss[..|ss|] == ss;
  }

  /** walkDiff. */
  method WalkDiff(path: string, depth: int, maxDepth: int, b: Json, a: Json, out: ChangeList, ghost p: Path)
    requires path == RenderPath(p)
    modifies out
    ensures out.items == old(out.items) + RenderAll(Walk(p, depth, maxDepth, b, a))
    decreases b, 2
  {
    if b == a {
      return;
    }
    if !SameKind(b, a) {
      EmitReplaced(path, b, a, out, p);
    } else if depth >= maxDepth {
      EmitCollapsed(path, b, a, out, p);
    } else {
      var steps := VisitOrder(b, a);
      StepsExact(b, a);
      WalkChildren(path, depth, maxDepth, b, a, steps, out, p);
    }
  }

  /** The entry of a container that is not looked into. */
  method EmitCollapsed(path: string, b: Json, a: Json, out: ChangeList, ghost p: Path)
    requires path == RenderPath(p)
    modifies out
    ensures out.items == old(out.items) + [Render(Collapsed(p, b, a))]
  {
    var n := SumChanges(b, a);
    out.Append(Change(path, Subtree, Null, Null, n));
  }

  /** The entry of a value replaced by one of another kind, or of a changed scalar. */
  method EmitReplaced(path: string, b: Json, a: Json, out: ChangeList, ghost p: Path)
    requires path == RenderPath(p)
    modifies out
    ensures out.items == old(out.items) + [Render(Replaced(p, b, a))]
  {
    var count := 0;
    if Composite(b) || Composite(a) {
      count := SumChanges(b, a);
    }
    out.Append(Change(path, Modified, ScalarOf(b), ScalarOf(a), count));
  }

  /** The loop of walkDiff, over keys or indices. */
  method WalkChildren(path: string, depth: int, maxDepth: int, b: Json, a: Json, steps: seq<Step>, out: ChangeList, ghost p: Path)
    requires path == RenderPath(p)
    requires forall s | s in steps :: Child(b, s).Some? || Child(a, s).Some?
    modifies out
    ensures out.items == old(out.items) + RenderAll(WalkAt(p, depth, maxDepth, b, a, steps))
    decreases b, 1
  {
    NoEntries(p, depth, maxDepth, b, a, steps);
    for i := 0 to |steps|
      invariant out.items == old(out.items) + EntriesUpTo(p, depth, maxDepth, b, a, steps, i)
    {
      WalkChild(path, depth, maxDepth, b, a, steps[i], out, p);
      NextEntries(p, depth, maxDepth, b, a, steps, i);
    }
    AllEntries(p, depth, maxDepth, b, a, steps);
  }

  /** The three-way switch at one key or index. */
  method WalkChild(path: string, depth: int, maxDepth: int, b: Json, a: Json, s: Step, out: ChangeList, ghost p: Path)
    requires path == RenderPath(p)
    requires Child(b, s).Some? || Child(a, s).Some?
    modifies out
    ensures out.items == old(out.items) + EntriesOf(p, depth, maxDepth, b, a, s)
    decreases b, 0
  {
    var childPath := AppendStep(path, s);
    RenderStep(p, s);
    var bv, av := Child(b, s), Child(a, s);
    if bv.Some? && av.None? {
      EmitPresence(childPath, Removed, bv.value, out, p + [s]);
    } else if bv.None? && av.Some? {
      EmitPresence(childPath, Added, av.value, out, p + [s]);
    } else {
      WalkDiff(childPath, depth + 1, maxDepth, bv.value, av.value, out, p + [s]);
    }
  }

  /** Diff. */
  method Diff(before: Json, after: Json, maxDepth: int) returns (changes: seq<Change<string>>)
    ensures changes == DiffOf(before, after, maxDepth)
  {
    var out := new ChangeList();
    WalkDiff("", 0, maxDepth, before, after, out, []);
    assert out.items == RenderAll(Walk([], 0, maxDepth, before, after));
    changes := StableSort(out.items);
  }
}
