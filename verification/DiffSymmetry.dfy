/** Reading the diff backwards: Diff(a, b) is Diff(b, a) entry by entry with the sides swapped. */
module DiffSymmetry {
  import opened Json
  import opened DiffSpec
  import opened DiffTheorems

  function SwapKind(k: ChangeKind): ChangeKind {
    match k
    case Added => Removed
    case Removed => Added
    case Modified => Modified
    case Subtree => Subtree
  }

  function Swap<P>(c: Change<P>): Change<P> {
    Change(c.path, SwapKind(c.kind), c.now, c.was, c.count)
  }

  function SwapAll<P>(cs: seq<Change<P>>): (r: seq<Change<P>>)
    ensures |r| == |cs| && forall i | 0 <= i < |cs| :: r[i] == Swap(cs[i])
  {
    seq(|cs|, i requires 0 <= i < |cs| => Swap(cs[i]))
  }

  lemma {:induction false} CountSymmetric(b: Json, a: Json)
    ensures CountChanges(b, a) == CountChanges(a, b)
    decreases b, 1, 0
  {
    if b != a && SameKind(b, a) {
      StepsSymmetric(b, a);
      CountSymmetricAt(b, a, Steps(b, a));
    }
  }

  lemma {:induction false} CountSymmetricAt(b: Json, a: Json, ss: seq<Step>)
    ensures ChangesAt(b, a, ss) == ChangesAt(a, b, ss)
    decreases b, 0, |ss|
  {
    if ss != [] {
      var s := ss[|ss| - 1];
      CountSymmetricAt(b, a, ss[..|ss| - 1]);
      if Child(b, s).Some? && Child(a, s).Some? {
        CountSymmetric(Child(b, s).value, Child(a, s).value);
      }
    }
  }

  lemma {:induction false} WalkSymmetric(path: Path, depth: int, maxDepth: int, b: Json, a: Json)
    ensures Walk(path, depth, maxDepth, a, b) == SwapAll(Walk(path, depth, maxDepth, b, a))
    decreases b, 1, 0
  {
    if b != a && SameKind(b, a) && depth < maxDepth {
      StepsSymmetric(b, a);
      WalkSymmetricAt(path, depth, maxDepth, b, a, Steps(b, a));
    } else {
      WalkSymmetricHere(path, depth, maxDepth, b, a);
    }
  }

  lemma SwapHere(path: Path, b: Json, a: Json)
    ensures SwapAll([Replaced(path, b, a)]) == [Replaced(path, a, b)]
    ensures SwapAll([Collapsed(path, b, a)]) == [Collapsed(path, a, b)]
  {
    CountSymmetric(b, a);
  }

  lemma WalkSymmetricHere(path: Path, depth: int, maxDepth: int, b: Json, a: Json)
    requires b == a || !SameKind(b, a) || depth >= maxDepth
    ensures Walk(path, depth, maxDepth, a, b) == SwapAll(Walk(path, depth, maxDepth, b, a))
  {
    SwapHere(path, b, a);
    if b == a {
      assert Walk(path, depth, maxDepth, b, a) == [];
    } else if !SameKind(b, a) {
      assert Walk(path, depth, maxDepth, b, a) == [Replaced(path, b, a)];
      assert Walk(path, depth, maxDepth, a, b) == [Replaced(path, a, b)];
    } else {
      assert Walk(path, depth, maxDepth, b, a) == [Collapsed(path, b, a)];
      assert Walk(path, depth, maxDepth, a, b) == [Collapsed(path, a, b)];
    }
  }

  lemma {:induction false} WalkSymmetricAt(path: Path, depth: int, maxDepth: int, b: Json, a: Json, ss: seq<Step>)
    ensures WalkAt(path, depth, maxDepth, a, b, ss) == SwapAll(WalkAt(path, depth, maxDepth, b, a, ss))
    decreases b, 0, |ss|
  {
    if ss != [] {
      var s := ss[|ss| - 1];
      WalkSymmetricAt(path, depth, maxDepth, b, a, ss[..|ss| - 1]);
      if Child(b, s).Some? && Child(a, s).Some? {
        WalkSymmetric(path + [s], depth + 1, maxDepth, Child(b, s).value, Child(a, s).value);
      }
      assert StepEntries(path, depth, maxDepth, a, b, s) == SwapAll(StepEntries(path, depth, maxDepth, b, a, s));
    }
  }

  lemma {:induction false} InsertSwapped(x: Change<string>, cs: seq<Change<string>>)
    ensures InsertByPath(Swap(x), SwapAll(cs)) == SwapAll(InsertByPath(x, cs))
  {
    if cs != [] && !PathOrder(x, cs[0]) {
      InsertSwapped(x, cs[1..]);
      assert SwapAll(cs)[1..] == SwapAll(cs[1..]);
    }
  }

  lemma {:induction false} SortSwapped(cs: seq<Change<string>>)
    ensures StableSort(SwapAll(cs)) == SwapAll(StableSort(cs))
  {
    if cs != [] {
      SortSwapped(cs[1..]);
      InsertSwapped(cs[0], StableSort(cs[1..]));
      assert SwapAll(cs)[1..] == SwapAll(cs[1..]);
    }
  }

  lemma DiffSymmetric(b: Json, a: Json, maxDepth: int)
    ensures DiffOf(a, b, maxDepth) == SwapAll(DiffOf(b, a, maxDepth))
  {
    WalkSymmetric([], 0, maxDepth, b, a);
    var w := Walk([], 0, maxDepth, b, a);
    assert RenderAll(SwapAll(w)) == SwapAll(RenderAll(w));
    SortSwapped(RenderAll(w));
  }
}
