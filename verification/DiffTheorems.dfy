/** Soundness, completeness, independence, symmetry and unambiguity of the diff. */
module DiffTheorems {
  import opened Json
  import opened Strings
  import opened DiffSpec

  // ---- Which entries come from which child

  lemma {:induction false} WalkAtElim(path: Path, depth: int, maxDepth: int, b: Json, a: Json, ss: seq<Step>, e: Change<Path>)
    returns (s: Step)
    requires e in WalkAt(path, depth, maxDepth, b, a, ss)
    ensures s in ss && e in StepEntries(path, depth, maxDepth, b, a, s)
  {
    s := ss[|ss| - 1];
    if e !in StepEntries(path, depth, maxDepth, b, a, s) {
      s := WalkAtElim(path, depth, maxDepth, b, a, ss[..|ss| - 1], e);
    }
  }

  lemma {:induction false} WalkAtIntro(path: Path, depth: int, maxDepth: int, b: Json, a: Json, ss: seq<Step>, s: Step)
    requires s in ss
    ensures forall e | e in StepEntries(path, depth, maxDepth, b, a, s) :: e in WalkAt(path, depth, maxDepth, b, a, ss)
  {
    if s != ss[|ss| - 1] {
      WalkAtIntro(path, depth, maxDepth, b, a, ss[..|ss| - 1], s);
    }
  }

  // ---- Soundness

  /** How a value is shown in an entry: a scalar as it is, a container as null. */
  predicate Shown(v: Json, s: Scalar) {
    if v.Leaf? then v == Leaf(s) else s == Null
  }

  /** Both objects, or both arrays. */
  predicate SameContainer(x: Json, y: Json) {
    !x.Leaf? && Label(x) == Label(y)
  }

  /** What an entry at relative path q says about the two trees it was computed from. */
  ghost predicate Describes(e: Change<Path>, q: Path, depth: int, maxDepth: int, b: Json, a: Json) {
    var bv, av := Get(b, q), Get(a, q);
    && (q != [] ==> depth + |q| <= maxDepth)
    && match e.kind
       case Added =>
         && bv.None? && av.Some? && InMatchingContainers(q, b, a)
         && e.was == Null && Shown(av.value, e.now)
         && e.count == (if av.value.Leaf? then 0 else CountLeaves(av.value))
       case Removed =>
         && bv.Some? && av.None? && InMatchingContainers(q, b, a)
         && Shown(bv.value, e.was) && e.now == Null
         && e.count == (if bv.value.Leaf? then 0 else CountLeaves(bv.value))
       case Modified =>
         && bv.Some? && av.Some? && Label(bv.value) != Label(av.value)
         && Shown(bv.value, e.was) && Shown(av.value, e.now)
         && e.count == (if bv.value.Leaf? && av.value.Leaf? then 0 else 1)
       case Subtree =>
         && bv.Some? && av.Some? && bv != av && SameContainer(bv.value, av.value)
         && depth + |q| == (if depth < maxDepth then maxDepth else depth)
         && e.was == Null && e.now == Null
         && e.count == CountChanges(bv.value, av.value)
  }

  /** The parent of q is a container of the same kind on both sides. */
  ghost predicate InMatchingContainers(q: Path, b: Json, a: Json) {
    && q != []
    && var bp, ap := Get(b, q[..|q| - 1]), Get(a, q[..|q| - 1]);
    && bp.Some? && ap.Some? && SameContainer(bp.value, ap.value)
  }

  /** What holds below child s holds of the parents one step further down. */
  lemma DescribesBelow(e: Change<Path>, s: Step, q: Path, depth: int, maxDepth: int, b: Json, a: Json)
    requires SameKind(b, a) && depth < maxDepth && Child(b, s).Some? && Child(a, s).Some?
    requires Describes(e, q, depth + 1, maxDepth, Child(b, s).value, Child(a, s).value)
    ensures Describes(e, [s] + q, depth, maxDepth, b, a)
  {
    var r := [s] + q;
    assert r[0] == s && r[1..] == q;
    if q != [] {
      var p := r[..|r| - 1];
      assert p[0] == s && p[1..] == q[..|q| - 1];
    }
  }

  /** An entry for a child present on one side only. */
  lemma DescribesPresence(path: Path, s: Step, depth: int, maxDepth: int, b: Json, a: Json, e: Change<Path>)
    requires SameKind(b, a) && depth < maxDepth && (Child(b, s).None? || Child(a, s).None?)
    requires e in StepEntries(path, depth, maxDepth, b, a, s)
    ensures e.path == path + [s] && Describes(e, [s], depth, maxDepth, b, a)
  {
    var q := [s];
    assert q == [] + [s] && q[..|q| - 1] == [];
    GetStep(b, [], s);
    GetStep(a, [], s);
  }

  /** An entry for a pair that is not descended into. */
  lemma DescribesHere(path: Path, depth: int, maxDepth: int, b: Json, a: Json, e: Change<Path>)
    requires !(SameKind(b, a) && depth < maxDepth)
    requires e in Walk(path, depth, maxDepth, b, a)
    ensures e.path == path && Describes(e, [], depth, maxDepth, b, a)
  {
  }

  lemma {:induction false} WalkSound(path: Path, depth: int, maxDepth: int, b: Json, a: Json, e: Change<Path>)
    returns (q: Path)
    requires e in Walk(path, depth, maxDepth, b, a)
    ensures e.path == path + q && Describes(e, q, depth, maxDepth, b, a)
    decreases b
  {
    if SameKind(b, a) && depth < maxDepth {
      var s := WalkAtElim(path, depth, maxDepth, b, a, Steps(b, a), e);
      q := SoundBelow(path, depth, maxDepth, b, a, s, e);
    } else {
      DescribesHere(path, depth, maxDepth, b, a, e);
      q := [];
    }
  }

  lemma {:induction false} SoundBelow(path: Path, depth: int, maxDepth: int, b: Json, a: Json, s: Step, e: Change<Path>)
    returns (q: Path)
    requires SameKind(b, a) && depth < maxDepth
    requires e in StepEntries(path, depth, maxDepth, b, a, s)
    ensures q != [] && q[0] == s && e.path == path + q && Describes(e, q, depth, maxDepth, b, a)
    decreases b, 1
  {
    if Child(b, s).Some? && Child(a, s).Some? {
      q := SoundInside(path, depth, maxDepth, b, a, s, e);
    } else {
      DescribesPresence(path, s, depth, maxDepth, b, a, e);
      q := [s];
    }
  }

  lemma {:induction false} SoundInside(path: Path, depth: int, maxDepth: int, b: Json, a: Json, s: Step, e: Change<Path>)
    returns (q: Path)
    requires SameKind(b, a) && depth < maxDepth && Child(b, s).Some? && Child(a, s).Some?
    requires e in Walk(path + [s], depth + 1, maxDepth, Child(b, s).value, Child(a, s).value)
    ensures q != [] && q[0] == s && e.path == path + q && Describes(e, q, depth, maxDepth, b, a)
    decreases b, 0
  {
    var q' := WalkSound(path + [s], depth + 1, maxDepth, Child(b, s).value, Child(a, s).value, e);
    DescribesBelow(e, s, q', depth, maxDepth, b, a);
    q := [s] + q';
    PathShift(path, s, q');
  }

  // ---- Completeness

  /** An unequal pair that is not descended into has an entry at its own path. */
  lemma EntryHere(path: Path, depth: int, maxDepth: int, b: Json, a: Json)
    requires b != a && (!SameKind(b, a) || depth >= maxDepth)
    ensures exists e :: e in Walk(path, depth, maxDepth, b, a) && e.path == path
  {
    assert Walk(path, depth, maxDepth, b, a)[0].path == path;
  }

  /** A child present on one side only has an entry at its own path. */
  lemma EntryAtChild(path: Path, depth: int, maxDepth: int, b: Json, a: Json, s: Step)
    requires b != a && SameKind(b, a) && depth < maxDepth
    requires Child(b, s).Some? != Child(a, s).Some?
    ensures exists e :: e in Walk(path, depth, maxDepth, b, a) && e.path == path + [s]
  {
    StepsExact(b, a);
    WalkAtIntro(path, depth, maxDepth, b, a, Steps(b, a), s);
    var e := StepEntries(path, depth, maxDepth, b, a, s)[0];
    assert e in StepEntries(path, depth, maxDepth, b, a, s);
  }

  /** If no entry is at or above path + q, none of the entries below child q[0] is. */
  lemma NothingBelow(path: Path, depth: int, maxDepth: int, b: Json, a: Json, q: Path)
    requires b != a && SameKind(b, a) && depth < maxDepth && q != []
    requires Child(b, q[0]).Some? && Child(a, q[0]).Some?
    requires forall e | e in Walk(path, depth, maxDepth, b, a) :: !(e.path <= path + q)
    ensures forall e | e in Walk(path + [q[0]], depth + 1, maxDepth, Child(b, q[0]).value, Child(a, q[0]).value) ::
              !(e.path <= (path + [q[0]]) + q[1..])
  {
    PathShift(path, q[0], q[1..]);
    assert [q[0]] + q[1..] == q;
    StepsExact(b, a);
    WalkAtIntro(path, depth, maxDepth, b, a, Steps(b, a), q[0]);
    forall e | e in Walk(path + [q[0]], depth + 1, maxDepth, Child(b, q[0]).value, Child(a, q[0]).value)
      ensures !(e.path <= path + q)
    {
      assert e in StepEntries(path, depth, maxDepth, b, a, q[0]);
    }
  }

  lemma {:induction false} WalkComplete(path: Path, depth: int, maxDepth: int, b: Json, a: Json, q: Path)
    requires forall e | e in Walk(path, depth, maxDepth, b, a) :: !(e.path <= path + q)
    ensures At(b, q) == At(a, q)
    decreases b
  {
    if b == a {
    } else if !SameKind(b, a) || depth >= maxDepth {
      EntryHere(path, depth, maxDepth, b, a);
    } else if q != [] {
      var bc, ac := Child(b, q[0]), Child(a, q[0]);
      if bc.Some? && ac.Some? {
        NothingBelow(path, depth, maxDepth, b, a, q);
        WalkComplete(path + [q[0]], depth + 1, maxDepth, bc.value, ac.value, q[1..]);
      } else if bc.Some? || ac.Some? {
        assert path + [q[0]] <= path + q;
        EntryAtChild(path, depth, maxDepth, b, a, q[0]);
      }
    }
  }

  // ---- Independence

  ghost predicate Independent(cs: seq<Change<Path>>) {
    forall i, j | 0 <= i < |cs| && 0 <= j < |cs| && i != j :: !(cs[i].path <= cs[j].path)
  }

  lemma StepEntriesUnder(path: Path, depth: int, maxDepth: int, b: Json, a: Json, s: Step)
    requires SameKind(b, a) && depth < maxDepth
    ensures forall e | e in StepEntries(path, depth, maxDepth, b, a, s) :: path + [s] <= e.path
  {
    forall e | e in StepEntries(path, depth, maxDepth, b, a, s) ensures path + [s] <= e.path {
      var q := SoundBelow(path, depth, maxDepth, b, a, s, e);
      StepPrefix(path, q);
    }
  }

  lemma {:induction false} WalkIndependent(path: Path, depth: int, maxDepth: int, b: Json, a: Json)
    ensures Independent(Walk(path, depth, maxDepth, b, a))
    decreases b, 1, 0
  {
    if b != a && SameKind(b, a) && depth < maxDepth {
      StepsExact(b, a);
      WalkAtIndependent(path, depth, maxDepth, b, a, Steps(b, a));
    }
  }

  lemma {:induction false} WalkAtIndependent(path: Path, depth: int, maxDepth: int, b: Json, a: Json, ss: seq<Step>)
    requires SameKind(b, a) && depth < maxDepth && Distinct(ss)
    ensures Independent(WalkAt(path, depth, maxDepth, b, a, ss))
    decreases b, 0, |ss|
  {
    if ss != [] {
      var init, s := ss[..|ss| - 1], ss[|ss| - 1];
      WalkAtIndependent(path, depth, maxDepth, b, a, init);
      if Child(b, s).Some? && Child(a, s).Some? {
        WalkIndependent(path + [s], depth + 1, maxDepth, Child(b, s).value, Child(a, s).value);
      }
      var first, last := WalkAt(path, depth, maxDepth, b, a, init), StepEntries(path, depth, maxDepth, b, a, s);
      StepEntriesUnder(path, depth, maxDepth, b, a, s);
      forall e, f | e in first && f in last ensures !(e.path <= f.path) && !(f.path <= e.path) {
        var s' := WalkAtElim(path, depth, maxDepth, b, a, init, e);
        StepEntriesUnder(path, depth, maxDepth, b, a, s');
        assert e.path[|path|] == (path + [s'])[|path|] == s';
        assert f.path[|path|] == (path + [s])[|path|] == s;
      }
      IndependentConcat(first, last);
    }
  }

  lemma IndependentConcat(cs: seq<Change<Path>>, ds: seq<Change<Path>>)
    requires Independent(cs) && Independent(ds)
    requires forall c, d | c in cs && d in ds :: !(c.path <= d.path) && !(d.path <= c.path)
    ensures Independent(cs + ds)
  {
    var all := cs + ds;
    forall i, j | 0 <= i < |all| && 0 <= j < |all| && i != j ensures !(all[i].path <= all[j].path) {
      assert i < |cs| ==> all[i] == cs[i] && all[i] in cs;
      assert j < |cs| ==> all[j] == cs[j] && all[j] in cs;
      assert i >= |cs| ==> all[i] == ds[i - |cs|] && all[i] in ds;
      assert j >= |cs| ==> all[j] == ds[j - |cs|] && all[j] in ds;
    }
  }

  // ---- The main statements about Diff's entries

  /** Sound: each entry describes a real difference.  Complete: wherever no entry is at or above,
      the trees agree.  Independent: no entry is at or above another. */
  lemma DiffSoundAndComplete(b: Json, a: Json, maxDepth: int)
    ensures forall e | e in Walk([], 0, maxDepth, b, a) :: Describes(e, e.path, 0, maxDepth, b, a)
    ensures forall q | (forall e | e in Walk([], 0, maxDepth, b, a) :: !(e.path <= q)) :: At(b, q) == At(a, q)
    ensures Independent(Walk([], 0, maxDepth, b, a))
  {
    forall e | e in Walk([], 0, maxDepth, b, a) ensures Describes(e, e.path, 0, maxDepth, b, a) {
      var q := WalkSound([], 0, maxDepth, b, a, e);
      assert [] + q == q;
    }
    forall q | (forall e | e in Walk([], 0, maxDepth, b, a) :: !(e.path <= q)) ensures At(b, q) == At(a, q) {
      assert [] + q == q;
      WalkComplete([], 0, maxDepth, b, a, q);
    }
    WalkIndependent([], 0, maxDepth, b, a);
  }

  lemma {:induction false} SortKeepsLength(cs: seq<Change<string>>)
    ensures |StableSort(cs)| == |cs|
  {
    if cs != [] {
      SortKeepsLength(cs[1..]);
      InsertKeeps(cs[0], StableSort(cs[1..]));
    }
  }

  /** Empty: no entry exactly when the two objects are equal. */
  lemma DiffEmptyIffEqual(b: Json, a: Json, maxDepth: int)
    ensures DiffOf(b, a, maxDepth) == [] <==> b == a
  {
    SortKeepsLength(RenderAll(Walk([], 0, maxDepth, b, a)));
    if Walk([], 0, maxDepth, b, a) == [] {
      DiffSoundAndComplete(b, a, maxDepth);
      forall q ensures At(b, q) == At(a, q) {}
      Extensional(b, a);
    }
  }

  // ---- Sorting

  ghost predicate Sorted(cs: seq<Change<string>>) {
    forall i, j | 0 <= i < j < |cs| :: PathOrder(cs[i], cs[j])
  }

  /** The entries with one given path, in order. */
  function OfPath(cs: seq<Change<string>>, p: string): seq<Change<string>> {
    if cs == [] then []
    else (if cs[0].path == p then [cs[0]] else []) + OfPath(cs[1..], p)
  }

  lemma {:induction false} InsertKeeps(x: Change<string>, cs: seq<Change<string>>)
    ensures |InsertByPath(x, cs)| == |cs| + 1
    ensures multiset(InsertByPath(x, cs)) == multiset{x} + multiset(cs)
    ensures Total(InsertByPath(x, cs)) == Weight(x) + Total(cs)
  {
    var r := InsertByPath(x, cs);
    if cs == [] || PathOrder(x, cs[0]) {
      TotalConcat([x], cs);
      assert Total([x]) == Weight(x) by { assert [x][..0] == []; }
    } else {
      InsertKeeps(x, cs[1..]);
      assert cs == [cs[0]] + cs[1..];
      TotalConcat([cs[0]], cs[1..]);
      TotalConcat([cs[0]], InsertByPath(x, cs[1..]));
    }
  }

  lemma {:induction false} TotalConcat<P>(cs: seq<Change<P>>, ds: seq<Change<P>>)
    ensures Total(cs + ds) == Total(cs) + Total(ds)
    decreases |ds|
  {
    if ds == [] {
      assert cs + ds == cs;
    } else {
      TotalConcat(cs, ds[..|ds| - 1]);
      assert (cs + ds)[..|cs + ds| - 1] == cs + ds[..|ds| - 1];
    }
  }

  lemma {:induction false} InsertSorted(x: Change<string>, cs: seq<Change<string>>)
    requires Sorted(cs)
    ensures Sorted(InsertByPath(x, cs))
  {
    if cs == [] || PathOrder(x, cs[0]) {
      forall j | 0 <= j < |cs| ensures PathOrder(x, cs[j]) {
        if j > 0 { LessEqTransitive(x.path, cs[0].path, cs[j].path); }
      }
    } else {
      var rest := InsertByPath(x, cs[1..]);
      InsertSorted(x, cs[1..]);
      InsertKeeps(x, cs[1..]);
      LessEqTotal(x.path, cs[0].path);
      forall j | 0 <= j < |rest| ensures PathOrder(cs[0], rest[j]) {
        assert rest[j] in multiset(rest);
        assert rest[j] == x || rest[j] in cs[1..];
      }
    }
  }

  lemma {:induction false} InsertStable(x: Change<string>, cs: seq<Change<string>>, p: string)
    ensures OfPath(InsertByPath(x, cs), p) == (if x.path == p then [x] else []) + OfPath(cs, p)
  {
    if cs == [] || PathOrder(x, cs[0]) {
      assert ([x] + cs)[1..] == cs;
    } else {
      InsertStable(x, cs[1..], p);
      LessEqTotal(x.path, cs[0].path);
      assert InsertByPath(x, cs)[1..] == InsertByPath(x, cs[1..]);
      assert x.path == x.path && LessEq(x.path, x.path) by { LessEqTotal(x.path, x.path); }
    }
  }

  /** The result is a stable sort of the entries by rendered path. */
  lemma {:induction false} SortIsStable(cs: seq<Change<string>>)
    ensures Sorted(StableSort(cs))
    ensures multiset(StableSort(cs)) == multiset(cs)
    ensures Total(StableSort(cs)) == Total(cs)
    ensures forall p :: OfPath(StableSort(cs), p) == OfPath(cs, p)
  {
    if cs != [] {
      SortIsStable(cs[1..]);
      InsertKeeps(cs[0], StableSort(cs[1..]));
      InsertSorted(cs[0], StableSort(cs[1..]));
      forall p ensures OfPath(StableSort(cs), p) == OfPath(cs, p) {
        InsertStable(cs[0], StableSort(cs[1..]), p);
      }
      assert cs == [cs[0]] + cs[1..];
      TotalConcat([cs[0]], cs[1..]);
      assert Total([cs[0]]) == Weight(cs[0]) by { assert [cs[0]][..0] == []; }
    }
  }
}
