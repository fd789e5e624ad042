/** The "N fields changed" headline against the leaf-level change count, at every collapse depth. */
module DiffCounts {
  import opened Json
  import opened DiffSpec
  import opened DiffTheorems

  /** The containers without a scalar leaf that the walk lists as added or removed. The headline
      counts each as one field although no leaf changed. */
  ghost function Husks(depth: int, maxDepth: int, b: Json, a: Json): nat
    decreases b, 1, 0
  {
    if b == a || !SameKind(b, a) || depth >= maxDepth then 0
    else HusksAt(depth, maxDepth, b, a, Steps(b, a))
  }

  ghost function HusksAt(depth: int, maxDepth: int, b: Json, a: Json, ss: seq<Step>): nat
    decreases b, 0, |ss|
  {
    if ss == [] then 0
    else HusksAt(depth, maxDepth, b, a, ss[..|ss| - 1]) + StepHusks(depth, maxDepth, b, a, ss[|ss| - 1])
  }

  ghost function StepHusks(depth: int, maxDepth: int, b: Json, a: Json, s: Step): nat
    decreases b, 0, 0
  {
    match (Child(b, s), Child(a, s))
    case (None, None) => 0
    case (Some(bv), None) => if CountLeaves(bv) == 0 then 1 else 0
    case (None, Some(av)) => if CountLeaves(av) == 0 then 1 else 0
    case (Some(bv), Some(av)) => Husks(depth + 1, maxDepth, bv, av)
  }

  /** The headline is the number of leaf changes plus the leafless containers listed. */
  lemma {:induction false} Accounting(path: Path, depth: int, maxDepth: int, b: Json, a: Json)
    ensures Total(Walk(path, depth, maxDepth, b, a)) == CountChanges(b, a) + Husks(depth, maxDepth, b, a)
    decreases b, 1, 0
  {
    if b != a {
      if SameKind(b, a) && depth < maxDepth {
        AccountingAt(path, depth, maxDepth, b, a, Steps(b, a));
      } else {
        TotalSingle(Walk(path, depth, maxDepth, b, a)[0]);
      }
    }
  }

  lemma TotalSingle<P>(c: Change<P>)
    ensures Total([c]) == Weight(c)
  {
    assert [c][..0] == [];
  }

  lemma {:induction false} AccountingAt(path: Path, depth: int, maxDepth: int, b: Json, a: Json, ss: seq<Step>)
    ensures Total(WalkAt(path, depth, maxDepth, b, a, ss)) == ChangesAt(b, a, ss) + HusksAt(depth, maxDepth, b, a, ss)
    decreases b, 0, |ss|
  {
    if ss != [] {
      var init, s := ss[..|ss| - 1], ss[|ss| - 1];
      AccountingAt(path, depth, maxDepth, b, a, init);
      TotalConcat(WalkAt(path, depth, maxDepth, b, a, init), StepEntries(path, depth, maxDepth, b, a, s));
      AccountingStep(path, depth, maxDepth, b, a, s);
    }
  }

  lemma {:induction false} AccountingStep(path: Path, depth: int, maxDepth: int, b: Json, a: Json, s: Step)
    ensures Total(StepEntries(path, depth, maxDepth, b, a, s)) == StepChanges(b, a, s) + StepHusks(depth, maxDepth, b, a, s)
    decreases b, 0, 0
  {
    match (Child(b, s), Child(a, s)) {
      case (None, None) =>
      case (Some(bv), None) => TotalSingle(Presence(path + [s], Removed, bv));
      case (None, Some(av)) => TotalSingle(Presence(path + [s], Added, av));
      case (Some(bv), Some(av)) => Accounting(path + [s], depth + 1, maxDepth, bv, av);
    }
  }

  lemma {:induction false} HusksMonotone(depth: int, maxDepth: int, b: Json, a: Json)
    ensures Husks(depth, maxDepth, b, a) <= Husks(depth, maxDepth + 1, b, a)
    decreases b, 1, 0
  {
    if b != a && SameKind(b, a) && depth < maxDepth {
      HusksMonotoneAt(depth, maxDepth, b, a, Steps(b, a));
    }
  }

  lemma {:induction false} HusksMonotoneAt(depth: int, maxDepth: int, b: Json, a: Json, ss: seq<Step>)
    ensures HusksAt(depth, maxDepth, b, a, ss) <= HusksAt(depth, maxDepth + 1, b, a, ss)
    decreases b, 0, |ss|
  {
    if ss != [] {
      var s := ss[|ss| - 1];
      HusksMonotoneAt(depth, maxDepth, b, a, ss[..|ss| - 1]);
      if Child(b, s).Some? && Child(a, s).Some? {
        HusksMonotone(depth + 1, maxDepth, Child(b, s).value, Child(a, s).value);
      }
    }
  }

  // ---- When the headline is exact

  /** A one-sided child without a leaf: below q on both sides, present on exactly one. */
  ghost predicate HuskAt(b: Json, a: Json, q: Path, s: Step) {
    var bp, ap := Get(b, q), Get(a, q);
    && bp.Some? && ap.Some? && SameKind(bp.value, ap.value)
    && Child(bp.value, s).Some? != Child(ap.value, s).Some?
    && CountLeaves(if Child(bp.value, s).Some? then Child(bp.value, s).value else Child(ap.value, s).value) == 0
  }

  lemma HuskBelow(b: Json, a: Json, q: Path, s: Step)
    requires q != [] && Child(b, q[0]).Some? && Child(a, q[0]).Some?
    ensures HuskAt(b, a, q, s) == HuskAt(Child(b, q[0]).value, Child(a, q[0]).value, q[1..], s)
  {
  }

  lemma HuskInside(b: Json, a: Json, q: Path, s: Step)
    requires q != [] && HuskAt(b, a, q, s)
    ensures SameKind(b, a) && b != a && Child(b, q[0]).Some? && Child(a, q[0]).Some?
  {
  }

  /** Husks is positive exactly when some such child lies within the depth walked. */
  lemma {:induction false} FindHusk(depth: int, maxDepth: int, b: Json, a: Json) returns (q: Path, s: Step)
    requires Husks(depth, maxDepth, b, a) > 0
    ensures depth + |q| < maxDepth && HuskAt(b, a, q, s)
    decreases b, 1, 0
  {
    q, s := FindHuskAt(depth, maxDepth, b, a, Steps(b, a));
  }

  lemma {:induction false} FindHuskAt(depth: int, maxDepth: int, b: Json, a: Json, ss: seq<Step>) returns (q: Path, s: Step)
    requires SameKind(b, a) && depth < maxDepth
    requires HusksAt(depth, maxDepth, b, a, ss) > 0
    ensures depth + |q| < maxDepth && HuskAt(b, a, q, s)
    decreases b, 0, |ss|
  {
    s := ss[|ss| - 1];
    if StepHusks(depth, maxDepth, b, a, s) == 0 {
      q, s := FindHuskAt(depth, maxDepth, b, a, ss[..|ss| - 1]);
    } else if Child(b, s).Some? && Child(a, s).Some? {
      var q', s' := FindHusk(depth + 1, maxDepth, Child(b, s).value, Child(a, s).value);
      q, s := [s] + q', s';
      assert q[1..] == q';
      HuskBelow(b, a, q, s);
    } else {
      q := [];
    }
  }

  lemma {:induction false} HusksAtLeast(depth: int, maxDepth: int, b: Json, a: Json, ss: seq<Step>, s: Step)
    requires s in ss
    ensures HusksAt(depth, maxDepth, b, a, ss) >= StepHusks(depth, maxDepth, b, a, s)
  {
    if s != ss[|ss| - 1] {
      HusksAtLeast(depth, maxDepth, b, a, ss[..|ss| - 1], s);
    }
  }

  lemma HuskCountedHere(depth: int, maxDepth: int, b: Json, a: Json, s: Step)
    requires depth < maxDepth && HuskAt(b, a, [], s)
    ensures Husks(depth, maxDepth, b, a) > 0
  {
    StepsExact(b, a);
    HusksAtLeast(depth, maxDepth, b, a, Steps(b, a), s);
  }

  /** A husk below one child counts for the parents. */
  lemma HuskCountedAbove(depth: int, maxDepth: int, b: Json, a: Json, s: Step)
    requires depth < maxDepth && SameKind(b, a) && b != a && Child(b, s).Some? && Child(a, s).Some?
    requires Husks(depth + 1, maxDepth, Child(b, s).value, Child(a, s).value) > 0
    ensures Husks(depth, maxDepth, b, a) > 0
  {
    StepsExact(b, a);
    HusksAtLeast(depth, maxDepth, b, a, Steps(b, a), s);
  }

  lemma {:induction false} HuskCounted(depth: int, maxDepth: int, b: Json, a: Json, q: Path, s: Step)
    requires depth + |q| < maxDepth && HuskAt(b, a, q, s)
    ensures Husks(depth, maxDepth, b, a) > 0
    decreases |q|
  {
    if q == [] {
      HuskCountedHere(depth, maxDepth, b, a, s);
    } else {
      HuskInside(b, a, q, s);
      HuskBelow(b, a, q, s);
      HuskCounted(depth + 1, maxDepth, Child(b, q[0]).value, Child(a, q[0]).value, q[1..], s);
      HuskCountedAbove(depth, maxDepth, b, a, q[0]);
    }
  }

  /** countChanges <= headline(d) <= headline(d+1) for every collapse depth d, and the headline
      is exact at depth d if and only if no leafless container within that depth is present on
      one side only. */
  lemma HeadlineBounds(b: Json, a: Json, d: int)
    ensures CountChanges(b, a) <= Total(DiffOf(b, a, d)) <= Total(DiffOf(b, a, d + 1))
    ensures Total(DiffOf(b, a, d)) == CountChanges(b, a) <==> (forall q, s | |q| < d :: !HuskAt(b, a, q, s))
  {
    HeadlineIsTotal(b, a, d);
    HeadlineIsTotal(b, a, d + 1);
    Accounting([], 0, d, b, a);
    Accounting([], 0, d + 1, b, a);
    HusksMonotone(0, d, b, a);
    if Husks(0, d, b, a) > 0 {
      var q, s := FindHusk(0, d, b, a);
    } else {
      forall q, s | |q| < d ensures !HuskAt(b, a, q, s) {
        if HuskAt(b, a, q, s) {
          HuskCounted(0, d, b, a, q, s);
        }
      }
    }
  }

  lemma {:induction false} RenderKeepsTotal(cs: seq<Change<Path>>)
    ensures Total(RenderAll(cs)) == Total(cs)
    decreases |cs|
  {
    if cs != [] {
      RenderKeepsTotal(cs[..|cs| - 1]);
      assert RenderAll(cs)[..|cs| - 1] == RenderAll(cs[..|cs| - 1]);
    }
  }

  lemma HeadlineIsTotal(b: Json, a: Json, d: int)
    ensures Total(DiffOf(b, a, d)) == Total(Walk([], 0, d, b, a))
  {
    SortIsStable(RenderAll(Walk([], 0, d, b, a)));
    RenderKeepsTotal(Walk([], 0, d, b, a));
  }

  // ---- Trees without empty containers

  ghost predicate NoEmptyContainer(j: Json) {
    forall q | Get(j, q).Some? :: Get(j, q).value != Arr([]) && Get(j, q).value != Obj(map[])
  }

  lemma {:induction false} LeavesAtLeast(j: Json, ss: seq<Step>, s: Step)
    requires s in ss && Child(j, s).Some?
    ensures LeavesAt(j, ss) >= CountLeaves(Child(j, s).value)
    decreases |ss|
  {
    if s != ss[|ss| - 1] {
      LeavesAtLeast(j, ss[..|ss| - 1], s);
    }
  }

  lemma NoEmptyBelow(j: Json, q: Path)
    requires NoEmptyContainer(j) && Get(j, q).Some?
    ensures NoEmptyContainer(Get(j, q).value)
  {
    forall r | Get(Get(j, q).value, r).Some?
      ensures Get(Get(j, q).value, r).value != Arr([]) && Get(Get(j, q).value, r).value != Obj(map[])
    {
      GetConcat(j, q, r);
      assert Get(j, q + r).Some?;
    }
  }

  lemma {:induction false} NoEmptyHasLeaf(j: Json)
    requires NoEmptyContainer(j)
    ensures CountLeaves(j) > 0
    decreases j
  {
    assert Get(j, []).Some?;
    if !j.Leaf? {
      var s :| Child(j, s).Some? by {
        if j.Obj? {
          var k :| k in j.fields;
          assert Child(j, Key(k)).Some?;
        } else {
          assert Child(j, Index(0)).Some?;
        }
      }
      GetStep(j, [], s);
      NoEmptyBelow(j, [] + [s]);
      NoEmptyHasLeaf(Child(j, s).value);
      StepsExact(j, j);
      LeavesAtLeast(j, Steps(j, j), s);
    }
  }

  /** Without empty objects or arrays the headline is the leaf count at every depth. */
  lemma HeadlineExact(b: Json, a: Json, d: int)
    requires NoEmptyContainer(b) && NoEmptyContainer(a)
    ensures Total(DiffOf(b, a, d)) == CountChanges(b, a)
  {
    forall q, s | |q| < d ensures !HuskAt(b, a, q, s) {
      GetStep(b, q, s);
      GetStep(a, q, s);
      if Get(b, q + [s]).Some? {
        NoEmptyBelow(b, q + [s]);
        NoEmptyHasLeaf(Get(b, q + [s]).value);
      }
      if Get(a, q + [s]).Some? {
        NoEmptyBelow(a, q + [s]);
        NoEmptyHasLeaf(Get(a, q + [s]).value);
      }
    }
    HeadlineBounds(b, a, d);
  }

  /** The hypothesis is needed: removing {"x": {}} changes no leaf, is collapsed to 0 fields at
      depth 0 and counted as 1 field at depth 1. */
  lemma HeadlineInexact()
    ensures var b, a := Obj(map["x" := Obj(map[])]), Obj(map[]);
            CountChanges(b, a) == 0 && Total(DiffOf(b, a, 0)) == 0 && Total(DiffOf(b, a, 1)) > 0
  {
    var b, a := Obj(map["x" := Obj(map[])]), Obj(map[]);
    var e := Obj(map[]);
    assert Child(b, Key("x")) == Some(e);
    assert e.fields.Keys + e.fields.Keys == {};
    assert CountLeaves(e) == 0;
    StepsExact(b, a);
    ChangesNone(b, a, Steps(b, a));
    assert HuskAt(b, a, [], Key("x"));
    HeadlineBounds(b, a, 0);
    HeadlineBounds(b, a, 1);
  }

  lemma {:induction false} ChangesNone(b: Json, a: Json, ss: seq<Step>)
    requires forall s | s in ss :: StepChanges(b, a, s) == 0
    ensures ChangesAt(b, a, ss) == 0
    decreases |ss|
  {
    if ss != [] {
      ChangesNone(b, a, ss[..|ss| - 1]);
    }
  }
}
