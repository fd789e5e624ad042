/** What the two counts of the diff count: paths.  A leaf count is the number of paths with a scalar at
    them, a change count the number of places where the two objects really part. */
module DiffMeaning {
  import opened Json
  import opened DiffSpec

  predicate LeafAt(j: Json, p: Path) {
    Get(j, p).Some? && Get(j, p).value.Leaf?
  }

  // ---- Listing paths below a step

  function Under(s: Step, ps: seq<Path>): (r: seq<Path>)
    ensures |r| == |ps| && forall i | 0 <= i < |r| :: r[i] == [s] + ps[i]
  {
    seq(|ps|, i requires 0 <= i < |ps| => [s] + ps[i])
  }

  lemma InUnder(s: Step, ps: seq<Path>, p: Path)
    ensures p in Under(s, ps) <==> p != [] && p[0] == s && p[1..] in ps
  {
    if p in Under(s, ps) {
      var i :| 0 <= i < |ps| && Under(s, ps)[i] == p;
      assert p[1..] == ps[i];
    }
    if p != [] && p[0] == s && p[1..] in ps {
      var i :| 0 <= i < |ps| && ps[i] == p[1..];
      assert p == [s] + p[1..];
      assert Under(s, ps)[i] == p;
    }
  }

  lemma UnderDistinct(s: Step, ps: seq<Path>)
    requires Distinct(ps)
    ensures Distinct(Under(s, ps))
  {
    var r := Under(s, ps);
    forall i, j | 0 <= i < j < |r| ensures r[i] != r[j] {
      assert r[i][1..] == ps[i] && r[j][1..] == ps[j];
    }
  }

  /** The listing for one more step. */
  lemma AddUnder(ps: seq<Path>, s: Step, qs: seq<Path>)
    requires Distinct(ps) && Distinct(qs) && forall p | p in ps :: p != [] && p[0] != s
    ensures Distinct(ps + Under(s, qs))
    ensures forall p :: p in ps + Under(s, qs) <==> p in ps || (p != [] && p[0] == s && p[1..] in qs)
  {
    UnderDistinct(s, qs);
    var all := ps + Under(s, qs);
    forall p ensures p in all <==> p in ps || (p != [] && p[0] == s && p[1..] in qs) {
      InUnder(s, qs, p);
    }
    forall i, j | 0 <= i < j < |all| ensures all[i] != all[j] {
      if i < |ps| && j >= |ps| {
        assert all[i] in ps && all[j] == Under(s, qs)[j - |ps|];
      }
    }
  }

  // ---- Leaves

  ghost function LeafPaths(j: Json): seq<Path>
    decreases j, 1, 0
  {
    if j.Leaf? then [[]] else LeafPathsAt(j, Steps(j, j))
  }

  ghost function LeafPathsAt(j: Json, ss: seq<Step>): seq<Path>
    decreases j, 0, |ss|
  {
    if ss == [] then []
    else
      var s := ss[|ss| - 1];
      LeafPathsAt(j, ss[..|ss| - 1]) + Under(s, ChildLeafPaths(j, s))
  }

  /** ps lists exactly the paths of a scalar in j, each once. */
  ghost predicate ListsLeaves(j: Json, ps: seq<Path>) {
    Distinct(ps) && forall p :: p in ps <==> LeafAt(j, p)
  }

  /** countLeaves(j) is the number of paths of j with a scalar at them. */
  lemma {:induction false} LeavesCounted(j: Json)
    ensures ListsLeaves(j, LeafPaths(j)) && CountLeaves(j) == |LeafPaths(j)|
    decreases j, 1, 0
  {
    if j.Leaf? {
      forall p ensures p in [[]] <==> LeafAt(j, p) {
        assert p in [[]] <==> p == [];
      }
    } else {
      StepsExact(j, j);
      LeavesCountedAt(j, Steps(j, j));
      forall p ensures p in LeafPaths(j) <==> LeafAt(j, p) {
        if p != [] && LeafAt(j, p) {
          assert p[0] in Steps(j, j);
        }
      }
    }
  }

  ghost function ChildLeafPaths(j: Json, s: Step): seq<Path>
    decreases j, 0, 0
  {
    if Child(j, s).Some? then LeafPaths(Child(j, s).value) else []
  }

  lemma LeavesBelow(j: Json, s: Step)
    requires !j.Leaf?
    ensures Distinct(ChildLeafPaths(j, s)) && ChildLeaves(j, s) == |ChildLeafPaths(j, s)|
    ensures forall r :: r in ChildLeafPaths(j, s) <==> LeafAt(j, [s] + r)
    decreases j, 0, 0
  {
    var c := Child(j, s);
    if c.Some? {
      LeavesCounted(c.value);
    }
    forall r ensures r in ChildLeafPaths(j, s) <==> LeafAt(j, [s] + r) {
      assert ([s] + r)[0] == s && ([s] + r)[1..] == r;
    }
  }

  lemma {:induction false} LeavesCountedAt(j: Json, ss: seq<Step>)
    requires !j.Leaf? && Distinct(ss)
    ensures Distinct(LeafPathsAt(j, ss)) && LeavesAt(j, ss) == |LeafPathsAt(j, ss)|
    ensures forall p :: p in LeafPathsAt(j, ss) <==> p != [] && p[0] in ss && LeafAt(j, p)
    decreases j, 0, |ss|
  {
    if ss != [] {
      var before, s := ss[..|ss| - 1], ss[|ss| - 1];
      LeavesCountedAt(j, before);
      LeavesBelow(j, s);
      AddUnder(LeafPathsAt(j, before), s, ChildLeafPaths(j, s));
      assert ss == before + [s];
      forall p ensures p in LeafPathsAt(j, ss) <==> p != [] && p[0] in ss && LeafAt(j, p) {
        if p != [] && p[0] == s {
          assert p == [s] + p[1..];
          assert p[1..] in ChildLeafPaths(j, s) <==> LeafAt(j, [s] + p[1..]);
        }
      }
    }
  }

  // ---- Changes

  /** Two different values meet at p and are not both objects or both arrays. */
  predicate MeetsDifferently(b: Json, a: Json, p: Path) {
    var bv, av := Get(b, p), Get(a, p);
    bv.Some? && av.Some? && Label(bv.value) != Label(av.value)
  }

  /** p carries a scalar on one side and nothing on the other, inside containers of the same kind as far
      as both sides go. */
  ghost predicate OneSidedLeaf(b: Json, a: Json, p: Path) {
    && ((LeafAt(b, p) && Get(a, p).None?) || (LeafAt(a, p) && Get(b, p).None?))
    && forall n | 0 <= n <= |p| && Get(b, p[..n]).Some? && Get(a, p[..n]).Some? ::
         Label(Get(b, p[..n]).value) == Label(Get(a, p[..n]).value)
  }

  ghost predicate ChangeAt(b: Json, a: Json, p: Path) {
    MeetsDifferently(b, a, p) || OneSidedLeaf(b, a, p)
  }

  lemma ChangeHere(b: Json, a: Json, p: Path)
    requires b == a || !SameKind(b, a)
    ensures ChangeAt(b, a, p) <==> b != a && p == []
  {
    assert p[..0] == [];
    if p != [] && !SameKind(b, a) {
      assert Child(b, p[0]).None? || Child(a, p[0]).None?;
    }
  }

  /** Below a step both sides have, the places are those of the children. */
  lemma ChangeBelow(b: Json, a: Json, p: Path)
    requires SameKind(b, a) && p != [] && Child(b, p[0]).Some? && Child(a, p[0]).Some?
    ensures ChangeAt(b, a, p) <==> ChangeAt(Child(b, p[0]).value, Child(a, p[0]).value, p[1..])
  {
    var cb, ca, r := Child(b, p[0]).value, Child(a, p[0]).value, p[1..];
    forall n | 0 <= n <= |r| ensures Get(b, p[..n + 1]) == Get(cb, r[..n]) && Get(a, p[..n + 1]) == Get(ca, r[..n]) {
      assert p[..n + 1][0] == p[0] && p[..n + 1][1..] == r[..n];
    }
    if OneSidedLeaf(cb, ca, r) {
      forall n | 0 <= n <= |p| && Get(b, p[..n]).Some? && Get(a, p[..n]).Some?
        ensures Label(Get(b, p[..n]).value) == Label(Get(a, p[..n]).value)
      {
        if n > 0 {
          assert Get(b, p[..n - 1 + 1]) == Get(cb, r[..n - 1]) && Get(a, p[..n - 1 + 1]) == Get(ca, r[..n - 1]);
        }
      }
    }
    if OneSidedLeaf(b, a, p) {
      forall n | 0 <= n <= |r| && Get(cb, r[..n]).Some? && Get(ca, r[..n]).Some?
        ensures Label(Get(cb, r[..n]).value) == Label(Get(ca, r[..n]).value)
      {
        assert Get(b, p[..n + 1]) == Get(cb, r[..n]);
      }
    }
  }

  /** Below a step only one side has, they are its leaves. */
  lemma ChangeBeside(b: Json, a: Json, p: Path)
    requires SameKind(b, a) && p != [] && (Child(b, p[0]).None? || Child(a, p[0]).None?)
    ensures ChangeAt(b, a, p) <==> LeafAt(b, p) || LeafAt(a, p)
  {
    forall n | 0 < n <= |p| ensures Get(b, p[..n]).None? || Get(a, p[..n]).None? {
      assert p[..n][0] == p[0];
    }
    assert p[..0] == [];
  }

  ghost function ChangePaths(b: Json, a: Json): seq<Path>
    decreases b, 1, 0
  {
    if b == a then [] else if SameKind(b, a) then ChangePathsAt(b, a, Steps(b, a)) else [[]]
  }

  ghost function ChangePathsAt(b: Json, a: Json, ss: seq<Step>): seq<Path>
    decreases b, 0, |ss|
  {
    if ss == [] then []
    else
      var s := ss[|ss| - 1];
      ChangePathsAt(b, a, ss[..|ss| - 1]) + Under(s, StepPaths(b, a, s))
  }

  ghost function StepPaths(b: Json, a: Json, s: Step): seq<Path>
    decreases b, 0, 0
  {
    match (Child(b, s), Child(a, s))
    case (None, None) => []
    case (Some(bv), None) => LeafPaths(bv)
    case (None, Some(av)) => LeafPaths(av)
    case (Some(bv), Some(av)) => ChangePaths(bv, av)
  }

  ghost predicate ListsChanges(b: Json, a: Json, ps: seq<Path>) {
    Distinct(ps) && forall p :: p in ps <==> ChangeAt(b, a, p)
  }

  /** countChanges(b, a) is the number of places where the two really part: scalars that only one side
      has, and places where two different values meet that are not the same kind of container. */
  lemma {:induction false} ChangesCounted(b: Json, a: Json)
    ensures ListsChanges(b, a, ChangePaths(b, a)) && CountChanges(b, a) == |ChangePaths(b, a)|
    decreases b, 1, 0
  {
    if b == a || !SameKind(b, a) {
      forall p ensures p in ChangePaths(b, a) <==> ChangeAt(b, a, p) {
        ChangeHere(b, a, p);
        assert p in [[]] <==> p == [];
      }
    } else {
      StepsExact(b, a);
      ChangesCountedAt(b, a, Steps(b, a));
      forall p ensures p in ChangePaths(b, a) <==> ChangeAt(b, a, p) {
        NoChangeAtTop(b, a, p);
      }
    }
  }

  lemma NoChangeAtTop(b: Json, a: Json, p: Path)
    requires SameKind(b, a)
    ensures ChangeAt(b, a, p) ==> p != [] && (Child(b, p[0]).Some? || Child(a, p[0]).Some?)
  {
  }

  lemma {:induction false} ChangesCountedAt(b: Json, a: Json, ss: seq<Step>)
    requires SameKind(b, a) && Distinct(ss)
    ensures Distinct(ChangePathsAt(b, a, ss)) && ChangesAt(b, a, ss) == |ChangePathsAt(b, a, ss)|
    ensures forall p :: p in ChangePathsAt(b, a, ss) <==> p != [] && p[0] in ss && ChangeAt(b, a, p)
    decreases b, 0, |ss|
  {
    if ss != [] {
      var before, s := ss[..|ss| - 1], ss[|ss| - 1];
      ChangesCountedAt(b, a, before);
      StepCounted(b, a, s);
      AddUnder(ChangePathsAt(b, a, before), s, StepPaths(b, a, s));
      assert ss == before + [s];
      forall p ensures p in ChangePathsAt(b, a, ss) <==> p != [] && p[0] in ss && ChangeAt(b, a, p) {
        if p != [] && p[0] == s {
          assert p == [s] + p[1..];
          assert p[1..] in StepPaths(b, a, s) <==> ChangeAt(b, a, [s] + p[1..]);
        }
      }
    }
  }

  lemma StepCounted(b: Json, a: Json, s: Step)
    requires SameKind(b, a)
    ensures Distinct(StepPaths(b, a, s)) && StepChanges(b, a, s) == |StepPaths(b, a, s)|
    ensures forall r :: r in StepPaths(b, a, s) <==> ChangeAt(b, a, [s] + r)
    decreases b, 0, 0
  {
    var cb, ca := Child(b, s), Child(a, s);
    if cb.Some? && ca.Some? {
      ChangesCounted(cb.value, ca.value);
      forall r ensures r in StepPaths(b, a, s) <==> ChangeAt(b, a, [s] + r) {
        ChangeBelow(b, a, [s] + r);
        assert ([s] + r)[1..] == r;
      }
    } else {
      if cb.Some? {
        LeavesCounted(cb.value);
      }
      if ca.Some? {
        LeavesCounted(ca.value);
      }
      forall r ensures r in StepPaths(b, a, s) <==> ChangeAt(b, a, [s] + r) {
        ChangeBeside(b, a, [s] + r);
        assert ([s] + r)[0] == s && ([s] + r)[1..] == r;
      }
    }
  }
}
