/** What the field-level diff means, on structural paths.  The loops of internal/domain/diff.go
    (module Diff) are proved to compute these functions; the theorems about them are in
    DiffTheorems and DiffCounts. */
module DiffSpec {
  import opened Json
  import opened Strings

  /** The depth below which apply results collapse a change into one entry. */
  const DEFAULT_DIFF_MAX_DEPTH := 4

  datatype ChangeKind = Modified | Added | Removed | Subtree

  /** One summary entry.  P is a structural path here and a rendered string in the result.
      A side that is absent or composite carries Null, and count is the leaf count of a
      composite change (0 for a scalar one). */
  datatype Change<P> = Change(path: P, kind: ChangeKind, was: Scalar, now: Scalar, count: nat)

  predicate Composite(j: Json) {
    !j.Leaf?
  }

  function ScalarOf(j: Json): Scalar {
    if j.Leaf? then j.v else Null
  }

  predicate SameKind(b: Json, a: Json) {
    (b.Obj? && a.Obj?) || (b.Arr? && a.Arr?)
  }

  // ---- The children a pair of containers is compared at, in the order they are visited

  function IndexSteps(n: nat): (r: seq<Step>)
    ensures |r| == n && forall i | 0 <= i < n :: r[i] == Index(i)
  {
    seq(n, i requires 0 <= i < n => Index(i))
  }

  function Max(m: nat, n: nat): nat {
    if m < n then n else m
  }

  ghost function Steps(b: Json, a: Json): seq<Step>
    requires SameKind(b, a)
  {
    if b.Obj? then KeyPath(SortedKeys(b.fields.Keys + a.fields.Keys))
    else IndexSteps(Max(|b.elems|, |a.elems|))
  }

  ghost predicate Distinct<T>(s: seq<T>) {
    forall i, j | 0 <= i < j < |s| :: s[i] != s[j]
  }

  /** The steps are the children of either side, each once. */
  lemma StepsExact(b: Json, a: Json)
    requires SameKind(b, a)
    ensures forall s :: s in Steps(b, a) <==> Child(b, s).Some? || Child(a, s).Some?
    ensures Distinct(Steps(b, a))
  {
    var ss := Steps(b, a);
    if b.Obj? {
      var keys := SortedKeys(b.fields.Keys + a.fields.Keys);
      forall s ensures s in ss <==> Child(b, s).Some? || Child(a, s).Some? {
        if s.Key? {
          if s.key in keys {
            var i :| 0 <= i < |keys| && keys[i] == s.key;
            assert ss[i] == s;
          }
        }
      }
    } else {
      forall s ensures s in ss <==> Child(b, s).Some? || Child(a, s).Some? {
        if s.Index? && s.i < |ss| {
          assert ss[s.i] == s;
        }
      }
    }
  }

  lemma StepsSymmetric(b: Json, a: Json)
    requires SameKind(b, a)
    ensures Steps(b, a) == Steps(a, b)
  {
    if b.Obj? {
      assert b.fields.Keys + a.fields.Keys == a.fields.Keys + b.fields.Keys;
    }
  }

  // ---- Counting (countLeaves, countChanges)

  /** Scalar leaves of a value: 1 for a scalar, 0 for an empty container. */
  ghost function CountLeaves(j: Json): nat
    decreases j, 1, 0
  {
    if j.Leaf? then 1 else LeavesAt(j, Steps(j, j))
  }

  ghost function LeavesAt(j: Json, ss: seq<Step>): nat
    decreases j, 0, |ss|
  {
    if ss == [] then 0
    else LeavesAt(j, ss[..|ss| - 1]) + ChildLeaves(j, ss[|ss| - 1])
  }

  ghost function ChildLeaves(j: Json, s: Step): nat
    decreases j, 0, 0
  {
    var c := Child(j, s);
    if c.Some? then CountLeaves(c.value) else 0
  }

  /** Leaf-level differences between two values, to full depth. */
  ghost function CountChanges(b: Json, a: Json): nat
    decreases b, 1, 0
  {
    if b == a then 0
    else if SameKind(b, a) then ChangesAt(b, a, Steps(b, a))
    else 1
  }

  ghost function ChangesAt(b: Json, a: Json, ss: seq<Step>): nat
    decreases b, 0, |ss|
  {
    if ss == [] then 0
    else ChangesAt(b, a, ss[..|ss| - 1]) + StepChanges(b, a, ss[|ss| - 1])
  }

  ghost function StepChanges(b: Json, a: Json, s: Step): nat
    decreases b, 0, 0
  {
    match (Child(b, s), Child(a, s))
    case (None, None) => 0
    case (Some(bv), None) => CountLeaves(bv)
    case (None, Some(av)) => CountLeaves(av)
    case (Some(bv), Some(av)) => CountChanges(bv, av)
  }

  // ---- The walk

  /** An added or removed entry. */
  ghost function Presence<P>(path: P, kind: ChangeKind, v: Json): Change<P> {
    var count := if Composite(v) then CountLeaves(v) else 0;
    if kind == Added then Change(path, kind, Null, ScalarOf(v), count)
    else Change(path, kind, ScalarOf(v), Null, count)
  }

  ghost function Replaced<P>(path: P, b: Json, a: Json): Change<P> {
    Change(path, Modified, ScalarOf(b), ScalarOf(a),
           if Composite(b) || Composite(a) then CountChanges(b, a) else 0)
  }

  ghost function Collapsed<P>(path: P, b: Json, a: Json): Change<P> {
    Change(path, Subtree, Null, Null, CountChanges(b, a))
  }

  ghost function Walk(path: Path, depth: int, maxDepth: int, b: Json, a: Json): seq<Change<Path>>
    decreases b, 1, 0
  {
    if b == a then []
    else if !SameKind(b, a) then [Replaced(path, b, a)]
    else if depth >= maxDepth then [Collapsed(path, b, a)]
    else WalkAt(path, depth, maxDepth, b, a, Steps(b, a))
  }

  ghost function WalkAt(path: Path, depth: int, maxDepth: int, b: Json, a: Json, ss: seq<Step>): seq<Change<Path>>
    decreases b, 0, |ss|
  {
    if ss == [] then []
    else WalkAt(path, depth, maxDepth, b, a, ss[..|ss| - 1]) + StepEntries(path, depth, maxDepth, b, a, ss[|ss| - 1])
  }

  ghost function StepEntries(path: Path, depth: int, maxDepth: int, b: Json, a: Json, s: Step): seq<Change<Path>>
    decreases b, 0, 0
  {
    match (Child(b, s), Child(a, s))
    case (None, None) => []
    case (Some(bv), None) => [Presence(path + [s], Removed, bv)]
    case (None, Some(av)) => [Presence(path + [s], Added, av)]
    case (Some(bv), Some(av)) => Walk(path + [s], depth + 1, maxDepth, bv, av)
  }

  // ---- Rendering and the headline count

  /** childPath and indexPath. */
  function AppendStep(parent: string, s: Step): string {
    match s
    case Key(k) => if parent == "" then k else parent + "." + k
    case Index(i) => parent + "[" + Itoa(i) + "]"
  }

  function RenderPath(p: Path): string {
    if p == [] then "" else AppendStep(RenderPath(p[..|p| - 1]), p[|p| - 1])
  }

  function Render(c: Change<Path>): Change<string> {
    Change(RenderPath(c.path), c.kind, c.was, c.now, c.count)
  }

  function RenderAll(cs: seq<Change<Path>>): (r: seq<Change<string>>)
    ensures |r| == |cs| && forall i | 0 <= i < |r| :: r[i] == Render(cs[i])
  {
    seq(|cs|, i requires 0 <= i < |cs| => Render(cs[i]))
  }

  /** The contribution of one entry to the "N fields changed" headline. */
  function Weight<P>(c: Change<P>): nat {
    if c.kind == Subtree || c.count > 0 then c.count else 1
  }

  function Total<P>(cs: seq<Change<P>>): nat {
    if cs == [] then 0 else Total(cs[..|cs| - 1]) + Weight(cs[|cs| - 1])
  }

  // ---- sort.SliceStable by path

  predicate PathOrder(c: Change<string>, d: Change<string>) {
    LessEq(c.path, d.path)
  }

  /** x goes before the first entry that is not smaller, so equal paths keep their order. */
  function InsertByPath(x: Change<string>, cs: seq<Change<string>>): seq<Change<string>> {
    if cs == [] || PathOrder(x, cs[0]) then [x] + cs
    else [cs[0]] + InsertByPath(x, cs[1..])
  }

  function StableSort(cs: seq<Change<string>>): seq<Change<string>> {
    if cs == [] then [] else InsertByPath(cs[0], StableSort(cs[1..]))
  }

  /** Diff(before, after, maxDepth): the rendered entries, stably sorted by path. */
  ghost function DiffOf(before: Json, after: Json, maxDepth: int): seq<Change<string>> {
    StableSort(RenderAll(Walk([], 0, maxDepth, before, after)))
  }
}
