/** What a reader of the diff can rely on: which differences the reported list stands for, and how a
    path reads. */
module DiffReport {
  import opened Json
  import opened Strings
  import opened DiffSpec
  import opened DiffTheorems

  // ---- The reported list

  /** c is how the entry e is reported. */
  predicate Reports(c: Change<string>, e: Change<Path>) {
    && c.path == RenderPath(e.path)
    && c.kind == e.kind && c.was == e.was && c.now == e.now && c.count == e.count
  }

  /** d reports the entries es, and they are the differences from b to a: each describes a real one, no
      two overlap, and where none is at or above, the two agree. */
  ghost predicate Explains(es: seq<Change<Path>>, d: seq<Change<string>>, b: Json, a: Json, maxDepth: int) {
    && |es| == |d|
    && (forall c | c in d :: exists e :: e in es && Reports(c, e))
    && (forall e | e in es :: exists c :: c in d && Reports(c, e))
    && (forall e | e in es :: Describes(e, e.path, 0, maxDepth, b, a))
    && (forall q | (forall e | e in es :: !(e.path <= q)) :: At(b, q) == At(a, q))
    && Independent(es)
  }

  /** Everything Diff reports, and nothing else, is a difference from before to after. */
  lemma DiffExplained(before: Json, after: Json, maxDepth: int)
    ensures Explains(Walk([], 0, maxDepth, before, after), DiffOf(before, after, maxDepth), before, after, maxDepth)
  {
    var es := Walk([], 0, maxDepth, before, after);
    DiffSoundAndComplete(before, after, maxDepth);
    SortIsStable(RenderAll(es));
    SortKeepsLength(RenderAll(es));
    SortedReports(es, DiffOf(before, after, maxDepth));
  }

  lemma SortedReports(es: seq<Change<Path>>, d: seq<Change<string>>)
    requires multiset(d) == multiset(RenderAll(es))
    ensures forall c | c in d :: exists e :: e in es && Reports(c, e)
    ensures forall e | e in es :: exists c :: c in d && Reports(c, e)
  {
    var r := RenderAll(es);
    forall c | c in d ensures exists e :: e in es && Reports(c, e) {
      assert c in multiset(d);
      var i :| 0 <= i < |r| && r[i] == c;
      assert es[i] in es && Reports(c, es[i]);
    }
    forall e | e in es ensures exists c :: c in d && Reports(c, e) {
      var i :| 0 <= i < |es| && es[i] == e;
      assert r[i] in multiset(r);
      assert r[i] in d && Reports(r[i], e);
    }
  }

  // ---- Rendered paths

  /** A key after a dot, an index in brackets. */
  function Token(s: Step): string {
    match s
    case Key(k) => "." + k
    case Index(i) => "[" + Itoa(i) + "]"
  }

  function Tokens(p: Path): string {
    if p == [] then "" else Tokens(p[..|p| - 1]) + Token(p[|p| - 1])
  }

  /** A path that starts with a non-empty key is rendered as its tokens without the first dot. */
  lemma {:induction false} RenderedAsTokens(p: Path)
    requires p != [] && p[0].Key? && p[0].key != ""
    ensures "." + RenderPath(p) == Tokens(p)
    decreases |p|
  {
    if |p| == 1 {
      assert p[..0] == [] && RenderPath(p[..0]) == "";
      assert Tokens(p) == "" + Token(p[0]) == Token(p[0]);
    } else {
      var before := p[..|p| - 1];
      RenderedAsTokens(before);
      TokensLong(before);
      Joined(".", RenderPath(before), Token(p[|p| - 1]));
      assert RenderPath(p) == RenderPath(before) + Token(p[|p| - 1]) by {
        LastStep(p);
      }
    }
  }

  lemma LastStep(p: Path)
    requires p != [] && RenderPath(p[..|p| - 1]) != ""
    ensures RenderPath(p) == RenderPath(p[..|p| - 1]) + Token(p[|p| - 1])
  {
    var before := RenderPath(p[..|p| - 1]);
    match p[|p| - 1]
    case Key(k) => Joined(before, ".", k);
    case Index(i) => BracketJoin(before, Itoa(i));
  }

  lemma BracketJoin(x: string, i: string)
    ensures x + "[" + i + "]" == x + ("[" + i + "]")
  {
  }

  lemma Joined(x: string, y: string, z: string)
    ensures x + (y + z) == x + y + z
  {
  }

  lemma {:induction false} TokensLong(p: Path)
    requires p != [] && p[0].Key? && p[0].key != ""
    ensures |Tokens(p)| > 1
    decreases |p|
  {
    if |p| > 1 {
      TokensLong(p[..|p| - 1]);
    } else {
      assert p[..0] == [];
    }
  }
}
