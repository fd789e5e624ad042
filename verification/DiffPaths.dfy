/** Rendered paths are unambiguous as long as object keys are non-empty and free of '.' and '['. */
module DiffPaths {
  import opened Json
  import opened Strings
  import opened DiffSpec
  import opened DiffTheorems

  predicate Separator(c: char) {
    c == '.' || c == '['
  }

  predicate SeparatorFree(s: string) {
    forall c | c in s :: !Separator(c)
  }

  predicate CleanStep(s: Step) {
    s.Key? ==> s.key != "" && SeparatorFree(s.key)
  }

  predicate CleanPath(p: Path) {
    forall s | s in p :: CleanStep(s)
  }

  /** Every object key in the tree is clean. */
  ghost predicate CleanKeys(j: Json) {
    forall q | Get(j, q).Some? :: CleanPath(q)
  }

  /** The text after the last separator: a key, or an index and its bracket. */
  function LastToken(s: Step): string {
    match s
    case Key(k) => k
    case Index(i) => Itoa(i) + "]"
  }

  lemma TokenSeparatorFree(s: Step)
    requires CleanStep(s)
    ensures SeparatorFree(LastToken(s))
  {
  }

  /** The position of the last separator, or -1. */
  function LastSeparator(s: string): int {
    if s == "" then -1
    else if Separator(s[|s| - 1]) then |s| - 1
    else LastSeparator(s[..|s| - 1])
  }

  lemma {:induction false} SeparatorFreeHasNone(s: string)
    requires SeparatorFree(s)
    ensures LastSeparator(s) == -1
  {
    if s != "" {
      assert s[|s| - 1] in s;
      SeparatorFreeHasNone(s[..|s| - 1]);
    }
  }

  lemma {:induction false} LastSeparatorAt(u: string, c: char, k: string)
    requires Separator(c) && SeparatorFree(k)
    ensures LastSeparator(u + [c] + k) == |u|
    decreases |k|
  {
    var s := u + [c] + k;
    if k == "" {
      assert s[|s| - 1] == c;
    } else {
      assert s[|s| - 1] == k[|k| - 1] && k[|k| - 1] in k;
      assert s[..|s| - 1] == u + [c] + k[..|k| - 1];
      LastSeparatorAt(u, c, k[..|k| - 1]);
    }
  }

  /** A string splits at its last separator in one way. */
  lemma SplitUnique(u: string, c: char, k: string, u': string, c': char, k': string)
    requires Separator(c) && Separator(c') && SeparatorFree(k) && SeparatorFree(k')
    requires u + [c] + k == u' + [c'] + k'
    ensures u == u' && c == c' && k == k'
  {
    LastSeparatorAt(u, c, k);
    LastSeparatorAt(u', c', k');
    var s := u + [c] + k;
    assert u == s[..|u|] && u' == s[..|u|];
    assert s[|u|] == c && s[|u|] == c';
    assert k == s[|u| + 1..] && k' == s[|u| + 1..];
  }

  lemma NonEmptyRender(p: Path)
    requires CleanPath(p) && p != []
    ensures RenderPath(p) != ""
  {
    assert p[|p| - 1] in p;
  }

  /** A single key renders as itself; anything else ends in a separator and a token. */
  lemma LastSplit(p: Path) returns (single: bool, u: string, c: char)
    requires CleanPath(p) && p != []
    ensures var s := p[|p| - 1];
      && CleanStep(s)
      && (single <==> |p| == 1 && s.Key?)
      && (if single then RenderPath(p) == LastToken(s)
          else && Separator(c) && RenderPath(p) == u + [c] + LastToken(s)
               && u == RenderPath(p[..|p| - 1]) && (c == '[' <==> s.Index?))
  {
    var s := p[|p| - 1];
    assert s in p;
    u := RenderPath(p[..|p| - 1]);
    single := |p| == 1 && s.Key?;
    c := if s.Key? then '.' else '[';
    if s.Key? {
      if |p| > 1 {
        assert CleanPath(p[..|p| - 1]);
        NonEmptyRender(p[..|p| - 1]);
      }
    } else {
      assert u + "[" + Itoa(s.i) + "]" == u + [c] + LastToken(s);
    }
  }

  lemma {:induction false} RenderInjective(p: Path, q: Path)
    requires CleanPath(p) && CleanPath(q) && RenderPath(p) == RenderPath(q)
    ensures p == q
    decreases |p|
  {
    if p == [] || q == [] {
      if p != [] { NonEmptyRender(p); }
      if q != [] { NonEmptyRender(q); }
    } else {
      var s, t := p[|p| - 1], q[|q| - 1];
      var ps, pu, pc := LastSplit(p);
      var qs, qu, qc := LastSplit(q);
      TokenSeparatorFree(s);
      TokenSeparatorFree(t);
      if !ps && !qs {
        SplitUnique(pu, pc, LastToken(s), qu, qc, LastToken(t));
        RenderInjective(p[..|p| - 1], q[..|q| - 1]);
        if s.Index? {
          assert Itoa(s.i) == LastToken(s)[..|LastToken(s)| - 1] == Itoa(t.i);
          ItoaInjective(s.i, t.i);
        }
        assert p == p[..|p| - 1] + [s] && q == q[..|q| - 1] + [t];
      } else if ps != qs {
        if ps {
          SeparatorFreeHasNone(LastToken(s));
          LastSeparatorAt(qu, qc, LastToken(t));
        } else {
          SeparatorFreeHasNone(LastToken(t));
          LastSeparatorAt(pu, pc, LastToken(s));
        }
      } else {
        assert p == [s] && q == [t];
      }
    }
  }

  /** Distinct rendered paths: no two entries of the result can be confused, and the sorted
      order is the only one. */
  lemma DiffPathsDistinct(b: Json, a: Json, maxDepth: int)
    requires CleanKeys(b) && CleanKeys(a)
    ensures var d := DiffOf(b, a, maxDepth);
            forall i, j | 0 <= i < j < |d| :: Less(d[i].path, d[j].path)
  {
    var w := Walk([], 0, maxDepth, b, a);
    var r := RenderAll(w);
    var d := StableSort(r);
    DiffSoundAndComplete(b, a, maxDepth);
    SortIsStable(r);
    forall i, j | 0 <= i < |r| && 0 <= j < |r| && i != j ensures r[i].path != r[j].path {
      assert w[i] in w && w[j] in w;
      assert Describes(w[i], w[i].path, 0, maxDepth, b, a) && Describes(w[j], w[j].path, 0, maxDepth, b, a);
      assert CleanPath(w[i].path) && CleanPath(w[j].path);
      assert !(w[i].path <= w[j].path);
      if r[i].path == r[j].path {
        RenderInjective(w[i].path, w[j].path);
      }
    }
    forall i, j | 0 <= i < j < |d| ensures Less(d[i].path, d[j].path) {
      assert PathOrder(d[i], d[j]);
      assert |OfPath(d, d[i].path)| <= 1 by {
        OfPathAtMost(r, d[i].path);
      }
      if d[i].path == d[j].path {
        OfPathAtLeast(d, i, j);
      }
    }
  }

  lemma {:induction false} OfPathAtLeast(cs: seq<Change<string>>, i: nat, j: nat)
    requires i < j < |cs| && cs[i].path == cs[j].path
    ensures |OfPath(cs, cs[i].path)| >= 2
  {
    if i > 0 {
      OfPathAtLeast(cs[1..], i - 1, j - 1);
    } else {
      OfPathSome(cs[1..], j - 1);
    }
  }

  lemma {:induction false} OfPathSome(cs: seq<Change<string>>, i: nat)
    requires i < |cs|
    ensures |OfPath(cs, cs[i].path)| >= 1
  {
    if i > 0 {
      OfPathSome(cs[1..], i - 1);
    }
  }

  lemma {:induction false} OfPathAtMost(cs: seq<Change<string>>, p: string)
    requires forall i, j | 0 <= i < |cs| && 0 <= j < |cs| && i != j :: cs[i].path != cs[j].path
    ensures |OfPath(cs, p)| <= 1
  {
    if cs != [] {
      OfPathAtMost(cs[1..], p);
      if cs[0].path == p {
        OfPathNone(cs[1..], p);
      }
    }
  }

  lemma {:induction false} OfPathNone(cs: seq<Change<string>>, p: string)
    requires forall c | c in cs :: c.path != p
    ensures OfPath(cs, p) == []
  {
    if cs != [] {
      OfPathNone(cs[1..], p);
    }
  }
}
