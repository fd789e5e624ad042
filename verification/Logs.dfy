/** The log tail bounds of internal/adapters/rayapi/client.go: the last lines, then the last bytes,
    never splitting a character. */
module Logs {
  import opened Utf8

  const NEWLINE: byte := 0x0A
  const DEFAULT_TAIL_LINES := 200
  const DEFAULT_MAX_BYTES := 16 * 1024

  // ---- Lines

  /** strings.Count(s, "\n"). */
  function Newlines(s: seq<byte>): nat {
    if s == [] then 0 else Newlines(s[1..]) + (if s[0] == NEWLINE then 1 else 0)
  }

  /** strings.TrimSuffix(s, "\n"). */
  function TrimNewline(s: seq<byte>): seq<byte> {
    if s != [] && s[|s| - 1] == NEWLINE then s[..|s| - 1] else s
  }

  /** The number of lines; a trailing newline does not begin another one. */
  function Lines(s: seq<byte>): nat {
    if s == [] then 0 else Newlines(TrimNewline(s)) + 1
  }

  predicate LineStart(s: seq<byte>, i: nat) {
    i == 0 || (i <= |s| && s[i - 1] == 0x0A)
  }

  lemma NewlinesFrom(s: seq<byte>, i: nat)
    requires i < |s|
    ensures Newlines(s[i..]) == Newlines(s[i + 1..]) + (if s[i] == NEWLINE then 1 else 0)
  {
    assert s[i..][1..] == s[i + 1..];
  }

  lemma {:induction false} NewlinesMonotone(s: seq<byte>, i: nat, j: nat)
    requires i <= j <= |s|
    ensures Newlines(s[j..]) <= Newlines(s[i..])
    decreases j - i
  {
    if i < j {
      NewlinesFrom(s, i);
      NewlinesMonotone(s, i + 1, j);
    }
  }

  lemma TrimSuffixes(s: seq<byte>, i: nat)
    requires i < |s|
    ensures i <= |TrimNewline(s)| && TrimNewline(s[i..]) == TrimNewline(s)[i..]
  {
  }

  /** Later suffixes have no more lines. */
  lemma LinesMonotone(s: seq<byte>, i: nat, j: nat)
    requires i <= j <= |s|
    ensures Lines(s[j..]) <= Lines(s[i..])
  {
    if j < |s| {
      TrimSuffixes(s, i);
      TrimSuffixes(s, j);
      NewlinesMonotone(TrimNewline(s), i, j);
    }
  }

  /** ... and an earlier line start has strictly more. */
  lemma EarlierLineStart(s: seq<byte>, k: nat, j: nat)
    requires k < j < |s| && LineStart(s, j)
    ensures Lines(s[j..]) < Lines(s[k..])
  {
    var t := TrimNewline(s);
    TrimSuffixes(s, k);
    TrimSuffixes(s, j);
    NewlinesMonotone(t, k, j - 1);
    NewlinesFrom(t, j - 1);
  }

  /** s[cut..] is the longest suffix that starts a line and has at most n lines. */
  ghost predicate LineCut(s: seq<byte>, n: nat, cut: nat) {
    && cut <= |s| && LineStart(s, cut) && Lines(s[cut..]) <= n
    && forall k: nat | k <= |s| && LineStart(s, k) && Lines(s[k..]) <= n :: cut <= k
  }

  /** lastLines.  r is the longest suffix that starts a line and has at most n lines; when anything is
      cut it has exactly n. */
  method LastLines(s: seq<byte>, n: int) returns (r: seq<byte>, ghost start: nat)
    ensures start <= |s| && r == s[start..]
    ensures n <= 0 ==> r == s
    ensures n > 0 ==> LineCut(s, n, start) && (r != s ==> Lines(r) == n)
  {
    start := 0;
    if n <= 0 || s == [] {
      return s, 0;
    }
    var search := TrimNewline(s);
    if Newlines(search) + 1 <= n {
      return s, 0;
    }
    var count := 0;
    var i := |search| - 1;
    assert search[0..] == search;
    while i >= 0
      invariant -1 <= i < |search|
      invariant count == Newlines(search[i + 1..]) < n
    {
      NewlinesFrom(search, i);
      if search[i] == NEWLINE {
        count := count + 1;
        if count == n {
          CutHere(s, i + 1, n);
          return s[i + 1..], i + 1;
        }
      }
      i := i - 1;
    }
    assert false;
  }

  lemma CutHere(s: seq<byte>, start: nat, n: nat)
    requires 0 < start <= |TrimNewline(s)| && TrimNewline(s)[start - 1] == NEWLINE
    requires Newlines(TrimNewline(s)[start..]) == n - 1
    ensures start < |s| && LineCut(s, n, start) && Lines(s[start..]) == n
  {
    TrimSuffixes(s, start);
    forall k: nat | k < start ensures Lines(s[k..]) > n {
      EarlierLineStart(s, k, start);
    }
  }

  /** Where lines begin: at the start, and after every newline that is not the last byte. */
  function LineStarts(s: seq<byte>): set<nat> {
    set i | 0 <= i < |s| && LineStart(s, i)
  }

  /** Lines(s) counts them. */
  lemma {:induction false} LinesCounted(s: seq<byte>)
    ensures Lines(s) == |LineStarts(s)|
    decreases |s|
  {
    if s == [] {
      assert LineStarts(s) == {};
    } else {
      var before := s[..|s| - 1];
      LinesCounted(before);
      var last := |s| - 1;
      if last == 0 {
        assert LineStarts(s) == {0};
        assert TrimNewline(s) == [] || TrimNewline(s) == s;
        assert Newlines(TrimNewline(s)) == 0 by {
          if TrimNewline(s) == s {
            NewlinesFrom(s, 0);
            assert s[0..] == s && s[1..] == [];
          }
        }
      } else {
        assert forall i | 0 <= i < last :: LineStart(s, i) <==> LineStart(before, i);
        assert LineStarts(s) == LineStarts(before) + (if s[last - 1] == 0x0A then {last} else {});
        NewlinesSnoc(TrimNewline(before), before);
        TrimmedNewlines(s);
      }
    }
  }

  lemma {:induction false} NewlinesConcat(x: seq<byte>, y: seq<byte>)
    ensures Newlines(x + y) == Newlines(x) + Newlines(y)
    decreases |x|
  {
    if x == [] {
      assert x + y == y;
    } else {
      assert (x + y)[1..] == x[1..] + y;
      NewlinesConcat(x[1..], y);
    }
  }

  lemma NewlinesSnoc(t: seq<byte>, s: seq<byte>)
    requires t == TrimNewline(s) && s != []
    ensures Newlines(s) == Newlines(t) + (if s[|s| - 1] == NEWLINE then 1 else 0)
  {
    if s[|s| - 1] == NEWLINE {
      assert s == t + [NEWLINE];
      NewlinesConcat(t, [NEWLINE]);
      assert [NEWLINE][1..] == [];
    }
  }

  /** Without its last byte a text has all the newlines that count. */
  lemma TrimmedNewlines(s: seq<byte>)
    requires s != []
    ensures Newlines(TrimNewline(s)) == Newlines(s[..|s| - 1])
  {
    if s[|s| - 1] != NEWLINE {
      assert s == s[..|s| - 1] + [s[|s| - 1]];
      NewlinesConcat(s[..|s| - 1], [s[|s| - 1]]);
      assert [s[|s| - 1]][1..] == [];
    }
  }

  // ---- Bytes

  /** lastBytes.  At most maxBytes bytes, dropping only continuation bytes below the cap. */
  method LastBytes(s: seq<byte>, maxBytes: int) returns (r: seq<byte>, ghost start: nat)
    ensures start <= |s| && r == s[start..]
    ensures maxBytes <= 0 || |s| <= maxBytes ==> r == s
    ensures maxBytes > 0 ==> |r| <= maxBytes
    ensures maxBytes > 0 && |s| > maxBytes ==>
              && |s| - maxBytes <= start && Boundary(s, start)
              && forall i | |s| - maxBytes <= i < start :: !RuneStart(s[i])
  {
    start := 0;
    if maxBytes <= 0 || |s| <= maxBytes {
      return s, 0;
    }
    r := s[|s| - maxBytes..];
    start := |s| - maxBytes;
    while |r| > 0 && !RuneStart(r[0])
      invariant |s| - maxBytes <= start <= |s| && r == s[start..]
      invariant forall i | |s| - maxBytes <= i < start :: !RuneStart(s[i])
    {
      r := r[1..];
      start := start + 1;
    }
  }

  /** On valid text that is the longest valid suffix of at most maxBytes bytes, at most three short of
      the cap. */
  lemma LastBytesOptimal(s: seq<byte>, maxBytes: nat, start: nat)
    requires Valid(s) && 0 < maxBytes < |s|
    requires |s| - maxBytes <= start <= |s| && Boundary(s, start)
    requires forall i | |s| - maxBytes <= i < start :: !RuneStart(s[i])
    ensures Valid(s[start..]) && start <= |s| - maxBytes + 3
    ensures forall k: nat | k <= |s| && |s[k..]| <= maxBytes && Valid(s[k..]) :: start <= k
  {
    ValidSuffixes(s, start);
    var j := BoundaryNear(s, |s| - maxBytes);
    forall k: nat | k <= |s| && |s[k..]| <= maxBytes && Valid(s[k..]) ensures start <= k {
      ValidSuffixes(s, k);
    }
  }

  // ---- boundLogs

  datatype Tail = Tail(text: seq<byte>, truncated: bool, bytesOmitted: int)

  function LineCap(tailLines: int): nat {
    if tailLines <= 0 then DEFAULT_TAIL_LINES else tailLines
  }

  function ByteCap(maxBytes: int): nat {
    if maxBytes <= 0 then DEFAULT_MAX_BYTES else maxBytes
  }

  /** boundLogs: a suffix within both caps, with an honest account of what was dropped.  Of the lines
      that the line cap keeps, valid text loses as little as the byte cap and its characters allow. */
  method BoundLogs(full: seq<byte>, tailLines: int, maxBytes: int) returns (logs: Tail, ghost cut: nat)
    ensures logs.bytesOmitted + |logs.text| == |full| && cut <= logs.bytesOmitted
    ensures logs.text == full[logs.bytesOmitted..]
    ensures logs.truncated <==> logs.text != full
    ensures Lines(logs.text) <= LineCap(tailLines) && |logs.text| <= ByteCap(maxBytes)
    ensures LineCap(tailLines) == (if tailLines <= 0 then 200 else tailLines)
    ensures ByteCap(maxBytes) == (if maxBytes <= 0 then 16384 else maxBytes)
    ensures LineCut(full, LineCap(tailLines), cut)
    ensures |full| - cut <= ByteCap(maxBytes) ==> logs.text == full[cut..]
    ensures Valid(full) ==> Tight(full, cut, ByteCap(maxBytes), logs.bytesOmitted)
  {
    var lines, out;
    ghost var drop;
    lines, cut := LastLines(full, LineCap(tailLines));
    out, drop := LastBytes(lines, ByteCap(maxBytes));
    var omitted := |full| - |out|;
    logs := Tail(out, omitted > 0, omitted);
    SuffixOfSuffix(full, cut, drop);
    if Valid(full) {
      BoundsAreTight(full, cut, ByteCap(maxBytes), drop);
    }
  }

  lemma SuffixOfSuffix(full: seq<byte>, cut: nat, drop: nat)
    requires cut <= |full| && drop <= |full| - cut
    ensures full[cut..][drop..] == full[cut + drop..]
    ensures Lines(full[cut + drop..]) <= Lines(full[cut..])
    ensures cut + drop == 0 ==> full[cut + drop..] == full
  {
    LinesMonotone(full[cut..], 0, drop);
    assert full[cut..][0..] == full[cut..];
  }

  /** From the line cut on, omitted is the first place that leaves valid text within the byte cap, and
      at most three bytes beyond the cap itself. */
  ghost predicate Tight(full: seq<byte>, cut: nat, cap: nat, omitted: nat) {
    && omitted <= |full| && Valid(full[omitted..])
    && (omitted == cut || omitted <= |full| - cap + 3)
    && forall k: nat | cut <= k <= |full| && |full| - k <= cap && Valid(full[k..]) :: omitted <= k
  }

  lemma BoundsAreTight(full: seq<byte>, cut: nat, cap: nat, drop: nat)
    requires Valid(full) && cut <= |full| && LineStart(full, cut) && drop <= |full| - cut && cap > 0
    requires |full| - cut <= cap ==> drop == 0
    requires |full| - cut > cap ==>
               && |full| - cut - cap <= drop && Boundary(full[cut..], drop)
               && forall i | |full| - cut - cap <= i < drop :: !RuneStart(full[cut..][i])
    ensures Tight(full, cut, cap, cut + drop)
  {
    var tail := full[cut..];
    LinesStayValid(full, cut);
    assert tail[0..] == tail && tail[drop..] == full[cut + drop..];
    if |tail| > cap {
      LastBytesOptimal(tail, cap, drop);
    }
    forall k: nat | cut <= k <= |full| && |full| - k <= cap && Valid(full[k..]) ensures cut + drop <= k {
      assert tail[k - cut..] == full[k..];
    }
  }

  lemma LinesStayValid(full: seq<byte>, cut: nat)
    requires Valid(full) && cut <= |full| && LineStart(full, cut)
    ensures Valid(full[cut..])
  {
    if cut > 0 {
      AfterAscii(full, cut);
      ValidSuffixes(full, cut);
    } else {
      assert full[0..] == full;
    }
  }
}
