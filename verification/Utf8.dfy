/** Well-formed UTF-8 (sections 3 and 4 of RFC 3629) and where its suffixes may start. */
module Utf8 {

  type byte = x: int | 0 <= x < 256

  /** utf8.RuneStart: not a continuation byte 80-BF. */
  predicate RuneStart(b: byte) {
    !(0x80 <= b < 0xC0)
  }

  predicate Tails(s: seq<byte>, n: nat) {
    n <= |s| && forall i | 1 <= i < n :: !RuneStart(s[i])
  }

  /** The length of the UTF8-char s begins with, by the ABNF of section 4; 0 when there is none. */
  function CharLength(s: seq<byte>): (n: nat)
    ensures n <= 4 && Tails(s, n)
    ensures n > 0 ==> RuneStart(s[0])
  {
    if s == [] then 0
    else if s[0] <= 0x7F then 1
    else if 0xC2 <= s[0] <= 0xDF && Tails(s, 2) then 2
    else if Tails(s, 3) && (
              || (s[0] == 0xE0 && 0xA0 <= s[1])
              || (0xE1 <= s[0] <= 0xEC)
              || (s[0] == 0xED && s[1] <= 0x9F)
              || (0xEE <= s[0] <= 0xEF)) then 3
    else if Tails(s, 4) && (
              || (s[0] == 0xF0 && 0x90 <= s[1])
              || (0xF1 <= s[0] <= 0xF3)
              || (s[0] == 0xF4 && s[1] <= 0x8F)) then 4
    else 0
  }

  /** UTF8-octets: a sequence of UTF8-chars. */
  predicate Valid(s: seq<byte>) {
    s == [] || (CharLength(s) > 0 && Valid(s[CharLength(s)..]))
  }

  /** A place where no character is split. */
  predicate Boundary(s: seq<byte>, i: nat) {
    i == |s| || (i < |s| && RuneStart(s[i]))
  }

  /** The suffixes of valid text that are valid are those that start at a boundary. */
  lemma {:induction false} ValidSuffixes(s: seq<byte>, i: nat)
    requires Valid(s) && i <= |s|
    ensures Valid(s[i..]) <==> Boundary(s, i)
    decreases |s|
  {
    if i == 0 {
      assert s[0..] == s;
    } else if i < |s| {
      var n := CharLength(s);
      if i < n {
        assert s[i..][0] == s[i];
        assert CharLength(s[i..]) == 0;
      } else {
        assert s[n..][i - n..] == s[i..];
        ValidSuffixes(s[n..], i - n);
      }
    }
  }

  /** In valid text a boundary is never more than three bytes away. */
  lemma {:induction false} BoundaryNear(s: seq<byte>, i: nat) returns (j: nat)
    requires Valid(s) && i <= |s|
    ensures i <= j <= i + 3 && j <= |s| && Boundary(s, j)
    decreases |s|
  {
    if i == 0 || i == |s| {
      return i;
    }
    var n := CharLength(s);
    if i <= n {
      j := n;
      if n < |s| {
        assert s[n..][0] == s[n];
      }
    } else {
      j := BoundaryNear(s[n..], i - n);
      if n + j < |s| {
        assert s[n..][j] == s[n + j];
      }
      j := n + j;
    }
  }

  /** A one-byte character is a boundary, and so is what follows it. */
  lemma AfterAscii(s: seq<byte>, i: nat)
    requires Valid(s) && 0 < i <= |s| && s[i - 1] <= 0x7F
    ensures Boundary(s, i)
  {
    ValidSuffixes(s, i - 1);
    var t := s[i - 1..];
    assert t[1..] == s[i..];
    assert CharLength(t) == 1 && Valid(t[1..]);
    ValidSuffixes(s, i);
  }
}
