/** Byte encodings behind the confirm fingerprint: a string's UTF-8 bytes, the 8-byte little-endian
    length, length-prefixed fields and hexadecimal; each can be decoded in only one way. */
module Encoding {
  import opened Utf8

  // ---- UTF-8

  function CharBytes(c: char): (s: seq<byte>)
    ensures 1 <= |s| <= 4
  {
    var n := c as int;
    if n < 0x80 then [n]
    else if n < 0x800 then [0xC0 + n / 64, 0x80 + n % 64]
    else if n < 0x10000 then [0xE0 + n / 4096, 0x80 + n / 64 % 64, 0x80 + n % 64]
    else [0xF0 + n / 262144, 0x80 + n / 4096 % 64, 0x80 + n / 64 % 64, 0x80 + n % 64]
  }

  /** []byte(s). */
  function Bytes(s: string): seq<byte> {
    if s == "" then [] else CharBytes(s[0]) + Bytes(s[1..])
  }

  lemma CharIsChar(c: char, rest: seq<byte>)
    ensures CharLength(CharBytes(c) + rest) == |CharBytes(c)|
  {
    var n := c as int;
    assert n < 0xD800 || 0xE000 <= n < 0x110000;
    var s := CharBytes(c) + rest;
    assert forall i | 0 <= i < |CharBytes(c)| :: s[i] == CharBytes(c)[i];
  }

  /** Encoded strings are well-formed. */
  lemma {:induction false} BytesValid(s: string)
    ensures Valid(Bytes(s))
  {
    if s != "" {
      CharIsChar(s[0], Bytes(s[1..]));
      BytesValid(s[1..]);
      assert Bytes(s)[|CharBytes(s[0])|..] == Bytes(s[1..]);
    }
  }

  /** The code point of an encoded character. */
  function CodePoint(s: seq<byte>): int
    requires 1 <= |s| <= 4
  {
    match |s|
    case 1 => s[0]
    case 2 => (s[0] as int - 0xC0) * 64 + (s[1] as int - 0x80)
    case 3 => (s[0] as int - 0xE0) * 4096 + (s[1] as int - 0x80) * 64 + (s[2] as int - 0x80)
    case _ => (s[0] as int - 0xF0) * 262144 + (s[1] as int - 0x80) * 4096 + (s[2] as int - 0x80) * 64 + (s[3] as int - 0x80)
  }

  lemma SixBits(n: nat)
    ensures n == n / 64 * 64 + n % 64
    ensures n / 64 == n / 4096 * 64 + n / 64 % 64
    ensures n / 4096 == n / 262144 * 64 + n / 4096 % 64
  {
  }

  lemma CharDecodes(c: char)
    ensures CodePoint(CharBytes(c)) == c as int
  {
    SixBits(c as int);
  }

  lemma CharInjective(c: char, d: char)
    requires CharBytes(c) == CharBytes(d)
    ensures c == d
  {
    CharDecodes(c);
    CharDecodes(d);
    assert c as int == d as int;
  }

  /** Every well-formed character is the encoding of a code point. */
  lemma CharDecoded(s: seq<byte>) returns (c: char)
    requires CharLength(s) > 0
    ensures CharBytes(c) == s[..CharLength(s)]
  {
    var n := CharLength(s);
    var t := s[..n];
    assert forall i | 0 <= i < n :: t[i] == s[i];
    CodePointInRange(s);
    c := CodePoint(t) as char;
    CharRebuilt(t, CodePoint(t));
  }

  lemma CodePointInRange(s: seq<byte>)
    requires CharLength(s) > 0
    ensures var n := CodePoint(s[..CharLength(s)]);
            && (0 <= n < 0xD800 || 0xE000 <= n < 0x110000)
            && CharLength(s) == (if n < 0x80 then 1 else if n < 0x800 then 2 else if n < 0x10000 then 3 else 4)
  {
    var t := s[..CharLength(s)];
    assert forall i | 0 <= i < |t| :: t[i] == s[i];
  }

  lemma Digit64(a: nat, b: nat)
    requires b < 64
    ensures (a * 64 + b) / 64 == a && (a * 64 + b) % 64 == b
  {
  }

  lemma Shift64(n: nat)
    ensures n / 4096 == n / 64 / 64 && n / 262144 == n / 64 / 64 / 64
  {
  }

  lemma ThreeDigits(a: nat, b: nat, c: nat)
    requires b < 64 && c < 64
    ensures var n := a * 4096 + b * 64 + c; n / 4096 == a && n / 64 % 64 == b && n % 64 == c
  {
    Digit64(a * 64 + b, c);
    Digit64(a, b);
    Shift64((a * 64 + b) * 64 + c);
    assert a * 4096 + b * 64 + c == (a * 64 + b) * 64 + c;
  }

  lemma FourDigits(a: nat, b: nat, c: nat, d: nat)
    requires b < 64 && c < 64 && d < 64
    ensures var n := a * 262144 + b * 4096 + c * 64 + d;
            n / 262144 == a && n / 4096 % 64 == b && n / 64 % 64 == c && n % 64 == d
  {
    ThreeDigits(a, b, c);
    var m := a * 4096 + b * 64 + c;
    Digit64(m, d);
    Shift64(m * 64 + d);
    Shift64(m);
    assert a * 262144 + b * 4096 + c * 64 + d == m * 64 + d;
  }

  /** The bytes of a code point are those it was read from. */
  lemma CharRebuilt(t: seq<byte>, n: int)
    requires 1 <= |t| <= 4 && n == CodePoint(t) && (0 <= n < 0xD800 || 0xE000 <= n < 0x110000)
    requires |t| == (if n < 0x80 then 1 else if n < 0x800 then 2 else if n < 0x10000 then 3 else 4)
    requires forall i | 1 <= i < |t| :: 0x80 <= t[i] < 0xC0
    ensures CharBytes(n as char) == t
  {
    assert (n as char) as int == n;
    if |t| == 2 {
      Rebuilt2(t, n);
    } else if |t| == 3 {
      Rebuilt3(t, n);
    } else if |t| == 4 {
      Rebuilt4(t, n);
    }
  }

  lemma Rebuilt2(t: seq<byte>, n: int)
    requires |t| == 2 && n == CodePoint(t) && 0x80 <= n < 0x800 && 0x80 <= t[1] < 0xC0
    ensures n / 64 == t[0] as int - 0xC0 && n % 64 == t[1] as int - 0x80
  {
    assert t[0] as int >= 0xC0;
    Digit64(t[0] as int - 0xC0, t[1] as int - 0x80);
  }

  lemma Rebuilt3(t: seq<byte>, n: int)
    requires |t| == 3 && n == CodePoint(t) && 0x800 <= n < 0x10000 && 0x80 <= t[1] < 0xC0 && 0x80 <= t[2] < 0xC0
    ensures n / 4096 == t[0] as int - 0xE0 && n / 64 % 64 == t[1] as int - 0x80 && n % 64 == t[2] as int - 0x80
  {
    assert t[0] as int >= 0xE0;
    ThreeDigits(t[0] as int - 0xE0, t[1] as int - 0x80, t[2] as int - 0x80);
  }

  lemma Rebuilt4(t: seq<byte>, n: int)
    requires |t| == 4 && n == CodePoint(t) && 0x10000 <= n < 0x110000
    requires 0x80 <= t[1] < 0xC0 && 0x80 <= t[2] < 0xC0 && 0x80 <= t[3] < 0xC0
    ensures n / 262144 == t[0] as int - 0xF0 && n / 4096 % 64 == t[1] as int - 0x80
    ensures n / 64 % 64 == t[2] as int - 0x80 && n % 64 == t[3] as int - 0x80
  {
    assert t[0] as int >= 0xF0;
    FourDigits(t[0] as int - 0xF0, t[1] as int - 0x80, t[2] as int - 0x80, t[3] as int - 0x80);
  }

  /** Well-formed UTF-8 is exactly what strings are encoded as. */
  lemma {:induction false} ValidDecodes(s: seq<byte>) returns (t: string)
    requires Valid(s)
    ensures Bytes(t) == s
    decreases |s|
  {
    if s == [] {
      t := "";
    } else {
      var head, tail := s[..CharLength(s)], s[CharLength(s)..];
      assert s == head + tail;
      var c := CharDecoded(s);
      var rest := ValidDecodes(tail);
      t := [c] + rest;
      BytesOfJoined(c, rest);
    }
  }

  lemma BytesOfJoined(c: char, rest: string)
    ensures Bytes([c] + rest) == CharBytes(c) + Bytes(rest)
  {
    assert ([c] + rest)[0] == c && ([c] + rest)[1..] == rest;
  }

  /** Different strings have different bytes. */
  lemma {:induction false} BytesInjective(s: string, t: string)
    requires Bytes(s) == Bytes(t)
    ensures s == t
    decreases |s|
  {
    if s != "" && t != "" {
      var c, d := CharBytes(s[0]), CharBytes(t[0]);
      CharIsChar(s[0], Bytes(s[1..]));
      CharIsChar(t[0], Bytes(t[1..]));
      assert c == Bytes(s)[..|c|] && d == Bytes(t)[..|d|];
      CharInjective(s[0], t[0]);
      assert Bytes(s[1..]) == Bytes(s)[|c|..] && Bytes(t[1..]) == Bytes(t)[|d|..];
      BytesInjective(s[1..], t[1..]);
      assert s == [s[0]] + s[1..] && t == [t[0]] + t[1..];
    }
  }

  // ---- binary.LittleEndian

  function Power(k: nat): nat {
    if k == 0 then 1 else 256 * Power(k - 1)
  }

  /** The k low bytes of n, least significant first. */
  function LittleEndian(n: nat, k: nat): (s: seq<byte>)
    ensures |s| == k
  {
    if k == 0 then [] else [n % 256] + LittleEndian(n / 256, k - 1)
  }

  lemma {:induction false} LittleEndianInjective(m: nat, n: nat, k: nat)
    requires m < Power(k) && n < Power(k) && LittleEndian(m, k) == LittleEndian(n, k)
    ensures m == n
    decreases k
  {
    if k > 0 {
      var x, y := LittleEndian(m, k), LittleEndian(n, k);
      assert x[0] == y[0] && x[1..] == LittleEndian(m / 256, k - 1) && y[1..] == LittleEndian(n / 256, k - 1);
      LittleEndianInjective(m / 256, n / 256, k - 1);
    }
  }

  /** The number k bytes stand for, least significant first. */
  function FromLittleEndian(s: seq<byte>): nat {
    if s == [] then 0 else s[0] + 256 * FromLittleEndian(s[1..])
  }

  lemma {:induction false} LittleEndianDecodes(n: nat, k: nat)
    requires n < Power(k)
    ensures FromLittleEndian(LittleEndian(n, k)) == n
    decreases k
  {
    if k > 0 {
      LittleEndianDecodes(n / 256, k - 1);
      assert LittleEndian(n, k)[1..] == LittleEndian(n / 256, k - 1);
    }
  }

  // ---- writeField

  /** What writeField feeds to the hash: the length in 8 bytes, then the bytes. */
  function Field(s: string): seq<byte> {
    LittleEndian(|Bytes(s)|, 8) + Bytes(s)
  }

  /** A Go string's length fits an int. */
  predicate Addressable(s: string) {
    |Bytes(s)| < 0x8000_0000_0000_0000
  }

  lemma PowerEight()
    ensures Power(8) == 0x1_0000_0000_0000_0000
  {
    assert Power(4) == 0x1_0000_0000;
    assert Power(6) == 0x1_0000_0000_0000;
  }

  /** The eight bytes before the text spell its length, least significant byte first. */
  lemma FieldLayout(s: string)
    requires Addressable(s)
    ensures |Field(s)| == 8 + |Bytes(s)| && Field(s)[8..] == Bytes(s)
    ensures FromLittleEndian(Field(s)[..8]) == |Bytes(s)|
  {
    PowerEight();
    LittleEndianDecodes(|Bytes(s)|, 8);
    assert Field(s)[..8] == LittleEndian(|Bytes(s)|, 8);
  }

  /** A stream of fields can be read back in only one way. */
  lemma FieldUnique(s: string, t: string, x: seq<byte>, y: seq<byte>)
    requires Addressable(s) && Addressable(t) && Field(s) + x == Field(t) + y
    ensures s == t && x == y
  {
    var a, b := Field(s) + x, Field(t) + y;
    assert a[..8] == LittleEndian(|Bytes(s)|, 8) && b[..8] == LittleEndian(|Bytes(t)|, 8);
    PowerEight();
    LittleEndianInjective(|Bytes(s)|, |Bytes(t)|, 8);
    var n := |Bytes(s)|;
    assert a[8..8 + n] == Bytes(s) && b[8..8 + n] == Bytes(t);
    assert a[8 + n..] == x && b[8 + n..] == y;
    BytesInjective(s, t);
  }

  // ---- hex.EncodeToString

  const HEX := "0123456789abcdef"

  function Hex(s: seq<byte>): (h: string)
    ensures |h| == 2 * |s|
  {
    if s == [] then "" else [HEX[s[0] / 16], HEX[s[0] % 16]] + Hex(s[1..])
  }

  /** The value of a hexadecimal digit, -1 for anything else. */
  function DigitValue(c: char): int {
    if '0' <= c <= '9' then c as int - '0' as int
    else if 'a' <= c <= 'f' then c as int - 'a' as int + 10
    else -1
  }

  lemma DigitDecodes(i: nat)
    requires i < 16
    ensures DigitValue(HEX[i]) == i
  {
  }

  /** Two lower-case digits for each byte, high one first. */
  lemma {:induction false} HexDecodes(s: seq<byte>, i: nat)
    requires i < |s|
    ensures DigitValue(Hex(s)[2 * i]) >= 0 && DigitValue(Hex(s)[2 * i + 1]) >= 0
    ensures s[i] == 16 * DigitValue(Hex(s)[2 * i]) + DigitValue(Hex(s)[2 * i + 1])
    decreases |s|
  {
    if i == 0 {
      DigitDecodes(s[0] / 16);
      DigitDecodes(s[0] % 16);
    } else {
      HexDecodes(s[1..], i - 1);
      assert Hex(s)[2 * i] == Hex(s[1..])[2 * (i - 1)] && Hex(s)[2 * i + 1] == Hex(s[1..])[2 * (i - 1) + 1];
    }
  }

  lemma HexDigit(i: nat, j: nat)
    requires i < 16 && j < 16 && HEX[i] == HEX[j]
    ensures i == j
  {
  }

  lemma {:induction false} HexInjective(s: seq<byte>, t: seq<byte>)
    requires Hex(s) == Hex(t)
    ensures s == t
    decreases |s|
  {
    if s != [] {
      assert |Hex(s)| == |Hex(t)|;
      var a, b := Hex(s), Hex(t);
      assert a[0] == HEX[s[0] / 16] && b[0] == HEX[t[0] / 16] && a[1] == HEX[s[0] % 16] && b[1] == HEX[t[0] % 16];
      HexDigit(s[0] / 16, t[0] / 16);
      HexDigit(s[0] % 16, t[0] % 16);
      assert a[2..] == Hex(s[1..]) && b[2..] == Hex(t[1..]);
      HexInjective(s[1..], t[1..]);
      assert s == [s[0]] + s[1..] && t == [t[0]] + t[1..];
    }
  }
}
