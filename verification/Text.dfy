/**
 Strings as sequences of Unicode scalar values, and the two codings of them the
 source relies on: code points (Python's own string order) and UTF-16 code units
 (the member order of section 3.2.3 of RFC 8785), plus the UTF-8 bytes that are
 hashed and signed.
 */
module Text {
  import opened Ordering

  /** Python's `str.isspace` on one character. */
  predicate IsSpace(c: char) {
    var n := c as int;
    || 0x09 <= n <= 0x0D || 0x1C <= n <= 0x20 || n == 0x85 || n == 0xA0 || n == 0x1680
    || 0x2000 <= n <= 0x200A || n == 0x2028 || n == 0x2029 || n == 0x202F || n == 0x205F || n == 0x3000
  }

  /** `not s.strip()` */
  predicate Blank(s: string) {
    forall i :: 0 <= i < |s| ==> IsSpace(s[i])
  }

  function CodePoints(s: string): seq<int> {
    if s == "" then [] else [s[0] as int] + CodePoints(s[1..])
  }

  /** One scalar as one code unit, or as a surrogate pair. */
  function Utf16Char(c: char): (r: seq<int>)
    ensures r != []
  {
    var n := c as int;
    if n < 0x10000 then [n]
    else [0xD800 + (n - 0x10000) / 0x400, 0xDC00 + (n - 0x10000) % 0x400]
  }

  function Utf16(s: string): seq<int> {
    if s == "" then [] else Utf16Char(s[0]) + Utf16(s[1..])
  }

  lemma {:induction false} CodePointsInjective(a: string, b: string)
    requires CodePoints(a) == CodePoints(b)
    ensures a == b
  {
    if a != "" && b != "" {
      assert CodePoints(a)[1..] == CodePoints(a[1..]) && CodePoints(b)[1..] == CodePoints(b[1..]);
      assert CodePoints(a)[0] == CodePoints(b)[0];
      CodePointsInjective(a[1..], b[1..]);
      assert a == [a[0]] + a[1..] && b == [b[0]] + b[1..];
    }
  }

  /** No scalar is a surrogate, so the first unit says how many units a scalar takes. */
  lemma Utf16CharPrefix(c: char, d: char, s: seq<int>, t: seq<int>)
    requires Utf16Char(c) + s == Utf16Char(d) + t
    ensures c == d && s == t
  {
    var u := Utf16Char(c) + s;
    assert u[0] == Utf16Char(c)[0] == Utf16Char(d)[0];
    if |Utf16Char(c)| == 2 && |Utf16Char(d)| == 2 { assert u[1] == Utf16Char(c)[1] == Utf16Char(d)[1]; }
    assert |Utf16Char(c)| == |Utf16Char(d)|;
    assert c as int == d as int;
    assert s == u[|Utf16Char(c)|..] == t;
  }

  lemma {:induction false} Utf16Injective(a: string, b: string)
    requires Utf16(a) == Utf16(b)
    ensures a == b
  {
    if a != "" && b != "" {
      Utf16CharPrefix(a[0], b[0], Utf16(a[1..]), Utf16(b[1..]));
      Utf16Injective(a[1..], b[1..]);
      assert a == [a[0]] + a[1..] && b == [b[0]] + b[1..];
    }
  }

  lemma CodePointsDistinct(s: set<string>)
    ensures DistinctKeys(s, CodePoints)
  {
    forall x, y | x in s && y in s && CodePoints(x) == CodePoints(y) ensures x == y { CodePointsInjective(x, y); }
  }

  lemma Utf16Distinct(s: set<string>)
    ensures DistinctKeys(s, Utf16)
  {
    forall x, y | x in s && y in s && Utf16(x) == Utf16(y) ensures x == y { Utf16Injective(x, y); }
  }

  // ---- UTF-8 ----

  type Byte = n: int | 0 <= n < 256

  function Utf8Char(c: char): (r: seq<Byte>)
    ensures r != []
  {
    var n := c as int;
    if n < 0x80 then [n]
    else if n < 0x800 then [0xC0 + n / 0x40, 0x80 + n % 0x40]
    else if n < 0x10000 then [0xE0 + n / 0x1000, 0x80 + n / 0x40 % 0x40, 0x80 + n % 0x40]
    else [0xF0 + n / 0x40000, 0x80 + n / 0x1000 % 0x40, 0x80 + n / 0x40 % 0x40, 0x80 + n % 0x40]
  }

  function Utf8(s: string): seq<Byte> {
    if s == "" then [] else Utf8Char(s[0]) + Utf8(s[1..])
  }

  /** The scalar a UTF-8 byte string starts with, read back from its lead byte. */
  function Utf8First(b: seq<int>): int {
    if |b| >= 1 && b[0] < 0x80 then b[0]
    else if |b| >= 2 && b[0] < 0xE0 then (b[0] - 0xC0) * 0x40 + (b[1] - 0x80)
    else if |b| >= 3 && b[0] < 0xF0 then (b[0] - 0xE0) * 0x1000 + (b[1] - 0x80) * 0x40 + (b[2] - 0x80)
    else if |b| >= 4 then
      (b[0] - 0xF0) * 0x40000 + (b[1] - 0x80) * 0x1000 + (b[2] - 0x80) * 0x40 + (b[3] - 0x80)
    else 0
  }

  lemma {:induction false} Utf8FirstOf(c: char, s: seq<Byte>)
    ensures Utf8First(Utf8Char(c) + s) == c as int
  {
    var n := c as int;
    var b := Utf8Char(c) + s;
    assert forall i :: 0 <= i < |Utf8Char(c)| ==> b[i] == Utf8Char(c)[i];
    assert n / 0x40 / 0x40 == n / 0x1000;
    assert n / 0x1000 / 0x40 == n / 0x40000;
  }

  lemma {:induction false} Utf8Injective(a: string, b: string)
    requires Utf8(a) == Utf8(b)
    ensures a == b
  {
    if a != "" && b != "" {
      Utf8FirstOf(a[0], Utf8(a[1..]));
      Utf8FirstOf(b[0], Utf8(b[1..]));
      assert a[0] == b[0];
      var n := |Utf8Char(a[0])|;
      assert Utf8(a)[n..] == Utf8(a[1..]) && Utf8(b)[n..] == Utf8(b[1..]);
      Utf8Injective(a[1..], b[1..]);
      assert a == [a[0]] + a[1..] && b == [b[0]] + b[1..];
    }
  }
}
