/** The UTF-8 encoding of texts: its length, and that comparing texts is comparing their bytes. */
module Utf8 {
  import opened Ordering

  type Byte = x: int | 0 <= x < 0x100

  /** The bytes of one character (section 3 of RFC 3629). */
  function EncodeChar(c: char): (r: seq<Byte>)
    ensures |r| > 0
  {
    var n := c as int;
    if n < 0x80 then [n]
    else if n < 0x800 then [0xC0 + n / 0x40, 0x80 + n % 0x40]
    else if n < 0x1_0000 then [0xE0 + n / 0x1000, 0x80 + n / 0x40 % 0x40, 0x80 + n % 0x40]
    else [0xF0 + n / 0x4_0000, 0x80 + n / 0x1000 % 0x40, 0x80 + n / 0x40 % 0x40, 0x80 + n % 0x40]
  }

  function Encode(s: string): seq<Byte> {
    if |s| == 0 then [] else EncodeChar(s[0]) + Encode(s[1..])
  }

  /** Lexicographic order of bytes, as the database and the language compare strings. */
  predicate BytesLess(a: seq<Byte>, b: seq<Byte>)
    decreases |a|
  {
    if |b| == 0 then false
    else if |a| == 0 then true
    else if a[0] != b[0] then a[0] < b[0]
    else BytesLess(a[1..], b[1..])
  }

  /** The length that bounds keys and names is the number of bytes. */
  lemma {:induction false} LengthInBytes(s: string)
    ensures |Encode(s)| == Utf8Length(s)
    decreases |s|
  {
    if |s| > 0 { LengthInBytes(s[1..]); }
  }

  /** Both sequences go on, alike up to `i`, and then the first has the smaller byte. */
  ghost predicate SmallerAt(a: seq<Byte>, b: seq<Byte>, i: nat) {
    i < |a| && i < |b| && a[..i] == b[..i] && a[i] < b[i]
  }

  lemma {:induction false} SmallerCharSmallerBytes(c: char, d: char) returns (i: nat)
    requires c < d
    ensures SmallerAt(EncodeChar(c), EncodeChar(d), i)
  {
    var m, n := c as int, d as int;
    var a, b := EncodeChar(c), EncodeChar(d);
    if |a| != |b| || |a| == 1 || a[0] != b[0] {
      FirstByte(c, d);
      i := 0;
    } else {
      i := LaterByte(c, d);
    }
  }

  lemma {:induction false} FirstByte(c: char, d: char)
    requires c < d
    requires |EncodeChar(c)| != |EncodeChar(d)| || |EncodeChar(c)| == 1 || EncodeChar(c)[0] != EncodeChar(d)[0]
    ensures SmallerAt(EncodeChar(c), EncodeChar(d), 0)
  {
  }

  // Characters of the same length and first byte differ, upwards, in a later byte.
  lemma {:induction false} LaterByte(c: char, d: char) returns (i: nat)
    requires c < d && |EncodeChar(c)| == |EncodeChar(d)| > 1 && EncodeChar(c)[0] == EncodeChar(d)[0]
    ensures SmallerAt(EncodeChar(c), EncodeChar(d), i)
  {
    var m, n := c as int, d as int;
    var a, b := EncodeChar(c), EncodeChar(d);
    Digits(m);
    Digits(n);
    i := if a[1] != b[1] then 1 else if a[2] != b[2] then 2 else 3;
    assert i == 2 ==> a[..2] == b[..2];
    assert i == 3 ==> a[..3] == b[..3];
  }

  lemma {:induction false} Digits(n: int)
    requires n >= 0
    ensures n == n / 0x40 * 0x40 + n % 0x40
    ensures n / 0x40 == n / 0x1000 * 0x40 + n / 0x40 % 0x40
    ensures n / 0x1000 == n / 0x4_0000 * 0x40 + n / 0x1000 % 0x40
  {
    assert n / 0x40 / 0x40 == n / 0x1000;
    assert n / 0x1000 / 0x40 == n / 0x4_0000;
  }

  lemma {:induction false} SmallerExtends(a: seq<Byte>, b: seq<Byte>, i: nat, x: seq<Byte>, y: seq<Byte>)
    requires SmallerAt(a, b, i)
    ensures BytesLess(a + x, b + y) && !BytesLess(b + y, a + x)
    decreases i
  {
    if i > 0 {
      assert a[0] == a[..i][0] && b[0] == b[..i][0];
      assert a[1..][..i - 1] == a[..i][1..] && b[1..][..i - 1] == b[..i][1..];
      SmallerExtends(a[1..], b[1..], i - 1, x, y);
      assert (a + x)[1..] == a[1..] + x && (b + y)[1..] == b[1..] + y;
    }
  }

  lemma {:induction false} SamePrefix(p: seq<Byte>, x: seq<Byte>, y: seq<Byte>)
    ensures BytesLess(p + x, p + y) <==> BytesLess(x, y)
    decreases |p|
  {
    if |p| == 0 {
      assert p + x == x && p + y == y;
    } else {
      SamePrefix(p[1..], x, y);
      assert (p + x)[1..] == p[1..] + x && (p + y)[1..] == p[1..] + y;
    }
  }

  /** Comparing texts is comparing their encodings byte by byte. */
  lemma {:induction false} TextOrderIsByteOrder(a: string, b: string)
    ensures TextLess(a, b) <==> BytesLess(Encode(a), Encode(b))
    decreases |a|
  {
    hide EncodeChar;
    if |a| > 0 && |b| > 0 {
      if a[0] == b[0] {
        TextOrderIsByteOrder(a[1..], b[1..]);
        SamePrefix(EncodeChar(a[0]), Encode(a[1..]), Encode(b[1..]));
      } else if a[0] < b[0] {
        var i := SmallerCharSmallerBytes(a[0], b[0]);
        SmallerExtends(EncodeChar(a[0]), EncodeChar(b[0]), i, Encode(a[1..]), Encode(b[1..]));
      } else {
        var i := SmallerCharSmallerBytes(b[0], a[0]);
        SmallerExtends(EncodeChar(b[0]), EncodeChar(a[0]), i, Encode(b[1..]), Encode(a[1..]));
      }
    }
  }
}
