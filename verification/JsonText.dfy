/** JSON string literals over UTF-16 code units, as JSON.stringify writes them. */
module JsonText {
  type CodeUnit = x: int | 0 <= x < 0x1_0000
  type Text = seq<CodeUnit>

  const QUOTE: CodeUnit := 0x22
  const BACKSLASH: CodeUnit := 0x5C
  const LETTER_U: CodeUnit := 0x75

  predicate Lead(c: CodeUnit) { 0xD800 <= c <= 0xDBFF }

  predicate Trail(c: CodeUnit) { 0xDC00 <= c <= 0xDFFF }

  function HexDigit(n: int): CodeUnit
    requires 0 <= n < 16
  {
    if n < 10 then 0x30 + n else 0x57 + n
  }

  function HexValue(c: CodeUnit): (n: int)
    ensures 0 <= n < 16
  {
    if 0x30 <= c <= 0x39 then c - 0x30 else if 0x61 <= c <= 0x66 then c - 0x57 else 0
  }

  function UnicodeEscape(c: CodeUnit): (r: Text)
    ensures |r| == 6
  {
    [BACKSLASH, LETTER_U, HexDigit(c / 0x1000), HexDigit(c / 0x100 % 0x10), HexDigit(c / 0x10 % 0x10),
     HexDigit(c % 0x10)]
  }

  /** The letter of a two-character escape, or 0. */
  function ShortEscape(c: CodeUnit): CodeUnit {
    if c == 0x08 then 0x62
    else if c == 0x09 then 0x74
    else if c == 0x0A then 0x6E
    else if c == 0x0C then 0x66
    else if c == 0x0D then 0x72
    else if c == QUOTE || c == BACKSLASH then c
    else 0
  }

  function FromShortEscape(letter: CodeUnit): CodeUnit {
    if letter == 0x62 then 0x08
    else if letter == 0x74 then 0x09
    else if letter == 0x6E then 0x0A
    else if letter == 0x66 then 0x0C
    else if letter == 0x72 then 0x0D
    else letter
  }

  /** One code unit that is not half of a surrogate pair. */
  function EscapeUnit(c: CodeUnit): (r: Text)
    ensures |r| > 0
  {
    if ShortEscape(c) != 0 then [BACKSLASH, ShortEscape(c)]
    else if c < 0x20 || Lead(c) || Trail(c) then UnicodeEscape(c)
    else [c]
  }

  function Escape(s: Text): Text {
    if |s| == 0 then []
    else if |s| > 1 && Lead(s[0]) && Trail(s[1]) then [s[0], s[1]] + Escape(s[2..])
    else EscapeUnit(s[0]) + Escape(s[1..])
  }

  function Quote(s: Text): (r: Text)
    ensures |r| >= 2 && r[0] == QUOTE
  {
    [QUOTE] + Escape(s) + [QUOTE]
  }

  // ----- reading a literal back -----

  /** The code unit at the front of an escaped text, and how much of the text it takes. */
  function ReadUnit(x: Text): (r: (CodeUnit, nat))
    requires |x| > 0
    ensures 1 <= r.1 <= |x|
  {
    if x[0] != BACKSLASH || |x| < 2 then (x[0], 1)
    else if x[1] != LETTER_U then (FromShortEscape(x[1]), 2)
    else if |x| < 6 then (x[0], 1)
    else (HexValue(x[2]) * 0x1000 + HexValue(x[3]) * 0x100 + HexValue(x[4]) * 0x10 + HexValue(x[5]), 6)
  }

  /** The text up to the closing quote, and what follows it. */
  function Unescape(x: Text): (r: (Text, Text))
    ensures |r.1| <= |x|
    decreases |x|
  {
    if |x| == 0 then ([], [])
    else if x[0] == QUOTE then ([], x[1..])
    else
      var (c, n) := ReadUnit(x);
      var (s, rest) := Unescape(x[n..]);
      ([c] + s, rest)
  }

  lemma {:induction false} HexDigits(c: CodeUnit)
    ensures c / 0x1000 * 0x1000 + c / 0x100 % 0x10 * 0x100 + c / 0x10 % 0x10 * 0x10 + c % 0x10 == c
  {
    var q1, q2, q3 := c / 0x10, c / 0x100, c / 0x1000;
    assert q2 == q1 / 0x10 && q3 == q2 / 0x10;
    assert q1 == q2 * 0x10 + q1 % 0x10 && q2 == q3 * 0x10 + q2 % 0x10;
  }

  lemma {:induction false} HexInverse(n: int)
    requires 0 <= n < 16
    ensures HexValue(HexDigit(n)) == n
  {
  }

  lemma {:induction false} HexRoundTrip(c: CodeUnit)
    ensures var e := UnicodeEscape(c);
            HexValue(e[2]) * 0x1000 + HexValue(e[3]) * 0x100 + HexValue(e[4]) * 0x10 + HexValue(e[5]) == c
  {
    hide HexValue, HexDigit;
    HexDigits(c);
    HexInverse(c / 0x1000);
    HexInverse(c / 0x100 % 0x10);
    HexInverse(c / 0x10 % 0x10);
    HexInverse(c % 0x10);
  }

  lemma {:induction false} ReadEscaped(c: CodeUnit, rest: Text)
    ensures ReadUnit(EscapeUnit(c) + rest) == (c, |EscapeUnit(c)|)
    ensures EscapeUnit(c)[0] != QUOTE
  {
    HexRoundTrip(c);
  }

  // One unit read off the front; the rest reads as before.
  lemma {:induction false} UnescapeStep(head: Text, c: CodeUnit, tail: Text)
    requires |head| > 0 && head[0] != QUOTE && ReadUnit(head + tail) == (c, |head|)
    ensures Unescape(head + tail) == ([c] + Unescape(tail).0, Unescape(tail).1)
  {
    hide ReadUnit;
    assert (head + tail)[|head|..] == tail && (head + tail)[0] == head[0];
  }

  lemma {:induction false} Regroup(a: Text, b: Text, c: Text, d: Text)
    ensures a + b + c + d == a + (b + c + d)
  {
  }

  lemma {:induction false} UnescapeEnd(rest: Text)
    ensures Unescape([] + [QUOTE] + rest) == ([], rest)
  {
    assert ([] + [QUOTE] + rest)[1..] == rest;
  }

  /** Reading a written literal gives back the text and leaves the rest. */
  lemma {:induction false} QuoteRoundTrip(s: Text, rest: Text)
    ensures Unescape(Escape(s) + [QUOTE] + rest) == (s, rest)
    decreases |s|
  {
    hide EscapeUnit, ReadUnit, Unescape;
    if |s| == 0 {
      UnescapeEnd(rest);
    } else if |s| > 1 && Lead(s[0]) && Trail(s[1]) {
      QuoteRoundTrip(s[2..], rest);
      Regroup([s[0], s[1]], Escape(s[2..]), [QUOTE], rest);
      PairRead(s[0], s[1], Escape(s[2..]) + [QUOTE] + rest);
      assert s == [s[0], s[1]] + s[2..];
    } else {
      QuoteRoundTrip(s[1..], rest);
      Regroup(EscapeUnit(s[0]), Escape(s[1..]), [QUOTE], rest);
      ReadEscaped(s[0], Escape(s[1..]) + [QUOTE] + rest);
      UnescapeStep(EscapeUnit(s[0]), s[0], Escape(s[1..]) + [QUOTE] + rest);
      assert s == [s[0]] + s[1..];
    }
  }

  lemma {:induction false} PairRead(hi: CodeUnit, lo: CodeUnit, tail: Text)
    requires Lead(hi) && Trail(lo)
    ensures Unescape([hi, lo] + tail) == ([hi, lo] + Unescape(tail).0, Unescape(tail).1)
  {
    hide Unescape, ReadUnit;
    assert [hi, lo] + tail == [hi] + ([lo] + tail);
    ReadRaw([hi] + ([lo] + tail));
    UnescapeStep([hi], hi, [lo] + tail);
    ReadRaw([lo] + tail);
    UnescapeStep([lo], lo, tail);
    assert [hi] + ([lo] + Unescape(tail).0) == [hi, lo] + Unescape(tail).0;
  }

  lemma {:induction false} ReadRaw(x: Text)
    requires |x| > 0 && (Lead(x[0]) || Trail(x[0]))
    ensures ReadUnit(x) == (x[0], 1) && x[0] != QUOTE
  {
  }

  /** Two written literals that start the same text are the same literal. */
  lemma {:induction false} QuoteUnique(s: Text, t: Text, r: Text, r': Text)
    requires Quote(s) + r == Quote(t) + r'
    ensures s == t && r == r'
  {
    hide Escape, Unescape;
    QuoteRoundTrip(s, r);
    QuoteRoundTrip(t, r');
    Regroup([QUOTE], Escape(s), [QUOTE], r);
    Regroup([QUOTE], Escape(t), [QUOTE], r');
    assert (Quote(s) + r)[1..] == Escape(s) + [QUOTE] + r;
    assert (Quote(t) + r')[1..] == Escape(t) + [QUOTE] + r';
  }
}
