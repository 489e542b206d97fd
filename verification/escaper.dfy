/**
 `escapeJavaLiteralText`: rewrites each code unit of a text so that the result
 can sit between the double quotes of a Java string literal. The output is
 printable ASCII only; everything else travels as a `\uXXXX` escape.
 */
module Escaper {
  import opened JavaText

  // The letters the escaper writes after a backslash.
  const LetterN: u16 := 110
  const LetterR: u16 := 114
  const LetterT: u16 := 116
  const LetterU: u16 := 117

  /** Printable ASCII: the only units that appear in escaped text. */
  predicate IsPrintableAscii(c: u16) {
    Space <= c <= Tilde
  }

  /** The five units with a two-character escape. */
  predicate HasShortEscape(c: u16) {
    c == Backslash || c == DoubleQuote || c == LineFeed || c == CarriageReturn || c == Tab
  }

  /** A lowercase hexadecimal digit `0-9a-f`. */
  predicate IsLowerHexDigit(c: u16) {
    (Zero <= c <= Zero + 9) || (97 <= c <= 102)
  }

  /** A hexadecimal digit as the Java lexer reads it, either case. */
  predicate IsHexDigit(c: u16) {
    IsLowerHexDigit(c) || (65 <= c <= 70)
  }

  /** The value of a hexadecimal digit. */
  function HexValue(c: u16): (v: nat)
    requires IsHexDigit(c)
    ensures v < 16
  {
    if c <= Zero + 9 then (c - Zero) as nat
    else if c >= 97 then (c - 87) as nat
    else (c - 55) as nat
  }

  /** The digit the escaper writes for nibble `n`: `'0' + n` below ten, `87 + n` (that is `'a' + n - 10`) above. */
  function HexDigit(n: nat): (c: u16)
    requires n < 16
    ensures IsLowerHexDigit(c) && HexValue(c) == n
  {
    if n < 10 then Zero + n as u16 else (87 + n) as u16
  }

  /** The value of four hexadecimal digits, most significant first. */
  function HexValue4(t: Text): (v: nat)
    requires |t| == 4 && forall i :: 0 <= i < 4 ==> IsHexDigit(t[i])
    ensures v < 0x1_0000
  {
    4096 * HexValue(t[0]) + 256 * HexValue(t[1]) + 16 * HexValue(t[2]) + HexValue(t[3])
  }

  /**
   The four nibbles of a unit, most significant first, as lowercase digits: the
   source extracts them as `(c & 0xf000) >> 12`, `(c & 0x0f00) >> 8`,
   `(c & 0x00f0) >> 4` and `c & 0x000f`.
   */
  function HexDigits4(c: u16): (t: Text)
    ensures |t| == 4
    ensures forall i :: 0 <= i < 4 ==> IsLowerHexDigit(t[i])
    ensures HexValue4(t) == c as int
  {
    var q1 := c as int / 16;
    var q2 := q1 / 16;
    var q3 := q2 / 16;
    [HexDigit(q3), HexDigit(q2 % 16), HexDigit(q1 % 16), HexDigit(c as int % 16)]
  }

  /** The escape of one code unit; the first matching rule wins. */
  function EscapeUnit(c: u16): (r: Text)
    ensures 1 <= |r| <= 6
    ensures forall i :: 0 <= i < |r| ==> IsPrintableAscii(r[i])
    ensures |r| == 1 <==> IsPrintableAscii(c) && c != Backslash && c != DoubleQuote
    ensures |r| == 1 ==> r == [c]
    ensures HasShortEscape(c) <==> |r| == 2
    ensures HasShortEscape(c) ==> r[0] == Backslash && r[1] != LetterU
    ensures |r| == 6 <==> !IsPrintableAscii(c) && !HasShortEscape(c)
    ensures |r| == 6 ==> r[..2] == [Backslash, LetterU]
    ensures |r| == 6 ==> forall i :: 2 <= i < 6 ==> IsLowerHexDigit(r[i])
    ensures |r| == 6 ==> HexValue4(r[2..]) == c as int
  {
    if c == Backslash then [Backslash, Backslash]
    else if c == DoubleQuote then [Backslash, DoubleQuote]
    else if c == LineFeed then [Backslash, LetterN]
    else if c == CarriageReturn then [Backslash, LetterR]
    else if c == Tab then [Backslash, LetterT]
    else if c < Space || c > Tilde then [Backslash, LetterU] + HexDigits4(c)
    else [c]
  }

  /** `escapeJavaLiteralText` on a non-null string: the unit escapes, concatenated in order. */
  function Escape(s: Text): (r: Text)
    ensures |s| <= |r| <= 6 * |s|
    ensures forall i :: 0 <= i < |r| ==> IsPrintableAscii(r[i])
  {
    if |s| == 0 then [] else EscapeUnit(s[0]) + Escape(s[1..])
  }

  /** `escapeJavaLiteralText` itself: `null` in, `null` out; otherwise the escape. */
  function EscapeNullable(input: Option<Text>): (r: Option<Text>)
    ensures r.None? <==> input.None?
    ensures r.Some? ==> |input.value| <= |r.value| <= 6 * |input.value|
    ensures r.Some? ==> forall i :: 0 <= i < |r.value| ==> IsPrintableAscii(r.value[i])
  {
    match input
    case None => None
    case Some(s) => Some(Escape(s))
  }

  /** A text of printable ASCII comes back unchanged unless it holds a backslash or a quote. */
  lemma {:induction false} EscapeIdentityOnPlainAscii(s: Text)
    ensures Escape(s) == s <==>
      forall i :: 0 <= i < |s| ==> IsPrintableAscii(s[i]) && s[i] != Backslash && s[i] != DoubleQuote
  {
    if |s| > 0 {
      EscapeIdentityOnPlainAscii(s[1..]);
      var e := EscapeUnit(s[0]);
      if Escape(s) == s {
        assert |e| == 1 by {
          assert |Escape(s[1..])| >= |s| - 1;
        }
        assert e == Escape(s)[..1];
        assert Escape(s[1..]) == s[1..] by {
          assert Escape(s[1..]) == Escape(s)[1..];
        }
      }
    }
  }

  /** Escaping distributes over concatenation: it works unit by unit, with no look-ahead. */
  lemma {:induction false} EscapeConcat(a: Text, b: Text)
    ensures Escape(a + b) == Escape(a) + Escape(b)
  {
    if |a| == 0 {
      assert a + b == b;
    } else {
      assert (a + b)[1..] == a[1..] + b;
      EscapeConcat(a[1..], b);
    }
  }
}
