/**
 How a Java compiler reads the text between the quotes of a string literal,
 following the Java Language Specification, Java SE 8 edition: first the
 Unicode escapes of section 3.3 are translated, then the string characters and
 escape sequences of sections 3.10.5 and 3.10.6 are decoded. This is the
 inverse the escaper is written against.
 */
module JavaLiteral {
  import opened JavaText
  import opened Escaper

  /** Prepends `p` to a successful decoding; an error stays an error. */
  function Prepend(p: Text, o: Option<Text>): (r: Option<Text>)
    ensures r.Some? <==> o.Some?
    ensures r.Some? ==> r.value == p + o.value
  {
    match o
    case None => None
    case Some(t) => Some(p + t)
  }

  /** The number of `u` units at the front of `t`. */
  function LeadingUs(t: Text): (n: nat)
    ensures n <= |t|
    ensures forall i :: 0 <= i < n ==> t[i] == LetterU
    ensures n == |t| || t[n] != LetterU
  {
    if |t| > 0 && t[0] == LetterU then 1 + LeadingUs(t[1..]) else 0
  }

  /**
   Section 3.3: an eligible backslash (one preceded by an even number of raw
   backslashes) followed by one or more `u` and four hexadecimal digits stands
   for the unit those digits encode; an eligible backslash followed by `u` and
   anything else is a compile-time error (`None`). Scanning left to right and
   passing `\\` through as a pair keeps track of eligibility.
   */
  function TranslateUnicodeEscapes(t: Text): (r: Option<Text>)
    decreases |t|
  {
    if |t| == 0 then Some([])
    else if t[0] == Backslash && |t| >= 2 && t[1] == Backslash then
      Prepend([Backslash, Backslash], TranslateUnicodeEscapes(t[2..]))
    else if t[0] == Backslash && |t| >= 2 && t[1] == LetterU then
      var k := LeadingUs(t[1..]);
      if 1 + k + 4 <= |t| && (forall i :: 1 + k <= i < 1 + k + 4 ==> IsHexDigit(t[i])) then
        Prepend([HexValue4(t[1 + k..1 + k + 4]) as u16], TranslateUnicodeEscapes(t[1 + k + 4..]))
      else None
    else Prepend([t[0]], TranslateUnicodeEscapes(t[1..]))
  }

  /** The unit a one-letter escape sequence of section 3.10.6 denotes, if `c` names one. */
  function SimpleEscape(c: u16): Option<u16> {
    if c == 98 then Some(8)                          // \b
    else if c == LetterT then Some(Tab)              // \t
    else if c == LetterN then Some(LineFeed)         // \n
    else if c == 102 then Some(12)                   // \f
    else if c == LetterR then Some(CarriageReturn)   // \r
    else if c == DoubleQuote then Some(DoubleQuote)  // \"
    else if c == SingleQuote then Some(SingleQuote)  // \'
    else if c == Backslash then Some(Backslash)      // \\
    else None
  }

  predicate IsOctalDigit(c: u16) {
    Zero <= c <= Zero + 7
  }

  /**
   The length of the octal escape digits at the front of `t` (`t[0]` is an
   octal digit): three digits only when the first is `0`-`3`, longest match.
   */
  function OctalLength(t: Text): (n: nat)
    requires |t| >= 1 && IsOctalDigit(t[0])
    ensures 1 <= n <= 3 && n <= |t|
    ensures forall i :: 0 <= i < n ==> IsOctalDigit(t[i])
  {
    if |t| >= 2 && IsOctalDigit(t[1]) then
      if t[0] <= Zero + 3 && |t| >= 3 && IsOctalDigit(t[2]) then 3 else 2
    else 1
  }

  function OctalValue(t: Text): (v: nat)
    requires forall i :: 0 <= i < |t| ==> IsOctalDigit(t[i])
  {
    if |t| == 0 then 0
    else
      var d := t[|t| - 1];
      assert IsOctalDigit(d);
      8 * OctalValue(t[..|t| - 1]) + (d as nat - 48)
  }

  /**
   Sections 3.10.5 and 3.10.6, applied after Unicode escapes are translated: a
   raw double quote ends the literal and a raw line terminator is not allowed
   inside it (both `None` here, as the body must be the whole literal); a
   backslash must start an escape sequence; every other unit stands for itself.
   */
  function DecodeEscapeSequences(t: Text): (r: Option<Text>)
    decreases |t|
  {
    if |t| == 0 then Some([])
    else if t[0] == DoubleQuote || t[0] == LineFeed || t[0] == CarriageReturn then None
    else if t[0] == Backslash then
      if |t| < 2 then None
      else if SimpleEscape(t[1]).Some? then
        Prepend([SimpleEscape(t[1]).value], DecodeEscapeSequences(t[2..]))
      else if IsOctalDigit(t[1]) then
        var n := OctalLength(t[1..]);
        var v := OctalValue(t[1..1 + n]);
        assert v < 0x1_0000 by { OctalValueBound(t[1..1 + n]); }
        Prepend([v as u16], DecodeEscapeSequences(t[1 + n..]))
      else None
    else Prepend([t[0]], DecodeEscapeSequences(t[1..]))
  }

  /** At most three octal digits encode at most 0o777, well inside a code unit. */
  lemma {:induction false} OctalValueBound(t: Text)
    requires |t| <= 3 && forall i :: 0 <= i < |t| ==> IsOctalDigit(t[i])
    ensures OctalValue(t) < (if |t| == 0 then 1 else if |t| == 1 then 8 else if |t| == 2 then 64 else 512)
  {
    if |t| > 0 {
      OctalValueBound(t[..|t| - 1]);
    }
  }

  /** The string a Java compiler makes of the text between a literal's quotes, or `None` for a compile-time error. */
  function DecodeBody(t: Text): Option<Text> {
    match TranslateUnicodeEscapes(t)
    case None => None
    case Some(u) => DecodeEscapeSequences(u)
  }

  /** `"` + body + `"`: how the generator quotes an escaped text. */
  function Quoted(body: Text): (lit: Text)
    ensures |lit| == |body| + 2
    ensures lit[0] == DoubleQuote && lit[|lit| - 1] == DoubleQuote
    ensures lit[1..|lit| - 1] == body
  {
    [DoubleQuote] + body + [DoubleQuote]
  }

  /** The string value of a whole literal `"…"`, or `None` if it is not a well-formed literal. */
  function LiteralValue(lit: Text): Option<Text> {
    if |lit| >= 2 && lit[0] == DoubleQuote && lit[|lit| - 1] == DoubleQuote then DecodeBody(lit[1..|lit| - 1])
    else None
  }

  /**
   What the Unicode-escape pass leaves of one escaped unit: the two-character
   escape for the five units that have one, the unit itself otherwise.
   */
  function AfterUnicodePass(c: u16): (r: Text)
    ensures |r| == 1 ==> r == [c]
  {
    if HasShortEscape(c) then EscapeUnit(c) else [c]
  }

  /** The Unicode-escape pass turns each unit's escape back into `AfterUnicodePass`, independently of what follows. */
  lemma TranslateEscapedUnit(c: u16, rest: Text)
    ensures TranslateUnicodeEscapes(EscapeUnit(c) + rest)
         == Prepend(AfterUnicodePass(c), TranslateUnicodeEscapes(rest))
  {
    var e := EscapeUnit(c);
    var t := e + rest;
    if c == Backslash {
      assert t[2..] == rest;
    } else if HasShortEscape(c) {
      assert t[1..] == [e[1]] + rest;
      assert t[1..][1..] == rest;
      match TranslateUnicodeEscapes(rest)
      case None =>
      case Some(v) => assert [Backslash] + ([e[1]] + v) == e + v;
    } else if |e| == 6 {
      assert t[1..][0] == LetterU && t[1..][1] == e[2];
      assert LeadingUs(t[1..]) == 1 by {
        assert LeadingUs(t[1..][1..]) == 0;
      }
      assert t[2..6] == e[2..];
      assert t[6..] == rest;
    } else {
      assert t[1..] == rest;
    }
  }

  /** Decoding the escape sequences of one unit's residue gives back that unit, independently of what follows. */
  lemma DecodeResidueUnit(c: u16, rest: Text)
    ensures DecodeEscapeSequences(AfterUnicodePass(c) + rest)
         == Prepend([c], DecodeEscapeSequences(rest))
  {
    var t := AfterUnicodePass(c) + rest;
    if HasShortEscape(c) {
      var e := EscapeUnit(c);
      assert t[0] == Backslash && t[1] == e[1];
      assert SimpleEscape(e[1]) == Some(c);
      assert t[2..] == rest;
    } else {
      assert t[0] == c && t[1..] == rest;
    }
  }

  /** The residue of a whole escaped text after the Unicode-escape pass. */
  function AfterUnicodePassAll(s: Text): Text {
    if |s| == 0 then [] else AfterUnicodePass(s[0]) + AfterUnicodePassAll(s[1..])
  }

  lemma {:induction false} TranslateEscaped(s: Text)
    ensures TranslateUnicodeEscapes(Escape(s)) == Some(AfterUnicodePassAll(s))
  {
    if |s| > 0 {
      TranslateEscaped(s[1..]);
      TranslateEscapedUnit(s[0], Escape(s[1..]));
    }
  }

  lemma {:induction false} DecodeResidue(s: Text)
    ensures DecodeEscapeSequences(AfterUnicodePassAll(s)) == Some(s)
  {
    if |s| > 0 {
      DecodeResidue(s[1..]);
      DecodeResidueUnit(s[0], AfterUnicodePassAll(s[1..]));
      assert [s[0]] + s[1..] == s;
    }
  }

  /**
   The round trip: a Java compiler reading the escaped text between quotes
   gets back exactly the original code units, surrogates and all.
   */
  lemma {:induction false} DecodeEscapeRoundTrip(s: Text)
    ensures DecodeBody(Escape(s)) == Some(s)
  {
    TranslateEscaped(s);
    DecodeResidue(s);
  }

  /** The same round trip for the quoted literal the chunk emitter registers. */
  lemma QuotedEscapeRoundTrip(s: Text)
    ensures LiteralValue(Quoted(Escape(s))) == Some(s)
  {
    DecodeEscapeRoundTrip(s);
  }

  /**
   Why the line terminators and the double quote need their own escapes: in
   the `\u` form, whatever follows, the Unicode pass of section 3.3 turns them
   back into a raw line terminator or quote, so the body is not read back as
   one literal. A line terminator inside a literal is a compile-time error
   (section 3.10.5); a quote ends the literal early and the rest is read as
   code.
   */
  lemma UnicodeEscapedTerminatorRejected(c: u16, rest: Text)
    requires c == LineFeed || c == CarriageReturn || c == DoubleQuote
    ensures DecodeBody([Backslash, LetterU] + HexDigits4(c) + rest) == None
  {
    var t := [Backslash, LetterU] + HexDigits4(c) + rest;
    var h := HexDigits4(c);
    assert t[1..][0] == LetterU && t[1..][1] == h[0];
    assert LeadingUs(t[1..]) == 1 by {
      assert LeadingUs(t[1..][1..]) == 0;
    }
    assert t[2..6] == h;
    assert t[6..] == rest;
    assert TranslateUnicodeEscapes(t) == Prepend([c], TranslateUnicodeEscapes(rest));
  }
}
