/**
 Java strings as sequences of UTF-16 code units, with the few `java.lang.String`
 operations the generator relies on: `trim()`, the blank test built on it, and
 the decimal rendering of a non-negative `int` that string concatenation uses.
 */
module JavaText {

  /** One UTF-16 code unit (a Java `char`). Unpaired surrogates are ordinary values. */
  newtype u16 = x: int | 0 <= x < 0x1_0000

  /** A Java `String`: its code units, in order. */
  type Text = seq<u16>

  /** A Java reference that may be `null`. */
  datatype Option<+T> = None | Some(value: T)

  // Code units the generator names explicitly.
  const Tab: u16 := 9
  const LineFeed: u16 := 10
  const CarriageReturn: u16 := 13
  const Space: u16 := 32
  const DoubleQuote: u16 := 34
  const SingleQuote: u16 := 39
  const Zero: u16 := 48
  const Backslash: u16 := 92
  const Tilde: u16 := 126

  /** The code units of a Dafny string literal; used only for the fixed ASCII fragments of the generated code. */
  function Str(s: string): (t: Text)
    ensures |t| == |s|
    ensures forall i :: 0 <= i < |s| ==> t[i] as int == s[i] as int % 0x1_0000
  {
    seq(|s|, i requires 0 <= i < |s| => (s[i] as int % 0x1_0000) as u16)
  }

  /** `n` space characters; nothing when `n` is zero or negative. */
  function Spaces(n: int): (t: Text)
    ensures |t| == if n > 0 then n else 0
    ensures forall i :: 0 <= i < |t| ==> t[i] == Space
  {
    if n <= 0 then [] else [Space] + Spaces(n - 1)
  }

  /** Java's `trim()` treats every code unit up to and including the space as white space. */
  predicate IsTrimmable(c: u16) {
    c <= Space
  }

  /** Drops the leading trimmable units. */
  function TrimStart(s: Text): (r: Text)
    ensures |r| <= |s|
    ensures r == s[|s| - |r|..]
    ensures forall k :: 0 <= k < |s| - |r| ==> IsTrimmable(s[k])
    ensures |r| == 0 || !IsTrimmable(r[0])
  {
    if |s| > 0 && IsTrimmable(s[0]) then TrimStart(s[1..]) else s
  }

  /** Drops the trailing trimmable units. */
  function TrimEnd(s: Text): (r: Text)
    ensures |r| <= |s|
    ensures r == s[..|r|]
    ensures forall k :: |r| <= k < |s| ==> IsTrimmable(s[k])
    ensures |r| == 0 || !IsTrimmable(r[|r| - 1])
  {
    if |s| > 0 && IsTrimmable(s[|s| - 1]) then TrimEnd(s[..|s| - 1]) else s
  }

  /**
   `String.trim()`: the leading and then the trailing trimmable units are
   removed, and what is left neither starts nor ends with one.
   */
  function Trim(s: Text): (r: Text)
    ensures |r| == 0 || (!IsTrimmable(r[0]) && !IsTrimmable(r[|r| - 1]))
    ensures |r| <= |TrimStart(s)| && r == TrimStart(s)[..|r|]
    ensures forall k :: |r| <= k < |TrimStart(s)| ==> IsTrimmable(TrimStart(s)[k])
  {
    TrimEnd(TrimStart(s))
  }

  /** Trimming leaves nothing exactly when every unit is at or below the space. */
  lemma TrimEmptyIffAllTrimmable(s: Text)
    ensures |Trim(s)| == 0 <==> forall k :: 0 <= k < |s| ==> IsTrimmable(s[k])
  {
    var t := TrimStart(s);
    if forall k :: 0 <= k < |s| ==> IsTrimmable(s[k]) {
      if |t| > 0 {
        assert false;
      }
    }
    if |Trim(s)| == 0 {
      assert |TrimEnd(t)| == 0;
    }
  }

  /** The blank test applied to the names and the prefix: trimming leaves nothing, that is, no unit is above the space. */
  function IsBlank(s: Text): (b: bool)
    ensures b <==> forall k :: 0 <= k < |s| ==> IsTrimmable(s[k])
  {
    TrimEmptyIffAllTrimmable(s);
    |Trim(s)| == 0
  }

  /** `Trim` is the only text meeting its contract: removing trimmable units from the ends is determined. */
  lemma TrimUnique(s: Text, r: Text)
    requires |r| == 0 || (!IsTrimmable(r[0]) && !IsTrimmable(r[|r| - 1]))
    requires |r| <= |TrimStart(s)| && r == TrimStart(s)[..|r|]
    requires forall k :: |r| <= k < |TrimStart(s)| ==> IsTrimmable(TrimStart(s)[k])
    ensures r == Trim(s)
  {
    var t := TrimStart(s);
    var q := Trim(s);
    assert |q| > 0 ==> !IsTrimmable(t[|q| - 1]) by {
      if |q| > 0 { assert q[|q| - 1] == t[|q| - 1]; }
    }
    assert |r| > 0 ==> !IsTrimmable(t[|r| - 1]) by {
      if |r| > 0 { assert r[|r| - 1] == t[|r| - 1]; }
    }
    assert |q| == |r|;
  }

  /** Trimming is idempotent: a trimmed text is its own trimmed value. */
  lemma TrimIdempotent(s: Text)
    ensures Trim(Trim(s)) == Trim(s)
  {
  }

  /** The decimal digit for `d`. */
  function Digit(d: nat): (c: u16)
    requires d < 10
    ensures Zero <= c <= Zero + 9 && (c - Zero) as int == d
  {
    Zero + d as u16
  }

  /** How Java renders a non-negative `int` in string concatenation: no sign, no leading zeros. */
  function Decimal(n: nat): (t: Text)
    ensures |t| >= 1
    ensures forall i :: 0 <= i < |t| ==> Zero <= t[i] <= Zero + 9
    ensures |t| == 1 || t[0] != Zero
  {
    if n < 10 then [Digit(n)] else Decimal(n / 10) + [Digit(n % 10)]
  }

  /** The rendering reads back as `n`. */
  lemma {:induction false} DecimalRoundTrip(n: nat)
    ensures ParseDecimal(Decimal(n)) == n
  {
    if n >= 10 {
      DecimalRoundTrip(n / 10);
      var t := Decimal(n);
      assert t[..|t| - 1] == Decimal(n / 10);
    }
  }

  /** The value of a run of decimal digits, most significant first. */
  function ParseDecimal(t: Text): nat {
    if |t| == 0 then 0
    else 10 * ParseDecimal(t[..|t| - 1]) + (if Zero <= t[|t| - 1] <= Zero + 9 then (t[|t| - 1] - Zero) as nat else 0)
  }

  /** Distinct numbers render differently, so `prefix + n` names never collide. */
  lemma DecimalInjective(prefix: Text, m: nat, n: nat)
    ensures prefix + Decimal(m) == prefix + Decimal(n) <==> m == n
  {
    if prefix + Decimal(m) == prefix + Decimal(n) {
      DecimalRoundTrip(m);
      DecimalRoundTrip(n);
      assert Decimal(m) == (prefix + Decimal(m))[|prefix|..];
      assert Decimal(n) == (prefix + Decimal(n))[|prefix|..];
    }
  }
}
