/**
 `createClassForStaticText`: the generated Java source for one text. An
 optional `package`/`class` frame, then one `private static` declaration per
 chunk the emitter registered, in registration order, then the public constant
 named by the prefix whose initialiser is the emitter's expression.
 */
module ClassEmitter {
  import opened JavaText
  import opened Escaper
  import opened JavaLiteral
  import opened ChunkHelpers
  import opened Chunking

  /** The generated source, or the `NullPointerException` a `null` content raises. */
  datatype Outcome = Generated(source: Text) | NullPointerException

  predicate StartsWith(s: Text, p: Text) {
    |p| <= |s| && s[..|p|] == p
  }

  predicate EndsWith(s: Text, p: Text) {
    |p| <= |s| && s[|s| - |p|..] == p
  }

  /** The prefix used when none, or only white space, is given. */
  function DefaultPrefix(): Text {
    Str("F")
  }

  /** The prefix as the generator uses it: trimmed, or `F` when missing or blank. */
  function NormalisePrefix(prefix: Option<Text>): (p: Text)
    ensures prefix.Some? && !IsBlank(prefix.value) ==> p == Trim(prefix.value)
    ensures prefix.None? || IsBlank(prefix.value) ==> p == DefaultPrefix()
    ensures !IsBlank(p) && Trim(p) == p
  {
    if prefix.None? || IsBlank(prefix.value) then
      assert DefaultPrefix()[0] == 70;
      TrimIdempotent(DefaultPrefix());
      DefaultPrefix()
    else
      TrimIdempotent(prefix.value);
      Trim(prefix.value)
  }

  /** Normalising an already normalised prefix changes nothing. */
  lemma NormalisePrefixIdempotent(prefix: Option<Text>)
    ensures NormalisePrefix(Some(NormalisePrefix(prefix))) == NormalisePrefix(prefix)
  {
  }

  /** `exportingClassFrame`: both names present and neither blank after trimming. */
  function ExportsFrame(pkg: Option<Text>, cls: Option<Text>): (r: bool)
    ensures r <==> (pkg.Some? && cls.Some?
      && (exists k :: 0 <= k < |pkg.value| && !IsTrimmable(pkg.value[k]))
      && (exists k :: 0 <= k < |cls.value| && !IsTrimmable(cls.value[k])))
  {
    pkg.Some? && cls.Some? && !IsBlank(pkg.value) && !IsBlank(cls.value)
  }

  function PackageKeyword(): Text {
    Str("package ")
  }

  /** The frame's opening lines, with the names exactly as given. */
  function FrameOpen(pkg: Text, cls: Text): Text {
    PackageKeyword() + pkg + Str(";\n\n") + Str("public class ") + cls + Str(" {\n\n")
  }

  function FrameClose(): Text {
    Str("\n}\n")
  }

  /** The end of every generated declaration: `;` and a line feed. */
  function LineEnd(): Text {
    Str(";\n")
  }

  /** The fixed text before a chunk constant's name: the indent, the modifiers and the type's full name. */
  function DeclarationLead(): Text {
    Str("   private static ") + Str("java.lang.String") + Str(" ")
  }

  /**
   The declaration of one registry entry: three spaces of indent, `private
   static java.lang.String`, the name, ` = `, the literal, `;` and a line feed.
   DeclarationShape says where the name and the literal sit in it.
   */
  function Declaration(e: Entry): (line: Text)
    ensures |line| == |DeclarationLead()| + |e.name| + 3 + |e.literal| + 2
    ensures line[0] == Space && EndsWith(line, LineEnd())
  {
    assert DeclarationLead()[0] == Space;
    Pieces(DeclarationLead(), e.name, Str(" = "), e.literal, LineEnd());
    DeclarationLead() + e.name + Str(" = ") + e.literal + LineEnd()
  }

  /** The name follows the fixed lead, and the literal sits between ` = ` and the closing `;`. */
  lemma DeclarationShape(e: Entry)
    ensures var line := Declaration(e);
      && |DeclarationLead()| == 35
      && line[..35] == DeclarationLead()
      && line[35..35 + |e.name|] == e.name
      && line[35 + |e.name|..38 + |e.name|] == Str(" = ")
      && line[38 + |e.name|..|line| - 2] == e.literal
  {
    Pieces(DeclarationLead(), e.name, Str(" = "), e.literal, LineEnd());
  }

  lemma Pieces(a: Text, n: Text, b: Text, l: Text, c: Text)
    ensures var t := a + n + b + l + c;
      && t[..|a|] == a
      && t[|a|..|a| + |n|] == n
      && t[|a| + |n|..|a| + |n| + |b|] == b
      && t[|a| + |n| + |b|..|t| - |c|] == l
      && t[|t| - |c|..] == c
  {
  }

  /** One declaration per registry entry, in insertion order. */
  function Declarations(es: seq<Entry>): (t: Text)
    ensures |es| > 0 ==> |t| > 0 && t[0] == Space
  {
    if |es| == 0 then [] else Declaration(es[0]) + Declarations(es[1..])
  }

  /** The declarations of consecutive runs of entries are the runs' declarations, in the same order. */
  lemma {:induction false} DeclarationsAppend(a: seq<Entry>, b: seq<Entry>)
    ensures Declarations(a + b) == Declarations(a) + Declarations(b)
  {
    if |a| > 0 {
      var d := Declaration(a[0]);
      assert (a + b)[0] == a[0] && (a + b)[1..] == a[1..] + b;
      assert Declarations(a + b) == d + Declarations(a[1..] + b);
      assert Declarations(a) == d + Declarations(a[1..]);
      DeclarationsAppend(a[1..], b);
      Associate(d, Declarations(a[1..]), Declarations(b));
    } else {
      assert a + b == b;
      assert Declarations(a) == [];
      AppendNothing(Declarations(b));
    }
  }

  function PublicConstantKeyword(): Text {
    Str("public static final String ")
  }

  /**
   The combining constant: `public static final String`, the prefix, ` = `,
   the expression, `;` and a line feed. PublicConstantShape says where the
   prefix and the expression sit in it.
   */
  function PublicConstant(prefix: Text, expr: Text): (line: Text)
    ensures StartsWith(line, PublicConstantKeyword())
    ensures EndsWith(line, LineEnd())
  {
    var kw := PublicConstantKeyword();
    Pieces(kw, prefix, Str(" = "), expr, LineEnd());
    kw + prefix + Str(" = ") + expr + LineEnd()
  }

  /** The constant is named by the prefix, and its initialiser is exactly the expression. */
  lemma PublicConstantShape(prefix: Text, expr: Text)
    ensures var line := PublicConstant(prefix, expr);
      && |PublicConstantKeyword()| == 27
      && |line| == 27 + |prefix| + 3 + |expr| + 2
      && line[27..27 + |prefix|] == prefix
      && line[27 + |prefix|..30 + |prefix|] == Str(" = ")
      && line[30 + |prefix|..|line| - 2] == expr
  {
    Pieces(PublicConstantKeyword(), prefix, Str(" = "), expr, LineEnd());
  }

  /**
   The source text, given the frame names, the normalised prefix, the
   emitter's expression and the registry it filled: the frame (when both
   names are usable), one declaration per entry, the public constant, and the
   frame's closing brace.
   */
  function Assemble(pkg: Option<Text>, cls: Option<Text>, prefix: Text, expr: Text, entries: seq<Entry>): (r: Text)
    ensures ExportsFrame(pkg, cls) <==> StartsWith(r, PackageKeyword())
    ensures ExportsFrame(pkg, cls) <==> EndsWith(r, FrameClose())
    ensures ExportsFrame(pkg, cls) ==> StartsWith(r, FrameOpen(pkg.value, cls.value))
  {
    var frame := ExportsFrame(pkg, cls);
    var open := if frame then FrameOpen(pkg.value, cls.value) else [];
    var close := if frame then FrameClose() else [];
    var decls := Declarations(entries);
    var pub := PublicConstant(prefix, expr);
    if frame then
      FramedShape(open, decls, pub);
      OpenStartsWithKeyword(pkg.value, cls.value);
      open + decls + pub + close
    else
      UnframedShape(entries, prefix, expr);
      open + decls + pub + close
  }

  /**
   The generator. A `null` content fails with `NullPointerException` when the
   emitter asks for its length; otherwise the emitter runs with indent 0 on a
   new helper seeded with the normalised prefix.
   */
  function CreateClassForStaticText(b: Blocking, pkg: Option<Text>, cls: Option<Text>, prefix: Option<Text>,
                                    content: Option<Text>): (r: Outcome)
    ensures r.NullPointerException? <==> content.None?
  {
    match content
    case None => NullPointerException
    case Some(text) =>
      var p := NormalisePrefix(prefix);
      var embedded := Embed(b, 0, text, New(p));
      Generated(Assemble(pkg, cls, p, embedded.0, embedded.1.lookups))
  }

  lemma PrefixOfConcat(a: Text, b: Text, p: Text)
    requires StartsWith(a, p)
    ensures StartsWith(a + b, p)
  {
    assert (a + b)[..|p|] == a[..|p|];
  }

  lemma SuffixOfConcat(a: Text, b: Text)
    ensures EndsWith(a + b, b)
  {
    assert (a + b)[|a|..] == b;
  }

  /** Two units that differ at the front (or just before the end) rule out the prefix (or suffix). */
  lemma NotStartsWith(s: Text, p: Text, i: nat)
    requires i < |p| && i < |s| && s[i] != p[i]
    ensures !StartsWith(s, p)
  {
    if |p| <= |s| {
      assert s[..|p|][i] != p[i];
    }
  }

  lemma NotEndsWith(s: Text, p: Text, i: nat)
    requires 0 < i <= |p| && i <= |s| && s[|s| - i] != p[|p| - i]
    ensures !EndsWith(s, p)
  {
    if |p| <= |s| {
      assert s[|s| - |p|..][|p| - i] != p[|p| - i];
    }
  }

  /**
   Output without a frame cannot look framed: `package ` starts with neither
   the declarations' indent nor the public constant's keyword, and the closing
   brace is not the end of a line of code.
   */
  lemma KeywordsDiffer()
    ensures |PackageKeyword()| == 8 && PackageKeyword()[0] != Space
    ensures |PublicConstantKeyword()| == 27 && PackageKeyword()[1] != PublicConstantKeyword()[1]
    ensures |FrameClose()| == 3 && |LineEnd()| == 2 && FrameClose()[1] != LineEnd()[0]
  {
  }

  lemma OpenStartsWithKeyword(pkg: Text, cls: Text)
    ensures StartsWith(FrameOpen(pkg, cls), PackageKeyword())
  {
    var kw := PackageKeyword();
    var open := FrameOpen(pkg, cls);
    assert open == kw + (pkg + Str(";\n\n") + Str("public class ") + cls + Str(" {\n\n"));
    assert open[..|kw|] == kw;
  }

  lemma Regroup(a: Text, b: Text, c: Text, d: Text)
    ensures a + b + c + d == a + (b + c + d)
  {
  }

  lemma Associate(a: Text, b: Text, c: Text)
    ensures a + (b + c) == a + b + c
  {
  }

  lemma AppendNothing(s: Text)
    ensures s + [] == s && [] + s == s
  {
  }

  lemma FramedShape(open: Text, decls: Text, pub: Text)
    ensures StartsWith(open, PackageKeyword()) ==> StartsWith(open + decls + pub + FrameClose(), PackageKeyword())
    ensures StartsWith(open + decls + pub + FrameClose(), open)
    ensures EndsWith(open + decls + pub + FrameClose(), FrameClose())
  {
    Regroup(open, decls, pub, FrameClose());
    assert open[..|open|] == open;
    PrefixOfConcat(open, decls + pub + FrameClose(), open);
    if StartsWith(open, PackageKeyword()) {
      PrefixOfConcat(open, decls + pub + FrameClose(), PackageKeyword());
    }
    SuffixOfConcat(open + decls + pub, FrameClose());
  }

  lemma PublicConstantEnds(prefix: Text, expr: Text)
    ensures var pub := PublicConstant(prefix, expr);
      |pub| >= 29 && pub[1] == PublicConstantKeyword()[1] && pub[|pub| - 2] == LineEnd()[0]
  {
    var pub := PublicConstant(prefix, expr);
    assert |PublicConstantKeyword()| == 27 && |LineEnd()| == 2;
    assert pub[1] == pub[..27][1];
    assert pub[|pub| - 2] == pub[|pub| - 2..][0];
  }

  lemma UnframedShape(entries: seq<Entry>, prefix: Text, expr: Text)
    ensures var out := [] + Declarations(entries) + PublicConstant(prefix, expr) + [];
      !StartsWith(out, PackageKeyword()) && !EndsWith(out, FrameClose())
  {
    var decls := Declarations(entries);
    var pub := PublicConstant(prefix, expr);
    AppendNothing(decls);
    AppendNothing(decls + pub);
    KeywordsDiffer();
    PublicConstantEnds(prefix, expr);
    if |decls| > 0 {
      NotStartsWith(decls + pub, PackageKeyword(), 0);
    } else {
      NotStartsWith(decls + pub, PackageKeyword(), 1);
    }
    NotEndsWith(decls + pub, FrameClose(), 2);
  }

  /** The frame of the generated source: present exactly when both names are usable. */
  lemma FrameIffNamesGiven(b: Blocking, pkg: Option<Text>, cls: Option<Text>, prefix: Option<Text>, text: Text)
    ensures var out := CreateClassForStaticText(b, pkg, cls, prefix, Some(text)).source;
      && (ExportsFrame(pkg, cls) <==> StartsWith(out, PackageKeyword()))
      && (ExportsFrame(pkg, cls) <==> EndsWith(out, FrameClose()))
  {
  }

  /** The frame of the generated source names the package and class untrimmed. */
  lemma FrameUsesGivenNames(b: Blocking, pkg: Option<Text>, cls: Option<Text>, prefix: Option<Text>, text: Text)
    requires ExportsFrame(pkg, cls)
    ensures StartsWith(CreateClassForStaticText(b, pkg, cls, prefix, Some(text)).source, FrameOpen(pkg.value, cls.value))
  {
  }

  lemma EmptyEntries(es: seq<Entry>)
    ensures [] + es == es
  {
  }

  lemma NoIndent(t: Text)
    ensures Spaces(0) + t == t
  {
    assert Spaces(0) == [];
  }

  /**
   A short text: no declarations, and the public constant is the quoted
   escaped text, named by the normalised prefix.
   */
  lemma ShortTextLayout(b: Blocking, pkg: Option<Text>, cls: Option<Text>, prefix: Option<Text>, text: Text)
    requires |text| <= SafeCharLimit
    ensures CreateClassForStaticText(b, pkg, cls, prefix, Some(text)).source
         == Assemble(pkg, cls, NormalisePrefix(prefix), Quoted(Escape(text)), [])
  {
    NoIndent(Quoted(Escape(text)));
  }

  /**
   A long text: one declaration per block, named `prefix + 0`, `prefix + 1`,
   ... in block order, each initialised with its block quoted and escaped; then
   the public constant adding those names up after the workaround comment.
   */
  lemma LongTextLayout(b: Blocking, pkg: Option<Text>, cls: Option<Text>, prefix: Option<Text>, text: Text)
    requires |text| > SafeCharLimit
    ensures var p := NormalisePrefix(prefix);
      var names := IdRange(p, 0, BlockCount(|text|));
      CreateClassForStaticText(b, pkg, cls, prefix, Some(text)).source
      == Assemble(pkg, cls, p, WorkaroundComment() + JoinPlus(names), ChunkEntries(names, Blocks(b, text)))
  {
    var p := NormalisePrefix(prefix);
    LongEmbedExpr(b, p, text);
    LongEmbedEntries(b, p, text);
  }

  lemma LongEmbedExpr(b: Blocking, p: Text, text: Text)
    requires |text| > SafeCharLimit
    ensures Embed(b, 0, text, New(p)).0 == WorkaroundComment() + JoinPlus(IdRange(p, 0, BlockCount(|text|)))
  {
    var names := IdRange(p, 0, BlockCount(|text|));
    assert ChunkNames(New(p), BlockCount(|text|)) == names;
    NoIndent(WorkaroundComment());
  }

  lemma LongEmbedEntries(b: Blocking, p: Text, text: Text)
    requires |text| > SafeCharLimit
    ensures Embed(b, 0, text, New(p)).1.lookups == ChunkEntries(IdRange(p, 0, BlockCount(|text|)), Blocks(b, text))
  {
    var names := IdRange(p, 0, BlockCount(|text|));
    assert ChunkNames(New(p), BlockCount(|text|)) == names;
    EmptyEntries(ChunkEntries(names, Blocks(b, text)));
  }

  /**
   With the corrected last block, the declarations of a long text hold
   literals that a Java compiler reads back, in order, as the whole text.
   */
  lemma CorrectedDeclarationsReadBack(p: Text, text: Text)
    requires |text| > SafeCharLimit
    ensures DecodedConcat(Embed(Corrected, 0, text, New(p)).1.lookups) == Some(text)
  {
    LongEmbedEntries(Corrected, p, text);
    DecodedChunkEntries(IdRange(p, 0, BlockCount(|text|)), Blocks(Corrected, text));
    CorrectedBlocksCoverText(text);
  }

  /** The same as written, for a length that is a multiple of the limit: the last `SafeCharLimit` units are missing. */
  lemma AsWrittenDeclarationsLoseTail(p: Text, text: Text)
    requires |text| > SafeCharLimit && |text| % SafeCharLimit == 0
    ensures DecodedConcat(Embed(AsWritten, 0, text, New(p)).1.lookups) == Some(text[..|text| - SafeCharLimit])
    ensures text[..|text| - SafeCharLimit] != text
  {
    LongEmbedEntries(AsWritten, p, text);
    DecodedChunkEntries(IdRange(p, 0, BlockCount(|text|)), Blocks(AsWritten, text));
    AsWrittenDropsFinalBlock(text);
  }
}
