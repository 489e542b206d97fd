# injecttext, modelled in Dafny

injecttext turns a text into Java source code that embeds it as a `static`
`String` constant. Its core is one class of static helpers, `InjectText`, plus
the small `ChunkHelper` registry it threads through a run. This project models
that core as pure functions over Java strings. A Java string is a sequence of
UTF-16 code units (`seq<u16>`), so unpaired surrogates are ordinary values.

- `text.dfy` (`JavaText`): code units, `String.trim()`, the blank test, and
  the decimal rendering of a non-negative `int` in string concatenation.
- `escaper.dfy` (`Escaper`): `escapeJavaLiteralText`, one code unit at a time.
  It has the five two-character escapes and `\uXXXX` with lower-case hex digits
  for everything outside printable ASCII.
- `java_literal.dfy` (`JavaLiteral`): how a Java compiler reads a string
  literal. First the Unicode escapes of section 3.3 of the Java Language
  Specification (Java SE 8 edition) are translated. Then the escape sequences
  of sections 3.10.5 and 3.10.6 are decoded. This is the inverse the escaper
  is proved against.
- `chunk_helper.dfy` (`ChunkHelpers`): `ChunkHelper` as an immutable value
  `{prefix, nextId, lookups}`. The `LinkedHashMap` becomes a sequence of
  entries in insertion order, and `put` keeps the map's order rules.
- `chunking.dfy` (`Chunking`): `SAFE_CHARLIMIT` and
  `embedSafeStaticJavaStringConstantThatOvercomes64Limit`. It comes both as a
  function (`Embed`) and as a loop that mirrors the source (`EmbedLoop`), and
  the two are proved equal.
- `class_emitter.dfy` (`ClassEmitter`): `createClassForStaticText`, which
  covers the prefix normalisation, the optional `package`/`class` frame, one
  declaration per registered chunk and the public combining constant.
- `scenarios.dfy` (`Scenarios`): the generator on two concrete inputs.

The chunking loop has a boundary defect. It computes the last block's length
as the remainder modulo the limit, which is 0 when the length is a multiple of
the limit. Only texts longer than the limit are cut, so a text of exactly the
limit is unaffected, while texts of twice, three times, ... the limit get an
empty last block and lose their final `SAFE_CHARLIMIT` units. The datatype `Blocking` selects the code
as written (`AsWritten`) or the evidently intended last block (`Corrected`). Every
operation that depends on it takes it as a parameter, so both behaviours are
stated and proved (see "Findings").

## Model

| member | source | states |
|---|---|---|
| `JavaText.Trim` | injecttext/src/main/java/org/ainslec/injecttext/InjectText.java:46-52 | `trim()`: the result neither starts nor ends with a unit at or below the space; it is a prefix of the input with its leading such units removed, and everything it leaves off at the end is at or below the space |
| `JavaText.TrimUnique` | injecttext/src/main/java/org/ainslec/injecttext/InjectText.java:46-52 | any text meeting those three conditions is the trimmed value, so the contract of `Trim` determines it |
| `JavaText.TrimEmptyIffAllTrimmable` | injecttext/src/main/java/org/ainslec/injecttext/InjectText.java:46-52 | `s.trim().length() == 0` holds exactly when every unit of `s` is at or below the space |
| `JavaText.IsBlank` | injecttext/src/main/java/org/ainslec/injecttext/InjectText.java:46 | the blank test used for the names and the prefix holds exactly when no unit is above the space |
| `JavaText.Decimal` | injecttext/src/main/java/org/ainslec/injecttext/ChunkHelper.java:46 | the counter is rendered in canonical decimal: every unit is a digit `0`..`9`, and there is no leading zero except for 0 itself |
| `JavaText.DecimalRoundTrip` | injecttext/src/main/java/org/ainslec/injecttext/ChunkHelper.java:46 | the rendering of the counter parses back to the counter |
| `JavaText.DecimalInjective` | injecttext/src/main/java/org/ainslec/injecttext/ChunkHelper.java:45-47 | `prefix + m` and `prefix + n` are equal exactly when `m == n` |
| `Escaper.EscapeUnit` | injecttext/src/main/java/org/ainslec/injecttext/InjectText.java:135-159 | per unit, first match wins: backslash, quote, LF, CR and TAB get a two-character escape (never a `\u` one); other units outside 32..126 get `\u` and four lower-case hex digits whose value is the unit; all other units are copied |
| `Escaper.HexDigits4` | injecttext/src/main/java/org/ainslec/injecttext/InjectText.java:147-156 | four lower-case hex digits, most significant first, whose value is the code unit |
| `Escaper.Escape` | injecttext/src/main/java/org/ainslec/injecttext/InjectText.java:132-161 | the escaped text is printable ASCII and between one and six times the input's length |
| `Escaper.EscapeNullable` | injecttext/src/main/java/org/ainslec/injecttext/InjectText.java:124-163 | `null` gives `null` and only `null` does; otherwise the result is printable ASCII within the length bounds |
| `Escaper.EscapeIdentityOnPlainAscii` | injecttext/src/main/java/org/ainslec/injecttext/InjectText.java:136-159 | the escape leaves a text unchanged exactly when it is printable ASCII with no backslash or quote |
| `Escaper.EscapeConcat` | injecttext/src/main/java/org/ainslec/injecttext/InjectText.java:134-160 | `escape(a + b) == escape(a) + escape(b)` |
| `JavaLiteral.DecodeEscapeRoundTrip` | injecttext/src/main/java/org/ainslec/injecttext/InjectText.java:124-163 | a Java compiler reading the escaped text between quotes gets back exactly the original code units |
| `JavaLiteral.QuotedEscapeRoundTrip` | injecttext/src/main/java/org/ainslec/injecttext/InjectText.java:93 | the quoted, escaped literal the emitter writes is a well-formed literal whose value is the text |
| `JavaLiteral.UnicodeEscapedTerminatorRejected` | injecttext/src/main/java/org/ainslec/injecttext/InjectText.java:138-143 | for any continuation, a `\u` escape of a line feed, carriage return or double quote is not read back as one literal: a line terminator is a compile-time error, and a quote ends the literal early so the rest is read as code; this is why those units need their own two-character escapes |
| `ChunkHelpers.New` | injecttext/src/main/java/org/ainslec/injecttext/ChunkHelper.java:26-35 | a new helper stores the prefix unchanged, with counter 0 and no entries |
| `ChunkHelpers.NextMemVarId` | injecttext/src/main/java/org/ainslec/injecttext/ChunkHelper.java:45-47 | returns `prefix + decimal(nextId)`, advances the counter by exactly one, and leaves the prefix and the entries alone |
| `ChunkHelpers.Register` | injecttext/src/main/java/org/ainslec/injecttext/ChunkHelper.java:50-52 | a `put` on the entries; the prefix and the counter are unchanged, and the id now maps to the literal |
| `ChunkHelpers.Put` | injecttext/src/main/java/org/ainslec/injecttext/ChunkHelper.java:28 | a `LinkedHashMap` put: a new key goes to the end, an existing key keeps its place, and the key then maps to the new value |
| `ChunkHelpers.PutNames` | injecttext/src/main/java/org/ainslec/injecttext/ChunkHelper.java:28 | after a put, the keys are the old keys plus the put key |
| `ChunkHelpers.PutKeepsOthers` | injecttext/src/main/java/org/ainslec/injecttext/ChunkHelper.java:50-52 | a put leaves the value of every other key as it was |
| `ChunkHelpers.PutKeepsDistinct` | injecttext/src/main/java/org/ainslec/injecttext/ChunkHelper.java:28 | a put never creates a duplicate key |
| `ChunkHelpers.NumberedNamesDistinct` | injecttext/src/main/java/org/ainslec/injecttext/ChunkHelper.java:30-47 | names handed out by the counter are pairwise distinct, and the next name is not yet registered |
| `ChunkHelpers.NextAndRegister` | injecttext/src/main/java/org/ainslec/injecttext/InjectText.java:104-106 | taking a fresh name and registering a literal under it appends exactly one entry at the end |
| `ChunkHelpers.SuccessiveIds` | injecttext/src/main/java/org/ainslec/injecttext/ChunkHelper.java:45-47 | the name handed out `k + 1` calls later is `prefix + (nextId + k + 1)`, and it differs from the earlier one |
| `ChunkHelpers.KthIdOnNewHelper` | injecttext/src/main/java/org/ainslec/injecttext/ChunkHelper.java:30-47 | the `k`-th call (from zero) on a new helper returns `prefix + k` |
| `ChunkHelpers.RunKeepsPrefix` | injecttext/src/main/java/org/ainslec/injecttext/ChunkHelper.java:26-52 | after any sequence of `getNextMemVarId`/`register` calls, the prefix is unchanged and the counter has grown by the number of `getNextMemVarId` calls |
| `ChunkHelpers.StaticMemVarPrefix` | injecttext/src/main/java/org/ainslec/injecttext/ChunkHelper.java:37-39 | the stored prefix, which starts every name the helper hands out |
| `ChunkHelpers.GetLookups` | injecttext/src/main/java/org/ainslec/injecttext/ChunkHelper.java:41-43 | the registered entries, one per `put` of a new key; for a helper whose entries are its own numbered names, the names are distinct and the next name is not among them |
| `ChunkHelpers.PrefixFromConstructor` | injecttext/src/main/java/org/ainslec/injecttext/ChunkHelper.java:32-43 | `getStaticMemVarPrefix()` returns the constructor's argument after any run of calls, and a new helper's lookups are empty |
| `Chunking.SafeCharLimitValue` | injecttext/src/main/java/org/ainslec/injecttext/InjectText.java:32 | the limit is `(65535 - 5) / 6` |
| `Chunking.ChunkLiteralFits` | injecttext/src/main/java/org/ainslec/injecttext/InjectText.java:30-32 | a block of at most the limit, escaped and quoted, has at most `6 * SAFE_CHARLIMIT + 2` = 65528 units, under 65535; this is the worst case the limit is sized for |
| `Chunking.BlockCount` | injecttext/src/main/java/org/ainslec/injecttext/InjectText.java:99 | the number of blocks is the least `n` with `n * SAFE_CHARLIMIT >= length` |
| `Chunking.FinalBlockLength` | injecttext/src/main/java/org/ainslec/injecttext/InjectText.java:98 | the remainder as written, which is 0 for a multiple of the limit; the corrected length is a full block in that case |
| `Chunking.BlockBounds` | injecttext/src/main/java/org/ainslec/injecttext/InjectText.java:101-103 | every `substring` of the loop stays inside the text; the corrected last block ends exactly at its end |
| `Chunking.Block` | injecttext/src/main/java/org/ainslec/injecttext/InjectText.java:101-103 | the `substring` of iteration `i`: `SAFE_CHARLIMIT` units from `i * SAFE_CHARLIMIT`, or the final block length on the last iteration, inside the text |
| `Chunking.BlocksAt` | injecttext/src/main/java/org/ainslec/injecttext/InjectText.java:100-103 | the loop's blocks in order: every block but the last is the text from `i * SAFE_CHARLIMIT` to `(i + 1) * SAFE_CHARLIMIT`, and the last is the final block length from `(n - 1) * SAFE_CHARLIMIT` |
| `Chunking.EmitChunks` | injecttext/src/main/java/org/ainslec/injecttext/InjectText.java:100-106 | the loop hands out consecutive names from the counter, one per block, in order |
| `Chunking.EmitChunksAppends` | injecttext/src/main/java/org/ainslec/injecttext/InjectText.java:104-106 | on a helper whose entries are its own numbered names, the loop appends one entry per block in block order, and that property is kept |
| `Chunking.Embed` | injecttext/src/main/java/org/ainslec/injecttext/InjectText.java:75-117 | a short text gives the indent, then the quoted escaped text, with the helper untouched; a long text gives the indent, the workaround comment and the fresh names joined by ` + ` with none trailing, with one entry registered per block |
| `Chunking.EmbedLoop` | injecttext/src/main/java/org/ainslec/injecttext/InjectText.java:75-117 | the source's loop, written with `StringBuilder`-style appends, computes exactly `Embed` |
| `Chunking.IndentLoop` | injecttext/src/main/java/org/ainslec/injecttext/InjectText.java:84-88 | `indent` spaces when `indent > 0`, nothing otherwise |
| `Chunking.ChunkLoop` | injecttext/src/main/java/org/ainslec/injecttext/InjectText.java:98-111 | the block loop builds the joined names and the helper that `EmitChunks` describes |
| `Chunking.LoopStateIsEmitChunks` | injecttext/src/main/java/org/ainslec/injecttext/InjectText.java:100-111 | after `i` iterations, the builder holds the first `i` names joined by ` + `, followed by a ` + ` when more blocks follow |
| `Chunking.CorrectedBlocksCoverText` | injecttext/src/main/java/org/ainslec/injecttext/InjectText.java:98-103 | the corrected blocks, joined, are exactly the text, and each block has 1 to `SAFE_CHARLIMIT` units |
| `Chunking.CorrectedBlockSizes` | injecttext/src/main/java/org/ainslec/injecttext/InjectText.java:98-103 | every corrected block but the last is full; the last holds the remainder, or a full block when there is none |
| `Chunking.AsWrittenCoversUnlessMultiple` | injecttext/src/main/java/org/ainslec/injecttext/InjectText.java:98-103 | when the length is not a multiple of the limit, the code as written cuts the same blocks and covers the text |
| `Chunking.AsWrittenDropsFinalBlock` | injecttext/src/main/java/org/ainslec/injecttext/InjectText.java:98-103 | cut by the loop's rule as written, a non-empty multiple of the limit ends with an empty block and the blocks lose the last `SAFE_CHARLIMIT` units; the generator reaches this only from twice the limit upward, since a text of exactly the limit is not cut |
| `Chunking.RegisteredChunksReadBack` | injecttext/src/main/java/org/ainslec/injecttext/InjectText.java:100-106 | the literals registered by the long path keep the earlier entries and read back, in insertion order, as the text (corrected) or the text minus its tail (as written, multiple of the limit) |
| `Chunking.Threshold` | injecttext/src/main/java/org/ainslec/injecttext/InjectText.java:92-103 | a text of exactly `SAFE_CHARLIMIT` units stays one literal; one unit more gives two blocks of `SAFE_CHARLIMIT` and 1 |
| `ClassEmitter.NormalisePrefix` | injecttext/src/main/java/org/ainslec/injecttext/InjectText.java:52 | `"F"` for a null or blank prefix, its trimmed value otherwise; either way the result is non-blank and already trimmed |
| `ClassEmitter.NormalisePrefixIdempotent` | injecttext/src/main/java/org/ainslec/injecttext/InjectText.java:52 | normalising an already normalised prefix gives it back unchanged |
| `ClassEmitter.ExportsFrame` | injecttext/src/main/java/org/ainslec/injecttext/InjectText.java:46 | `exportingClassFrame`: true exactly when both names are non-null and each has a unit above the space |
| `ClassEmitter.Declaration` | injecttext/src/main/java/org/ainslec/injecttext/InjectText.java:63 | one declaration line: indent, modifiers and type (35 units), the name, ` = `, the literal, `;` and a line feed, by its length and ends |
| `ClassEmitter.DeclarationShape` | injecttext/src/main/java/org/ainslec/injecttext/InjectText.java:63 | the name sits right after the fixed 35-unit lead, and the literal exactly between ` = ` and the closing `;` |
| `ClassEmitter.Declarations` | injecttext/src/main/java/org/ainslec/injecttext/InjectText.java:61-64 | one `private static` line per entry, in insertion order, so a non-empty registry gives text starting with the indent's space |
| `ClassEmitter.DeclarationsAppend` | injecttext/src/main/java/org/ainslec/injecttext/InjectText.java:61-64 | the declaration lines follow the entries' insertion order: the declarations of `a + b` are those of `a` followed by those of `b` |
| `ClassEmitter.PublicConstant` | injecttext/src/main/java/org/ainslec/injecttext/InjectText.java:65 | the combining constant line starts with `public static final String ` and ends with `;` and a line feed |
| `ClassEmitter.PublicConstantShape` | injecttext/src/main/java/org/ainslec/injecttext/InjectText.java:65 | the constant is named by the prefix, which sits right after the 27-unit keyword, and its initialiser, between ` = ` and the closing `;`, is exactly the expression |
| `ClassEmitter.CreateClassForStaticText` | injecttext/src/main/java/org/ainslec/injecttext/InjectText.java:42-73 | fails with `NullPointerException` exactly when the content is `null` |
| `ClassEmitter.Assemble` | injecttext/src/main/java/org/ainslec/injecttext/InjectText.java:46-69 | the assembled source starts with `package ` and ends with the closing brace exactly when both names are non-null and non-blank, and with a frame it opens with the package and class lines for the names as given |
| `ClassEmitter.FrameIffNamesGiven` | injecttext/src/main/java/org/ainslec/injecttext/InjectText.java:46-69 | the same for the whole generator: the frame is present if and only if both names are usable |
| `ClassEmitter.FrameUsesGivenNames` | injecttext/src/main/java/org/ainslec/injecttext/InjectText.java:48-49 | with a frame, the source starts with `package <pkg>;` and `public class <cls> {`, with the names exactly as given, untrimmed |
| `ClassEmitter.ShortTextLayout` | injecttext/src/main/java/org/ainslec/injecttext/InjectText.java:55-65 | a short text gives no declarations and a public constant whose initialiser is the quoted escaped text, named by the normalised prefix |
| `ClassEmitter.LongTextLayout` | injecttext/src/main/java/org/ainslec/injecttext/InjectText.java:55-65 | a long text gives one declaration per block, named `prefix + 0`, `prefix + 1`, ..., then the public constant: the workaround comment followed by those names joined by ` + ` |
| `ClassEmitter.CorrectedDeclarationsReadBack` | injecttext/src/main/java/org/ainslec/injecttext/InjectText.java:55-64 | with the corrected last block, the declared literals read back, in order, as the whole text |
| `ClassEmitter.AsWrittenDeclarationsLoseTail` | injecttext/src/main/java/org/ainslec/injecttext/InjectText.java:98-103 | as written, for a multiple of the limit, the declared literals read back as the text without its last `SAFE_CHARLIMIT` units |
| `Scenarios.ShortExample` | injecttext/src/main/java/org/ainslec/injecttext/InjectText.java:42-73 | prefix `T`, no frame, content `A`, LF, `B`, `"`, `C` gives the single line `public static final String T = "A\nB\"C";` |
| `Scenarios.LongExample` | injecttext/src/main/java/org/ainslec/injecttext/InjectText.java:96-111 | a text of `2 * SAFE_CHARLIMIT + 1` units with prefix `T` gives constants `T0`, `T1`, `T2` holding blocks of `SAFE_CHARLIMIT`, `SAFE_CHARLIMIT` and 1 units, and `T = /* ... */ T0 + T1 + T2` |

## Left out

- The Maven plugin `InjectTextMavenPlugin` is not part of this model. It only does file I/O: existence checks, canonical paths, the safe-mode skip, UTF-8 decoding, directory creation and writing the file.
- Java `int` overflow of `_nextId` and of `SAFE_CHARLIMIT * i` is not modelled. Both are `nat`, because a Java string's length bounds them far below the overflow point.
- The prefix, package and class names are not checked for Java identifier validity. The source deliberately does not sanitise them.
- `StringBuilder` and the mutable `ChunkHelper` are modelled as immutable values threaded through the calls. `getNextMemVarId` returns the name together with the advanced helper. The live, mutable view that `getLookups()` returns is modelled as a copy of the entries.
- A `null` helper passed to the emitter is not modelled. The only caller always passes a new one.
- A `null` text passed directly to the emitter is not modelled. It is modelled through the generator, where it becomes the `NullPointerException` outcome.
- The fixed ASCII fragments of the generated code are written as Dafny string literals and converted to code units by `JavaText.Str`.
- `Escaper.HexDigits4`: the source's bit masks and shifts (`& 61440 >> 12` and so on) are written as division and remainder by powers of 16. These are equal on 16-bit values.
- `String.class.getName()` is written as the literal `java.lang.String`.
- `Chunking.ChunkLiteralFits`: the class file's 65535-byte limit applies to the modified UTF-8 encoding of the literal's decoded value, where one code unit takes up to three bytes. The model does not encode modified UTF-8; it states the bound the source's sizing comment reasons about, on the quoted escaped literal in the source text.

## Findings

| source | as written | input that shows it | evidently intended | confidence | as-written member | corrected member |
|---|---|---|---|---|---|---|
| injecttext/src/main/java/org/ainslec/injecttext/InjectText.java:98-103 | `finalBlockLength = length % SAFE_CHARLIMIT` is 0 when the length is a multiple of the limit, so the last `substring` is empty | any text of 21842 units (twice the limit): two names are registered, the second holds `""`, and units 10921..21841 are lost | the last block holds `SAFE_CHARLIMIT` units when the remainder is 0, so the blocks join to the whole text | not executed | `Chunking.AsWrittenDropsFinalBlock` | `Chunking.CorrectedBlocksCoverText` |
