/**
 `embedSafeStaticJavaStringConstantThatOvercomes64Limit`: turns a text into a
 Java expression for it. A text of at most `SafeCharLimit` units becomes one
 quoted literal; a longer one is cut into blocks of `SafeCharLimit` units, each
 registered as its own constant, and the expression adds up their names.

 The source computes the length of the last block as `length % SafeCharLimit`,
 which is zero when the length is a multiple of the limit. The long path is
 taken only above the limit, so a text of `2 * SafeCharLimit`,
 `3 * SafeCharLimit`, ... units gets an empty last block and loses its final
 `SafeCharLimit` units; a text of exactly `SafeCharLimit` units takes the short
 path and loses nothing. `Blocking` selects between that code as written and
 the evidently intended final length.
 */
module Chunking {
  import opened JavaText
  import opened Escaper
  import opened JavaLiteral
  import opened ChunkHelpers

  /**
   `SAFE_CHARLIMIT`, (65535 - 5) / 6: sized so that even if every unit escapes
   to six characters a literal stays under 65535.
   */
  const SafeCharLimit: nat := 10921

  lemma SafeCharLimitValue()
    ensures SafeCharLimit == (65535 - 5) / 6
  {
  }

  /**
   The sizing argument: a block escapes to at most six units per unit, so its
   quoted literal in the generated source has at most `6 * SafeCharLimit + 2`
   units, which is below 65535.
   */
  lemma ChunkLiteralFits(s: Text)
    requires |s| <= SafeCharLimit
    ensures |Quoted(Escape(s))| <= 6 * SafeCharLimit + 2 < 65535
  {
  }

  /** The marker the generated expression starts with when the workaround is in effect. */
  function WorkaroundComment(): Text {
    Str("/* 64KB byte limit workaround via appending large strings */ ")
  }

  /** The Java string concatenation operator between two chunk names. */
  function PlusOperator(): Text {
    Str(" + ")
  }

  /** `AsWritten`: the final block has `length % SafeCharLimit` units; `Corrected`: a full block when that is zero. */
  datatype Blocking = AsWritten | Corrected

  /** `numberOfBlocks`: the length divided by the limit, rounded up. */
  function BlockCount(len: nat): (n: nat)
    ensures n * SafeCharLimit >= len
    ensures n == 0 || (n - 1) * SafeCharLimit < len
  {
    len / SafeCharLimit + (if len % SafeCharLimit > 0 then 1 else 0)
  }

  /** `finalBlockLength`. */
  function FinalBlockLength(b: Blocking, len: nat): (f: nat)
    ensures f <= SafeCharLimit
    ensures len % SafeCharLimit != 0 ==> f == len % SafeCharLimit
    ensures b.Corrected? && len % SafeCharLimit == 0 ==> f == SafeCharLimit
    ensures b.AsWritten? && len % SafeCharLimit == 0 ==> f == 0
  {
    match b
    case AsWritten => len % SafeCharLimit
    case Corrected => if len % SafeCharLimit == 0 then SafeCharLimit else len % SafeCharLimit
  }

  /** The blocks stay inside the text: every non-final block ends by `length`, and so does the final one. */
  lemma BlockBounds(b: Blocking, len: nat, i: nat)
    requires i < BlockCount(len)
    ensures i + 1 < BlockCount(len) ==> SafeCharLimit * i + SafeCharLimit <= len
    ensures i + 1 == BlockCount(len) ==> SafeCharLimit * i + FinalBlockLength(b, len) <= len
    ensures b.Corrected? && i + 1 == BlockCount(len) ==> SafeCharLimit * i + FinalBlockLength(b, len) == len
    ensures len % SafeCharLimit != 0 && i + 1 == BlockCount(len) ==> SafeCharLimit * i + FinalBlockLength(b, len) == len
  {
  }

  /**
   Block `i` of the loop: the units from `i * SafeCharLimit` on, a full block
   of `SafeCharLimit` units unless it is the last one, which has
   `FinalBlockLength` units.
   */
  function Block(b: Blocking, text: Text, i: nat): (r: Text)
    requires i < BlockCount(|text|)
    ensures |r| == if i + 1 == BlockCount(|text|) then FinalBlockLength(b, |text|) else SafeCharLimit
    ensures SafeCharLimit * i + |r| <= |text| && r == text[SafeCharLimit * i..SafeCharLimit * i + |r|]
  {
    BlockBounds(b, |text|, i);
    var start := SafeCharLimit * i;
    var isFinalBlock := i + 1 == BlockCount(|text|);
    text[start..start + (if isFinalBlock then FinalBlockLength(b, |text|) else SafeCharLimit)]
  }

  /** The blocks the loop cuts the text into, one per iteration, in order. */
  function Blocks(b: Blocking, text: Text): (bs: seq<Text>)
    ensures |bs| == BlockCount(|text|)
    ensures forall i :: 0 <= i < |bs| ==> bs[i] == Block(b, text, i)
  {
    seq(BlockCount(|text|), i requires 0 <= i < BlockCount(|text|) => Block(b, text, i))
  }

  /**
   Where the blocks lie: every block but the last is the full run of
   `SafeCharLimit` units at its position, and the last one starts where they
   end and has `FinalBlockLength` units.
   */
  lemma BlocksAt(b: Blocking, text: Text)
    ensures var bs := Blocks(b, text);
      && (forall i :: 0 <= i < |bs| - 1 ==>
            SafeCharLimit * (i + 1) <= |text| && bs[i] == text[SafeCharLimit * i..SafeCharLimit * (i + 1)])
      && (|bs| > 0 ==>
            var start := SafeCharLimit * (|bs| - 1);
            start + FinalBlockLength(b, |text|) <= |text| && bs[|bs| - 1] == text[start..start + FinalBlockLength(b, |text|)])
  {
    var bs := Blocks(b, text);
    forall i | 0 <= i < |bs| - 1
      ensures SafeCharLimit * (i + 1) <= |text| && bs[i] == text[SafeCharLimit * i..SafeCharLimit * (i + 1)]
    {
      assert bs[i] == Block(b, text, i);
    }
  }

  /** Texts joined end to end. */
  function Concat(ts: seq<Text>): Text {
    if |ts| == 0 then [] else Concat(ts[..|ts| - 1]) + ts[|ts| - 1]
  }

  /** The quoted literal registered for a block. */
  function ChunkLiteral(chunk: Text): Text {
    Quoted(Escape(chunk))
  }

  /**
   The loop body over the first `|chunks|` blocks: take the next name from
   the helper and register the block's literal under it. Returns the names in
   order and the helper afterwards.
   */
  function EmitChunks(h: ChunkHelper, chunks: seq<Text>): (res: (seq<Text>, ChunkHelper))
    ensures res.0 == ChunkNames(h, |chunks|)
    ensures res.1.prefix == h.prefix && res.1.nextId == h.nextId + |chunks|
  {
    if |chunks| == 0 then ([], h)
    else
      var n := |chunks| - 1;
      var front := EmitChunks(h, chunks[..n]);
      var next := NextMemVarId(front.1);
      IdRangeSnoc(h.prefix, h.nextId, n, front.1.nextId);
      (front.0 + [next.0], Register(next.1, next.0, ChunkLiteral(chunks[n])))
  }

  /** On a `Numbered` helper the loop appends one entry per block, in block order, and the helper stays `Numbered`. */
  lemma {:induction false} EmitChunksAppends(h: ChunkHelper, chunks: seq<Text>)
    requires Numbered(h)
    ensures Numbered(EmitChunks(h, chunks).1)
    ensures EmitChunks(h, chunks).1.lookups == h.lookups + ChunkEntries(EmitChunks(h, chunks).0, chunks)
  {
    if |chunks| > 0 {
      var n := |chunks| - 1;
      var front, last := chunks[..n], chunks[n];
      var res1 := EmitChunks(h, front);
      var names, h1 := res1.0, res1.1;
      EmitChunksAppends(h, front);
      var id := NextMemVarId(h1).0;
      var h3 := Register(NextMemVarId(h1).1, id, ChunkLiteral(last));
      assert EmitChunks(h, chunks) == (names + [id], h3);
      SnocLast(chunks);
      AppendStep(h, h1, names, front, last);
    }
  }

  lemma SnocLast<T>(s: seq<T>)
    requires |s| > 0
    ensures s[..|s| - 1] + [s[|s| - 1]] == s
  {
  }

  /** One loop iteration on a `Numbered` helper: the block's entry goes at the end. */
  lemma AppendStep(h: ChunkHelper, h1: ChunkHelper, names: seq<Text>, front: seq<Text>, last: Text)
    requires |names| == |front|
    requires Numbered(h1) && h1.lookups == h.lookups + ChunkEntries(names, front)
    ensures var id := NextMemVarId(h1).0;
      var h3 := Register(NextMemVarId(h1).1, id, ChunkLiteral(last));
      Numbered(h3) && h3.lookups == h.lookups + ChunkEntries(names + [id], front + [last])
  {
    var id := NextMemVarId(h1).0;
    var lit := ChunkLiteral(last);
    NextAndRegister(h1, lit);
    ChunkEntriesSnoc(names, front, id, last);
  }

  /** The registry entries for blocks `chunks` registered under `names`, in order. */
  function ChunkEntries(names: seq<Text>, chunks: seq<Text>): (es: seq<Entry>)
    requires |names| == |chunks|
    ensures |es| == |chunks|
  {
    if |chunks| == 0 then []
    else
      var n := |chunks| - 1;
      ChunkEntries(names[..n], chunks[..n]) + [Entry(names[n], ChunkLiteral(chunks[n]))]
  }

  lemma ChunkEntriesSnoc(names: seq<Text>, chunks: seq<Text>, id: Text, chunk: Text)
    requires |names| == |chunks|
    ensures ChunkEntries(names + [id], chunks + [chunk]) == ChunkEntries(names, chunks) + [Entry(id, ChunkLiteral(chunk))]
  {
    assert (names + [id])[..|names|] == names;
    assert (chunks + [chunk])[..|chunks|] == chunks;
  }

  /** The names `prefix + k` the helper hands out for `n` blocks, starting from its counter. */
  function ChunkNames(h: ChunkHelper, n: nat): (ns: seq<Text>)
    ensures |ns| == n
  {
    IdRange(h.prefix, h.nextId, n)
  }

  /** The names joined by ` + `, with no operator after the last one. */
  function JoinPlus(names: seq<Text>): Text {
    if |names| == 0 then []
    else if |names| == 1 then names[0]
    else JoinPlus(names[..|names| - 1]) + PlusOperator() + names[|names| - 1]
  }

  /**
   The whole emitter: `indent` spaces, then either the quoted escaped text or,
   above the limit, the workaround comment and the chunk names added up. The
   short path leaves the helper alone; the long path registers one entry per
   block under consecutive fresh names.
   */
  function Embed(b: Blocking, indent: int, text: Text, h: ChunkHelper): (res: (Text, ChunkHelper))
    ensures res.1.prefix == h.prefix
    ensures |text| <= SafeCharLimit ==> res.0 == Spaces(indent) + Quoted(Escape(text)) && res.1 == h
    ensures |text| > SafeCharLimit ==>
      res.0 == Spaces(indent) + WorkaroundComment() + JoinPlus(ChunkNames(h, BlockCount(|text|)))
    ensures |text| > SafeCharLimit ==> res.1.nextId == h.nextId + BlockCount(|text|)
    ensures |text| > SafeCharLimit && Numbered(h) ==>
      Numbered(res.1) && res.1.lookups == h.lookups + ChunkEntries(ChunkNames(h, BlockCount(|text|)), Blocks(b, text))
  {
    if |text| <= SafeCharLimit then (Spaces(indent) + Quoted(Escape(text)), h)
    else
      var (names, h') := EmitChunks(h, Blocks(b, text));
      assert Numbered(h) ==> Numbered(h') && h'.lookups == h.lookups + ChunkEntries(names, Blocks(b, text)) by {
        if Numbered(h) {
          EmitChunksAppends(h, Blocks(b, text));
        }
      }
      assert names == ChunkNames(h, BlockCount(|text|));
      (Spaces(indent) + WorkaroundComment() + JoinPlus(names), h')
  }

  /**
   The emitter as the source writes it: append the indent one space at a
   time, then either the quoted escaped text or the workaround comment and the
   chunk loop. It computes exactly `Embed`.
   */
  method EmbedLoop(b: Blocking, indent: int, literalText: Text, chunkHelper: ChunkHelper)
    returns (retVal: Text, helper: ChunkHelper)
    ensures (retVal, helper) == Embed(b, indent, literalText, chunkHelper)
  {
    var sb := IndentLoop(indent);
    assert sb == Spaces(indent);
    helper := chunkHelper;
    var literalTextLength := |literalText|;
    if literalTextLength <= SafeCharLimit {
      sb := sb + Quoted(Escape(literalText));
    } else {
      sb := sb + WorkaroundComment();
      var joined;
      joined, helper := ChunkLoop(b, literalText, chunkHelper);
      sb := sb + joined;
    }
    retVal := sb;
  }

  /** The indent loop: one space per iteration, none for a non-positive indent. */
  method IndentLoop(indent: int) returns (sb: Text)
    ensures |sb| == if indent > 0 then indent else 0
    ensures forall k :: 0 <= k < |sb| ==> sb[k] == Space
  {
    sb := [];
    if indent > 0 {
      var i := 0;
      while i < indent
        invariant 0 <= i <= indent && |sb| == i
        invariant forall k :: 0 <= k < |sb| ==> sb[k] == Space
      {
        sb := sb + [Space];
        i := i + 1;
      }
    }
  }

  /**
   The chunk loop: for each block take a name, append it, register the
   block's literal under it, and append ` + ` unless the block is the last.
   */
  method ChunkLoop(b: Blocking, literalText: Text, chunkHelper: ChunkHelper)
    returns (sb: Text, helper: ChunkHelper)
    ensures sb == JoinPlus(EmitChunks(chunkHelper, Blocks(b, literalText)).0)
    ensures helper == EmitChunks(chunkHelper, Blocks(b, literalText)).1
  {
    sb := [];
    helper := chunkHelper;
    var literalTextLength := |literalText|;
    var finalBlockLength := FinalBlockLength(b, literalTextLength);
    var numberOfBlocks := literalTextLength / SafeCharLimit + (if literalTextLength % SafeCharLimit > 0 then 1 else 0);
    var i := 0;
    while i < numberOfBlocks
      invariant 0 <= i <= numberOfBlocks == BlockCount(literalTextLength)
      invariant sb == LoopState(b, literalText, chunkHelper, i).0
      invariant helper == LoopState(b, literalText, chunkHelper, i).1
    {
      sb, helper := ChunkLoopBody(b, literalText, chunkHelper, i, numberOfBlocks, finalBlockLength, sb, helper);
      i := i + 1;
    }
    LoopStateFinal(b, literalText, chunkHelper);
  }

  /** One iteration of the chunk loop, block `i` of `numberOfBlocks`. */
  method ChunkLoopBody(b: Blocking, literalText: Text, chunkHelper: ChunkHelper, i: nat, numberOfBlocks: nat,
                       finalBlockLength: nat, sb: Text, helper: ChunkHelper)
    returns (sb': Text, helper': ChunkHelper)
    requires i < numberOfBlocks == BlockCount(|literalText|)
    requires finalBlockLength == FinalBlockLength(b, |literalText|)
    requires sb == LoopState(b, literalText, chunkHelper, i).0
    requires helper == LoopState(b, literalText, chunkHelper, i).1
    ensures sb' == LoopState(b, literalText, chunkHelper, i + 1).0
    ensures helper' == LoopState(b, literalText, chunkHelper, i + 1).1
  {
    var startIndex := SafeCharLimit * i;
    var isFinalBlock := i + 1 == numberOfBlocks;
    BlockBounds(b, |literalText|, i);
    var chunk := literalText[startIndex..startIndex + (if isFinalBlock then finalBlockLength else SafeCharLimit)];
    assert chunk == Block(b, literalText, i);
    var nextId;
    nextId, helper' := NextMemVarId(helper).0, NextMemVarId(helper).1;
    sb' := sb + nextId;
    helper' := Register(helper', nextId, ChunkLiteral(chunk));
    if !isFinalBlock {
      sb' := sb' + PlusOperator();
    }
  }

  /**
   The text and helper after `i` iterations of the chunk loop: the names so
   far, each followed by ` + ` except the last block's, and every block so far
   registered under its name.
   */
  function LoopState(b: Blocking, text: Text, h: ChunkHelper, i: nat): (Text, ChunkHelper)
    requires i <= BlockCount(|text|)
  {
    if i == 0 then ([], h)
    else
      var (sb, h1) := LoopState(b, text, h, i - 1);
      var id := NextMemVarId(h1).0;
      (if i < BlockCount(|text|) then sb + id + PlusOperator() else sb + id,
       Register(NextMemVarId(h1).1, id, ChunkLiteral(Block(b, text, i - 1))))
  }

  /** After `i` iterations the loop has done what `EmitChunks` does on the first `i` blocks. */
  lemma {:induction false} LoopStateIsEmitChunks(b: Blocking, text: Text, h: ChunkHelper, i: nat)
    requires i <= BlockCount(|text|)
    ensures LoopState(b, text, h, i).1 == EmitChunks(h, Blocks(b, text)[..i]).1
    ensures LoopState(b, text, h, i).0
         == JoinPlus(EmitChunks(h, Blocks(b, text)[..i]).0) + (if 0 < i < BlockCount(|text|) then PlusOperator() else [])
  {
    if i > 0 {
      var bs := Blocks(b, text);
      LoopStateIsEmitChunks(b, text, h, i - 1);
      var prev := LoopState(b, text, h, i - 1);
      var names := EmitChunks(h, bs[..i - 1]).0;
      var h1 := EmitChunks(h, bs[..i - 1]).1;
      var id := NextMemVarId(h1).0;
      EmitChunksStep(h, bs, i, names, h1);
      assert LoopState(b, text, h, i).1 == EmitChunks(h, bs[..i]).1 by {
        assert prev.1 == h1;
        assert bs[i - 1] == Block(b, text, i - 1);
      }
      var sep := if i - 1 > 0 then PlusOperator() else [];
      assert prev.0 == JoinPlus(names) + sep;
      assert JoinPlus(EmitChunks(h, bs[..i]).0) == JoinPlus(names) + sep + id by {
        JoinPlusSnoc(names, id);
      }
      if i == BlockCount(|text|) {
        assert LoopState(b, text, h, i).0 == prev.0 + id;
      }
    }
  }

  /** When the loop ends it has emitted every block. */
  lemma LoopStateFinal(b: Blocking, text: Text, h: ChunkHelper)
    ensures LoopState(b, text, h, BlockCount(|text|)).0 == JoinPlus(EmitChunks(h, Blocks(b, text)).0)
    ensures LoopState(b, text, h, BlockCount(|text|)).1 == EmitChunks(h, Blocks(b, text)).1
  {
    var bs := Blocks(b, text);
    LoopStateIsEmitChunks(b, text, h, |bs|);
    assert bs[..|bs|] == bs;
  }

  /** One more iteration of the chunk loop, as `EmitChunks` sees it: block `n - 1` goes under the next name. */
  lemma EmitChunksStep(h: ChunkHelper, blocks: seq<Text>, n: nat, names: seq<Text>, h1: ChunkHelper)
    requires 0 < n <= |blocks| && names == EmitChunks(h, blocks[..n - 1]).0 && h1 == EmitChunks(h, blocks[..n - 1]).1
    ensures EmitChunks(h, blocks[..n]).0 == names + [NextMemVarId(h1).0]
    ensures EmitChunks(h, blocks[..n]).1 == Register(NextMemVarId(h1).1, NextMemVarId(h1).0, ChunkLiteral(blocks[n - 1]))
  {
    assert blocks[..n][..n - 1] == blocks[..n - 1];
  }

  /** Appending one name to the sum adds ` + ` and the name, or just the name to an empty sum. */
  lemma JoinPlusSnoc(names: seq<Text>, id: Text)
    ensures JoinPlus(names + [id]) == JoinPlus(names) + (if |names| > 0 then PlusOperator() else []) + id
  {
    assert (names + [id])[..|names|] == names;
  }

  /** The intended coverage: the corrected blocks, joined, are exactly the text. */
  lemma CorrectedBlocksCoverText(text: Text)
    ensures Concat(Blocks(Corrected, text)) == text
    ensures forall i :: 0 <= i < |Blocks(Corrected, text)| ==> 1 <= |Blocks(Corrected, text)[i]| <= SafeCharLimit
  {
    var bs := Blocks(Corrected, text);
    if |bs| > 0 {
      BlocksPrefixCover(Corrected, text, |bs| - 1);
      BlockBounds(Corrected, |text|, |bs| - 1);
      assert bs[..|bs|][..|bs| - 1] == bs[..|bs| - 1];
      assert bs[..|bs|] == bs;
    }
  }

  /** All blocks but the last are full: the first `k` of them join to the first `k * SafeCharLimit` units. */
  lemma {:induction false} BlocksPrefixCover(b: Blocking, text: Text, k: nat)
    requires k < BlockCount(|text|)
    ensures SafeCharLimit * k <= |text|
    ensures Concat(Blocks(b, text)[..k]) == text[..SafeCharLimit * k]
  {
    var bs := Blocks(b, text);
    if k > 0 {
      BlocksPrefixCover(b, text, k - 1);
      BlockBounds(b, |text|, k - 1);
      assert bs[..k][..k - 1] == bs[..k - 1];
      assert text[..SafeCharLimit * k] == text[..SafeCharLimit * (k - 1)] + bs[k - 1];
    }
  }

  /** Every corrected block but the last has exactly `SafeCharLimit` units; the last has the remainder, or a full block when there is none. */
  lemma CorrectedBlockSizes(text: Text)
    requires |text| > 0
    ensures var bs := Blocks(Corrected, text);
      && (forall i :: 0 <= i < |bs| - 1 ==> |bs[i]| == SafeCharLimit)
      && |bs[|bs| - 1]| == (if |text| % SafeCharLimit == 0 then SafeCharLimit else |text| % SafeCharLimit)
  {
    var bs := Blocks(Corrected, text);
    forall i | 0 <= i < |bs|
      ensures i < |bs| - 1 ==> |bs[i]| == SafeCharLimit
    {
      BlockBounds(Corrected, |text|, i);
    }
    BlockBounds(Corrected, |text|, |bs| - 1);
  }

  /** The code as written covers the text whenever its length is not a multiple of the limit. */
  lemma AsWrittenCoversUnlessMultiple(text: Text)
    requires |text| % SafeCharLimit != 0
    ensures Blocks(AsWritten, text) == Blocks(Corrected, text)
    ensures Concat(Blocks(AsWritten, text)) == text
  {
    CorrectedBlocksCoverText(text);
  }

  /**
   The defect as written: cut by the loop's rule, a non-empty text whose length
   is a multiple of the limit ends in an empty block, and the blocks join to
   the text minus its final `SafeCharLimit` units. The emitter applies the rule
   only above the limit, so the loss shows at `2 * SafeCharLimit` units and
   every larger multiple (`ClassEmitter.AsWrittenDeclarationsLoseTail`).
   */
  lemma AsWrittenDropsFinalBlock(text: Text)
    requires |text| > 0 && |text| % SafeCharLimit == 0
    ensures var bs := Blocks(AsWritten, text);
      && |bs| == |text| / SafeCharLimit
      && bs[|bs| - 1] == []
      && Concat(bs) == text[..|text| - SafeCharLimit]
      && Concat(bs) != text
  {
    var bs := Blocks(AsWritten, text);
    BlocksPrefixCover(AsWritten, text, |bs| - 1);
    assert bs[..|bs|][..|bs| - 1] == bs[..|bs| - 1];
    assert bs[..|bs|] == bs;
    assert Concat(bs) == Concat(bs[..|bs| - 1]) + [];
  }

  /** The string values of a run of registered literals, joined; `None` if one is not a well-formed literal. */
  function DecodedConcat(es: seq<Entry>): Option<Text> {
    if |es| == 0 then Some([])
    else match (DecodedConcat(es[..|es| - 1]), LiteralValue(es[|es| - 1].literal))
      case (Some(a), Some(c)) => Some(a + c)
      case _ => None
  }

  /** Each registered literal reads back as its block, so the registered run reads back as the joined blocks. */
  lemma {:induction false} DecodedChunkEntries(names: seq<Text>, chunks: seq<Text>)
    requires |names| == |chunks|
    ensures DecodedConcat(ChunkEntries(names, chunks)) == Some(Concat(chunks))
  {
    if |chunks| > 0 {
      var n := |chunks| - 1;
      DecodedChunkEntries(names[..n], chunks[..n]);
      QuotedEscapeRoundTrip(chunks[n]);
      assert ChunkEntries(names, chunks)[..n] == ChunkEntries(names[..n], chunks[..n]);
    }
  }

  /**
   The data-model invariant, end to end: on a `Numbered` helper, the literals
   the long path registers read back, in insertion order, as the text itself
   when corrected, and as the text without its last `SafeCharLimit` units as
   written when the length is a multiple of the limit.
   */
  lemma RegisteredChunksReadBack(b: Blocking, text: Text, h: ChunkHelper)
    requires Numbered(h) && |text| > SafeCharLimit
    ensures var h' := Embed(b, 0, text, h).1;
      && h'.lookups[..|h.lookups|] == h.lookups
      && (b.Corrected? || |text| % SafeCharLimit != 0 ==> DecodedConcat(h'.lookups[|h.lookups|..]) == Some(text))
      && (b.AsWritten? && |text| % SafeCharLimit == 0 ==>
            DecodedConcat(h'.lookups[|h.lookups|..]) == Some(text[..|text| - SafeCharLimit]))
  {
    var h' := Embed(b, 0, text, h).1;
    var bs := Blocks(b, text);
    var ns := ChunkNames(h, BlockCount(|text|));
    assert h'.lookups[|h.lookups|..] == ChunkEntries(ns, bs);
    DecodedChunkEntries(ns, bs);
    if b.Corrected? {
      CorrectedBlocksCoverText(text);
    } else if |text| % SafeCharLimit != 0 {
      AsWrittenCoversUnlessMultiple(text);
    } else {
      AsWrittenDropsFinalBlock(text);
    }
  }

  /** The threshold: `SafeCharLimit` units stay one literal; one unit more makes two chunks of `SafeCharLimit` and 1. */
  lemma Threshold(b: Blocking, text: Text, h: ChunkHelper)
    ensures |text| == SafeCharLimit ==> Embed(b, 0, text, h) == (Quoted(Escape(text)), h)
    ensures |text| == SafeCharLimit + 1 ==>
      Blocks(b, text) == [text[..SafeCharLimit], text[SafeCharLimit..]]
  {
    if |text| == SafeCharLimit {
      assert Spaces(0) + Quoted(Escape(text)) == Quoted(Escape(text));
    }
    if |text| == SafeCharLimit + 1 {
      var bs := Blocks(b, text);
      assert |bs| == 2;
      assert bs[0] == text[..SafeCharLimit];
      assert bs[1] == text[SafeCharLimit..];
    }
  }
}
