/**
 The generator on two concrete inputs with prefix `T` and no frame: a short
 text with characters that need escaping, and a text one unit longer than two
 blocks.
 */
module Scenarios {
  import opened JavaText
  import opened Escaper
  import opened JavaLiteral
  import opened ChunkHelpers
  import opened Chunking
  import opened ClassEmitter

  /** The prefix `T`. */
  const T: u16 := 84

  /** `A\nB"C` becomes the single constant `T = "A\nB\"C"`, with no chunk declarations. */
  lemma ShortExample(b: Blocking)
    ensures CreateClassForStaticText(b, None, None, Some([T]), Some([65, LineFeed, 66, DoubleQuote, 67])).source
         == PublicConstant([T], Quoted([65, Backslash, LetterN, 66, Backslash, DoubleQuote, 67]))
  {
    PrefixT();
    EscapeExample();
    ShortTextLayout(b, None, None, Some([T]), [65, LineFeed, 66, DoubleQuote, 67]);
    AppendNothing(PublicConstant([T], Quoted([65, Backslash, LetterN, 66, Backslash, DoubleQuote, 67])));
  }

  lemma PrefixT()
    ensures NormalisePrefix(Some([T])) == [T]
  {
    var t: Text := [T];
    assert TrimStart(t) == t;
    assert TrimEnd(t) == t;
  }

  lemma EscapeExample()
    ensures Escape([65, LineFeed, 66, DoubleQuote, 67]) == [65, Backslash, LetterN, 66, Backslash, DoubleQuote, 67]
  {
    var s: Text := [65, LineFeed, 66, DoubleQuote, 67];
    assert Escape(s[4..]) == [67];
    assert Escape(s[3..]) == [Backslash, DoubleQuote, 67];
    assert Escape(s[2..]) == [66, Backslash, DoubleQuote, 67];
    assert Escape(s[1..]) == [Backslash, LetterN, 66, Backslash, DoubleQuote, 67];
  }

  /**
   A text of `2 * SafeCharLimit + 1` units: three chunk constants `T0`, `T1`,
   `T2` holding `SafeCharLimit`, `SafeCharLimit` and one unit, and the public
   constant `T = T0 + T1 + T2` after the workaround comment.
   */
  lemma LongExample(b: Blocking, text: Text)
    requires |text| == 2 * SafeCharLimit + 1
    ensures var names := [[T, Zero], [T, Zero + 1], [T, Zero + 2]];
      CreateClassForStaticText(b, None, None, Some([T]), Some(text)).source
      == Assemble(None, None, [T], WorkaroundComment() + ([T, Zero] + PlusOperator() + [T, Zero + 1] + PlusOperator() + [T, Zero + 2]),
                  [Entry([T, Zero], ChunkLiteral(text[..SafeCharLimit])),
                   Entry([T, Zero + 1], ChunkLiteral(text[SafeCharLimit..2 * SafeCharLimit])),
                   Entry([T, Zero + 2], ChunkLiteral(text[2 * SafeCharLimit..]))])
  {
    PrefixT();
    LongTextLayout(b, None, None, Some([T]), text);
    ThreeNames();
    ThreeBlocks(b, text);
    var names := [[T, Zero], [T, Zero + 1], [T, Zero + 2]];
    ThreeJoined(names);
    ThreeEntries(names, Blocks(b, text));
  }

  lemma ThreeNames()
    ensures IdRange([T], 0, 3) == [[T, Zero], [T, Zero + 1], [T, Zero + 2]]
  {
    IdRangeAt([T], 0, 3);
    assert Decimal(0) == [Zero] && Decimal(1) == [Zero + 1] && Decimal(2) == [Zero + 2];
    var ns := IdRange([T], 0, 3);
    assert ns[0] == [T] + [Zero] == [T, Zero];
    assert ns[1] == [T] + [Zero + 1] == [T, Zero + 1];
    assert ns[2] == [T] + [Zero + 2] == [T, Zero + 2];
  }

  lemma ThreeBlocks(b: Blocking, text: Text)
    requires |text| == 2 * SafeCharLimit + 1
    ensures BlockCount(|text|) == 3
    ensures Blocks(b, text) == [text[..SafeCharLimit], text[SafeCharLimit..2 * SafeCharLimit], text[2 * SafeCharLimit..]]
  {
    var len := |text|;
    assert len / SafeCharLimit == 2 && len % SafeCharLimit == 1;
    assert FinalBlockLength(b, len) == 1;
    var bs := Blocks(b, text);
    assert BlockCount(len) == 3;
    assert bs[0] == Block(b, text, 0) == text[0..SafeCharLimit];
    assert bs[1] == Block(b, text, 1) == text[SafeCharLimit..2 * SafeCharLimit];
    assert bs[2] == Block(b, text, 2) == text[2 * SafeCharLimit..2 * SafeCharLimit + 1];
    assert text[2 * SafeCharLimit..2 * SafeCharLimit + 1] == text[2 * SafeCharLimit..];
  }

  lemma ThreeJoined(names: seq<Text>)
    requires |names| == 3
    ensures JoinPlus(names) == names[0] + PlusOperator() + names[1] + PlusOperator() + names[2]
  {
    assert names[..2][..1] == [names[0]];
    assert JoinPlus(names[..2]) == names[0] + PlusOperator() + names[1];
  }

  lemma ThreeEntries(names: seq<Text>, chunks: seq<Text>)
    requires |names| == 3 && |chunks| == 3
    ensures ChunkEntries(names, chunks)
         == [Entry(names[0], ChunkLiteral(chunks[0])), Entry(names[1], ChunkLiteral(chunks[1])),
             Entry(names[2], ChunkLiteral(chunks[2]))]
  {
    assert ChunkEntries(names[..1], chunks[..1]) == [Entry(names[0], ChunkLiteral(chunks[0]))];
    assert names[..2][..1] == names[..1] && chunks[..2][..1] == chunks[..1];
  }
}
