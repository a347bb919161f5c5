/** The text of one diff line: per-stream hex and ASCII columns joined by the alternating separator. */
module Layout {
  import opened Substring
  import opened ByteRender
  import opened Colors
  import opened Classify

  /** The colour of the present byte `i` of block `k`, compared against that byte (`hexascii`). */
  function ColorAt(blocks: seq<seq<Byte>>, k: nat, i: nat): Color
    requires k < |blocks| && i < |blocks[k]|
  {
    ColorOf(DiffCount(blocks, blocks[k][i], i), |blocks|)
  }

  /**
   * The hex token and the ASCII glyph that the column of block `k` shows at index `i`:
   * "XX" and "." past the end of the block, never painted; otherwise the painted renderings
   * of the byte, both in the byte's colour.
   */
  function Token(p: Painter, blocks: seq<seq<Byte>>, k: nat, i: nat): (string, string)
    requires k < |blocks|
  {
    if i >= |blocks[k]| then ("XX", ".")
    else
      var b := blocks[k][i];
      (Paint(p, Hex2(b), ColorAt(blocks, k, i)), Paint(p, Glyph(b), ColorAt(blocks, k, i)))
  }

  /** `hexline` after the first `m` indices: each hex token followed by one space. */
  function HexLine(p: Painter, blocks: seq<seq<Byte>>, k: nat, m: nat): string
    requires k < |blocks|
    decreases m
  {
    if m == 0 then "" else HexLine(p, blocks, k, m - 1) + (Token(p, blocks, k, m - 1).0 + " ")
  }

  /** `asciiline` after the first `m` indices. */
  function AsciiLine(p: Painter, blocks: seq<seq<Byte>>, k: nat, m: nat): string
    requires k < |blocks|
    decreases m
  {
    if m == 0 then "" else AsciiLine(p, blocks, k, m - 1) + Token(p, blocks, k, m - 1).1
  }

  /** `"%s |%s|" % (hexline, asciiline)` for block `k` and block size `B`. */
  function Column(p: Painter, blocks: seq<seq<Byte>>, k: nat, B: nat): string
    requires k < |blocks|
  {
    HexLine(p, blocks, k, B) + " |" + AsciiLine(p, blocks, k, B) + "|"
  }

  function Columns(p: Painter, blocks: seq<seq<Byte>>, B: nat): (cols: seq<string>)
    ensures |cols| == |blocks|
    ensures forall k :: 0 <= k < |blocks| ==> cols[k] == Column(p, blocks, k, B)
  {
    seq(|blocks|, k requires 0 <= k < |blocks| => Column(p, blocks, k, B))
  }

  /** SEPERATORS. */
  const Separators: seq<string> := ["\\", "/"]

  /** `" %s " % seperator` for iteration `loop`: the glyph alternates with the iteration's parity. */
  function SepText(loop: nat): string {
    " " + Separators[loop % 2] + " "
  }

  /** The columns in order with `sep` between consecutive ones and none after the last. */
  function Joined(cols: seq<string>, sep: string): string
    decreases |cols|
  {
    if |cols| == 0 then ""
    else if |cols| == 1 then cols[0]
    else Joined(cols[..|cols| - 1], sep) + sep + cols[|cols| - 1]
  }

  /** `line` is what the loop has written after `k` of the columns: joined, plus a separator unless it wrote them all. */
  ghost predicate LinePrefix(line: string, cols: seq<string>, k: nat, sep: string) {
    k <= |cols| && line == Joined(cols[..k], sep) + (if 0 < k < |cols| then sep else "")
  }

  /** Writing column `k`, and the separator unless it is the last, extends the prefix by one column. */
  lemma LinePrefixStep(before: string, cols: seq<string>, k: nat, sep: string)
    requires LinePrefix(before, cols, k, sep) && k < |cols|
    ensures LinePrefix(before + cols[k] + (if k + 1 < |cols| then sep else ""), cols, k + 1, sep)
  {
    assert cols[..k + 1][..k] == cols[..k];
  }

  /** Writing the first column alone gives that column. */
  lemma LinePrefixFirst(before: string, cols: seq<string>, sep: string)
    requires LinePrefix(before, cols, 0, sep) && |cols| > 0
    ensures before + cols[0] == cols[0]
  {
  }

  /** The line of one iteration: the first column alone in terse mode, otherwise all columns joined. */
  function Line(p: Painter, terse: bool, B: nat, blocks: seq<seq<Byte>>, loop: nat): string
    requires |blocks| > 0
  {
    if terse then Column(p, blocks, 0, B)
    else Joined(Columns(p, blocks, B), SepText(loop))
  }

  /** The index of the last column written: the loop variable `fp` the emitted offset is taken from. */
  function LastRendered(terse: bool, n: nat): nat {
    if terse || n == 0 then 0 else n - 1
  }

  /** Whether column `k` of `n` is written into the line. */
  predicate Displayed(terse: bool, n: nat, k: nat) {
    k < n && (terse ==> k == 0)
  }

  /** Whether the token of block `k` at index `i` is colorized in colour `c`. */
  predicate PaintsAt(p: Painter, blocks: seq<seq<Byte>>, k: nat, i: nat, c: Color)
    requires k < |blocks|
  {
    p == Colorizing && i < |blocks[k]| && ColorAt(blocks, k, i) == c
  }

  // ---------------------------------------------------------------------------------------
  // Layout

  lemma SepTextShape(loop: nat)
    ensures SepText(loop) == if loop % 2 == 0 then " \\ " else " / "
  {
  }

  /** Without colour, a token is two hex digits and one glyph, neither holding an escape. */
  lemma {:induction false} PlainToken(blocks: seq<seq<Byte>>, k: nat, i: nat)
    requires k < |blocks|
    ensures |Token(Plain, blocks, k, i).0| == 2 && |Token(Plain, blocks, k, i).1| == 1
  {
    if i < |blocks[k]| {
      PaintPlain(Hex2(blocks[k][i]), ColorAt(blocks, k, i));
      PaintPlain(Glyph(blocks[k][i]), ColorAt(blocks, k, i));
    }
  }

  lemma {:induction false} PlainLines(blocks: seq<seq<Byte>>, k: nat, m: nat)
    requires k < |blocks|
    ensures |HexLine(Plain, blocks, k, m)| == 3 * m
    ensures |AsciiLine(Plain, blocks, k, m)| == m
    decreases m
  {
    if m > 0 {
      PlainLines(blocks, k, m - 1);
      PlainToken(blocks, k, m - 1);
    }
  }

  /** Without colour a column is `4 * B + 3` characters wide: `B` tokens of 3, " |", `B` glyphs, "|". */
  lemma PlainColumnWidth(blocks: seq<seq<Byte>>, k: nat, B: nat)
    requires k < |blocks|
    ensures |Column(Plain, blocks, k, B)| == 4 * B + 3
  {
    PlainLines(blocks, k, B);
  }

  lemma {:induction false} JoinedLength(cols: seq<string>, sep: string, w: nat)
    requires |cols| > 0
    requires forall j :: 0 <= j < |cols| ==> |cols[j]| == w
    ensures |Joined(cols, sep)| == |cols| * w + (|cols| - 1) * |sep|
    decreases |cols|
  {
    if |cols| > 1 {
      var init := cols[..|cols| - 1];
      assert forall j :: 0 <= j < |init| ==> init[j] == cols[j];
      JoinedLength(init, sep, w);
      assert |cols| * w == |init| * w + w;
      assert (|cols| - 1) * |sep| == (|init| - 1) * |sep| + |sep|;
    }
  }

  /**
   * Without colour a line is one column wide in terse mode, and otherwise `n` columns with
   * one three-character separator between consecutive ones.
   */
  lemma PlainLineWidth(terse: bool, B: nat, blocks: seq<seq<Byte>>, loop: nat)
    requires |blocks| > 0
    ensures |Line(Plain, terse, B, blocks, loop)| ==
            if terse then 4 * B + 3 else |blocks| * (4 * B + 3) + (|blocks| - 1) * 3
  {
    var cols := Columns(Plain, blocks, B);
    forall k | 0 <= k < |blocks|
      ensures |cols[k]| == 4 * B + 3
    {
      PlainColumnWidth(blocks, k, B);
    }
    if !terse {
      JoinedLength(cols, SepText(loop), 4 * B + 3);
    } else {
      PlainColumnWidth(blocks, 0, B);
    }
  }

  // ---------------------------------------------------------------------------------------
  // Which colour tags a line carries

  /** The hex token is escape-safe and carries the tag of `c` iff it is colorized in `c`. */
  lemma HexTokenTags(p: Painter, blocks: seq<seq<Byte>>, k: nat, i: nat, c: Color)
    requires k < |blocks|
    ensures EscSafe(Token(p, blocks, k, i).0)
    ensures Contains(Token(p, blocks, k, i).0, Tag(c)) <==> PaintsAt(p, blocks, k, i, c)
  {
    if i >= |blocks[k]| {
      NoEscHasNoTag("XX", c);
    } else {
      PaintedTags(p, Hex2(blocks[k][i]), ColorAt(blocks, k, i), c);
    }
  }

  /** The glyph is escape-safe and carries the tag of `c` iff it is colorized in `c`. */
  lemma AsciiTokenTags(p: Painter, blocks: seq<seq<Byte>>, k: nat, i: nat, c: Color)
    requires k < |blocks|
    ensures EscSafe(Token(p, blocks, k, i).1)
    ensures Contains(Token(p, blocks, k, i).1, Tag(c)) <==> PaintsAt(p, blocks, k, i, c)
  {
    if i >= |blocks[k]| {
      NoEscHasNoTag(".", c);
    } else {
      PaintedTags(p, Glyph(blocks[k][i]), ColorAt(blocks, k, i), c);
    }
  }

  /** Appending a plain piece after an escape-safe text adds no tag and keeps it escape-safe. */
  lemma AppendPlain(a: string, s: string, c: Color)
    requires EscSafe(a) && NoEsc(s)
    ensures EscSafe(a + s)
    ensures Contains(a + s, Tag(c)) <==> Contains(a, Tag(c))
  {
    EscSafeConcat(a, s);
    TagInConcat(a, s, c);
    NoEscHasNoTag(s, c);
  }

  /** Appending an escape-safe piece: the tags are those of either part. */
  lemma AppendSafe(a: string, s: string, c: Color)
    requires EscSafe(a) && EscSafe(s)
    ensures EscSafe(a + s)
    ensures Contains(a + s, Tag(c)) <==> Contains(a, Tag(c)) || Contains(s, Tag(c))
  {
    EscSafeConcat(a, s);
    TagInConcat(a, s, c);
  }

  /** The pieces `hexline` is built from: each hex token followed by one space. */
  function HexPieces(p: Painter, blocks: seq<seq<Byte>>, k: nat, m: nat): (pieces: seq<string>)
    requires k < |blocks|
    ensures |pieces| == m
    ensures forall i :: 0 <= i < m ==> pieces[i] == Token(p, blocks, k, i).0 + " "
  {
    seq(m, i requires 0 <= i < m => Token(p, blocks, k, i).0 + " ")
  }

  /** The pieces `asciiline` is built from: the glyph tokens. */
  function AsciiPieces(p: Painter, blocks: seq<seq<Byte>>, k: nat, m: nat): (pieces: seq<string>)
    requires k < |blocks|
    ensures |pieces| == m
    ensures forall i :: 0 <= i < m ==> pieces[i] == Token(p, blocks, k, i).1
  {
    seq(m, i requires 0 <= i < m => Token(p, blocks, k, i).1)
  }

  /** The pieces in order, with nothing between them. */
  function Concat(pieces: seq<string>): string
    decreases |pieces|
  {
    if |pieces| == 0 then "" else Concat(pieces[..|pieces| - 1]) + pieces[|pieces| - 1]
  }

  lemma {:induction false} HexLineConcat(p: Painter, blocks: seq<seq<Byte>>, k: nat, m: nat)
    requires k < |blocks|
    ensures HexLine(p, blocks, k, m) == Concat(HexPieces(p, blocks, k, m))
    decreases m
  {
    if m > 0 {
      HexLineConcat(p, blocks, k, m - 1);
      assert HexPieces(p, blocks, k, m)[..m - 1] == HexPieces(p, blocks, k, m - 1);
    }
  }

  lemma {:induction false} AsciiLineConcat(p: Painter, blocks: seq<seq<Byte>>, k: nat, m: nat)
    requires k < |blocks|
    ensures AsciiLine(p, blocks, k, m) == Concat(AsciiPieces(p, blocks, k, m))
    decreases m
  {
    if m > 0 {
      AsciiLineConcat(p, blocks, k, m - 1);
      assert AsciiPieces(p, blocks, k, m)[..m - 1] == AsciiPieces(p, blocks, k, m - 1);
    }
  }

  /**
   * A column is the `B` hex tokens of block `k`, each followed by one space, then " |",
   * then its `B` glyphs, then "|".
   */
  lemma ColumnLayout(p: Painter, blocks: seq<seq<Byte>>, k: nat, B: nat)
    requires k < |blocks|
    ensures Column(p, blocks, k, B) == Concat(HexPieces(p, blocks, k, B)) + " |" + Concat(AsciiPieces(p, blocks, k, B)) + "|"
  {
    HexLineConcat(p, blocks, k, B);
    AsciiLineConcat(p, blocks, k, B);
  }

  /** Escape-safe pieces concatenate to an escape-safe text tagged iff some piece is. */
  lemma {:induction false} ConcatTags(pieces: seq<string>, c: Color)
    requires forall j :: 0 <= j < |pieces| ==> EscSafe(pieces[j])
    ensures EscSafe(Concat(pieces))
    ensures Contains(Concat(pieces), Tag(c)) <==> AnyTagged(pieces, c)
    decreases |pieces|
  {
    if |pieces| == 0 {
      NoEscHasNoTag("", c);
    } else {
      var init := pieces[..|pieces| - 1];
      assert forall j :: 0 <= j < |init| ==> init[j] == pieces[j];
      ConcatTags(init, c);
      AppendSafe(Concat(init), pieces[|pieces| - 1], c);
    }
  }

  lemma HexLineTags(p: Painter, blocks: seq<seq<Byte>>, k: nat, m: nat, c: Color)
    requires k < |blocks|
    ensures EscSafe(HexLine(p, blocks, k, m))
    ensures Contains(HexLine(p, blocks, k, m), Tag(c)) <==> exists i: nat :: i < m && PaintsAt(p, blocks, k, i, c)
  {
    var pieces := HexPieces(p, blocks, k, m);
    forall i | 0 <= i < m
      ensures EscSafe(pieces[i])
      ensures Contains(pieces[i], Tag(c)) <==> PaintsAt(p, blocks, k, i, c)
    {
      HexTokenTags(p, blocks, k, i, c);
      AppendPlain(Token(p, blocks, k, i).0, " ", c);
    }
    HexLineConcat(p, blocks, k, m);
    ConcatTags(pieces, c);
    AnyTaggedIff(pieces, c);
  }

  lemma AsciiLineTags(p: Painter, blocks: seq<seq<Byte>>, k: nat, m: nat, c: Color)
    requires k < |blocks|
    ensures EscSafe(AsciiLine(p, blocks, k, m))
    ensures Contains(AsciiLine(p, blocks, k, m), Tag(c)) <==> exists i: nat :: i < m && PaintsAt(p, blocks, k, i, c)
  {
    var pieces := AsciiPieces(p, blocks, k, m);
    forall i | 0 <= i < m
      ensures EscSafe(pieces[i])
      ensures Contains(pieces[i], Tag(c)) <==> PaintsAt(p, blocks, k, i, c)
    {
      AsciiTokenTags(p, blocks, k, i, c);
    }
    AsciiLineConcat(p, blocks, k, m);
    ConcatTags(pieces, c);
    AnyTaggedIff(pieces, c);
  }

  /** A column carries the tag of `c` iff one of its `B` tokens is colorized in `c`. */
  lemma ColumnTags(p: Painter, blocks: seq<seq<Byte>>, k: nat, B: nat, c: Color)
    requires k < |blocks|
    ensures EscSafe(Column(p, blocks, k, B))
    ensures Contains(Column(p, blocks, k, B), Tag(c)) <==> exists i: nat :: i < B && PaintsAt(p, blocks, k, i, c)
  {
    var h := HexLine(p, blocks, k, B);
    var a := AsciiLine(p, blocks, k, B);
    HexLineTags(p, blocks, k, B, c);
    AsciiLineTags(p, blocks, k, B, c);
    AppendPlain(h, " |", c);
    AppendSafe(h + " |", a, c);
    AppendPlain(h + " |" + a, "|", c);
  }

  /** Some column of `cols` carries the tag of `c`. */
  ghost predicate AnyTagged(cols: seq<string>, c: Color)
    decreases |cols|
  {
    |cols| > 0 && (AnyTagged(cols[..|cols| - 1], c) || Contains(cols[|cols| - 1], Tag(c)))
  }

  lemma {:induction false} AnyTaggedIff(cols: seq<string>, c: Color)
    ensures AnyTagged(cols, c) <==> exists j :: 0 <= j < |cols| && Contains(cols[j], Tag(c))
    decreases |cols|
  {
    if |cols| > 0 {
      var init := cols[..|cols| - 1];
      AnyTaggedIff(init, c);
      assert forall j :: 0 <= j < |init| ==> init[j] == cols[j];
    }
  }

  lemma {:induction false} JoinedTags(cols: seq<string>, sep: string, c: Color)
    requires NoEsc(sep)
    requires forall j :: 0 <= j < |cols| ==> EscSafe(cols[j])
    ensures EscSafe(Joined(cols, sep))
    ensures Contains(Joined(cols, sep), Tag(c)) <==> AnyTagged(cols, c)
    decreases |cols|
  {
    if |cols| == 0 {
      NoEscHasNoTag("", c);
    } else if |cols| == 1 {
      assert cols[..0] == [];
    } else {
      var init := cols[..|cols| - 1];
      assert forall j :: 0 <= j < |init| ==> init[j] == cols[j];
      JoinedTags(init, sep, c);
      var prev := Joined(init, sep);
      AppendPlain(prev, sep, c);
      AppendSafe(prev + sep, cols[|cols| - 1], c);
    }
  }

  lemma ColumnsTags(p: Painter, B: nat, blocks: seq<seq<Byte>>, loop: nat, c: Color)
    requires |blocks| > 0
    ensures EscSafe(Joined(Columns(p, blocks, B), SepText(loop)))
    ensures Contains(Joined(Columns(p, blocks, B), SepText(loop)), Tag(c)) <==>
            exists k: nat, i: nat :: k < |blocks| && i < B && PaintsAt(p, blocks, k, i, c)
  {
    var cols := Columns(p, blocks, B);
    forall j | 0 <= j < |cols|
      ensures EscSafe(cols[j])
      ensures Contains(cols[j], Tag(c)) <==> exists i: nat :: i < B && PaintsAt(p, blocks, j, i, c)
    {
      ColumnTags(p, blocks, j, B, c);
    }
    JoinedTags(cols, SepText(loop), c);
    AnyTaggedIff(cols, c);
    if exists k: nat, i: nat :: k < |blocks| && i < B && PaintsAt(p, blocks, k, i, c) {
      var k: nat, i: nat :| k < |blocks| && i < B && PaintsAt(p, blocks, k, i, c);
      assert Contains(cols[k], Tag(c));
    }
    if Contains(Joined(cols, SepText(loop)), Tag(c)) {
      var j :| 0 <= j < |cols| && Contains(cols[j], Tag(c));
      var i: nat :| i < B && PaintsAt(p, blocks, j, i, c);
    }
  }

  /** A line carries the tag of `c` iff a token of a written column is colorized in `c`. */
  lemma LineTags(p: Painter, terse: bool, B: nat, blocks: seq<seq<Byte>>, loop: nat, c: Color)
    requires |blocks| > 0
    ensures EscSafe(Line(p, terse, B, blocks, loop))
    ensures Contains(Line(p, terse, B, blocks, loop), Tag(c)) <==>
            exists k: nat, i: nat :: Displayed(terse, |blocks|, k) && i < B && PaintsAt(p, blocks, k, i, c)
  {
    if terse {
      ColumnTags(p, blocks, 0, B, c);
      assert forall k: nat :: Displayed(terse, |blocks|, k) <==> k == 0;
    } else {
      ColumnsTags(p, B, blocks, loop, c);
      assert forall k: nat :: Displayed(terse, |blocks|, k) <==> k < |blocks|;
    }
  }

  /**
   * `_color_filter` on a line: it keeps the line iff colour is on and some written column
   * shows a present byte whose colour's toggle is on. Absent positions ("XX") never count,
   * and without colour no line is ever kept.
   */
  lemma LineVisibility(p: Painter, terse: bool, B: nat, blocks: seq<seq<Byte>>, loop: nat,
                       showRed: bool, showGreen: bool, showBlue: bool)
    requires |blocks| > 0
    ensures ColorFilter(Line(p, terse, B, blocks, loop), showRed, showGreen, showBlue) <==>
            p == Colorizing &&
            exists k: nat, i: nat :: Displayed(terse, |blocks|, k) && i < B && i < |blocks[k]| &&
                           Shown(ColorAt(blocks, k, i), showRed, showGreen, showBlue)
  {
    var line := Line(p, terse, B, blocks, loop);
    LineTags(p, terse, B, blocks, loop, Red);
    LineTags(p, terse, B, blocks, loop, Green);
    LineTags(p, terse, B, blocks, loop, Blue);
    if p == Colorizing && exists k: nat, i: nat :: Displayed(terse, |blocks|, k) && i < B && i < |blocks[k]| &&
                                        Shown(ColorAt(blocks, k, i), showRed, showGreen, showBlue) {
      var k: nat, i: nat :| Displayed(terse, |blocks|, k) && i < B && i < |blocks[k]| &&
                  Shown(ColorAt(blocks, k, i), showRed, showGreen, showBlue);
      assert PaintsAt(p, blocks, k, i, ColorAt(blocks, k, i));
    }
  }

  /** With colour and every toggle on, a non-terse line holding any present byte is kept. */
  lemma DefaultsKeepLine(B: nat, blocks: seq<seq<Byte>>, loop: nat, k: nat)
    requires B > 0 && k < |blocks| && |blocks[k]| > 0
    ensures ColorFilter(Line(Colorizing, false, B, blocks, loop), true, true, true)
  {
    LineVisibility(Colorizing, false, B, blocks, loop, true, true, true);
    assert Displayed(false, |blocks|, k) && 0 < B && 0 < |blocks[k]|;
    assert Shown(ColorAt(blocks, k, 0), true, true, true);
  }

  /**
   * In terse mode the defaults keep a line iff the first stream's block is not empty: once
   * the first stream has ended its column is all "XX" and carries no tag.
   */
  lemma TerseDefaultsKeepLine(B: nat, blocks: seq<seq<Byte>>, loop: nat)
    requires B > 0 && |blocks| > 0
    ensures ColorFilter(Line(Colorizing, true, B, blocks, loop), true, true, true) <==> |blocks[0]| > 0
  {
    LineVisibility(Colorizing, true, B, blocks, loop, true, true, true);
    if |blocks[0]| > 0 {
      assert Displayed(true, |blocks|, 0) && 0 < B && 0 < |blocks[0]|;
      assert Shown(ColorAt(blocks, 0, 0), true, true, true);
    }
  }

  /** Without colour `_color_filter` rejects every line, whatever the toggles. */
  lemma PlainLineNeverVisible(terse: bool, B: nat, blocks: seq<seq<Byte>>, loop: nat,
                              showRed: bool, showGreen: bool, showBlue: bool)
    requires |blocks| > 0
    ensures !ColorFilter(Line(Plain, terse, B, blocks, loop), showRed, showGreen, showBlue)
  {
    LineVisibility(Plain, terse, B, blocks, loop, showRed, showGreen, showBlue);
  }

  // ---------------------------------------------------------------------------------------
  // Worked examples

  /** Two streams "AAAA" and "AABA": green, green, red, green; the glyph at index 2 of the second is "B". */
  lemma TwoStreamExample()
    ensures var blocks: seq<seq<Byte>> := [[0x41, 0x41, 0x41, 0x41], [0x41, 0x41, 0x42, 0x41]];
      && ColorAt(blocks, 0, 0) == Green && ColorAt(blocks, 0, 1) == Green
      && ColorAt(blocks, 0, 2) == Red && ColorAt(blocks, 0, 3) == Green
      && ColorAt(blocks, 1, 2) == Red && Glyph(blocks[1][2]) == "B"
  {
    var blocks: seq<seq<Byte>> := [[0x41, 0x41, 0x41, 0x41], [0x41, 0x41, 0x42, 0x41]];
    Classification(blocks, 0, 0);
    Classification(blocks, 0, 1);
    Classification(blocks, 0, 2);
    Classification(blocks, 0, 3);
    Classification(blocks, 1, 2);
  }

  /** Three streams where the first two agree and the third differs: blue in the first column. */
  lemma TerseThreeStreamExample()
    ensures var blocks: seq<seq<Byte>> := [[0x10], [0x10], [0x20]];
      ColorAt(blocks, 0, 0) == Blue && ColorAt(blocks, 2, 0) == Red
  {
    var blocks: seq<seq<Byte>> := [[0x10], [0x10], [0x20]];
    Classification(blocks, 0, 0);
    assert !DiffersAt(blocks[1], 0x10, 0) && DiffersAt(blocks[2], 0x10, 0);
    Classification(blocks, 2, 0);
  }
}
