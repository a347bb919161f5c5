/** The differ: lock-step block loop, line assembly and the configuration `init` derives. */
module HexDiff {
  import opened ByteRender
  import opened Colors
  import opened Classify
  import opened Layout
  import opened Streams

  /** DEFAULT_BLOCK_SIZE: bytes per line when no block size is configured. */
  const DEFAULT_BLOCK_SIZE: nat := 16

  /** One emitted result: `self.result(offset=..., description=line)`. */
  datatype Result = Result(offset: int, description: string)

  /** The header arguments: the file names, or only the first one in terse mode with several files. */
  datatype Header = Names(names: seq<string>) | FirstName(name: string)

  /** `self.block`: the configured block size, or the default when it is unset (0). */
  function BlockSize(configured: nat): (b: nat)
    ensures b > 0
    ensures configured != 0 ==> b == configured
    ensures configured == 0 ==> b == DEFAULT_BLOCK_SIZE
  {
    if configured == 0 then DEFAULT_BLOCK_SIZE else configured
  }

  /** `header_width`: the width of one header column. */
  function HeaderWidth(B: nat): nat {
    B * 4 + 2
  }

  /** `file_count`: the number of header columns. */
  function HeaderFileCount(terse: bool, n: nat): nat {
    if terse then 1 else n
  }

  /** A header column is one character narrower than an uncoloured line column. */
  lemma HeaderWidthMatchesColumn(blocks: seq<seq<Byte>>, k: nat, B: nat)
    requires k < |blocks|
    ensures HeaderWidth(B) + 1 == |Column(Plain, blocks, k, B)|
  {
    PlainColumnWidth(blocks, k, B);
  }

  /** The terse flag makes the header as many columns wide as the lines it heads. */
  lemma HeaderCountMatchesLine(terse: bool, n: nat, k: nat)
    requires n > 0
    ensures k < HeaderFileCount(terse, n) <==> Displayed(terse, n, k)
  {
  }

  // ---------------------------------------------------------------------------------------
  // The results `diff_files` emits, as a function of the streams' unread bytes

  /**
   * The block-sets the loop renders, from streams whose unread bytes are `rest`: one per
   * iteration, until an iteration reads nothing from every stream (that one is not rendered).
   */
  function BlockSets(rest: seq<seq<Byte>>, B: nat): (sets: seq<seq<seq<Byte>>>)
    requires B > 0
    ensures |rest| == 0 ==> sets == []
    decreases MaxLen(rest)
  {
    var blocks := Blocks(rest, B);
    AllEmptyIffExhausted(rest, B);
    if AllEmpty(blocks) then []
    else
      AdvanceMaxLen(rest, B);
      [blocks] + BlockSets(Advance(rest, B), B)
  }

  /** One step of `BlockSets`: stop on exhausted streams, else render and advance. */
  lemma BlockSetsUnfold(rest: seq<seq<Byte>>, B: nat)
    requires B > 0
    ensures MaxLen(rest) == 0 ==> BlockSets(rest, B) == []
    ensures MaxLen(rest) > 0 ==>
      && MaxLen(Advance(rest, B)) == (if MaxLen(rest) <= B then 0 else MaxLen(rest) - B)
      && BlockSets(rest, B) == [Blocks(rest, B)] + BlockSets(Advance(rest, B), B)
  {
    AllEmptyIffExhausted(rest, B);
    AdvanceMaxLen(rest, B);
  }

  /**
   * One iteration of the loop in terms of the unread bytes: when every block it reads is
   * empty the streams are exhausted and nothing more is rendered; otherwise it renders
   * its block-set and the longest stream gets shorter.
   */
  lemma Step(rest: seq<seq<Byte>>, B: nat)
    requires B > 0
    ensures var blocks := Blocks(rest, B);
      EmptyCount(blocks, |blocks|) == |rest| ==>
        && BlockSets(rest, B) == []
        && forall k :: 0 <= k < |rest| ==> Advance(rest, B)[k] == []
    ensures var blocks := Blocks(rest, B);
      EmptyCount(blocks, |blocks|) != |rest| ==>
        && |blocks| > 0
        && BlockSets(rest, B) == [blocks] + BlockSets(Advance(rest, B), B)
        && MaxLen(Advance(rest, B)) < MaxLen(rest)
  {
    var blocks := Blocks(rest, B);
    AllEmptyIffExhausted(rest, B);
    BlockSetsUnfold(rest, B);
    EmptyCountAll(blocks, |blocks|);
    if EmptyCount(blocks, |blocks|) == |rest| {
      MaxLenBound(rest);
    }
  }

  /** The results for block-sets `sets`, the `k`-th rendered as iteration `k`. */
  function Render(p: Painter, terse: bool, B: nat, sets: seq<seq<seq<Byte>>>, base: int): (results: seq<Result>)
    requires forall k :: 0 <= k < |sets| ==> |sets[k]| > 0
    ensures |results| == |sets|
  {
    seq(|sets|, k requires 0 <= k < |sets| => Result(base + B * k, Line(p, terse, B, sets[k], k)))
  }

  /** Rendering one more block-set appends the result of one more iteration. */
  lemma RenderSnoc(p: Painter, terse: bool, B: nat, sets: seq<seq<seq<Byte>>>, blocks: seq<seq<Byte>>, base: int)
    requires forall k :: 0 <= k < |sets| ==> |sets[k]| > 0
    requires |blocks| > 0
    ensures Render(p, terse, B, sets + [blocks], base) ==
            Render(p, terse, B, sets, base) + [Result(base + B * |sets|, Line(p, terse, B, blocks, |sets|))]
  {
    var all := sets + [blocks];
    assert forall k | 0 <= k < |sets| :: all[k] == sets[k];
  }

  /** Every block-set holds one block per stream, and there is at least one stream. */
  lemma BlockSetsWide(rest: seq<seq<Byte>>, B: nat)
    requires B > 0
    ensures forall k :: 0 <= k < |BlockSets(rest, B)| ==> |BlockSets(rest, B)[k]| == |rest| > 0
  {
    var sets := BlockSets(rest, B);
    forall k | 0 <= k < |sets| ensures |sets[k]| == |rest| > 0 {
      BlockSetsAt(rest, B, k);
    }
  }

  /**
   * What `diff_files` emits for streams whose unread bytes are `rest`, `base` being the
   * offset of the stream the loop variable `fp` is left on.
   */
  function DiffLines(p: Painter, terse: bool, B: nat, rest: seq<seq<Byte>>, base: int): seq<Result>
    requires B > 0
  {
    BlockSetsWide(rest, B);
    Render(p, terse, B, BlockSets(rest, B), base)
  }

  /**
   * The loop runs `ceil(L / B)` rendered iterations, `L` the length of the longest stream:
   * the least count of `B`-byte iterations that covers `L` bytes.
   */
  lemma {:induction false} BlockSetsCount(rest: seq<seq<Byte>>, B: nat)
    requires B > 0
    ensures var count := |BlockSets(rest, B)|;
      count * B >= MaxLen(rest) && (count > 0 ==> (count - 1) * B < MaxLen(rest))
    decreases MaxLen(rest)
  {
    BlockSetsUnfold(rest, B);
    if MaxLen(rest) > 0 {
      var next := Advance(rest, B);
      BlockSetsCount(next, B);
      var c := |BlockSets(next, B)|;
      assert |BlockSets(rest, B)| == c + 1;
      CountStep(c, B, MaxLen(rest), MaxLen(next));
    }
  }

  lemma CountStep(c: nat, B: nat, L: nat, next: nat)
    requires B > 0 && L > 0 && next == if L <= B then 0 else L - B
    requires c * B >= next && (c > 0 ==> (c - 1) * B < next)
    ensures (c + 1) * B >= L && c * B < L
  {
    assert (c + 1) * B == c * B + B;
    if c > 0 {
      assert c * B == (c - 1) * B + B;
    }
  }

  lemma DropDrop(s: seq<Byte>, a: nat, b: nat)
    ensures Drop(Drop(s, a), b) == Drop(s, a + b)
  {
    if a + b <= |s| {
      assert s[a..][b..] == s[a + b..];
    }
  }

  /** Advancing by `a` and then by `b` is advancing by `a + b`; by nothing, nothing. */
  lemma AdvanceAdvance(rest: seq<seq<Byte>>, a: nat, b: nat)
    ensures Advance(Advance(rest, a), b) == Advance(rest, a + b)
    ensures Advance(rest, 0) == rest
  {
    var lhs := Advance(Advance(rest, a), b);
    forall m | 0 <= m < |rest| ensures lhs[m] == Advance(rest, a + b)[m] {
      DropDrop(rest[m], a, b);
    }
    var start := Advance(rest, 0);
    assert forall m :: 0 <= m < |rest| ==> start[m] == rest[m];
  }

  lemma BlockSetsTail(rest: seq<seq<Byte>>, B: nat, k: nat)
    requires B > 0 && 0 < k < |BlockSets(rest, B)|
    ensures k - 1 < |BlockSets(Advance(rest, B), B)|
    ensures BlockSets(rest, B)[k] == BlockSets(Advance(rest, B), B)[k - 1]
  {
    BlockSetsUnfold(rest, B);
    var next := BlockSets(Advance(rest, B), B);
    assert MaxLen(rest) > 0;
    assert BlockSets(rest, B) == [Blocks(rest, B)] + next;
    assert ([Blocks(rest, B)] + next)[k] == next[k - 1];
  }

  lemma MulStep(B: nat, k: nat)
    requires k > 0
    ensures B * k == B + B * (k - 1)
  {
  }

  /** Iteration `k` reads bytes `B*k .. B*k + B` of every stream. */
  lemma {:induction false} BlockSetsAt(rest: seq<seq<Byte>>, B: nat, k: nat)
    requires B > 0 && k < |BlockSets(rest, B)|
    ensures BlockSets(rest, B)[k] == Blocks(Advance(rest, B * k), B)
    ensures |BlockSets(rest, B)[k]| == |rest| && |rest| > 0 && !AllEmpty(BlockSets(rest, B)[k])
    decreases k
  {
    if k == 0 {
      BlockSetsUnfold(rest, B);
      AllEmptyIffExhausted(rest, B);
      AdvanceAdvance(rest, 0, 0);
    } else {
      var next := Advance(rest, B);
      var d := B * (k - 1);
      var e := B * k;
      MulStep(B, k);
      assert e == B + d;
      BlockSetsTail(rest, B, k);
      BlockSetsAt(next, B, k - 1);
      AdvanceAdvance(rest, B, d);
      assert Advance(next, d) == Advance(rest, e);
    }
  }

  /**
   * There are `ceil(L / B)` results, `L` the length of the longest stream: the least count
   * of `B`-byte iterations that covers `L` bytes.
   */
  lemma DiffLinesCount(p: Painter, terse: bool, B: nat, rest: seq<seq<Byte>>, base: int)
    requires B > 0
    ensures var count := |DiffLines(p, terse, B, rest, base)|;
      count * B >= MaxLen(rest) && (count > 0 ==> (count - 1) * B < MaxLen(rest))
  {
    BlockSetsCount(rest, B);
    assert |DiffLines(p, terse, B, rest, base)| == |BlockSets(rest, B)|;
  }

  /**
   * Result `k` has offset `base + B * k` and the line of iteration `k`, rendered from
   * bytes `B*k .. B*k + B` of every stream, at least one of which is non-empty.
   */
  lemma DiffLinesAt(p: Painter, terse: bool, B: nat, rest: seq<seq<Byte>>, base: int, k: nat)
    requires B > 0 && k < |DiffLines(p, terse, B, rest, base)|
    ensures var blocks := Blocks(Advance(rest, B * k), B);
      && |blocks| > 0 && !AllEmpty(blocks)
      && DiffLines(p, terse, B, rest, base)[k] == Result(base + B * k, Line(p, terse, B, blocks, k))
  {
    BlockSetsWide(rest, B);
    BlockSetsAt(rest, B, k);
  }

  /** No streams: the loop stops at once and emits nothing. */
  lemma NoStreamsNoLines(p: Painter, terse: bool, B: nat, base: int)
    requires B > 0
    ensures DiffLines(p, terse, B, [], base) == []
  {
    AllEmptyIffExhausted([], B);
  }

  /** With colour and all toggles on, `_color_filter` keeps every non-terse result. */
  lemma DefaultsKeepEveryResult(B: nat, rest: seq<seq<Byte>>, base: int, k: nat)
    requires B > 0
    requires k < |DiffLines(Colorizing, false, B, rest, base)|
    ensures ColorFilter(DiffLines(Colorizing, false, B, rest, base)[k].description, true, true, true)
  {
    DiffLinesAt(Colorizing, false, B, rest, base, k);
    var blocks := Blocks(Advance(rest, B * k), B);
    var m :| 0 <= m < |blocks| && blocks[m] != [];
    DefaultsKeepLine(B, blocks, k, m);
  }

  /** Without colour `_color_filter` keeps no result at all. */
  lemma PlainKeepsNoResult(terse: bool, B: nat, rest: seq<seq<Byte>>, base: int, k: nat,
                           showRed: bool, showGreen: bool, showBlue: bool)
    requires B > 0
    requires k < |DiffLines(Plain, terse, B, rest, base)|
    ensures !ColorFilter(DiffLines(Plain, terse, B, rest, base)[k].description, showRed, showGreen, showBlue)
  {
    DiffLinesAt(Plain, terse, B, rest, base, k);
    var blocks := Blocks(Advance(rest, B * k), B);
    PlainLineNeverVisible(terse, B, blocks, k, showRed, showGreen, showBlue);
  }

  /** `done` followed by the block-sets still to come from `rest` make up `all`. */
  ghost predicate Pending(done: seq<seq<seq<Byte>>>, rest: seq<seq<Byte>>, B: nat, all: seq<seq<seq<Byte>>>)
    requires B > 0
  {
    done + BlockSets(rest, B) == all
  }

  /**
   * One iteration of the loop: when every block read is empty the loop has rendered all it
   * will and every stream is exhausted; otherwise the block-set read is the next one.
   */
  lemma PendingStep(done: seq<seq<seq<Byte>>>, rest: seq<seq<Byte>>, B: nat, all: seq<seq<seq<Byte>>>)
    requires B > 0 && Pending(done, rest, B, all)
    ensures var blocks := Blocks(rest, B);
      EmptyCount(blocks, |blocks|) == |rest| ==>
        && done == all
        && forall k :: 0 <= k < |rest| ==> Advance(rest, B)[k] == []
    ensures var blocks := Blocks(rest, B);
      EmptyCount(blocks, |blocks|) != |rest| ==>
        && |blocks| > 0
        && Pending(done + [blocks], Advance(rest, B), B, all)
        && MaxLen(Advance(rest, B)) < MaxLen(rest)
  {
    var blocks := Blocks(rest, B);
    Step(rest, B);
    if EmptyCount(blocks, |blocks|) != |rest| {
      assert (done + [blocks]) + BlockSets(Advance(rest, B), B) == done + BlockSets(rest, B);
    }
  }

  /** `results` are the results for block-sets `sets`. */
  ghost predicate Rendered(results: seq<Result>, p: Painter, terse: bool, B: nat, sets: seq<seq<seq<Byte>>>, base: int) {
    && (forall k :: 0 <= k < |sets| ==> |sets[k]| > 0)
    && results == Render(p, terse, B, sets, base)
  }

  lemma RenderedSnoc(results: seq<Result>, p: Painter, terse: bool, B: nat, sets: seq<seq<seq<Byte>>>,
                     blocks: seq<seq<Byte>>, base: int)
    requires Rendered(results, p, terse, B, sets, base) && |blocks| > 0
    ensures Rendered(results + [Result(base + B * |sets|, Line(p, terse, B, blocks, |sets|))],
                     p, terse, B, sets + [blocks], base)
  {
    RenderSnoc(p, terse, B, sets, blocks, base);
  }

  /** The offset of the stream the emitted offsets are taken from. */
  function BaseOffset(files: seq<Stream>, terse: bool): int {
    if files == [] then 0 else files[LastRendered(terse, |files|)].offset
  }

  /** The differ's configuration, as `init` and the keyword arguments set it. */
  class HexDiffer {
    const block: nat
    const terse: bool
    const showRed: bool
    const showGreen: bool
    const showBlue: bool
    const colorize: Painter
    const hexTargetFiles: seq<Stream>
    const headerWidth: nat
    const fileCount: nat
    const header: Header

    /** `init`: block size, header width and arguments, and the colour choice. */
    constructor (configBlock: nat, terse: bool, showRed: bool, showGreen: bool, showBlue: bool,
                 colorEnabled: bool, targetFiles: seq<Stream>)
      ensures block == BlockSize(configBlock) && block > 0
      ensures this.terse == terse
      ensures this.showRed == showRed && this.showGreen == showGreen && this.showBlue == showBlue
      ensures colorize == if colorEnabled then Colorizing else Plain
      ensures hexTargetFiles == targetFiles
      ensures headerWidth == HeaderWidth(block)
      ensures fileCount == HeaderFileCount(terse, |targetFiles|)
      ensures header == if terse && |targetFiles| > 1 then FirstName(targetFiles[0].name)
                        else Names(seq(|targetFiles|, k requires 0 <= k < |targetFiles| => targetFiles[k].name))
    {
      var b := configBlock;
      if b == 0 {
        b := DEFAULT_BLOCK_SIZE;
      }
      block := b;
      this.terse := terse;
      this.showRed := showRed;
      this.showGreen := showGreen;
      this.showBlue := showBlue;
      hexTargetFiles := targetFiles;
      headerWidth := (b * 4) + 2;
      fileCount := if terse then 1 else |targetFiles|;
      var names := seq(|targetFiles|, k requires 0 <= k < |targetFiles| => targetFiles[k].name);
      header := if terse && |names| > 1 then FirstName(names[0]) else Names(names);
      colorize := if colorEnabled then Colorizing else Plain;
    }

    /** `hexascii`: counts the blocks that differ from `byte` at `offset` and paints both renderings. */
    method HexAscii(targetData: seq<seq<Byte>>, byte: Byte, offset: nat) returns (hexbyte: string, asciibyte: string)
      ensures var color := ColorOf(DiffCount(targetData, byte, offset), |targetData|);
        && hexbyte == Paint(colorize, Hex2(byte), color)
        && asciibyte == Paint(colorize, Glyph(byte), color)
    {
      var diffCount := 0;
      for j := 0 to |targetData|
        invariant diffCount == DiffCount(targetData[..j], byte, offset)
      {
        var data := targetData[j];
        assert targetData[..j + 1][..j] == targetData[..j];
        if offset >= |data| || data[offset] != byte {
          diffCount := diffCount + 1;
        }
      }
      assert targetData[..|targetData|] == targetData;
      var color;
      if diffCount == |targetData| - 1 {
        color := Red;
      } else if diffCount > 0 {
        color := Blue;
      } else {
        color := Green;
      }
      hexbyte := Paint(colorize, Hex2(byte), color);
      var glyph := if !IsVisible(byte) then "." else [byte as char];
      asciibyte := Paint(colorize, glyph, color);
    }

    /** One column of a line: `block` hex tokens and `block` glyphs of block `k`. */
    method RenderColumn(blocks: seq<seq<Byte>>, k: nat) returns (column: string)
      requires k < |blocks|
      ensures column == Column(colorize, blocks, k, block)
    {
      var hexline := "";
      var asciiline := "";
      for i := 0 to block
        invariant hexline == HexLine(colorize, blocks, k, i)
        invariant asciiline == AsciiLine(colorize, blocks, k, i)
      {
        var hexbyte, asciibyte;
        if i >= |blocks[k]| {
          hexbyte := "XX";
          asciibyte := ".";
        } else {
          hexbyte, asciibyte := HexAscii(blocks, blocks[k][i], i);
        }
        hexline := hexline + (hexbyte + " ");
        asciiline := asciiline + asciibyte;
      }
      column := hexline + " |" + asciiline + "|";
    }

    /**
     * The line of iteration `loopCount`, and the index of the last column written (the stream
     * the loop variable `fp` is left on).
     */
    method RenderLine(blocks: seq<seq<Byte>>, loopCount: nat) returns (line: string, last: nat)
      requires |blocks| > 0
      ensures line == Line(colorize, terse, block, blocks, loopCount)
      ensures last == LastRendered(terse, |blocks|)
    {
      var n := |blocks|;
      ghost var cols := Columns(colorize, blocks, block);
      var seperator := Separators[loopCount % 2];
      var sepText := " " + seperator + " ";
      line := "";
      last := 0;
      var k := 0;
      while k < n
        invariant k <= n
        invariant terse ==> k == 0
        invariant LinePrefix(line, cols, k, SepText(loopCount))
        invariant k > 0 ==> last == k - 1
      {
        ghost var before := line;
        last := k;
        var column := RenderColumn(blocks, k);
        line := line + column;
        if terse {
          LinePrefixFirst(before, cols, SepText(loopCount));
          break;
        }
        if k != n - 1 {
          line := line + sepText;
        }
        LinePrefixStep(before, cols, k, SepText(loopCount));
        k := k + 1;
      }
      if !terse {
        assert cols[..n] == cols;
      }
    }

    /**
     * The reading half of one `diff_files` iteration: `block` bytes from every stream, in
     * order, and the count of streams that gave none.
     */
    method ReadBlocks(targetFiles: seq<Stream>, ghost rest: seq<seq<Byte>>) returns (blockData: seq<seq<Byte>>, doneFiles: nat)
      requires Distinct(targetFiles) && Unread(targetFiles, rest)
      modifies targetFiles
      ensures Unread(targetFiles, Advance(rest, block))
      ensures blockData == Blocks(rest, block)
      ensures doneFiles == EmptyCount(blockData, |blockData|)
    {
      var n := |targetFiles|;
      doneFiles := 0;
      blockData := [];
      ghost var now := rest;
      for j := 0 to n
        invariant Unread(targetFiles, now)
        invariant ReadUpTo(rest, block, j, blockData, now)
        invariant doneFiles == EmptyCount(blockData, j)
      {
        var data := targetFiles[j].Read(block);
        ReadOneMore(rest, block, j, blockData, now);
        blockData := blockData + [data];
        now := now[j := Drop(now[j], block)];
        if |data| == 0 {
          doneFiles := doneFiles + 1;
        }
      }
      ReadAll(rest, block, blockData, now);
    }

    /**
     * The rendering half of one `diff_files` iteration: the line of `blockData`, at the offset
     * of the stream the loop variable `fp` is left on plus `block * loopCount`, appended.
     */
    method EmitLine(targetFiles: seq<Stream>, blockData: seq<seq<Byte>>, loopCount: nat,
                    ghost emitted: seq<seq<seq<Byte>>>, results: seq<Result>) returns (extended: seq<Result>)
      requires |blockData| == |targetFiles| > 0 && |emitted| == loopCount
      requires Rendered(results, colorize, terse, block, emitted, BaseOffset(targetFiles, terse))
      ensures Rendered(extended, colorize, terse, block, emitted + [blockData], BaseOffset(targetFiles, terse))
    {
      var line, last := RenderLine(blockData, loopCount);
      RenderedSnoc(results, colorize, terse, block, emitted, blockData, BaseOffset(targetFiles, terse));
      extended := results + [Result(targetFiles[last].offset + (block * loopCount), line)];
    }

    /**
     * `diff_files`: reads `block` bytes from every stream per iteration until an iteration
     * reads nothing at all, and emits one result per other iteration. Every stream is left
     * exhausted.
     */
    method DiffFiles(targetFiles: seq<Stream>) returns (results: seq<Result>)
      requires block > 0
      requires Distinct(targetFiles)
      modifies targetFiles
      ensures forall k :: 0 <= k < |targetFiles| ==> targetFiles[k].unread == []
      ensures results == DiffLines(colorize, terse, block, old(RestOf(targetFiles)), BaseOffset(targetFiles, terse))
    {
      ghost var rest := RestOf(targetFiles);
      ghost var sets0 := BlockSets(rest, block);
      ghost var base := BaseOffset(targetFiles, terse);
      ghost var emitted: seq<seq<seq<Byte>>> := [];
      var n := |targetFiles|;
      var loopCount := 0;
      results := [];
      assert Pending(emitted, rest, block, sets0);
      while true
        invariant Unread(targetFiles, rest)
        invariant |emitted| == loopCount
        invariant Pending(emitted, rest, block, sets0)
        invariant Rendered(results, colorize, terse, block, emitted, base)
        decreases MaxLen(rest)
      {
        var blockData, doneFiles := ReadBlocks(targetFiles, rest);
        PendingStep(emitted, rest, block, sets0);
        rest := Advance(rest, block);
        if doneFiles == n {
          break;
        }
        results := EmitLine(targetFiles, blockData, loopCount, emitted, results);
        emitted := emitted + [blockData];
        loopCount := loopCount + 1;
      }
    }
  }
}
