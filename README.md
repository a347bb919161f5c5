# binwalk hexdiff, modelled in Dafny

This project models binwalk's multi-file hex differ, `src/binwalk/modules/hexdiff.py`:
- the per-byte classifier `hexascii`;
- the byte renderers (the `%.2X` hex token and the ASCII glyph);
- the lock-step block loop `diff_files`;
- the colour tagging `_colorize` / `_no_colorize`;
- the visibility filter `_color_filter`;
- the part of `init` that fixes the block size, the header and the colour choice.

The differ reads `block` bytes from every input stream per iteration. It emits one line per
iteration, and each line has one hex-and-ASCII column per stream, with alternating `\` and `/`
separators between columns. In each column, every present byte is coloured:
- red when every other stream differs at that index;
- blue when some other stream agrees and some stream differs;
- green when all streams agree.

A stream that is too short to have the index counts as differing. A line is kept only if it
carries the colour tag of a colour whose toggle is on.

Modules:
- `Substring`: Python's `pat in s`.
- `ByteRender`: the hex token, Python's `string` constants and the glyph.
- `Colors`: COLORS, `_colorize`, `_no_colorize` and `_color_filter`, plus the facts about
  where escape tags can occur.
- `Classify`: `diff_count` and the colour it selects.
- `Layout`: the text of one line, with its widths and which tags it carries.
- `Streams`: a stream is a `Stream` object holding its unread bytes. This module has `fp.read`
  and the block-set one iteration reads.
- `HexDiff`: `DEFAULT_BLOCK_SIZE`, the header arithmetic, the specification of everything
  `diff_files` emits (`DiffLines`), and the imperative `HexDiffer` class. The class methods are
  `HexAscii`, `RenderColumn`, `RenderLine`, `ReadBlocks`, `EmitLine` and `DiffFiles`, and each
  is proved against those functions.

Behaviour of the code that the model follows exactly:
- **Reference byte.** Each byte is compared with the byte of the stream whose column is being
  written (line 137), not with the first stream's byte. A column's colours therefore depend on
  which stream it belongs to.
- **Single stream.** The red test comes before the green test (line 94), so with one stream
  every present byte is red and never green.
- **Emitted offset.** The offset comes from the loop variable `fp` left over from the column
  loop (line 150). That is the last stream written: the first stream in terse mode, the last
  stream otherwise.
- **Terse mode.** Once the first stream has ended, its column is all `XX`, and padding is never
  coloured. Under the default toggles `_color_filter` then rejects those lines, even though the
  other streams still have data (`TerseDefaultsKeepLine`).
- **No colour.** Without colour (`_no_colorize`) no line carries a tag, so `_color_filter`
  rejects every line whatever the toggles are (`PlainKeepsNoResult`).

## Model

| member | source | states |
|---|---|---|
| ByteRender.Hex2 | src/binwalk/modules/hexdiff.py:101 | the hex token is exactly two upper-case hex digits whose value is the byte |
| ByteRender.Hex2Injective | src/binwalk/modules/hexdiff.py:101 | two bytes have the same hex token iff they are the same byte |
| ByteRender.VisibleRange | src/binwalk/modules/hexdiff.py:103-104 | a byte is in `string.printable` and not in `string.whitespace` iff it lies in 0x21..0x7E |
| ByteRender.Glyph | src/binwalk/modules/hexdiff.py:103-106 | the glyph is one character: the byte itself for 0x21..0x7E, "." otherwise |
| Colors.Colorize | src/binwalk/modules/hexdiff.py:61-68 | the joined attribute list gives ESC "[" code ";1" "m" text ESC "[0m" when bold, without ";1" when not |
| Colors.PaintPlain | src/binwalk/modules/hexdiff.py:58-59 | `_no_colorize` returns its text unchanged |
| Colors.ColorFilter | src/binwalk/modules/hexdiff.py:70-82 | the three ordered tests return true iff the tag ESC "[" code ";" of some colour whose toggle is on occurs in the text |
| Colors.FilterAllOff | src/binwalk/modules/hexdiff.py:70-82 | with all three toggles off nothing is kept |
| Colors.NoEscFilter | src/binwalk/modules/hexdiff.py:70-82 | text without an escape character is never kept, whatever the toggles |
| Colors.ColorizedTags | src/binwalk/modules/hexdiff.py:61-73 | a colorized escape-free text carries the filter tag of exactly its own colour, and no tag can straddle its end |
| Colors.PaintedTags | src/binwalk/modules/hexdiff.py:58-73 | a painted token carries the tag of colour c iff colour is on and it was painted in c |
| Colors.TagInConcat | src/binwalk/modules/hexdiff.py:75-79 | after an escape-safe text, a tag occurs in a concatenation iff it occurs in one of the parts |
| Classify.DiffCountRange | src/binwalk/modules/hexdiff.py:85-92 | `diff_count` is at most the number of streams, and it is 0 iff every block holds the byte at the index |
| Classify.Classification | src/binwalk/modules/hexdiff.py:85-99 | the count lies in [0, n-1]; red iff every other block differs; green iff n >= 2 and all agree; blue iff another block agrees and some block differs |
| Classify.TwoStreamsNeverBlue | src/binwalk/modules/hexdiff.py:94-99 | with exactly two streams a present byte is never blue |
| Classify.OneStreamAlwaysRed | src/binwalk/modules/hexdiff.py:94-95 | with a single stream every present byte is red |
| Classify.ShortBlockNotGreen | src/binwalk/modules/hexdiff.py:88-99 | a block too short to have the index keeps the byte from being green |
| Layout.HexTokenTags | src/binwalk/modules/hexdiff.py:133-139 | a hex token carries colour c's tag iff the byte is present and colorized in c; "XX" padding carries none |
| Layout.AsciiTokenTags | src/binwalk/modules/hexdiff.py:133-140 | a glyph carries colour c's tag iff the byte is present and colorized in c; "." padding carries none |
| Layout.ColumnLayout | src/binwalk/modules/hexdiff.py:129-142 | a column is the `block` hex tokens, each followed by a space, then a space and a bar, the `block` glyphs and a closing bar |
| Layout.PlainColumnWidth | src/binwalk/modules/hexdiff.py:129-142 | without colour a column is `4 * block + 3` characters wide |
| Layout.PlainLineWidth | src/binwalk/modules/hexdiff.py:128-148 | without colour a line is one column in terse mode, else n columns with n - 1 three-character separators |
| Layout.SepTextShape | src/binwalk/modules/hexdiff.py:117 | the separator is " \ " on even iterations and " / " on odd ones |
| Layout.ColumnTags | src/binwalk/modules/hexdiff.py:129-142 | a column carries colour c's tag iff one of its first `block` indices holds a present byte colorized in c |
| Layout.LineTags | src/binwalk/modules/hexdiff.py:128-148 | a line carries c's tag iff a written column (only the first in terse mode) has a present byte colorized in c |
| Layout.LineVisibility | src/binwalk/modules/hexdiff.py:70-82 | the filter keeps a line iff colour is on and a written column shows a present byte whose colour's toggle is on |
| Layout.DefaultsKeepLine | src/binwalk/modules/hexdiff.py:70-82 | with colour and all toggles on, a non-terse line with any present byte is kept |
| Layout.TerseDefaultsKeepLine | src/binwalk/modules/hexdiff.py:144-145 | in terse mode with all toggles on, a line is kept iff the first stream's block is non-empty |
| Layout.PlainLineNeverVisible | src/binwalk/modules/hexdiff.py:58-59 | a line built by `_no_colorize` is rejected whatever the toggles |
| Layout.TwoStreamExample | src/binwalk/modules/hexdiff.py:84-108 | "AAAA" against "AABA" colours indices 0, 1, 3 green and 2 red; the glyph of 0x42 is "B" |
| Layout.TerseThreeStreamExample | src/binwalk/modules/hexdiff.py:94-99 | with three streams where only the third differs, the first column's byte is blue and the third's is red |
| Streams.Stream.Read | src/binwalk/modules/hexdiff.py:120 | a read returns the next `n` bytes (fewer only at the end, which then leaves nothing unread) and consumes them |
| Streams.EmptyCountAll | src/binwalk/modules/hexdiff.py:119-126 | `done_files` equals the number of streams iff every block read is empty |
| Streams.AllEmptyIffExhausted | src/binwalk/modules/hexdiff.py:119-126 | an iteration reads nothing from any stream iff all streams are exhausted |
| Streams.AdvanceMaxLen | src/binwalk/modules/hexdiff.py:120 | each iteration shortens the longest stream by `block`, down to zero |
| HexDiff.BlockSize | src/binwalk/modules/hexdiff.py:159-161 | the block size is the configured one, or 16 when that is unset; it is positive |
| HexDiff.HeaderWidthMatchesColumn | src/binwalk/modules/hexdiff.py:167 | `header_width` is one character less than an uncoloured column |
| HexDiff.HeaderCountMatchesLine | src/binwalk/modules/hexdiff.py:168-171 | the header has exactly as many columns as a line writes (one in terse mode) |
| HexDiff.BlockSetsUnfold | src/binwalk/modules/hexdiff.py:113-126 | exhausted streams stop the loop; otherwise one block-set is rendered and the loop continues on the rest |
| HexDiff.Step | src/binwalk/modules/hexdiff.py:119-126 | `done_files == len(target_files)` ends the loop with every stream empty; otherwise the block-set is rendered and the longest stream shrinks |
| HexDiff.PendingStep | src/binwalk/modules/hexdiff.py:119-126 | one iteration either finishes with all block-sets rendered or renders exactly the next block-set |
| HexDiff.BlockSetsWide | src/binwalk/modules/hexdiff.py:119-122 | every rendered block-set has one block per stream, and there is at least one stream |
| HexDiff.BlockSetsAt | src/binwalk/modules/hexdiff.py:119-122 | iteration k reads bytes `block*k .. block*k + block` of every stream, at least one of them non-empty |
| HexDiff.BlockSetsCount | src/binwalk/modules/hexdiff.py:113-126 | the loop renders ceil(L / block) block-sets, L being the longest stream's length |
| HexDiff.RenderSnoc | src/binwalk/modules/hexdiff.py:150-151 | rendering one more block-set appends exactly one result, at offset `base + block * loop_count` |
| HexDiff.DiffLinesCount | src/binwalk/modules/hexdiff.py:113-151 | `diff_files` emits ceil(L / block) results |
| HexDiff.DiffLinesAt | src/binwalk/modules/hexdiff.py:150-151 | result k has offset `fp.offset + block * k` and the line of bytes `block*k ..` of every stream |
| HexDiff.NoStreamsNoLines | src/binwalk/modules/hexdiff.py:125-126 | with no streams the loop stops at once and emits nothing |
| HexDiff.DefaultsKeepEveryResult | src/binwalk/modules/hexdiff.py:70-82 | with colour and the default toggles, every non-terse result is kept |
| HexDiff.PlainKeepsNoResult | src/binwalk/modules/hexdiff.py:70-82 | without colour no result is kept, whatever the toggles |
| HexDiff.HexDiffer.constructor | src/binwalk/modules/hexdiff.py:159-184 | `init` sets the block size (default 16), `header_width = block*4 + 2`, the column count (1 if terse), the header names (only the first one when terse with several files) and the colorizer |
| HexDiff.HexDiffer.HexAscii | src/binwalk/modules/hexdiff.py:84-108 | the counting loop gives `diff_count`; both renderings are painted in the colour it selects |
| HexDiff.HexDiffer.RenderColumn | src/binwalk/modules/hexdiff.py:129-142 | the loop over `range(block)` builds the column of the layout, with "XX" and "." past the block's end |
| HexDiff.HexDiffer.RenderLine | src/binwalk/modules/hexdiff.py:128-148 | the column loop writes the line (only the first column if terse, separators between columns, none after the last) and leaves `fp` on the last column written |
| HexDiff.HexDiffer.ReadBlocks | src/binwalk/modules/hexdiff.py:115-122 | reading every stream in order gives the iteration's block-set and `done_files`, and advances every stream by one block |
| HexDiff.HexDiffer.EmitLine | src/binwalk/modules/hexdiff.py:150-151 | the result appended is the next one of the specification |
| HexDiff.HexDiffer.DiffFiles | src/binwalk/modules/hexdiff.py:110-151 | the loop terminates, leaves every stream exhausted, and emits exactly the results `DiffLines` specifies for the streams' initial contents |

## Left out

- The module framework: the `Module` base class, `self.result`, `header`, `footer`, `next_file`, `config`, `validate`/`run`, and the `Option`/`Kwarg` declarations. Results are returned as a sequence, and the keyword arguments are constructor parameters.
- TTY and curses detection in `init`: the terminal check is the `colorEnabled` parameter, which chooses `Colorizing` or `Plain`.
- File I/O: a stream is a `Stream` object holding the bytes not yet read. Its `offset` is constant, and reads never fail. Streams are required to be distinct objects, because the source keys `block_data` by stream.
- HexDiff.HexDiffer.RenderLine: the source's test `fp != target_files[-1]` is modelled as "not the last position". These agree for distinct streams, but not for a list naming one stream twice.
- HexDiff.HexDiffer.DiffFiles: emitting a result is appending it to the returned sequence. The printing and formatting (`RESULT_FORMAT`, `HEADER_FORMAT`) are not modelled.
- `iterator` from `binwalk.core.compat`, and the Python 2/3 `str`/`ord` distinction: bytes are integers 0..255. The order in which `hexascii` visits the block-set does not change the count.
- Negative block sizes: the configured block size is a `nat`, where 0 means "unset".
- `self.config.show_invalid` and the collection of target files through `next_file` are not part of this model.
