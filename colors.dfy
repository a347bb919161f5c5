/** ANSI colour tagging of rendered bytes, and the visibility filter that looks for the tags. */
module Colors {
  import opened Substring

  /** The three classification colours of the COLORS table. */
  datatype Color = Red | Green | Blue

  const ESC: char := 27 as char

  /** COLORS: the ANSI foreground code of each colour. */
  function Code(color: Color): (code: string)
    ensures |code| == 2 && code[0] == '3'
  {
    match color
    case Red => "31"
    case Green => "32"
    case Blue => "34"
  }

  /** Python's `sep.join(parts)`. */
  function Join(parts: seq<string>, sep: string): string
    decreases |parts|
  {
    if |parts| == 0 then ""
    else if |parts| == 1 then parts[0]
    else parts[0] + sep + Join(parts[1..], sep)
  }

  /** The SGR attribute list `_colorize` builds: the colour code, then "1" when bold. */
  function Attributes(color: Color, bold: bool): seq<string> {
    [Code(color)] + if bold then ["1"] else []
  }

  /** `_colorize`: wraps `c` between the escape that selects the colour and the reset escape. */
  function Colorize(c: string, color: Color, bold: bool): (r: string)
    ensures r == [ESC] + "[" + Code(color) + (if bold then ";1" else "") + "m" + c + [ESC] + "[0m"
  {
    assert Join(Attributes(color, bold), ";") == Code(color) + (if bold then ";1" else "");
    [ESC] + "[" + Join(Attributes(color, bold), ";") + "m" + c + [ESC] + "[0m"
  }

  /** `_no_colorize`: leaves the text as it is. */
  function NoColorize(c: string, color: Color, bold: bool): string {
    c
  }

  /** Which of the two the differ uses as `self.colorize`, chosen once from the terminal's capability. */
  datatype Painter = Colorizing | Plain

  /** `self.colorize(c, color)`, with the default `bold=True`. */
  function Paint(p: Painter, c: string, color: Color): string {
    match p
    case Colorizing => Colorize(c, color, true)
    case Plain => NoColorize(c, color, true)
  }

  lemma PaintPlain(c: string, color: Color)
    ensures Paint(Plain, c, color) == c
  {
  }

  /** The text `_color_filter` searches for: ESC "[" code ";". */
  function Tag(color: Color): (t: string)
    ensures |t| == 5 && t[0] == ESC && t[2] == '3'
  {
    [ESC] + "[" + Code(color) + ";"
  }

  /** Whether a colour's toggle (show_red, show_green, show_blue) is on. */
  predicate Shown(color: Color, showRed: bool, showGreen: bool, showBlue: bool) {
    match color
    case Red => showRed
    case Green => showGreen
    case Blue => showBlue
  }

  /** `_color_filter`: the text carries the tag of at least one colour whose toggle is on. */
  function ColorFilter(data: string, showRed: bool, showGreen: bool, showBlue: bool): (r: bool)
    ensures r <==> exists c :: Shown(c, showRed, showGreen, showBlue) && Contains(data, Tag(c))
  {
    var red := Tag(Red);
    var green := Tag(Green);
    var blue := Tag(Blue);
    if showBlue && Contains(data, blue) then true
    else if showGreen && Contains(data, green) then true
    else if showRed && Contains(data, red) then true
    else false
  }

  /** With every toggle off nothing is visible. */
  lemma FilterAllOff(data: string)
    ensures !ColorFilter(data, false, false, false)
  {
  }

  /** Text with no escape character. */
  ghost predicate NoEsc(s: string) {
    forall j :: 0 <= j < |s| ==> s[j] != ESC
  }

  /**
   * Every escape character in `s` is followed, inside `s`, either by room for a whole tag
   * or by "[0": so no tag can start in `s` and run on into text appended after it.
   */
  ghost predicate EscSafe(s: string) {
    forall j {:trigger IsEsc(s, j)} :: 0 <= j < |s| && IsEsc(s, j) ==> j + 5 <= |s| || (j + 2 < |s| && s[j + 2] == '0')
  }

  /** Character `j` of `s` is the escape character. */
  ghost predicate IsEsc(s: string, j: int) {
    0 <= j < |s| && s[j] == ESC
  }

  lemma EscSafeConcat(a: string, b: string)
    requires EscSafe(a) && EscSafe(b)
    ensures EscSafe(a + b)
  {
    var s := a + b;
    forall j | 0 <= j < |s| && IsEsc(s, j)
      ensures j + 5 <= |s| || (j + 2 < |s| && s[j + 2] == '0')
    {
      if j < |a| {
        assert IsEsc(a, j);
        assert j + 2 < |a| ==> s[j + 2] == a[j + 2];
      } else {
        var i := j - |a|;
        assert IsEsc(b, i);
        assert i + 2 < |b| ==> s[j + 2] == b[i + 2];
      }
    }
  }

  /** Text without an escape character carries no colour tag. */
  lemma NoEscHasNoTag(s: string, color: Color)
    requires NoEsc(s)
    ensures !Contains(s, Tag(color))
  {
  }

  /** So the filter rejects such text whatever the toggles are. */
  lemma NoEscFilter(s: string, showRed: bool, showGreen: bool, showBlue: bool)
    requires NoEsc(s)
    ensures !ColorFilter(s, showRed, showGreen, showBlue)
  {
    NoEscHasNoTag(s, Red);
    NoEscHasNoTag(s, Green);
    NoEscHasNoTag(s, Blue);
  }

  /** A tag occurs in `a + b` iff it occurs in `a` or in `b`, when `a` is escape-safe. */
  lemma TagInConcat(a: string, b: string, color: Color)
    requires EscSafe(a)
    ensures Contains(a + b, Tag(color)) <==> Contains(a, Tag(color)) || Contains(b, Tag(color))
  {
    var t := Tag(color);
    var s := a + b;
    ContainsInConcat(a, b, t);
    if Contains(s, t) {
      var k :| 0 <= k <= |s| && OccursAt(s, t, k);
      if k < |a| {
        NoStraddle(a, b, k, color);
        assert a[k..k + 5] == s[k..k + 5];
        assert OccursAt(a, t, k);
      } else {
        assert b[k - |a|..k - |a| + 5] == s[k..k + 5];
        assert OccursAt(b, t, k - |a|);
      }
    }
  }

  /** A tag of `a + b` that starts inside an escape-safe `a` also ends inside it. */
  lemma NoStraddle(a: string, b: string, k: int, color: Color)
    requires EscSafe(a) && 0 <= k < |a| && OccursAt(a + b, Tag(color), k)
    ensures k + 5 <= |a|
  {
    var s := a + b;
    var t := Tag(color);
    assert s[k..k + 5] == t;
    assert a[k] == s[k] == t[0];
    assert IsEsc(a, k);
    assert k + 2 < |a| ==> a[k + 2] == s[k + 2] == t[2];
  }

  /**
   * A painted token is escape-safe, and carries the tag of a colour exactly when it was
   * colorized with that colour; `Plain` painting adds no tag at all.
   */
  lemma PaintedTags(p: Painter, s: string, color: Color, c: Color)
    requires NoEsc(s)
    ensures EscSafe(Paint(p, s, color))
    ensures Contains(Paint(p, s, color), Tag(c)) <==> p == Colorizing && color == c
  {
    if p == Plain {
      NoEscHasNoTag(s, c);
    } else {
      ColorizedTags(s, color, c);
    }
  }

  lemma ColorizedTags(s: string, color: Color, c: Color)
    requires NoEsc(s)
    ensures EscSafe(Colorize(s, color, true))
    ensures Contains(Colorize(s, color, true), Tag(c)) <==> color == c
  {
    var t := Colorize(s, color, true);
    var n := |s|;
    var code := Code(color);
    assert |t| == n + 11;
    assert t[0] == ESC && t[1] == '[' && t[2] == code[0] && t[3] == code[1] && t[4] == ';';
    assert t[5] == '1' && t[6] == 'm';
    assert forall j :: 0 <= j < n ==> t[7 + j] == s[j];
    assert t[n + 7] == ESC && t[n + 8] == '[' && t[n + 9] == '0' && t[n + 10] == 'm';
    assert forall j :: 0 <= j < |t| && t[j] == ESC ==> j == 0 || j == n + 7;
    if color == c {
      assert t[0..5] == Tag(c);
      assert OccursAt(t, Tag(c), 0);
    }
    if Contains(t, Tag(c)) {
      var k :| 0 <= k <= |t| && OccursAt(t, Tag(c), k);
      assert t[k] == t[k..k + 5][0] == ESC;
      if k == 0 {
        assert Code(c)[1] == Tag(c)[3] == t[3] == code[1];
      } else {
        assert false;
      }
    }
  }
}
