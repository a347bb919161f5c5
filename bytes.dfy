/** How one present byte is written in a hexdump column: a hex token and an ASCII glyph. */
module ByteRender {

  /** A byte, as the integer 0..255 that Python's `ord` gives back. */
  type Byte = x: int | 0 <= x < 256

  const HexDigits: string := "0123456789ABCDEF"

  /** Upper-case hexadecimal digit, as `%X` writes it. */
  predicate IsHexDigit(c: char) {
    ('0' <= c <= '9') || ('A' <= c <= 'F')
  }

  /** The value of a hexadecimal digit; -1 for any other character. */
  function DigitValue(c: char): int {
    if '0' <= c <= '9' then c as int - '0' as int
    else if 'A' <= c <= 'F' then c as int - 'A' as int + 10
    else -1
  }

  lemma HexDigitAt(d: int)
    requires 0 <= d < 16
    ensures IsHexDigit(HexDigits[d]) && DigitValue(HexDigits[d]) == d
  {
  }

  /** `"%.2X" % b`: exactly two upper-case hex digits that read back as `b`. */
  function Hex2(b: Byte): (s: string)
    ensures |s| == 2 && IsHexDigit(s[0]) && IsHexDigit(s[1])
    ensures 16 * DigitValue(s[0]) + DigitValue(s[1]) == b
  {
    HexDigitAt(b / 16);
    HexDigitAt(b % 16);
    [HexDigits[b / 16], HexDigits[b % 16]]
  }

  /** Two bytes with the same hex token are the same byte. */
  lemma Hex2Injective(a: Byte, b: Byte)
    ensures Hex2(a) == Hex2(b) <==> a == b
  {
  }

  /** The characters `lo`..`hi` in order. */
  function CharRange(lo: char, hi: char): (s: string)
    requires lo <= hi < 128 as char
    ensures forall c :: c in s <==> lo <= c <= hi
  {
    var s := seq(hi as int - lo as int + 1, i requires 0 <= i <= hi as int - lo as int => (lo as int + i) as char);
    InCharRange(s, lo, hi);
    s
  }

  lemma InCharRange(s: string, lo: char, hi: char)
    requires lo <= hi < 128 as char
    requires |s| == hi as int - lo as int + 1
    requires forall i :: 0 <= i < |s| ==> s[i] == (lo as int + i) as char
    ensures forall c :: c in s <==> lo <= c <= hi
  {
    forall c | lo <= c <= hi
      ensures c in s
    {
      var i := c as int - lo as int;
      assert s[i] == c;
    }
  }

  // Python's `string` module constants; `punctuation` is the graphic ASCII characters
  // that are neither digits nor letters, in code order.
  const Digits: string := CharRange('0', '9')
  const AsciiLowercase: string := CharRange('a', 'z')
  const AsciiUppercase: string := CharRange('A', 'Z')
  const AsciiLetters: string := AsciiLowercase + AsciiUppercase
  const Punctuation: string := CharRange('!', '/') + CharRange(':', '@') + CharRange('[', '`') + CharRange('{', '~')
  const Whitespace: string := [' ', '\t', '\n', '\r', 11 as char, 12 as char]
  const Printable: string := Digits + AsciiLetters + Punctuation + Whitespace

  /** A byte shown as itself in the ASCII column: in `string.printable` and not in `string.whitespace`. */
  predicate IsVisible(b: Byte) {
    (b as char) in Printable && (b as char) !in Whitespace
  }

  /** The bytes shown as themselves are exactly the graphic ASCII characters 0x21..0x7E. */
  lemma VisibleRange(b: Byte)
    ensures IsVisible(b) <==> 0x21 <= b <= 0x7E
  {
    var c := b as char;
    assert c in Whitespace <==> b == 0x20 || 9 <= b <= 13;
    assert c in Printable <==> c in Digits || c in AsciiLetters || c in Punctuation || c in Whitespace;
    assert c in AsciiLetters <==> c in AsciiLowercase || c in AsciiUppercase;
  }

  /** The ASCII glyph of a present byte: the byte itself when visible, otherwise ".". */
  function Glyph(b: Byte): (s: string)
    ensures |s| == 1
    ensures s[0] == if 0x21 <= b <= 0x7E then b as char else '.'
  {
    VisibleRange(b);
    if !IsVisible(b) then "." else [b as char]
  }
}
