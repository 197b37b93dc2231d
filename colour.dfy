/** `parse_color` (src/main.rs:141-151): a colour string such as
    `#FF0000` resolved to an RGB triple, black when malformed. */
module Colour {
  import opened Common
  import Utf8

  /** An `(u8, u8, u8)` triple, also one `image::Rgb<u8>` pixel. */
  datatype Rgb = Rgb(r: Byte, g: Byte, b: Byte)

  const Black := Rgb(0, 0, 0)
  const White := Rgb(255, 255, 255)

  const Hash: Byte := 0x23   // '#'
  const Plus: Byte := 0x2B   // '+'
  const Minus: Byte := 0x2D  // '-'

  /** `char::to_digit(16)` on one byte: ASCII `0-9`, `a-f`, `A-F`. */
  function HexDigit(b: Byte): (r: Option<nat>)
    ensures r.Some? ==> r.value < 16
  {
    if 0x30 <= b <= 0x39 then Some(b - 0x30)
    else if 0x61 <= b <= 0x66 then Some(b - 0x61 + 10)
    else if 0x41 <= b <= 0x46 then Some(b - 0x41 + 10)
    else None
  }

  /** Big-endian value of a run of hexadecimal digits; `None` as soon as
      one byte is not a digit. */
  function DigitsValue(ds: seq<Byte>): Option<nat>
    decreases |ds|
  {
    if ds == [] then Some(0)
    else
      match DigitsValue(ds[..|ds| - 1])
      case None => None
      case Some(v) =>
        match HexDigit(ds[|ds| - 1])
        case None => None
        case Some(d) => Some(v * 16 + d)
  }

  /** One or two digits read big-endian. */
  lemma DigitsValueShort(ds: seq<Byte>)
    ensures |ds| == 1 ==> DigitsValue(ds) == HexDigit(ds[0])
    ensures |ds| == 2 ==>
      DigitsValue(ds) == (if HexDigit(ds[0]).Some? && HexDigit(ds[1]).Some?
                          then Some(HexDigit(ds[0]).value * 16 + HexDigit(ds[1]).value) else None)
  {
    if |ds| == 2 {
      assert ds[..1][..0] == [];
    } else if |ds| == 1 {
      assert ds[..0] == [];
    }
  }

  /** What the standard library's `u8::from_str_radix(p, 16)` yields for a
      two-byte string: two digits, or a `+` sign and one digit. */
  function HexPair(hi: Byte, lo: Byte): Option<Byte> {
    match (HexDigit(hi), HexDigit(lo))
    case (Some(h), Some(l)) => Some(h * 16 + l)
    case (None, Some(l)) => if hi == Plus then Some(l) else None
    case _ => None
  }

  /** `u8::from_str_radix(src, 16)`: empty input and a lone sign are errors;
      one leading `+` is skipped (a `-` is not, the type being unsigned);
      every remaining byte must be a hexadecimal digit; a value above 255
      overflows. Every error is `None`. */
  function U8FromStrRadix16(src: seq<Byte>): (r: Option<Byte>)
    ensures |src| == 2 ==> r == HexPair(src[0], src[1])
  {
    DigitsValueShort(src);
    DigitsValueShort(if src == [] then [] else src[1..]);
    if src == [] || src == [Plus] || src == [Minus] then None
    else
      var digits := if src[0] == Plus then src[1..] else src;
      match DigitsValue(digits)
      case Some(v) => if v < 256 then Some(v) else None
      case None => None
  }

  /** `str::trim_start_matches('#')` on the byte view: drops EVERY leading
      `#`, not just one. */
  function TrimStartHashes(b: seq<Byte>): (r: seq<Byte>)
    ensures |r| <= |b| && r == b[|b| - |r|..]
    ensures forall i :: 0 <= i < |b| - |r| ==> b[i] == Hash
    ensures r == [] || r[0] != Hash
    decreases |b|
  {
    if b != [] && b[0] == Hash then TrimStartHashes(b[1..]) else b
  }

  /** Six bytes whose byte 2 or byte 4 is inside a multi-byte character:
      one of the slices `[0..2]`, `[2..4]`, `[4..6]` cuts a character. */
  predicate CutsChar(hex: seq<Byte>) {
    |hex| == 6 && (Utf8.IsContinuation(hex[2]) || Utf8.IsContinuation(hex[4]))
  }

  /** `parse_color` on the UTF-8 bytes of its argument. A remainder that is
      not exactly six BYTES long gives black. Otherwise each two-byte slice
      is parsed on its own and a bad one reads as 0; slicing panics when
      byte 2 or byte 4 falls inside a multi-byte character. */
  function ParseColorBytes(bytes: seq<Byte>): (r: Panicking<Rgb>)
    ensures r.Panics? <==> CutsChar(TrimStartHashes(bytes))
    ensures |TrimStartHashes(bytes)| != 6 ==> r == Returns(Black)
    ensures var hex := TrimStartHashes(bytes);
      r.Returns? && |hex| == 6 ==>
        r.value == Rgb(HexPair(hex[0], hex[1]).UnwrapOr(0),
                       HexPair(hex[2], hex[3]).UnwrapOr(0),
                       HexPair(hex[4], hex[5]).UnwrapOr(0))
  {
    var hex := TrimStartHashes(bytes);
    if |hex| == 6 then
      if !Utf8.IsCharBoundary(hex, 2) || !Utf8.IsCharBoundary(hex, 4) then Panics
      else
        Returns(ReadPairs(hex))
    else Returns(Black)
  }

  /** The three `u8::from_str_radix(&hex[..], 16).unwrap_or(0)` reads: each
      channel is the value of its own pair, or 0 when that pair is malformed. */
  function ReadPairs(hex: seq<Byte>): (c: Rgb)
    requires |hex| == 6
    ensures c == Rgb(HexPair(hex[0], hex[1]).UnwrapOr(0),
                     HexPair(hex[2], hex[3]).UnwrapOr(0),
                     HexPair(hex[4], hex[5]).UnwrapOr(0))
  {
    Rgb(U8FromStrRadix16(hex[0..2]).UnwrapOr(0),
        U8FromStrRadix16(hex[2..4]).UnwrapOr(0),
        U8FromStrRadix16(hex[4..6]).UnwrapOr(0))
  }

  /** `parse_color(color_str)`: it panics exactly when the six bytes left
      after the markers have a pair boundary inside a character. */
  function ParseColor(s: string): (r: Panicking<Rgb>)
    ensures r.Panics? <==> CutsChar(TrimStartHashes(Utf8.Encode(s)))
  {
    ParseColorBytes(Utf8.Encode(s))
  }

  /** `n` copies of `#`. */
  function Hashes(n: nat): (r: string)
    ensures |r| == n && forall i :: 0 <= i < n ==> r[i] == '#'
  {
    if n == 0 then [] else ['#'] + Hashes(n - 1)
  }

  /** A hexadecimal digit, upper or lower case. */
  function HexChar(v: nat, upper: bool): (c: char)
    requires v < 16
    ensures c as int < 0x80
    ensures HexDigit(c as int) == Some(v)
  {
    if v < 10 then (0x30 + v) as char
    else if upper then (0x41 + v - 10) as char
    else (0x61 + v - 10) as char
  }

  /** The two digits of one channel, high digit first. */
  function HexByte(v: Byte, upper: bool): (r: string)
    ensures |r| == 2 && r[0] as int < 0x80 && r[1] as int < 0x80
    ensures HexPair(r[0] as int, r[1] as int) == Some(v)
  {
    [HexChar(v / 16, upper), HexChar(v % 16, upper)]
  }

  /** The `RRGGBB` digits of a colour. */
  function HexSpelling(c: Rgb, upper: bool): (r: string)
    ensures |r| == 6 && Utf8.IsAscii(r) && r[0] != '#'
  {
    var s := HexByte(c.r, upper) + HexByte(c.g, upper) + HexByte(c.b, upper);
    assert HexDigit(s[0] as int).Some?;
    s
  }

  /** The `RRGGBB` spelling of a colour after `hashes` markers, the form a
      colour picker sends. */
  function FormatColor(c: Rgb, hashes: nat, upper: bool): string {
    Hashes(hashes) + HexSpelling(c, upper)
  }

  /** Trimming after `n` markers removes exactly those markers. */
  lemma {:induction false} TrimAfterHashes(n: nat, t: seq<Byte>)
    requires t == [] || t[0] != Hash
    ensures TrimStartHashes(Utf8.Encode(Hashes(n)) + t) == t
  {
    EncodeHashes(n);
    TrimHashRun(n, t);
  }

  /** A run of `n` bytes `#`. */
  function HashRun(n: nat): (r: seq<Byte>)
    ensures |r| == n
  {
    seq(n, i => Hash)
  }

  lemma {:induction false} TrimHashRun(n: nat, t: seq<Byte>)
    requires t == [] || t[0] != Hash
    ensures TrimStartHashes(HashRun(n) + t) == t
  {
    if n > 0 {
      assert (HashRun(n) + t)[1..] == HashRun(n - 1) + t;
      TrimHashRun(n - 1, t);
    }
  }

  /** The markers encode to `n` bytes `#`. */
  lemma {:induction false} EncodeHashes(n: nat)
    ensures Utf8.Encode(Hashes(n)) == HashRun(n)
  {
    if n > 0 {
      EncodeHashes(n - 1);
      assert Hashes(n)[1..] == Hashes(n - 1);
      assert HashRun(n) == [Hash] + HashRun(n - 1);
    }
  }

  /** The byte view of `Hashes(n) + t`, for ASCII `t` not starting with a
      marker, trims to the bytes of `t`. */
  lemma TrimmedView(n: nat, t: string)
    requires t == [] || t[0] != '#'
    ensures TrimStartHashes(Utf8.Encode(Hashes(n) + t)) == Utf8.Encode(t)
  {
    Utf8.EncodeAppend(Hashes(n), t);
    if t != [] {
      assert Utf8.Encode(t) == Utf8.EncodeChar(t[0]) + Utf8.Encode(t[1..]);
    }
    TrimAfterHashes(n, Utf8.Encode(t));
  }

  /** Every leading marker is ignored: one more `#` never changes the colour. */
  lemma ParseColorIgnoresMarker(s: string)
    ensures ParseColor(['#'] + s) == ParseColor(s)
  {
    var b := Utf8.Encode(s);
    Utf8.EncodeAppend(['#'], s);
    assert Utf8.Encode(['#']) == [Hash] by {
      assert ['#'][1..] == [];
    }
    var hb := [Hash] + b;
    assert hb[1..] == b;
    assert TrimStartHashes(hb) == TrimStartHashes(b);
  }

  /** After the markers, a text that is not exactly six bytes long resolves to
      black whatever it holds. */
  lemma ParseColorWrongLength(n: nat, t: string)
    requires t == [] || t[0] != '#'
    requires |Utf8.Encode(t)| != 6
    ensures ParseColor(Hashes(n) + t) == Returns(Black)
  {
    TrimmedView(n, t);
  }

  /** Six characters of which one is not ASCII take more than six bytes, so
      they resolve to black. */
  lemma ParseColorSixNonAscii(n: nat, t: string)
    requires t == [] || t[0] != '#'
    requires |t| == 6 && !Utf8.IsAscii(t)
    ensures ParseColor(Hashes(n) + t) == Returns(Black)
  {
    Utf8.EncodeLengthAscii(t);
    ParseColorWrongLength(n, t);
  }

  /** After the markers, six ASCII characters are read as three independent
      pairs: each channel is its own pair's `u8::from_str_radix` value, or 0
      when that pair alone is malformed. */
  lemma ParseColorPairs(n: nat, t: string)
    requires t == [] || t[0] != '#'
    requires |t| == 6 && Utf8.IsAscii(t)
    ensures ParseColor(Hashes(n) + t) ==
      Returns(Rgb(HexPair(t[0] as int, t[1] as int).UnwrapOr(0),
                  HexPair(t[2] as int, t[3] as int).UnwrapOr(0),
                  HexPair(t[4] as int, t[5] as int).UnwrapOr(0)))
  {
    var b := Utf8.Encode(Hashes(n) + t);
    var hex := Utf8.Encode(t);
    TrimmedView(n, t);
    Utf8.EncodeAscii(t);
    assert TrimStartHashes(b) == hex;
  }

  /** Colour resolution never panics on ASCII input. */
  lemma ParseColorAsciiTotal(s: string)
    requires Utf8.IsAscii(s)
    ensures ParseColor(s).Returns?
  {
    Utf8.EncodeAscii(s);
    var b := Utf8.Encode(s);
    var hex := TrimStartHashes(b);
    if |hex| == 6 {
      assert hex[2] == b[|b| - 6 + 2] == s[|b| - 6 + 2] as int;
      assert hex[4] == b[|b| - 6 + 4] == s[|b| - 6 + 4] as int;
    }
  }

  /** Round trip: the `#RRGGBB` spelling of any colour, in either case and
      after any number of markers, resolves to that colour. */
  lemma ParseFormatColor(c: Rgb, hashes: nat, upper: bool)
    ensures ParseColor(FormatColor(c, hashes, upper)) == Returns(c)
  {
    var t := HexSpelling(c, upper);
    assert t == HexByte(c.r, upper) + HexByte(c.g, upper) + HexByte(c.b, upper);
    ParseColorPairs(hashes, t);
  }

  /** A malformed pair zeroes its own channel only. */
  lemma ParseColorBadPairExample()
    ensures ParseColor("#" + "GG00FF") == Returns(Rgb(0, 0, 255))
  {
    assert Hashes(1) == "#";
    assert HexPair('G' as int, 'G' as int) == None;
    assert HexPair('0' as int, '0' as int) == Some(0);
    assert HexPair('F' as int, 'F' as int) == Some(255);
    ParseColorPairs(1, "GG00FF");
  }

  /** A `+` sign before a single digit is accepted: `+F` reads as 15, while
      `-1` is malformed. */
  lemma ParseColorSignExample()
    ensures ParseColor("+F-1ff") == Returns(Rgb(15, 0, 255))
  {
    assert Hashes(0) + "+F-1ff" == "+F-1ff";
    assert HexPair('+' as int, 'F' as int) == Some(15);
    assert HexPair('-' as int, '1' as int) == None;
    assert HexPair('f' as int, 'f' as int) == Some(255);
    ParseColorPairs(0, "+F-1ff");
  }

  /** Two markers are as good as one. */
  lemma ParseColorTwoMarkersExample()
    ensures ParseColor("##" + "ff8800") == Returns(Rgb(255, 136, 0))
  {
    assert Hashes(2) == "##";
    assert HexPair('f' as int, 'f' as int) == Some(255);
    assert HexPair('8' as int, '8' as int) == Some(136);
    assert HexPair('0' as int, '0' as int) == Some(0);
    ParseColorPairs(2, "ff8800");
  }

  /** A three-digit colour is not expanded: it resolves to black. */
  lemma ParseColorShortExample()
    ensures ParseColor("#" + "FFF") == Returns(Black)
  {
    assert Hashes(1) == "#";
    Utf8.EncodeAscii("FFF");
    ParseColorWrongLength(1, "FFF");
  }

  /** A non-ASCII pair that does not cut a character is malformed and
      reads as 0: `é` is the two bytes `0xC3 0xA9`. */
  lemma ParseColorNonAsciiPairExample()
    ensures ParseColor("\U{E9}abcd") == Returns(Rgb(0, 171, 205))
  {
    var s := "\U{E9}abcd";
    assert Utf8.Encode(s) == [0xC3, 0xA9, 0x61, 0x62, 0x63, 0x64] by {
      assert Utf8.Encode(s) == Utf8.EncodeChar(s[0]) + Utf8.Encode(s[1..]);
      Utf8.EncodeAscii(s[1..]);
    }
    assert HexPair(0xC3, 0xA9) == None;
    assert HexPair(0x61, 0x62) == Some(171);
    assert HexPair(0x63, 0x64) == Some(205);
  }

  /** Six bytes whose pair boundary falls inside `é` (`0xC3 0xA9`): the slice
      `&hex[0..2]` panics. */
  lemma ParseColorPanicExample()
    ensures ParseColor("a\U{E9}bcd") == Panics
  {
    var s := "a\U{E9}bcd";
    assert Utf8.Encode(s) == [0x61, 0xC3, 0xA9, 0x62, 0x63, 0x64] by {
      assert Utf8.Encode(s) == Utf8.EncodeChar(s[0]) + Utf8.Encode(s[1..]);
      assert Utf8.Encode(s[1..]) == Utf8.EncodeChar(s[1]) + Utf8.Encode(s[2..]);
      Utf8.EncodeAscii(s[2..]);
    }
  }
}
