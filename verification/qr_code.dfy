/**
 * The arithmetic around QR rendering: the blank-text guard, the PNG size clamp,
 * the pixels-per-module heuristic, the preset table and the `#RRGGBB` parser.
 * The QR encoder itself is a library call and is not modelled.
 */
module QrCode {
  import opened Wrappers
  import opened Text
  import opened Model
  import opened Numbers

  datatype EccLevel = L | M | Q | H

  /** `QrPreset`: only `Default` is named in the service; every value takes the same style. */
  datatype Preset = Default | Other(value: int)

  datatype Style = Style(ecc: EccLevel, dark: string, light: string, quietZones: bool)

  const Black: string := "#000000"
  const White: string := "#FFFFFF"

  /** `ResolvePreset`: every preset, named or not, gets level M, black on white, quiet zones on. */
  function ResolvePreset(p: Preset): (s: Style)
    ensures s.ecc == M && s.dark == Black && s.light == White && s.quietZones
  {
    match p
    case Default => Style(M, Black, White, true)
    case Other(_) => Style(M, Black, White, true)
  }

  const MinPngSize: int := 64
  const MaxPngSize: int := 2048
  const ModulesPerSide: int := 40
  const MinPixelsPerModule: int := 2

  /** `Math.Clamp(size, 64, 2048)`. */
  function ClampSize(size: int): (r: int)
    ensures MinPngSize <= r <= MaxPngSize
    ensures MinPngSize <= size <= MaxPngSize ==> r == size
    ensures size < MinPngSize ==> r == MinPngSize
    ensures MaxPngSize < size ==> r == MaxPngSize
  {
    Clamp(size, MinPngSize, MaxPngSize)
  }

  /**
   * `Math.Max(2, size / 40)` on a clamped (so positive) size, where C#'s
   * truncating division agrees with Dafny's: the largest module width that
   * fits 40 modules into `size`, but never below 2 pixels.
   */
  function PixelsPerModule(size: int): (ppm: int)
    requires MinPngSize <= size <= MaxPngSize
    ensures MinPixelsPerModule <= ppm
    ensures size < ModulesPerSide * MinPixelsPerModule ==> ppm == MinPixelsPerModule
    ensures ModulesPerSide * MinPixelsPerModule <= size ==>
      ModulesPerSide * ppm <= size < ModulesPerSide * (ppm + 1)
  {
    Max(MinPixelsPerModule, size / ModulesPerSide)
  }

  /** The value of one hexadecimal digit of either case. */
  function HexDigit(c: char): (r: Option<int>)
    ensures r.Some? ==> 0 <= r.value < 16
    ensures r.Some? <==> IsAsciiDigit(c) || 'a' <= c <= 'f' || 'A' <= c <= 'F'
  {
    if '0' <= c <= '9' then Some(c as int - '0' as int)
    else if 'a' <= c <= 'f' then Some(c as int - 'a' as int + 10)
    else if 'A' <= c <= 'F' then Some(c as int - 'A' as int + 10)
    else None
  }

  /**
   * `Convert.ToByte(pair, 16)` on two characters. A leading '-' is refused in
   * any base but 10 (`ArgumentException`); a leading '+' is skipped, so one hex
   * digit must follow; otherwise both characters must be hex digits. Anything
   * else is a `FormatException`.
   */
  function ParseByte(pair: string): (r: Call<byte>)
    requires |pair| == 2
    ensures pair[0] == '-' ==> r == Throws(Argument)
    ensures pair[0] == '+' ==> (r.Returns? <==> HexDigit(pair[1]).Some?)
    ensures pair[0] == '+' && r.Returns? ==> r.value as int == HexDigit(pair[1]).value
    ensures pair[0] != '+' && pair[0] != '-' ==> (r.Returns? <==> HexDigit(pair[0]).Some? && HexDigit(pair[1]).Some?)
    ensures pair[0] != '+' && r.Returns? ==> r.value as int == 16 * HexDigit(pair[0]).value + HexDigit(pair[1]).value
    ensures r.Throws? && pair[0] != '-' ==> r.error == Format
  {
    if pair[0] == '-' then Throws(Argument)
    else if pair[0] == '+' then
      match HexDigit(pair[1])
      case Some(lo) => Returns(lo as byte)
      case None => Throws(Format)
    else
      match (HexDigit(pair[0]), HexDigit(pair[1]))
      case (Some(hi), Some(lo)) => Returns((16 * hi + lo) as byte)
      case _ => Throws(Format)
  }

  /** The sign prefixes: "+F" reads as 15, "-F" is an `ArgumentException`. */
  lemma SignedPairs()
    ensures ParseByte("+F") == Returns(15)
    ensures ParseByte("-F") == Throws(Argument)
    ensures ParseByte("0x") == Throws(Format)
  {
  }

  /** What `HexToRgb` parses: the trimmed input without its leading `#` characters. */
  function HexBody(hex: string): string {
    TrimStartChar(Trim(hex), '#')
  }

  /** `HexToRgb`: three bytes from six characters read as three pairs; any other length gives black. */
  function HexToRgb(hex: string): (r: Call<seq<byte>>)
    ensures r.Returns? ==> |r.value| == 3
    ensures |HexBody(hex)| != 6 ==> r == Returns([0, 0, 0])
    ensures |HexBody(hex)| == 6 ==> r == Triple(HexBody(hex))
    ensures r.Throws? ==> r.error == Format || r.error == Argument
  {
    var h := HexBody(hex);
    if |h| != 6 then Returns([0, 0, 0]) else Triple(h)
  }

  /**
   * Six characters read as three pairs, left to right: the first pair that
   * does not parse decides the exception. Six hex digits always parse.
   */
  function Triple(h: string): (r: Call<seq<byte>>)
    requires |h| == 6
    ensures var a, b, c := ParseByte(h[0..2]), ParseByte(h[2..4]), ParseByte(h[4..6]);
      && (r.Returns? <==> a.Returns? && b.Returns? && c.Returns?)
      && (r.Returns? ==> r.value == [a.value, b.value, c.value])
      && (a.Throws? ==> r == Throws(a.error))
      && (a.Returns? && b.Throws? ==> r == Throws(b.error))
      && (a.Returns? && b.Returns? && c.Throws? ==> r == Throws(c.error))
    ensures r.Throws? ==> r.error == Format || r.error == Argument
    ensures r.Throws? && r.error == Argument ==> h[0] == '-' || h[2] == '-' || h[4] == '-'
    ensures (forall k | 0 <= k < 6 :: HexDigit(h[k]).Some?) ==> r.Returns? && |r.value| == 3 && forall k | 0 <= k < 3 ::
      r.value[k] as int == 16 * HexDigit(h[2 * k]).value + HexDigit(h[2 * k + 1]).value
  {
    var a := ParseByte(h[0..2]);
    var b := ParseByte(h[2..4]);
    var c := ParseByte(h[4..6]);
    assert h[0..2][0] == h[0] && h[0..2][1] == h[1];
    assert h[2..4][0] == h[2] && h[2..4][1] == h[3];
    assert h[4..6][0] == h[4] && h[4..6][1] == h[5];
    match a
    case Throws(e) => Throws(e)
    case Returns(x) =>
      match b
      case Throws(e) => Throws(e)
      case Returns(y) =>
        match c
        case Throws(e) => Throws(e)
        case Returns(z) =>
          var r := [x, y, z];
          assert (forall k | 0 <= k < 6 :: HexDigit(h[k]).Some?) ==> forall k | 0 <= k < 3 ::
            r[k] as int == 16 * HexDigit(h[2 * k]).value + HexDigit(h[2 * k + 1]).value by {
            if forall k | 0 <= k < 6 :: HexDigit(h[k]).Some? {
              assert HexDigit(h[0]).Some? && HexDigit(h[2]).Some? && HexDigit(h[4]).Some?;
              forall k | 0 <= k < 3 ensures r[k] as int == 16 * HexDigit(h[2 * k]).value + HexDigit(h[2 * k + 1]).value {
                if k == 0 {} else if k == 1 {} else {}
              }
            }
          }
          Returns(r)
  }

  /** An upper-case hex digit. */
  function HexChar(v: int): (c: char)
    requires 0 <= v < 16
    ensures HexDigit(c) == Some(v)
    ensures !IsWhiteSpace(c) && c != '#'
  {
    if v < 10 then ('0' as int + v) as char else ('A' as int + v - 10) as char
  }

  /** The `#RRGGBB` spelling of three bytes. */
  function ToHex(rgb: seq<byte>): string
    requires |rgb| == 3
  {
    ['#',
     HexChar(rgb[0] as int / 16), HexChar(rgb[0] as int % 16),
     HexChar(rgb[1] as int / 16), HexChar(rgb[1] as int % 16),
     HexChar(rgb[2] as int / 16), HexChar(rgb[2] as int % 16)]
  }

  /** Parsing is the inverse of the `#RRGGBB` spelling. */
  lemma HexRoundTrip(rgb: seq<byte>)
    requires |rgb| == 3
    ensures HexToRgb(ToHex(rgb)) == Returns(rgb)
  {
    SpellingBody(rgb);
    SpellingDigits(rgb);
    TripleOfDigits(ToHex(rgb)[1..], rgb);
  }

  /** Six digits that spell the nibbles of three bytes parse to those bytes. */
  lemma TripleOfDigits(h: string, rgb: seq<byte>)
    requires |h| == 6 && |rgb| == 3
    requires HexDigit(h[0]) == Some(rgb[0] as int / 16) && HexDigit(h[1]) == Some(rgb[0] as int % 16)
    requires HexDigit(h[2]) == Some(rgb[1] as int / 16) && HexDigit(h[3]) == Some(rgb[1] as int % 16)
    requires HexDigit(h[4]) == Some(rgb[2] as int / 16) && HexDigit(h[5]) == Some(rgb[2] as int % 16)
    ensures Triple(h) == Returns(rgb)
  {
    var r := Triple(h);
    assert forall k | 0 <= k < 6 :: HexDigit(h[k]).Some? by {
      forall k | 0 <= k < 6 ensures HexDigit(h[k]).Some? {
        if k == 0 {} else if k == 1 {} else if k == 2 {} else if k == 3 {} else if k == 4 {} else {}
      }
    }
    NibblesRebuild(rgb[0]);
    NibblesRebuild(rgb[1]);
    NibblesRebuild(rgb[2]);
    assert r.value[0] as int == 16 * HexDigit(h[0]).value + HexDigit(h[1]).value;
    assert r.value[1] as int == 16 * HexDigit(h[2]).value + HexDigit(h[3]).value;
    assert r.value[2] as int == 16 * HexDigit(h[4]).value + HexDigit(h[5]).value;
    assert r.value == rgb;
  }

  lemma NibblesRebuild(b: byte)
    ensures 16 * (b as int / 16) + b as int % 16 == b as int
  {
  }

  /** The spelling has no blanks and one leading `#`, so its body is the six digits. */
  lemma SpellingBody(rgb: seq<byte>)
    requires |rgb| == 3
    ensures |ToHex(rgb)| == 7 && HexBody(ToHex(rgb)) == ToHex(rgb)[1..]
  {
    var s := ToHex(rgb);
    assert s[0] == '#' && s[1] == HexChar(rgb[0] as int / 16) && s[6] == HexChar(rgb[2] as int % 16);
    TrimOfTrimmed(s);
    var r := TrimStartChar(s, '#');
    assert r == s[1..];
  }

  /** The six digits of the spelling are the two nibbles of each byte. */
  lemma SpellingDigits(rgb: seq<byte>)
    requires |rgb| == 3
    ensures var h := ToHex(rgb)[1..];
      && |h| == 6
      && HexDigit(h[0]) == Some(rgb[0] as int / 16) && HexDigit(h[1]) == Some(rgb[0] as int % 16)
      && HexDigit(h[2]) == Some(rgb[1] as int / 16) && HexDigit(h[3]) == Some(rgb[1] as int % 16)
      && HexDigit(h[4]) == Some(rgb[2] as int / 16) && HexDigit(h[5]) == Some(rgb[2] as int % 16)
  {
  }

  lemma BlackParses()
    ensures HexToRgb(Black) == Returns([0, 0, 0])
  {
    assert HexChar(0) == '0';
    assert ToHex([0, 0, 0]) == Black;
    HexRoundTrip([0, 0, 0]);
  }

  lemma WhiteParses()
    ensures HexToRgb(White) == Returns([255, 255, 255])
  {
    var w: seq<byte> := [255, 255, 255];
    assert w[0] as int == 255 && w[1] as int == 255 && w[2] as int == 255;
    assert 255 / 16 == 15 && 255 % 16 == 15;
    assert HexChar(15) == 'F';
    assert ToHex(w) == White;
    HexRoundTrip(w);
  }

  /** The preset colours parse to black and white. */
  lemma PresetColours(p: Preset)
    ensures HexToRgb(ResolvePreset(p).dark) == Returns([0, 0, 0])
    ensures HexToRgb(ResolvePreset(p).light) == Returns([255, 255, 255])
  {
    BlackParses();
    WhiteParses();
  }

  /** `GenerateSvg` up to the encoder: blank text is an `ArgumentException`, otherwise the preset's style. */
  function GenerateSvg(text: string, preset: Preset): (r: Call<Style>)
    ensures r.Throws? <==> Blank(text)
    ensures r.Throws? ==> r.error == Argument
    ensures r.Returns? ==> r.value == ResolvePreset(preset)
    ensures r.Returns? ==> r.value.ecc == M && r.value.dark == Black && r.value.light == White && r.value.quietZones
  {
    if Blank(text) then Throws(Argument) else Returns(ResolvePreset(preset))
  }

  /** What the PNG renderer is called with. */
  datatype PngPlan = PngPlan(size: int, pixelsPerModule: int, ecc: EccLevel, dark: seq<byte>, light: seq<byte>, quietZones: bool)

  /** `GeneratePng` up to the encoder. */
  function GeneratePng(text: string, size: int, preset: Preset): (r: Call<PngPlan>)
    ensures r.Throws? <==> Blank(text)
    ensures r.Throws? ==> r.error == Argument
    ensures r.Returns? ==>
      && r.value.size == ClampSize(size)
      && MinPngSize <= r.value.size <= MaxPngSize
      && (MinPngSize <= size <= MaxPngSize ==> r.value.size == size)
      && (size < MinPngSize ==> r.value.size == MinPngSize)
      && (MaxPngSize < size ==> r.value.size == MaxPngSize)
      && r.value.pixelsPerModule == PixelsPerModule(r.value.size)
      && MinPixelsPerModule <= r.value.pixelsPerModule
      && r.value.ecc == M && r.value.quietZones
      && r.value.dark == [0, 0, 0] && r.value.light == [255, 255, 255]
  {
    if Blank(text) then Throws(Argument)
    else
      var clamped := ClampSize(size);
      var style := ResolvePreset(preset);
      PresetColours(preset);
      match (HexToRgb(style.dark), HexToRgb(style.light))
      case (Returns(dark), Returns(light)) =>
        Returns(PngPlan(clamped, PixelsPerModule(clamped), style.ecc, dark, light, style.quietZones))
      case _ => assert false; Throws(Format)
  }
}
