/**
 * RGBA colours as the texturizer handles them: four 8-bit channels, the two
 * colour comparisons used across the repository's versions, the
 * "close to black" test, and the `#rrggbb` parser.
 */
module Colors {
  import opened Wrappers

  /** One 8-bit channel value, as stored in a canvas pixel buffer. */
  type Byte = b: int | 0 <= b < 256

  /** A pixel: red, green, blue and alpha. */
  datatype Color = Color(r: Byte, g: Byte, b: Byte, a: Byte)

  /** Fully transparent black, what a fresh canvas holds. */
  const Transparent: Color := Color(0, 0, 0, 0)

  /** The channels below this value count as "close to black". */
  const BlackThreshold: int := 40

  /** The four channels in memory order. */
  function Channels(c: Color): (s: seq<Byte>)
    ensures |s| == 4
  {
    [c.r, c.g, c.b, c.a]
  }

  /** closeToBlack: red, green and blue all below the threshold; alpha plays no part. */
  predicate CloseToBlack(c: Color) {
    c.r < BlackThreshold && c.g < BlackThreshold && c.b < BlackThreshold
  }

  lemma CloseToBlackIgnoresAlpha(c: Color, alpha: Byte)
    ensures CloseToBlack(c) <==> CloseToBlack(c.(a := alpha))
    ensures CloseToBlack(c) <==> forall k :: 0 <= k < 3 ==> Channels(c)[k] < BlackThreshold
  {
    var ch := Channels(c);
    assert ch[0] == c.r && ch[1] == c.g && ch[2] == c.b;
  }

  /** The colour comparison in use: the later version compares red, green and
      blue only; the earlier versions compare all four channels. */
  datatype ColorMatch = RgbOnly | AllChannels

  /** colorEqual of the later version: alpha is ignored. */
  predicate ColorEqualRgb(a: Color, b: Color) {
    a.r == b.r && a.g == b.g && a.b == b.b
  }

  /** colorEqual of the earlier versions, on two colours that are present. */
  predicate ColorEqualAll(a: Color, b: Color) {
    a.r == b.r && a.g == b.g && a.b == b.b && a.a == b.a
  }

  predicate Matches(m: ColorMatch, a: Color, b: Color) {
    match m
    case RgbOnly => ColorEqualRgb(a, b)
    case AllChannels => ColorEqualAll(a, b)
  }

  /** Both comparisons are equivalence relations, and the four-channel one is
      plain equality; the palette's uniqueness arguments rely on this. */
  lemma MatchesIsEquivalence(m: ColorMatch, a: Color, b: Color, c: Color)
    ensures Matches(m, a, a)
    ensures Matches(m, a, b) ==> Matches(m, b, a)
    ensures Matches(m, a, b) && Matches(m, b, c) ==> Matches(m, a, c)
    ensures ColorEqualAll(a, b) <==> a == b
    ensures ColorEqualAll(a, b) ==> ColorEqualRgb(a, b)
  {
  }

  /**
   * colorEqual of the earlier versions on possibly-null colours:
   * `(!c1 && !c2) || every(c1, (c, i) => c === c2[i])`. A null first argument
   * makes `every` vacuously true; a null second argument with a present first
   * one makes `c2[i]` throw, which is `None` here.
   */
  function ColorEqualNullable(c1: Option<Color>, c2: Option<Color>): (r: Option<bool>)
    ensures c1.None? ==> r == Some(true)
    ensures c1.Some? ==> (r.Some? <==> c2.Some?)
    ensures c1.Some? && c2.Some? ==> r == Some(c1.value == c2.value)
  {
    match c1
    case None => Some(true)
    case Some(a) =>
      match c2
      case None => None
      case Some(b) => Some(ColorEqualAll(a, b))
  }

  // ---------------------------------------------------------------------
  // hexToRgb

  predicate IsHexDigit(ch: char) {
    ('0' <= ch <= '9') || ('a' <= ch <= 'f') || ('A' <= ch <= 'F')
  }

  /** The value of a hex digit (only ever asked of hex digits; 0 for anything else). */
  function HexDigitValue(ch: char): (v: nat)
    ensures v < 16
  {
    if '0' <= ch <= '9' then ch as int - '0' as int
    else if 'a' <= ch <= 'f' then 10 + ch as int - 'a' as int
    else if 'A' <= ch <= 'F' then 10 + ch as int - 'A' as int
    else 0
  }

  /** Two hex digits, most significant first, as parseInt(s, 16) reads them. */
  function HexByte(hi: char, lo: char): Byte
  {
    16 * HexDigitValue(hi) + HexDigitValue(lo)
  }

  predicate AllHexDigits(s: string) {
    forall i :: 0 <= i < |s| ==> IsHexDigit(s[i])
  }

  /** The strings /^#?([a-f\d]{2})([a-f\d]{2})([a-f\d]{2})$/i accepts:
      six hex digits in either case, optionally after one '#'. */
  predicate IsHexColor(s: string) {
    (|s| == 6 && AllHexDigits(s)) || (|s| == 7 && s[0] == '#' && AllHexDigits(s[1..]))
  }

  /** hexToRgb: `[r, g, b, 255]` for a hex colour string, null otherwise. */
  function HexToRgb(hex: string): (r: Option<Color>)
    ensures r.Some? <==> IsHexColor(hex)
    ensures r.Some? ==>
      var d := hex[|hex| - 6..];
      r.value.a == 255 &&
      r.value.r == HexByte(d[0], d[1]) &&
      r.value.g == HexByte(d[2], d[3]) &&
      r.value.b == HexByte(d[4], d[5])
  {
    var digits := if |hex| > 0 && hex[0] == '#' then hex[1..] else hex;
    OptionalHash(hex, digits);
    if |digits| == 6 && AllHexDigits(digits) then
      Some(Color(HexByte(digits[0], digits[1]), HexByte(digits[2], digits[3]),
                 HexByte(digits[4], digits[5]), 255))
    else
      None
  }

  /** Dropping one leading '#' leaves six hex digits exactly for the strings IsHexColor accepts. */
  lemma OptionalHash(hex: string, digits: string)
    requires digits == if |hex| > 0 && hex[0] == '#' then hex[1..] else hex
    ensures (|digits| == 6 && AllHexDigits(digits)) <==> IsHexColor(hex)
    ensures |digits| == 6 ==> |hex| >= 6 && digits == hex[|hex| - 6..]
  {
    if |hex| == 6 && AllHexDigits(hex) {
      assert IsHexDigit(hex[0]);
    }
  }

  /** A lower-case hex digit for a value below 16. */
  function HexDigit(v: nat): (ch: char)
    requires v < 16
    ensures IsHexDigit(ch) && HexDigitValue(ch) == v
  {
    if v < 10 then ('0' as int + v) as char else ('a' as int + v - 10) as char
  }

  /** `#rrggbb` for a colour, the form a colour picker hands to hexToRgb. */
  function ToHex(c: Color): (s: string)
    ensures |s| == 7 && s[0] == '#'
  {
    ['#', HexDigit(c.r / 16), HexDigit(c.r % 16), HexDigit(c.g / 16), HexDigit(c.g % 16),
     HexDigit(c.b / 16), HexDigit(c.b % 16)]
  }

  /** hexToRgb inverts colour formatting, and always yields an opaque colour. */
  lemma HexRoundTrip(c: Color)
    ensures HexToRgb(ToHex(c)) == Some(c.(a := 255))
    ensures HexToRgb(ToHex(c)[1..]) == Some(c.(a := 255))
  {
    var s := ToHex(c);
    assert IsHexColor(s);
    assert IsHexColor(s[1..]);
  }
}
