// The placeholder thumbnail built for a video post that has no thumbnail
// URL: a 32-bit rolling hash of a seed string, two colours derived from it,
// a 45-degree gradient, and a platform icon chosen from the post's links.

module Synthesis {
  import opened Options
  import opened JsStrings
  import opened Json

  const TWO_31: int := 0x8000_0000
  const TWO_32: int := 0x1_0000_0000

  /** ToInt32 (section 7.1.6 of ECMA-262): wrap to a signed 32-bit integer. */
  function ToInt32(x: int): (r: int)
    ensures -TWO_31 <= r < TWO_31
    ensures (x - r) % TWO_32 == 0
  {
    var m := x % TWO_32;
    if m >= TWO_31 then m - TWO_32 else m
  }

  /** ToInt32 gives the same answer on arguments that differ by a multiple of 2^32. */
  lemma ToInt32Congruent(x: int, y: int, k: int)
    requires x == y + k * TWO_32
    ensures ToInt32(x) == ToInt32(y)
  {
    assert x % TWO_32 == y % TWO_32 by {
      var q := y / TWO_32;
      assert y == q * TWO_32 + y % TWO_32;
      assert x == (q + k) * TWO_32 + y % TWO_32;
    }
  }

  lemma ToInt32OfInt32(x: int)
    requires -TWO_31 <= x < TWO_31
    ensures ToInt32(x) == x
  {
    if x < 0 {
      ToInt32Congruent(x, x + TWO_32, -1);
    }
  }

  function Pow2(k: nat): (r: nat)
    ensures r > 0
  {
    if k == 0 then 1 else 2 * Pow2(k - 1)
  }

  /** `x << k`: the operand is converted to 32 bits and the bits shifted out are lost. */
  function ShiftLeft(x: int, k: nat): int
    requires k < 32
  {
    ToInt32(ToInt32(x) * Pow2(k))
  }

  /** `x >> k`: the operand is converted to 32 bits and the sign bit is propagated. */
  function ShiftRight(x: int, k: nat): int
    requires k < 32
  {
    ToInt32(x) / Pow2(k)
  }

  /** `a % b` in JavaScript: the remainder takes the sign of the dividend. */
  function JsRem(a: int, b: int): (r: int)
    requires b > 0
    ensures -b < r < b
    ensures a >= 0 ==> r == a % b
    ensures a < 0 ==> r == -((-a) % b)
  {
    if a >= 0 then a % b else -((-a) % b)
  }

  // ---------------------------------------------------------------------
  // hashCode

  /** One iteration: `hash = ((hash << 5) - hash) + str.charCodeAt(i); hash |= 0`. */
  function HashStep(h: int, c: CodeUnit): int
  {
    ToInt32(ShiftLeft(h, 5) - h + c as int)
  }

  /** The value of `hash` after the loop has read all of `s`. */
  function HashFold(s: JsString): (r: int)
    ensures -TWO_31 <= r < TWO_31
  {
    if s == [] then 0 else HashStep(HashFold(s[..|s| - 1]), s[|s| - 1])
  }

  /** `hashCode(s)`: `Math.abs` of the folded hash. */
  function Hash(s: JsString): (r: nat)
    ensures r <= TWO_31
  {
    var h := HashFold(s);
    if h < 0 then -h else h
  }

  /** The polynomial the hash computes, without any wrap-around. */
  function Polynomial(s: JsString): int
  {
    if s == [] then 0 else 31 * Polynomial(s[..|s| - 1]) + s[|s| - 1] as int
  }

  /** The shift-and-subtract step is multiplication by 31, wrapped to 32 bits. */
  lemma HashStepIsTimes31(h: int, c: CodeUnit)
    requires -TWO_31 <= h < TWO_31
    ensures HashStep(h, c) == ToInt32(31 * h + c as int)
  {
    ToInt32OfInt32(h);
    var shifted := ToInt32(h * 32);
    var k := (h * 32 - shifted) / TWO_32;
    assert h * 32 == shifted + k * TWO_32;
    ToInt32Congruent(31 * h + c as int, shifted - h + c as int, k);
  }

  /** The folded hash is the polynomial of the code units in base 31, wrapped once at the end. */
  lemma {:induction false} HashFoldIsPolynomial(s: JsString)
    ensures HashFold(s) == ToInt32(Polynomial(s))
  {
    if s != [] {
      var p := s[..|s| - 1];
      var c := s[|s| - 1];
      HashFoldIsPolynomial(p);
      var h := HashFold(p);
      HashStepIsTimes31(h, c);
      var k := (Polynomial(p) - h) / TWO_32;
      assert Polynomial(p) == h + k * TWO_32;
      ToInt32Congruent(Polynomial(s), 31 * h + c as int, 31 * k);
    }
  }

  /** hashCode as a loop over the code units. */
  method HashCode(s: JsString) returns (h: nat)
    ensures h == Hash(s)
    ensures h <= TWO_31
  {
    var hash := 0;
    var i := 0;
    while i < |s|
      invariant 0 <= i <= |s|
      invariant hash == HashFold(s[..i])
    {
      assert s[..i + 1][..i] == s[..i];
      hash := ToInt32(ShiftLeft(hash, 5) - hash + s[i] as int);
      i := i + 1;
    }
    assert s[..i] == s;
    h := if hash < 0 then -hash else hash;
  }

  // ---------------------------------------------------------------------
  // generateRandomColor and generateGradientBackground

  datatype Rgb = Rgb(r: int, g: int, b: int)

  /** The three channels `100 + (x % 155)` for `x = hash`, `hash >> 8` and `hash >> 16`. */
  function Channels(hash: nat): Rgb
  {
    Rgb(100 + JsRem(hash, 155), 100 + JsRem(ShiftRight(hash, 8), 155), 100 + JsRem(ShiftRight(hash, 16), 155))
  }

  predicate Bright(c: Rgb)
  {
    100 <= c.r <= 254 && 100 <= c.g <= 254 && 100 <= c.b <= 254
  }

  /** Every hash below 2^31 gives three channels in [100, 254]. */
  lemma ChannelsBright(hash: nat)
    requires hash < TWO_31
    ensures Bright(Channels(hash))
  {
    ToInt32OfInt32(hash);
  }

  /**
   * Math.abs(-2^31) is 2^31, which `>>` reads back as -2^31: the only hash
   * whose green and blue channels fall below 100.
   */
  lemma ChannelsAtTwoTo31()
    ensures Channels(TWO_31) == Rgb(100 + TWO_31 % 155, 92, 37)
    ensures !Bright(Channels(TWO_31))
  {
    ToInt32Congruent(TWO_31, -TWO_31, 1);
    assert ToInt32(TWO_31) == -TWO_31;
    assert Pow2(8) == 256 && Pow2(16) == 65536;
  }

  /** `rgb(r,g,b)` */
  function ColorText(c: Rgb): JsString
  {
    Bmp("rgb(") + IntText(c.r) + Bmp(",") + IntText(c.g) + Bmp(",") + IntText(c.b) + Bmp(")")
  }

  /** generateRandomColor(seed) */
  function RandomColor(seed: JsString): JsString
  {
    ColorText(Channels(Hash(seed)))
  }

  const ALT: JsString := Bmp("alt")

  /** `linear-gradient(45deg, first, second)` */
  function GradientOf(first: JsString, second: JsString): JsString
  {
    Bmp("linear-gradient(45deg, ") + first + Bmp(", ") + second + Bmp(")")
  }

  /** generateGradientBackground(seed) for a string seed: the colours of `seed` and of `seed + 'alt'`. */
  function GradientBackground(seed: JsString): JsString
  {
    GradientOf(RandomColor(seed), RandomColor(seed + ALT))
  }

  // ---------------------------------------------------------------------
  // Icon choice

  const VARIATION_SELECTOR: CodeUnit := 0xFE0F

  const ICON_DEFAULT: JsString := SurrogatePair(0x1F3AC)                         // clapper board
  const ICON_YOUTUBE: JsString := [0x25B6 as CodeUnit, VARIATION_SELECTOR]         // play button
  const ICON_VIMEO: JsString := SurrogatePair(0x1F39E) + [VARIATION_SELECTOR]      // film frames
  const ICON_TWITTER: JsString := SurrogatePair(0x1F426)                         // bird
  const ICON_TIKTOK: JsString := SurrogatePair(0x1F4F1)                          // mobile phone
  const ICON_TWITCH: JsString := SurrogatePair(0x1F3AE)                          // video game

  const YOUTUBE: JsString := Bmp("youtube")
  const VIMEO: JsString := Bmp("vimeo")
  const TWITTER: JsString := Bmp("twitter")
  const X_COM: JsString := Bmp("x.com")
  const TIKTOK: JsString := Bmp("tiktok")
  const TWITCH: JsString := Bmp("twitch")

  /**
   * The icon for the links of a post: one `urls.some(...)` test per
   * platform, in the order youtube, vimeo, twitter or x.com, tiktok, twitch;
   * any of the tests throws if it meets a link without `includes` first.
   */
  function Icon(urls: seq<Option<JValue>>): Result<JsString>
  {
    match SomeIncludes(urls, [YOUTUBE])
    case Thrown => Thrown
    case Ok(true) => Ok(ICON_YOUTUBE)
    case Ok(false) =>
      match SomeIncludes(urls, [VIMEO])
      case Thrown => Thrown
      case Ok(true) => Ok(ICON_VIMEO)
      case Ok(false) =>
        match SomeIncludes(urls, [TWITTER, X_COM])
        case Thrown => Thrown
        case Ok(true) => Ok(ICON_TWITTER)
        case Ok(false) =>
          match SomeIncludes(urls, [TIKTOK])
          case Thrown => Thrown
          case Ok(true) => Ok(ICON_TIKTOK)
          case Ok(false) =>
            match SomeIncludes(urls, [TWITCH])
            case Thrown => Thrown
            case Ok(true) => Ok(ICON_TWITCH)
            case Ok(false) => Ok(ICON_DEFAULT)
  }

  /** Some link contains one of `needles`. */
  predicate Mentions(urls: seq<Option<JValue>>, needles: seq<JsString>)
  {
    exists i :: 0 <= i < |urls| && Matches(urls, needles, i)
  }

  /** With string links the icon is the first platform, in precedence order, that some link names. */
  lemma IconPrecedence(urls: seq<Option<JValue>>)
    requires TruthyAreStrings(urls)
    ensures Icon(urls) == Ok(
      if Mentions(urls, [YOUTUBE]) then ICON_YOUTUBE
      else if Mentions(urls, [VIMEO]) then ICON_VIMEO
      else if Mentions(urls, [TWITTER, X_COM]) then ICON_TWITTER
      else if Mentions(urls, [TIKTOK]) then ICON_TIKTOK
      else if Mentions(urls, [TWITCH]) then ICON_TWITCH
      else ICON_DEFAULT)
  {
    SomeIncludesOfStrings(urls, [YOUTUBE]);
    SomeIncludesOfStrings(urls, [VIMEO]);
    SomeIncludesOfStrings(urls, [TWITTER, X_COM]);
    SomeIncludesOfStrings(urls, [TIKTOK]);
    SomeIncludesOfStrings(urls, [TWITCH]);
  }

  /** A record key of the usual shape whose hash is 2^31, the case `ChannelsAtTwoTo31` describes. */
  const EDGE_KEY: JsString := Bmp("3lmb7drzm22xn")

  lemma EdgeKeyHash()
    ensures Hash(EDGE_KEY) == TWO_31
    ensures !Bright(Channels(Hash(EDGE_KEY)))
  {
    var s := EDGE_KEY;
    assert Polynomial(s[..1]) == 51;
    assert s[..2][..1] == s[..1];
    assert Polynomial(s[..2]) == 1689;
    assert s[..3][..2] == s[..2];
    assert Polynomial(s[..3]) == 52468;
    assert s[..4][..3] == s[..3];
    assert Polynomial(s[..4]) == 1626606;
    assert s[..5][..4] == s[..4];
    assert Polynomial(s[..5]) == 50424841;
    assert s[..6][..5] == s[..5];
    assert Polynomial(s[..6]) == 1563170171;
    assert s[..7][..6] == s[..6];
    assert Polynomial(s[..7]) == 48458275415;
    assert s[..8][..7] == s[..7];
    assert Polynomial(s[..8]) == 1502206537987;
    assert s[..9][..8] == s[..8];
    assert Polynomial(s[..9]) == 46568402677706;
    assert s[..10][..9] == s[..9];
    assert Polynomial(s[..10]) == 1443620483008936;
    assert s[..11][..10] == s[..10];
    assert Polynomial(s[..11]) == 44752234973277066;
    assert s[..12][..11] == s[..11];
    assert Polynomial(s[..12]) == 1387319284171589166;
    assert s[..13] == s && s[..13][..12] == s[..12];
    assert Polynomial(s) == 43006897809319264256;
    HashFoldIsPolynomial(s);
    ToInt32Congruent(43006897809319264256, -TWO_31, 10013323699);
    ChannelsAtTwoTo31();
  }
}
