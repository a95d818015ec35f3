/** The three colour encodings the client converts between: an RGB triple,
    the packed integer `r << 16 | g << 8 | b` the control API takes, and the
    `#rrggbb` string the picker, the colour store and the state decoders use. */
module ColorCodec {
  import opened Js

  /** An RGB triple as JavaScript numbers; the channels are not range-checked by the type. */
  datatype Rgb = Rgb(r: int, g: int, b: int)

  predicate ValidChannel(x: int)
  {
    0 <= x <= 255
  }

  predicate ValidRgb(c: Rgb)
  {
    ValidChannel(c.r) && ValidChannel(c.g) && ValidChannel(c.b)
  }

  /** Three decoded channels, any of which may be NaN (a failed `parseInt`). */
  datatype Channels = Channels(r: Number, g: Number, b: Number)

  function FromRgb(c: Rgb): Channels
  {
    Channels(Int(c.r), Int(c.g), Int(c.b))
  }

  /** The guard `v < 0 || v > 255`: false for NaN, since every comparison with NaN is false. */
  predicate ComparesOutOfRange(v: Number)
  {
    v.Int? && (v.v < 0 || v.v > 255)
  }

  /** The guard `isNaN(v) || v < 0 || v > 255`. */
  predicate NaNOrOutOfRange(v: Number)
  {
    v.NaN? || ComparesOutOfRange(v)
  }

  /** `!isNaN(v) && 0 <= v && v <= 255` for all three channels. */
  predicate DecodesToRgb(c: Channels)
  {
    !NaNOrOutOfRange(c.r) && !NaNOrOutOfRange(c.g) && !NaNOrOutOfRange(c.b)
  }

  /** The channels of a decodable colour as an RGB triple. */
  function DecodedRgb(c: Channels): (rgb: Rgb)
    requires DecodesToRgb(c)
    ensures ValidRgb(rgb) && FromRgb(rgb) == c
  {
    Rgb(c.r.v, c.g.v, c.b.v)
  }

  /** Decoding inverts `FromRgb`. */
  lemma DecodedFromRgb(x: Channels, c: Rgb)
    requires ValidRgb(c) && x == FromRgb(c)
    ensures DecodesToRgb(x) && DecodedRgb(x) == c
  {
  }

  /** The arithmetic meaning of a packed colour, independent of JavaScript's bit operators. */
  function PackedValue(c: Rgb): int
  {
    c.r * 0x1_0000 + c.g * 0x100 + c.b
  }

  // ---------------------------------------------------------------- packing

  /** `(r << 16) | (g << 8) | b` with JavaScript's 32-bit semantics (NaN operands count as 0). */
  function PackRgb(c: Channels): int
  {
    BitOr(BitOr(ShiftLeft(c.r, 16), ShiftLeft(c.g, 8)), NumberToInt32(c.b))
  }

  /** Byte extraction `(n >> 16) & 0xff`, `(n >> 8) & 0xff`, `n & 0xff`; Dafny's
      floor division and non-negative remainder agree with the arithmetic shift and mask. */
  function Unpack(n: int): (c: Rgb)
    ensures ValidRgb(c)
  {
    Rgb((n / 0x1_0000) % 0x100, (n / 0x100) % 0x100, n % 0x100)
  }

  /** For channels in [0,255] the bit operators compute the arithmetic packing, which fits in 24 bits. */
  lemma PackRgbValue(c: Rgb)
    requires ValidRgb(c)
    ensures PackRgb(FromRgb(c)) == PackedValue(c)
    ensures 0 <= PackRgb(FromRgb(c)) <= 0xFF_FFFF
  {
    Pow2Values();
    var r, g, b := c.r, c.g, c.b;
    ShiftLeftSmall(r, 16);
    ShiftLeftSmall(g, 8);
    var hi, mid := r * 0x1_0000, g * 0x100;
    assert ShiftLeft(Int(r), 16) == hi && ShiftLeft(Int(g), 8) == mid;
    BitOrDisjoint(r, mid, 16);
    assert BitOr(hi, mid) == hi + mid;
    var rg := r * 0x100 + g;
    assert hi + mid == rg * 0x100;
    BitOrDisjoint(rg, b, 8);
    assert BitOr(hi + mid, b) == hi + mid + b;
    assert NumberToInt32(Int(b)) == b;
  }

  lemma UnpackPackedValue(c: Rgb)
    requires ValidRgb(c)
    ensures Unpack(PackedValue(c)) == c
  {
    var n := PackedValue(c);
    assert n / 0x1_0000 == c.r;
    assert n / 0x100 == c.r * 0x100 + c.g;
    assert (c.r * 0x100 + c.g) % 0x100 == c.g;
    assert n % 0x100 == c.b;
  }

  /** Byte extraction recovers the channels a client packed. */
  lemma UnpackPack(c: Rgb)
    requires ValidRgb(c)
    ensures Unpack(PackRgb(FromRgb(c))) == c
  {
    PackRgbValue(c);
    UnpackPackedValue(c);
  }

  /** Every 24-bit value is the packing of its extracted bytes. */
  lemma PackUnpack(n: int)
    requires 0 <= n <= 0xFF_FFFF
    ensures PackedValue(Unpack(n)) == n
    ensures PackRgb(FromRgb(Unpack(n))) == n
  {
    var q := n / 0x100;
    assert n == q * 0x100 + n % 0x100;
    assert q == (q / 0x100) * 0x100 + q % 0x100;
    assert q / 0x100 == n / 0x1_0000;
    assert (n / 0x1_0000) % 0x100 == n / 0x1_0000;
    PackRgbValue(Unpack(n));
  }

  // ---------------------------------------------------------------- "#rrggbb"

  /** `n.toString(16).padStart(2, "0")`, the per-channel helper of `rgbToHex`. */
  function ChannelHex(n: int): string
  {
    PadStart(NumberToString16(n), 2)
  }

  /** `rgbToHex(r, g, b)`. */
  function RgbToHex(c: Rgb): string
  {
    "#" + ChannelHex(c.r) + ChannelHex(c.g) + ChannelHex(c.b)
  }

  /** The state decoders' `"#" + n.toString(16).padStart(6, "0")`. */
  function PackedToHex(n: int): string
  {
    "#" + PadStart(NumberToString16(n), 6)
  }

  /** The regular expression `/^#[0-9A-Fa-f]{6}$/` of the hex-entry prompt. */
  predicate MatchesHexPattern(s: string)
  {
    |s| == 7 && s[0] == '#' && forall i :: 1 <= i < 7 ==> IsPatternHexChar(s[i])
  }

  predicate IsPatternHexChar(c: char)
  {
    '0' <= c <= '9' || 'A' <= c <= 'F' || 'a' <= c <= 'f'
  }

  lemma PatternCharIsDigit(c: char)
    ensures IsPatternHexChar(c) <==> IsDigit(c, 16)
  {
  }

  lemma ChannelHexShape(n: int)
    requires ValidChannel(n)
    ensures |ChannelHex(n)| == 2 && AllLowerHex(ChannelHex(n))
    ensures ValueOf(ChannelHex(n), 16) == n
  {
    assert Pow(16, 2) == 256;
    ToHexLength(n, 2);
    ToHexValue(n);
    PadStartValue(ToHex(n), 2, 16);
    PadStartLowerHex(ToHex(n), 2);
  }

  lemma Horner(a: int, b: int, c: int)
    ensures (a * 0x100 + b) * 0x100 + c == a * 0x1_0000 + b * 0x100 + c
  {
  }

  lemma ValueOfThree(a: string, b: string, c: string)
    requires |b| == 2 && |c| == 2
    ensures ValueOf(a + b + c, 16) == ValueOf(a, 16) * 0x1_0000 + ValueOf(b, 16) * 0x100 + ValueOf(c, 16)
  {
    assert Pow(16, 2) == 0x100;
    var va, vb, vc := ValueOf(a, 16), ValueOf(b, 16), ValueOf(c, 16);
    ValueOfConcat(a, b, 16);
    assert ValueOf(a + b, 16) == va * 0x100 + vb;
    ValueOfConcat(a + b, c, 16);
    assert ValueOf(a + b + c, 16) == (va * 0x100 + vb) * 0x100 + vc;
    Horner(va, vb, vc);
  }

  /** "#" and three two-digit lower-case fields: seven characters whose digits spell
      the fields' values in base 256. */
  lemma HexTriple(x: string, y: string, z: string)
    requires |x| == 2 && |y| == 2 && |z| == 2
    requires AllLowerHex(x) && AllLowerHex(y) && AllLowerHex(z)
    ensures |"#" + x + y + z| == 7 && ("#" + x + y + z)[0] == '#'
    ensures ("#" + x + y + z)[1..] == x + y + z && AllLowerHex(x + y + z)
    ensures ValueOf(x + y + z, 16) == ValueOf(x, 16) * 0x1_0000 + ValueOf(y, 16) * 0x100 + ValueOf(z, 16)
  {
    assert ("#" + x + y + z)[1..] == x + y + z;
    LowerHexConcat(x, y);
    LowerHexConcat(x + y, z);
    ValueOfThree(x, y, z);
  }

  /** For channels in [0,255], `rgbToHex` gives "#" and six lower-case hex digits
      whose value is the packed colour. */
  lemma RgbToHexShape(c: Rgb)
    requires ValidRgb(c)
    ensures |RgbToHex(c)| == 7 && RgbToHex(c)[0] == '#'
    ensures AllLowerHex(RgbToHex(c)[1..])
    ensures ValueOf(RgbToHex(c)[1..], 16) == PackedValue(c)
  {
    var x, y, z := ChannelHex(c.r), ChannelHex(c.g), ChannelHex(c.b);
    ChannelHexShape(c.r);
    ChannelHexShape(c.g);
    ChannelHexShape(c.b);
    HexTriple(x, y, z);
  }

  /** "#" and six lower-case hex digits pass the hex-entry pattern. */
  lemma LowerHexMatchesPattern(s: string)
    requires |s| == 7 && s[0] == '#' && AllLowerHex(s[1..])
    ensures MatchesHexPattern(s)
  {
    forall i | 1 <= i < 7 ensures IsPatternHexChar(s[i]) {
      assert s[i] == s[1..][i - 1];
    }
  }

  /** Output of `rgbToHex` always passes the hex-entry pattern. */
  lemma RgbToHexMatchesPattern(c: Rgb)
    requires ValidRgb(c)
    ensures MatchesHexPattern(RgbToHex(c))
  {
    RgbToHexShape(c);
    LowerHexMatchesPattern(RgbToHex(c));
  }

  /** The six digits after "#" in the state decoders' string spell the packed value. */
  lemma PackedDigitsShape(n: int)
    requires 0 <= n <= 0xFF_FFFF
    ensures |PadStart(ToHex(n), 6)| == 6 && AllLowerHex(PadStart(ToHex(n), 6))
    ensures ValueOf(PadStart(ToHex(n), 6), 16) == n
  {
    assert Pow(16, 6) == 0x100_0000;
    ToHexLength(n, 6);
    ToHexValue(n);
    PadStartValue(ToHex(n), 6, 16);
    PadStartLowerHex(ToHex(n), 6);
  }

  /** Two "#"-prefixed strings of six lower-case hex digits with the same value are equal. */
  lemma SameHexColour(s: string, digits: string, n: int)
    requires |s| == 7 && s[0] == '#' && AllLowerHex(s[1..]) && ValueOf(s[1..], 16) == n
    requires |digits| == 6 && AllLowerHex(digits) && ValueOf(digits, 16) == n
    ensures s == "#" + digits
  {
    LowerHexInjective(digits, s[1..]);
    assert s == "#" + s[1..];
  }

  /** The state decoders' hex string and the picker's `rgbToHex` agree on every 24-bit colour. */
  lemma PackedToHexIsRgbToHex(n: int)
    requires 0 <= n <= 0xFF_FFFF
    ensures PackedToHex(n) == RgbToHex(Unpack(n))
  {
    var c := Unpack(n);
    RgbToHexShape(c);
    PackUnpack(n);
    PackedDigitsShape(n);
    SameHexColour(RgbToHex(c), PadStart(ToHex(n), 6), n);
  }

  // ---------------------------------------------------------------- decoding "#rrggbb"

  /** The facades' decoding: drop the first "#", then `parseInt(…, 16)` of
      characters 0–1, 2–3 and 4–5 (JavaScript `substring` clamps short input). */
  function DecodeHex(color: string): Channels
  {
    var hex := RemoveFirst(color, '#');
    Channels(ParseInt(Substring(hex, 0, 2), Hexadecimal),
             ParseInt(Substring(hex, 2, 4), Hexadecimal),
             ParseInt(Substring(hex, 4, 6), Hexadecimal))
  }

  lemma TwoDigitValue(s: string)
    requires |s| == 2 && AllDigits(s, 16)
    ensures ValidChannel(ValueOf(s, 16))
  {
    assert IsDigit(s[0], 16) && IsDigit(s[1], 16);
    assert s[..1][..0] == "";
    assert ValueOf(s[..1], 16) == DigitValue(s[0]);
    assert ValueOf(s, 16) == DigitValue(s[0]) * 16 + DigitValue(s[1]);
  }

  /** Characters i and i+1 of a decoded string, when both are hex digits, parse to their value. */
  lemma ParseField(hex: string, i: nat)
    requires i + 2 <= |hex| && AllDigits(hex[i..i + 2], 16)
    ensures ParseInt(Substring(hex, i, i + 2), Hexadecimal) == Int(ValueOf(hex[i..i + 2], 16))
    ensures ValidChannel(ValueOf(hex[i..i + 2], 16))
  {
    assert Substring(hex, i, i + 2) == hex[i..i + 2];
    ParseHexDigits(hex[i..i + 2]);
    TwoDigitValue(hex[i..i + 2]);
  }

  lemma DigitSlice(s: string, i: nat, j: nat)
    requires i <= j <= |s| && AllDigits(s, 16)
    ensures AllDigits(s[i..j], 16)
  {
    forall k | 0 <= k < j - i ensures IsDigit(s[i..j][k], 16) {
      assert s[i..j][k] == s[i + k];
    }
  }

  /** "#" and six hex digits decode field by field to the values of digit pairs 1–2, 3–4, 5–6. */
  lemma DecodeSixDigits(s: string)
    requires |s| == 7 && s[0] == '#' && AllDigits(s[1..], 16)
    ensures DecodeHex(s) == Channels(Int(ValueOf(s[1..3], 16)), Int(ValueOf(s[3..5], 16)), Int(ValueOf(s[5..7], 16)))
    ensures ValidChannel(ValueOf(s[1..3], 16)) && ValidChannel(ValueOf(s[3..5], 16)) && ValidChannel(ValueOf(s[5..7], 16))
  {
    var hex := RemoveFirst(s, '#');
    assert hex == s[1..];
    assert hex[0..2] == s[1..3] && hex[2..4] == s[3..5] && hex[4..6] == s[5..7];
    DigitSlice(hex, 0, 2);
    DigitSlice(hex, 2, 4);
    DigitSlice(hex, 4, 6);
    ParseField(hex, 0);
    ParseField(hex, 2);
    ParseField(hex, 4);
  }

  /** The six characters after "#" of a string the pattern accepts are hex digits. */
  lemma PatternDigits(s: string)
    requires MatchesHexPattern(s)
    ensures |s| == 7 && s[0] == '#' && AllDigits(s[1..], 16)
  {
    forall i | 0 <= i < 6 ensures IsDigit(s[1..][i], 16) {
      PatternCharIsDigit(s[i + 1]);
    }
  }

  /** Any string the hex-entry prompt accepts decodes to three channels in [0,255]. */
  lemma DecodeMatchedPattern(s: string)
    requires MatchesHexPattern(s)
    ensures DecodesToRgb(DecodeHex(s))
  {
    PatternDigits(s);
    DecodeSixDigits(s);
  }

  /** "#" followed by three two-digit lower-case fields decodes to the fields' values. */
  lemma DecodeFields(x: string, y: string, z: string)
    requires |x| == 2 && |y| == 2 && |z| == 2
    requires AllLowerHex(x) && AllLowerHex(y) && AllLowerHex(z)
    ensures DecodeHex("#" + x + y + z) == Channels(Int(ValueOf(x, 16)), Int(ValueOf(y, 16)), Int(ValueOf(z, 16)))
  {
    var s := "#" + x + y + z;
    assert s[1..] == x + y + z;
    assert s[1..3] == x && s[3..5] == y && s[5..7] == z;
    LowerHexConcat(x, y);
    LowerHexConcat(x + y, z);
    LowerHexAreDigits(x + y + z);
    DecodeSixDigits(s);
  }

  /** Decoding inverts `rgbToHex`: the facades recover the channels the picker encoded. */
  lemma DecodeRgbToHex(c: Rgb)
    requires ValidRgb(c)
    ensures DecodeHex(RgbToHex(c)) == FromRgb(c)
  {
    ChannelHexShape(c.r);
    ChannelHexShape(c.g);
    ChannelHexShape(c.b);
    DecodeFields(ChannelHex(c.r), ChannelHex(c.g), ChannelHex(c.b));
  }
}
