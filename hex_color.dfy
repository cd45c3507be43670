/**
 * The integer part of `Color.init(hex:)`: a colour string such as "#FFD93D"
 * becomes the alpha, red, green and blue components, each meant to be a
 * byte. The final division by 255 into floating-point channels is not
 * modelled here.
 */
module HexColor {
  import opened Text

  /** `UInt64.max`, the width of the scanned integer. */
  const UInt64Max: nat := 0xFFFF_FFFF_FFFF_FFFF

  /** The components in the order of the source's tuple `(a, r, g, b)`. */
  datatype Argb = Argb(a: nat, r: nat, g: nat, b: nat)

  // ---------------------------------------------------------------------
  // Hex digits and the numbers they denote

  predicate IsHexDigit(c: char) {
    '0' <= c <= '9' || 'a' <= c <= 'f' || 'A' <= c <= 'F'
  }

  predicate AllHexDigits(s: string) {
    forall k :: 0 <= k < |s| ==> IsHexDigit(s[k])
  }

  function DigitValue(c: char): (v: nat)
    requires IsHexDigit(c)
    ensures v < 16
  {
    if '0' <= c <= '9' then c as int - '0' as int
    else if 'a' <= c <= 'f' then c as int - 'a' as int + 10
    else c as int - 'A' as int + 10
  }

  function Pow16(n: nat): (p: nat)
    ensures p >= 1
  {
    if n == 0 then 1 else 16 * Pow16(n - 1)
  }

  /** The powers of sixteen the decoder works with. */
  lemma {:induction false} Pow16Values()
    ensures Pow16(1) == 0x10 && Pow16(2) == 0x100 && Pow16(3) == 0x1000
    ensures Pow16(4) == 0x1_0000 && Pow16(6) == 0x100_0000 && Pow16(8) == 0x1_0000_0000
    ensures Pow16(14) == 0x100_0000_0000_0000 && Pow16(15) == 0x1000_0000_0000_0000
  {
    assert Pow16(0) == 1;
    assert Pow16(1) == 0x10;
    assert Pow16(2) == 0x100;
    assert Pow16(3) == 0x1000;
    assert Pow16(4) == 0x1_0000;
    assert Pow16(5) == 0x10_0000;
    assert Pow16(6) == 0x100_0000;
    assert Pow16(7) == 0x1000_0000;
    assert Pow16(8) == 0x1_0000_0000;
    assert Pow16(9) == 0x10_0000_0000;
    assert Pow16(10) == 0x100_0000_0000;
    assert Pow16(11) == 0x1000_0000_0000;
    assert Pow16(12) == 0x1_0000_0000_0000;
    assert Pow16(13) == 0x10_0000_0000_0000;
    assert Pow16(14) == 0x100_0000_0000_0000;
  }

  lemma {:induction false} Pow16Monotone(i: nat, j: nat)
    requires i <= j
    ensures Pow16(i) <= Pow16(j)
  {
    if i < j {
      Pow16Monotone(i, j - 1);
    }
  }

  /** The number a string of hex digits denotes, most significant digit first. */
  function HexValue(ds: string): (v: nat)
    requires AllHexDigits(ds)
    ensures v < Pow16(|ds|)
  {
    if ds == [] then 0 else HexValue(ds[..|ds| - 1]) * 16 + DigitValue(ds[|ds| - 1])
  }

  /** The value of two digit strings written one after the other. */
  lemma AllHexDigitsAppend(hi: string, lo: string)
    requires AllHexDigits(hi) && AllHexDigits(lo)
    ensures AllHexDigits(hi + lo)
  {
    var s := hi + lo;
    forall k | 0 <= k < |s|
      ensures IsHexDigit(s[k])
    {
      if k >= |hi| {
        assert s[k] == lo[k - |hi|];
      }
    }
  }

  lemma ShiftedProduct(h: nat, p: nat, low: nat, d: nat)
    ensures (h * p + low) * 16 + d == h * (16 * p) + (low * 16 + d)
  {
  }

  lemma {:induction false} HexValueAppend(hi: string, lo: string)
    requires AllHexDigits(hi) && AllHexDigits(lo)
    ensures AllHexDigits(hi + lo)
    ensures HexValue(hi + lo) == HexValue(hi) * Pow16(|lo|) + HexValue(lo)
    decreases |lo|
  {
    AllHexDigitsAppend(hi, lo);
    var s := hi + lo;
    if lo == [] {
      assert s == hi;
    } else {
      var init := lo[..|lo| - 1];
      var d := DigitValue(lo[|lo| - 1]);
      assert s[..|s| - 1] == hi + init;
      assert s[|s| - 1] == lo[|lo| - 1];
      HexValueAppend(hi, init);
      assert HexValue(s) == HexValue(hi + init) * 16 + d;
      assert HexValue(lo) == HexValue(init) * 16 + d;
      ShiftedProduct(HexValue(hi), Pow16(|init|), HexValue(init), d);
    }
  }

  /** The value of two hex digits, high digit first. */
  function DigitPair(hi: char, lo: char): (v: nat)
    requires IsHexDigit(hi) && IsHexDigit(lo)
    ensures v < 0x100
  {
    DigitValue(hi) * 16 + DigitValue(lo)
  }

  lemma HexValueOfPair(ds: string)
    requires |ds| == 2 && AllHexDigits(ds)
    ensures HexValue(ds) == DigitPair(ds[0], ds[1])
  {
    assert ds[..1][..0] == [];
  }

  // ---------------------------------------------------------------------
  // Scanner.scanHexInt64

  /** One turn of the scanner's digit loop: shift the digit in, or stay at `UInt64.max` once that would overflow. */
  function Accumulate(acc: nat, digit: nat): nat {
    if acc > UInt64Max / 16 then UInt64Max else acc * 16 + digit
  }

  function ScanDigits(acc: nat, ds: string): (v: nat)
    requires AllHexDigits(ds)
    requires acc <= UInt64Max
    ensures v <= UInt64Max
    decreases |ds|
  {
    if ds == [] then acc else ScanDigits(Accumulate(acc, DigitValue(ds[0])), ds[1..])
  }

  /** The hex digits the scanner reads: after an optional `0x` or `0X`, the longest run of hex digits. */
  function ScannedDigits(s: string): (ds: string)
    ensures |ds| <= |s|
    ensures AllHexDigits(ds)
  {
    var body := if |s| >= 2 && s[0] == '0' && (s[1] == 'x' || s[1] == 'X') then s[2..] else s;
    body[..LeadingRun(body, IsHexDigit)]
  }

  /**
   * The integer the hexadecimal scan leaves behind, starting from 0: the value
   * of the scanned digits, saturated at `UInt64.max`, or 0 when there are none.
   * The scanner's skipping of leading whitespace is not modelled; it never
   * applies here, because the initializer only scans strings that have been
   * trimmed down to a letter or digit at the front.
   */
  function ScanHexInt64(s: string): (v: nat)
    ensures v <= UInt64Max
  {
    ScanDigits(0, ScannedDigits(s))
  }

  /**
   * Up to fifteen digits the scanner cannot overflow, so it computes the exact
   * value: having read the first `i` digits, it ends with the value of them all.
   */
  lemma {:induction false} ScanDigitsExact(ds: string, i: nat)
    requires AllHexDigits(ds) && i <= |ds| <= 15
    ensures HexValue(ds[..i]) <= UInt64Max
    ensures ScanDigits(HexValue(ds[..i]), ds[i..]) == HexValue(ds)
    decreases |ds| - i
  {
    HexValueFits(ds[..i]);
    if i == |ds| {
      assert ds[..i] == ds;
    } else {
      ScanStep(ds, i);
      assert ds[i..][1..] == ds[i + 1..];
      ScanDigitsExact(ds, i + 1);
    }
  }

  /** Reading digit `i` while fewer than fifteen have been read shifts it in without saturating. */
  lemma ScanStep(ds: string, i: nat)
    requires AllHexDigits(ds) && i < |ds| <= 15
    ensures Accumulate(HexValue(ds[..i]), DigitValue(ds[i])) == HexValue(ds[..i + 1])
  {
    assert ds[..i + 1][..i] == ds[..i];
    HexValueFits(ds[..i]);
    Pow16Values();
    Pow16Monotone(i, 14);
    assert HexValue(ds[..i]) <= UInt64Max / 16;
  }

  /** Fifteen hex digits or fewer denote a number that fits in 64 bits. */
  lemma HexValueFits(ds: string)
    requires AllHexDigits(ds) && |ds| <= 15
    ensures HexValue(ds) <= UInt64Max
  {
    Pow16Values();
    Pow16Monotone(|ds|, 15);
  }

  lemma ScanHexInt64Exact(s: string)
    requires |ScannedDigits(s)| <= 15
    ensures ScanHexInt64(s) == HexValue(ScannedDigits(s))
  {
    var ds := ScannedDigits(s);
    ScanDigitsExact(ds, 0);
    assert ds[..0] == [] && ds[0..] == ds;
  }

  /** A string of at most fifteen characters scans to less than 16 to the power of its length. */
  lemma ScanHexInt64Bound(s: string)
    requires |s| <= 15
    ensures ScanHexInt64(s) < Pow16(|s|)
  {
    ScanHexInt64Exact(s);
    Pow16Monotone(|ScannedDigits(s)|, |s|);
  }

  // ---------------------------------------------------------------------
  // Color.init(hex:)

  /** The string the initializer works on: the input with non-alphanumerics trimmed from both ends. */
  function Trimmed(hex: string): string {
    Trim(hex, IsNotAlphanumeric)
  }

  /**
   * The `switch hex.count` of the initializer: the components for a trimmed
   * string of `count` characters that scanned to `value` (the
   * source's local `int`). Three characters are
   * 12-bit RGB, six are 24-bit RGB, eight are 32-bit ARGB, and any other
   * count is opaque black. Each component is a byte whenever `value` has no
   * more hex digits than the string has characters.
   */
  function Components(count: nat, value: nat): (c: Argb)
    requires count == 3 || count == 6 || count == 8 ==> value < Pow16(count)
    ensures c.a <= 255 && c.r <= 255 && c.g <= 255 && c.b <= 255
    ensures count == 3 || count == 6 ==> c.a == 255
    ensures count != 3 && count != 6 && count != 8 ==> c == Argb(255, 0, 0, 0)
  {
    if count == 3 then
      // Three nibbles, each scaled by 17 into a byte; alpha opaque.
      Argb(255, (value / 0x100) * 17, (value / 0x10 % 0x10) * 17, (value % 0x10) * 17)
    else if count == 6 then
      // Three bytes, high to low: red, green, blue; alpha opaque.
      Argb(255, value / 0x1_0000, value / 0x100 % 0x100, value % 0x100)
    else if count == 8 then
      // Four bytes, high to low: alpha, red, green, blue.
      Argb(value / 0x100_0000, value / 0x1_0000 % 0x100, value / 0x100 % 0x100, value % 0x100)
    else
      Argb(255, 0, 0, 0)
  }

  /**
   * `Color.init(hex:)` up to the floating-point conversion: trim, scan, and
   * switch on the trimmed length. Every component is a byte, for any input.
   */
  function Decode(hex: string): (c: Argb)
    ensures c.a <= 255 && c.r <= 255 && c.g <= 255 && c.b <= 255
    ensures |Trimmed(hex)| != 3 && |Trimmed(hex)| != 6 && |Trimmed(hex)| != 8 ==> c == Argb(255, 0, 0, 0)
  {
    var t := Trimmed(hex);
    if |t| <= 15 then
      ScanHexInt64Bound(t);
      Components(|t|, ScanHexInt64(t))
    else
      Components(|t|, ScanHexInt64(t))
  }

  // ---------------------------------------------------------------------
  // What the decoder promises

  /** A string of hex digits is its own trimmed form and is scanned whole. */
  lemma DigitsScanWhole(ds: string)
    requires 0 < |ds| <= 15 && AllHexDigits(ds)
    ensures Trimmed(ds) == ds
    ensures ScanHexInt64(ds) == HexValue(ds)
  {
    DigitsTrimmed(ds);
    DigitsScanned(ds);
    ScanHexInt64Exact(ds);
  }

  lemma DigitsTrimmed(ds: string)
    requires 0 < |ds| && AllHexDigits(ds)
    ensures Trimmed(ds) == ds
  {
    assert IsHexDigit(ds[0]) && IsHexDigit(ds[|ds| - 1]);
    TrimIsSlice(ds, IsNotAlphanumeric, 0, |ds|);
    assert ds[0..|ds|] == ds;
  }

  lemma DigitsScanned(ds: string)
    requires AllHexDigits(ds)
    ensures ScannedDigits(ds) == ds
  {
    if |ds| >= 2 {
      assert IsHexDigit(ds[1]);
    }
    LeadingRunAll(ds, IsHexDigit);
    assert ds[..|ds|] == ds;
  }

  /** A string of up to fifteen hex digits decodes through the switch on its length with its exact value. */
  lemma DecodeWhole(ds: string)
    requires 0 < |ds| <= 15 && AllHexDigits(ds)
    ensures Decode(ds) == Components(|ds|, HexValue(ds))
  {
    DigitsScanWhole(ds);
  }

  /** Three digits: opaque, each digit scaled by 17 into a byte. */
  lemma DecodeThreeDigits(ds: string)
    requires |ds| == 3 && AllHexDigits(ds)
    ensures Decode(ds) == Argb(255, DigitValue(ds[0]) * 17, DigitValue(ds[1]) * 17, DigitValue(ds[2]) * 17)
  {
    DecodeWhole(ds);
    HexValueOfThree(ds);
    NibblesOfThree(HexValue(ds), DigitValue(ds[0]), DigitValue(ds[1]), DigitValue(ds[2]));
  }

  /** The largest three-digit colour reaches 255 in every channel and no further. */
  lemma BrightestThreeDigits()
    ensures Decode("FFF") == Argb(255, 255, 255, 255)
  {
    DecodeThreeDigits("FFF");
  }

  lemma HexValueOfThree(ds: string)
    requires |ds| == 3 && AllHexDigits(ds)
    ensures HexValue(ds) == (DigitValue(ds[0]) * 0x10 + DigitValue(ds[1])) * 0x10 + DigitValue(ds[2])
  {
    var pair := ds[..2];
    assert pair[0] == ds[0] && pair[1] == ds[1];
    HexValueOfPair(pair);
    assert HexValue(ds) == HexValue(pair) * 16 + DigitValue(ds[2]);
  }

  lemma NibblesOfThree(v: nat, x: nat, y: nat, z: nat)
    requires x < 0x10 && y < 0x10 && z < 0x10
    requires v == (x * 0x10 + y) * 0x10 + z
    ensures Components(3, v) == Argb(255, x * 17, y * 17, z * 17)
  {
    Pow16Values();
    DivMod(x * 0x10 + y, z, 0x10);
    DivMod(x, y, 0x10);
    DivMod(x, y * 0x10 + z, 0x100);
  }

  /** Euclidean division recovers the quotient and the remainder it was built from. */
  lemma DivMod(q: nat, r: nat, m: nat)
    requires m == 0x10 || m == 0x100 || m == 0x1_0000 || m == 0x100_0000
    requires r < m
    ensures (q * m + r) / m == q && (q * m + r) % m == r
  {
    if m == 0x10 {
      assert q * m == q * 0x10;
    } else if m == 0x100 {
      assert q * m == q * 0x100;
    } else if m == 0x1_0000 {
      assert q * m == q * 0x1_0000;
    } else {
      assert q * m == q * 0x100_0000;
    }
  }

  /** Six digits: opaque, two digits each for red, green and blue. */
  lemma DecodeSixDigits(ds: string)
    requires |ds| == 6 && AllHexDigits(ds)
    ensures Decode(ds) == Argb(255, DigitPair(ds[0], ds[1]), DigitPair(ds[2], ds[3]), DigitPair(ds[4], ds[5]))
  {
    DecodeWhole(ds);
    HexValueOfSix(ds);
    BytesOfThree(HexValue(ds), DigitPair(ds[0], ds[1]), DigitPair(ds[2], ds[3]), DigitPair(ds[4], ds[5]));
  }

  lemma HexValueOfSix(ds: string)
    requires |ds| == 6 && AllHexDigits(ds)
    ensures HexValue(ds) == DigitPair(ds[0], ds[1]) * 0x1_0000 + (DigitPair(ds[2], ds[3]) * 0x100 + DigitPair(ds[4], ds[5]))
  {
    var r, g, b := ds[..2], ds[2..4], ds[4..];
    assert ds == r + (g + b);
    HexValueAppend(g, b);
    HexValueAppend(r, g + b);
    HexValueOfPair(r);
    HexValueOfPair(g);
    HexValueOfPair(b);
    Pow16Values();
  }

  lemma BytesOfThree(v: nat, r: nat, g: nat, b: nat)
    requires r < 0x100 && g < 0x100 && b < 0x100
    requires v == r * 0x1_0000 + (g * 0x100 + b)
    ensures Components(6, v) == Argb(255, r, g, b)
  {
    Pow16Values();
    DivMod(r, g * 0x100 + b, 0x1_0000);
    DivMod(r * 0x100 + g, b, 0x100);
    DivMod(r, g, 0x100);
    assert v == (r * 0x100 + g) * 0x100 + b;
  }

  /** Eight digits: two digits each for alpha, red, green and blue. */
  lemma DecodeEightDigits(ds: string)
    requires |ds| == 8 && AllHexDigits(ds)
    ensures Decode(ds) == Argb(DigitPair(ds[0], ds[1]), DigitPair(ds[2], ds[3]), DigitPair(ds[4], ds[5]), DigitPair(ds[6], ds[7]))
  {
    DecodeWhole(ds);
    HexValueOfEight(ds);
    BytesOfFour(HexValue(ds), DigitPair(ds[0], ds[1]), DigitPair(ds[2], ds[3]), DigitPair(ds[4], ds[5]), DigitPair(ds[6], ds[7]));
  }

  lemma HexValueOfEight(ds: string)
    requires |ds| == 8 && AllHexDigits(ds)
    ensures HexValue(ds) == DigitPair(ds[0], ds[1]) * 0x100_0000
      + (DigitPair(ds[2], ds[3]) * 0x1_0000 + (DigitPair(ds[4], ds[5]) * 0x100 + DigitPair(ds[6], ds[7])))
  {
    var a, rest := ds[..2], ds[2..];
    assert ds == a + rest;
    HexValueAppend(a, rest);
    HexValueOfPair(a);
    HexValueOfSix(rest);
    Pow16Values();
  }

  lemma BytesOfFour(v: nat, a: nat, r: nat, g: nat, b: nat)
    requires a < 0x100 && r < 0x100 && g < 0x100 && b < 0x100
    requires v == a * 0x100_0000 + (r * 0x1_0000 + (g * 0x100 + b))
    ensures Components(8, v) == Argb(a, r, g, b)
  {
    Pow16Values();
    DivMod(a, r * 0x1_0000 + (g * 0x100 + b), 0x100_0000);
    assert v == (a * 0x100 + r) * 0x1_0000 + (g * 0x100 + b);
    DivMod(a * 0x100 + r, g * 0x100 + b, 0x1_0000);
    DivMod(a, r, 0x100);
    assert v == ((a * 0x100 + r) * 0x100 + g) * 0x100 + b;
    DivMod((a * 0x100 + r) * 0x100 + g, b, 0x100);
    DivMod(a * 0x100 + r, g, 0x100);
  }

  /** Non-alphanumeric characters around the colour, like the leading '#', do not change it. */
  lemma DecodeIgnoresPadding(pre: string, hex: string, post: string)
    requires forall k :: 0 <= k < |pre| ==> !IsAlphanumeric(pre[k])
    requires forall k :: 0 <= k < |post| ==> !IsAlphanumeric(post[k])
    ensures Decode(pre + hex + post) == Decode(hex)
  {
    TrimIgnoresPadding(pre, hex, post, IsNotAlphanumeric);
  }

  /** A '#' followed by six hex digits, the form of every colour constant in the app. */
  lemma DecodeHashed(ds: string)
    requires |ds| == 6 && AllHexDigits(ds)
    ensures Decode("#" + ds) == Argb(255, DigitPair(ds[0], ds[1]), DigitPair(ds[2], ds[3]), DigitPair(ds[4], ds[5]))
  {
    DecodeIgnoresPadding("#", ds, "");
    assert "#" + ds + "" == "#" + ds;
    DecodeSixDigits(ds);
  }

  // The app's palette constants decode to the components their hex digits spell.

  lemma PaletteYolkYellow()
    ensures Decode("#FFD93D") == Argb(255, 255, 217, 61)
  {
    var ds := "FFD93D";
    assert AllHexDigits(ds) by {
      assert IsHexDigit(ds[0]) && IsHexDigit(ds[1]) && IsHexDigit(ds[2]);
      assert IsHexDigit(ds[3]) && IsHexDigit(ds[4]) && IsHexDigit(ds[5]);
    }
    assert DigitPair(ds[0], ds[1]) == 255;
    assert DigitPair(ds[2], ds[3]) == 217;
    assert DigitPair(ds[4], ds[5]) == 61;
    assert "#FFD93D" == "#" + ds;
    DecodeHashed(ds);
  }

  lemma PaletteCoralRed()
    ensures Decode("#FF6B6B") == Argb(255, 255, 107, 107)
  {
    var ds := "FF6B6B";
    assert AllHexDigits(ds) by {
      assert IsHexDigit(ds[0]) && IsHexDigit(ds[1]) && IsHexDigit(ds[2]);
      assert IsHexDigit(ds[3]) && IsHexDigit(ds[4]) && IsHexDigit(ds[5]);
    }
    assert DigitPair(ds[0], ds[1]) == 255;
    assert DigitPair(ds[2], ds[3]) == 107;
    assert DigitPair(ds[4], ds[5]) == 107;
    assert "#FF6B6B" == "#" + ds;
    DecodeHashed(ds);
  }

  lemma PaletteLimeGreen()
    ensures Decode("#6CFF72") == Argb(255, 108, 255, 114)
  {
    var ds := "6CFF72";
    assert AllHexDigits(ds) by {
      assert IsHexDigit(ds[0]) && IsHexDigit(ds[1]) && IsHexDigit(ds[2]);
      assert IsHexDigit(ds[3]) && IsHexDigit(ds[4]) && IsHexDigit(ds[5]);
    }
    assert DigitPair(ds[0], ds[1]) == 108;
    assert DigitPair(ds[2], ds[3]) == 255;
    assert DigitPair(ds[4], ds[5]) == 114;
    assert "#6CFF72" == "#" + ds;
    DecodeHashed(ds);
  }

  lemma PaletteSoftBlue()
    ensures Decode("#AEE6FF") == Argb(255, 174, 230, 255)
  {
    var ds := "AEE6FF";
    assert AllHexDigits(ds) by {
      assert IsHexDigit(ds[0]) && IsHexDigit(ds[1]) && IsHexDigit(ds[2]);
      assert IsHexDigit(ds[3]) && IsHexDigit(ds[4]) && IsHexDigit(ds[5]);
    }
    assert DigitPair(ds[0], ds[1]) == 174;
    assert DigitPair(ds[2], ds[3]) == 230;
    assert DigitPair(ds[4], ds[5]) == 255;
    assert "#AEE6FF" == "#" + ds;
    DecodeHashed(ds);
  }

  lemma PaletteCozyWhite()
    ensures Decode("#F8F8F8") == Argb(255, 248, 248, 248)
  {
    var ds := "F8F8F8";
    assert AllHexDigits(ds) by {
      assert IsHexDigit(ds[0]) && IsHexDigit(ds[1]) && IsHexDigit(ds[2]);
      assert IsHexDigit(ds[3]) && IsHexDigit(ds[4]) && IsHexDigit(ds[5]);
    }
    assert DigitPair(ds[0], ds[1]) == 248;
    assert DigitPair(ds[2], ds[3]) == 248;
    assert DigitPair(ds[4], ds[5]) == 248;
    assert "#F8F8F8" == "#" + ds;
    DecodeHashed(ds);
  }
}
