/** Relative luminance of sRGB colours. Reals stand for floats; the exponent 2.4 is any
    function with pow(x)^5 = x^12, and colour parsing is a parameter. */
module Luminance {
  import opened Commons
  import opened Contrast

  datatype Rgb = Rgb(r: real, g: real, b: real)

  /** Colour parsing and the 2.4th power. */
  datatype Scheme = Scheme(parse: string -> Option<Rgb>, pow: real -> real)

  function Power(x: real, n: nat): real {
    if n == 0 then 1.0 else Power(x, n - 1) * x
  }

  ghost predicate Lawful(s: Scheme) {
    && (forall x: real | x >= 0.0 :: s.pow(x) >= 0.0 && Power(s.pow(x), 5) == Power(x, 12))
    && (forall c: string | s.parse(c).Some? :: Channels(s.parse(c).value))
    && s.parse(DARK) == Some(Rgb(17.0, 17.0, 17.0))
    && s.parse(LIGHT) == Some(Rgb(255.0, 255.0, 255.0))
  }

  predicate Channels(c: Rgb) {
    c.r >= 0.0 && c.g >= 0.0 && c.b >= 0.0
  }

  function Channel(s: Scheme, value: real): real {
    var srgb := value / 255.0;
    if srgb <= 0.03928 then srgb / 12.92 else s.pow((srgb + 0.055) / 1.055)
  }

  function Luminance(s: Scheme, c: Rgb): real {
    0.2126 * Channel(s, c.r) + 0.7152 * Channel(s, c.g) + 0.0722 * Channel(s, c.b)
  }

  lemma LuminanceNonNegative(s: Scheme, c: Rgb)
    requires Lawful(s) && Channels(c)
    ensures Luminance(s, c) >= 0.0
  {
    ChannelNonNegative(s, c.r);
    ChannelNonNegative(s, c.g);
    ChannelNonNegative(s, c.b);
  }

  lemma ChannelNonNegative(s: Scheme, v: real)
    requires Lawful(s) && v >= 0.0
    ensures Channel(s, v) >= 0.0
  {
    var srgb := v / 255.0;
    assert srgb >= 0.0 && (srgb + 0.055) / 1.055 >= 0.0;
  }

  // Powers

  lemma {:induction false} PowerGrows(a: real, b: real, n: nat)
    requires 0.0 <= a < b && n > 0
    ensures 0.0 <= Power(a, n) < Power(b, n)
    decreases n
  {
    if n > 1 {
      PowerGrows(a, b, n - 1);
      Product(Power(a, n - 1), Power(b, n - 1), a, b);
    }
  }

  lemma Product(a: real, b: real, c: real, d: real)
    requires 0.0 <= a < b && 0.0 <= c < d
    ensures 0.0 <= a * c < b * d
  {
    assert a * c <= b * c;
    assert b * c < b * d;
  }

  /** Bounds on pow(x) from bounds on x^12. */
  lemma PowBetween(s: Scheme, x: real, lo: real, hi: real)
    requires Lawful(s) && x >= 0.0 && 0.0 <= lo && 0.0 <= hi && Power(lo, 5) < Power(x, 12) < Power(hi, 5)
    ensures lo < s.pow(x) < hi
  {
    var y := s.pow(x);
    if y < lo { PowerGrows(y, lo, 5); }
    if y > hi { PowerGrows(hi, y, 5); }
  }

  lemma WhiteIsOne(s: Scheme)
    requires Lawful(s)
    ensures Luminance(s, Rgb(255.0, 255.0, 255.0)) == 1.0
  {
    var y := s.pow(1.0);
    OnePower(5);
    OnePower(12);
    if y < 1.0 { PowerGrows(y, 1.0, 5); }
    if y > 1.0 { PowerGrows(1.0, y, 5); }
    assert 255.0 / 255.0 == 1.0 && (1.0 + 0.055) / 1.055 == 1.0;
  }

  /** White is full red, full green and full blue together; green weighs most and blue least. */
  lemma Primaries(s: Scheme)
    requires Lawful(s)
    ensures Luminance(s, Rgb(255.0, 0.0, 0.0)) == 0.2126
    ensures Luminance(s, Rgb(0.0, 255.0, 0.0)) == 0.7152
    ensures Luminance(s, Rgb(0.0, 0.0, 255.0)) == 0.0722
  {
    WhiteIsOne(s);
    GreyIsChannel(s, 255.0);
    assert Channel(s, 0.0) == 0.0;
  }

  lemma {:induction false} OnePower(n: nat)
    ensures Power(1.0, n) == 1.0
    decreases n
  {
    if n > 0 { OnePower(n - 1); }
  }

  lemma GreyIsChannel(s: Scheme, v: real)
    ensures Luminance(s, Rgb(v, v, v)) == Channel(s, v)
  {
  }

  /** Relative luminance of #111111 lies between 0.0055 and 0.0058. */
  lemma DarkIsDark(s: Scheme)
    requires Lawful(s)
    ensures 0.0055 < Luminance(s, Rgb(17.0, 17.0, 17.0)) < 0.0058
  {
    var x := 73.0 / 633.0;
    assert (17.0 / 255.0 + 0.055) / 1.055 == x;
    GreyIsChannel(s, 17.0);
    DarkPowers();
    PowBetween(s, x, 0.0055, 0.0058);
  }

  lemma DarkPowers()
    ensures Power(0.0055, 5) < Power(73.0 / 633.0, 12) < Power(0.0058, 5)
  {
  }

  lemma GreyPowers()
    ensures Power(0.1844, 5) < Power(313.0 / 633.0, 12) < Power(0.1846, 5)
  {
  }

  predicate IsByte(v: real) {
    0.0 <= v <= 255.0 && v == v.Floor as real
  }

  lemma TenPowers()
    ensures Power(10.0 / 255.0 / 12.92, 5) < Power((11.0 / 255.0 + 0.055) / 1.055, 12)
  {
  }

  lemma PowGrows(s: Scheme, x: real, y: real)
    requires Lawful(s) && 0.0 <= x < y
    ensures s.pow(x) < s.pow(y)
  {
    PowerGrows(x, y, 12);
    if s.pow(y) < s.pow(x) { PowerGrows(s.pow(y), s.pow(x), 5); }
  }

  /** The two pieces of the curve fit together on the 256 steps of a channel. */
  lemma ChannelGrows(s: Scheme, v: real, w: real)
    requires Lawful(s) && IsByte(v) && IsByte(w) && v < w
    ensures Channel(s, v) < Channel(s, w)
  {
    if v >= 11.0 {
      PowGrows(s, (v / 255.0 + 0.055) / 1.055, (w / 255.0 + 0.055) / 1.055);
    } else if w >= 11.0 {
      var x := (11.0 / 255.0 + 0.055) / 1.055;
      TenPowers();
      assert v <= 10.0;
      if s.pow(x) < 10.0 / 255.0 / 12.92 { PowerGrows(s.pow(x), 10.0 / 255.0 / 12.92, 5); }
      if w > 11.0 { PowGrows(s, x, (w / 255.0 + 0.055) / 1.055); }
    }
  }

  /** Raising any channel makes a colour lighter. */
  lemma LuminanceGrows(s: Scheme, a: Rgb, b: Rgb)
    requires Lawful(s) && IsByte(a.r) && IsByte(a.g) && IsByte(a.b) && IsByte(b.r) && IsByte(b.g) && IsByte(b.b)
    requires a.r <= b.r && a.g <= b.g && a.b <= b.b && a != b
    ensures Luminance(s, a) < Luminance(s, b)
  {
    if a.r < b.r { ChannelGrows(s, a.r, b.r); }
    if a.g < b.g { ChannelGrows(s, a.g, b.g); }
    if a.b < b.b { ChannelGrows(s, a.b, b.b); }
  }

  /** What the contrast theory asks of a colour: its luminance plus 0.05, if it parses. */
  function WeighWith(s: Scheme): Weigh
    requires Lawful(s)
  {
    (c: string) => if s.parse(c) == None then None else Some(Luminance(s, s.parse(c).value) + 0.05)
  }

  /** sRGB luminance meets the demands of the contrast theory. */
  lemma SrgbIsGraded(s: Scheme)
    requires Lawful(s)
    ensures Graded(WeighWith(s))
  {
    WhiteIsOne(s);
    DarkIsDark(s);
    forall c: string | s.parse(c).Some? ensures Luminance(s, s.parse(c).value) >= 0.0 {
      LuminanceNonNegative(s, s.parse(c).value);
    }
  }

  /** On #777777 a target of 4.5:1 is out of reach of the correction. */
  lemma MidGreyUnreachable(s: Scheme, background: string)
    requires Lawful(s) && s.parse(background) == Some(Rgb(119.0, 119.0, 119.0))
    ensures Graded(WeighWith(s))
    ensures ContrastRatio(WeighWith(s), ReadableOn(WeighWith(s), background, 4.5, background), background) < 4.5
  {
    SrgbIsGraded(s);
    var x := 313.0 / 633.0;
    assert (119.0 / 255.0 + 0.055) / 1.055 == x;
    GreyIsChannel(s, 119.0);
    GreyPowers();
    PowBetween(s, x, 0.1844, 0.1846);
    MiddleUnreachable(WeighWith(s), background);
  }
}
