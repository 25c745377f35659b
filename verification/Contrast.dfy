/** WCAG contrast correction of generated palettes: `contrast_ratio`, `_readable_on` and
    `harmonize_brand`, over any assignment of luminances to colours. */
module Contrast {
  import opened Commons

  /** Relative luminance plus 0.05 of a colour, or None when it does not parse. */
  type Weigh = string -> Option<real>

  const DARK := "#111111"
  const LIGHT := "#ffffff"

  /** What the results below need: nothing is darker than black, white weighs 1.05, and
      #111111 little more than black. */
  ghost predicate Graded(weigh: Weigh) {
    && (forall c: string | weigh(c).Some? :: weigh(c).value >= 0.05)
    && weigh(LIGHT) == Some(1.05)
    && weigh(DARK).Some? && 0.0555 < weigh(DARK).value < 0.0558
  }

  /** Lighter over darker, of luminances to which 0.05 has been added. */
  function Ratio(a: real, b: real): real
    requires a > 0.0 && b > 0.0
  {
    Quotient(Max(a, b), Min(a, b))
  }

  function Max(a: real, b: real): real {
    if a >= b then a else b
  }

  function Min(a: real, b: real): real {
    if a >= b then b else a
  }

  function Quotient(a: real, b: real): (q: real)
    requires b > 0.0
    ensures q * b == a
  {
    a / b
  }

  function ContrastRatio(weigh: Weigh, foreground: string, background: string): real
    requires Graded(weigh)
  {
    var fg, bg := weigh(foreground), weigh(background);
    if fg == None || bg == None then 0.0 else Ratio(fg.value, bg.value)
  }

  /** Near-black or white, and no less contrast than the other. */
  predicate Better(weigh: Weigh, color: string, background: string)
    requires Graded(weigh)
  {
    && color in ["#111111", "#ffffff"]
    && ContrastRatio(weigh, color, background) >= ContrastRatio(weigh, "#111111", background)
    && ContrastRatio(weigh, color, background) >= ContrastRatio(weigh, "#ffffff", background)
  }

  /** `_readable_on`: the preferred colour, if it passes, and otherwise near-black or white,
      whichever has more contrast. */
  function ReadableOn(weigh: Weigh, background: string, minimum: real, preferred: string): (r: string)
    requires Graded(weigh)
    ensures ContrastRatio(weigh, preferred, background) >= minimum ==> r == preferred
    ensures ContrastRatio(weigh, preferred, background) < minimum ==> Better(weigh, r, background)
  {
    if ContrastRatio(weigh, preferred, background) >= minimum then preferred
    else if ContrastRatio(weigh, DARK, background) >= ContrastRatio(weigh, LIGHT, background) then DARK
    else LIGHT
  }

  // Arithmetic of ratios, over positive weights

  lemma Scaled(a: real, b: real, c: real)
    requires a <= b && c >= 0.0
    ensures a * c <= b * c && c * a <= c * b
  {
  }

  lemma ScaledStrictly(a: real, b: real, c: real)
    requires a < b && c > 0.0
    ensures a * c < b * c
  {
  }

  lemma QuotientAtLeast(a: real, b: real, m: real)
    requires b > 0.0
    ensures Quotient(a, b) >= m <==> a >= m * b
  {
    ProductAtLeast(Quotient(a, b), b, m);
  }

  lemma ProductAtLeast(q: real, b: real, m: real)
    requires b > 0.0
    ensures q >= m <==> q * b >= m * b
  {
    if q >= m { Scaled(m, q, b); } else { ScaledStrictly(q, m, b); }
  }

  lemma RatioAtLeast(a: real, b: real, m: real)
    requires a > 0.0 && b > 0.0
    ensures Ratio(a, b) >= m <==> Max(a, b) >= m * Min(a, b)
  {
    QuotientAtLeast(Max(a, b), Min(a, b), m);
  }

  lemma RatioTimesDarker(a: real, b: real)
    requires a > 0.0 && b > 0.0
    ensures Ratio(a, b) >= 1.0 && Ratio(a, b) * Min(a, b) == Max(a, b)
  {
    RatioAtLeast(a, b, 1.0);
  }

  lemma AtLeastItself(m: real, x: real)
    requires m >= 1.0 && x > 0.0
    ensures m * x >= x
  {
    Scaled(1.0, m, x);
  }

  /** x is m times black, or white is m times x. */
  predicate Apart(x: real, d: real, w: real, m: real) {
    x >= m * d || w >= m * x
  }

  /** Black or white reaches m on a background of weight x exactly when they are so far apart. */
  lemma ReachArithmetic(x: real, d: real, w: real, m: real)
    requires x > 0.0 && 0.0 < d <= w && m >= 1.0
    ensures Ratio(d, x) >= m || Ratio(w, x) >= m <==> Apart(x, d, w, m)
  {
    RatioAtLeast(d, x, m);
    RatioAtLeast(w, x, m);
    AtLeastItself(m, x);
    AtLeastItself(m, d);
    AtLeastItself(m, w);
    Scaled(d, w, m);
    if x <= d { Scaled(x, d, m); }
  }

  /** At least sqrt(1.05 / d), squared. */
  predicate Strong(r: real, d: real) {
    r >= 1.0 && r * r * d >= 1.05
  }

  lemma StrongFrom(r: real, d: real)
    requires d > 0.0 && r >= 1.0 && r * d >= 1.05
    ensures Strong(r, d)
  {
    Scaled(1.0, r, r);
    Scaled(r, r * r, d);
  }

  lemma StrongGrows(r: real, best: real, d: real)
    requires Strong(r, d) && best >= r && d > 0.0
    ensures Strong(best, d)
  {
    Scaled(r, best, r);
    Scaled(r, best, best);
    Scaled(r * r, best * best, d);
  }

  lemma StrongFromProduct(p: real, q: real, x: real, d: real)
    requires p >= q >= 1.0 && d > 0.0 && x > 0.0 && p * q * d == 1.05
    ensures Strong(p, d)
  {
    Scaled(q, p, p);
    Scaled(p * q, p * p, d);
  }

  lemma ProductOfBoth(p: real, q: real, x: real, d: real)
    requires p * d == x && q * x == 1.05
    ensures p * q * d == 1.05 && q * p * d == 1.05
  {
    assert p * q * d == q * (p * d);
    assert q * p * d == q * (p * d);
  }

  /** x is the background, d near-black and 1.05 white; p and q are the two contrasts. */
  lemma BestOfTwo(x: real, d: real, p: real, q: real)
    requires x > 0.0 && 0.0 < d <= 1.05 && p >= 1.0 && q >= 1.0
    requires if x <= d then p * x == d else p * d == x
    requires if x <= 1.05 then q * x == 1.05 else q * 1.05 == x
    ensures Strong(Max(p, q), d)
  {
    if x <= d {
      Scaled(x, d, q);
      StrongFrom(q, d);
      StrongGrows(q, Max(p, q), d);
    } else if x > 1.05 {
      StrongFrom(p, d);
      StrongGrows(p, Max(p, q), d);
    } else {
      ProductOfBoth(p, q, x, d);
      if p >= q { StrongFromProduct(p, q, x, d); } else { StrongFromProduct(q, p, x, d); }
    }
  }

  /** The bound is above 4.33. */
  lemma StrongAboveModerate(r: real, d: real)
    requires Strong(r, d) && 0.0 < d < 0.0558
    ensures r > 4.33
  {
    if r <= 4.33 {
      Scaled(r, 4.33, r);
      Scaled(r, 4.33, 4.33);
      Scaled(r * r, 18.7489, d);
    }
  }

  // Contrast against black and white

  /** Whether black or white can give the background a contrast of m. */
  predicate Reachable(weigh: Weigh, background: string, m: real)
    requires Graded(weigh) && weigh(background).Some?
  {
    Apart(weigh(background).value, weigh(DARK).value, 1.05, m)
  }

  /** Exactly when the corrected colour reaches the requested contrast: when the preferred
      one does, or the background is light enough for black or dark enough for white. */
  lemma ReadableIff(weigh: Weigh, background: string, minimum: real, preferred: string)
    requires Graded(weigh) && weigh(background).Some? && minimum >= 1.0
    ensures ContrastRatio(weigh, ReadableOn(weigh, background, minimum, preferred), background) >= minimum <==>
            ContrastRatio(weigh, preferred, background) >= minimum || Reachable(weigh, background, minimum)
  {
    ReadableIsBest(weigh, background, minimum, preferred);
    ReachArithmetic(weigh(background).value, weigh(DARK).value, 1.05, minimum);
  }

  lemma ReadableIsBest(weigh: Weigh, background: string, minimum: real, preferred: string)
    requires Graded(weigh) && weigh(background).Some?
    ensures var x := weigh(background).value;
      ContrastRatio(weigh, ReadableOn(weigh, background, minimum, preferred), background) >= minimum <==>
      ContrastRatio(weigh, preferred, background) >= minimum ||
      Ratio(weigh(DARK).value, x) >= minimum || Ratio(1.05, x) >= minimum
  {
  }

  /** The contrast asked for, or at least sqrt(1.05 / (L(#111111) + 0.05)). */
  predicate Legible(weigh: Weigh, ratio: real, minimum: real)
    requires Graded(weigh)
  {
    ratio >= minimum || Strong(ratio, weigh(DARK).value)
  }

  /** `_readable_on` on any background that parses. */
  lemma ReadableOnIsLegible(weigh: Weigh, background: string, minimum: real, preferred: string)
    requires Graded(weigh) && weigh(background).Some?
    ensures Legible(weigh, ContrastRatio(weigh, ReadableOn(weigh, background, minimum, preferred), background), minimum)
  {
    var x, d := weigh(background).value, weigh(DARK).value;
    RatioTimesDarker(d, x);
    RatioTimesDarker(1.05, x);
    BestOfTwo(x, d, Ratio(d, x), Ratio(1.05, x));
    var r := ContrastRatio(weigh, ReadableOn(weigh, background, minimum, preferred), background);
    assert r >= minimum || r == Max(Ratio(d, x), Ratio(1.05, x));
  }

  /** So targets up to 4.33, such as 3:1, are always met. */
  lemma ModerateTargetsMet(weigh: Weigh, ratio: real, minimum: real)
    requires Graded(weigh) && Legible(weigh, ratio, minimum) && minimum <= 4.33
    ensures ratio >= minimum
  {
    if ratio < minimum { StrongAboveModerate(ratio, weigh(DARK).value); }
  }

  lemma MiddleUnreachable(weigh: Weigh, background: string)
    requires Graded(weigh) && weigh(background).Some? && 0.2344 < weigh(background).value < 0.2346
    ensures ContrastRatio(weigh, ReadableOn(weigh, background, 4.5, background), background) < 4.5
  {
    var x := weigh(background).value;
    RatioAtLeast(x, x, 4.5);
    ReadableIff(weigh, background, 4.5, background);
  }

  /** No single foreground up to white clears 4.5:1 on both #111111 and #ffffff, so a colour listed
      against several backgrounds cannot be promised the ratio on all of them. */
  lemma NoColourSuitsBoth(weigh: Weigh, foreground: string)
    requires Graded(weigh) && (weigh(foreground).Some? ==> weigh(foreground).value <= 1.05)
    ensures ContrastRatio(weigh, foreground, DARK) < 4.5 || ContrastRatio(weigh, foreground, LIGHT) < 4.5
  {
    if weigh(foreground).Some? { NoWeightSuitsBoth(weigh(foreground).value, weigh(DARK).value); }
  }

  lemma NoWeightSuitsBoth(x: real, d: real)
    requires 0.05 <= x <= 1.05 && 0.0555 < d < 0.0558
    ensures !(Ratio(x, d) >= 4.5 && Ratio(x, 1.05) >= 4.5)
  {
    RatioAtLeast(x, d, 4.5);
    RatioAtLeast(x, 1.05, 4.5);
    ApartByTwenty(x, d, Max(x, d), Min(x, d), Max(x, 1.05), Min(x, 1.05));
  }

  lemma ApartByTwenty(x: real, d: real, hi: real, lo: real, hi': real, lo': real)
    requires 0.05 <= x <= 1.05 && 0.0555 < d < 0.0558
    requires hi == Max(x, d) && lo == Min(x, d) && hi' == Max(x, 1.05) && lo' == Min(x, 1.05)
    ensures !(hi >= 4.5 * lo && hi' >= 4.5 * lo')
  {
  }
}
