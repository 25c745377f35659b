/** `harmonize_brand`: derive the unstated surfaces, then correct foregrounds pair by pair. */
module Palette {
  import opened Commons
  import opened Contrast

  /** A CSS variable of the page; those that no rule below mentions go by their names. */
  datatype Var =
    | Bg | Surface | Panel | AssistantBubble | InputBg | Accent
    | Text | Muted | AccentText | Link
    | Other(name: string)

  type Vars = map<Var, string>

  datatype Pair = Pair(foreground: Var, background: Var, minimum: real)

  datatype Note = Note(foreground: Var, background: Var, color: string)

  const CONTRAST_PAIRS: seq<Pair> := [
    Pair(Text, Bg, 4.5),
    Pair(Text, Surface, 4.5),
    Pair(Text, Panel, 4.5),
    Pair(Text, AssistantBubble, 4.5),
    Pair(Muted, Bg, 3.0),
    Pair(Muted, Panel, 3.0),
    Pair(Muted, Surface, 3.0),
    Pair(AccentText, Accent, 4.5),
    Pair(Link, AssistantBubble, 3.0)]

  const BACKGROUND_FAMILY: seq<(Var, real)> := [
    (Surface, 0.04), (Panel, 0.07), (AssistantBubble, 0.05), (InputBg, 0.02)]

  function Effective(clean: Vars, base: Vars, name: Var): string {
    Get(clean, name, Get(base, name, "#000000"))
  }

  /** No colour is corrected for one pair and a background in another. */
  ghost predicate Separate(pairs: seq<Pair>) {
    forall p <- pairs, q <- pairs :: p.foreground != q.background
  }

  ghost predicate IsForeground(pairs: seq<Pair>, name: Var) {
    exists p <- pairs :: p.foreground == name
  }

  /** The pair's colours, as the page will show them, are legible. On a background that does not
      parse nothing is known to be: every contrast reads 0, and the text turns near-black. */
  ghost predicate Met(weigh: Weigh, clean: Vars, base: Vars, p: Pair)
    requires Graded(weigh)
  {
    var foreground, background := Effective(clean, base, p.foreground), Effective(clean, base, p.background);
    if weigh(background).Some? then Legible(weigh, ContrastRatio(weigh, foreground, background), p.minimum)
    else p.minimum > 0.0 ==> foreground == DARK
  }

  /** Pair `i` is the last of the first `k` to list its foreground. */
  ghost predicate LastOf(pairs: seq<Pair>, i: nat, k: nat)
    requires k <= |pairs|
  {
    i < k && forall j | i < j < k :: pairs[j].foreground != pairs[i].foreground
  }

  /** Whatever changed is noted, with the colour it ended up as. */
  ghost predicate Explained(before: Vars, clean: Vars, base: Vars, notes: seq<Note>) {
    forall name :: Effective(clean, base, name) == Effective(before, base, name) ||
                   exists n <- notes :: n.foreground == name && n.color == Effective(clean, base, name)
  }

  /** Only foregrounds of the pairs are written. */
  ghost predicate KeepsOthers(pairs: seq<Pair>, before: Vars, clean: Vars) {
    forall name | !IsForeground(pairs, name) ::
      (name in clean <==> name in before) && Get(clean, name, "") == Get(before, name, "")
  }

  /** Correcting pair k leaves every settled pair with another foreground as it was. */
  lemma WriteKeepsMet(weigh: Weigh, clean: Vars, base: Vars, pairs: seq<Pair>, k: nat, i: nat, color: string)
    requires Graded(weigh) && Separate(pairs) && k < |pairs| && i < k
    requires pairs[i].foreground != pairs[k].foreground && Met(weigh, clean, base, pairs[i])
    ensures Met(weigh, clean[pairs[k].foreground := color], base, pairs[i])
  {
    assert pairs[k] in pairs && pairs[i] in pairs;
  }

  /** The pair has the contrast it asks for, as the page shows its colours. */
  ghost predicate Passes(weigh: Weigh, clean: Vars, base: Vars, p: Pair)
    requires Graded(weigh)
  {
    ContrastRatio(weigh, Effective(clean, base, p.foreground), Effective(clean, base, p.background)) >= p.minimum
  }

  /** Every note names a pair of the list. */
  ghost predicate Listed(pairs: seq<Pair>, notes: seq<Note>) {
    forall n <- notes :: exists p <- pairs :: n.foreground == p.foreground && n.background == p.background
  }

  /** The correction of one pair: a colour that passes is left alone, any other becomes what
      `_readable_on` makes of the theme's own. */
  function CorrectOne(weigh: Weigh, base: Vars, clean: Vars, p: Pair): (Vars, seq<Note>)
    requires Graded(weigh)
  {
    var background, shown := Effective(clean, base, p.background), Effective(clean, base, p.foreground);
    var replacement := ReadableOn(weigh, background, p.minimum, Get(base, p.foreground, DARK));
    if ContrastRatio(weigh, shown, background) >= p.minimum || replacement == shown then (clean, [])
    else (clean[p.foreground := replacement], [Note(p.foreground, p.background, replacement)])
  }

  /** The corrections of a list of pairs, one after the other. */
  function CorrectAll(weigh: Weigh, base: Vars, clean: Vars, pairs: seq<Pair>): (Vars, seq<Note>)
    requires Graded(weigh)
  {
    if pairs == [] then (clean, [])
    else
      var (front, notes) := CorrectAll(weigh, base, clean, pairs[..|pairs| - 1]);
      var (last, more) := CorrectOne(weigh, base, front, pairs[|pairs| - 1]);
      (last, notes + more)
  }

  /** A later pair of the same foreground was corrected, and noted. */
  ghost predicate Overruled(pairs: seq<Pair>, notes: seq<Note>, i: nat, k: nat)
    requires i < k <= |pairs|
  {
    exists j | i < j < k :: pairs[j].foreground == pairs[i].foreground && Noted(notes, pairs[j])
  }

  ghost predicate Noted(notes: seq<Note>, p: Pair) {
    exists n <- notes :: n.foreground == p.foreground && n.background == p.background
  }

  /** Each of the first k pairs is legible, unless it was overruled. */
  ghost predicate MetOrOverruled(weigh: Weigh, base: Vars, pairs: seq<Pair>, clean: Vars, notes: seq<Note>, k: nat)
    requires Graded(weigh) && k <= |pairs|
  {
    forall i: nat | i < k :: Met(weigh, clean, base, pairs[i]) || Overruled(pairs, notes, i, k)
  }

  /** Of a colour as shown and the theme's own: the first that passes, and if neither does
      near-black or white, whichever has more contrast. */
  ghost predicate Chosen(weigh: Weigh, after: string, shown: string, own: string, background: string, minimum: real)
    requires Graded(weigh)
  {
    if ContrastRatio(weigh, shown, background) >= minimum then after == shown
    else if ContrastRatio(weigh, own, background) >= minimum then after == own
    else Better(weigh, after, background)
  }

  lemma OneIsMet(weigh: Weigh, base: Vars, clean: Vars, p: Pair)
    requires Graded(weigh) && p.foreground != p.background
    ensures Met(weigh, CorrectOne(weigh, base, clean, p).0, base, p)
  {
    var background := Effective(clean, base, p.background);
    if weigh(background).Some? { ReadableOnIsLegible(weigh, background, p.minimum, Get(base, p.foreground, DARK)); }
  }

  lemma OneKeepsMet(weigh: Weigh, base: Vars, pairs: seq<Pair>, k: nat, clean: Vars, notes: seq<Note>)
    requires Graded(weigh) && Separate(pairs) && k < |pairs| && MetOrOverruled(weigh, base, pairs, clean, notes, k)
    ensures var (last, more) := CorrectOne(weigh, base, clean, pairs[k]);
      MetOrOverruled(weigh, base, pairs, last, notes + more, k + 1)
  {
    var p := pairs[k];
    var (last, more) := CorrectOne(weigh, base, clean, p);
    assert p in pairs;
    forall i: nat | i < k + 1
      ensures Met(weigh, last, base, pairs[i]) || Overruled(pairs, notes + more, i, k + 1)
    {
      if i == k {
        OneIsMet(weigh, base, clean, p);
      } else if Overruled(pairs, notes, i, k) {
        var j :| i < j < k && pairs[j].foreground == pairs[i].foreground && Noted(notes, pairs[j]);
      } else if more != [] {
        if pairs[i].foreground == p.foreground {
          assert more[0] in notes + more && Noted(notes + more, p);
        } else {
          WriteKeepsMet(weigh, clean, base, pairs, k, i, more[0].color);
        }
      }
    }
  }

  lemma OneKeepsRest(weigh: Weigh, base: Vars, before: Vars, pairs: seq<Pair>, k: nat, clean: Vars, notes: seq<Note>)
    requires Graded(weigh) && k < |pairs|
    requires KeepsOthers(pairs, before, clean) && Explained(before, clean, base, notes) && Listed(pairs, notes)
    ensures var (last, more) := CorrectOne(weigh, base, clean, pairs[k]);
      KeepsOthers(pairs, before, last) && Explained(before, last, base, notes + more) && Listed(pairs, notes + more)
  {
    var p := pairs[k];
    var (last, more) := CorrectOne(weigh, base, clean, p);
    assert p in pairs && IsForeground(pairs, p.foreground);
    if more != [] {
      forall other
        ensures Effective(last, base, other) == Effective(before, base, other) ||
                exists n <- notes + more :: n.foreground == other && n.color == Effective(last, base, other)
      {
        if other == p.foreground { assert more[0] in notes + more; }
      }
    }
  }

  /** What the corrections of a list amount to. */
  ghost predicate Settles(weigh: Weigh, base: Vars, before: Vars, pairs: seq<Pair>, clean: Vars, notes: seq<Note>,
                          k: nat)
    requires Graded(weigh) && k <= |pairs|
  {
    && KeepsOthers(pairs, before, clean) && Explained(before, clean, base, notes) && Listed(pairs, notes)
    && MetOrOverruled(weigh, base, pairs, clean, notes, k)
    && (AllPass(weigh, base, before, pairs) ==> clean == before && notes == [])
  }

  ghost predicate AllPass(weigh: Weigh, base: Vars, before: Vars, pairs: seq<Pair>)
    requires Graded(weigh)
  {
    forall p <- pairs :: Passes(weigh, before, base, p)
  }

  lemma OneKeepsPassing(weigh: Weigh, base: Vars, before: Vars, pairs: seq<Pair>, k: nat)
    requires Graded(weigh) && k < |pairs| && AllPass(weigh, base, before, pairs)
    ensures CorrectOne(weigh, base, before, pairs[k]) == (before, [])
  {
    assert pairs[k] in pairs && Passes(weigh, before, base, pairs[k]);
  }

  /** Backgrounds stay; changes are noted with the final colour; a pair is legible at the end
      unless a later pair of its foreground was corrected; and a design all of whose pairs pass
      is returned as it came. */
  lemma {:induction false} CorrectAllSettles(weigh: Weigh, base: Vars, before: Vars, pairs: seq<Pair>, k: nat)
    requires Graded(weigh) && Separate(pairs) && k <= |pairs|
    ensures var (clean, notes) := CorrectAll(weigh, base, before, pairs[..k]);
      Settles(weigh, base, before, pairs, clean, notes, k)
    decreases k
  {
    if k > 0 {
      CorrectAllSettles(weigh, base, before, pairs, k - 1);
      assert pairs[..k][..k - 1] == pairs[..k - 1];
      var (clean, notes) := CorrectAll(weigh, base, before, pairs[..k - 1]);
      OneKeepsMet(weigh, base, pairs, k - 1, clean, notes);
      OneKeepsRest(weigh, base, before, pairs, k - 1, clean, notes);
      if AllPass(weigh, base, before, pairs) { OneKeepsPassing(weigh, base, before, pairs, k - 1); }
    } else {
      assert pairs[..0] == [];
    }
  }

  /** So the last-listed pair of every foreground is legible. */
  lemma LastListedIsMet(weigh: Weigh, base: Vars, before: Vars, pairs: seq<Pair>, i: nat)
    requires Graded(weigh) && Separate(pairs) && LastOf(pairs, i, |pairs|)
    ensures Met(weigh, CorrectAll(weigh, base, before, pairs).0, base, pairs[i])
  {
    CorrectAllSettles(weigh, base, before, pairs, |pairs|);
    assert pairs[..|pairs|] == pairs;
  }

  /** The loop over the pairs. */
  method Correct(weigh: Weigh, base: Vars, before: Vars, pairs: seq<Pair>) returns (clean: Vars, notes: seq<Note>)
    requires Graded(weigh)
    ensures (clean, notes) == CorrectAll(weigh, base, before, pairs)
  {
    clean, notes := before, [];
    for k := 0 to |pairs|
      invariant (clean, notes) == CorrectAll(weigh, base, before, pairs[..k])
    {
      var p := pairs[k];
      assert pairs[..k + 1][..k] == pairs[..k];
      var background := Effective(clean, base, p.background);
      ghost var one, past := CorrectOne(weigh, base, clean, p), notes;
      if ContrastRatio(weigh, Effective(clean, base, p.foreground), background) < p.minimum {
        var replacement := ReadableOn(weigh, background, p.minimum, Get(base, p.foreground, DARK));
        if replacement != Effective(clean, base, p.foreground) {
          clean := clean[p.foreground := replacement];
          notes := notes + [Note(p.foreground, p.background, replacement)];
        }
      }
      assert clean == one.0 && notes == past + one.1;
    }
    assert pairs[..|pairs|] == pairs;
  }

  // An earlier pair can lose

  lemma {:induction false} KeepsName(weigh: Weigh, base: Vars, clean: Vars, pairs: seq<Pair>, i: nat, k: nat, name: Var)
    requires Graded(weigh) && i <= k <= |pairs| && forall j | i <= j < k :: pairs[j].foreground != name
    ensures Effective(CorrectAll(weigh, base, clean, pairs[..k]).0, base, name) ==
            Effective(CorrectAll(weigh, base, clean, pairs[..i]).0, base, name)
    decreases k
  {
    if i < k {
      KeepsName(weigh, base, clean, pairs, i, k - 1, name);
      assert pairs[..k][..k - 1] == pairs[..k - 1];
    }
  }

  lemma OneIsChosen(weigh: Weigh, base: Vars, clean: Vars, p: Pair)
    requires Graded(weigh)
    ensures Chosen(weigh, Effective(CorrectOne(weigh, base, clean, p).0, base, p.foreground),
                   Effective(clean, base, p.foreground), Get(base, p.foreground, "#111111"),
                   Effective(clean, base, p.background), p.minimum)
  {
  }

  /** A foreground that is listed once ends as the design's colour, if that passes, else as the
      theme's own, if that does, and else as the better of near-black and white. */
  lemma OnceListedEnds(weigh: Weigh, base: Vars, design: Vars, pairs: seq<Pair>, i: nat)
    requires Graded(weigh) && Separate(pairs) && i < |pairs|
    requires forall j | 0 <= j < |pairs| && j != i :: pairs[j].foreground != pairs[i].foreground
    ensures var (p, clean) := (pairs[i], CorrectAll(weigh, base, design, pairs).0);
      Chosen(weigh, Get(clean, p.foreground, Get(base, p.foreground, "#000000")),
             Get(design, p.foreground, Get(base, p.foreground, "#000000")), Get(base, p.foreground, "#111111"),
             Get(design, p.background, Get(base, p.background, "#000000")), p.minimum)
  {
    var p := pairs[i];
    assert pairs[..|pairs|] == pairs && pairs[..i + 1][..i] == pairs[..i] && pairs[..0] == [];
    BackgroundStays(weigh, base, design, pairs, i, i);
    KeepsName(weigh, base, design, pairs, 0, i, p.foreground);
    KeepsName(weigh, base, design, pairs, i + 1, |pairs|, p.foreground);
    OneIsChosen(weigh, base, CorrectAll(weigh, base, design, pairs[..i]).0, p);
  }

  /** A correction writes the theme's own colour, near-black or white. */
  lemma {:induction false} ComesFrom(weigh: Weigh, base: Vars, clean: Vars, pairs: seq<Pair>, k: nat, name: Var)
    requires Graded(weigh) && k <= |pairs|
    ensures Effective(CorrectAll(weigh, base, clean, pairs[..k]).0, base, name) in
            [Effective(clean, base, name), Get(base, name, DARK), DARK, LIGHT]
    decreases k
  {
    if k > 0 {
      ComesFrom(weigh, base, clean, pairs, k - 1, name);
      assert pairs[..k][..k - 1] == pairs[..k - 1];
    } else {
      assert pairs[..0] == [];
    }
  }

  lemma WhiteIsCorrected(weigh: Weigh, base: Vars, clean: Vars, p: Pair)
    requires Graded(weigh) && p.foreground != p.background && p.minimum == 4.5
    requires Effective(clean, base, p.background) == LIGHT
    ensures Passes(weigh, CorrectOne(weigh, base, clean, p).0, base, p)
  {
    var d := weigh(DARK).value;
    RatioAtLeast(d, 1.05, 4.5);
    RatioAtLeast(1.05, 1.05, 4.5);
  }

  lemma BackgroundStays(weigh: Weigh, base: Vars, design: Vars, pairs: seq<Pair>, k: nat, i: nat)
    requires Graded(weigh) && Separate(pairs) && k <= |pairs| && i < |pairs|
    ensures Effective(CorrectAll(weigh, base, design, pairs[..k]).0, base, pairs[i].background) ==
            Effective(design, base, pairs[i].background)
  {
    assert pairs[i] in pairs && pairs[..0] == [];
    assert forall j | 0 <= j < k :: pairs[j] in pairs;
    KeepsName(weigh, base, design, pairs, 0, k, pairs[i].background);
  }

  /** A last-listed pair on white ends at 4.5:1 or better. */
  lemma LastClearsWhite(weigh: Weigh, base: Vars, design: Vars, pairs: seq<Pair>, i: nat)
    requires Graded(weigh) && Separate(pairs) && LastOf(pairs, i, |pairs|) && pairs[i].minimum == 4.5
    requires Effective(design, base, pairs[i].background) == LIGHT
    ensures var clean := CorrectAll(weigh, base, design, pairs).0;
      ContrastRatio(weigh, Effective(clean, base, pairs[i].foreground), LIGHT) >= 4.5
  {
    assert pairs[i] in pairs && pairs[..|pairs|] == pairs && pairs[..i + 1][..i] == pairs[..i];
    BackgroundStays(weigh, base, design, pairs, i, i);
    BackgroundStays(weigh, base, design, pairs, i + 1, i);
    KeepsName(weigh, base, design, pairs, i + 1, |pairs|, pairs[i].foreground);
    WhiteIsCorrected(weigh, base, CorrectAll(weigh, base, design, pairs[..i]).0, pairs[i]);
  }

  /** The last-listed pairs of the four foregrounds. */
  lemma LastListed()
    ensures |CONTRAST_PAIRS| == 9
    ensures LastOf(CONTRAST_PAIRS, 3, 9) && LastOf(CONTRAST_PAIRS, 6, 9) && LastOf(CONTRAST_PAIRS, 8, 9)
    ensures CONTRAST_PAIRS[3] == Pair(Text, AssistantBubble, 4.5) && CONTRAST_PAIRS[6] == Pair(Muted, Surface, 3.0)
    ensures CONTRAST_PAIRS[8] == Pair(Link, AssistantBubble, 3.0)
    ensures forall p <- [Pair(Text, AssistantBubble, 4.5), Pair(Muted, Surface, 3.0), Pair(AccentText, Accent, 4.5),
                         Pair(Link, AssistantBubble, 3.0)] :: ListedLast(CONTRAST_PAIRS, p)
  {
    assert LastOf(CONTRAST_PAIRS, 7, 9) && CONTRAST_PAIRS[7] == Pair(AccentText, Accent, 4.5);
  }

  /** No later pair has its foreground. */
  ghost predicate ListedLast(pairs: seq<Pair>, p: Pair) {
    exists i: nat :: LastOf(pairs, i, |pairs|) && pairs[i] == p
  }

  lemma EarlierListed()
    ensures forall p <- [Pair(Text, Bg, 4.5), Pair(Text, Surface, 4.5), Pair(Text, Panel, 4.5), Pair(Muted, Bg, 3.0),
                         Pair(Muted, Panel, 3.0)] :: p in CONTRAST_PAIRS
  {
  }

  /** Every theme and every design that puts a white bubble on a near-black page, its text and
      the theme's no brighter than white: the pair for text on the page fails in the end. */
  lemma EarlierPairLost(weigh: Weigh, base: Vars, design: Vars)
    requires Graded(weigh) && NoBrighterThanWhite(weigh, Effective(design, base, Text))
    requires NoBrighterThanWhite(weigh, Get(base, Text, DARK))
    requires Effective(design, base, Bg) == DARK && Effective(design, base, AssistantBubble) == LIGHT
    ensures CONTRAST_PAIRS[0] == Pair(Text, Bg, 4.5)
    ensures !Passes(weigh, CorrectAll(weigh, base, design, CONTRAST_PAIRS).0, base, CONTRAST_PAIRS[0])
  {
    PairsAreSeparate();
    LastListed();
    LosesPage(weigh, base, design, CONTRAST_PAIRS, 0, 3);
  }

  /** A pair on near-black against a later last-listed one on white, in any list. */
  lemma LosesPage(weigh: Weigh, base: Vars, design: Vars, pairs: seq<Pair>, i: nat, j: nat)
    requires Graded(weigh) && Separate(pairs) && i < |pairs| && LastOf(pairs, j, |pairs|)
    requires pairs[i].foreground == pairs[j].foreground && pairs[i].minimum == 4.5 == pairs[j].minimum
    requires NoBrighterThanWhite(weigh, Effective(design, base, pairs[i].foreground))
    requires NoBrighterThanWhite(weigh, Get(base, pairs[i].foreground, DARK))
    requires Effective(design, base, pairs[i].background) == DARK
    requires Effective(design, base, pairs[j].background) == LIGHT
    ensures !Passes(weigh, CorrectAll(weigh, base, design, pairs).0, base, pairs[i])
  {
    assert pairs[..|pairs|] == pairs;
    LastClearsWhite(weigh, base, design, pairs, j);
    ComesFrom(weigh, base, design, pairs, |pairs|, pairs[i].foreground);
    BackgroundStays(weigh, base, design, pairs, |pairs|, i);
    NoColourSuitsBoth(weigh, Effective(CorrectAll(weigh, base, design, pairs).0, base, pairs[i].foreground));
  }

  predicate NoBrighterThanWhite(weigh: Weigh, color: string) {
    weigh(color).Some? ==> weigh(color).value <= 1.05
  }

  /** White text on a near-black page with a white bubble passes that pair to begin with. */
  lemma SplitDesignPasses(weigh: Weigh, base: Vars)
    requires Graded(weigh)
    ensures Passes(weigh, map[Bg := DARK, AssistantBubble := LIGHT, Text := LIGHT], base, CONTRAST_PAIRS[0])
  {
    RatioAtLeast(1.05, weigh(DARK).value, 4.5);
  }

  /** The design names a page background of its own. */
  predicate Restyles(brand: Vars) {
    Bg in brand && brand[Bg] != ""
  }

  /** A light page gets darker surfaces and a dark one lighter. */
  function Shade(weigh: Weigh, shift: (string, real) -> string, page: string, amount: real): string {
    shift(page, if weigh(page).Some? && weigh(page).value > 0.55 then -amount else amount)
  }

  /** The design with the surfaces it leaves out derived from its page background. */
  ghost predicate Completes(weigh: Weigh, shift: (string, real) -> string, brand: Vars, clean: Vars) {
    && (forall name <- brand :: name in clean && clean[name] == brand[name])
    && (forall name <- clean :: name in brand || (Restyles(brand) && exists f <- BACKGROUND_FAMILY :: f.0 == name))
    && (Restyles(brand) ==> forall f <- BACKGROUND_FAMILY ::
          f.0 in clean && (f.0 in brand || clean[f.0] == Shade(weigh, shift, brand[Bg], f.1)))
  }

  /** The surfaces a design leaves out are shades of its page: darker if the page is light, its
      luminance above one half, and lighter otherwise. */
  lemma DerivedShades(weigh: Weigh, shift: (string, real) -> string, brand: Vars, clean: Vars, name: Var, amount: real)
    requires Completes(weigh, shift, brand, clean) && Bg in brand && brand[Bg] != "" && name !in brand
    requires (name, amount) in [(Surface, 0.04), (Panel, 0.07), (AssistantBubble, 0.05), (InputBg, 0.02)]
    ensures name in clean
    ensures var light := weigh(brand[Bg]).Some? && weigh(brand[Bg]).value - 0.05 > 0.5;
      clean[name] == if light then shift(brand[Bg], -amount) else shift(brand[Bg], amount)
  {
    assert (name, amount) in BACKGROUND_FAMILY;
  }

  method DeriveFamily(weigh: Weigh, shift: (string, real) -> string, brand: Vars) returns (clean: Vars)
    ensures Completes(weigh, shift, brand, clean)
    ensures Bg !in brand || brand[Bg] == "" ==> clean == brand
  {
    clean := brand;
    if Restyles(brand) {
      var page := brand[Bg];
      for i := 0 to |BACKGROUND_FAMILY|
        invariant forall name <- brand :: name in clean && clean[name] == brand[name]
        invariant forall name <- clean :: name in brand || exists j | 0 <= j < i :: BACKGROUND_FAMILY[j].0 == name
        invariant forall j | 0 <= j < i :: var f := BACKGROUND_FAMILY[j];
          f.0 in clean && (f.0 in brand || clean[f.0] == Shade(weigh, shift, page, f.1))
      {
        var (name, amount) := BACKGROUND_FAMILY[i];
        if name !in clean { clean := clean[name := Shade(weigh, shift, page, amount)]; }
      }
    }
  }

  lemma PairsAreSeparate()
    ensures Separate(CONTRAST_PAIRS)
  {
  }

  /** The design completed, corrected, and every last-listed pair legible. */
  ghost predicate Harmonized(weigh: Weigh, shift: (string, real) -> string, base: Vars, brand: Vars, pairs: seq<Pair>,
                             derived: Vars, clean: Vars, notes: seq<Note>)
    requires Graded(weigh)
  {
    && Completes(weigh, shift, brand, derived)
    && (clean, notes) == CorrectAll(weigh, base, derived, pairs)
    && Settles(weigh, base, derived, pairs, clean, notes, |pairs|)
    && forall i: nat | LastOf(pairs, i, |pairs|) :: Met(weigh, clean, base, pairs[i])
  }

  /** A pair of the list is legible in the end, or a note says that its text was changed. */
  ghost predicate MetOrNoted(weigh: Weigh, base: Vars, clean: Vars, notes: seq<Note>, p: Pair)
    requires Graded(weigh)
  {
    Met(weigh, clean, base, p) || exists n <- notes :: n.foreground == p.foreground
  }

  lemma ListedIsMetOrNoted(weigh: Weigh, base: Vars, before: Vars, pairs: seq<Pair>, clean: Vars, notes: seq<Note>,
                           p: Pair)
    requires Graded(weigh) && Settles(weigh, base, before, pairs, clean, notes, |pairs|) && p in pairs
    ensures MetOrNoted(weigh, base, clean, notes, p)
  {
    var i: nat :| i < |pairs| && pairs[i] == p;
    if !Met(weigh, clean, base, p) {
      assert Overruled(pairs, notes, i, |pairs|);
      var j :| i < j < |pairs| && pairs[j].foreground == pairs[i].foreground && Noted(notes, pairs[j]);
    }
  }

  method HarmonizeBy(weigh: Weigh, shift: (string, real) -> string, base: Vars, brand: Vars, pairs: seq<Pair>)
    returns (clean: Vars, notes: seq<Note>)
    requires Graded(weigh) && Separate(pairs)
    ensures exists derived :: Harmonized(weigh, shift, base, brand, pairs, derived, clean, notes)
    ensures forall p <- pairs :: MetOrNoted(weigh, base, clean, notes, p)
    ensures forall p | ListedLast(pairs, p) :: Met(weigh, clean, base, p)
  {
    var derived := DeriveFamily(weigh, shift, brand);
    clean, notes := Correct(weigh, base, derived, pairs);
    CorrectAllSettles(weigh, base, derived, pairs, |pairs|);
    assert pairs[..|pairs|] == pairs;
    assert Harmonized(weigh, shift, base, brand, pairs, derived, clean, notes);
    forall p | p in pairs ensures MetOrNoted(weigh, base, clean, notes, p) {
      ListedIsMetOrNoted(weigh, base, derived, pairs, clean, notes, p);
    }
  }

  /** `harmonize_brand`, on a sanitised brand and the theme's own variables. */
  method HarmonizeBrand(weigh: Weigh, shift: (string, real) -> string, base: Vars, brand: Vars)
    returns (clean: Vars, notes: seq<Note>)
    requires Graded(weigh)
    ensures brand == map[] ==> clean == map[] && notes == []
    ensures brand != map[] ==>
      exists derived :: Harmonized(weigh, shift, base, brand, CONTRAST_PAIRS, derived, clean, notes)
    ensures brand != map[] ==>
      forall p <- [Pair(Text, AssistantBubble, 4.5), Pair(Muted, Surface, 3.0), Pair(AccentText, Accent, 4.5),
                   Pair(Link, AssistantBubble, 3.0)] :: Met(weigh, clean, base, p)
    ensures brand != map[] ==>
      forall p <- [Pair(Text, Bg, 4.5), Pair(Text, Surface, 4.5), Pair(Text, Panel, 4.5), Pair(Muted, Bg, 3.0),
                   Pair(Muted, Panel, 3.0)] :: MetOrNoted(weigh, base, clean, notes, p)
  {
    if brand == map[] { return map[], []; }
    PairsAreSeparate();
    LastListed();
    EarlierListed();
    clean, notes := HarmonizeBy(weigh, shift, base, brand, CONTRAST_PAIRS);
  }

  /** The last-listed pair of a foreground, on a background that does not parse: whatever the
      design and the theme wanted, the colour ends near-black. */
  lemma UnparsedTurnsDark(weigh: Weigh, base: Vars, design: Vars, pairs: seq<Pair>, i: nat)
    requires Graded(weigh) && Separate(pairs) && LastOf(pairs, i, |pairs|) && pairs[i].minimum > 0.0
    requires weigh(Effective(design, base, pairs[i].background)) == None
    ensures Effective(CorrectAll(weigh, base, design, pairs).0, base, pairs[i].foreground) == DARK
  {
    LastListedIsMet(weigh, base, design, pairs, i);
    BackgroundStays(weigh, base, design, pairs, |pairs|, i);
    assert pairs[..|pairs|] == pairs;
  }

  /** A page background that does not parse, as a named colour does not, is handed on to the
      surfaces, and the text on them ends near-black: black on black, if the name is "black". */
  lemma UnparsedPage(weigh: Weigh, shift: (string, real) -> string, base: Vars, page: string, derived: Vars)
    requires Graded(weigh) && page != "" && weigh(page) == None && forall amount :: shift(page, amount) == page
    requires Completes(weigh, shift, map[Bg := page], derived)
    ensures var clean := CorrectAll(weigh, base, derived, CONTRAST_PAIRS).0;
      && Effective(clean, base, Surface) == Effective(clean, base, AssistantBubble) == page
      && Effective(clean, base, Text) == Effective(clean, base, Muted) == Effective(clean, base, Link) == DARK
  {
    var pairs, brand: Vars := CONTRAST_PAIRS, map[Bg := page];
    PairsAreSeparate();
    LastListed();
    SurfaceFollowsPage(weigh, shift, brand, derived, Surface);
    SurfaceFollowsPage(weigh, shift, brand, derived, AssistantBubble);
    UnparsedPair(weigh, base, derived, pairs, 3);
    UnparsedPair(weigh, base, derived, pairs, 6);
    UnparsedPair(weigh, base, derived, pairs, 8);
  }

  lemma UnparsedPair(weigh: Weigh, base: Vars, design: Vars, pairs: seq<Pair>, i: nat)
    requires Graded(weigh) && Separate(pairs) && LastOf(pairs, i, |pairs|) && pairs[i].minimum > 0.0
    requires weigh(Effective(design, base, pairs[i].background)) == None
    ensures var clean := CorrectAll(weigh, base, design, pairs).0;
      && Effective(clean, base, pairs[i].background) == Effective(design, base, pairs[i].background)
      && Effective(clean, base, pairs[i].foreground) == DARK
  {
    UnparsedTurnsDark(weigh, base, design, pairs, i);
    BackgroundStays(weigh, base, design, pairs, |pairs|, i);
    assert pairs[..|pairs|] == pairs;
  }

  lemma SurfaceFollowsPage(weigh: Weigh, shift: (string, real) -> string, brand: Vars, derived: Vars, name: Var)
    requires Completes(weigh, shift, brand, derived) && brand.Keys == {Bg} && brand[Bg] != ""
    requires forall amount :: shift(brand[Bg], amount) == brand[Bg]
    requires name in [Bg, Surface, Panel, AssistantBubble]
    ensures name in derived && derived[name] == brand[Bg]
  {
    if name != Bg {
      var f := BACKGROUND_FAMILY[if name == Surface then 0 else if name == Panel then 1 else 2];
      assert f in BACKGROUND_FAMILY && f.0 == name;
    }
  }
}
