/** When one-key-at-a-time filling equals filling at once: exactly for the templates in which
    no placeholder sits between a stray opening and a stray closing brace. */
module PromptNesting {
  import opened Prompts

  // Alternating braces

  function Braces(s: string): string {
    if s == "" then "" else (if IsBrace(s[0]) then [s[0]] else "") + Braces(s[1..])
  }

  /** Leaving the other characters out, no brace is followed by the same brace. */
  predicate Alternates(s: string) {
    NoRepeat(Braces(s))
  }

  predicate NoRepeat(s: string) {
    |s| >= 2 ==> s[0] != s[1] && NoRepeat(s[1..])
  }

  lemma {:induction false} BracesSplit(a: string, b: string)
    requires Plain(a)
    ensures Braces(a + b) == Braces(b)
    decreases |a|
  {
    if a == "" {
      assert a + b == b;
    } else {
      assert a[0] in a && (a + b)[1..] == a[1..] + b;
      BracesSplit(a[1..], b);
    }
  }

  lemma {:induction false} PlainHasNoCloser(s: string)
    requires Plain(s)
    ensures Char('}') !in Tokens(s)
    decreases |s|
  {
    if s != "" {
      assert s[0] in s;
      PlainHasNoCloser(s[1..]);
    }
  }

  lemma PrependUnnested(t: Token, ts: seq<Token>)
    requires Unnested(ts) && (t == Char('{') ==> Char('}') !in ts)
    ensures Unnested([t] + ts)
  {
  }

  lemma NoRepeatTail(b: string)
    requires NoRepeat(b) && b != ""
    ensures NoRepeat(b[1..])
  {
  }

  lemma HoleBraces(s: string)
    requires StartsHole(s)
    ensures Braces(s) == "{" + ("}" + Braces(s[PlainLength(s[1..]) + 2..]))
  {
    var n := PlainLength(s[1..]);
    var after := s[1..][n..];
    assert s[1..] == s[1..][..n] + after && after[1..] == s[n + 2..];
    BracesSplit(s[1..][..n], after);
    assert Braces(after) == [after[0]] + Braces(after[1..]);
  }

  /** An opening brace that starts no placeholder is followed by no brace, or by another
      opening one. */
  lemma StrayOpener(s: string)
    requires s != "" && s[0] == '{' && !StartsHole(s)
    ensures Plain(s[1..]) || (|Braces(s)| >= 2 && Braces(s)[1] == '{')
  {
    var n := PlainLength(s[1..]);
    var after := s[1..][n..];
    assert s[1..] == s[1..][..n] + after;
    BracesSplit(s[1..][..n], after);
    if after == "" {
      assert s[1..][..n] == s[1..];
    } else {
      assert Braces(after)[0] == after[0];
    }
  }

  /** The text after the first token. */
  function Following(s: string): string
    requires s != ""
  {
    if StartsHole(s) then s[PlainLength(s[1..]) + 2..] else s[1..]
  }

  lemma FollowingAlternates(s: string)
    requires s != "" && Alternates(s)
    ensures Alternates(Following(s))
  {
    var rest := Following(s);
    if StartsHole(s) {
      HoleBraces(s);
      NoRepeatTail(Braces(s));
      NoRepeatTail(Braces(s)[1..]);
      assert Braces(s)[1..] == "}" + Braces(rest) && Braces(s)[1..][1..] == Braces(rest);
    } else if IsBrace(s[0]) {
      NoRepeatTail(Braces(s));
      assert Braces(s)[1..] == Braces(rest);
    } else {
      assert Braces(s) == Braces(rest);
    }
  }

  lemma AlternatingOpener(s: string)
    requires s != "" && s[0] == '{' && !StartsHole(s) && Alternates(s)
    ensures Char('}') !in Tokens(s[1..])
  {
    StrayOpener(s);
    PlainHasNoCloser(s[1..]);
  }

  /** Alternating braces leave no nesting. */
  lemma {:induction false} AlternatingIsUnnested(s: string)
    requires Alternates(s)
    ensures Unnested(Tokens(s))
    decreases |s|
  {
    if s != "" {
      var rest := Following(s);
      FollowingAlternates(s);
      AlternatingIsUnnested(rest);
      if s[0] == '{' && !StartsHole(s) { AlternatingOpener(s); }
      PrependUnnested(Tokens(s)[0], Tokens(rest));
      assert Tokens(s) == [Tokens(s)[0]] + Tokens(rest);
    }
  }

  // Nesting always goes wrong for some arguments

  predicate Stray(t: Token) {
    t.Char? && IsBrace(t.c)
  }

  predicate StrayFree(ts: seq<Token>) {
    forall t <- ts :: !Stray(t)
  }

  function Holes(ts: seq<Token>): nat {
    if ts == [] then 0 else (if ts[0].Hole? then 1 else 0) + Holes(ts[1..])
  }

  /** Two stray braces, opening then closing, with no stray brace between them. */
  lemma ClosestPair(ts: seq<Token>, i: nat, j: nat) returns (p: nat, q: nat)
    requires i < j < |ts| && ts[i] == Char('{') && ts[j] == Char('}')
    ensures p < q < |ts| && ts[p] == Char('{') && ts[q] == Char('}') && StrayFree(ts[p + 1..q])
    decreases j - i
  {
    if k :| i < k < j && Stray(ts[k]) {
      if ts[k].c == '{' { p, q := ClosestPair(ts, k, j); } else { p, q := ClosestPair(ts, i, k); }
    } else {
      p, q := i, j;
      forall t | t in ts[p + 1..q] ensures !Stray(t) {
        var m :| 0 <= m < |ts[p + 1..q]| && ts[p + 1..q][m] == t;
        assert ts[p + 1 + m] == t;
      }
    }
  }

  /** The end of a token sequence is what its own text yields. */
  lemma {:induction false} SuffixTokens(s: string, k: nat)
    requires k <= |Tokens(s)|
    ensures Tokens(Render(Tokens(s)[k..])) == Tokens(s)[k..]
    decreases k
  {
    RenderTokens(s);
    if k > 0 {
      var rest := if StartsHole(s) then s[PlainLength(s[1..]) + 2..] else s[1..];
      assert Tokens(s)[1..] == Tokens(rest) && Tokens(s)[k..] == Tokens(rest)[k - 1..];
      SuffixTokens(rest, k - 1);
    } else {
      assert Tokens(s)[0..] == Tokens(s);
    }
  }

  lemma {:induction false} RenderConcat(a: seq<Token>, b: seq<Token>)
    ensures Render(a + b) == Render(a) + Render(b)
  {
    FillConcat(a, b, map[]);
  }

  lemma {:induction false} HolelessIsPlain(ts: seq<Token>)
    requires StrayFree(ts) && Holes(ts) == 0
    ensures Plain(Render(ts))
    decreases |ts|
  {
    if ts != [] {
      assert ts[0] in ts;
      HolelessIsPlain(ts[1..]);
    }
  }

  /** Whether a text starts with a placeholder does not depend on an opening brace and
      what comes after it. */
  lemma HoleBeforeOpen(a: string, r: string)
    requires a != ""
    ensures StartsHole(a + ("{" + r)) <==> StartsHole(a)
    ensures StartsHole(a) ==> PlainLength((a + ("{" + r))[1..]) == PlainLength(a[1..])
  {
    var s := a + ("{" + r);
    var n := PlainLength(a[1..]);
    var head := a[1..][..n];
    if n < |a| - 1 {
      var tail := a[2 + n..] + ("{" + r);
      assert s[1..] == head + [a[1 + n]] + tail;
      PlainLengthIs(head, a[1 + n], tail);
    } else {
      assert head == a[1..] && s[1..] == head + ['{'] + r;
      PlainLengthIs(head, '{', r);
    }
  }

  function First(s: string): Token
    requires s != ""
  {
    if StartsHole(s) then Hole(s[1..][..PlainLength(s[1..])]) else Char(s[0])
  }

  lemma FirstBeforeOpen(a: string, r: string)
    requires a != ""
    ensures First(a + ("{" + r)) == First(a) && Following(a + ("{" + r)) == Following(a) + ("{" + r)
  {
    HoleBeforeOpen(a, r);
    var s := a + ("{" + r);
    if StartsHole(a) {
      var n := PlainLength(a[1..]);
      assert s[1..][..n] == a[1..][..n];
      assert s[n + 2..] == a[n + 2..] + ("{" + r);
    } else {
      assert s[1..] == a[1..] + ("{" + r);
    }
  }

  /** One more token in front, on both sides of a split. */
  lemma SplitOneMore(a: string, s: string, x: seq<Token>)
    requires a != "" && s != "" && First(s) == First(a)
    requires Tokens(Following(s)) == Tokens(Following(a)) + x
    ensures Tokens(s) == Tokens(a) + x
  {
    TokensRegroup(First(a), Tokens(Following(a)), x);
  }

  /** Text before an opening brace is tokenised on its own. */
  lemma {:induction false} SplitBeforeOpen(a: string, r: string)
    ensures Tokens(a + ("{" + r)) == Tokens(a) + Tokens("{" + r)
    decreases |a|
  {
    if a == "" {
      assert a + ("{" + r) == "{" + r;
    } else {
      FirstBeforeOpen(a, r);
      SplitBeforeOpen(Following(a), r);
      SplitOneMore(a, a + ("{" + r), Tokens("{" + r));
    }
  }

  lemma Regroup(a: string, b: string, c: string)
    ensures a + b + c == a + (b + c)
  {
  }

  lemma TokenThenText(t: Token, rest: string)
    requires !Stray(t) && (t.Hole? ==> Plain(t.name))
    ensures Tokens(FillOne(t, map[]) + rest) == [t] + Tokens(rest)
  {
    match t
    case Hole(name) => HoleTokens(name, rest);
    case Char(c) => CharTokens(c, rest);
  }

  lemma RenderCons(t: Token, rest: seq<Token>)
    ensures Render([t] + rest) == FillOne(t, map[]) + Render(rest)
  {
    assert ([t] + rest)[1..] == rest;
  }

  lemma TokensCons(t: Token, head: string, r: string, x: string)
    requires !Stray(t) && (t.Hole? ==> Plain(t.name)) && head == FillOne(t, map[])
    ensures Tokens(head + r + x) == [t] + Tokens(r + x)
  {
    Regroup(head, r, x);
    TokenThenText(t, r + x);
  }

  lemma TokensRegroup(t: Token, a: seq<Token>, b: seq<Token>)
    ensures [t] + (a + b) == [t] + a + b
  {
  }

  /** A stray-free token sequence is read back in front of any text. */
  lemma {:induction false} StrayFreeTokens(m: seq<Token>, x: string)
    requires StrayFree(m) && NamesPlain(m)
    ensures Tokens(Render(m) + x) == m + Tokens(x)
    decreases |m|
  {
    if m == [] {
      assert Render(m) + x == x;
    } else {
      assert m[0] in m && forall t <- m[1..] :: t in m;
      StrayFreeTokens(m[1..], x);
      RenderCons(m[0], m[1..]);
      TokensCons(m[0], FillOne(m[0], map[]), Render(m[1..]), x);
      TokensRegroup(m[0], m[1..], Tokens(x));
      assert [m[0]] + m[1..] == m;
    }
  }

  lemma {:induction false} HoleOpensFirst(m: seq<Token>, x: string)
    requires StrayFree(m) && NamesPlain(m) && Holes(m) > 0
    ensures var r := Render(m) + x; var n := PlainLength(r); n < |r| && r[n] == '{'
    decreases |m|
  {
    assert m[0] in m && forall t <- m[1..] :: t in m;
    var r := Render(m) + x;
    if m[0].Char? {
      HoleOpensFirst(m[1..], x);
      assert r[1..] == Render(m[1..]) + x;
    } else {
      assert r[0] == '{';
    }
  }

  function Nest(a: string, m: seq<Token>, b: string): string {
    a + ("{" + (Render(m) + ("}" + b)))
  }

  lemma PatternApart(w: string, b: string)
    ensures Pattern(w) + b == "{" + (w + ("}" + b))
  {
  }

  /** A stray pair around placeholders is read back as such. */
  lemma NestTokens(a: string, m: seq<Token>, b: string)
    requires StrayFree(m) && NamesPlain(m) && Holes(m) > 0
    ensures Tokens(Nest(a, m, b)) == Tokens(a) + [Char('{')] + m + [Char('}')] + Tokens(b)
  {
    var inner := Render(m) + ("}" + b);
    assert "{" + inner == ['{'] + inner;
    SplitBeforeOpen(a, inner);
    HoleOpensFirst(m, "}" + b);
    assert (['{'] + inner)[1..] == inner;
    CharTokens('{', inner);
    StrayFreeTokens(m, "}" + b);
    assert "}" + b == ['}'] + b;
    CharTokens('}', b);
  }

  lemma {:induction false} FillLeavesFewer(m: seq<Token>, name: string, value: string)
    requires StrayFree(m) && NamesPlain(m) && Plain(value)
    ensures var r := FillTokens(m, name, value);
      && StrayFree(r) && NamesPlain(r) && Hole(name) !in r && (forall t <- r | t.Hole? :: t in m)
      && (Hole(name) in m ==> Holes(r) < Holes(m) && |Render(r)| >= |value|)
      && Holes(r) <= Holes(m)
    decreases |m|
  {
    if m != [] {
      assert m[0] in m && forall t <- m[1..] :: t in m;
      FillLeavesFewer(m[1..], name, value);
      var head, tail := FillToken(m[0], name, value), FillTokens(m[1..], name, value);
      RenderConcat(head, tail);
      HolesConcat(head, tail);
      HolesOfChars(value);
      FillChars(value, map[]);
      assert forall t <- Chars(value) :: t.Char? && !IsBrace(t.c);
    }
  }

  lemma {:induction false} HolesConcat(a: seq<Token>, b: seq<Token>)
    ensures Holes(a + b) == Holes(a) + Holes(b)
    decreases |a|
  {
    if a == [] {
      assert a + b == b;
    } else {
      assert (a + b)[1..] == a[1..] + b;
      HolesConcat(a[1..], b);
    }
  }

  lemma {:induction false} HolesOfChars(s: string)
    ensures Holes(Chars(s)) == 0
    decreases |s|
  {
    if s != "" {
      assert Chars(s)[1..] == Chars(s[1..]);
      HolesOfChars(s[1..]);
    }
  }

  lemma {:induction false} SomeHole(m: seq<Token>) returns (name: string)
    requires Holes(m) > 0
    ensures Hole(name) in m
    decreases |m|
  {
    if m[0].Hole? { name := m[0].name; } else { name := SomeHole(m[1..]); }
  }

  lemma FillAround(A: seq<Token>, c: char, ts: seq<Token>, env: Env)
    ensures Fill(A + ([Char(c)] + ts), env) == Fill(A, env) + ([c] + Fill(ts, env))
  {
    FillConcat(A, [Char(c)] + ts, env);
    assert ([Char(c)] + ts)[1..] == ts;
  }

  lemma FillNest(A: seq<Token>, m: seq<Token>, B: seq<Token>, env: Env)
    ensures Fill(A + [Char('{')] + m + [Char('}')] + B, env) ==
            Fill(A, env) + ("{" + (Fill(m, env) + ("}" + Fill(B, env))))
  {
    var tail := m + ([Char('}')] + B);
    assert A + [Char('{')] + m + [Char('}')] + B == A + ([Char('{')] + tail);
    FillAround(A, '{', tail, env);
    FillAround(m, '}', B, env);
  }

  /** Filling one name inside a nest fills the parts of the nest. */
  lemma NestFilled(a: string, m: seq<Token>, b: string, name: string, value: string)
    requires StrayFree(m) && NamesPlain(m) && Holes(m) > 0 && Plain(name)
    ensures Replace(Nest(a, m, b), Pattern(name), value) ==
            Nest(Substitute(a, map[name := value]), FillTokens(m, name, value), Substitute(b, map[name := value]))
  {
    ReplaceIsSubstitute(Nest(a, m, b), name, value);
    NestTokens(a, m, b);
    FillNest(Tokens(a), m, Tokens(b), map[name := value]);
    FillTokensFills(m, name, value, map[]);
  }

  lemma ProperCons(key: string, value: string, rest: Args)
    requires Proper(rest) && Plain(key) && Plain(value)
    requires forall i | 0 <= i < |rest| :: rest[i].0 != key
    ensures Proper([(key, value)] + rest)
  {
  }

  /** Filling every placeholder of a nest turns its stray braces into a placeholder. */
  lemma {:induction false} Collapse(a: string, m: seq<Token>, b: string, u: string)
    returns (args: Args, a': string, w: string, b': string)
    requires StrayFree(m) && NamesPlain(m) && Holes(m) > 0 && Plain(u)
    ensures Proper(args) && forall i | 0 <= i < |args| :: Hole(args[i].0) in m
    ensures Sequentially(Nest(a, m, b), args) == a' + (Pattern(w) + b')
    ensures Plain(w) && |w| >= |u|
    decreases Holes(m)
  {
    var name := SomeHole(m);
    var m' := FillTokens(m, name, u);
    FillLeavesFewer(m, name, u);
    NestFilled(a, m, b, name, u);
    a', b' := Substitute(a, map[name := u]), Substitute(b, map[name := u]);
    if Holes(m') == 0 {
      HolelessIsPlain(m');
      w := Render(m');
      args := [(name, u)];
      assert args[1..] == [];
      PatternApart(w, b');
    } else {
      var rest: Args;
      rest, a', w, b' := Collapse(a', m', b', u);
      ProperCons(name, u, rest);
      args := [(name, u)] + rest;
      assert args[1..] == rest;
    }
  }

  // The witness

  lemma {:induction false} SequentiallyAppend(text: string, args: Args, key: string, value: string)
    ensures Sequentially(text, args + [(key, value)]) == Replace(Sequentially(text, args), Pattern(key), value)
    decreases |args|
  {
    var all := args + [(key, value)];
    if args == [] {
      assert all == [(key, value)] && all[1..] == [];
    } else {
      assert all[1..] == args[1..] + [(key, value)];
      SequentiallyAppend(Replace(text, Pattern(args[0].0), args[0].1), args[1..], key, value);
    }
  }

  lemma {:induction false} EnvOfAppend(args: Args, key: string, value: string)
    ensures SameBut(EnvOf(args + [(key, value)]), EnvOf(args), key)
    decreases |args|
  {
    var all := args + [(key, value)];
    if args == [] {
      assert all == [(key, value)] && all[1..] == [];
    } else {
      assert all[1..] == args[1..] + [(key, value)];
      EnvOfAppend(args[1..], key, value);
    }
  }

  lemma FillOneAgrees(t: Token, key: string, d: Env, e: Env)
    requires t != Hole(key) && SameBut(d, e, key)
    ensures FillOne(t, d) == FillOne(t, e)
  {
  }

  /** Filling looks only at the names that occur. */
  lemma {:induction false} FillAgrees(ts: seq<Token>, key: string, d: Env, e: Env)
    requires Hole(key) !in ts && SameBut(d, e, key)
    ensures Fill(ts, d) == Fill(ts, e)
    decreases |ts|
  {
    if ts != [] {
      assert ts[0] in ts && Hole(key) !in ts[1..];
      FillAgrees(ts[1..], key, d, e);
      FillOneAgrees(ts[0], key, d, e);
    }
  }

  ghost predicate SameBut(d: Env, e: Env, key: string) {
    forall k | k != key :: (k in d <==> k in e) && (k in d ==> d[k] == e[k])
  }

  /** A name that occurs makes the result depend on its value. */
  lemma {:induction false} FillGrows(ts: seq<Token>, key: string)
    ensures |Fill(ts, map[key := ""])| <= |Fill(ts, map[key := "x"])|
    ensures Hole(key) in ts ==> |Fill(ts, map[key := ""])| < |Fill(ts, map[key := "x"])|
    decreases |ts|
  {
    if ts != [] { FillGrows(ts[1..], key); }
  }

  lemma {:induction false} NamesShort(s: string)
    ensures forall t <- Tokens(s) | t.Hole? :: |t.name| < |s|
    decreases |s|
  {
    if s != "" {
      NamesShort(Following(s));
      assert Tokens(s) == [Tokens(s)[0]] + Tokens(Following(s));
    }
  }

  /** The longest text that no placeholder of `text` can be named. */
  function Long(text: string): string {
    seq(|text|, _ => 'x')
  }

  lemma Around<T>(ts: seq<T>, p: nat, q: nat)
    requires p < q < |ts|
    ensures ts[..p] + [ts[p]] + ts[p + 1..q] + [ts[q]] + ts[q + 1..] == ts
  {
  }

  lemma Opened<T>(ts: seq<T>, p: nat, q: nat)
    requires p < q < |ts|
    ensures ts[p..] == [ts[p]] + (ts[p + 1..q] + ([ts[q]] + ts[q + 1..]))
  {
  }

  lemma NestAt(text: string, p: nat, q: nat)
    requires p < q < |Tokens(text)| && Tokens(text)[p] == Char('{') && Tokens(text)[q] == Char('}')
    ensures text == Nest(Render(Tokens(text)[..p]), Tokens(text)[p + 1..q], Render(Tokens(text)[q + 1..]))
  {
    var ts := Tokens(text);
    RenderTokens(text);
    Around(ts, p, q);
    FillNest(ts[..p], ts[p + 1..q], ts[q + 1..], map[]);
  }

  /** A template that is not unnested is a nest. */
  lemma FindNest(text: string) returns (a: string, m: seq<Token>, b: string)
    requires !Unnested(Tokens(text))
    ensures StrayFree(m) && NamesPlain(m) && Holes(m) > 0 && text == Nest(a, m, b)
    ensures forall t <- m :: t in Tokens(text)
  {
    var ts := Tokens(text);
    var i, j :| 0 <= i < j < |ts| && ts[i] == Char('{') && ts[j] == Char('}');
    var p, q := ClosestPair(ts, i, j);
    NestHasHole(text, p, q);
    NestAt(text, p, q);
    RenderTokens(text);
    a, m, b := Render(ts[..p]), ts[p + 1..q], Render(ts[q + 1..]);
    assert forall t <- m :: t in ts;
  }

  lemma CollapseAll(text: string) returns (args: Args, w: string)
    requires !Unnested(Tokens(text))
    ensures Proper(args) && Plain(w) && Hole(w) !in Tokens(text) && (forall i | 0 <= i < |args| :: args[i].0 != w)
    ensures Hole(w) in Tokens(Sequentially(text, args))
  {
    var a, m, b := FindNest(text);
    var a', b': string;
    args, a', w, b' := Collapse(a, m, b, Long(text));
    NamesShort(text);
    HoleInside(a', w, b');
  }

  lemma HoleInside(a: string, w: string, b: string)
    requires Plain(w)
    ensures Hole(w) in Tokens(a + (Pattern(w) + b))
  {
    PatternApart(w, b);
    SplitBeforeOpen(a, w + ("}" + b));
    HoleTokens(w, b);
  }

  /** Between a stray pair with no stray brace inside there is a placeholder. */
  lemma NestHasHole(s: string, p: nat, q: nat)
    requires p < q < |Tokens(s)| && Tokens(s)[p] == Char('{') && Tokens(s)[q] == Char('}')
    requires StrayFree(Tokens(s)[p + 1..q])
    ensures Holes(Tokens(s)[p + 1..q]) > 0
  {
    var ts := Tokens(s);
    var m := ts[p + 1..q];
    if Holes(m) == 0 {
      SuffixTokens(s, p);
      Opened(ts, p, q);
      PlainBetween(m, ts[q + 1..]);
    }
  }

  lemma PlainBetween(m: seq<Token>, B: seq<Token>)
    requires StrayFree(m) && Holes(m) == 0
    ensures var r := Tokens(Render([Char('{')] + (m + ([Char('}')] + B)))); r != [] && r[0].Hole?
  {
    HolelessIsPlain(m);
    FillAround(m, '}', B, map[]);
    var inner := m + ([Char('}')] + B);
    assert ([Char('{')] + inner)[1..] == inner;
    PatternApart(Render(m), Render(B));
    HoleTokens(Render(m), Render(B));
  }

  /** The last argument changes the result of filling in turn, but not of filling at once. */
  lemma LastArgumentMatters(text: string, args: Args, w: string)
    requires Plain(w) && Hole(w) !in Tokens(text) && Hole(w) in Tokens(Sequentially(text, args))
    ensures Sequentially(text, args + [(w, "")]) != Sequentially(text, args + [(w, "x")])
    ensures Substitute(text, EnvOf(args + [(w, "")])) == Substitute(text, EnvOf(args + [(w, "x")]))
  {
    var filled := Sequentially(text, args);
    SequentiallyAppend(text, args, w, "");
    SequentiallyAppend(text, args, w, "x");
    ReplaceIsSubstitute(filled, w, "");
    ReplaceIsSubstitute(filled, w, "x");
    FillGrows(Tokens(filled), w);
    EnvOfAppend(args, w, "");
    EnvOfAppend(args, w, "x");
    FillAgrees(Tokens(text), w, EnvOf(args + [(w, "")]), EnvOf(args));
    FillAgrees(Tokens(text), w, EnvOf(args + [(w, "x")]), EnvOf(args));
  }

  lemma ProperAppend(args: Args, key: string, value: string)
    requires Proper(args) && Plain(key) && Plain(value) && forall i | 0 <= i < |args| :: args[i].0 != key
    ensures Proper(args + [(key, value)])
  {
  }

  /** A nested template goes wrong for some proper arguments. */
  lemma NestedFails(text: string)
    requires !Unnested(Tokens(text))
    ensures exists args :: Proper(args) && Sequentially(text, args) != Substitute(text, EnvOf(args))
  {
    var args, w := CollapseAll(text);
    LastArgumentMatters(text, args, w);
    ProperAppend(args, w, "");
    ProperAppend(args, w, "x");
    var none, one := args + [(w, "")], args + [(w, "x")];
    if Sequentially(text, none) == Substitute(text, EnvOf(none)) {
      assert Sequentially(text, one) != Substitute(text, EnvOf(one));
    }
  }

  /** Whether filling one key at a time always equals filling all at once can be read off
      the template: exactly when its placeholders do not sit inside stray braces. */
  lemma FaithfulIffUnnested(text: string)
    ensures (forall args | Proper(args) :: Sequentially(text, args) == Substitute(text, EnvOf(args))) <==>
            Unnested(Tokens(text))
  {
    if Unnested(Tokens(text)) {
      forall args | Proper(args) ensures Sequentially(text, args) == Substitute(text, EnvOf(args)) {
        SequentialIsSimultaneous(text, args);
      }
    } else {
      NestedFails(text);
    }
  }

  /** An argument whose placeholder does not occur changes nothing when it comes first. */
  lemma AbsentFirst(text: string, key: string, value: string, args: Args)
    requires Plain(key) && Hole(key) !in Tokens(text)
    ensures Sequentially(text, [(key, value)] + args) == Sequentially(text, args)
  {
    ReplaceIsSubstitute(text, key, value);
    FillAgrees(Tokens(text), key, map[key := value], map[]);
    RenderTokens(text);
    assert ([(key, value)] + args)[1..] == args;
  }

  lemma EnvOfCons(key: string, value: string, args: Args)
    ensures EnvOf([(key, value)] + args) == EnvOf(args)[key := value]
  {
    assert ([(key, value)] + args)[1..] == args;
  }

  /** A new key may as well come first. */
  lemma {:induction false} EnvOfLast(args: Args, key: string, value: string)
    requires forall i | 0 <= i < |args| :: args[i].0 != key
    ensures EnvOf(args + [(key, value)]) == EnvOf(args)[key := value]
    decreases |args|
  {
    if args == [] {
      EnvOfCons(key, value, []);
      assert args + [(key, value)] == [(key, value)] + [];
    } else {
      var first, rest := args[0], args[1..];
      EnvOfLast(rest, key, value);
      EnvOfCons(first.0, first.1, rest + [(key, value)]);
      assert args + [(key, value)] == [first] + (rest + [(key, value)]);
    }
  }

  ghost predicate OrderMatters(text: string, a: Args, b: Args) {
    Proper(a) && Proper(b) && EnvOf(a) == EnvOf(b) && Sequentially(text, a) != Sequentially(text, b)
  }

  lemma NestedOrderMatters(text: string) returns (a: Args, b: Args)
    requires !Unnested(Tokens(text))
    ensures OrderMatters(text, a, b)
  {
    var args, w := CollapseAll(text);
    LastArgumentMatters(text, args, w);
    var value := if Sequentially(text, args + [(w, "")]) != Sequentially(text, args) then "" else "x";
    a, b := args + [(w, value)], [(w, value)] + args;
    AbsentFirst(text, w, value, args);
    ProperAppend(args, w, value);
    ProperCons(w, value, args);
    EnvOfCons(w, value, args);
    EnvOfLast(args, w, value);
  }

  /** The order of the keyword arguments is immaterial exactly for the same templates. */
  lemma OrderImmaterialIffUnnested(text: string)
    ensures (forall a, b :: !OrderMatters(text, a, b)) <==> Unnested(Tokens(text))
  {
    if Unnested(Tokens(text)) {
      forall a, b ensures !OrderMatters(text, a, b) {
        if OrderMatters(text, a, b) { OrderImmaterial(text, a, b); }
      }
    } else {
      var a, b := NestedOrderMatters(text);
    }
  }
}
