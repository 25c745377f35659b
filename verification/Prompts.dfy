/** `get_prompt_text`: placeholders filled one key at a time, against filling them all at once. */
module Prompts {

  predicate IsBrace(c: char) {
    c == '{' || c == '}'
  }

  predicate Plain(s: string) {
    forall c <- s :: !IsBrace(c)
  }

  /** A placeholder `{name}`, or a character outside any placeholder. */
  datatype Token = Char(c: char) | Hole(name: string)

  /** Length of the brace-free start of a text. */
  function PlainLength(s: string): (n: nat)
    ensures n <= |s| && Plain(s[..n]) && (n < |s| ==> IsBrace(s[n]))
  {
    if s == "" || IsBrace(s[0]) then 0
    else
      var n := PlainLength(s[1..]);
      assert s[..n + 1] == [s[0]] + s[1..][..n];
      1 + n
  }

  /** An opening brace starts a placeholder when the next brace closes it. */
  predicate StartsHole(s: string) {
    s != "" && s[0] == '{' && var n := PlainLength(s[1..]); n < |s| - 1 && s[1 + n] == '}'
  }

  function Tokens(s: string): seq<Token>
    decreases |s|
  {
    if s == "" then []
    else if StartsHole(s) then
      var n := PlainLength(s[1..]);
      [Hole(s[1..][..n])] + Tokens(s[n + 2..])
    else [Char(s[0])] + Tokens(s[1..])
  }

  type Env = map<string, string>

  function FillOne(t: Token, env: Env): string {
    match t
    case Char(c) => [c]
    case Hole(name) => if name in env then env[name] else "{" + name + "}"
  }

  function Fill(ts: seq<Token>, env: Env): string {
    if ts == [] then "" else FillOne(ts[0], env) + Fill(ts[1..], env)
  }

  function Render(ts: seq<Token>): string {
    Fill(ts, map[])
  }

  /** All placeholders at once: values are not searched for further placeholders. */
  function Substitute(text: string, env: Env): string {
    Fill(Tokens(text), env)
  }

  /** Python's `str.replace`: leftmost, non-overlapping. */
  function Replace(s: string, pattern: string, value: string): string
    requires pattern != ""
    decreases |s|
  {
    if pattern <= s then value + Replace(s[|pattern|..], pattern, value)
    else if s == "" then ""
    else [s[0]] + Replace(s[1..], pattern, value)
  }

  function Pattern(key: string): string {
    "{" + key + "}"
  }

  type Args = seq<(string, string)>

  /** One key after the other, in the order of the keyword arguments. */
  function Sequentially(text: string, args: Args): string
    decreases |args|
  {
    if args == [] then text
    else Sequentially(Replace(text, Pattern(args[0].0), args[0].1), args[1..])
  }

  function EnvOf(args: Args): Env {
    if args == [] then map[] else EnvOf(args[1..])[args[0].0 := args[0].1]
  }

  /** Keys are distinct, and neither keys nor values contain braces. */
  ghost predicate Proper(args: Args) {
    (forall i | 0 <= i < |args| :: Plain(args[i].0) && Plain(args[i].1)) &&
    (forall i, j | 0 <= i < j < |args| :: args[i].0 != args[j].0)
  }

  // One replacement

  lemma {:induction false} ReplaceSkips(a: string, rest: string, key: string, value: string)
    requires '{' !in a
    ensures Replace(a + rest, Pattern(key), value) == a + Replace(rest, Pattern(key), value)
    decreases |a|
  {
    if a == "" {
      assert a + rest == rest;
    } else {
      var s := a + rest;
      assert s[0] == a[0] && s[1..] == a[1..] + rest && Pattern(key)[0] == '{';
      ReplaceSkips(a[1..], rest, key, value);
    }
  }

  lemma {:induction false} PlainLengthIs(a: string, c: char, rest: string)
    requires Plain(a) && IsBrace(c)
    ensures PlainLength(a + [c] + rest) == |a|
    decreases |a|
  {
    var s := a + [c] + rest;
    if a != "" {
      assert a[0] in a && s[0] == a[0] && s[1..] == a[1..] + [c] + rest;
      PlainLengthIs(a[1..], c, rest);
    }
  }

  lemma PatternStartsHole(s: string, key: string)
    requires Plain(key) && Pattern(key) <= s
    ensures StartsHole(s) && PlainLength(s[1..]) == |key| && s[1..][..|key|] == key
  {
    var rest := s[|key| + 2..];
    assert s == Pattern(key) + rest;
    assert s[1..] == key + ['}'] + rest;
    PlainLengthIs(key, '}', rest);
  }

  lemma HoleIsPattern(s: string)
    requires StartsHole(s)
    ensures var n := PlainLength(s[1..]); s == Pattern(s[1..][..n]) + s[n + 2..]
  {
  }

  /** A placeholder of another name is passed over. */
  lemma ReplaceSkipsHole(s: string, key: string, value: string)
    requires Plain(key) && StartsHole(s) && s[1..][..PlainLength(s[1..])] != key
    ensures var n := PlainLength(s[1..]);
      Replace(s, Pattern(key), value) == Pattern(s[1..][..n]) + Replace(s[n + 2..], Pattern(key), value)
  {
    var n := PlainLength(s[1..]);
    var name, rest := s[1..][..n], s[n + 2..];
    if Pattern(key) <= s { PatternStartsHole(s, key); }
    assert s[1..] == name + "}" + rest;
    ReplaceSkips(name + "}", rest, key, value);
    assert Replace(s, Pattern(key), value) == [s[0]] + (name + "}" + Replace(rest, Pattern(key), value));
    assert [s[0]] + (name + "}" + Replace(rest, Pattern(key), value)) ==
           Pattern(name) + Replace(rest, Pattern(key), value);
  }

  /** Replacing `{key}` throughout is filling the placeholders of that name. */
  lemma {:induction false} ReplaceIsSubstitute(s: string, key: string, value: string)
    requires Plain(key)
    ensures Replace(s, Pattern(key), value) == Substitute(s, map[key := value])
    decreases |s|
  {
    var env := map[key := value];
    if StartsHole(s) {
      var n := PlainLength(s[1..]);
      var name := s[1..][..n];
      ReplaceIsSubstitute(s[n + 2..], key, value);
      assert Substitute(s, env) == FillOne(Hole(name), env) + Substitute(s[n + 2..], env);
      if name == key {
        HoleIsPattern(s);
        assert Pattern(key) <= s && s[|Pattern(key)|..] == s[n + 2..];
      } else {
        ReplaceSkipsHole(s, key, value);
      }
    } else if s != "" {
      if Pattern(key) <= s { PatternStartsHole(s, key); }
      ReplaceIsSubstitute(s[1..], key, value);
      assert Substitute(s, env) == [s[0]] + Substitute(s[1..], env);
    }
  }

  // Token sequences and their texts

  function Chars(s: string): seq<Token> {
    seq(|s|, i requires 0 <= i < |s| => Char(s[i]))
  }

  function FillToken(t: Token, key: string, value: string): seq<Token> {
    if t == Hole(key) then Chars(value) else [t]
  }

  /** Filling one name, keeping track of the tokens. */
  function FillTokens(ts: seq<Token>, key: string, value: string): seq<Token> {
    if ts == [] then [] else FillToken(ts[0], key, value) + FillTokens(ts[1..], key, value)
  }

  predicate NamesPlain(ts: seq<Token>) {
    forall t <- ts | t.Hole? :: Plain(t.name)
  }

  /** Closing braces outside placeholders come before opening ones. */
  ghost predicate Unnested(ts: seq<Token>) {
    forall i, j | 0 <= i < j < |ts| :: !(ts[i] == Char('{') && ts[j] == Char('}'))
  }

  lemma {:induction false} FillConcat(a: seq<Token>, b: seq<Token>, env: Env)
    ensures Fill(a + b, env) == Fill(a, env) + Fill(b, env)
    decreases |a|
  {
    if a == [] {
      assert a + b == b;
    } else {
      assert (a + b)[1..] == a[1..] + b;
      FillConcat(a[1..], b, env);
    }
  }

  lemma {:induction false} FillChars(s: string, env: Env)
    ensures Fill(Chars(s), env) == s
    decreases |s|
  {
    if s != "" {
      assert Chars(s)[1..] == Chars(s[1..]);
      FillChars(s[1..], env);
    }
  }

  lemma {:induction false} RenderTokens(s: string)
    ensures Render(Tokens(s)) == s && NamesPlain(Tokens(s))
    decreases |s|
  {
    if StartsHole(s) {
      var n := PlainLength(s[1..]);
      HoleIsPattern(s);
      RenderTokens(s[n + 2..]);
      assert Tokens(s)[1..] == Tokens(s[n + 2..]);
    } else if s != "" {
      RenderTokens(s[1..]);
      assert Tokens(s)[1..] == Tokens(s[1..]);
    }
  }

  /** Filling one name and then the others is filling them all, on tokens. */
  lemma {:induction false} FillTokensFills(ts: seq<Token>, key: string, value: string, env: Env)
    requires key !in env
    ensures Fill(FillTokens(ts, key, value), env) == Fill(ts, env[key := value])
    decreases |ts|
  {
    if ts != [] {
      FillTokensFills(ts[1..], key, value, env);
      FillConcat(FillToken(ts[0], key, value), FillTokens(ts[1..], key, value), env);
      FillChars(value, env);
      assert Fill([ts[0]], env) == FillOne(ts[0], env) + Fill([], env);
    }
  }

  /** The first brace of a rendering without stray closers is an opener. */
  lemma {:induction false} FirstBraceOpens(ts: seq<Token>)
    requires NamesPlain(ts) && Char('}') !in ts
    ensures var r := Render(ts); var n := PlainLength(r); n < |r| ==> r[n] == '{'
    decreases |ts|
  {
    if ts != [] && ts[0].Char? && !IsBrace(ts[0].c) {
      FirstBraceOpens(ts[1..]);
      assert Render(ts)[1..] == Render(ts[1..]);
    }
  }

  lemma HoleTokens(name: string, rest: string)
    requires Plain(name)
    ensures Tokens(Pattern(name) + rest) == [Hole(name)] + Tokens(rest)
  {
    var s := Pattern(name) + rest;
    PatternStartsHole(s, name);
    assert s[|name| + 2..] == rest;
  }

  lemma CharTokens(c: char, rest: string)
    requires !StartsHole([c] + rest)
    ensures Tokens([c] + rest) == [Char(c)] + Tokens(rest)
  {
    assert ([c] + rest)[1..] == rest;
  }

  lemma UnnestedTail(ts: seq<Token>)
    requires NamesPlain(ts) && Unnested(ts) && ts != []
    ensures NamesPlain(ts[1..]) && Unnested(ts[1..])
    ensures ts[0] == Char('{') ==> Char('}') !in ts[1..]
  {
    var rest := ts[1..];
    assert forall i | 0 <= i < |rest| :: rest[i] == ts[i + 1];
  }

  /** An unnested token sequence is read back from its text. */
  lemma {:induction false} TokensOfRender(ts: seq<Token>)
    requires NamesPlain(ts) && Unnested(ts)
    ensures Tokens(Render(ts)) == ts
    decreases |ts|
  {
    if ts != [] {
      var rest := ts[1..];
      UnnestedTail(ts);
      TokensOfRender(rest);
      match ts[0]
      case Hole(name) => HoleTokens(name, Render(rest));
      case Char(c) =>
        if c == '{' {
          FirstBraceOpens(rest);
          assert ([c] + Render(rest))[1..] == Render(rest);
        }
        CharTokens(c, Render(rest));
    }
  }

  lemma {:induction false} FillTokensKeeps(ts: seq<Token>, key: string, value: string)
    requires NamesPlain(ts) && Unnested(ts) && Plain(value)
    ensures NamesPlain(FillTokens(ts, key, value)) && Unnested(FillTokens(ts, key, value))
    ensures Char('}') !in ts ==> Char('}') !in FillTokens(ts, key, value)
    decreases |ts|
  {
    if ts != [] {
      var rest := ts[1..];
      UnnestedTail(ts);
      FillTokensKeeps(rest, key, value);
      var head, tail := FillToken(ts[0], key, value), FillTokens(rest, key, value);
      assert forall t <- head :: t == ts[0] || (t.Char? && !IsBrace(t.c));
      if ts[0] == Char('{') { assert Char('}') !in tail; }
    }
  }

  lemma EnvOfHas(args: Args, key: string)
    ensures key in EnvOf(args) <==> exists i :: 0 <= i < |args| && args[i].0 == key
  {
  }

  lemma {:induction false} EnvOfValue(args: Args, i: nat)
    requires Proper(args) && i < |args|
    ensures args[i].0 in EnvOf(args) && EnvOf(args)[args[i].0] == args[i].1
    decreases |args|
  {
    if i > 0 {
      ProperTail(args);
      EnvOfValue(args[1..], i - 1);
    }
  }

  /** One key at a time is all at once, when no placeholder sits inside a stray pair. */
  lemma {:induction false} SequentialIsSimultaneous(text: string, args: Args)
    requires Proper(args) && Unnested(Tokens(text))
    ensures Sequentially(text, args) == Substitute(text, EnvOf(args))
    decreases |args|
  {
    RenderTokens(text);
    if args != [] {
      var (key, value) := args[0];
      var ts := FillTokens(Tokens(text), key, value);
      var next := Replace(text, Pattern(key), value);
      ReplaceIsSubstitute(text, key, value);
      FillTokensFills(Tokens(text), key, value, map[]);
      FillTokensKeeps(Tokens(text), key, value);
      assert next == Render(ts);
      TokensOfRender(ts);
      assert Proper(args[1..]) by { ProperTail(args); }
      SequentialIsSimultaneous(next, args[1..]);
      EnvOfHas(args[1..], key);
      ProperTail(args);
      FillTokensFills(Tokens(text), key, value, EnvOf(args[1..]));
    }
  }

  lemma ProperTail(args: Args)
    requires Proper(args) && args != []
    ensures Proper(args[1..]) && forall i | 0 <= i < |args[1..]| :: args[1..][i].0 != args[0].0
  {
    forall i | 0 <= i < |args[1..]| ensures args[1..][i].0 != args[0].0 { assert args[1..][i] == args[i + 1]; }
  }

  /** So the order of the keyword arguments does not matter. */
  lemma OrderImmaterial(text: string, a: Args, b: Args)
    requires Proper(a) && Proper(b) && EnvOf(a) == EnvOf(b) && Unnested(Tokens(text))
    ensures Sequentially(text, a) == Sequentially(text, b)
  {
    SequentialIsSimultaneous(text, a);
    SequentialIsSimultaneous(text, b);
  }

  /** A placeholder with the name of the argument gives way to its value, wherever it stands, and
      plain text stays. */
  lemma EachPlaceholder(before: string, key: string, value: string, rest: string)
    requires Plain(before) && Plain(key)
    ensures Sequentially(before, [(key, value)]) == before
    ensures Sequentially(before + "{" + key + "}" + rest, [(key, value)]) ==
            before + value + Sequentially(rest, [(key, value)])
  {
    assert before + "{" + key + "}" + rest == before + (Pattern(key) + rest);
    ReplaceSkips(before, Pattern(key) + rest, key, value);
    assert (Pattern(key) + rest)[|Pattern(key)|..] == rest;
    assert before + "" == before;
    ReplaceSkips(before, "", key, value);
    assert [(key, value)][1..] == [];
  }

  /** `get_prompt_text`: the fallback, unfilled, when there is no such prompt. */
  method GetPromptText(prompts: map<string, string>, fallback: string, promptId: string, args: Args)
    returns (text: string)
    ensures promptId !in prompts ==> text == fallback
    ensures promptId in prompts ==> text == Sequentially(prompts[promptId], args)
    ensures promptId in prompts && Proper(args) && Unnested(Tokens(prompts[promptId])) ==>
              text == Substitute(prompts[promptId], EnvOf(args))
  {
    if promptId !in prompts { return fallback; }
    text := prompts[promptId];
    for i := 0 to |args|
      invariant Sequentially(text, args[i..]) == Sequentially(prompts[promptId], args)
    {
      assert args[i..][0] == args[i] && args[i..][1..] == args[i + 1..];
      text := Replace(text, Pattern(args[i].0), args[i].1);
    }
    if Proper(args) && Unnested(Tokens(prompts[promptId])) { SequentialIsSimultaneous(prompts[promptId], args); }
  }
}
