/** `escapeHtml`: five global replacements in sequence, and the character map they amount to. */
module Escaping {

  /** `s.replace(/c/g, r)`. */
  function ReplaceAll(s: string, c: char, r: string): string {
    if s == "" then "" else (if s[0] == c then r else [s[0]]) + ReplaceAll(s[1..], c, r)
  }

  function EscapeHtml(s: string): string {
    var s1 := ReplaceAll(s, '&', "&amp;");
    var s2 := ReplaceAll(s1, '<', "&lt;");
    var s3 := ReplaceAll(s2, '>', "&gt;");
    var s4 := ReplaceAll(s3, '"', "&quot;");
    ReplaceAll(s4, '\'', "&#39;")
  }

  /** What each character becomes. */
  function EscapeChar(c: char): string {
    match c
    case '&' => "&amp;"
    case '<' => "&lt;"
    case '>' => "&gt;"
    case '"' => "&quot;"
    case '\'' => "&#39;"
    case _ => [c]
  }

  function EscapeEach(s: string): string {
    if s == "" then "" else EscapeChar(s[0]) + EscapeEach(s[1..])
  }

  lemma {:induction false} ReplaceConcat(a: string, b: string, c: char, r: string)
    ensures ReplaceAll(a + b, c, r) == ReplaceAll(a, c, r) + ReplaceAll(b, c, r)
    decreases |a|
  {
    if a == "" {
      assert a + b == b;
    } else {
      assert (a + b)[1..] == a[1..] + b;
      ReplaceConcat(a[1..], b, c, r);
    }
  }

  lemma {:induction false} ReplaceAbsent(s: string, c: char, r: string)
    requires c !in s
    ensures ReplaceAll(s, c, r) == s
    decreases |s|
  {
    if s != "" { ReplaceAbsent(s[1..], c, r); }
  }

  /** A character once the passes for `done` are over. */
  function Stage(c: char, done: set<char>): string {
    if c in done then EscapeChar(c) else [c]
  }

  /** The pass for `x` moves a character to the next stage, provided it does not meet its
      own letter in text that an earlier pass wrote. */
  lemma Pass(c: char, done: set<char>, x: char, r: string)
    requires x !in done && EscapeChar(x) == r && (c in done ==> x !in EscapeChar(c))
    ensures ReplaceAll(Stage(c, done), x, r) == Stage(c, done + {x})
  {
    var s := Stage(c, done);
    if c == x {
      assert s == [x] && s[1..] == "";
    } else {
      ReplaceAbsent(s, x, r);
    }
  }

  /** No escape contains a letter that a later pass looks for. */
  lemma EscapesAreSettled(c: char)
    ensures forall x | x in {'<', '>', '"', '\''} && c in {'&', '<', '>', '"', '\''} :: x !in EscapeChar(c)
  {
  }

  lemma EscapeConcat(a: string, b: string)
    ensures EscapeHtml(a + b) == EscapeHtml(a) + EscapeHtml(b)
  {
    var a1, b1 := ReplaceAll(a, '&', "&amp;"), ReplaceAll(b, '&', "&amp;");
    var a2, b2 := ReplaceAll(a1, '<', "&lt;"), ReplaceAll(b1, '<', "&lt;");
    var a3, b3 := ReplaceAll(a2, '>', "&gt;"), ReplaceAll(b2, '>', "&gt;");
    var a4, b4 := ReplaceAll(a3, '"', "&quot;"), ReplaceAll(b3, '"', "&quot;");
    ReplaceConcat(a, b, '&', "&amp;");
    ReplaceConcat(a1, b1, '<', "&lt;");
    ReplaceConcat(a2, b2, '>', "&gt;");
    ReplaceConcat(a3, b3, '"', "&quot;");
    ReplaceConcat(a4, b4, '\'', "&#39;");
  }

  /** No later replacement touches the text an earlier one wrote. */
  lemma EscapeSingle(c: char)
    ensures EscapeHtml([c]) == EscapeChar(c)
  {
    EscapesAreSettled(c);
    Pass(c, {}, '&', "&amp;");
    Pass(c, {'&'}, '<', "&lt;");
    Pass(c, {'&', '<'}, '>', "&gt;");
    Pass(c, {'&', '<', '>'}, '"', "&quot;");
    Pass(c, {'&', '<', '>', '"'}, '\'', "&#39;");
    assert {'&'} + {'<'} == {'&', '<'} && {'&', '<'} + {'>'} == {'&', '<', '>'};
    assert {'&', '<', '>'} + {'"'} == {'&', '<', '>', '"'};
  }

  /** The five characters and what they become; any other stays. */
  lemma FiveEscapes(c: char)
    ensures EscapeHtml([c]) ==
      if c == '&' then "&amp;"
      else if c == '<' then "&lt;"
      else if c == '>' then "&gt;"
      else if c == '"' then "&quot;"
      else if c == '\'' then "&#39;"
      else [c]
  {
    EscapeSingle(c);
  }

  /** The five passes are one simultaneous character map. */
  lemma {:induction false} EscapeIsCharacterMap(s: string)
    ensures EscapeHtml(s) == EscapeEach(s)
    decreases |s|
  {
    if s != "" {
      assert s == [s[0]] + s[1..];
      EscapeConcat([s[0]], s[1..]);
      EscapeSingle(s[0]);
      EscapeIsCharacterMap(s[1..]);
    }
  }

  /** The character whose escape a text begins with. */
  function FirstOf(t: string): char
    requires |t| >= 1 && (t[0] == '&' ==> |t| >= 2)
  {
    if t[0] != '&' then t[0]
    else match t[1]
      case 'a' => '&'
      case 'l' => '<'
      case 'g' => '>'
      case 'q' => '"'
      case _ => '\''
  }

  lemma FirstOfEscape(c: char, rest: string)
    ensures var t := EscapeChar(c) + rest;
      |t| >= 1 && (t[0] == '&' ==> |t| >= 2) && FirstOf(t) == c
  {
  }

  lemma {:induction false} EscapeEachInjective(a: string, b: string)
    requires EscapeEach(a) == EscapeEach(b)
    ensures a == b
    decreases |a|
  {
    if a != "" { FirstOfEscape(a[0], EscapeEach(a[1..])); }
    if b != "" { FirstOfEscape(b[0], EscapeEach(b[1..])); }
    if a != "" && b != "" {
      var n := |EscapeChar(a[0])|;
      assert EscapeEach(a)[n..] == EscapeEach(a[1..]) && EscapeEach(b)[n..] == EscapeEach(b[1..]);
      EscapeEachInjective(a[1..], b[1..]);
      assert a == [a[0]] + a[1..] && b == [b[0]] + b[1..];
    }
  }

  /** Distinct texts stay distinct. */
  lemma EscapeInjective(a: string, b: string)
    requires EscapeHtml(a) == EscapeHtml(b)
    ensures a == b
  {
    EscapeIsCharacterMap(a);
    EscapeIsCharacterMap(b);
    EscapeEachInjective(a, b);
  }

  /** One of the five escapes comes next. */
  predicate StartsEscape(t: string) {
    exists c <- ['&', '<', '>', '"', '\''] :: EscapeChar(c) <= t
  }

  /** No character that opens a tag or ends an attribute, and no ampersand but that of an escape. */
  predicate Inert(s: string) {
    && (forall c <- s :: c !in {'<', '>', '"', '\''})
    && forall i | 0 <= i < |s| && s[i] == '&' :: StartsEscape(s[i..])
  }

  /** Only the escapes contain an ampersand, and only in front. */
  lemma AmpersandLeads(c: char, i: nat)
    requires i < |EscapeChar(c)| && EscapeChar(c)[i] == '&'
    ensures i == 0 && c in ['&', '<', '>', '"', '\'']
  {
  }

  lemma CharIsInert(c: char, rest: string)
    requires Inert(rest)
    ensures Inert(EscapeChar(c) + rest)
  {
    var e := EscapeChar(c);
    var s := e + rest;
    forall i | 0 <= i < |s| && s[i] == '&' ensures StartsEscape(s[i..]) {
      if i < |e| {
        AmpersandLeads(c, i);
        assert s[i..] == s && EscapeChar(c) <= s;
      } else {
        assert s[i..] == rest[i - |e|..];
      }
    }
    forall x | x in s ensures x !in {'<', '>', '"', '\''} {
      if x in e { EscapesAreClean(c, x); }
    }
  }

  lemma EscapesAreClean(c: char, x: char)
    requires x in EscapeChar(c)
    ensures x !in {'<', '>', '"', '\''}
  {
  }

  lemma {:induction false} EscapeEachInert(s: string)
    ensures Inert(EscapeEach(s))
    decreases |s|
  {
    if s != "" {
      EscapeEachInert(s[1..]);
      CharIsInert(s[0], EscapeEach(s[1..]));
    }
  }

  /** Escaped text can close no tag and no attribute, and begins no other entity. */
  lemma EscapedIsInert(s: string)
    ensures Inert(EscapeHtml(s))
  {
    EscapeIsCharacterMap(s);
    EscapeEachInert(s);
  }
}
