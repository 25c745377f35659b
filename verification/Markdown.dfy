/** `renderMarkdown`: a single pass over lines with an open list or an open code fence,
    against a grammar that reads maximal runs. */
module Markdown {
  import opened Commons
  import opened Escaping

  /** A line with what the trims and regular expressions say about it. `ordered` and
      `unordered` are the item text captured by the respective list pattern. */
  datatype Line = Line(text: string, isFence: bool, isBlank: bool, ordered: Option<string>, unordered: Option<string>)

  datatype ListKind = Ordered | Unordered

  datatype Block =
    | List(kind: ListKind, items: seq<string>)
    | Code(lines: seq<string>)
    | Heading(level: int, text: string)
    | Quote(text: string)
    | Paragraph(text: string)

  predicate IsItem(l: Line) {
    l.ordered.Some? || l.unordered.Some?
  }

  function KindOf(l: Line): ListKind {
    if l.ordered.Some? then Ordered else Unordered
  }

  function ItemOf(l: Line): string {
    if l.ordered.Some? then l.ordered.value else if l.unordered.Some? then l.unordered.value else ""
  }

  /** The block of a line that stands alone. */
  function Single(text: string): Block {
    if "### " <= text then Heading(3, text[4..])
    else if "## " <= text then Heading(2, text[3..])
    else if "# " <= text then Heading(1, text[2..])
    else if "> " <= text then Quote(text[2..])
    else Paragraph(text)
  }

  // The grammar

  /** Index of the next fence, or the end. */
  function NextFence(lines: seq<Line>): (k: nat)
    ensures k <= |lines|
  {
    if lines == [] || lines[0].isFence then 0 else 1 + NextFence(lines[1..])
  }

  predicate Continues(l: Line, kind: ListKind) {
    !l.isFence && !l.isBlank && IsItem(l) && KindOf(l) == kind
  }

  /** Length of the run of items of one kind at the start. */
  function RunLength(lines: seq<Line>, kind: ListKind): (k: nat)
    ensures k <= |lines|
  {
    if lines == [] || !Continues(lines[0], kind) then 0 else 1 + RunLength(lines[1..], kind)
  }

  function Texts(lines: seq<Line>): seq<string> {
    seq(|lines|, i requires 0 <= i < |lines| => lines[i].text)
  }

  function Items(lines: seq<Line>): seq<string> {
    seq(|lines|, i requires 0 <= i < |lines| => ItemOf(lines[i]))
  }

  function Drop(lines: seq<Line>, k: nat): seq<Line> {
    if k <= |lines| then lines[k..] else []
  }

  /** A fence opens a code block that runs to the next fence or the end; items of one kind
      form a list as long as they follow each other; blank lines separate. */
  function Parse(lines: seq<Line>): seq<Block>
    decreases |lines|
  {
    if lines == [] then []
    else if lines[0].isFence then
      var k := NextFence(lines[1..]);
      [Code(Texts(lines[1..][..k]))] + Parse(Drop(lines[1..], k + 1))
    else if lines[0].isBlank then Parse(lines[1..])
    else if IsItem(lines[0]) then
      var kind := KindOf(lines[0]);
      var k := RunLength(lines, kind);
      [List(kind, Items(lines[..k]))] + Parse(lines[k..])
    else [Single(lines[0].text)] + Parse(lines[1..])
  }

  // The pass

  /** What remains to be produced from an open code fence, or from an open list. */
  function FromCode(code: seq<string>, rest: seq<Line>): seq<Block> {
    var k := NextFence(rest);
    [Code(code + Texts(rest[..k]))] + Parse(Drop(rest, k + 1))
  }

  function FromList(kind: ListKind, items: seq<string>, rest: seq<Line>): seq<Block> {
    var k := RunLength(rest, kind);
    [List(kind, items + Items(rest[..k]))] + Parse(rest[k..])
  }

  /** The pass's variables. At most one of `list` and the code fence is open. */
  datatype Pass = Pass(blocks: seq<Block>, list: Option<Block>, inCode: bool, code: seq<string>)

  predicate Sound(p: Pass) {
    !(p.inCode && p.list.Some?) && (p.list.Some? ==> p.list.value.List?)
  }

  /** The output so far followed by what the open block and the remaining lines yield. */
  function Total(p: Pass, rest: seq<Line>): seq<Block>
    requires Sound(p)
  {
    p.blocks +
    if p.inCode then FromCode(p.code, rest)
    else if p.list.Some? then FromList(p.list.value.kind, p.list.value.items, rest)
    else Parse(rest)
  }

  function CloseList(p: Pass): Pass {
    if p.list.Some? then p.(blocks := p.blocks + [p.list.value], list := None) else p
  }

  function CloseCode(p: Pass): Pass {
    if p.inCode then p.(blocks := p.blocks + [Code(p.code)], code := [], inCode := false) else p
  }

  lemma OpenFence(rest: seq<Line>)
    requires rest != [] && rest[0].isFence
    ensures Parse(rest) == FromCode([], rest[1..])
  {
    var k := NextFence(rest[1..]);
    var none: seq<string> := [];
    assert none + Texts(rest[1..][..k]) == Texts(rest[1..][..k]);
  }

  lemma CloseFence(code: seq<string>, rest: seq<Line>)
    requires rest != [] && rest[0].isFence
    ensures FromCode(code, rest) == [Code(code)] + Parse(rest[1..])
  {
    assert code + Texts(rest[..0]) == code;
  }

  lemma CodeLine(code: seq<string>, rest: seq<Line>)
    requires rest != [] && !rest[0].isFence
    ensures FromCode(code, rest) == FromCode(code + [rest[0].text], rest[1..])
  {
    var k := NextFence(rest[1..]);
    assert rest[..k + 1] == [rest[0]] + rest[1..][..k];
    assert code + Texts(rest[..k + 1]) == code + [rest[0].text] + Texts(rest[1..][..k]);
    assert Drop(rest, k + 2) == Drop(rest[1..], k + 1);
  }

  /** A line that ends an open list: the list is closed and parsing starts afresh. */
  lemma ListEnds(kind: ListKind, items: seq<string>, rest: seq<Line>)
    requires rest == [] || !Continues(rest[0], kind)
    ensures FromList(kind, items, rest) == [List(kind, items)] + Parse(rest)
  {
    assert items + Items(rest[..0]) == items;
  }

  lemma ItemLine(kind: ListKind, items: seq<string>, rest: seq<Line>)
    requires rest != [] && Continues(rest[0], kind)
    ensures FromList(kind, items, rest) == FromList(kind, items + [ItemOf(rest[0])], rest[1..])
  {
    var k := RunLength(rest[1..], kind);
    assert rest[..k + 1] == [rest[0]] + rest[1..][..k];
    assert items + Items(rest[..k + 1]) == items + [ItemOf(rest[0])] + Items(rest[1..][..k]);
    assert rest[k + 1..] == rest[1..][k..];
  }

  lemma FirstItem(rest: seq<Line>)
    requires rest != [] && Continues(rest[0], KindOf(rest[0]))
    ensures Parse(rest) == FromList(KindOf(rest[0]), [ItemOf(rest[0])], rest[1..])
  {
    var kind := KindOf(rest[0]);
    ItemLine(kind, [], rest);
    var none: seq<string> := [];
    assert none + Items(rest[..RunLength(rest, kind)]) == Items(rest[..RunLength(rest, kind)]);
    assert none + [ItemOf(rest[0])] == [ItemOf(rest[0])];
  }

  lemma Regroup(blocks: seq<Block>, b: Block, tail: seq<Block>)
    ensures blocks + ([b] + tail) == blocks + [b] + tail
  {
  }

  lemma CloseListKeeps(p: Pass, rest: seq<Line>)
    requires Sound(p) && !p.inCode
    requires p.list.Some? && rest != [] ==> !Continues(rest[0], p.list.value.kind)
    ensures Total(p, rest) == Total(CloseList(p), rest)
  {
    if p.list.Some? {
      ListEnds(p.list.value.kind, p.list.value.items, rest);
      Regroup(p.blocks, p.list.value, Parse(rest));
    }
  }

  lemma CloseFenceKeeps(p: Pass, rest: seq<Line>)
    requires Sound(p) && p.inCode && rest != [] && rest[0].isFence
    ensures Total(p, rest) == Total(CloseCode(p), rest[1..])
  {
    CloseFence(p.code, rest);
    Regroup(p.blocks, Code(p.code), Parse(rest[1..]));
  }

  lemma OpenFenceKeeps(p: Pass, rest: seq<Line>)
    requires Sound(p) && !p.inCode && rest != [] && rest[0].isFence
    ensures Total(p, rest) == Total(CloseList(p).(inCode := true, code := []), rest[1..])
  {
    CloseListKeeps(p, rest);
    OpenFence(rest);
  }

  lemma CodeLineKeeps(p: Pass, rest: seq<Line>)
    requires Sound(p) && p.inCode && rest != [] && !rest[0].isFence
    ensures Total(p, rest) == Total(p.(code := p.code + [rest[0].text]), rest[1..])
  {
    CodeLine(p.code, rest);
  }

  lemma BlankKeeps(p: Pass, rest: seq<Line>)
    requires Sound(p) && !p.inCode && rest != [] && !rest[0].isFence && rest[0].isBlank
    ensures Total(p, rest) == Total(CloseList(p), rest[1..])
  {
    CloseListKeeps(p, rest);
  }

  lemma NewListKeeps(p: Pass, rest: seq<Line>)
    requires Sound(p) && !p.inCode && rest != [] && Continues(rest[0], KindOf(rest[0]))
    requires p.list.Some? ==> p.list.value.kind != KindOf(rest[0])
    ensures Total(p, rest) == Total(CloseList(p).(list := Some(List(KindOf(rest[0]), [ItemOf(rest[0])]))), rest[1..])
  {
    CloseListKeeps(p, rest);
    FirstItem(rest);
  }

  lemma ItemKeeps(p: Pass, rest: seq<Line>)
    requires Sound(p) && p.list.Some? && rest != [] && Continues(rest[0], p.list.value.kind)
    ensures Total(p, rest) ==
            Total(p.(list := Some(List(p.list.value.kind, p.list.value.items + [ItemOf(rest[0])]))), rest[1..])
  {
    ItemLine(p.list.value.kind, p.list.value.items, rest);
  }

  lemma SingleKeeps(p: Pass, rest: seq<Line>)
    requires Sound(p) && !p.inCode && rest != [] && !rest[0].isFence && !rest[0].isBlank && !IsItem(rest[0])
    ensures var q := CloseList(p);
      Total(p, rest) == Total(q.(blocks := q.blocks + [Single(rest[0].text)]), rest[1..])
  {
    CloseListKeeps(p, rest);
    Regroup(CloseList(p).blocks, Single(rest[0].text), Parse(rest[1..]));
  }

  lemma EndKeeps(p: Pass)
    requires Sound(p)
    ensures CloseList(CloseCode(p)).blocks == Total(p, [])
  {
    if p.inCode {
      assert p.code + Texts([]) == p.code;
    } else {
      CloseListKeeps(p, []);
    }
  }

  /** One turn of the loop. */
  method ReadLine(p: Pass, line: Line, ghost rest: seq<Line>) returns (q: Pass)
    requires Sound(p) && rest != [] && rest[0] == line
    ensures Sound(q) && Total(q, rest[1..]) == Total(p, rest)
  {
    if line.isFence {
      if p.inCode {
        CloseFenceKeeps(p, rest);
        return CloseCode(p);
      }
      OpenFenceKeeps(p, rest);
      return CloseList(p).(inCode := true, code := []);
    }
    if p.inCode {
      CodeLineKeeps(p, rest);
      return p.(code := p.code + [line.text]);
    }
    if line.isBlank {
      BlankKeeps(p, rest);
      return CloseList(p);
    }
    if IsItem(line) {
      q := p;
      if q.list.None? || q.list.value.kind != KindOf(line) {
        NewListKeeps(p, rest);
        q := CloseList(q).(list := Some(List(KindOf(line), [])));
        assert q.list.value.items + [ItemOf(line)] == [ItemOf(line)];
      } else {
        ItemKeeps(p, rest);
      }
      return q.(list := Some(List(q.list.value.kind, q.list.value.items + [ItemOf(line)])));
    }
    SingleKeeps(p, rest);
    q := CloseList(p);
    return q.(blocks := q.blocks + [Single(line.text)]);
  }

  /** `renderMarkdown` produces the blocks of the grammar; a list and a code fence are
      never open together, and both are closed at the end. */
  method RenderBlocks(lines: seq<Line>) returns (blocks: seq<Block>)
    ensures blocks == Parse(lines)
  {
    var p := Pass([], None, false, []);
    for i := 0 to |lines|
      invariant Sound(p) && Total(p, lines[i..]) == Parse(lines)
    {
      assert lines[i..][0] == lines[i] && lines[i..][1..] == lines[i + 1..];
      p := ReadLine(p, lines[i], lines[i..]);
    }
    EndKeeps(p);
    assert lines[|lines|..] == [];
    p := CloseCode(p);
    p := CloseList(p);
    return p.blocks;
  }

  // What the grammar does with the lines

  /** A piece of text and what it is shown as. */
  datatype Piece =
    | Item(kind: ListKind, text: string)
    | CodeText(text: string)
    | Head(level: int, text: string)
    | Quoted(text: string)
    | Plain(text: string)

  function Hashes(s: string): (n: nat)
    ensures n <= |s|
  {
    if s == "" || s[0] != '#' then 0 else 1 + Hashes(s[1..])
  }

  /** What a line outside code should be shown as: an item, if a list pattern matches, the ordered
      one first; a heading, if one to three hashes and a blank begin it; a quotation; a paragraph. */
  function Reading(l: Line): Piece {
    var n := Hashes(l.text);
    if l.ordered.Some? then Item(Ordered, l.ordered.value)
    else if l.unordered.Some? then Item(Unordered, l.unordered.value)
    else if 1 <= n <= 3 && n < |l.text| && l.text[n] == ' ' then Head(n, l.text[n + 1..])
    else if |l.text| >= 2 && l.text[0] == '>' && l.text[1] == ' ' then Quoted(l.text[2..])
    else Plain(l.text)
  }

  function Contents(b: Block): seq<Piece> {
    match b
    case List(kind, items) => ItemsAs(kind, items)
    case Code(lines) => CodeTexts(lines)
    case Heading(level, text) => [Head(level, text)]
    case Quote(text) => [Quoted(text)]
    case Paragraph(text) => [Plain(text)]
  }

  function ItemsAs(kind: ListKind, items: seq<string>): seq<Piece> {
    seq(|items|, i requires 0 <= i < |items| => Item(kind, items[i]))
  }

  function CodeTexts(lines: seq<string>): seq<Piece> {
    seq(|lines|, i requires 0 <= i < |lines| => CodeText(lines[i]))
  }

  lemma {:induction false} HashesBegin(s: string)
    ensures forall i | 0 <= i < Hashes(s) :: s[i] == '#'
    decreases |s|
  {
    if s != "" && s[0] == '#' { HashesBegin(s[1..]); }
  }

  lemma {:induction false} HashesAre(s: string, n: nat)
    requires n < |s| && s[n] != '#' && forall i | 0 <= i < n :: s[i] == '#'
    ensures Hashes(s) == n
    decreases n
  {
    if n > 0 { HashesAre(s[1..], n - 1); }
  }

  lemma SingleReads(l: Line)
    requires !IsItem(l)
    ensures Contents(Single(l.text)) == [Reading(l)]
  {
    var t := l.text;
    var n := Hashes(t);
    HashesBegin(t);
    if "### " <= t { HashesAre(t, 3); } else if "## " <= t { HashesAre(t, 2); } else if "# " <= t { HashesAre(t, 1); }
    if 1 <= n <= 3 && n < |t| && t[n] == ' ' {
      assert t[0] == '#' && (n >= 2 ==> t[1] == '#') && (n == 3 ==> t[2] == '#');
      assert n == 3 ==> "### " <= t;
      assert n == 2 ==> "## " <= t;
      assert n == 1 ==> "# " <= t;
    }
    if |t| >= 2 && t[0] == '>' && t[1] == ' ' { assert "> " <= t; }
  }

  function AllContents(bs: seq<Block>): seq<Piece> {
    if bs == [] then [] else Contents(bs[0]) + AllContents(bs[1..])
  }

  /** What each line should leave behind: fences and blank lines outside code nothing, a
      line in code its text, any other line what it reads as. A line is in code when an odd
      number of fences precede it. */
  function Accounted(lines: seq<Line>, inCode: bool): seq<Piece> {
    if lines == [] then []
    else if lines[0].isFence then Accounted(lines[1..], !inCode)
    else (if inCode then [CodeText(lines[0].text)] else if lines[0].isBlank then [] else [Reading(lines[0])])
         + Accounted(lines[1..], inCode)
  }

  lemma OneMoreLine(lines: seq<Line>, k: nat)
    requires k < |lines|
    ensures CodeTexts(Texts(lines[..k + 1])) == [CodeText(lines[0].text)] + CodeTexts(Texts(lines[1..][..k]))
  {
  }

  lemma {:induction false} CodeAccounted(lines: seq<Line>)
    ensures var k := NextFence(lines);
      Accounted(lines, true) == CodeTexts(Texts(lines[..k])) + Accounted(Drop(lines, k + 1), false)
    decreases |lines|
  {
    if lines != [] && !lines[0].isFence {
      var k := NextFence(lines[1..]);
      CodeAccounted(lines[1..]);
      OneMoreLine(lines, k);
      assert Drop(lines, k + 2) == Drop(lines[1..], k + 1);
    }
  }

  lemma OneMoreItem(lines: seq<Line>, kind: ListKind, k: nat)
    requires k < |lines| && Continues(lines[0], kind)
    ensures ItemsAs(kind, Items(lines[..k + 1])) == [Reading(lines[0])] + ItemsAs(kind, Items(lines[1..][..k]))
  {
  }

  lemma {:induction false} RunAccounted(lines: seq<Line>, kind: ListKind)
    ensures var k := RunLength(lines, kind);
      Accounted(lines, false) == ItemsAs(kind, Items(lines[..k])) + Accounted(lines[k..], false)
    decreases |lines|
  {
    if lines != [] && Continues(lines[0], kind) {
      var k := RunLength(lines[1..], kind);
      RunAccounted(lines[1..], kind);
      OneMoreItem(lines, kind, k);
      assert lines[k + 1..] == lines[1..][k..];
    } else {
      assert lines[0..] == lines;
    }
  }

  lemma ContentsCons(b: Block, bs: seq<Block>)
    ensures AllContents([b] + bs) == Contents(b) + AllContents(bs)
  {
    assert ([b] + bs)[1..] == bs;
  }

  /** Every line is accounted for exactly once, in order, and shown as what it reads as. */
  lemma {:induction false} EveryLineOnce(lines: seq<Line>)
    ensures AllContents(Parse(lines)) == Accounted(lines, false)
    decreases |lines|
  {
    if lines != [] {
      if lines[0].isFence {
        var k := NextFence(lines[1..]);
        CodeAccounted(lines[1..]);
        EveryLineOnce(Drop(lines[1..], k + 1));
        ContentsCons(Code(Texts(lines[1..][..k])), Parse(Drop(lines[1..], k + 1)));
      } else if lines[0].isBlank {
        EveryLineOnce(lines[1..]);
      } else if IsItem(lines[0]) {
        var kind := KindOf(lines[0]);
        var k := RunLength(lines, kind);
        RunAccounted(lines, kind);
        EveryLineOnce(lines[k..]);
        ContentsCons(List(kind, Items(lines[..k])), Parse(lines[k..]));
      } else {
        EveryLineOnce(lines[1..]);
        SingleReads(lines[0]);
        ContentsCons(Single(lines[0].text), Parse(lines[1..]));
      }
    }
  }

  lemma {:induction false} RunIsMaximal(lines: seq<Line>, kind: ListKind)
    ensures var k := RunLength(lines, kind);
      (forall i | 0 <= i < k :: Continues(lines[i], kind)) && (k < |lines| ==> !Continues(lines[k], kind))
    decreases |lines|
  {
    if lines != [] && Continues(lines[0], kind) { RunIsMaximal(lines[1..], kind); }
  }

  lemma {:induction false} FenceIsNext(lines: seq<Line>)
    ensures var k := NextFence(lines);
      (forall i | 0 <= i < k :: !lines[i].isFence) && (k < |lines| ==> lines[k].isFence)
    decreases |lines|
  {
    if lines != [] && !lines[0].isFence { FenceIsNext(lines[1..]); }
  }

  lemma RunIs(lines: seq<Line>, kind: ListKind, k: nat)
    requires k <= |lines| && forall i | 0 <= i < k :: Continues(lines[i], kind)
    requires k < |lines| ==> !Continues(lines[k], kind)
    ensures RunLength(lines, kind) == k
  {
    RunIsMaximal(lines, kind);
  }

  /** A list is one block, and takes every item of its kind that follows. */
  lemma ListIsMaximal(lines: seq<Line>, k: nat)
    requires 0 < k <= |lines| && forall i | 0 <= i < k :: Continues(lines[i], KindOf(lines[0]))
    requires k < |lines| ==> !Continues(lines[k], KindOf(lines[0]))
    ensures Parse(lines) == [List(KindOf(lines[0]), Items(lines[..k]))] + Parse(lines[k..])
  {
    RunIs(lines, KindOf(lines[0]), k);
  }

  /** A code block takes every line up to the next fence, which it removes, or to the end. */
  lemma CodeIsMaximal(lines: seq<Line>, k: nat)
    requires 0 < k <= |lines| && lines[0].isFence && forall i | 0 < i < k :: !lines[i].isFence
    requires k < |lines| ==> lines[k].isFence
    ensures Parse(lines) == [Code(Texts(lines[1..k]))] + Parse(Drop(lines, k + 1))
  {
    FenceIsNext(lines[1..]);
    assert lines[1..][..k - 1] == lines[1..k] && Drop(lines[1..], k) == Drop(lines, k + 1);
    assert NextFence(lines[1..]) == k - 1;
  }

  // HTML

  function Join(lines: seq<string>, separator: string): string {
    if lines == [] then "" else if |lines| == 1 then lines[0] else lines[0] + separator + Join(lines[1..], separator)
  }

  /** The HTML of a code block. */
  function CodeHtml(lines: seq<string>): string {
    "<pre><code>" + EscapeHtml(Join(lines, "\n")) + "</code></pre>"
  }

  /** Whatever its lines, a code block is its two tags around text that opens no other. */
  lemma CodeIsInert(lines: seq<string>)
    ensures exists body :: Inert(body) && CodeHtml(lines) == "<pre><code>" + body + "</code></pre>"
  {
    EscapedIsInert(Join(lines, "\n"));
  }
}
