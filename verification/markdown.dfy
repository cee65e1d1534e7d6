/**
  The block stage of the renderer (`renderMarkdown`): one pass over the lines of
  the outline that threads a state record (the open list and its kind, whether a
  fenced code block is open, its language and buffered lines) and emits block
  nodes. Each line is classified the way the renderer tests it, in the same order:
  a fence, then (outside a fence) `### `, `## `, `> `, `---`, `- ` or `* `, an
  ordered-list marker `^\d+\.\s`, and finally blank or paragraph text.
 */
module Markdown {
  import opened Wrappers
  import opened JsStrings
  import opened InlineText

  datatype ListKind = Unordered | Ordered

  /** The nodes the renderer emits, without their keys and styling. The content `C`
      of headings, quotes, list items and paragraphs is first the text the line hands
      to the inline stage, then the spans that stage makes of it. A code block keeps
      its buffered lines; the renderer shows them joined by newlines. */
  datatype Block<C> =
    | Heading(level: nat, content: C)
    | Blockquote(content: C)
    | Rule
    | List(kind: ListKind, items: seq<C>)
    | CodeBlock(language: string, lines: seq<string>)
    | Paragraph(content: C)

  /** How the renderer reads one line; `text` is what is handed to the inline stage. */
  datatype LineKind =
    | FenceLine(language: string)
    | HeadingLine(level: nat, text: string)
    | QuoteLine(text: string)
    | RuleLine
    | ItemLine(kind: ListKind, text: string)
    | BlankLine
    | TextLine(text: string)

  /** The renderer's variables between two lines. */
  datatype RenderState = RenderState(
    out: seq<Block<string>>,
    items: seq<string>,
    listType: Option<ListKind>,
    inCode: bool,
    code: seq<string>,
    language: string)

  const Start := RenderState([], [], None, false, [], "")

  predicate IsFence(line: string) {
    StartsWith(line, "```")
  }

  predicate AllDigits(s: string) {
    forall i :: 0 <= i < |s| ==> IsDigit(s[i])
  }

  /** How many digits `s` starts with. */
  function LeadingDigits(s: string): (n: nat)
    ensures n <= |s| && AllDigits(s[..n])
    ensures n < |s| ==> !IsDigit(s[n])
    decreases |s|
  {
    if s != [] && IsDigit(s[0]) then
      var n := 1 + LeadingDigits(s[1..]);
      assert s[..n] == [s[0]] + s[1..][..n - 1];
      n
    else 0
  }

  /** `n` is the length of a match of `^\d+\.\s` in `line`. */
  predicate IsOrderedMarker(line: string, n: int) {
    3 <= n <= |line| && AllDigits(line[..n - 2]) && line[n - 2] == '.' && IsWhiteSpace(line[n - 1])
  }

  /** `line.match(/^(\d+)\.\s/)`: the length of the whole match. The greedy digit run
      can only back off onto a digit, never onto the `.`, so the first non-digit is
      where the `.` must be. */
  function OrderedPrefix(line: string): (r: Option<nat>)
    ensures r.Some? ==> IsOrderedMarker(line, r.value)
  {
    var d := LeadingDigits(line);
    if 0 < d && d + 2 <= |line| && line[d] == '.' && IsWhiteSpace(line[d + 1]) then Some(d + 2)
    else None
  }

  /** The tests of the loop body, in source order. */
  function Classify(line: string): LineKind {
    if IsFence(line) then FenceLine(Trim(line[3..]))
    else if StartsWith(line, "### ") then HeadingLine(3, line[4..])
    else if StartsWith(line, "## ") then HeadingLine(2, line[3..])
    else if StartsWith(line, "> ") then QuoteLine(line[2..])
    else if StartsWith(line, "---") then RuleLine
    else if StartsWith(line, "- ") || StartsWith(line, "* ") then ItemLine(Unordered, line[2..])
    else if OrderedPrefix(line).Some? then ItemLine(Ordered, line[OrderedPrefix(line).value..])
    else if Trim(line) == "" then BlankLine
    else TextLine(line)
  }

  /** `line` is `p` followed by `text` exactly when it starts with `p` and `text` is the rest. */
  lemma Prefixed(line: string, p: string, text: string)
    ensures line == p + text <==> StartsWith(line, p) && line[|p|..] == text
  {
    if StartsWith(line, p) && line[|p|..] == text {
      assert line == line[..|p|] + line[|p|..];
    }
  }

  /** A line whose first character differs from that of `p` does not start with `p`. */
  lemma OtherMarker(line: string, p: string)
    requires p != "" && (line == "" || line[0] != p[0])
    ensures !StartsWith(line, p)
  {
    if line != "" && |p| <= |line| {
      assert line[..|p|][0] == line[0];
    }
  }

  /** An ordered-list marker starts with a digit. */
  lemma OrderedStartsWithDigit(line: string)
    requires OrderedPrefix(line).Some?
    ensures line != "" && IsDigit(line[0])
  {
    var n := OrderedPrefix(line).value;
    assert line[..n - 2][0] == line[0];
  }

  /** None of the markers tested before the ordered-list marker starts a line whose
      first character is not one of theirs. */
  lemma NoEarlierMarker(line: string)
    requires line == "" || (line[0] != '`' && line[0] != '#' && line[0] != '>' && line[0] != '-' && line[0] != '*')
    ensures !IsFence(line) && !StartsWith(line, "### ") && !StartsWith(line, "## ") && !StartsWith(line, "> ")
    ensures !StartsWith(line, "---") && !StartsWith(line, "- ") && !StartsWith(line, "* ")
  {
    OtherMarker(line, "```");
    OtherMarker(line, "### ");
    OtherMarker(line, "## ");
    OtherMarker(line, "> ");
    OtherMarker(line, "---");
    OtherMarker(line, "- ");
    OtherMarker(line, "* ");
  }

  // What each kind of line looks like: its marker followed by the text handed on,
  // in both directions.

  lemma ClassifyFence(line: string)
    ensures Classify(line).FenceLine? <==> IsFence(line)
    ensures IsFence(line) ==> Classify(line).language == Trim(line[3..])
  {
  }

  lemma ClassifyHeading(line: string, text: string)
    ensures Classify(line) == HeadingLine(3, text) <==> line == "### " + text
    ensures Classify(line) == HeadingLine(2, text) <==> line == "## " + text && !StartsWith(line, "### ")
    ensures Classify(line).HeadingLine? ==> Classify(line).level == 2 || Classify(line).level == 3
  {
    Prefixed(line, "### ", text);
    Prefixed(line, "## ", text);
    if line != "" && line[0] == '#' {
      OtherMarker(line, "```");
    }
  }

  lemma ClassifyQuote(line: string, text: string)
    ensures Classify(line) == QuoteLine(text) <==> line == "> " + text
  {
    Prefixed(line, "> ", text);
    if line != "" && line[0] == '>' {
      OtherMarker(line, "```");
      OtherMarker(line, "### ");
      OtherMarker(line, "## ");
    }
  }

  lemma ClassifyRule(line: string)
    ensures Classify(line) == RuleLine <==> StartsWith(line, "---")
  {
    if StartsWith(line, "---") {
      assert line[..3][0] == line[0];
      OtherMarker(line, "```");
      OtherMarker(line, "### ");
      OtherMarker(line, "## ");
      OtherMarker(line, "> ");
    }
  }

  lemma ClassifyUnordered(line: string, text: string)
    ensures Classify(line) == ItemLine(Unordered, text) <==> line == "- " + text || line == "* " + text
  {
    Prefixed(line, "- ", text);
    Prefixed(line, "* ", text);
    if line != "" && (line[0] == '-' || line[0] == '*') {
      OtherMarker(line, "```");
      OtherMarker(line, "### ");
      OtherMarker(line, "## ");
      OtherMarker(line, "> ");
    }
    if |line| >= 2 && line[1] == ' ' {
      assert !StartsWith(line, "---") by {
        OtherMarker(line[1..], "--");
      }
    }
  }

  lemma ClassifyOrdered(line: string, text: string)
    ensures Classify(line) == ItemLine(Ordered, text) <==>
              OrderedPrefix(line).Some? && text == line[OrderedPrefix(line).value..]
  {
    if OrderedPrefix(line).Some? {
      OrderedStartsWithDigit(line);
      NoEarlierMarker(line);
    }
  }

  lemma ClassifyBlank(line: string)
    ensures Classify(line) == BlankLine <==> AllWhiteSpace(line)
  {
    if AllWhiteSpace(line) {
      NoEarlierMarker(line);
      if OrderedPrefix(line).Some? {
        OrderedStartsWithDigit(line);
      }
    }
  }

  lemma ClassifyText(line: string)
    ensures Classify(line).TextLine? ==> Classify(line).text == line && !AllWhiteSpace(line)
  {
  }

  /** A line of the text together with how the loop body reads it. */
  datatype Line = Line(raw: string, kind: LineKind)

  /** Every line read by `Classify`; the loop body makes the same tests on each line
      as it reaches it. */
  function ClassifyLines(raws: seq<string>): (ls: seq<Line>)
    ensures |ls| == |raws|
    ensures forall i :: 0 <= i < |raws| ==> ls[i] == Line(raws[i], Classify(raws[i]))
    decreases |raws|
  {
    if raws == [] then []
    else
      var rest := ClassifyLines(raws[1..]);
      var ls := [Line(raws[0], Classify(raws[0]))] + rest;
      assert forall i :: 1 <= i < |raws| ==> ls[i] == rest[i - 1] && raws[i] == raws[1..][i - 1];
      ls
  }

  /** The raw text of each line. */
  function Raws(ls: seq<Line>): seq<string> {
    seq(|ls|, i requires 0 <= i < |ls| => ls[i].raw)
  }

  /** `flushList`: a non-empty open list becomes a list node and the list closes;
      with no items nothing happens at all. */
  function FlushList(st: RenderState): (r: RenderState)
    ensures r.inCode == st.inCode && r.code == st.code && r.language == st.language
    ensures r.items == [] && (st.items != [] ==> r.listType.None?)
    ensures st.items == [] ==> r == st
    ensures st.items != [] && st.listType.Some? ==> r.out == st.out + [List(st.listType.value, st.items)]
    ensures st.listType.None? ==> r.out == st.out
  {
    if |st.items| > 0 then
      var out := match st.listType
                 case Some(kind) => st.out + [List(kind, st.items)]
                 case None => st.out;
      st.(out := out, items := [], listType := None)
    else st
  }

  /** The state after emitting one node. */
  function Emit(st: RenderState, b: Block<string>): RenderState {
    st.(out := st.out + [b])
  }

  /** One iteration of the loop body. */
  function Step(st: RenderState, line: Line): RenderState {
    if line.kind.FenceLine? then
      var f := FlushList(st);
      if f.inCode then Emit(f, CodeBlock(f.language, f.code)).(inCode := false, code := [], language := "")
      else f.(inCode := true, language := line.kind.language)
    else if st.inCode then st.(code := st.code + [line.raw])
    else
      match line.kind
      case HeadingLine(level, text) => Emit(FlushList(st), Heading(level, text))
      case QuoteLine(text) => Emit(FlushList(st), Blockquote(text))
      case RuleLine => Emit(FlushList(st), Rule)
      case ItemLine(kind, text) =>
        var f := if st.listType != Some(kind) then FlushList(st).(listType := Some(kind)) else st;
        f.(items := f.items + [text])
      case BlankLine => FlushList(st)
      case TextLine(text) => Emit(FlushList(st), Paragraph(text))
  }

  /** The loop over `lines`, from state `st`. */
  function Run(st: RenderState, lines: seq<Line>): RenderState
    decreases |lines|
  {
    if lines == [] then st else Run(Step(st, lines[0]), lines[1..])
  }

  /** A node with its text run through the inline stage. */
  function InlineBlock(b: Block<string>): Block<seq<Span>> {
    match b
    case Heading(level, text) => Heading(level, ParseInline(text))
    case Blockquote(text) => Blockquote(ParseInline(text))
    case Rule => Rule
    case List(kind, items) => List(kind, seq(|items|, i requires 0 <= i < |items| => ParseInline(items[i])))
    case CodeBlock(language, lines) => CodeBlock(language, lines)
    case Paragraph(text) => Paragraph(ParseInline(text))
  }

  function InlineBlocks(bs: seq<Block<string>>): seq<Block<seq<Span>>> {
    seq(|bs|, i requires 0 <= i < |bs| => InlineBlock(bs[i]))
  }

  /** The nodes of `text` before the inline stage: the loop over its lines, then the
      final flush. */
  function RenderBlocks(text: string): seq<Block<string>> {
    FlushList(Run(Start, ClassifyLines(SplitLines(text)))).out
  }

  /** `renderMarkdown`. */
  function RenderMarkdown(text: string): seq<Block<seq<Span>>> {
    InlineBlocks(RenderBlocks(text))
  }

  // ---------------------------------------------------------------------------
  // The same output, described line group by line group

  /** Where the next fence line is in `lines`, if anywhere. */
  function NextFence(lines: seq<Line>): (r: Option<nat>)
    ensures r.Some? ==> r.value < |lines| && lines[r.value].kind.FenceLine?
    ensures r.Some? ==> forall i :: 0 <= i < r.value ==> !lines[i].kind.FenceLine?
    ensures r.None? ==> forall i :: 0 <= i < |lines| ==> !lines[i].kind.FenceLine?
    decreases |lines|
  {
    if lines == [] then None
    else if lines[0].kind.FenceLine? then Some(0)
    else match NextFence(lines[1..])
      case Some(i) => Some(i + 1)
      case None => None
  }

  predicate IsItemOf(line: Line, kind: ListKind) {
    line.kind.ItemLine? && line.kind.kind == kind
  }

  /** How many lines at the front of `lines` are list items of kind `kind`. */
  function ListRun(lines: seq<Line>, kind: ListKind): (n: nat)
    ensures n <= |lines|
    ensures forall i :: 0 <= i < n ==> IsItemOf(lines[i], kind)
    ensures n < |lines| ==> !IsItemOf(lines[n], kind)
    decreases |lines|
  {
    if lines != [] && IsItemOf(lines[0], kind) then 1 + ListRun(lines[1..], kind) else 0
  }

  /** The text each item line hands to the inline stage. */
  function ItemTexts(lines: seq<Line>): seq<string>
    requires forall i :: 0 <= i < |lines| ==> lines[i].kind.ItemLine?
  {
    seq(|lines|, i requires 0 <= i < |lines| => lines[i].kind.text)
  }

  /** The nodes a line that is neither a fence nor a list item makes by itself. */
  function OwnNodes(kind: LineKind): seq<Block<string>>
    requires !kind.FenceLine? && !kind.ItemLine?
  {
    match kind
    case HeadingLine(level, text) => [Heading(level, text)]
    case QuoteLine(text) => [Blockquote(text)]
    case RuleLine => [Rule]
    case BlankLine => []
    case TextLine(text) => [Paragraph(text)]
  }

  /** The renderer's output read as a grouping of the lines: a fence line opens a
      code block, a list item opens a list, a blank line shows nothing, and every
      other line is one node. */
  function Reference(lines: seq<Line>): seq<Block<string>>
    decreases |lines|, 1
  {
    if lines == [] then []
    else
      match lines[0].kind
      case FenceLine(language) => FenceGroup(language, [], lines[1..])
      case ItemLine(kind, text) => ListGroup(kind, [text], lines[1..])
      case _ => OwnNodes(lines[0].kind) + Reference(lines[1..])
  }

  /** A code block under `language` already holding `code`, followed by `lines`: the
      lines up to the next fence line are its further lines and the grouping goes on
      after that fence line; with no further fence line nothing more is shown. */
  function FenceGroup(language: string, code: seq<string>, lines: seq<Line>): seq<Block<string>>
    decreases |lines|, 0
  {
    match NextFence(lines)
    case Some(k) => [CodeBlock(language, code + Raws(lines[..k]))] + Reference(lines[k + 1..])
    case None => []
  }

  /** A list of kind `kind` already holding `items`, followed by `lines`: the maximal
      run of items of the same kind at the front of `lines` completes it. */
  function ListGroup(kind: ListKind, items: seq<string>, lines: seq<Line>): seq<Block<string>>
    decreases |lines|, 2
  {
    var n := ListRun(lines, kind);
    [List(kind, items + ItemTexts(lines[..n]))] + Reference(lines[n..])
  }
}
