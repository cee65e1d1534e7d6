/**
  What the block stage promises. The loop with its state record produces exactly
  the line grouping `Reference` describes; its state stays consistent (an open
  list always has items, a fence never holds list items); nothing it has emitted
  is taken back; and every node it emits is well formed.
 */
module MarkdownProofs {
  import opened Wrappers
  import opened JsStrings
  import opened InlineText
  import opened Markdown

  // ---------------------------------------------------------------------------
  // The ordered-list marker

  /** `OrderedPrefix` finds a match of `^\d+\.\s` exactly when there is one, and
      there is never more than one. */
  lemma OrderedPrefixIsMarker(line: string, n: nat)
    ensures OrderedPrefix(line) == Some(n) <==> IsOrderedMarker(line, n)
  {
    if IsOrderedMarker(line, n) {
      assert LeadingDigits(line) == n - 2;
    }
  }

  // ---------------------------------------------------------------------------
  // The state record

  /** What holds of the renderer's variables between any two lines: a list kind is
      set exactly while items are pending, no items are pending inside a fence, and
      outside a fence the code buffer and language are empty. */
  predicate Consistent(st: RenderState) {
    && (st.listType.Some? <==> st.items != [])
    && (st.inCode ==> st.items == [])
    && (!st.inCode ==> st.code == [] && st.language == "")
  }

  lemma StepKeepsConsistent(st: RenderState, line: Line)
    requires Consistent(st)
    ensures Consistent(Step(st, line))
  {
  }

  lemma {:induction false} RunKeepsConsistent(st: RenderState, lines: seq<Line>)
    requires Consistent(st)
    ensures Consistent(Run(st, lines))
    decreases |lines|
  {
    if lines != [] {
      StepKeepsConsistent(st, lines[0]);
      RunKeepsConsistent(Step(st, lines[0]), lines[1..]);
    }
  }

  /** Nodes once emitted stay: every step only appends to the output. */
  lemma {:induction false} RunExtendsOutput(st: RenderState, lines: seq<Line>)
    ensures st.out <= Run(st, lines).out
    decreases |lines|
  {
    if lines != [] {
      var next := Step(st, lines[0]);
      assert st.out <= next.out;
      RunExtendsOutput(next, lines[1..]);
    }
  }

  // ---------------------------------------------------------------------------
  // The groups of the reference grouping, one line at a time

  /** A fence line closes the code block with what it holds. */
  lemma FenceGroupCloses(language: string, code: seq<string>, lines: seq<Line>)
    requires lines != [] && lines[0].kind.FenceLine?
    ensures FenceGroup(language, code, lines) == [CodeBlock(language, code)] + Reference(lines[1..])
  {
    assert NextFence(lines) == Some(0);
    assert code + Raws(lines[..0]) == code;
  }

  /** Any other line joins the code block verbatim. */
  lemma FenceGroupTakes(language: string, code: seq<string>, lines: seq<Line>)
    requires lines != [] && !lines[0].kind.FenceLine?
    ensures FenceGroup(language, code, lines) == FenceGroup(language, code + [lines[0].raw], lines[1..])
  {
    var rest := lines[1..];
    match NextFence(rest)
    case Some(k) =>
      assert NextFence(lines) == Some(k + 1);
      assert Raws(lines[..k + 1]) == [lines[0].raw] + Raws(rest[..k]);
      Assoc(code, [lines[0].raw], Raws(rest[..k]));
      assert lines[k + 2..] == rest[k + 1..];
    case None =>
      assert NextFence(lines) == None;
  }

  /** A list closes at the end of the text and at any line that is not an item of
      its kind. */
  lemma ListGroupCloses(kind: ListKind, items: seq<string>, lines: seq<Line>)
    requires lines == [] || !IsItemOf(lines[0], kind)
    ensures ListGroup(kind, items, lines) == [List(kind, items)] + Reference(lines)
  {
    assert ListRun(lines, kind) == 0;
    assert items + ItemTexts(lines[..0]) == items;
  }

  /** An item of the list's kind adds its text to the list. */
  lemma ListGroupTakes(kind: ListKind, items: seq<string>, lines: seq<Line>)
    requires lines != [] && IsItemOf(lines[0], kind)
    ensures ListGroup(kind, items, lines) == ListGroup(kind, items + [lines[0].kind.text], lines[1..])
  {
    var rest := lines[1..];
    var n := ListRun(lines, kind);
    assert ListRun(rest, kind) == n - 1;
    assert ItemTexts(lines[..n]) == [lines[0].kind.text] + ItemTexts(rest[..n - 1]) by {
      assert rest[..n - 1] == lines[..n][1..];
    }
    Assoc(items, [lines[0].kind.text], ItemTexts(rest[..n - 1]));
    assert lines[n..] == rest[n - 1..];
  }

  // ---------------------------------------------------------------------------
  // The loop produces the reference grouping

  predicate Idle(st: RenderState) {
    !st.inCode && st.items == [] && st.listType.None? && st.code == [] && st.language == ""
  }

  predicate InList(st: RenderState, kind: ListKind) {
    !st.inCode && st.items != [] && st.listType == Some(kind) && st.code == [] && st.language == ""
  }

  predicate InFence(st: RenderState) {
    st.inCode && st.items == [] && st.listType.None?
  }

  /** From an idle state the rest of the output is the reference grouping of the
      rest of the lines. */
  lemma {:induction false} RunFromIdle(st: RenderState, lines: seq<Line>)
    requires Idle(st)
    ensures FlushList(Run(st, lines)).out == st.out + Reference(lines)
    decreases |lines|, 0
  {
    if lines == [] {
      assert st.out + [] == st.out;
    } else {
      var line, rest := lines[0], lines[1..];
      var next := Step(st, line);
      match line.kind
      case FenceLine(language) =>
        assert next == st.(inCode := true, language := language);
        RunInFence(next, rest);
      case ItemLine(kind, text) =>
        assert next == st.(items := [text], listType := Some(kind));
        RunInList(next, kind, rest);
      case _ =>
        assert next == st.(out := st.out + OwnNodes(line.kind));
        RunFromIdle(next, rest);
        Assoc(st.out, OwnNodes(line.kind), Reference(rest));
    }
  }

  /** Inside a fence the rest of the output is the open code block's group. */
  lemma {:induction false} RunInFence(st: RenderState, lines: seq<Line>)
    requires InFence(st)
    ensures FlushList(Run(st, lines)).out == st.out + FenceGroup(st.language, st.code, lines)
    decreases |lines|, 0
  {
    if lines == [] {
      assert st.out + [] == st.out;
    } else {
      var line, rest := lines[0], lines[1..];
      var next := Step(st, line);
      if line.kind.FenceLine? {
        var block := CodeBlock(st.language, st.code);
        assert next == st.(out := st.out + [block], inCode := false, code := [], language := "");
        RunFromIdle(next, rest);
        FenceGroupCloses(st.language, st.code, lines);
        Assoc(st.out, [block], Reference(rest));
      } else {
        assert next == st.(code := st.code + [line.raw]);
        RunInFence(next, rest);
        FenceGroupTakes(st.language, st.code, lines);
      }
    }
  }

  /** With a list open the rest of the output is the open list's group. */
  lemma {:induction false} RunInList(st: RenderState, kind: ListKind, lines: seq<Line>)
    requires InList(st, kind)
    ensures FlushList(Run(st, lines)).out == st.out + ListGroup(kind, st.items, lines)
    decreases |lines|, 1
  {
    var group := List(kind, st.items);
    if lines == [] {
      ListGroupCloses(kind, st.items, lines);
      assert st.out + [group] == st.out + ([group] + []);
    } else if IsItemOf(lines[0], kind) {
      var next := Step(st, lines[0]);
      assert next == st.(items := st.items + [lines[0].kind.text]);
      RunInList(next, kind, lines[1..]);
      ListGroupTakes(kind, st.items, lines);
    } else {
      var closed := FlushList(st);
      assert Idle(closed) && closed.out == st.out + [group];
      assert Step(st, lines[0]) == Step(closed, lines[0]);
      RunFromIdle(closed, lines);
      ListGroupCloses(kind, st.items, lines);
      Assoc(st.out, [group], Reference(lines));
    }
  }

  /** The renderer's nodes are the reference grouping of the text's lines. */
  lemma RenderIsReference(text: string)
    ensures RenderBlocks(text) == Reference(ClassifyLines(SplitLines(text)))
  {
    RunFromIdle(Start, ClassifyLines(SplitLines(text)));
  }

  /** `renderMarkdown`: node for node, the reference grouping of the text's lines with
      the text of every heading, quote, item and paragraph run through the inline stage. */
  lemma RenderMarkdownIsReference(text: string)
    ensures var groups := Reference(ClassifyLines(SplitLines(text)));
            |RenderMarkdown(text)| == |groups|
            && forall i :: 0 <= i < |groups| ==> RenderMarkdown(text)[i] == InlineBlock(groups[i])
  {
    RenderIsReference(text);
  }

  // ---------------------------------------------------------------------------
  // Well-formed output

  /** A list holds at least one item, headings are of level 2 or 3, and no line of a
      code block is itself a fence. */
  predicate WellFormed<C>(b: Block<C>) {
    match b
    case List(_, items) => items != []
    case Heading(level, _) => level == 2 || level == 3
    case CodeBlock(_, lines) => NoFences(lines)
    case _ => true
  }

  predicate NoFences(code: seq<string>) {
    forall i :: 0 <= i < |code| ==> !IsFence(code[i])
  }

  predicate AllWellFormed<C>(bs: seq<Block<C>>) {
    forall i :: 0 <= i < |bs| ==> WellFormed(bs[i])
  }

  lemma ConcatWellFormed<C>(a: seq<Block<C>>, b: seq<Block<C>>)
    requires AllWellFormed(a) && AllWellFormed(b)
    ensures AllWellFormed(a + b)
  {
  }

  /** What the classification guarantees of a line: it is read as a fence exactly
      when it starts with one, and a heading is of level 2 or 3. */
  predicate SoundKind(line: Line) {
    && (line.kind.FenceLine? <==> IsFence(line.raw))
    && (line.kind.HeadingLine? ==> line.kind.level == 2 || line.kind.level == 3)
  }

  predicate SoundKinds(lines: seq<Line>) {
    forall i :: 0 <= i < |lines| ==> SoundKind(lines[i])
  }

  lemma ClassifyLinesSound(raws: seq<string>)
    ensures SoundKinds(ClassifyLines(raws))
  {
    forall i | 0 <= i < |raws| ensures SoundKind(Line(raws[i], Classify(raws[i]))) {
      ClassifyFence(raws[i]);
      ClassifyHeading(raws[i], "");
    }
  }

  lemma SoundSuffix(lines: seq<Line>, j: nat)
    requires SoundKinds(lines) && j <= |lines|
    ensures SoundKinds(lines[j..])
  {
    forall i | 0 <= i < |lines[j..]| ensures SoundKind(lines[j..][i]) {
      assert lines[j..][i] == lines[j + i];
    }
  }

  lemma {:induction false} ReferenceWellFormed(lines: seq<Line>)
    requires SoundKinds(lines)
    ensures AllWellFormed(Reference(lines))
    decreases |lines|, 1
  {
    if lines != [] {
      SoundSuffix(lines, 1);
      var rest := lines[1..];
      match lines[0].kind
      case FenceLine(language) => FenceGroupWellFormed(language, [], rest);
      case ItemLine(kind, text) => ListGroupWellFormed(kind, [text], rest);
      case _ =>
        assert AllWellFormed(OwnNodes(lines[0].kind)) by {
          assert SoundKind(lines[0]);
        }
        ReferenceWellFormed(rest);
        ConcatWellFormed(OwnNodes(lines[0].kind), Reference(rest));
    }
  }

  lemma {:induction false} FenceGroupWellFormed(language: string, code: seq<string>, lines: seq<Line>)
    requires SoundKinds(lines) && NoFences(code)
    ensures AllWellFormed(FenceGroup(language, code, lines))
    decreases |lines|, 0
  {
    match NextFence(lines)
    case Some(k) =>
      var all := code + Raws(lines[..k]);
      assert NoFences(all) by {
        forall i | 0 <= i < |all| ensures !IsFence(all[i]) {
          if i >= |code| {
            assert all[i] == lines[i - |code|].raw;
            assert SoundKind(lines[i - |code|]);
          }
        }
      }
      SoundSuffix(lines, k + 1);
      ReferenceWellFormed(lines[k + 1..]);
      ConcatWellFormed([CodeBlock(language, all)], Reference(lines[k + 1..]));
    case None =>
  }

  lemma {:induction false} ListGroupWellFormed(kind: ListKind, items: seq<string>, lines: seq<Line>)
    requires SoundKinds(lines) && items != []
    ensures AllWellFormed(ListGroup(kind, items, lines))
    decreases |lines|, 2
  {
    var n := ListRun(lines, kind);
    SoundSuffix(lines, n);
    ReferenceWellFormed(lines[n..]);
    ConcatWellFormed([List(kind, items + ItemTexts(lines[..n]))], Reference(lines[n..]));
  }

  /** Every node the renderer emits is well formed. */
  lemma RenderWellFormed(text: string)
    ensures AllWellFormed(RenderBlocks(text))
  {
    RenderIsReference(text);
    ClassifyLinesSound(SplitLines(text));
    ReferenceWellFormed(ClassifyLines(SplitLines(text)));
  }
}
