/**
  Small outlines run through the block stage, each showing one rule of the
  renderer: a list closes when the marker kind changes or at a blank line, a fenced
  block keeps its line verbatim under the trimmed language, and a fence that is never
  closed hides what follows it. The item texts, the language and the code line are
  arbitrary single lines.
 */
module MarkdownExamples {
  import opened Wrappers
  import opened JsStrings
  import opened Markdown
  import opened MarkdownProofs

  /** A line that starts with none of the markers, not with a digit and not with
      white space is one paragraph of its own text. */
  lemma ClassifyProse(line: string)
    requires line != "" && !IsDigit(line[0]) && !IsWhiteSpace(line[0])
    requires line[0] != '`' && line[0] != '#' && line[0] != '>' && line[0] != '-' && line[0] != '*'
    ensures Classify(line) == TextLine(line)
  {
    NoEarlierMarker(line);
    assert LeadingDigits(line) == 0;
    assert !AllWhiteSpace(line);
  }

  /** The block stage of text made of the given lines: the reference grouping of
      the lines as classified. */
  lemma RenderJoined(raws: seq<string>, ls: seq<Line>)
    requires |raws| >= 1 && forall i :: 0 <= i < |raws| ==> '\n' !in raws[i]
    requires ClassifyLines(raws) == ls
    ensures RenderBlocks(JoinLines(raws)) == Reference(ls)
  {
    SplitJoinLines(raws);
    RenderIsReference(JoinLines(raws));
  }

  /** Three lines joined. */
  lemma JoinThree(raws: seq<string>)
    requires |raws| == 3
    ensures JoinLines(raws) == raws[0] + "\n" + raws[1] + "\n" + raws[2]
  {
    assert JoinLines(raws[1..]) == raws[1] + "\n" + raws[2] by {
      assert raws[1..][1..] == raws[2..];
    }
  }

  /** Three lines, each read on its own. */
  lemma ClassifyThree(raws: seq<string>, ls: seq<Line>)
    requires |raws| == 3 && |ls| == 3
    requires ls[0].raw == raws[0] && ls[1].raw == raws[1] && ls[2].raw == raws[2]
    requires Classify(raws[0]) == ls[0].kind && Classify(raws[1]) == ls[1].kind && Classify(raws[2]) == ls[2].kind
    ensures ClassifyLines(raws) == ls
  {
    assert ClassifyLines(raws[2..]) == ls[2..] by {
      assert raws[2..][1..] == [];
    }
    assert ClassifyLines(raws[1..]) == ls[1..] by {
      assert raws[1..][1..] == raws[2..] && ls[1..][1..] == ls[2..];
    }
  }

  /** Three lines of text render as the reference grouping of the three lines as
      classified. */
  lemma RenderThree(a: string, b: string, c: string)
    requires '\n' !in a && '\n' !in b && '\n' !in c
    ensures RenderBlocks(a + "\n" + b + "\n" + c)
            == Reference([Line(a, Classify(a)), Line(b, Classify(b)), Line(c, Classify(c))])
  {
    var raws := [a, b, c];
    JoinThree(raws);
    ClassifyThree(raws, [Line(a, Classify(a)), Line(b, Classify(b)), Line(c, Classify(c))]);
    RenderJoined(raws, [Line(a, Classify(a)), Line(b, Classify(b)), Line(c, Classify(c))]);
  }

  /** A marker followed by a newline-free text holds no newline. */
  lemma MarkedLine(marker: string, text: string)
    requires '\n' !in marker && '\n' !in text
    ensures '\n' !in marker + text
  {
  }

  // ---------------------------------------------------------------------------
  // A change of marker kind closes the list

  lemma KindChangeGrouping(ls: seq<Line>, a: string, b: string, c: string)
    requires |ls| == 3
    requires ls[0].kind == ItemLine(Unordered, a) && ls[1].kind == ItemLine(Unordered, b)
    requires ls[2].kind == ItemLine(Ordered, c)
    ensures Reference(ls) == [List(Unordered, [a, b]), List(Ordered, [c])]
  {
    var tail := ls[2..];
    assert Reference(ls) == ListGroup(Unordered, [a], ls[1..]);
    ListGroupTakes(Unordered, [a], ls[1..]);
    assert ls[1..][1..] == tail && [a] + [b] == [a, b];
    ListGroupCloses(Unordered, [a, b], tail);
    assert Reference(tail) == ListGroup(Ordered, [c], tail[1..]);
    ListGroupCloses(Ordered, [c], tail[1..]);
    assert Reference(tail[1..]) == [];
  }

  /** "1. " and a text is a numbered item of that text. */
  lemma ClassifyNumbered(line: string, text: string)
    requires line == "1. " + text
    ensures Classify(line) == ItemLine(Ordered, text)
  {
    assert LeadingDigits(line[1..]) == 0;
    assert LeadingDigits(line) == 1;
    ClassifyOrdered(line, text);
  }

  /** Two bullet items and then a numbered one: the switch of kind closes the bullet
      list and opens a numbered one. */
  lemma KindChangeSplitsList(a: string, b: string, c: string)
    requires '\n' !in a && '\n' !in b && '\n' !in c
    ensures RenderBlocks("- " + a + "\n" + "- " + b + "\n" + "1. " + c)
            == [List(Unordered, [a, b]), List(Ordered, [c])]
  {
    var x, y, z := "- " + a, "- " + b, "1. " + c;
    RenderMarked("- ", a, "- ", b, "1. ", c);
    ClassifyUnordered(x, a);
    ClassifyUnordered(y, b);
    ClassifyNumbered(z, c);
    KindChangeGrouping([Line(x, Classify(x)), Line(y, Classify(y)), Line(z, Classify(z))], a, b, c);
  }

  /** Three marked lines render as the reference grouping of the three lines as
      classified. */
  lemma RenderMarked(m: string, a: string, n: string, b: string, o: string, c: string)
    requires '\n' !in m && '\n' !in a && '\n' !in n && '\n' !in b && '\n' !in o && '\n' !in c
    ensures RenderBlocks(m + a + "\n" + n + b + "\n" + o + c)
            == Reference([Line(m + a, Classify(m + a)), Line(n + b, Classify(n + b)), Line(o + c, Classify(o + c))])
  {
    var x, y, z := m + a, n + b, o + c;
    MarkedLine(m, a);
    MarkedLine(n, b);
    MarkedLine(o, c);
    RenderThree(x, y, z);
    var u := x + "\n";
    Assoc(u, n, b);
    Assoc(u + n + b + "\n", o, c);
  }

  // ---------------------------------------------------------------------------
  // A blank line closes the list

  lemma BlankLineGrouping(ls: seq<Line>, a: string, b: string)
    requires |ls| == 3
    requires ls[0].kind == ItemLine(Unordered, a) && ls[1].kind == BlankLine
    requires ls[2].kind == ItemLine(Unordered, b)
    ensures Reference(ls) == [List(Unordered, [a]), List(Unordered, [b])]
  {
    var tail := ls[2..];
    ListGroupCloses(Unordered, [a], ls[1..]);
    assert ls[1..][1..] == tail;
    assert Reference(ls[1..]) == Reference(tail);
    ListGroupCloses(Unordered, [b], tail[1..]);
    assert Reference(tail[1..]) == [];
  }

  /** A blank line between two bullet items: two lists of one item each. */
  lemma BlankLineSplitsList(a: string, b: string)
    requires '\n' !in a && '\n' !in b
    ensures RenderBlocks("- " + a + "\n" + "" + "\n" + "- " + b) == [List(Unordered, [a]), List(Unordered, [b])]
  {
    var x, y := "- " + a, "- " + b;
    MarkedLine("- ", a);
    MarkedLine("- ", b);
    RenderThree(x, "", y);
    assert x + "\n" + "" + "\n" + y == "- " + a + "\n" + "" + "\n" + "- " + b by {
      var u := x + "\n" + "" + "\n";
      Assoc(u, "- ", b);
    }
    ClassifyUnordered(x, a);
    ClassifyBlank("");
    ClassifyUnordered(y, b);
    BlankLineGrouping([Line(x, Classify(x)), Line("", Classify("")), Line(y, Classify(y))], a, b);
  }

  // ---------------------------------------------------------------------------
  // Fenced blocks

  lemma FencedGrouping(ls: seq<Line>, language: string, code: string)
    requires |ls| == 3
    requires ls[0].kind == FenceLine(language) && !ls[1].kind.FenceLine? && ls[1].raw == code
    requires ls[2].kind.FenceLine?
    ensures Reference(ls) == [CodeBlock(language, [code])]
  {
    var tail := ls[2..];
    assert Reference(ls) == FenceGroup(language, [], ls[1..]);
    FenceGroupTakes(language, [], ls[1..]);
    assert ls[1..][1..] == tail && [] + [code] == [code];
    FenceGroupCloses(language, [code], tail);
    assert Reference(tail[1..]) == [];
  }

  /** A fence, one line of code and a closing fence: one code block whose language is
      the trimmed rest of the opening fence and whose content is the line as it is,
      whatever markers it holds. The closing fence may carry text of its own. */
  lemma FenceKeepsLines(language: string, code: string, close: string)
    requires '\n' !in language && '\n' !in code && '\n' !in close
    requires !IsFence(code) && IsFence(close)
    ensures RenderBlocks("```" + language + "\n" + code + "\n" + close) == [CodeBlock(Trim(language), [code])]
  {
    var open := "```" + language;
    MarkedLine("```", language);
    RenderThree(open, code, close);
    ClassifyFenceAs(open, language);
    ClassifyFence(code);
    ClassifyFence(close);
    FencedGrouping([Line(open, Classify(open)), Line(code, Classify(code)), Line(close, Classify(close))], Trim(language), code);
  }

  /** A fence line followed by `language` is read as a fence of the trimmed language. */
  lemma ClassifyFenceAs(line: string, language: string)
    requires line == "```" + language
    ensures Classify(line) == FenceLine(Trim(language))
  {
    ClassifyFence(line);
    assert line[3..] == language;
  }

  lemma UnclosedGrouping(ls: seq<Line>, prose: string)
    requires |ls| == 3
    requires ls[0].kind == TextLine(prose) && ls[1].kind.FenceLine? && !ls[2].kind.FenceLine?
    ensures Reference(ls) == [Paragraph(prose)]
  {
    var tail := ls[2..];
    assert ls[1..][1..] == tail;
    assert NextFence(tail[1..]) == None;
    assert NextFence(tail) == None;
    assert Reference(ls[1..]) == [];
  }

  /** A paragraph, a fence that is never closed and one more line: only the paragraph
      is shown. */
  lemma UnclosedFenceDropsRest(prose: string, fence: string, code: string)
    requires '\n' !in prose && '\n' !in fence && '\n' !in code
    requires IsFence(fence) && !IsFence(code)
    requires prose != "" && !IsDigit(prose[0]) && !IsWhiteSpace(prose[0])
    requires prose[0] != '`' && prose[0] != '#' && prose[0] != '>' && prose[0] != '-' && prose[0] != '*'
    ensures RenderBlocks(prose + "\n" + fence + "\n" + code) == [Paragraph(prose)]
  {
    RenderThree(prose, fence, code);
    ClassifyProse(prose);
    ClassifyFence(fence);
    ClassifyFence(code);
    UnclosedGrouping([Line(prose, Classify(prose)), Line(fence, Classify(fence)), Line(code, Classify(code))], prose);
  }
}
