/**
  What the inline stage promises. Its parts are the one and only leftmost-first
  split of the line and reassemble it; a matched part renders to a span whose
  source form is that part again, with the shortest possible content; text between
  matches renders as itself unless it happens to start and end like a delimiter.
 */
module InlineTextProofs {
  import opened Wrappers
  import opened JsStrings
  import opened InlineText

  /** The pattern matches at no position in [lo, hi) of `s`. */
  predicate NoMatchIn(s: string, lo: nat, hi: nat)
    requires lo <= hi <= |s|
  {
    forall r :: lo <= r < hi ==> MatchAt(s, r).None?
  }

  /** `ends[i]` is where the pattern's match at `i` ends, if it matches there. The
      split's properties are stated over such a table so that they can be read
      without re-running the matcher. */
  predicate IsMatchTable(s: string, ends: seq<Option<nat>>) {
    |ends| == |s| + 1 && forall i {:trigger MatchAt(s, i)} :: 0 <= i <= |s| ==> ends[i] == MatchAt(s, i)
  }

  function MatchTable(s: string): seq<Option<nat>> {
    seq(|s| + 1, i requires 0 <= i <= |s| => MatchAt(s, i))
  }

  /** No entry of the table in [lo, hi) is a match. */
  predicate NoEndIn(ends: seq<Option<nat>>, lo: nat, hi: nat)
    requires lo <= hi <= |ends|
  {
    forall r :: lo <= r < hi ==> ends[r].None?
  }

  /** `ps` is a leftmost-first split of `s[off..]` under the match table `ends`:
      non-empty parts that tile it, each matched part being exactly the match that
      starts where it starts, and each plain part holding no match start and
      running up to the next match or the end. */
  predicate LeftmostSplit(s: string, ends: seq<Option<nat>>, off: nat, ps: seq<Piece>)
    requires off <= |s| && |ends| == |s| + 1
    decreases |ps|
  {
    if ps == [] then off == |s|
    else
      var n := |ps[0].text|;
      && 0 < n && off + n <= |s|
      && s[off..off + n] == ps[0].text
      && (ps[0].Matched? ==> ends[off] == Some(off + n))
      && (ps[0].Plain? ==> NoEndIn(ends, off, off + n) && (|ps| > 1 ==> ps[1].Matched?))
      && LeftmostSplit(s, ends, off + n, ps[1..])
  }

  /** The texts of the parts, concatenated. */
  function Texts(ps: seq<Piece>): string
    decreases |ps|
  {
    if ps == [] then "" else ps[0].text + Texts(ps[1..])
  }

  /** A part's text with the delimiters of its span put back. */
  function SourceOf(span: Span): string {
    match span
    case Text(v) => v
    case Bold(v) => "**" + v + "**"
    case Code(v) => "`" + v + "`"
    case Link(l, u) => "[" + l + "](" + u + ")"
  }

  /** The source forms of the spans, concatenated. */
  function Sources(spans: seq<Span>): string
    decreases |spans|
  {
    if spans == [] then "" else SourceOf(spans[0]) + Sources(spans[1..])
  }

  /** Text the classifier reads as bold or code by its first and last characters. */
  predicate LooksDelimited(t: string) {
    (StartsWith(t, "**") && EndsWith(t, "**")) || (StartsWith(t, "`") && EndsWith(t, "`"))
  }

  /** The content of a span is what a lazy match leaves: no closing delimiter inside
      it, and no line terminator. */
  predicate IsShortest(span: Span) {
    match span
    case Text(_) => true
    case Bold(v) =>
      (forall m :: 0 <= m < |v| ==> !Occurs(v, m, "**")) && !EndsWith(v, "*") && NoTerminatorIn(v, 0, |v|)
    case Code(v) => '`' !in v && NoTerminatorIn(v, 0, |v|)
    case Link(l, u) =>
      (forall m :: 0 <= m < |l| ==> !Occurs(l, m, "](")) && NoTerminatorIn(l, 0, |l|)
      && ')' !in u && NoTerminatorIn(u, 0, |u|)
  }

  /** The link pattern read without backtracking: the label runs to the first `](`,
      the url to the first `)` after it. */
  function LinkDirect(s: string, j: nat): Option<LinkMatch>
    requires j <= |s|
  {
    match FindClose(s, j, "](")
    case None => None
    case Some(a) =>
      match FindClose(s, a + 2, ")")
      case None => None
      case Some(b) => Some(LinkMatch(a, b))
  }

  // ---------------------------------------------------------------------------
  // The split

  lemma {:induction false} DropEmptyAppend(a: seq<Piece>, b: seq<Piece>)
    ensures DropEmpty(a + b) == DropEmpty(a) + DropEmpty(b)
    decreases |a|
  {
    if a == [] {
      assert a + b == b;
    } else {
      assert (a + b)[1..] == a[1..] + b;
      DropEmptyAppend(a[1..], b);
    }
  }

  /** Every match the table records ends after it starts and inside `s`. */
  predicate EndsAfter(s: string, ends: seq<Option<nat>>) {
    |ends| == |s| + 1 && forall i :: 0 <= i <= |s| && ends[i].Some? ==> i < ends[i].value <= |s|
  }

  lemma MatchTableEndsAfter(s: string, ends: seq<Option<nat>>)
    requires IsMatchTable(s, ends)
    ensures EndsAfter(s, ends)
  {
    forall i | 0 <= i <= |s| && ends[i].Some? ensures i < ends[i].value <= |s| {
      assert ends[i] == MatchAt(s, i);
    }
  }

  /** The split of `SplitFrom`, with the match starts read off a table. */
  function SplitBy(s: string, ends: seq<Option<nat>>, p: nat, q: nat): seq<Piece>
    requires p <= q <= |s| && EndsAfter(s, ends)
    decreases |s| - q
  {
    if q == |s| then [Plain(s[p..])]
    else
      match ends[q]
      case Some(e) => [Plain(s[p..q]), Matched(s[q..e])] + SplitBy(s, ends, e, e)
      case None => SplitBy(s, ends, p, q + 1)
  }

  /** Over the table of the pattern's matches, the table-driven split is the split. */
  lemma {:induction false} SplitByMatchTable(s: string, ends: seq<Option<nat>>, p: nat, q: nat)
    requires p <= q <= |s| && IsMatchTable(s, ends) && EndsAfter(s, ends)
    ensures SplitBy(s, ends, p, q) == SplitFrom(s, p, q)
    decreases |s| - q
  {
    if q < |s| {
      assert ends[q] == MatchAt(s, q);
      if ends[q].Some? {
        SplitByMatchTable(s, ends, ends[q].value, ends[q].value);
      } else {
        SplitByMatchTable(s, ends, p, q + 1);
      }
    }
  }

  lemma DropEmptyPair(gap: string, m: string, rest: seq<Piece>)
    requires m != ""
    ensures DropEmpty([Plain(gap), Matched(m)] + rest)
            == (if gap == "" then [] else [Plain(gap)]) + [Matched(m)] + DropEmpty(rest)
  {
    DropEmptyAppend([Plain(gap), Matched(m)], rest);
    assert [Plain(gap), Matched(m)][1..] == [Matched(m)];
    assert DropEmpty([Matched(m)]) == [Matched(m)] + DropEmpty([]);
  }

  lemma LeftmostConsMatched(s: string, ends: seq<Option<nat>>, q: nat, e: nat, rest: seq<Piece>)
    requires q < e <= |s| && |ends| == |s| + 1 && ends[q] == Some(e)
    requires LeftmostSplit(s, ends, e, rest)
    ensures LeftmostSplit(s, ends, q, [Matched(s[q..e])] + rest)
  {
    assert ([Matched(s[q..e])] + rest)[1..] == rest;
  }

  lemma LeftmostConsPlain(s: string, ends: seq<Option<nat>>, p: nat, q: nat, rest: seq<Piece>)
    requires p < q <= |s| && |ends| == |s| + 1 && NoEndIn(ends, p, q)
    requires LeftmostSplit(s, ends, q, rest) && (rest != [] ==> rest[0].Matched?)
    ensures LeftmostSplit(s, ends, p, [Plain(s[p..q])] + rest)
  {
    assert ([Plain(s[p..q])] + rest)[1..] == rest;
  }

  lemma SplitEndIsLeftmost(s: string, ends: seq<Option<nat>>, p: nat)
    requires p <= |s| && EndsAfter(s, ends) && NoEndIn(ends, p, |s|)
    ensures LeftmostSplit(s, ends, p, DropEmpty(SplitBy(s, ends, p, |s|)))
  {
    assert DropEmpty([Plain(s[p..])]) == (if p == |s| then [] else [Plain(s[p..])]) + DropEmpty([]);
    if p < |s| {
      assert s[p..] == s[p..|s|];
      LeftmostConsPlain(s, ends, p, |s|, []);
    }
  }

  lemma ConsLeftmost(s: string, ends: seq<Option<nat>>, p: nat, q: nat, e: nat, rest: seq<Piece>)
    requires p <= q < e <= |s| && |ends| == |s| + 1 && NoEndIn(ends, p, q) && ends[q] == Some(e)
    requires LeftmostSplit(s, ends, e, rest)
    ensures LeftmostSplit(s, ends, p, (if p == q then [] else [Plain(s[p..q])]) + [Matched(s[q..e])] + rest)
  {
    LeftmostConsMatched(s, ends, q, e, rest);
    if p < q {
      LeftmostConsPlain(s, ends, p, q, [Matched(s[q..e])] + rest);
      assert [Plain(s[p..q])] + [Matched(s[q..e])] + rest == [Plain(s[p..q])] + ([Matched(s[q..e])] + rest);
    }
  }

  lemma SplitMatchIsLeftmost(s: string, ends: seq<Option<nat>>, p: nat, q: nat, e: nat)
    requires p <= q < e <= |s| && EndsAfter(s, ends) && NoEndIn(ends, p, q) && ends[q] == Some(e)
    requires LeftmostSplit(s, ends, e, DropEmpty(SplitBy(s, ends, e, e)))
    ensures LeftmostSplit(s, ends, p, DropEmpty(SplitBy(s, ends, p, q)))
  {
    assert SplitBy(s, ends, p, q) == [Plain(s[p..q]), Matched(s[q..e])] + SplitBy(s, ends, e, e);
    DropEmptyPair(s[p..q], s[q..e], SplitBy(s, ends, e, e));
    ConsLeftmost(s, ends, p, q, e, DropEmpty(SplitBy(s, ends, e, e)));
  }

  /** The table-driven split, empty parts dropped, is a leftmost-first split. */
  lemma {:induction false} SplitByIsLeftmost(s: string, ends: seq<Option<nat>>, p: nat, q: nat)
    requires p <= q <= |s| && EndsAfter(s, ends)
    requires NoEndIn(ends, p, q)
    ensures LeftmostSplit(s, ends, p, DropEmpty(SplitBy(s, ends, p, q)))
    decreases |s| - q
  {
    if q == |s| {
      SplitEndIsLeftmost(s, ends, p);
    } else if ends[q].Some? {
      var e := ends[q].value;
      SplitByIsLeftmost(s, ends, e, e);
      SplitMatchIsLeftmost(s, ends, p, q, e);
    } else {
      assert SplitBy(s, ends, p, q) == SplitBy(s, ends, p, q + 1);
      SplitByIsLeftmost(s, ends, p, q + 1);
    }
  }

  lemma {:induction false} LeftmostSplitUnique(s: string, ends: seq<Option<nat>>, off: nat, a: seq<Piece>, b: seq<Piece>)
    requires off <= |s| && |ends| == |s| + 1
    requires LeftmostSplit(s, ends, off, a) && LeftmostSplit(s, ends, off, b)
    ensures a == b
    decreases |a|
  {
    if a != [] && b != [] {
      var na, nb := |a[0].text|, |b[0].text|;
      assert na == nb;
      assert a[0] == b[0];
      LeftmostSplitUnique(s, ends, off + na, a[1..], b[1..]);
      assert a == [a[0]] + a[1..];
      assert b == [b[0]] + b[1..];
    }
  }

  lemma {:induction false} LeftmostSplitCovers(s: string, ends: seq<Option<nat>>, off: nat, ps: seq<Piece>)
    requires off <= |s| && |ends| == |s| + 1 && LeftmostSplit(s, ends, off, ps)
    ensures Texts(ps) == s[off..]
    decreases |ps|
  {
    if ps != [] {
      var n := |ps[0].text|;
      LeftmostSplitCovers(s, ends, off + n, ps[1..]);
      assert s[off..] == s[off..off + n] + s[off + n..];
    }
  }

  /** The parts of a line are its leftmost-first split (and there is only one such
      split), and they reassemble the line. */
  lemma PiecesAreLeftmostSplit(line: string)
    ensures LeftmostSplit(line, MatchTable(line), 0, Pieces(line))
    ensures Texts(Pieces(line)) == line
    ensures forall ps :: LeftmostSplit(line, MatchTable(line), 0, ps) ==> ps == Pieces(line)
  {
    var ends := MatchTable(line);
    MatchTableEndsAfter(line, ends);
    SplitByMatchTable(line, ends, 0, 0);
    SplitByIsLeftmost(line, ends, 0, 0);
    LeftmostSplitCovers(line, ends, 0, Pieces(line));
    forall ps | LeftmostSplit(line, ends, 0, ps) ensures ps == Pieces(line) {
      LeftmostSplitUnique(line, ends, 0, ps, Pieces(line));
    }
  }

  // ---------------------------------------------------------------------------
  // Lazy matching inside a window of the line

  lemma WindowSlice(s: string, p: nat, q: nat, a: nat, b: nat)
    requires p <= q <= |s| && a <= b <= q - p
    ensures s[p..q][a..b] == s[p + a..p + b]
  {
    forall i | 0 <= i < b - a ensures s[p..q][a..b][i] == s[p + a..p + b][i] {
      assert s[p..q][a..b][i] == s[p..q][a + i] == s[p + a + i];
    }
  }

  /** A match position `r` found in `s`, as seen from the window `s[p..q]`: the same
      place when the `n` characters there lie inside the window, nothing otherwise. */
  function Within(r: Option<nat>, p: nat, q: nat, n: nat): Option<nat> {
    if r.Some? && p <= r.value && r.value + n <= q then Some(r.value - p) else None
  }

  /** `t` is the text of `s` from `p` on, for `|t|` characters. */
  predicate IsWindow(s: string, p: nat, t: string) {
    p + |t| <= |s| && forall i :: 0 <= i < |t| ==> t[i] == s[p + i]
  }

  lemma SliceIsWindow(s: string, p: nat, q: nat)
    requires p <= q <= |s|
    ensures IsWindow(s, p, s[p..q])
  {
  }

  /** `d` occurs at `k` in a window exactly when it occurs at the same place in `s`. */
  lemma WindowOccurs(s: string, p: nat, t: string, k: nat, d: string)
    requires IsWindow(s, p, t) && k + |d| <= |t|
    ensures Occurs(t, k, d) <==> Occurs(s, p + k, d)
  {
    assert t[k..k + |d|] == s[p + k..p + k + |d|];
  }

  /** Matching `.*?d` inside a window finds what matching in `s` finds, when that lies
      inside the window, and nothing otherwise. */
  lemma {:induction false} FindCloseWindow(s: string, p: nat, t: string, j: nat, d: string)
    requires IsWindow(s, p, t) && j <= |t| && d != ""
    ensures FindClose(t, j, d) == Within(FindClose(s, p + j, d), p, p + |t|, |d|)
    decreases |t| - j
  {
    if j + |d| <= |t| {
      WindowOccurs(s, p, t, j, d);
    }
    if Occurs(t, j, d) {
      assert Occurs(s, p + j, d);
    } else if j < |t| && !IsLineTerminator(t[j]) {
      FindCloseWindow(s, p, t, j + 1, d);
      WindowSkip(s, p, t, j, d);
    } else {
      WindowStop(s, p, t, j, d);
    }
  }

  /** No `d` at `j` inside the window: both searches move on by one character. */
  lemma WindowSkip(s: string, p: nat, t: string, j: nat, d: string)
    requires IsWindow(s, p, t) && j < |t| && d != ""
    requires !Occurs(t, j, d) && !IsLineTerminator(t[j])
    requires j + |d| <= |t| ==> !Occurs(s, p + j, d)
    requires FindClose(t, j + 1, d) == Within(FindClose(s, p + j + 1, d), p, p + |t|, |d|)
    ensures FindClose(t, j, d) == Within(FindClose(s, p + j, d), p, p + |t|, |d|)
  {
    assert s[p + j] == t[j];
  }

  /** The window search stops at `j` without a match; what `s` finds from there does
      not fit in the window. */
  lemma WindowStop(s: string, p: nat, t: string, j: nat, d: string)
    requires IsWindow(s, p, t) && j <= |t| && d != ""
    requires !Occurs(t, j, d) && (j == |t| || IsLineTerminator(t[j]))
    requires j + |d| <= |t| ==> !Occurs(s, p + j, d)
    ensures FindClose(t, j, d) == None && Within(FindClose(s, p + j, d), p, p + |t|, |d|) == None
  {
    if j < |t| {
      assert s[p + j] == t[j];
    }
  }


  /** Once `.*?d` fails, starting it later over terminator-free text fails too. */
  lemma FindCloseStaysNone(s: string, x: nat, y: nat, d: string)
    requires x <= y <= |s| && d != ""
    requires FindClose(s, x, d).None? && NoTerminatorIn(s, x, y)
    ensures FindClose(s, y, d).None?
  {
    FindCloseIsLazy(s, x, d);
    FindCloseIsLazy(s, y, d);
  }

  /** When a `](` at `j` is not followed by a url and `)`, no later `](` is either. */
  lemma UnclosedUrlStaysUnclosed(s: string, j: nat)
    requires Occurs(s, j, "](") && FindClose(s, j + 2, ")").None?
    ensures LinkDirect(s, j + 1).None?
  {
    match FindClose(s, j + 1, "](")
    case None =>
    case Some(a) =>
      FindCloseIsLazy(s, j + 1, "](");
      assert s[j + 1..j + 2] == s[j..j + 2][1..];
      assert s[a..a + 2] == "](";
      assert s[a] == ']' && s[a + 1] == '(';
      assert NoTerminatorIn(s, j + 2, a + 2);
      FindCloseStaysNone(s, j + 2, a + 2, ")");
  }

  /** The backtracking link matcher finds exactly what the direct reading does: the
      label stops at the first `](`, the url at the first `)` after it. */
  lemma {:induction false} LinkTailIsDirect(s: string, j: nat)
    requires j <= |s|
    ensures LinkTail(s, j) == LinkDirect(s, j)
    decreases |s| - j, 1
  {
    if Occurs(s, j, "](") {
      LinkTailAtLabelEnd(s, j);
    } else if j < |s| && !IsLineTerminator(s[j]) {
      LinkTailIsDirect(s, j + 1);
      LinkTailSkips(s, j);
    }
  }

  /** Where no `](` starts, both readings move on by one character. */
  lemma LinkTailSkips(s: string, j: nat)
    requires j < |s| && !Occurs(s, j, "](") && !IsLineTerminator(s[j])
    requires LinkTail(s, j + 1) == LinkDirect(s, j + 1)
    ensures LinkTail(s, j) == LinkDirect(s, j)
  {
    assert FindClose(s, j, "](") == FindClose(s, j + 1, "](");
  }

  /** At a `](` the pattern takes the url when it closes, and otherwise moves on, where
      the direct reading finds nothing either. */
  lemma {:induction false} LinkTailAtLabelEnd(s: string, j: nat)
    requires j <= |s| && Occurs(s, j, "](")
    ensures LinkTail(s, j) == LinkDirect(s, j)
    decreases |s| - j, 0
  {
    assert FindClose(s, j, "](") == Some(j);
    if FindClose(s, j + 2, ")").None? {
      assert s[j..j + 2][0] == s[j];
      LinkTailIsDirect(s, j + 1);
      UnclosedUrlStaysUnclosed(s, j);
    }
  }


  /** A link match found in `s`, as seen from the window `s[p..q]`: the same groups
      when the closing `)` lies inside the window, nothing otherwise. */
  function LinkWithin(r: Option<LinkMatch>, p: nat, q: nat): Option<LinkMatch> {
    if r.Some? && p <= r.value.labelEnd <= r.value.urlEnd < q
    then Some(LinkMatch(r.value.labelEnd - p, r.value.urlEnd - p))
    else None
  }

  /** The direct link reading inside a window is the reading in `s`, as far as the
      window reaches. */
  lemma LinkDirectWindow(s: string, p: nat, t: string, j: nat)
    requires IsWindow(s, p, t) && j <= |t|
    ensures LinkDirect(t, j) == LinkWithin(LinkDirect(s, p + j), p, p + |t|)
  {
    FindCloseWindow(s, p, t, j, "](");
    var os := FindClose(s, p + j, "](");
    if os.Some? && os.value + 2 <= p + |t| {
      LinkLabelInWindow(s, p, t, j, os.value);
    } else {
      LinkLabelOutOfWindow(s, p, t, j);
    }
  }

  /** No `](` inside the window: no link there, and none in `s` that ends inside it. */
  lemma LinkLabelOutOfWindow(s: string, p: nat, t: string, j: nat)
    requires IsWindow(s, p, t) && j <= |t|
    requires FindClose(s, p + j, "](").None? || FindClose(s, p + j, "](").value + 2 > p + |t|
    ensures LinkDirect(t, j) == None && LinkWithin(LinkDirect(s, p + j), p, p + |t|) == None
  {
    FindCloseWindow(s, p, t, j, "](");
  }

  /** The `](` lies inside the window: the url is matched in both from the same place. */
  lemma LinkLabelInWindow(s: string, p: nat, t: string, j: nat, a: nat)
    requires IsWindow(s, p, t) && j <= |t|
    requires FindClose(s, p + j, "](") == Some(a) && a + 2 <= p + |t|
    ensures LinkDirect(t, j) == LinkWithin(LinkDirect(s, p + j), p, p + |t|)
  {
    var a' := a - p;
    FindCloseWindow(s, p, t, j, "](");
    assert FindClose(t, j, "](") == Some(a');
    UrlWindow(s, p, t, a, a');
    var b := FindClose(s, a + 2, ")");
    if b.Some? && b.value < p + |t| {
      var b' := b.value - p;
      assert FindClose(t, a' + 2, ")") == Some(b');
      LinkUrlInWindow(s, p, t, j, a, b.value, a', b');
      ShiftWithin(p, p + |t|, a, b.value, a', b');
    } else {
      assert FindClose(t, a' + 2, ")").None?;
      LinkUrlOutOfWindow(s, p, t, j, a, a');
    }
  }

  /** The url match after a `](` inside the window. */
  lemma UrlWindow(s: string, p: nat, t: string, a: nat, a': nat)
    requires IsWindow(s, p, t) && a == p + a' && a' + 2 <= |t|
    ensures FindClose(t, a' + 2, ")") == Within(FindClose(s, a + 2, ")"), p, p + |t|, 1)
  {
    FindCloseWindow(s, p, t, a' + 2, ")");
  }

  /** Both delimiters inside the window: the same link, shifted. */
  lemma LinkUrlInWindow(s: string, p: nat, t: string, j: nat, a: nat, b: nat, a': nat, b': nat)
    requires p + |t| <= |s| && j <= |t| && a == p + a' && b == p + b' && b' < |t|
    requires FindClose(s, p + j, "](") == Some(a) && FindClose(t, j, "](") == Some(a')
    requires FindClose(s, a + 2, ")") == Some(b) && FindClose(t, a' + 2, ")") == Some(b')
    ensures LinkDirect(t, j) == Some(LinkMatch(a', b')) && LinkDirect(s, p + j) == Some(LinkMatch(a, b))
  {
  }

  /** A match inside the window, seen from it. */
  lemma ShiftWithin(p: nat, q: nat, a: nat, b: nat, a': nat, b': nat)
    requires a == p + a' && b == p + b' && a <= b < q
    ensures LinkWithin(Some(LinkMatch(a, b)), p, q) == Some(LinkMatch(a', b'))
  {
  }

  /** The `)` is missing or lies past the window: no link inside it. */
  lemma LinkUrlOutOfWindow(s: string, p: nat, t: string, j: nat, a: nat, a': nat)
    requires p + |t| <= |s| && j <= |t| && a == p + a' && a' + 2 <= |t|
    requires FindClose(s, p + j, "](") == Some(a) && FindClose(t, j, "](") == Some(a')
    requires FindClose(t, a' + 2, ")").None?
    requires FindClose(s, a + 2, ")").None? || FindClose(s, a + 2, ")").value >= p + |t|
    ensures LinkDirect(t, j) == None && LinkWithin(LinkDirect(s, p + j), p, p + |t|) == None
  {
  }

  /** The link pattern after `[`, inside a window, is the one in `s` as far as the
      window reaches. */
  lemma LinkTailWindow(s: string, p: nat, t: string, j: nat)
    requires IsWindow(s, p, t) && j <= |t|
    ensures LinkTail(t, j) == LinkWithin(LinkTail(s, p + j), p, p + |t|)
  {
    LinkTailIsDirect(t, j);
    LinkTailIsDirect(s, p + j);
    LinkDirectWindow(s, p, t, j);
  }

  /** The link pattern inside a window: a match there is a match in `s`, and a match in
      `s` that ends inside the window is found there with the same groups. */
  lemma LinkAtWindow(s: string, p: nat, t: string, i: nat)
    requires IsWindow(s, p, t) && i <= |t|
    ensures LinkAt(t, i) == LinkWithin(LinkAt(s, p + i), p, p + |t|)
  {
    if i < |t| {
      assert t[i] == s[p + i];
      if t[i] == '[' {
        LinkTailWindow(s, p, t, i + 1);
      }
    }
  }

  // ---------------------------------------------------------------------------
  // The delimiters of a match, character by character

  lemma OccursChar(s: string, k: int, d: string)
    requires |d| == 1
    ensures Occurs(s, k, d) <==> 0 <= k < |s| && s[k] == d[0]
  {
    if 0 <= k < |s| {
      assert s[k..k + 1] == [s[k]];
    }
  }

  lemma OccursPair(s: string, k: int, d: string)
    requires |d| == 2
    ensures Occurs(s, k, d) <==> 0 <= k && k + 2 <= |s| && s[k] == d[0] && s[k + 1] == d[1]
  {
    if 0 <= k && k + 2 <= |s| {
      assert s[k..k + 2] == [s[k], s[k + 1]];
      assert d == [d[0], d[1]];
    }
  }

  lemma BoldMatchChars(s: string, q: nat, e: nat)
    requires q <= |s| && BoldAt(s, q) == Some(e)
    ensures q + 4 <= e <= |s|
    ensures s[q] == '*' && s[q + 1] == '*' && s[e - 2] == '*' && s[e - 1] == '*'
  {
    FindCloseIsLazy(s, q + 2, "**");
    OccursPair(s, q, "**");
    OccursPair(s, e - 2, "**");
  }

  lemma CodeMatchChars(s: string, q: nat, e: nat)
    requires q <= |s| && CodeAt(s, q) == Some(e)
    ensures q + 2 <= e <= |s|
    ensures s[q] == '`' && s[e - 1] == '`'
  {
    FindCloseIsLazy(s, q + 1, "`");
    OccursChar(s, q, "`");
    OccursChar(s, e - 1, "`");
  }

  /** The link match is the direct reading: both lazy groups stop at their first delimiter. */
  lemma LinkMatchIsLazy(s: string, q: nat, m: LinkMatch)
    requires q <= |s| && LinkAt(s, q) == Some(m)
    ensures IsLazyStop(s, q + 1, "](", m.labelEnd) && IsLazyStop(s, m.labelEnd + 2, ")", m.urlEnd)
  {
    LinkTailIsDirect(s, q + 1);
    FindCloseIsLazy(s, q + 1, "](");
    FindCloseIsLazy(s, m.labelEnd + 2, ")");
  }

  lemma LinkMatchChars(s: string, q: nat, m: LinkMatch)
    requires q <= |s| && LinkAt(s, q) == Some(m)
    ensures q + 1 <= m.labelEnd && m.labelEnd + 2 <= m.urlEnd < |s|
    ensures s[q] == '[' && s[m.labelEnd] == ']' && s[m.labelEnd + 1] == '(' && s[m.urlEnd] == ')'
  {
    LinkMatchIsLazy(s, q, m);
    OccursPair(s, m.labelEnd, "](");
    OccursChar(s, m.urlEnd, ")");
  }

  // ---------------------------------------------------------------------------
  // Classifying the parts

  /** The characters of `s[lo..hi]` are those of `s` from `lo` on. */
  lemma InfixAt(s: string, lo: nat, hi: nat, m: nat)
    requires lo <= hi <= |s| && m < hi - lo
    ensures s[lo..hi][m] == s[lo + m]
  {
  }

  /** What a lazy `.*?d` consumed holds no `d` and no line terminator. */
  lemma LazyContent(s: string, j: nat, d: string, k: nat)
    requires IsLazyStop(s, j, d, k)
    ensures forall x :: 0 <= x < k - j ==> !Occurs(s[j..k], x, d)
    ensures NoTerminatorIn(s[j..k], 0, k - j)
  {
    var v := s[j..k];
    forall x | 0 <= x < k - j ensures !Occurs(v, x, d) {
      if Occurs(v, x, d) {
        WindowSlice(s, j, k, x, x + |d|);
        assert Occurs(s, j + x, d);
      }
    }
    forall x | 0 <= x < k - j ensures !IsLineTerminator(v[x]) {
      assert v[x] == s[j + x];
    }
  }

  lemma BoldPartShape(s: string, q: nat, e: nat)
    requires q <= |s| && BoldAt(s, q) == Some(e)
    ensures q + 4 <= e <= |s|
    ensures StartsWith(s[q..e], "**") && EndsWith(s[q..e], "**")
    ensures Slice(s[q..e], 2, -2) == s[q + 2..e - 2]
    ensures s[q..e] == "**" + s[q + 2..e - 2] + "**"
  {
    BoldMatchChars(s, q, e);
    var t := s[q..e];
    assert t[..2] == "**";
    assert t[|t| - 2..] == "**";
    SliceStripsBothEnds(t, 2);
    WindowSlice(s, q, e, 2, |t| - 2);
  }

  lemma BoldPartShortest(s: string, q: nat, e: nat)
    requires q <= |s| && BoldAt(s, q) == Some(e)
    ensures q + 4 <= e <= |s|
    ensures IsShortest(Bold(s[q + 2..e - 2]))
  {
    BoldMatchChars(s, q, e);
    FindCloseIsLazy(s, q + 2, "**");
    LazyContent(s, q + 2, "**", e - 2);
    BoldContentEnd(s, q, e);
  }

  /** The content of a bold match does not end in `*`: a `**` would have closed the
      match one character earlier. */
  lemma BoldContentEnd(s: string, q: nat, e: nat)
    requires q <= |s| && BoldAt(s, q) == Some(e)
    ensures q + 4 <= e <= |s| && !EndsWith(s[q + 2..e - 2], "*")
  {
    BoldMatchChars(s, q, e);
    var k := e - 2;
    FindCloseIsLazy(s, q + 2, "**");
    var v := s[q + 2..k];
    if EndsWith(v, "*") {
      assert v[|v| - 1] == v[|v| - 1..][0] == '*';
      assert s[k - 1] == v[|v| - 1];
      OccursPair(s, k - 1, "**");
    }
  }


  lemma CodePartShape(s: string, q: nat, e: nat)
    requires q <= |s| && CodeAt(s, q) == Some(e)
    ensures q + 2 <= e <= |s|
    ensures StartsWith(s[q..e], "`") && EndsWith(s[q..e], "`") && !StartsWith(s[q..e], "**")
    ensures Slice(s[q..e], 1, -1) == s[q + 1..e - 1]
    ensures s[q..e] == "`" + s[q + 1..e - 1] + "`"
  {
    CodeMatchChars(s, q, e);
    var t := s[q..e];
    assert t[..1] == "`";
    assert t[|t| - 1..] == "`";
    assert t[0] == '`';
    SliceStripsBothEnds(t, 1);
    WindowSlice(s, q, e, 1, |t| - 1);
  }

  lemma CodePartShortest(s: string, q: nat, e: nat)
    requires q <= |s| && CodeAt(s, q) == Some(e)
    ensures q + 2 <= e <= |s|
    ensures IsShortest(Code(s[q + 1..e - 1]))
  {
    CodeMatchChars(s, q, e);
    FindCloseIsLazy(s, q + 1, "`");
    LazyContent(s, q + 1, "`", e - 1);
    var v := s[q + 1..e - 1];
    forall x | 0 <= x < |v| ensures v[x] != '`' {
      OccursChar(v, x, "`");
    }
  }

  lemma LinkPartShape(s: string, q: nat, m: LinkMatch)
    requires q <= |s| && LinkAt(s, q) == Some(m)
    ensures FirstLink(s[q..m.urlEnd + 1], 0).Some?
    ensures var (i, m') := FirstLink(s[q..m.urlEnd + 1], 0).value;
              i == 0 && m'.labelEnd + q == m.labelEnd && m'.urlEnd + q == m.urlEnd
    ensures !StartsWith(s[q..m.urlEnd + 1], "**") && !StartsWith(s[q..m.urlEnd + 1], "`")
  {
    var e := m.urlEnd + 1;
    var t := s[q..e];
    SliceIsWindow(s, q, e);
    LinkAtWindow(s, q, t, 0);
    assert t[0] == '[';
  }

  lemma LinkPartShortest(s: string, q: nat, m: LinkMatch)
    requires q <= |s| && LinkAt(s, q) == Some(m)
    ensures IsShortest(Link(s[q + 1..m.labelEnd], s[m.labelEnd + 2..m.urlEnd]))
  {
    var a, b := m.labelEnd, m.urlEnd;
    LinkMatchIsLazy(s, q, m);
    LazyContent(s, q + 1, "](", a);
    LazyContent(s, a + 2, ")", b);
    var u := s[a + 2..b];
    forall x | 0 <= x < |u| ensures u[x] != ')' {
      OccursChar(u, x, ")");
    }
  }

  /** A part that renders to a delimited span whose source form is the part itself,
      with the shortest content the pattern allows. */
  predicate RendersBack(t: string) {
    SourceOf(SpanOf(t)) == t && !SpanOf(t).Text? && IsShortest(SpanOf(t))
  }

  lemma BoldPartSpan(s: string, q: nat, e: nat)
    requires q <= |s| && BoldAt(s, q) == Some(e)
    ensures q < e <= |s|
    ensures SpanOf(s[q..e]) == Bold(s[q + 2..e - 2])
    ensures RendersBack(s[q..e])
  {
    BoldPartShape(s, q, e);
    BoldPartShortest(s, q, e);
  }

  lemma CodePartSpan(s: string, q: nat, e: nat)
    requires q <= |s| && CodeAt(s, q) == Some(e)
    ensures q < e <= |s|
    ensures SpanOf(s[q..e]) == Code(s[q + 1..e - 1])
    ensures RendersBack(s[q..e])
  {
    CodePartShape(s, q, e);
    CodePartShortest(s, q, e);
  }

  lemma LinkPartSpan(s: string, q: nat, m: LinkMatch, e: nat)
    requires q <= |s| && LinkAt(s, q) == Some(m) && e == m.urlEnd + 1
    ensures SpanOf(s[q..e]) == Link(s[q + 1..m.labelEnd], s[m.labelEnd + 2..m.urlEnd])
    ensures RendersBack(s[q..e])
  {
    LinkPartShape(s, q, m);
    var t := s[q..m.urlEnd + 1];
    var (_, m') := FirstLink(t, 0).value;
    WindowSlice(s, q, m.urlEnd + 1, 1, m'.labelEnd);
    WindowSlice(s, q, m.urlEnd + 1, m'.labelEnd + 2, m'.urlEnd);
    LinkPartShortest(s, q, m);
    LinkPartSource(s, q, m);
  }

  /** A matched part renders to bold, code or a link (never plain text) whose source
      form is the part itself and whose content is the shortest the pattern allows. */
  lemma MatchedPartSpan(s: string, q: nat, e: nat)
    requires q <= |s| && MatchAt(s, q) == Some(e)
    ensures q < e <= |s|
    ensures RendersBack(s[q..e])
  {
    if BoldAt(s, q).Some? {
      BoldPartSpan(s, q, e);
    } else if CodeAt(s, q).Some? {
      CodePartSpan(s, q, e);
    } else {
      assert LinkAt(s, q).Some? && e == LinkAt(s, q).value.urlEnd + 1;
      LinkPartSpan(s, q, LinkAt(s, q).value, e);
    }
  }

  lemma LinkPartSource(s: string, q: nat, m: LinkMatch)
    requires q <= |s| && LinkAt(s, q) == Some(m)
    ensures s[q..m.urlEnd + 1] == "[" + s[q + 1..m.labelEnd] + "](" + s[m.labelEnd + 2..m.urlEnd] + ")"
  {
    LinkMatchChars(s, q, m);
    var a, b := m.labelEnd, m.urlEnd;
    assert s[q..b + 1] == s[q..q + 1] + s[q + 1..a] + s[a..a + 2] + s[a + 2..b] + s[b..b + 1];
    assert s[q..q + 1] == "[";
    assert s[a..a + 2] == "](";
    assert s[b..b + 1] == ")";
  }

  /** Text in which the pattern matches nowhere renders as itself, unless it starts
      and ends like a bold or code delimiter. */
  lemma PlainPartSpan(s: string, p: nat, q: nat)
    requires p <= q <= |s| && NoMatchIn(s, p, q) && !LooksDelimited(s[p..q])
    ensures SpanOf(s[p..q]) == Text(s[p..q])
  {
    var t := s[p..q];
    forall i | 0 <= i <= |t| ensures LinkAt(t, i).None? {
      SliceIsWindow(s, p, q);
      LinkAtWindow(s, p, t, i);
      if i < |t| {
        assert MatchAt(s, p + i).None?;
      }
    }
  }

  /** A matched part renders back to itself; a plain part that does not look
      delimited is plain text. */
  predicate PartRenders(part: Piece) {
    && (part.Matched? ==> RendersBack(part.text))
    && (part.Plain? && !LooksDelimited(part.text) ==> SpanOf(part.text) == Text(part.text))
  }

  lemma FirstPartSpan(s: string, ends: seq<Option<nat>>, off: nat, ps: seq<Piece>)
    requires off <= |s| && IsMatchTable(s, ends) && LeftmostSplit(s, ends, off, ps) && ps != []
    ensures PartRenders(ps[0])
  {
    var n := |ps[0].text|;
    if ps[0].Matched? {
      assert ends[off] == MatchAt(s, off);
      MatchedPartSpan(s, off, off + n);
    } else if !LooksDelimited(ps[0].text) {
      forall r | off <= r < off + n ensures MatchAt(s, r).None? {
        assert ends[r] == MatchAt(s, r);
      }
      PlainPartSpan(s, off, off + n);
    }
  }

  lemma {:induction false} SpansOfLeftmostSplit(s: string, ends: seq<Option<nat>>, off: nat, ps: seq<Piece>)
    requires off <= |s| && IsMatchTable(s, ends) && LeftmostSplit(s, ends, off, ps)
    ensures forall k :: 0 <= k < |ps| ==> PartRenders(ps[k])
    decreases |ps|
  {
    if ps != [] {
      FirstPartSpan(s, ends, off, ps);
      var next := LeftmostSplitRest(s, ends, off, ps);
      SpansOfLeftmostSplit(s, ends, next, ps[1..]);
      forall k | 1 <= k < |ps| ensures ps[k] == ps[1..][k - 1] { }
    }
  }

  /** The parts after the first split the text after the first part. */
  lemma LeftmostSplitRest(s: string, ends: seq<Option<nat>>, off: nat, ps: seq<Piece>) returns (next: nat)
    requires off <= |s| && |ends| == |s| + 1 && LeftmostSplit(s, ends, off, ps) && ps != []
    ensures next == off + |ps[0].text| && next <= |s| && LeftmostSplit(s, ends, next, ps[1..])
  {
    next := off + |ps[0].text|;
  }

  /** Every span of a line: a matched part gives bold, code or a link whose source
      form is that part; any other part gives plain text unless it looks delimited. */
  lemma ParseInlineSpans(line: string)
    ensures |ParseInline(line)| == |Pieces(line)|
    ensures forall k :: 0 <= k < |Pieces(line)| && Pieces(line)[k].Matched? ==>
              SourceOf(ParseInline(line)[k]) == Pieces(line)[k].text
              && !ParseInline(line)[k].Text? && IsShortest(ParseInline(line)[k])
    ensures forall k :: 0 <= k < |Pieces(line)| && Pieces(line)[k].Plain?
                        && !LooksDelimited(Pieces(line)[k].text) ==>
              ParseInline(line)[k] == Text(Pieces(line)[k].text)
  {
    PiecesAreLeftmostSplit(line);
    SpansOfLeftmostSplit(line, MatchTable(line), 0, Pieces(line));
  }

  lemma {:induction false} SourcesOfClassified(ps: seq<Piece>)
    requires forall k :: 0 <= k < |ps| ==> SourceOf(SpanOf(ps[k].text)) == ps[k].text
    ensures Sources(seq(|ps|, k requires 0 <= k < |ps| => SpanOf(ps[k].text))) == Texts(ps)
    decreases |ps|
  {
    if ps != [] {
      var spans := seq(|ps|, k requires 0 <= k < |ps| => SpanOf(ps[k].text));
      var tail := ps[1..];
      assert spans[1..] == seq(|tail|, k requires 0 <= k < |tail| => SpanOf(tail[k].text));
      SourcesOfClassified(tail);
    }
  }

  /** Putting the delimiters back around the spans of a line gives the line again,
      provided no text between matches starts and ends like a delimiter. */
  lemma InlineRoundTrip(line: string)
    requires forall k :: 0 <= k < |Pieces(line)| && Pieces(line)[k].Plain? ==>
               !LooksDelimited(Pieces(line)[k].text)
    ensures Sources(ParseInline(line)) == line
  {
    var ps := Pieces(line);
    PiecesAreLeftmostSplit(line);
    SpansOfLeftmostSplit(line, MatchTable(line), 0, ps);
    SourcesOfClassified(ps);
  }

  /** A line in which no delimiter pair completes is one part, and renders as plain
      text unless it starts and ends like a delimiter. */
  lemma NoPairIsOneText(line: string)
    requires line != "" && NoMatchIn(line, 0, |line|)
    ensures Pieces(line) == [Plain(line)]
    ensures !LooksDelimited(line) ==> ParseInline(line) == [Text(line)]
  {
    assert line[0..|line|] == line;
    assert [Plain(line)][1..] == [];
    var ends := MatchTable(line);
    forall r | 0 <= r < |line| ensures ends[r].None? {
      assert ends[r] == MatchAt(line, r);
    }
    assert LeftmostSplit(line, ends, 0, [Plain(line)]);
    PiecesAreLeftmostSplit(line);
    if !LooksDelimited(line) {
      PlainPartSpan(line, 0, |line|);
    }
  }

  /** Where the character is none of `*`, a backtick or `[`, no alternative can start. */
  lemma NoOpenerNoMatch(s: string, r: nat)
    requires r < |s| && s[r] != '*' && s[r] != '`' && s[r] != '['
    ensures MatchAt(s, r).None?
  {
    OccursPair(s, r, "**");
    OccursChar(s, r, "`");
  }

  /** Prose without `*`, backticks or `[` renders as a single plain-text span. */
  lemma ProseIsText(line: string)
    requires line != ""
    requires '*' !in line && '`' !in line && '[' !in line
    ensures ParseInline(line) == [Text(line)]
  {
    forall r | 0 <= r < |line| ensures MatchAt(line, r).None? {
      NoOpenerNoMatch(line, r);
    }
    assert line[0] != '*' && line[0] != '`';
    NoPairIsOneText(line);
  }

  /** `a ** b` has no closing `**`: one plain-text span, the whole line. */
  lemma StrayMarkerIsText()
    ensures ParseInline("a ** b") == [Text("a ** b")]
  {
    var s := "a ** b";
    forall r | 0 <= r < |s| ensures MatchAt(s, r).None? {
      if r == 2 {
        OccursPair(s, 4, "**");
        OccursPair(s, 5, "**");
        OccursPair(s, 6, "**");
        assert FindClose(s, 6, "**").None?;
        assert FindClose(s, 4, "**").None?;
        OccursChar(s, 2, "`");
      } else if r == 3 {
        OccursPair(s, 3, "**");
        OccursChar(s, 3, "`");
      } else {
        NoOpenerNoMatch(s, r);
      }
    }
    assert s[..1] == "a";
    NoPairIsOneText(s);
  }

  /** A line that is only `**` is one part that passes the bold test, so it renders
      as an empty bold span rather than as text. */
  lemma LoneMarkerIsEmptyBold()
    ensures ParseInline("**") == [Bold("")]
    ensures Sources(ParseInline("**")) != "**"
  {
    var s := "**";
    OccursPair(s, 2, "**");
    assert FindClose(s, 2, "**").None?;
    OccursChar(s, 0, "`");
    assert MatchAt(s, 0).None?;
    OccursPair(s, 1, "**");
    OccursChar(s, 1, "`");
    assert MatchAt(s, 1).None?;
    NoPairIsOneText(s);
    assert s[..2] == "**" && s[|s| - 2..] == "**";
    assert Slice(s, 2, -2) == "";
    assert Sources([Bold("")]) == "****" + Sources([]);
  }

  /** A line that the pattern matches as a whole, from its first character, is a
      single matched part. */
  lemma WholeLineMatch(line: string)
    requires line != [] && MatchAt(line, 0) == Some(|line|)
    ensures Pieces(line) == [Matched(line)]
  {
    assert line[0..|line|] == line;
    assert [Matched(line)][1..] == [];
    assert LeftmostSplit(line, MatchTable(line), 0, [Matched(line)]);
    PiecesAreLeftmostSplit(line);
  }

  /** The bold alternative is tried before the code one, and a bold span's content
      is not parsed further: `**`x`**` is bold holding the backticks literally. */
  lemma BoldKeepsBackticks()
    ensures ParseInline("**`x`**") == [Bold("`x`")]
  {
    var s := "**`x`**";
    BacktickBoldMatch(s);
    WholeLineMatch(s);
    BacktickBoldSpan(s);
  }

  lemma BacktickBoldSpan(s: string)
    requires s == "**`x`**"
    ensures SpanOf(s) == Bold("`x`")
  {
    assert s == "**" + "`x`" + "**";
    BoldSpanOf("`x`", s);
  }

  lemma BacktickBoldMatch(s: string)
    requires s == "**`x`**"
    ensures MatchAt(s, 0) == Some(|s|)
  {
    OccursPair(s, 0, "**");
    OccursPair(s, 2, "**");
    OccursPair(s, 3, "**");
    OccursPair(s, 4, "**");
    OccursPair(s, 5, "**");
    assert FindClose(s, 5, "**") == Some(5);
    assert FindClose(s, 4, "**") == Some(5);
    assert FindClose(s, 3, "**") == Some(5);
    assert FindClose(s, 2, "**") == Some(5);
  }

  /** A part made of `**`, any text and `**` is classified as bold of that text. */
  lemma BoldSpanOf(v: string, part: string)
    requires part == "**" + v + "**"
    ensures SpanOf(part) == Bold(v)
  {
    assert part[..2] == "**";
    assert part[|part| - 2..] == "**";
    assert part[2..|part| - 2] == v;
  }
}
