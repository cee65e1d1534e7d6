/**
  The inline stage of the renderer (`parseInlineText`). One line is split on the
  alternation `\*\*.*?\*\*|`.*?`|\[.*?\]\(.*?\)` the way `String.prototype.split`
  splits on a regex with one capturing group, empty parts are dropped, and every
  remaining part is classified by its own text as bold, inline code, a link or
  plain text.

  The regex is modelled as the backtracking matcher runs it: at each position the
  alternatives are tried in pattern order, every `.*?` grows one character at a
  time (never across a line terminator), and the first way to finish wins.
 */
module InlineText {
  import opened Wrappers
  import opened JsStrings

  /** What a part of a line renders as. */
  datatype Span =
    | Text(value: string)
    | Bold(value: string)
    | Code(value: string)
    | Link(linkText: string, url: string)

  /** A part of the split: the text between two matches, or a match itself.
      The classification looks only at `text`, as the source does. */
  datatype Piece = Plain(text: string) | Matched(text: string)

  /** Where a link match ends: the label runs up to `labelEnd` (where `](` starts)
      and the url up to `urlEnd` (where the closing `)` sits). */
  datatype LinkMatch = LinkMatch(labelEnd: nat, urlEnd: nat)

  /** `d` occurs in `s` starting at `k`. */
  predicate Occurs(s: string, k: int, d: string) {
    0 <= k && k + |d| <= |s| && s[k..k + |d|] == d
  }

  predicate NoTerminatorIn(s: string, lo: int, hi: int)
    requires 0 <= lo <= hi <= |s|
  {
    forall m :: lo <= m < hi ==> !IsLineTerminator(s[m])
  }

  /** `k` is where a lazy `.*?` started at `j` hands over to the literal `d`:
      the first occurrence of `d` from `j` on, with no line terminator before it. */
  predicate IsLazyStop(s: string, j: int, d: string, k: int) {
    0 <= j <= k && Occurs(s, k, d) && NoTerminatorIn(s, j, k)
    && forall m :: j <= m < k ==> !Occurs(s, m, d)
  }

  /** `.*?d` matched from `j`: the position where `d` begins, if any. */
  function FindClose(s: string, j: nat, d: string): (r: Option<nat>)
    requires j <= |s| && d != ""
    ensures r.Some? ==> j <= r.value && r.value + |d| <= |s|
    decreases |s| - j
  {
    if Occurs(s, j, d) then Some(j)
    else if j < |s| && !IsLineTerminator(s[j]) then FindClose(s, j + 1, d)
    else None
  }

  /** What `FindClose` finds is the lazy stop, and when it finds nothing every later
      occurrence of `d` lies beyond a line terminator. */
  lemma {:induction false} FindCloseIsLazy(s: string, j: nat, d: string)
    requires j <= |s| && d != ""
    ensures FindClose(s, j, d).Some? ==> IsLazyStop(s, j, d, FindClose(s, j, d).value)
    ensures FindClose(s, j, d).None? ==>
              forall k :: j <= k && Occurs(s, k, d) ==> !NoTerminatorIn(s, j, k)
    decreases |s| - j
  {
    if !Occurs(s, j, d) && j < |s| && !IsLineTerminator(s[j]) {
      FindCloseIsLazy(s, j + 1, d);
    }
  }

  /** The alternative `\*\*.*?\*\*` tried at `i`: where its match ends. */
  function BoldAt(s: string, i: nat): Option<nat>
    requires i <= |s|
  {
    if Occurs(s, i, "**") then
      match FindClose(s, i + 2, "**")
      case Some(k) => Some(k + 2)
      case None => None
    else None
  }

  /** The alternative `` `.*?` `` tried at `i`: where its match ends. */
  function CodeAt(s: string, i: nat): Option<nat>
    requires i <= |s|
  {
    if Occurs(s, i, "`") then
      match FindClose(s, i + 1, "`")
      case Some(k) => Some(k + 1)
      case None => None
    else None
  }

  /** The rest `.*?\]\(.*?\)` of the link alternative, from `j`: the lazy label grows
      one character at a time until `](` and a lazily matched url up to `)` follow. */
  function LinkTail(s: string, j: nat): (r: Option<LinkMatch>)
    requires j <= |s|
    ensures r.Some? ==> j <= r.value.labelEnd && r.value.labelEnd + 2 <= r.value.urlEnd < |s|
    decreases |s| - j
  {
    if Occurs(s, j, "](") && FindClose(s, j + 2, ")").Some? then
      Some(LinkMatch(j, FindClose(s, j + 2, ")").value))
    else if j < |s| && !IsLineTerminator(s[j]) then LinkTail(s, j + 1)
    else None
  }

  /** The alternative `\[.*?\]\(.*?\)` tried at `i`. */
  function LinkAt(s: string, i: nat): (r: Option<LinkMatch>)
    requires i <= |s|
    ensures r.Some? ==> i < |s| && s[i] == '[' && i + 1 <= r.value.labelEnd
                        && r.value.labelEnd + 2 <= r.value.urlEnd < |s|
  {
    if i < |s| && s[i] == '[' then LinkTail(s, i + 1) else None
  }

  /** The whole alternation tried at exactly `i`: the end of the match made by the
      first alternative that succeeds, in pattern order bold, code, link. */
  function MatchAt(s: string, i: nat): (r: Option<nat>)
    requires i <= |s|
    ensures r.Some? ==> i + 2 <= r.value <= |s|
  {
    match BoldAt(s, i)
    case Some(e) => Some(e)
    case None =>
      match CodeAt(s, i)
      case Some(e) => Some(e)
      case None =>
        match LinkAt(s, i)
        case Some(m) => Some(m.urlEnd + 1)
        case None => None
  }

  /** `s.split(regex)` as the ECMAScript split algorithm runs it: `p` is where the
      pending text starts and `q` the position being tried. A match contributes the
      text before it and, through the capture group, the match itself. */
  function SplitFrom(s: string, p: nat, q: nat): seq<Piece>
    requires p <= q <= |s|
    decreases |s| - q
  {
    if q == |s| then [Plain(s[p..])]
    else
      match MatchAt(s, q)
      case Some(e) => [Plain(s[p..q]), Matched(s[q..e])] + SplitFrom(s, e, e)
      case None => SplitFrom(s, p, q + 1)
  }

  /** `parts.filter(part => part)`: the empty strings go. */
  function DropEmpty(parts: seq<Piece>): (r: seq<Piece>)
    ensures forall k :: 0 <= k < |r| ==> r[k].text != ""
    decreases |parts|
  {
    if parts == [] then []
    else (if parts[0].text == "" then [] else [parts[0]]) + DropEmpty(parts[1..])
  }

  /** The non-empty parts of a line, in order. */
  function Pieces(s: string): seq<Piece> {
    DropEmpty(SplitFrom(s, 0, 0))
  }

  /** `part.match(/\[(.*?)\]\((.*?)\)/)`: the leftmost link match at or after `i`. */
  function FirstLink(s: string, i: nat): (r: Option<(nat, LinkMatch)>)
    requires i <= |s|
    ensures r.Some? ==> i <= r.value.0 < |s| && LinkAt(s, r.value.0) == Some(r.value.1)
    ensures r.Some? ==> forall k :: i <= k < r.value.0 ==> LinkAt(s, k).None?
    ensures r.None? ==> forall k :: i <= k <= |s| ==> LinkAt(s, k).None?
    decreases |s| - i
  {
    if i == |s| then None
    else
      match LinkAt(s, i)
      case Some(m) => Some((i, m))
      case None => FirstLink(s, i + 1)
  }

  /** The classification of one part: bold when it starts and ends with `**`, code
      when it starts and ends with a backtick, a link when the link pattern occurs
      in it, plain text otherwise. */
  function SpanOf(part: string): Span {
    if StartsWith(part, "**") && EndsWith(part, "**") then Bold(Slice(part, 2, -2))
    else if StartsWith(part, "`") && EndsWith(part, "`") then Code(Slice(part, 1, -1))
    else
      match FirstLink(part, 0)
      case Some((i, m)) => Link(part[i + 1..m.labelEnd], part[m.labelEnd + 2..m.urlEnd])
      case None => Text(part)
  }

  /** `parseInlineText`: the spans of one line. */
  function ParseInline(line: string): seq<Span> {
    var ps := Pieces(line);
    seq(|ps|, k requires 0 <= k < |ps| => SpanOf(ps[k].text))
  }
}
