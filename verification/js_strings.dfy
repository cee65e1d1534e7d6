/**
  The ECMAScript string built-ins the renderer relies on: `startsWith`, `endsWith`,
  `slice`, `trim`, `split('\n')`, and the character classes behind the regex `.`
  (anything but a line terminator) and `\s` (white space or line terminator).
  Strings are sequences of characters; indices and lengths are unbounded.
 */
module JsStrings {

  /** A LineTerminator: the characters a regex `.` does not match. */
  predicate IsLineTerminator(c: char) {
    c == '\n' || c == '\r' || c == '\U{2028}' || c == '\U{2029}'
  }

  /** WhiteSpace or LineTerminator: the regex class `\s`, and what `trim` removes. */
  predicate IsWhiteSpace(c: char) {
    || c == '\t' || c == '\U{B}' || c == '\U{C}' || c == ' ' || c == '\U{A0}' || c == '\U{FEFF}'
    || c == '\U{1680}' || ('\U{2000}' <= c <= '\U{200A}')
    || c == '\U{202F}' || c == '\U{205F}' || c == '\U{3000}'
    || IsLineTerminator(c)
  }

  /** The regex class `\d` (without the `u` flag): ASCII decimal digits only. */
  predicate IsDigit(c: char) {
    '0' <= c <= '9'
  }

  predicate AllWhiteSpace(s: string) {
    forall i :: 0 <= i < |s| ==> IsWhiteSpace(s[i])
  }

  predicate StartsWith(s: string, prefix: string) {
    |prefix| <= |s| && s[..|prefix|] == prefix
  }

  predicate EndsWith(s: string, suffix: string) {
    |suffix| <= |s| && s[|s| - |suffix|..] == suffix
  }

  /** How `slice` reads one of its arguments: negative counts back from the end, and the result is clamped to the string. */
  function RelativeIndex(i: int, len: nat): (r: nat)
    ensures r <= len
    ensures 0 <= i <= len ==> r == i
    ensures -(len as int) <= i < 0 ==> r == len + i
    ensures i > len ==> r == len
    ensures i < -(len as int) ==> r == 0
  {
    if i < 0 then (if len + i < 0 then 0 else len + i)
    else if i > len then len
    else i
  }

  /** `s.slice(start, end)`. */
  function Slice(s: string, start: int, end: int): string {
    var from := RelativeIndex(start, |s|);
    var to := RelativeIndex(end, |s|);
    if from < to then s[from..to] else ""
  }

  /** `slice(n, -n)` drops n characters from each end, and is empty when the string is too short for that. */
  lemma SliceStripsBothEnds(s: string, n: int)
    requires n > 0
    ensures |s| >= 2 * n ==> s == s[..n] + Slice(s, n, -n) + s[|s| - n..]
    ensures |s| < 2 * n ==> Slice(s, n, -n) == ""
  {
    if |s| >= 2 * n {
      assert Slice(s, n, -n) == s[n..|s| - n];
      assert s == s[..n] + s[n..|s| - n] + s[|s| - n..];
    }
  }

  /** `trimStart`: the longest suffix that does not start with white space. */
  function TrimStart(s: string): (r: string)
    ensures |r| <= |s| && r == s[|s| - |r|..]
    ensures AllWhiteSpace(s[..|s| - |r|])
    ensures r != "" ==> !IsWhiteSpace(r[0])
    decreases |s|
  {
    if s != "" && IsWhiteSpace(s[0]) then TrimStart(s[1..]) else s
  }

  /** `trimEnd`: the longest prefix that does not end with white space. */
  function TrimEnd(s: string): (r: string)
    ensures |r| <= |s| && r == s[..|r|]
    ensures AllWhiteSpace(s[|r|..])
    ensures r != "" ==> !IsWhiteSpace(r[|r| - 1])
    decreases |s|
  {
    if s != "" && IsWhiteSpace(s[|s| - 1]) then
      var t := s[..|s| - 1];
      var r := TrimEnd(t);
      assert t[..|r|] == s[..|r|];
      assert s[|r|..] == t[|r|..] + [s[|s| - 1]];
      r
    else s
  }

  /** `trim`: the string with its white-space margins removed; empty exactly for a blank string. */
  function Trim(s: string): (r: string)
    ensures r == "" <==> AllWhiteSpace(s)
    ensures r != "" ==> !IsWhiteSpace(r[0]) && !IsWhiteSpace(r[|r| - 1])
  {
    var t := TrimStart(s);
    var r := TrimEnd(t);
    assert r == "" ==> AllWhiteSpace(s) by {
      if r == "" {
        var a := |s| - |t|;
        assert s == s[..a] + t;
      }
    }
    r
  }

  /** A string cut around the middle part `r` that starts at `a`. */
  lemma CutAround(s: string, a: nat, r: string)
    requires a + |r| <= |s| && r == s[a..a + |r|]
    ensures s == s[..a] + r + s[a + |r|..]
  {
  }

  /** What `trim` removed is white space on both sides of its result. */
  lemma TrimPadding(s: string) returns (a: nat)
    ensures a + |Trim(s)| <= |s|
    ensures s == s[..a] + Trim(s) + s[a + |Trim(s)|..]
    ensures AllWhiteSpace(s[..a]) && AllWhiteSpace(s[a + |Trim(s)|..])
  {
    var t := TrimStart(s);
    var r := TrimEnd(t);
    a := |s| - |t|;
    assert Trim(s) == r;
    assert r == s[a..a + |r|];
    CutAround(s, a, r);
    assert s[a + |r|..] == t[|r|..];
  }


  /** `trim` leaves a string that neither starts nor ends with white space as it is. */
  lemma TrimNoPadding(s: string)
    requires s == "" || (!IsWhiteSpace(s[0]) && !IsWhiteSpace(s[|s| - 1]))
    ensures Trim(s) == s
  {
    assert TrimStart(s) == s;
    assert TrimEnd(s) == s;
  }

  /** The lines of `text` joined back with a newline between each two. */
  function JoinLines(lines: seq<string>): string
    requires |lines| >= 1
    decreases |lines|
  {
    if |lines| == 1 then lines[0] else lines[0] + "\n" + JoinLines(lines[1..])
  }

  /** `text.split('\n')`: at least one line, none containing a newline, and joined back they give `text`. */
  function SplitLines(text: string): (lines: seq<string>)
    ensures |lines| >= 1
    ensures forall i :: 0 <= i < |lines| ==> '\n' !in lines[i]
    ensures JoinLines(lines) == text
    decreases |text|
  {
    if text == "" then [""]
    else
      var rest := SplitLines(text[1..]);
      if text[0] == '\n' then
        LinesAfterNewline(rest);
        assert text == "\n" + text[1..];
        [""] + rest
      else
        LinesAfterChar(text[0], rest);
        assert text == [text[0]] + text[1..];
        [[text[0]] + rest[0]] + rest[1..]
  }

  /** An empty line put in front of newline-free lines. */
  lemma LinesAfterNewline(rest: seq<string>)
    requires |rest| >= 1 && forall i :: 0 <= i < |rest| ==> '\n' !in rest[i]
    ensures forall i :: 0 <= i < |[""] + rest| ==> '\n' !in ([""] + rest)[i]
    ensures JoinLines([""] + rest) == "\n" + JoinLines(rest)
  {
    assert ([""] + rest)[1..] == rest;
  }

  /** A character other than a newline put in front of the first of newline-free lines. */
  lemma LinesAfterChar(c: char, rest: seq<string>)
    requires c != '\n' && |rest| >= 1 && forall i :: 0 <= i < |rest| ==> '\n' !in rest[i]
    ensures forall i :: 0 <= i < |rest| ==> '\n' !in ([[c] + rest[0]] + rest[1..])[i]
    ensures JoinLines([[c] + rest[0]] + rest[1..]) == [c] + JoinLines(rest)
  {
    var lines := [[c] + rest[0]] + rest[1..];
    forall i | 0 <= i < |rest| ensures '\n' !in lines[i] {
      if i > 0 {
        assert lines[i] == rest[i];
      }
    }
    JoinAfterChar(c, rest);
  }

  /** Joining lines whose first has a character put in front. */
  lemma JoinAfterChar(c: char, rest: seq<string>)
    requires |rest| >= 1
    ensures JoinLines([[c] + rest[0]] + rest[1..]) == [c] + JoinLines(rest)
  {
    if |rest| > 1 {
      var x, tail := rest[0], rest[1..];
      JoinCons([c] + x, tail);
      assert rest == [x] + tail;
      JoinCons(x, tail);
      Assoc([c], x, "\n");
      Assoc([c], x + "\n", JoinLines(tail));
    }
  }

  /** Concatenation is associative. */
  lemma Assoc<T>(a: seq<T>, b: seq<T>, c: seq<T>)
    ensures a + b + c == a + (b + c)
  {
  }

  /** Joining a line in front of at least one more. */
  lemma JoinCons(x: string, rest: seq<string>)
    requires |rest| >= 1
    ensures JoinLines([x] + rest) == x + "\n" + JoinLines(rest)
  {
    assert ([x] + rest)[1..] == rest;
  }

  /** A newline-free string is one line. */
  lemma {:induction false} SplitSingleLine(line: string)
    requires '\n' !in line
    ensures SplitLines(line) == [line]
    decreases |line|
  {
    if line != "" {
      SplitSingleLine(line[1..]);
      assert [line[0]] + line[1..] == line;
    }
  }

  /** Splitting at a newline after a newline-free first line. */
  lemma {:induction false} SplitAfterFirstLine(first: string, rest: string)
    requires '\n' !in first
    ensures SplitLines(first + "\n" + rest) == [first] + SplitLines(rest)
    decreases |first|
  {
    if first == "" {
      assert first + "\n" + rest == "\n" + rest;
    } else {
      var text := first + "\n" + rest;
      assert text[1..] == first[1..] + "\n" + rest;
      SplitAfterFirstLine(first[1..], rest);
      assert [first[0]] + first[1..] == first;
    }
  }

  /** Splitting undoes joining, for lines that hold no newline. */
  lemma {:induction false} SplitJoinLines(lines: seq<string>)
    requires |lines| >= 1
    requires forall i :: 0 <= i < |lines| ==> '\n' !in lines[i]
    ensures SplitLines(JoinLines(lines)) == lines
    decreases |lines|
  {
    if |lines| == 1 {
      SplitSingleLine(lines[0]);
    } else {
      SplitJoinLines(lines[1..]);
      SplitAfterFirstLine(lines[0], JoinLines(lines[1..]));
      assert lines == [lines[0]] + lines[1..];
    }
  }
}
