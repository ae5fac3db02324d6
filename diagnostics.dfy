/**
 * The compile-error text sent to the client (app.js:117-118): every line of
 * the compiler's stderr that starts with the session directory loses that
 * directory and at most one following backslash, then the whole text is
 * trimmed and prefixed with "ERROR:\n".
 *
 * The replacement is the global, multi-line regular expression of the
 * source, modelled as a left-to-right scan (ReplaceAtLineStarts) in which
 * the directory is matched literally and only '\n' ends a line. The lemmas
 * show that the scan acts line by line whenever the directory itself holds
 * no '\n'.
 */
module Diagnostics {

  // ---------------------------------------------------------------------
  // Lines
  // ---------------------------------------------------------------------

  /** `s` holds no '\n'. */
  predicate NoNewline(s: string)
  {
    forall i :: 0 <= i < |s| ==> s[i] != '\n'
  }

  /** Position of the first '\n' in `s`, or |s| when there is none. */
  function NewlineIndex(s: string): (e: nat)
    ensures e <= |s|
    ensures forall i :: 0 <= i < e ==> s[i] != '\n'
    ensures e < |s| ==> s[e] == '\n'
  {
    if s == [] then 0
    else if s[0] == '\n' then 0
    else 1 + NewlineIndex(s[1..])
  }

  /** The text of `s` up to its first line break. */
  function FirstLine(s: string): (line: string)
    ensures NoNewline(line)
  {
    var e := NewlineIndex(s);
    assert forall i :: 0 <= i < e ==> s[..e][i] != '\n';
    s[..e]
  }

  /** The text after the first line break of `s` (empty when there is none). */
  function NextLines(s: string): (rest: string)
    ensures NewlineIndex(s) < |s| ==> |rest| < |s|
  {
    var e := NewlineIndex(s);
    if e < |s| then s[e + 1..] else []
  }

  /** The '\n'-separated lines of `s`; there is always at least one. */
  function Split(s: string): (lines: seq<string>)
    ensures |lines| >= 1
    ensures forall i :: 0 <= i < |lines| ==> NoNewline(lines[i])
    decreases |s|
  {
    if NewlineIndex(s) < |s| then [FirstLine(s)] + Split(NextLines(s)) else [s]
  }

  /** The lines glued back together with '\n' between them. */
  function Join(lines: seq<string>): string
  {
    if |lines| == 0 then ""
    else if |lines| == 1 then lines[0]
    else lines[0] + "\n" + Join(lines[1..])
  }

  /** Joining a first line onto at least one more. */
  lemma JoinCons(line: string, rest: seq<string>)
    requires |rest| >= 1
    ensures Join([line] + rest) == line + "\n" + Join(rest)
  {
    assert ([line] + rest)[1..] == rest;
  }

  /** A text with a line break is its first line, the break and the rest. */
  lemma SplitPoint(s: string)
    requires NewlineIndex(s) < |s|
    ensures s == FirstLine(s) + "\n" + NextLines(s)
  {
    var e := NewlineIndex(s);
    assert FirstLine(s) == s[..e];
    assert NextLines(s) == s[e + 1..];
    SliceAround(s, e);
  }

  /** A text is what lies before, at and after one of its line breaks. */
  lemma SliceAround(s: string, e: nat)
    requires e < |s| && s[e] == '\n'
    ensures s == s[..e] + "\n" + s[e + 1..]
  {
  }

  /** One step of Split on a text with a line break. */
  lemma SplitCons(s: string)
    requires NewlineIndex(s) < |s|
    ensures Split(s) == [FirstLine(s)] + Split(NextLines(s))
  {
  }

  /** Splitting and joining again gives back the text. */
  lemma {:induction false} JoinSplit(s: string)
    ensures Join(Split(s)) == s
    decreases |s|
  {
    if NewlineIndex(s) < |s| {
      var rest := NextLines(s);
      SplitCons(s);
      JoinSplit(rest);
      JoinCons(FirstLine(s), Split(rest));
      SplitPoint(s);
    } else {
      assert Split(s) == [s];
    }
  }

  /** The first line break of `a + "\n" + b` is the one after `a`. */
  lemma NewlineIndexAfter(a: string, b: string)
    requires NoNewline(a)
    ensures NewlineIndex(a + "\n" + b) == |a|
  {
    var s := a + "\n" + b;
    assert s[|a|] == '\n';
    assert forall i :: 0 <= i < |a| ==> s[i] == a[i];
  }

  /** A text without line breaks has no line break. */
  lemma NewlineIndexNone(a: string)
    requires NoNewline(a)
    ensures NewlineIndex(a) == |a|
  {
  }

  /** Joining lines that hold no '\n' and splitting again gives the lines back. */
  lemma {:induction false} SplitJoin(lines: seq<string>)
    requires |lines| >= 1
    requires forall i :: 0 <= i < |lines| ==> NoNewline(lines[i])
    ensures Split(Join(lines)) == lines
  {
    if |lines| == 1 {
      NewlineIndexNone(lines[0]);
    } else {
      var rest := lines[1..];
      assert lines == [lines[0]] + rest;
      JoinCons(lines[0], rest);
      var s := Join(lines);
      NewlineIndexAfter(lines[0], Join(rest));
      assert FirstLine(s) == lines[0];
      assert NextLines(s) == Join(rest);
      SplitJoin(rest);
    }
  }

  // ---------------------------------------------------------------------
  // Scrubbing the session directory
  // ---------------------------------------------------------------------

  /** `p` is a prefix of `t`. */
  predicate IsPrefix(p: string, t: string)
  {
    |p| <= |t| && t[..|p|] == p
  }

  /**
   * How many characters a match of the directory at the start of `t`
   * covers: the directory and, when one follows, a single backslash.
   */
  function MatchLength(dir: string, t: string): nat
    requires IsPrefix(dir, t)
  {
    |dir| + (if |dir| < |t| && t[|dir|] == '\\' then 1 else 0)
  }

  /** One line with the directory prefix removed, as the client sees it. */
  function ScrubLine(dir: string, line: string): (r: string)
    ensures |r| <= |line| && r == line[|line| - |r|..]
    ensures !(IsPrefix(dir, line)) ==> r == line
    ensures IsPrefix(dir, line) ==> |line| - |r| == |dir| + (if |dir| < |line| && line[|dir|] == '\\' then 1 else 0)
  {
    if IsPrefix(dir, line) then line[MatchLength(dir, line)..] else line
  }

  /** Each line scrubbed on its own. */
  function ScrubLines(dir: string, lines: seq<string>): (r: seq<string>)
    ensures |r| == |lines|
    ensures forall i :: 0 <= i < |lines| ==> r[i] == ScrubLine(dir, lines[i])
  {
    seq(|lines|, i requires 0 <= i < |lines| => ScrubLine(dir, lines[i]))
  }

  /**
   * The global, multi-line replacement of app.js:117 over the rest `t` of
   * the text; `atLineStart` says whether the character before `t` was a
   * '\n' (or `t` is the whole text). A match is removed and the scan
   * resumes after it; an empty match removes nothing.
   */
  function ReplaceAtLineStarts(dir: string, t: string, atLineStart: bool): (r: string)
    ensures |r| <= |t|
    ensures !atLineStart && NoNewline(t) ==> r == t
    decreases |t|
  {
    if t == [] then []
    else if atLineStart && IsPrefix(dir, t) && MatchLength(dir, t) > 0 then
      var k := MatchLength(dir, t);
      ReplaceAtLineStarts(dir, t[k..], t[k - 1] == '\n')
    else
      [t[0]] + ReplaceAtLineStarts(dir, t[1..], t[0] == '\n')
  }

  /**
   * The scan of everything after the first line of `t`, starting with the
   * '\n' that ends that line; empty when `t` is a single line.
   */
  function AfterFirstLine(dir: string, t: string): string
  {
    if NewlineIndex(t) < |t| then "\n" + ReplaceAtLineStarts(dir, NextLines(t), true) else ""
  }

  /** A first character that is not '\n' belongs to the first line. */
  lemma FirstLineStep(t: string)
    requires t != [] && t[0] != '\n'
    ensures NewlineIndex(t) == 1 + NewlineIndex(t[1..])
    ensures FirstLine(t) == [t[0]] + FirstLine(t[1..])
    ensures NextLines(t) == NextLines(t[1..])
  {
    var e := NewlineIndex(t);
    assert t[..e] == [t[0]] + t[1..][..e - 1];
    assert e < |t| ==> t[e + 1..] == t[1..][e - 1 + 1..];
  }

  /** Dropping part of the first line keeps the rest of the text. */
  lemma {:induction false} NewlineIndexDrop(t: string, k: nat)
    requires k <= NewlineIndex(t)
    ensures NewlineIndex(t[k..]) == NewlineIndex(t) - k
    ensures FirstLine(t[k..]) == FirstLine(t)[k..]
    ensures NextLines(t[k..]) == NextLines(t)
    decreases k
  {
    if k > 0 {
      FirstLineStep(t);
      NewlineIndexDrop(t[1..], k - 1);
      assert t[1..][k - 1..] == t[k..];
    }
  }

  /** Away from a line start the scan copies up to the next '\n'. */
  lemma {:induction false} ReplaceInsideLine(dir: string, t: string)
    ensures ReplaceAtLineStarts(dir, t, false) == FirstLine(t) + AfterFirstLine(dir, t)
    decreases |t|
  {
    if t == [] {
    } else if t[0] == '\n' {
      assert NewlineIndex(t) == 0;
      assert FirstLine(t) == [];
      assert NextLines(t) == t[1..];
    } else {
      ReplaceInsideLine(dir, t[1..]);
      FirstLineStep(t);
      assert AfterFirstLine(dir, t) == AfterFirstLine(dir, t[1..]);
      PrependChar(t[0], FirstLine(t[1..]), AfterFirstLine(dir, t), FirstLine(t));
    }
  }

  /** Concatenation after a first character is associative. */
  lemma PrependChar(c: char, a: string, b: string, whole: string)
    requires whole == [c] + a
    ensures [c] + (a + b) == whole + b
  {
  }

  /**
   * A directory without '\n' that starts the text matches inside the first
   * line, and the match is the same on that line alone.
   */
  lemma MatchInFirstLine(dir: string, t: string)
    requires NoNewline(dir)
    requires IsPrefix(dir, t)
    ensures MatchLength(dir, t) <= NewlineIndex(t)
    ensures IsPrefix(dir, FirstLine(t)) && MatchLength(dir, FirstLine(t)) == MatchLength(dir, t)
  {
    var e := NewlineIndex(t);
    var line := FirstLine(t);
    assert forall i :: 0 <= i < |dir| ==> t[i] == dir[i];
    assert |dir| <= e;
    assert line[..|dir|] == t[..|dir|];
    if |dir| < e {
      assert line[|dir|] == t[|dir|];
    }
  }

  /** A line start where the directory matches: the match is dropped. */
  lemma ReplaceMatchedLine(dir: string, t: string)
    requires NoNewline(dir)
    requires IsPrefix(dir, t) && MatchLength(dir, t) > 0
    ensures ReplaceAtLineStarts(dir, t, true) == ScrubLine(dir, FirstLine(t)) + AfterFirstLine(dir, t)
  {
    var k := MatchLength(dir, t);
    MatchInFirstLine(dir, t);
    assert t[k - 1] != '\n';
    assert ReplaceAtLineStarts(dir, t, true) == ReplaceAtLineStarts(dir, t[k..], false);
    ReplaceInsideLine(dir, t[k..]);
    NewlineIndexDrop(t, k);
    assert AfterFirstLine(dir, t[k..]) == AfterFirstLine(dir, t);
  }

  /** A line start where nothing matches: the scan copies the first line. */
  lemma ReplaceUnmatchedLine(dir: string, t: string)
    requires t != []
    requires !(IsPrefix(dir, t) && MatchLength(dir, t) > 0)
    ensures ReplaceAtLineStarts(dir, t, true) == FirstLine(t) + AfterFirstLine(dir, t)
  {
    if t[0] == '\n' {
      ReplaceBlankLine(dir, t);
    } else {
      assert ReplaceAtLineStarts(dir, t, true) == ReplaceAtLineStarts(dir, t, false);
      ReplaceInsideLine(dir, t);
    }
  }

  /** An empty line where nothing matches: the scan copies its '\n'. */
  lemma ReplaceBlankLine(dir: string, t: string)
    requires t != [] && t[0] == '\n'
    requires !(IsPrefix(dir, t) && MatchLength(dir, t) > 0)
    ensures ReplaceAtLineStarts(dir, t, true) == FirstLine(t) + AfterFirstLine(dir, t)
  {
    assert NewlineIndex(t) == 0;
    assert FirstLine(t) == [];
    assert NextLines(t) == t[1..];
  }

  /** A first line the directory does not match at all is left as it is. */
  lemma UnmatchedLineUnchanged(dir: string, t: string)
    requires t != []
    requires !(IsPrefix(dir, t) && MatchLength(dir, t) > 0)
    ensures ScrubLine(dir, FirstLine(t)) == FirstLine(t)
  {
    var e := NewlineIndex(t);
    var line := t[..e];
    if IsPrefix(dir, line) {
      assert IsPrefix(dir, t);
      assert 0 < e ==> line[0] == t[0];
    }
  }

  /** At a line start the scan scrubs the first line and goes on with the next. */
  lemma ReplaceFirstLine(dir: string, t: string)
    requires NoNewline(dir)
    ensures ReplaceAtLineStarts(dir, t, true) == ScrubLine(dir, FirstLine(t)) + AfterFirstLine(dir, t)
  {
    if t == [] {
    } else if IsPrefix(dir, t) && MatchLength(dir, t) > 0 {
      ReplaceMatchedLine(dir, t);
    } else {
      ReplaceUnmatchedLine(dir, t);
      UnmatchedLineUnchanged(dir, t);
    }
  }

  /**
   * The scan of app.js:117 is the line-wise scrub: split into lines,
   * scrub each line, join again.
   */
  lemma {:induction false} ScrubIsLineWise(dir: string, t: string)
    requires NoNewline(dir)
    ensures ReplaceAtLineStarts(dir, t, true) == Join(ScrubLines(dir, Split(t)))
    decreases |t|
  {
    ReplaceFirstLine(dir, t);
    if NewlineIndex(t) < |t| {
      var first := FirstLine(t);
      var rest := Split(NextLines(t));
      ScrubIsLineWise(dir, NextLines(t));
      SplitCons(t);
      ScrubLinesCons(dir, first, rest);
      JoinCons(ScrubLine(dir, first), ScrubLines(dir, rest));
    } else {
      ScrubSingleLine(dir, t);
    }
  }

  /** A text without line breaks is scrubbed as its one line. */
  lemma ScrubSingleLine(dir: string, t: string)
    requires NewlineIndex(t) == |t|
    ensures Join(ScrubLines(dir, Split(t))) == ScrubLine(dir, FirstLine(t))
  {
    assert Split(t) == [t];
    assert FirstLine(t) == t;
    assert ScrubLines(dir, [t]) == [ScrubLine(dir, t)];
  }

  /** Scrubbing a first line onto the rest. */
  lemma ScrubLinesCons(dir: string, line: string, rest: seq<string>)
    ensures ScrubLines(dir, [line] + rest) == [ScrubLine(dir, line)] + ScrubLines(dir, rest)
  {
  }

  /**
   * Scrubbing keeps the number of lines, and line i of the result is line
   * i of the input scrubbed: a suffix of it, equal to it when it does not
   * start with the directory.
   */
  lemma ScrubKeepsLines(dir: string, t: string)
    requires NoNewline(dir)
    ensures Split(ReplaceAtLineStarts(dir, t, true)) == ScrubLines(dir, Split(t))
    ensures |Split(ReplaceAtLineStarts(dir, t, true))| == |Split(t)|
  {
    ScrubIsLineWise(dir, t);
    var lines := Split(t);
    var scrubbed := ScrubLines(dir, lines);
    forall i | 0 <= i < |scrubbed| ensures NoNewline(scrubbed[i]) {
      ScrubLineNoNewline(dir, lines[i]);
    }
    SplitJoin(scrubbed);
  }

  /** A scrubbed line is part of the line, so it holds no '\n' either. */
  lemma ScrubLineNoNewline(dir: string, line: string)
    requires NoNewline(line)
    ensures NoNewline(ScrubLine(dir, line))
  {
    if IsPrefix(dir, line) {
      SuffixNoNewline(line, MatchLength(dir, line));
    }
  }

  /** A suffix of a text without '\n' has none either. */
  lemma SuffixNoNewline(s: string, k: nat)
    requires NoNewline(s) && k <= |s|
    ensures NoNewline(s[k..])
  {
    assert forall j :: 0 <= j < |s| - k ==> s[k..][j] == s[k + j];
  }

  // ---------------------------------------------------------------------
  // String.prototype.trim
  // ---------------------------------------------------------------------

  /** JavaScript's WhiteSpace and LineTerminator characters, which trim removes. */
  const JsWhitespace: set<char> := {
    '\t', '\n', '\U{000B}', '\U{000C}', '\r', ' ', '\U{00A0}', '\U{1680}',
    '\U{2000}', '\U{2001}', '\U{2002}', '\U{2003}', '\U{2004}', '\U{2005}',
    '\U{2006}', '\U{2007}', '\U{2008}', '\U{2009}', '\U{200A}',
    '\U{2028}', '\U{2029}', '\U{202F}', '\U{205F}', '\U{3000}', '\U{FEFF}'
  }

  predicate IsJsWhitespace(c: char)
  {
    c in JsWhitespace
  }

  /** `s` without its leading whitespace. */
  function TrimStart(s: string): (r: string)
    ensures |r| <= |s| && r == s[|s| - |r|..]
    ensures r == [] || !IsJsWhitespace(r[0])
  {
    if s != [] && IsJsWhitespace(s[0]) then TrimStart(s[1..]) else s
  }

  /** TrimStart removes whitespace only. */
  lemma {:induction false} TrimStartRemovesWhitespace(s: string)
    ensures forall i :: 0 <= i < |s| - |TrimStart(s)| ==> IsJsWhitespace(s[i])
  {
    if s != [] && IsJsWhitespace(s[0]) {
      TrimStartRemovesWhitespace(s[1..]);
      assert forall i :: 1 <= i < |s| ==> s[i] == s[1..][i - 1];
    }
  }

  /** `s` without its trailing whitespace. */
  function TrimEnd(s: string): (r: string)
    ensures |r| <= |s| && r == s[..|r|]
    ensures r == [] || !IsJsWhitespace(r[|r| - 1])
  {
    if s != [] && IsJsWhitespace(s[|s| - 1]) then TrimEnd(s[..|s| - 1]) else s
  }

  /** TrimEnd removes whitespace only. */
  lemma {:induction false} TrimEndRemovesWhitespace(s: string)
    ensures forall i :: |TrimEnd(s)| <= i < |s| ==> IsJsWhitespace(s[i])
  {
    if s != [] && IsJsWhitespace(s[|s| - 1]) {
      TrimEndRemovesWhitespace(s[..|s| - 1]);
      assert forall i :: 0 <= i < |s| - 1 ==> s[i] == s[..|s| - 1][i];
    }
  }

  /** String.prototype.trim: `s` without leading and trailing whitespace. */
  function Trim(s: string): (r: string)
    ensures |r| <= |s|
    ensures r == [] || (!IsJsWhitespace(r[0]) && !IsJsWhitespace(r[|r| - 1]))
  {
    TrimEnd(TrimStart(s))
  }

  /**
   * Trim keeps a middle part of `s`, and everything it removes on either
   * side is whitespace.
   */
  lemma TrimKeepsMiddle(s: string)
    ensures var r, i := Trim(s), |s| - |TrimStart(s)|;
            && i + |r| <= |s| && r == s[i..i + |r|]
            && (forall j :: 0 <= j < i ==> IsJsWhitespace(s[j]))
            && (forall j :: i + |r| <= j < |s| ==> IsJsWhitespace(s[j]))
  {
    var front := TrimStart(s);
    TrimStartRemovesWhitespace(s);
    TrimEndRemovesWhitespace(front);
    MiddleOfSuffix(s, |s| - |front|, TrimEnd(front), JsWhitespace);
  }

  /**
   * A prefix `r` of the suffix of `s` from `i`, followed there only by
   * characters of `w`, sits at `i` in `s` and is followed by `w` in `s`.
   */
  lemma MiddleOfSuffix(s: string, i: nat, r: string, w: set<char>)
    requires i <= |s| && |r| <= |s| - i && r == s[i..][..|r|]
    requires forall j :: |r| <= j < |s| - i ==> s[i..][j] in w
    ensures i + |r| <= |s| && r == s[i..i + |r|]
    ensures forall j :: i + |r| <= j < |s| ==> s[j] in w
  {
    assert s[i..][..|r|] == s[i..i + |r|];
    forall j | i + |r| <= j < |s| ensures s[j] in w {
      assert s[j] == s[i..][j - i];
    }
  }

  /** The message broadcast when compilation fails (app.js:117-118). */
  function CompileErrorMessage(dir: string, stderr: string): (m: string)
    ensures |m| >= 7 && m[..7] == "ERROR:\n"
    ensures NoNewline(dir) ==> m == "ERROR:\n" + Trim(Join(ScrubLines(dir, Split(stderr))))
  {
    var scrubbed := ReplaceAtLineStarts(dir, stderr, true);
    assert NoNewline(dir) ==> scrubbed == Join(ScrubLines(dir, Split(stderr))) by {
      if NoNewline(dir) {
        ScrubIsLineWise(dir, stderr);
      }
    }
    "ERROR:\n" + Trim(scrubbed)
  }
}
