/**
 * extract_title: split the preamble into lines (bytes.splitlines) and return
 * the first title the pattern `^#+[^#]\s*(.*)$` finds: one or more hashes,
 * one consumed non-hash character, optional whitespace, then the rest of the
 * line.
 */
module Titles {
  import opened Common

  /** A line break as bytes.splitlines sees it. */
  predicate IsBreak(c: char)
  {
    c == '\n' || c == '\r'
  }

  /** The `\s` class of a bytes pattern: space, \t, \n, \r, \v and \f. */
  predicate IsSpace(c: char)
  {
    c == ' ' || c == '\t' || c == '\n' || c == '\r' || c == '\U{000B}' || c == '\U{000C}'
  }

  predicate NoBreaks(s: string)
  {
    forall k :: 0 <= k < |s| ==> !IsBreak(s[k])
  }

  /** The first index at or after `i` holding a line break, or |s|. */
  function LineEnd(s: string, i: nat): (e: nat)
    requires i <= |s|
    ensures i <= e <= |s| && NoBreaks(s[i..e])
    ensures e < |s| ==> IsBreak(s[e])
    decreases |s| - i
  {
    if i == |s| || IsBreak(s[i]) then i
    else
      var e := LineEnd(s, i + 1);
      assert forall k :: 0 <= k < e - i ==> s[i..e][k] == s[i + k];
      e
  }

  /** Where the line after the break at `e` starts: "\r\n" is one break. */
  function AfterBreak(s: string, e: nat): (n: nat)
    requires e < |s|
    ensures e < n <= |s|
  {
    if s[e] == '\r' && e + 1 < |s| && s[e + 1] == '\n' then e + 2 else e + 1
  }

  /** bytes.splitlines from offset `i`: no empty line after a final break. */
  function SplitFrom(s: string, i: nat): (lines: seq<string>)
    requires i <= |s|
    ensures forall j :: 0 <= j < |lines| ==> NoBreaks(lines[j]) && |lines[j]| <= |s| - i
    decreases |s| - i
  {
    if i == |s| then []
    else
      var e := LineEnd(s, i);
      if e == |s| then [s[i..e]] else [s[i..e]] + SplitFrom(s, AfterBreak(s, e))
  }

  /** bytes.splitlines: the lines hold no break and are no longer than the text; only the empty text has no line. */
  function SplitLines(s: string): (lines: seq<string>)
    ensures forall j :: 0 <= j < |lines| ==> NoBreaks(lines[j]) && |lines[j]| <= |s|
    ensures lines == [] <==> s == []
  {
    SplitFrom(s, 0)
  }

  /** The lines joined with "\n" between them. */
  function JoinLines(lines: seq<string>): string
  {
    if lines == [] then [] else if |lines| == 1 then lines[0] else lines[0] + "\n" + JoinLines(lines[1..])
  }

  predicate AllHash(s: string)
  {
    forall k :: 0 <= k < |s| ==> s[k] == '#'
  }

  predicate AllSpace(w: string)
  {
    forall k :: 0 <= k < |w| ==> IsSpace(w[k])
  }

  /** The number of leading '#' characters (the greedy `#+`). */
  function Hashes(s: string): (h: nat)
    ensures h <= |s| && (h < |s| ==> s[h] != '#')
    ensures forall k :: 0 <= k < h ==> s[k] == '#'
  {
    if s == [] || s[0] != '#' then 0
    else
      var h := Hashes(s[1..]);
      assert forall k :: 1 <= k < h + 1 ==> s[k] == s[1..][k - 1];
      h + 1
  }

  /** The number of leading whitespace characters (the greedy `\s*`). */
  function Spaces(s: string): (n: nat)
    ensures n <= |s| && (n < |s| ==> !IsSpace(s[n]))
    ensures forall k :: 0 <= k < n ==> IsSpace(s[k])
  {
    if s == [] || !IsSpace(s[0]) then 0
    else
      var n := Spaces(s[1..]);
      assert forall k :: 1 <= k < n + 1 ==> s[k] == s[1..][k - 1];
      n + 1
  }

  /** The title the pattern finds in one line, if it matches: what follows the hashes, one character and the whitespace. */
  function MatchTitle(line: string): Option<string>
  {
    var h := Hashes(line);
    if h == 0 || h == |line| then None
    else
      var rest := line[h + 1..];
      Some(rest[Spaces(rest)..])
  }

  /** The first match over the lines, in order: there is none exactly when no line matches. */
  function FirstTitle(lines: seq<string>): (r: Option<string>)
    ensures r.None? <==> forall j :: 0 <= j < |lines| ==> MatchTitle(lines[j]).None?
  {
    if lines == [] then None
    else match MatchTitle(lines[0])
      case Some(t) => Some(t)
      case None =>
        assert forall j :: 1 <= j < |lines| ==> lines[j] == lines[1..][j - 1];
        FirstTitle(lines[1..])
  }

  /**
   * extract_title: the title has no line break, does not start with
   * whitespace, and is at least two characters shorter than the preamble.
   */
  function ExtractTitle(preamble: string): (r: Option<string>)
    ensures r.Some? ==> NoBreaks(r.value) && |r.value| + 2 <= |preamble|
    ensures r.Some? && r.value != [] ==> !IsSpace(r.value[0])
  {
    TitleOfShortLines(SplitLines(preamble), |preamble|);
    FirstTitle(SplitLines(preamble))
  }

  /** A matched line starts with '#'; its title is a suffix at least two shorter that does not start with whitespace. */
  lemma TitleIsSuffix(line: string)
    requires MatchTitle(line).Some?
    ensures var t := MatchTitle(line).value;
      && |t| + 2 <= |line| && line[0] == '#' && t == line[|line| - |t|..]
      && (t != [] ==> !IsSpace(t[0]))
  {
    var h := Hashes(line);
    var rest := line[h + 1..];
    var n := Spaces(rest);
    assert rest[n..] == line[h + 1 + n..];
  }

  /** The title found in lines without breaks and no longer than `bound` has no break and is at least two shorter. */
  lemma {:induction false} TitleOfShortLines(lines: seq<string>, bound: nat)
    requires forall j :: 0 <= j < |lines| ==> NoBreaks(lines[j]) && |lines[j]| <= bound
    ensures FirstTitle(lines).Some? ==> NoBreaks(FirstTitle(lines).value) && |FirstTitle(lines).value| + 2 <= bound
    ensures FirstTitle(lines).Some? && FirstTitle(lines).value != [] ==> !IsSpace(FirstTitle(lines).value[0])
  {
    if lines != [] {
      var line := lines[0];
      match MatchTitle(line)
      case Some(t) =>
        TitleIsSuffix(line);
        assert forall k :: 0 <= k < |t| ==> t[k] == line[|line| - |t| + k];
      case None =>
        TitleOfShortLines(lines[1..], bound);
    }
  }

  /**
   * The way the pattern splits a matching line: `h` >= 1 hashes, one
   * non-hash character, whitespace `w`, and the title, which does not start
   * with whitespace (the `\s*` is greedy).
   */
  predicate TitleShape(line: string, hs: string, c: char, w: string, title: string)
  {
    && hs != [] && AllHash(hs) && c != '#' && AllSpace(w)
    && (title != [] ==> !IsSpace(title[0]))
    && line == hs + ([c] + w + title)
  }

  /** The run of hashes is unique: n hashes followed by a non-hash or the end means Hashes is n. */
  lemma HashesIs(s: string, n: nat)
    requires n <= |s| && (n < |s| ==> s[n] != '#')
    requires forall k :: 0 <= k < n ==> s[k] == '#'
    ensures Hashes(s) == n
  {
  }

  /** Likewise for the run of whitespace. */
  lemma SpacesIs(s: string, n: nat)
    requires n <= |s| && (n < |s| ==> !IsSpace(s[n]))
    requires forall k :: 0 <= k < n ==> IsSpace(s[k])
    ensures Spaces(s) == n
  {
  }

  /** A run of `h` hashes, one other character, and a run of `n` whitespace characters split the line as the pattern does. */
  lemma ShapeOfRuns(line: string, h: nat, n: nat)
    requires 0 < h < |line| && line[h] != '#' && forall k :: 0 <= k < h ==> line[k] == '#'
    requires h + 1 + n <= |line| && forall k :: h + 1 <= k < h + 1 + n ==> IsSpace(line[k])
    requires h + 1 + n < |line| ==> !IsSpace(line[h + 1 + n])
    ensures TitleShape(line, line[..h], line[h], line[h + 1..h + 1 + n], line[h + 1 + n..])
  {
    var hs, w, t := line[..h], line[h + 1..h + 1 + n], line[h + 1 + n..];
    assert AllHash(hs) by {
      assert forall k :: 0 <= k < h ==> hs[k] == line[k];
    }
    assert AllSpace(w) by {
      assert forall k :: 0 <= k < n ==> w[k] == line[h + 1 + k];
    }
    assert t != [] ==> t[0] == line[h + 1 + n];
    assert line == hs + ([line[h]] + w + t);
  }

  /** A line has a title exactly when it splits as the pattern describes; the title is the last part. */
  lemma MatchTitleSound(line: string) returns (hs: string, c: char, w: string)
    requires MatchTitle(line).Some?
    ensures TitleShape(line, hs, c, w, MatchTitle(line).value)
  {
    var h := Hashes(line);
    var rest := line[h + 1..];
    var n := Spaces(rest);
    assert forall k :: h + 1 <= k < h + 1 + n ==> line[k] == rest[k - h - 1];
    assert h + 1 + n < |line| ==> line[h + 1 + n] == rest[n];
    assert MatchTitle(line).value == line[h + 1 + n..] by {
      assert rest[n..] == line[h + 1 + n..];
    }
    ShapeOfRuns(line, h, n);
    hs, c, w := line[..h], line[h], line[h + 1..h + 1 + n];
  }

  /** Any split of a line as the pattern describes yields the title MatchTitle finds. */
  lemma MatchTitleComplete(line: string, hs: string, c: char, w: string, title: string)
    requires TitleShape(line, hs, c, w, title)
    ensures MatchTitle(line) == Some(title)
  {
    assert Hashes(line) == |hs| by {
      assert forall k :: 0 <= k < |hs| ==> line[k] == hs[k];
      assert line[|hs|] == c;
      HashesIs(line, |hs|);
    }
    var rest := line[|hs| + 1..];
    assert rest == w + title;
    assert Spaces(rest) == |w| by {
      assert forall k :: 0 <= k < |w| ==> rest[k] == w[k];
      assert |w| < |rest| ==> rest[|w|] == title[0];
      SpacesIs(rest, |w|);
    }
    assert rest[|w|..] == title;
  }

  /** A line without a title is empty, does not start with '#', or is hashes only. */
  lemma NoTitleLines(line: string)
    ensures MatchTitle(line).None? <==> (line == [] || line[0] != '#' || AllHash(line))
  {
    if AllHash(line) && line != [] {
      HashesIs(line, |line|);
    }
  }

  /** The result of extract_title is the title of the first line that has one; None when none has. */
  lemma {:induction false} FirstTitleIsFirstMatch(lines: seq<string>)
    ensures FirstTitle(lines).Some? ==>
      exists j :: 0 <= j < |lines| && MatchTitle(lines[j]) == FirstTitle(lines)
        && forall k :: 0 <= k < j ==> MatchTitle(lines[k]).None?
  {
    if lines != [] && MatchTitle(lines[0]).None? {
      var tail := lines[1..];
      FirstTitleIsFirstMatch(tail);
      assert FirstTitle(lines) == FirstTitle(tail);
      assert forall j :: 1 <= j < |lines| ==> lines[j] == tail[j - 1];
      if FirstTitle(tail).Some? {
        var j :| 0 <= j < |tail| && MatchTitle(tail[j]) == FirstTitle(tail)
          && forall k :: 0 <= k < j ==> MatchTitle(tail[k]).None?;
        assert MatchTitle(lines[j + 1]) == FirstTitle(lines);
      }
    } else if lines != [] {
      assert MatchTitle(lines[0]) == FirstTitle(lines);
    }
  }

  /** Splitting lines joined with "\n" gives them back, when none holds a break and the last is non-empty. */
  lemma {:induction false} SplitJoin(lines: seq<string>)
    requires forall j :: 0 <= j < |lines| ==> NoBreaks(lines[j])
    requires lines != [] ==> lines[|lines| - 1] != []
    ensures SplitLines(JoinLines(lines)) == lines
  {
    var empty: string := [];
    SplitFromJoin(lines, empty);
    assert empty + JoinLines(lines) == JoinLines(lines);
  }

  lemma {:induction false} SplitFromJoin(lines: seq<string>, prefix: string)
    requires forall j :: 0 <= j < |lines| ==> NoBreaks(lines[j])
    requires lines != [] ==> lines[|lines| - 1] != []
    ensures SplitFrom(prefix + JoinLines(lines), |prefix|) == lines
    decreases |lines|
  {
    var s := prefix + JoinLines(lines);
    if lines == [] {
      assert s == prefix;
    } else if |lines| == 1 {
      var line := lines[0];
      var empty: string := [];
      assert s == prefix + line + empty;
      LineEndOfLine(prefix, line, empty);
      assert s[|prefix|..|s|] == line;
      assert SplitFrom(s, |prefix|) == [line];
    } else {
      var line := lines[0];
      var tail := JoinLines(lines[1..]);
      var e := |prefix| + |line|;
      assert JoinLines(lines) == line + "\n" + tail;
      assert s == prefix + line + ("\n" + tail);
      LineEndOfLine(prefix, line, "\n" + tail);
      assert LineEnd(s, |prefix|) == e;
      assert s[e] == '\n';
      assert s[|prefix|..e] == line;
      var prefix' := prefix + line + "\n";
      assert s == prefix' + tail;
      assert AfterBreak(s, e) == |prefix'|;
      SplitFromJoin(lines[1..], prefix');
      assert SplitFrom(s, |prefix|) == [line] + SplitFrom(s, |prefix'|);
      assert lines == [line] + lines[1..];
    }
  }

  /** The line that starts at the end of `prefix` ends where `rest` begins, if `rest` is empty or opens with a break. */
  lemma {:induction false} LineEndOfLine(prefix: string, line: string, rest: string)
    requires NoBreaks(line) && (rest != [] ==> IsBreak(rest[0]))
    ensures LineEnd(prefix + line + rest, |prefix|) == |prefix| + |line|
    decreases |line|
  {
    if line != [] {
      assert prefix + line + rest == (prefix + [line[0]]) + line[1..] + rest;
      LineEndOfLine(prefix + [line[0]], line[1..], rest);
    }
  }

  /** One hash, one other character and a title that does not start with whitespace: the title is what follows the character. */
  lemma OneHashTitle(c: char, t: string)
    requires c != '#' && !IsBreak(c) && NoBreaks(t) && t != [] && !IsSpace(t[0])
    ensures ExtractTitle(['#', c] + t) == Some(t)
  {
    var line := ['#', c] + t;
    var none: string := [];
    assert NoBreaks(line) by {
      assert forall k :: 2 <= k < |line| ==> line[k] == t[k - 2];
    }
    OneLine(line);
    assert line == "#" + ([c] + none + t);
    MatchTitleComplete(line, "#", c, none, t);
  }

  /** The consumed non-hash character: "# Title" gives "Title" but "#Title" gives "itle". */
  lemma TitleExamples()
    ensures ExtractTitle("# Title") == Some("Title")
    ensures ExtractTitle("#Title") == Some("itle")
  {
    OneHashTitle(' ', "Title");
    assert "# Title" == ['#', ' '] + "Title";
    OneHashTitle('T', "itle");
    assert "#Title" == ['#', 'T'] + "itle";
  }

  /** A non-empty text without line breaks is one line. */
  lemma OneLine(s: string)
    requires s != [] && NoBreaks(s)
    ensures SplitLines(s) == [s]
  {
    SplitJoin([s]);
  }

  /** "\r\n" is a single line break: it does not open an empty line. */
  lemma CrLfIsOneBreak(a: string, b: string)
    requires NoBreaks(a) && NoBreaks(b) && b != []
    ensures SplitLines(a + "\r\n" + b) == [a, b]
  {
    var s := a + "\r\n" + b;
    var empty: string := [];
    LineEndOfLine(empty, a, "\r\n" + b);
    assert empty + a + ("\r\n" + b) == s;
    assert s[|a|] == '\r' && s[|a| + 1] == '\n';
    assert AfterBreak(s, |a|) == |a| + 2;
    var prefix := a + "\r\n";
    LineEndOfLine(prefix, b, empty);
    assert prefix + b + empty == s;
    assert s[|prefix|..|s|] == b;
    assert SplitFrom(s, |prefix|) == [b];
    assert s[0..|a|] == a;
    assert SplitFrom(s, 0) == [a] + SplitFrom(s, |prefix|);
  }
}
