/**
 * The two line splitters the scripts rely on: `readlines()` on a file opened
 * in text mode (universal newlines: "\r\n" and "\r" are read as "\n", and a
 * line ends after each "\n"), and `str.splitlines(keepends=True)`, which ends
 * a line at any of Python's line boundaries and treats "\r\n" as one.
 */
module Lines {
  import opened Schema

  datatype LineEnds = NewlineOnly | AllBoundaries

  /** The characters that end a line. */
  predicate IsBoundary(c: char, mode: LineEnds)
  {
    match mode
    case NewlineOnly => c == '\n'
    case AllBoundaries =>
      c == '\n' || c == '\r' || c == '\U{0B}' || c == '\U{0C}' || c == '\U{1C}' || c == '\U{1D}'
      || c == '\U{1E}' || c == '\U{85}' || c == '\U{2028}' || c == '\U{2029}'
  }

  /** The index of the first boundary character, or -1 when there is none. */
  function FindBoundary(s: string, mode: LineEnds): (i: int)
    ensures -1 <= i < |s|
    ensures i == -1 ==> forall k :: 0 <= k < |s| ==> !IsBoundary(s[k], mode)
    ensures i >= 0 ==> IsBoundary(s[i], mode) && forall k :: 0 <= k < i ==> !IsBoundary(s[k], mode)
  {
    if |s| == 0 then -1
    else if IsBoundary(s[0], mode) then 0
    else
      var j := FindBoundary(s[1..], mode);
      if j == -1 then -1 else j + 1
  }

  /** The end of the terminator starting at `i`: "\r\n" is one terminator for `splitlines`. */
  function TerminatorEnd(s: string, i: nat, mode: LineEnds): (e: nat)
    requires i < |s|
    ensures i < e <= |s|
  {
    if mode == AllBoundaries && s[i] == '\r' && i + 1 < |s| && s[i + 1] == '\n' then i + 2 else i + 1
  }

  /** The lines of `s`, each keeping its terminator; the last one may have none. */
  function SplitKeepEnds(s: string, mode: LineEnds): seq<string>
    decreases |s|
  {
    if |s| == 0 then []
    else
      var i := FindBoundary(s, mode);
      if i == -1 then [s]
      else
        var e := TerminatorEnd(s, i, mode);
        [s[..e]] + SplitKeepEnds(s[e..], mode)
  }

  /** A line as the splitter produces it: a body free of boundaries, then at most one terminator. */
  predicate IsLine(line: string, mode: LineEnds)
  {
    exists b :: 0 <= b <= |line| && LineSplitsAt(line, b, mode)
  }

  predicate LineSplitsAt(line: string, b: nat, mode: LineEnds)
    requires b <= |line|
  {
    && (forall k :: 0 <= k < b ==> !IsBoundary(line[k], mode))
    && (line[b..] == [] || IsTerminator(line[b..], mode))
  }

  predicate IsTerminator(t: string, mode: LineEnds)
  {
    (|t| == 1 && IsBoundary(t[0], mode)) || (mode == AllBoundaries && t == "\r\n")
  }

  /** Joining the lines gives back the text: nothing is dropped or added. */
  lemma {:induction false} SplitKeepEndsConcat(s: string, mode: LineEnds)
    ensures Flatten(SplitKeepEnds(s, mode)) == s
    decreases |s|
  {
    if |s| > 0 {
      var i := FindBoundary(s, mode);
      if i != -1 {
        var e := TerminatorEnd(s, i, mode);
        SplitKeepEndsConcat(s[e..], mode);
        assert s[..e] + s[e..] == s;
      }
    }
  }

  predicate EndsInBoundary(line: string, mode: LineEnds)
  {
    |line| > 0 && IsBoundary(line[|line| - 1], mode)
  }

  /** Every line is non-empty and has the line shape; every line but the last ends in a boundary. */
  predicate WellSplit(lines: seq<string>, mode: LineEnds)
  {
    && (forall k :: 0 <= k < |lines| ==> |lines[k]| > 0 && IsLine(lines[k], mode))
    && (forall k :: 0 <= k < |lines| - 1 ==> EndsInBoundary(lines[k], mode))
  }

  lemma WellSplitCons(line: string, rest: seq<string>, mode: LineEnds)
    requires |line| > 0 && IsLine(line, mode) && EndsInBoundary(line, mode)
    requires WellSplit(rest, mode)
    ensures WellSplit([line] + rest, mode)
  {
    var lines := [line] + rest;
    forall k | 0 <= k < |lines|
      ensures |lines[k]| > 0 && IsLine(lines[k], mode)
    {
      if k > 0 {
        assert lines[k] == rest[k - 1];
      }
    }
    forall k | 0 <= k < |lines| - 1
      ensures EndsInBoundary(lines[k], mode)
    {
      if k > 0 {
        assert lines[k] == rest[k - 1];
      }
    }
  }

  /** The first line: the text up to and including its first terminator. */
  lemma HeadLineShape(s: string, mode: LineEnds, i: int)
    requires 0 <= i < |s| && i == FindBoundary(s, mode)
    ensures IsLine(s[..TerminatorEnd(s, i, mode)], mode)
    ensures EndsInBoundary(s[..TerminatorEnd(s, i, mode)], mode)
  {
    var e := TerminatorEnd(s, i, mode);
    var line := s[..e];
    assert line[i..] == s[i..e];
    assert LineSplitsAt(line, i, mode);
  }

  /**
   * Every line is non-empty and has the line shape; every line but the last
   * ends in a terminator.
   */
  lemma {:induction false} SplitKeepEndsShape(s: string, mode: LineEnds)
    ensures WellSplit(SplitKeepEnds(s, mode), mode)
    decreases |s|
  {
    if |s| > 0 {
      var i := FindBoundary(s, mode);
      if i == -1 {
        assert LineSplitsAt(s, |s|, mode);
        assert SplitKeepEnds(s, mode) == [s];
      } else {
        var e := TerminatorEnd(s, i, mode);
        SplitKeepEndsShape(s[e..], mode);
        HeadLineShape(s, mode, i);
        WellSplitCons(s[..e], SplitKeepEnds(s[e..], mode), mode);
      }
    }
  }

  /** Two texts split into the same lines exactly when they are equal. */
  lemma SplitKeepEndsInjective(a: string, b: string, mode: LineEnds)
    ensures SplitKeepEnds(a, mode) == SplitKeepEnds(b, mode) <==> a == b
  {
    SplitKeepEndsConcat(a, mode);
    SplitKeepEndsConcat(b, mode);
  }

  /** Universal-newline reading: "\r\n" and a lone "\r" both become "\n". */
  function Translate(s: string): (r: string)
    ensures '\r' !in r
    ensures '\r' !in s ==> r == s
  {
    if |s| == 0 then []
    else if s[0] == '\r' then "\n" + Translate(if |s| >= 2 && s[1] == '\n' then s[2..] else s[1..])
    else [s[0]] + Translate(s[1..])
  }

  /** Translation only turns "\r" into "\n": every other character comes from the text. */
  lemma {:induction false} TranslateChars(s: string)
    ensures forall c :: c in Translate(s) ==> c in s || c == '\n'
    decreases |s|
  {
    if |s| > 0 {
      var rest := if s[0] == '\r' && |s| >= 2 && s[1] == '\n' then s[2..] else s[1..];
      TranslateChars(rest);
      assert forall c :: c in rest ==> c in s;
    }
  }

  /** `f.readlines()` on a file opened for reading in text mode. */
  function ReadLines(text: string): seq<string>
  {
    SplitKeepEnds(Translate(text), NewlineOnly)
  }

  /** A character of a line is a character of the text it was split from. */
  lemma {:induction false} SplitKeepEndsChars(s: string, mode: LineEnds)
    ensures forall k, c :: 0 <= k < |SplitKeepEnds(s, mode)| && c in SplitKeepEnds(s, mode)[k] ==> c in s
    decreases |s|
  {
    if |s| > 0 {
      var i := FindBoundary(s, mode);
      if i != -1 {
        var e := TerminatorEnd(s, i, mode);
        SplitKeepEndsChars(s[e..], mode);
        var lines := SplitKeepEnds(s, mode);
        forall k, c | 0 <= k < |lines| && c in lines[k]
          ensures c in s
        {
          if k == 0 {
            assert c in s[..e];
          } else {
            assert lines[k] == SplitKeepEnds(s[e..], mode)[k - 1];
            assert c in s[e..];
          }
        }
      }
    }
  }

  /** Joining the lines back together gives the translated text. */
  lemma ReadLinesConcat(text: string)
    ensures Flatten(ReadLines(text)) == Translate(text)
  {
    SplitKeepEndsConcat(Translate(text), NewlineOnly);
  }

  /** No line holds a carriage return once newlines are translated. */
  lemma ReadLinesHaveNoReturn(text: string)
    ensures forall k :: 0 <= k < |ReadLines(text)| ==> '\r' !in ReadLines(text)[k]
  {
    SplitKeepEndsChars(Translate(text), NewlineOnly);
  }

  /** A newline only ever ends a line. */
  lemma ReadLinesNewlineAtEnd(text: string)
    ensures forall k, m :: 0 <= k < |ReadLines(text)| && 0 <= m < |ReadLines(text)[k]| - 1 ==>
      ReadLines(text)[k][m] != '\n'
  {
    SplitKeepEndsShape(Translate(text), NewlineOnly);
    var lines := ReadLines(text);
    forall k, m | 0 <= k < |lines| && 0 <= m < |lines[k]| - 1
      ensures lines[k][m] != '\n'
    {
      var b :| 0 <= b <= |lines[k]| && LineSplitsAt(lines[k], b, NewlineOnly);
      assert m < b;
    }
  }
}
