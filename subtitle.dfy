/**
 * A cue (`SubtitleUnit`): a start and an end time, its text and the
 * formattings over that text; and a subtitle, the mutable list of cues.
 */
module Subtitles {
  import opened Wrappers
  import opened PyStr
  import opened Times
  import opened Formattings
  import Sorting

  datatype Cue = Cue(start: Time, end: Time, text: string, formattings: seq<Formatting>)

  /** Every span formatting lies within the text: 0 <= start <= end <= |text|. */
  predicate SpansWithin(fs: seq<Formatting>, n: int) {
    forall i :: 0 <= i < |fs| && fs[i].IsSpan() ==> 0 <= fs[i].start <= fs[i].end <= n
  }

  predicate WellFormed(c: Cue) { SpansWithin(c.formattings, |c.text|) }

  /** `duration`: end minus start with the clamping subtraction of times. */
  function Duration(c: Cue): (d: Time)
    ensures d.milliseconds >= 0
    ensures c.start.milliseconds <= c.end.milliseconds ==> d.milliseconds == c.end.milliseconds - c.start.milliseconds
    ensures c.start.milliseconds > c.end.milliseconds ==> d.milliseconds == 0
  {
    Sub(c.end, TimeOperand(c.start))
  }

  // ---------------------------------------------------------------- character count

  /** The number of characters that are not whitespace. */
  function NonSpaceCount(s: string): (n: nat)
    ensures n <= |s|
  {
    if s == [] then 0 else NonSpaceCount(s[..|s| - 1]) + (if IsSpace(s[|s| - 1]) then 0 else 1)
  }

  lemma {:induction false} NonSpaceCountAppend(a: string, b: string)
    ensures NonSpaceCount(a + b) == NonSpaceCount(a) + NonSpaceCount(b)
    decreases |b|
  {
    if b == [] {
      assert a + b == a;
    } else {
      assert (a + b)[..|a + b| - 1] == a + b[..|b| - 1];
      NonSpaceCountAppend(a, b[..|b| - 1]);
    }
  }

  lemma {:induction false} NonSpaceCountUniform(s: string)
    ensures (forall i :: 0 <= i < |s| ==> IsSpace(s[i])) ==> NonSpaceCount(s) == 0
    ensures (forall i :: 0 <= i < |s| ==> !IsSpace(s[i])) ==> NonSpaceCount(s) == |s|
    decreases |s|
  {
    if s != [] {
      NonSpaceCountUniform(s[..|s| - 1]);
    }
  }

  /** `"".join(s.split())` keeps exactly the non-whitespace characters. */
  lemma {:induction false} JoinedWordsLength(s: string)
    ensures |Join("", SplitWhitespace(s))| == NonSpaceCount(s)
    decreases |s|
  {
    var t := LStrip(s);
    NonSpaceCountLStrip(s);
    if t != [] {
      var i := WordEnd(t, 0);
      assert SplitWhitespace(s) == [t[..i]] + SplitWhitespace(t[i..]);
      NonSpaceCountWord(t, i);
      JoinEmptyCons(t[..i], SplitWhitespace(t[i..]));
      JoinedWordsLength(t[i..]);
    }
  }

  lemma NonSpaceCountLStrip(s: string)
    ensures NonSpaceCount(LStrip(s)) == NonSpaceCount(s)
  {
    var t := LStrip(s);
    assert s == s[..|s| - |t|] + t;
    NonSpaceCountAppend(s[..|s| - |t|], t);
    NonSpaceCountUniform(s[..|s| - |t|]);
  }

  lemma NonSpaceCountWord(t: string, i: nat)
    requires i <= |t| && forall j :: 0 <= j < i ==> !IsSpace(t[j])
    ensures NonSpaceCount(t) == i + NonSpaceCount(t[i..])
  {
    assert t == t[..i] + t[i..];
    NonSpaceCountAppend(t[..i], t[i..]);
    NonSpaceCountUniform(t[..i]);
  }

  /** `character_count(count_whitespace)`. */
  function CharacterCount(c: Cue, countWhitespace: bool): (n: nat)
    ensures n <= |c.text|
    ensures countWhitespace ==> n == |c.text|
  {
    if !countWhitespace then
      JoinedWordsLength(c.text);
      |Join("", SplitWhitespace(c.text))|
    else |c.text|
  }

  /** Without whitespace, the count is the number of non-whitespace characters. */
  lemma CharacterCountIsNonSpace(c: Cue)
    ensures CharacterCount(c, false) == NonSpaceCount(c.text)
  {
    JoinedWordsLength(c.text);
  }

  /** `line_count`: the number of lines `splitlines` gives; none only for empty text. */
  function LineCount(c: Cue): (n: nat)
    ensures n == 0 <==> c.text == []
  {
    |SplitLines(c.text)|
  }

  // ---------------------------------------------------------------- overlap and distance

  /** `overlaps`: the closed time intervals meet. */
  predicate Overlaps(a: Cue, b: Cue) {
    a.start.milliseconds <= b.end.milliseconds && b.start.milliseconds <= a.end.milliseconds
  }

  lemma OverlapsSymmetric(a: Cue, b: Cue)
    ensures Overlaps(a, b) == Overlaps(b, a)
  {
  }

  /** `max(a, b)` on times: b when it is greater, else a. */
  function MaxTime(a: Time, b: Time): Time {
    if b.milliseconds > a.milliseconds then b else a
  }

  /** `distance`: the two clamped one-sided gaps added up. */
  function Distance(a: Cue, b: Cue): (d: Time)
    ensures d.milliseconds >= 0
  {
    var zero := Time(0);
    var d1 := MaxTime(zero, Sub(a.start, TimeOperand(b.end)));
    var d2 := MaxTime(zero, Sub(b.start, TimeOperand(a.end)));
    Add(d1, TimeOperand(d2))
  }

  /**
   * Distance is symmetric and zero exactly for overlapping cues; for cues that
   * do not run backwards and do not overlap, it is the gap between them.
   */
  lemma DistanceIsGap(a: Cue, b: Cue)
    ensures Distance(a, b) == Distance(b, a)
    ensures Distance(a, b).milliseconds == 0 <==> Overlaps(a, b)
    ensures a.start.milliseconds <= a.end.milliseconds && b.start.milliseconds <= b.end.milliseconds ==>
      (a.end.milliseconds < b.start.milliseconds ==> Distance(a, b).milliseconds == b.start.milliseconds - a.end.milliseconds) &&
      (b.end.milliseconds < a.start.milliseconds ==> Distance(a, b).milliseconds == a.start.milliseconds - b.end.milliseconds)
  {
  }

  // ---------------------------------------------------------------- formatting queries

  /** `get_formatting_by_type(cls)`: the first formatting of that class, in list order. */
  function FormattingOfKind(fs: seq<Formatting>, k: Kind): (r: Option<Formatting>)
    ensures r.Some? ==> KindOf(r.value) == k && r.value in fs
    ensures r.Some? ==> exists i :: 0 <= i < |fs| && fs[i] == r.value && forall j :: 0 <= j < i ==> KindOf(fs[j]) != k
    ensures r.None? <==> forall i :: 0 <= i < |fs| ==> KindOf(fs[i]) != k
  {
    if fs == [] then None
    else if KindOf(fs[0]) == k then Some(fs[0])
    else
      var r := FormattingOfKind(fs[1..], k);
      if r.Some? then
        var i :| 0 <= i < |fs[1..]| && fs[1..][i] == r.value && forall j :: 0 <= j < i ==> KindOf(fs[1..][j]) != k;
        assert fs[i + 1] == r.value;
        r
      else r
  }

  /** `lines_of_formatting`: the indices of the lines a span touches, counted by '\n'. */
  function LinesOfFormatting(text: string, span: Span): (lines: seq<int>)
    ensures |lines| >= 1
    ensures lines[0] == CountChar(Slice(text, 0, span.start), '\n')
    ensures forall i :: 0 <= i < |lines| ==> lines[i] == lines[0] + i
  {
    var startLine := CountChar(Slice(text, 0, span.start), '\n');
    var endLine := startLine + CountChar(Slice(text, span.start, span.end), '\n');
    seq(endLine - startLine + 1, i => startLine + i)
  }

  /**
   * For a span inside the text, the range runs from the line holding the
   * start to the line holding the end, and never past the last line.
   */
  lemma LinesOfFormattingWithin(text: string, span: Span)
    requires 0 <= span.start <= span.end <= |text|
    ensures var lines := LinesOfFormatting(text, span);
      && lines[0] == CountChar(text[..span.start], '\n')
      && lines[|lines| - 1] == CountChar(text[..span.end], '\n')
      && forall i :: 0 <= i < |lines| ==> 0 <= lines[i] <= CountChar(text, '\n')
  {
    var s, e := span.start, span.end;
    assert Slice(text, 0, s) == text[..s];
    assert Slice(text, s, e) == text[s..e];
    assert text[..e] == text[..s] + text[s..e];
    CountCharAppend(text[..s], text[s..e], '\n');
    assert text == text[..e] + text[e..];
    CountCharAppend(text[..e], text[e..], '\n');
  }

  // ---------------------------------------------------------------- the subtitle list

  /** The sort key `unit.start`. */
  function StartKey(c: Cue): seq<int> { [c.start.milliseconds] }

  /** `Subtitle`: a mutable list of cues. */
  class Subtitle {
    var units: seq<Cue>

    constructor (units: seq<Cue>)
      ensures this.units == units
    {
      this.units := units;
    }

    /** `append`: the cue goes at the end. */
    method Append(c: Cue)
      modifies this
      ensures units == old(units) + [c]
    {
      units := units + [c];
    }

    /** `unit.end = t` on the i-th cue, seen through a reference held elsewhere. */
    method SetEnd(i: nat, t: Time)
      requires i < |units|
      modifies this
      ensures units == old(units)[i := old(units)[i].(end := t)]
    {
      units := units[i := units[i].(end := t)];
    }

    /** `subtitle.sort(key=lambda unit: unit.start)`: a stable sort in place. */
    method SortByStart()
      modifies this
      ensures units == Sorting.StableSort(old(units), StartKey)
      ensures Sorting.SortedBy(units, StartKey) && multiset(units) == multiset(old(units))
    {
      units := Sorting.StableSort(units, StartKey);
      Sorting.StableSortSorted(old(units), StartKey);
    }
  }
}
