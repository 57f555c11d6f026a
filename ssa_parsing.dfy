/**
 * The position-directive stripper (`SubtitleSSATagParser`). It removes
 * every `{\...}` directive from a cue's text and keeps the first valid
 * `\an1`..`\an9` as the cue's position on the 3x3 grid.
 *
 * The directive pattern is `{`, any number of backslashes, then a group of
 * two or more non-whitespace characters, then `}`. The group is greedy: it
 * extends to the last `}` of the run of non-whitespace characters, so
 * `{\an8}Hello}` is one directive whose group is `an8}Hello`. The scanner
 * below follows the backtracking order of that pattern exactly.
 */
module SsaParsing {
  import opened Wrappers
  import opened PyStr
  import opened Formattings

  /** One match: it covers [begin, end); the group is [groupStart, end - 1). */
  datatype Match = Match(begin: nat, groupStart: nat, end: nat)

  /** The number of backslashes from k on. */
  function Backslashes(s: string, k: nat): (n: nat)
    requires k <= |s|
    ensures k + n <= |s| && forall i :: k <= i < k + n ==> s[i] == '\\'
    ensures k + n < |s| ==> s[k + n] != '\\'
    decreases |s| - k
  {
    if k < |s| && s[k] == '\\' then 1 + Backslashes(s, k + 1) else 0
  }

  /** The last `}` in s[lo..hi]. */
  function LastBrace(s: string, lo: nat, hi: nat): (r: Option<nat>)
    requires lo <= hi <= |s|
    ensures r.Some? ==> lo <= r.value < hi && s[r.value] == '}' && forall i :: r.value < i < hi ==> s[i] != '}'
    ensures r.None? ==> forall i :: lo <= i < hi ==> s[i] != '}'
    decreases hi - lo
  {
    if hi == lo then None
    else if s[hi - 1] == '}' then Some(hi - 1)
    else LastBrace(s, lo, hi - 1)
  }

  /**
   * The pattern matches at j with the backslashes s[j + 1..g], the group
   * s[g..e] (two or more non-whitespace characters) and the closing `}` at e.
   */
  predicate IsMatchAt(s: string, j: nat, g: nat, e: nat) {
    && j < |s| && s[j] == '{'
    && j + 1 <= g && g + 2 <= e < |s| && s[e] == '}'
    && (forall i :: j + 1 <= i < g ==> s[i] == '\\')
    && (forall i :: g <= i < e ==> !IsSpace(s[i]))
  }

  /**
   * The match of the pattern that starts at j, if any. The backslashes take
   * as many as they can while leaving the group at least two characters
   * before the last `}` of the non-whitespace run. This is the match the
   * backtracking engine reports: of all the ways the pattern matches at j,
   * the one with the most backslashes and, among those, the longest group.
   */
  function MatchAt(s: string, j: nat): (r: Option<Match>)
    requires j < |s|
    ensures r.None? <==> forall g: nat, e: nat :: !IsMatchAt(s, j, g, e)
    ensures r.Some? ==> var m := r.value;
      && m.begin == j && m.end >= 1 && IsMatchAt(s, j, m.groupStart, m.end - 1)
      && forall g: nat, e: nat :: IsMatchAt(s, j, g, e) ==> g < m.groupStart || (g == m.groupStart && e <= m.end - 1)
  {
    MatchBounds(s, j);
    if s[j] != '{' then None
    else
      var run := WordEnd(s, j + 1);
      match LastBrace(s, j + 1, run)
      case None => None
      case Some(e) =>
        if e < j + 3 then None
        else
          var b := Backslashes(s, j + 1);
          var taken := if b <= e - j - 3 then b else e - j - 3;
          assert IsMatchAt(s, j, j + 1 + taken, e);
          Some(Match(j, j + 1 + taken, e + 1))
  }

  /**
   * Every way the pattern matches at j ends inside the run of
   * non-whitespace after the `{`, at or before its last `}`, and has no more
   * backslashes than there are.
   */
  lemma MatchBounds(s: string, j: nat)
    requires j < |s|
    ensures forall g: nat, e: nat :: IsMatchAt(s, j, g, e) ==>
      && e < WordEnd(s, j + 1)
      && LastBrace(s, j + 1, WordEnd(s, j + 1)).Some?
      && e <= LastBrace(s, j + 1, WordEnd(s, j + 1)).value
      && g - j - 1 <= Backslashes(s, j + 1)
  {
    forall g: nat, e: nat | IsMatchAt(s, j, g, e)
      ensures e < WordEnd(s, j + 1)
      ensures LastBrace(s, j + 1, WordEnd(s, j + 1)).Some?
      ensures e <= LastBrace(s, j + 1, WordEnd(s, j + 1)).value
      ensures g - j - 1 <= Backslashes(s, j + 1)
    {
      BackslashesAtLeast(s, j + 1, g - j - 1);
      forall i | j + 1 <= i <= e ensures !IsSpace(s[i]) {
        if i < g { assert s[i] == '\\'; }
      }
      WordEndBeyond(s, j + 1, e);
    }
  }

  /** A run of n backslashes from k is no longer than the backslashes counted there. */
  lemma {:induction false} BackslashesAtLeast(s: string, k: nat, n: nat)
    requires k + n <= |s| && forall i :: k <= i < k + n ==> s[i] == '\\'
    ensures n <= Backslashes(s, k)
    decreases n
  {
    if n > 0 {
      BackslashesAtLeast(s, k + 1, n - 1);
    }
  }

  /** Non-whitespace from k through e: the run from k goes past e. */
  lemma {:induction false} WordEndBeyond(s: string, k: nat, e: nat)
    requires k <= e < |s| && forall i :: k <= i <= e ==> !IsSpace(s[i])
    ensures e < WordEnd(s, k)
    decreases e - k
  {
    if k < e {
      WordEndBeyond(s, k + 1, e);
    }
  }

  /** No match starts in [lo, hi). */
  predicate NoMatchIn(s: string, lo: nat, hi: nat)
    requires hi <= |s|
  {
    forall p :: lo <= p < hi ==> MatchAt(s, p).None?
  }

  /**
   * What `finditer` reports from k on: the first match at or after k, with
   * no match starting before it, then the same from that match's end.
   */
  predicate FindIter(s: string, k: nat, ms: seq<Match>)
    decreases |ms|
  {
    if ms == [] then k <= |s| && NoMatchIn(s, k, |s|)
    else
      && k <= ms[0].begin < |s| && NoMatchIn(s, k, ms[0].begin)
      && MatchAt(s, ms[0].begin) == Some(ms[0])
      && FindIter(s, ms[0].end, ms[1..])
  }

  /** No match at k: what `finditer` reports from k + 1 is what it reports from k. */
  lemma {:induction false} FindIterSkip(s: string, k: nat, ms: seq<Match>)
    requires k < |s| && MatchAt(s, k).None? && FindIter(s, k + 1, ms)
    ensures FindIter(s, k, ms)
  {
    if ms == [] {
      assert NoMatchIn(s, k, |s|);
    } else {
      assert NoMatchIn(s, k, ms[0].begin);
    }
  }

  /** Matches that follow one another from k on without overlapping, all inside s. */
  predicate Ordered(s: string, k: nat, ms: seq<Match>)
    decreases |ms|
  {
    if ms == [] then k <= |s|
    else k <= ms[0].begin < ms[0].end <= |s| && Ordered(s, ms[0].end, ms[1..])
  }

  /** Only one list of matches is what `finditer` reports. */
  lemma {:induction false} FindIterUnique(s: string, k: nat, ms: seq<Match>, ms': seq<Match>)
    requires FindIter(s, k, ms) && FindIter(s, k, ms')
    ensures ms == ms'
    decreases |ms|
  {
    if ms != [] && ms' != [] {
      assert ms[0] == ms'[0];
      FindIterUnique(s, ms[0].end, ms[1..], ms'[1..]);
      assert ms == [ms[0]] + ms[1..] && ms' == [ms'[0]] + ms'[1..];
    } else {
      assert ms == [] && ms' == [];
    }
  }

  /** `finditer`: the non-overlapping matches from k on, left to right. */
  function Matches(s: string, k: nat): (ms: seq<Match>)
    requires k <= |s|
    ensures FindIter(s, k, ms) && Ordered(s, k, ms)
    ensures forall i :: 0 <= i < |ms| ==> k <= ms[i].begin && ms[i].groupStart + 2 <= ms[i].end - 1 && ms[i].end <= |s|
    decreases |s| - k
  {
    if k == |s| then []
    else
      match MatchAt(s, k)
      case Some(m) =>
        var rest := Matches(s, m.end);
        assert ([m] + rest)[1..] == rest;
        [m] + rest
      case None =>
        var ms := Matches(s, k + 1);
        FindIterSkip(s, k, ms);
        ms
  }

  /** The text from k on outside the given matches: the gaps between them, in order. */
  function Gaps(s: string, k: nat, ms: seq<Match>): string
    requires Ordered(s, k, ms)
    decreases |ms|
  {
    if ms == [] then s[k..]
    else s[k..ms[0].begin] + Gaps(s, ms[0].end, ms[1..])
  }

  /** `sub("", s)`: the text from k on with every match `finditer` reports removed, and nothing else. */
  function RemoveMatches(s: string, k: nat): (r: string)
    requires k <= |s|
    ensures r == Gaps(s, k, Matches(s, k))
    ensures |r| <= |s| - k
    decreases |s| - k
  {
    if k == |s| then ""
    else
      match MatchAt(s, k)
      case Some(m) => RemoveMatches(s, m.end)
      case None =>
        var r := [s[k]] + RemoveMatches(s, k + 1);
        GapsStep(s, k, Matches(s, k + 1));
        r
  }

  /** Where no match starts at k, the gaps from k are s[k] and the gaps from k + 1. */
  lemma {:induction false} GapsStep(s: string, k: nat, ms: seq<Match>)
    requires k < |s| && Ordered(s, k + 1, ms)
    ensures Ordered(s, k, ms) && Gaps(s, k, ms) == [s[k]] + Gaps(s, k + 1, ms)
  {
    if ms == [] {
      assert s[k..] == [s[k]] + s[k + 1..];
    } else {
      ConsOnto(s, k, ms[0].begin, Gaps(s, ms[0].end, ms[1..]));
    }
  }

  lemma ConsOnto(s: string, k: nat, b: nat, rest: string)
    requires k < b <= |s|
    ensures s[k..b] + rest == [s[k]] + (s[k + 1..b] + rest)
  {
    assert s[k..b] == [s[k]] + s[k + 1..b];
  }

  function MatchedLength(ms: seq<Match>): int {
    if ms == [] then 0 else ms[0].end - ms[0].begin + MatchedLength(ms[1..])
  }

  /** What is removed is exactly the matched text: the lengths add up to the input's. */
  lemma RemoveMatchesLength(s: string, k: nat)
    requires k <= |s|
    ensures |RemoveMatches(s, k)| + MatchedLength(Matches(s, k)) == |s| - k
  {
    GapsLength(s, k, Matches(s, k));
  }

  /** The gaps and the matches between them make up the text from k on. */
  lemma {:induction false} GapsLength(s: string, k: nat, ms: seq<Match>)
    requires Ordered(s, k, ms)
    ensures |Gaps(s, k, ms)| + MatchedLength(ms) == |s| - k
    decreases |ms|
  {
    if ms != [] {
      GapsLength(s, ms[0].end, ms[1..]);
    }
  }

  /** Text without any `{` is left as it is. */
  lemma {:induction false} RemoveMatchesWithoutBrace(s: string, k: nat)
    requires k <= |s| && forall i :: k <= i < |s| ==> s[i] != '{'
    ensures RemoveMatches(s, k) == s[k..] && Matches(s, k) == []
    decreases |s| - k
  {
    if k < |s| {
      RemoveMatchesWithoutBrace(s, k + 1);
      assert s[k..] == [s[k]] + s[k + 1..];
    }
  }

  /** The group of a match. */
  function Group(s: string, m: Match): string
    requires m.groupStart <= m.end - 1 <= |s|
  {
    s[m.groupStart..m.end - 1]
  }

  /** `tag.startswith("an") and tag[2:].isdigit()`. */
  predicate IsPositionTag(tag: string) {
    |tag| > 2 && tag[..2] == "an" && AllDigits(tag[2..])
  }

  /** The position `handle_tag` reads from a tag: `int(tag.replace("an", ""))` as a classifier. */
  function TagPosition(tag: string): (r: Option<Classifier>)
    ensures IsPositionTag(tag) ==> (r.Some? <==> 1 <= DigitsValue(tag[2..]) <= 9)
    ensures IsPositionTag(tag) && r.Some? ==> ClassifierValue(r.value) == DigitsValue(tag[2..])
  {
    if IsPositionTag(tag) then
      DropPrefixAn(tag);
      match ParseInt(ReplaceAll(tag, "an", ""))
      case Some(n) => ClassifierOf(n)
      case None => None
    else
      match ParseInt(ReplaceAll(tag, "an", ""))
      case Some(n) => ClassifierOf(n)
      case None => None
  }

  /** For "an" followed by digits, removing "an" leaves the digits, and they parse. */
  lemma DropPrefixAn(tag: string)
    requires IsPositionTag(tag)
    ensures ReplaceAll(tag, "an", "") == tag[2..]
    ensures ParseInt(tag[2..]) == Some(DigitsValue(tag[2..]))
  {
    var d := tag[2..];
    assert tag == "an" + d;
    assert tag[..|"an"|] == "an";
    assert tag[|"an"|..] == d;
    NoAnInDigits(d);
    assert forall i :: 0 <= i < |d| ==> !IsSpace(d[i]);
    ParseIntOfDigits(d);
  }

  lemma {:induction false} NoAnInDigits(d: string)
    requires AllDigits(d)
    ensures ReplaceAll(d, "an", "") == d
    decreases |d|
  {
    if |d| >= 2 {
      assert d[..2] != "an" by { assert IsDigit(d[0]); }
      NoAnInDigits(d[1..]);
      assert d == [d[0]] + d[1..];
    }
  }

  predicate GroupsWithin(s: string, ms: seq<Match>) {
    forall i :: 0 <= i < |ms| ==> ms[i].groupStart <= ms[i].end - 1 <= |s|
  }

  /** The groups of the matches that are position tags, in order. */
  function PositionTags(s: string, ms: seq<Match>): seq<string>
    requires GroupsWithin(s, ms)
  {
    if ms == [] then []
    else (if IsPositionTag(Group(s, ms[0])) then [Group(s, ms[0])] else []) + PositionTags(s, ms[1..])
  }

  /** The position after handling these tags in order, starting from `pos`: the first valid one wins. */
  function FirstPosition(pos: Option<Classifier>, tags: seq<string>): (r: Option<Classifier>)
    ensures pos.Some? ==> r == pos
    ensures r.Some? && pos.None? ==> exists i :: 0 <= i < |tags| && TagPosition(tags[i]) == r
    ensures r.None? ==> forall i :: 0 <= i < |tags| ==> TagPosition(tags[i]).None?
    decreases |tags|
  {
    if pos.Some? || tags == [] then pos
    else
      var r := FirstPosition(TagPosition(tags[0]), tags[1..]);
      if r.Some? && TagPosition(tags[0]).None? then
        var i :| 0 <= i < |tags[1..]| && TagPosition(tags[1..][i]) == r;
        assert TagPosition(tags[i + 1]) == r;
        r
      else r
  }

  /** Handling one tag and then the rest is handling them all. */
  lemma FirstPositionStep(pos: Option<Classifier>, tag: string, rest: seq<string>)
    ensures FirstPosition(pos, [tag] + rest) == FirstPosition(FirstPosition(pos, [tag]), rest)
  {
    assert ([tag] + rest)[1..] == rest;
    assert [tag][1..] == [];
  }

  /** One turn of `feed`: a position tag is handled first, any other match leaves the position for the rest. */
  lemma FeedStep(s: string, ms: seq<Match>, k: nat, pos: Option<Classifier>)
    requires k < |ms| && GroupsWithin(s, ms)
    ensures var tag := Group(s, ms[k]);
      FirstPosition(pos, PositionTags(s, ms[k..])) ==
      FirstPosition(if IsPositionTag(tag) then FirstPosition(pos, [tag]) else pos, PositionTags(s, ms[k + 1..]))
  {
    var tag := Group(s, ms[k]);
    PositionTagsStep(s, ms, k);
    if IsPositionTag(tag) {
      FirstPositionStep(pos, tag, PositionTags(s, ms[k + 1..]));
    } else {
      assert [] + PositionTags(s, ms[k + 1..]) == PositionTags(s, ms[k + 1..]);
    }
  }

  /** The position tags from the k-th match on: this match's, if it is one, then the rest. */
  lemma PositionTagsStep(s: string, ms: seq<Match>, k: nat)
    requires k < |ms|
    requires GroupsWithin(s, ms)
    ensures PositionTags(s, ms[k..]) ==
      (if IsPositionTag(Group(s, ms[k])) then [Group(s, ms[k])] else []) + PositionTags(s, ms[k + 1..])
  {
    assert ms[k..][0] == ms[k];
    assert ms[k..][1..] == ms[k + 1..];
  }

  class SsaTagParser {
    var text: string
    var position: Option<Classifier>

    constructor ()
      ensures text == "" && position == None
    {
      text := "";
      position := None;
    }

    /** `handle_tag`: keep the first valid position; remove `{tag}` from the current text. */
    method HandleTag(tag: string)
      modifies this
      ensures position == FirstPosition(old(position), [tag])
      ensures text == ReplaceAll(old(text), "{" + tag + "}", "")
    {
      var parsed := ParseInt(ReplaceAll(tag, "an", ""));
      if parsed.Some? {
        var classifier := ClassifierOf(parsed.value);
        if position.None? && classifier.Some? {
          position := classifier;
        }
      }
      text := ReplaceAll(text, "{" + tag + "}", "");
    }

    /**
     * `feed`: handle the position tags among the matches in order, then set
     * the text to the input with every match removed.
     */
    method Feed(s: string)
      modifies this
      ensures text == RemoveMatches(s, 0)
      ensures position == FirstPosition(old(position), PositionTags(s, Matches(s, 0)))
    {
      var ms := Matches(s, 0);
      assert ms[0..] == ms;
      for k := 0 to |ms|
        invariant GroupsWithin(s, ms[k..])
        invariant FirstPosition(position, PositionTags(s, ms[k..])) == FirstPosition(old(position), PositionTags(s, ms))
      {
        var tag := Group(s, ms[k]);
        FeedStep(s, ms, k, position);
        if IsPositionTag(tag) {
          HandleTag(tag);
        }
      }
      assert ms[|ms|..] == [];
      text := RemoveMatches(s, 0);
    }

    /** `clear`. */
    method Clear()
      modifies this
      ensures text == "" && position == None
    {
      text := "";
      position := None;
    }
  }

  /** The greedy group swallows text up to the last `}` of the run: nothing of `{\an8}Hello}` is left. */
  lemma GreedyGroupExample()
    ensures RemoveMatches("{\\an8}Hello}", 0) == ""
    ensures |Matches("{\\an8}Hello}", 0)| == 1 && !IsPositionTag(Group("{\\an8}Hello}", Matches("{\\an8}Hello}", 0)[0]))
  {
    GreedyGroupMatches();
    GreedyGroupRemoved();
    assert Group("{\\an8}Hello}", Match(0, 2, 12)) == "an8}Hello";
  }

  lemma GreedyGroupMatches()
    ensures Matches("{\\an8}Hello}", 0) == [Match(0, 2, 12)]
  {
    GreedyGroupMatch();
    assert Matches("{\\an8}Hello}", 12) == [];
  }

  lemma GreedyGroupRemoved()
    ensures RemoveMatches("{\\an8}Hello}", 0) == ""
  {
    GreedyGroupMatch();
    assert RemoveMatches("{\\an8}Hello}", 12) == "";
  }

  /** The match at the start of `{\an8}Hello}` runs to its very end. */
  lemma GreedyGroupMatch()
    ensures MatchAt("{\\an8}Hello}", 0) == Some(Match(0, 2, 12))
  {
    var s := "{\\an8}Hello}";
    assert WordEnd(s, 1) == |s|;
    assert LastBrace(s, 1, |s|) == Some(11);
    assert Backslashes(s, 1) == 1;
  }
}
