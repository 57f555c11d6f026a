/**
 * The SubRip reader (`SubRipParser`): a line-driven state machine over the
 * stripped lines of the file. An index line moves it to the time state; a
 * time line `start --> end [X1:.. X2:.. Y1:.. Y2:..]` sets the times and
 * moves it to the content state; content lines accumulate until a blank line.
 * A cue is stored when the next index line (or the end of the input) is
 * reached with both times set: its text goes through the position-directive
 * stripper and the markup parser, which supply the formattings.
 */
module SubRipParsing {
  import opened Wrappers
  import opened PyStr
  import opened Times
  import opened Formattings
  import opened Subtitles
  import opened HtmlParsing
  import opened SsaParsing

  datatype State = IndexState | TimeState | ContentState | BetweenSubs

  // ---------------------------------------------------------------- timestamps

  /** `ms[:3]`. */
  function FirstThree(s: string): (r: string)
    ensures |r| <= 3 && |r| <= |s| && r == s[..|r|] && (|s| >= 3 ==> |r| == 3) && (|s| < 3 ==> r == s)
  {
    if |s| <= 3 then s else s[..3]
  }

  /**
   * The four fields of a timestamp: `h:m:s,ms` or `h:m:s.ms`, split at the
   * first two ':' and then at the first ',' (or, without one, the first '.').
   */
  function TimestampFields(ts: string): (r: Option<(string, string, string, string)>)
  {
    match SplitOnce(ts, ":")
    case None => None
    case Some((h, rest)) =>
      match SplitOnce(rest, ":")
      case None => None
      case Some((m, sms)) =>
        var sep := if HasChar(sms, ',') then "," else ".";
        match SplitOnce(sms, sep)
        case None => None
        case Some((s, ms)) => Some((h, m, s, ms))
  }

  /**
   * `_parse_timestamp`: only the first three characters of the millisecond
   * field count; a missing separator or a field that is not a number is ValueError.
   */
  function ParseTimestamp(ts: string): (r: Result<Time>)
    ensures r.Err? ==> r.error == ValueError
  {
    match TimestampFields(ts)
    case None => Err(ValueError)
    case Some((h, m, s, ms)) =>
      var hours, minutes, seconds, millis := ParseInt(h), ParseInt(m), ParseInt(s), ParseInt(FirstThree(ms));
      if hours.Some? && minutes.Some? && seconds.Some? && millis.Some? then
        Ok(FromHumanTime(millis.value, seconds.value, minutes.value, hours.value))
      else Err(ValueError)
  }

  /**
   * The value of any timestamp `h:m:s` + separator + `ms`: `h` hours, `m`
   * minutes, `s` seconds and the first three characters of `ms` as
   * milliseconds, each read by `int()`; ValueError exactly when one of them
   * is not an integer. The separator is ',' or, in text without ',', '.'.
   */
  lemma TimestampValue(h: string, m: string, s: string, sep: char, ms: string)
    requires ':' !in h && ':' !in m && sep !in s
    requires sep == ',' || (sep == '.' && ',' !in s && ',' !in ms)
    ensures var r := ParseTimestamp(h + ":" + m + ":" + s + [sep] + ms);
      var hours, minutes, seconds, millis := ParseInt(h), ParseInt(m), ParseInt(s), ParseInt(FirstThree(ms));
      && (r.Ok? <==> hours.Some? && minutes.Some? && seconds.Some? && millis.Some?)
      && (r.Err? ==> r.error == ValueError)
      && (r.Ok? ==> r.value.milliseconds == hours.value * 3600000 + minutes.value * 60000 + seconds.value * 1000 + millis.value)
  {
    TimestampFieldsOf(h, m, s, sep, ms);
  }

  /** Such a timestamp is cut into exactly those four fields. */
  lemma TimestampFieldsOf(h: string, m: string, s: string, sep: char, ms: string)
    requires ':' !in h && ':' !in m && sep !in s
    requires sep == ',' || (sep == '.' && ',' !in s && ',' !in ms)
    ensures TimestampFields(h + ":" + m + ":" + s + [sep] + ms) == Some((h, m, s, ms))
  {
    var sms := s + [sep] + ms;
    var rest := m + ":" + sms;
    assert h + ":" + m + ":" + s + [sep] + ms == h + ":" + rest;
    SplitOnceAt(h, ":", rest);
    SplitOnceAt(m, ":", sms);
    HasCharIsIn(sms, ',');
    assert sep == ',' ==> sms[|s|] == ',';
    SplitOnceAt(s, [sep], ms);
  }

  /** A timestamp with fewer than two ':' is ValueError. */
  lemma TimestampWithoutTwoColons(ts: string)
    requires forall i, j :: 0 <= i < j < |ts| && ts[i] == ':' ==> ts[j] != ':'
    ensures ParseTimestamp(ts) == Err(ValueError)
  {
    match SplitOnce(ts, ":")
    case None =>
    case Some((h, rest)) =>
      assert ts[|h|] == ':';
      forall j | 0 <= j < |rest| ensures rest[j] != ':' {
        assert rest[j] == ts[|h| + 1 + j];
      }
      SplitOnceWithoutChar(rest, ':');
  }

  /** A timestamp with neither ',' nor '.' after its second ':' is ValueError. */
  lemma TimestampWithoutSeparator(h: string, m: string, sms: string)
    requires ':' !in h && ':' !in m && ',' !in sms && '.' !in sms
    ensures ParseTimestamp(h + ":" + m + ":" + sms) == Err(ValueError)
  {
    var rest := m + ":" + sms;
    assert h + ":" + m + ":" + sms == h + ":" + rest;
    SplitOnceAt(h, ":", rest);
    SplitOnceAt(m, ":", sms);
    HasCharIsIn(sms, ',');
    SplitOnceWithoutChar(sms, '.');
  }

  /** Text without c does not split at c. */
  lemma SplitOnceWithoutChar(s: string, c: char)
    requires c !in s
    ensures SplitOnce(s, [c]).None?
  {
  }

  // ---------------------------------------------------------------- absolute positions

  /** The four optional coordinates `_parse_absolute_position` collects. */
  datatype Coordinates = Coordinates(x1: Option<int>, x2: Option<int>, y1: Option<int>, y2: Option<int>)

  const NoCoordinates := Coordinates(None, None, None, None)

  /** One token of the line: tokens without ':' are skipped; a known label whose value is not an integer is ValueError. */
  function ReadCoordinate(c: Coordinates, token: string): (r: Result<Coordinates>)
    ensures r.Err? ==> r.error == ValueError
  {
    match SplitOnce(token, ":")
    case None => Ok(c)
    case Some((key, value)) =>
      if key !in {"X1", "X2", "Y1", "Y2"} then Ok(c)
      else
        match ParseInt(value)
        case None => Err(ValueError)
        case Some(v) =>
          Ok(if key == "X1" then c.(x1 := Some(v))
             else if key == "X2" then c.(x2 := Some(v))
             else if key == "Y1" then c.(y1 := Some(v))
             else c.(y2 := Some(v)))
  }

  /** A token without ':' leaves the coordinates as they are. */
  lemma TokenWithoutColonSkipped(c: Coordinates, token: string)
    ensures !Contains(token, ":") ==> ReadCoordinate(c, token) == Ok(c)
  {
    SplitOnceFirst(token, ":");
  }

  /** The tokens read in order; a later token with the same label overwrites an earlier one. */
  function ReadCoordinates(c: Coordinates, tokens: seq<string>): (r: Result<Coordinates>)
    ensures r.Err? ==> r.error == ValueError
    decreases |tokens|
  {
    if tokens == [] then Ok(c)
    else
      match ReadCoordinate(c, tokens[0])
      case Err(e) => Err(e)
      case Ok(c') => ReadCoordinates(c', tokens[1..])
  }

  /** The absolute position of a line: present only when all four coordinates are. */
  function AbsolutePositionOf(line: string): (r: Result<Option<Formatting>>)
    ensures r.Err? ==> r.error == ValueError
    ensures r.Ok? && r.value.Some? ==> r.value.value.AbsolutePosition?
  {
    match ReadCoordinates(NoCoordinates, SplitWhitespace(line))
    case Err(e) => Err(e)
    case Ok(c) =>
      if c.x1.Some? && c.x2.Some? && c.y1.Some? && c.y2.Some? then
        Ok(Some(AbsolutePosition(c.x1.value, c.x2.value, c.y1.value, c.y2.value)))
      else Ok(None)
  }

  /** The token reads as `key:value`, cut at its first ':'. */
  predicate HasLabel(token: string, key: string) {
    var p := SplitOnce(token, ":");
    p.Some? && p.value.0 == key
  }

  /** A token with one of the four labels whose value `int()` rejects. */
  predicate BadCoordinate(token: string) {
    var p := SplitOnce(token, ":");
    p.Some? && p.value.0 in {"X1", "X2", "Y1", "Y2"} && ParseInt(p.value.1).None?
  }

  /** The value of a token `key:value`: what follows its first ':'. */
  function ValueOf(token: string): string {
    match SplitOnce(token, ":")
    case None => ""
    case Some((_, value)) => value
  }

  /** One coordinate after the tokens: the value of the last token with its key, or what it was before when none has it. */
  function CoordinateAfter(before: Option<int>, tokens: seq<string>, key: string): Option<int>
    decreases |tokens|
  {
    if tokens == [] then before
    else if HasLabel(tokens[|tokens| - 1], key) then ParseInt(ValueOf(tokens[|tokens| - 1]))
    else CoordinateAfter(before, tokens[..|tokens| - 1], key)
  }

  /**
   * Reading the tokens fails exactly when one of them is a labelled
   * coordinate that is not an integer.
   */
  lemma {:induction false} ReadCoordinatesErr(c: Coordinates, tokens: seq<string>)
    ensures ReadCoordinates(c, tokens).Err? <==> exists i :: 0 <= i < |tokens| && BadCoordinate(tokens[i])
    decreases |tokens|
  {
    if tokens != [] {
      var t, rest := tokens[0], tokens[1..];
      ReadCoordinateOf(c, t);
      if ReadCoordinate(c, t).Ok? {
        var c' := ReadCoordinate(c, t).value;
        ReadCoordinatesErr(c', rest);
        if exists i :: 0 <= i < |rest| && BadCoordinate(rest[i]) {
          var i :| 0 <= i < |rest| && BadCoordinate(rest[i]);
          assert tokens[i + 1] == rest[i];
        }
        if exists i :: 0 <= i < |tokens| && BadCoordinate(tokens[i]) {
          var i :| 0 <= i < |tokens| && BadCoordinate(tokens[i]);
          assert i > 0 && rest[i - 1] == tokens[i];
        }
      }
    }
  }

  /** Otherwise each coordinate is the value of the last token with its key, and is left alone when there is none. */
  lemma {:induction false} ReadCoordinatesValue(c: Coordinates, tokens: seq<string>)
    requires ReadCoordinates(c, tokens).Ok?
    ensures ReadCoordinates(c, tokens).value == Coordinates(
      CoordinateAfter(c.x1, tokens, "X1"), CoordinateAfter(c.x2, tokens, "X2"),
      CoordinateAfter(c.y1, tokens, "Y1"), CoordinateAfter(c.y2, tokens, "Y2"))
    decreases |tokens|
  {
    if tokens != [] {
      var t, rest := tokens[0], tokens[1..];
      ReadCoordinateOf(c, t);
      var c' := ReadCoordinate(c, t).value;
      ReadCoordinatesValue(c', rest);
      assert tokens == [t] + rest;
      CoordinateAfterCons(c.x1, c'.x1, t, rest, "X1");
      CoordinateAfterCons(c.x2, c'.x2, t, rest, "X2");
      CoordinateAfterCons(c.y1, c'.y1, t, rest, "Y1");
      CoordinateAfterCons(c.y2, c'.y2, t, rest, "Y2");
    }
  }

  /** One token: unlabelled or unknown tokens change nothing; a labelled one sets its coordinate or is ValueError. */
  lemma ReadCoordinateOf(c: Coordinates, t: string)
    ensures ReadCoordinate(c, t).Err? <==> BadCoordinate(t)
    ensures ReadCoordinate(c, t).Ok? ==> var c' := ReadCoordinate(c, t).value;
      && c'.x1 == (if HasLabel(t, "X1") then ParseInt(ValueOf(t)) else c.x1)
      && c'.x2 == (if HasLabel(t, "X2") then ParseInt(ValueOf(t)) else c.x2)
      && c'.y1 == (if HasLabel(t, "Y1") then ParseInt(ValueOf(t)) else c.y1)
      && c'.y2 == (if HasLabel(t, "Y2") then ParseInt(ValueOf(t)) else c.y2)
  {
  }

  /** The first token sets the starting value for the rest. */
  lemma {:induction false} CoordinateAfterCons(before: Option<int>, after: Option<int>, t: string, rest: seq<string>, key: string)
    requires after == if HasLabel(t, key) then ParseInt(ValueOf(t)) else before
    ensures CoordinateAfter(before, [t] + rest, key) == CoordinateAfter(after, rest, key)
    decreases |rest|
  {
    if rest == [] {
      assert [t] + rest == [t] && [t][..0] == [];
    } else {
      var init := rest[..|rest| - 1];
      assert ([t] + rest)[..|rest|] == [t] + init;
      CoordinateAfterCons(before, after, t, init, key);
    }
  }

  /** Without a bad coordinate, a key gives a value exactly when some token carries it. */
  lemma {:induction false} CoordinateAfterSome(tokens: seq<string>, key: string)
    requires key in {"X1", "X2", "Y1", "Y2"}
    requires forall i :: 0 <= i < |tokens| ==> !BadCoordinate(tokens[i])
    ensures CoordinateAfter(None, tokens, key).Some? <==> Labelled(tokens, key)
    decreases |tokens|
  {
    if tokens != [] {
      var init, t := tokens[..|tokens| - 1], tokens[|tokens| - 1];
      LabelledSnoc(init, t, key);
      assert tokens == init + [t];
      CoordinateAfterSome(init, key);
      LabelledValue(t, key);
    }
  }

  /** Some token of init + [t] carries the key exactly when one of init does or t does. */
  lemma LabelledSnoc(init: seq<string>, t: string, key: string)
    ensures Labelled(init + [t], key) <==> Labelled(init, key) || HasLabel(t, key)
  {
    var tokens := init + [t];
    if Labelled(tokens, key) {
      var i :| 0 <= i < |tokens| && HasLabel(tokens[i], key);
      if i < |init| { assert tokens[i] == init[i]; }
    }
    if Labelled(init, key) {
      var i :| 0 <= i < |init| && HasLabel(init[i], key);
      assert tokens[i] == init[i];
    }
    assert tokens[|init|] == t;
  }

  /** A token with one of the four keys that is not a bad coordinate has an integer value. */
  lemma LabelledValue(t: string, key: string)
    requires key in {"X1", "X2", "Y1", "Y2"} && !BadCoordinate(t)
    ensures HasLabel(t, key) ==> ParseInt(ValueOf(t)).Some?
  {
  }

  /** Some token carries the key. */
  predicate Labelled(tokens: seq<string>, key: string) {
    exists i :: 0 <= i < |tokens| && HasLabel(tokens[i], key)
  }

  /**
   * `_parse_absolute_position` on a line: ValueError exactly when a labelled
   * coordinate is not an integer; otherwise a position exactly when each of
   * X1, X2, Y1 and Y2 labels some token, made of the last value of each.
   */
  lemma AbsolutePositionValue(line: string)
    ensures var tokens := SplitWhitespace(line);
      AbsolutePositionOf(line).Err? <==> exists i :: 0 <= i < |tokens| && BadCoordinate(tokens[i])
    ensures var tokens := SplitWhitespace(line);
      var r := AbsolutePositionOf(line);
      r.Ok? ==> (r.value.Some? <==> Labelled(tokens, "X1") && Labelled(tokens, "X2") && Labelled(tokens, "Y1") && Labelled(tokens, "Y2"))
    ensures var tokens := SplitWhitespace(line);
      var r := AbsolutePositionOf(line);
      r.Ok? && r.value.Some? ==> var p := r.value.value;
        && Some(p.x1) == CoordinateAfter(None, tokens, "X1") && Some(p.x2) == CoordinateAfter(None, tokens, "X2")
        && Some(p.y1) == CoordinateAfter(None, tokens, "Y1") && Some(p.y2) == CoordinateAfter(None, tokens, "Y2")
  {
    var tokens := SplitWhitespace(line);
    ReadCoordinatesErr(NoCoordinates, tokens);
    assert AbsolutePositionOf(line).Err? <==> ReadCoordinates(NoCoordinates, tokens).Err?;
    assert ReadCoordinates(NoCoordinates, tokens).Err? <==> exists i :: 0 <= i < |tokens| && BadCoordinate(tokens[i]);
    if ReadCoordinates(NoCoordinates, tokens).Ok? {
      var c := ReadCoordinates(NoCoordinates, tokens).value;
      ReadCoordinatesValue(NoCoordinates, tokens);
      PositionOfCoordinates(line, tokens, c);
    }
  }

  /** The position built from coordinates read without error. */
  lemma PositionOfCoordinates(line: string, tokens: seq<string>, c: Coordinates)
    requires tokens == SplitWhitespace(line) && ReadCoordinates(NoCoordinates, tokens) == Ok(c)
    requires forall i :: 0 <= i < |tokens| ==> !BadCoordinate(tokens[i])
    requires c == Coordinates(CoordinateAfter(None, tokens, "X1"), CoordinateAfter(None, tokens, "X2"),
      CoordinateAfter(None, tokens, "Y1"), CoordinateAfter(None, tokens, "Y2"))
    ensures var r := AbsolutePositionOf(line);
      && r.Ok? && (r.value.Some? <==> Labelled(tokens, "X1") && Labelled(tokens, "X2") && Labelled(tokens, "Y1") && Labelled(tokens, "Y2"))
      && (r.value.Some? ==> (c.x1.Some? && c.x2.Some? && c.y1.Some? && c.y2.Some?
            && r.value.value == AbsolutePosition(c.x1.value, c.x2.value, c.y1.value, c.y2.value)))
  {
    CoordinateAfterSome(tokens, "X1");
    CoordinateAfterSome(tokens, "X2");
    CoordinateAfterSome(tokens, "Y1");
    CoordinateAfterSome(tokens, "Y2");
  }

  /** What a time line gives: nothing when it has no "-->", else both times and the absolute position, if any. */
  function ParseTimeLine(line: string): (r: Result<Option<(Time, Time, Option<Formatting>)>>)
    ensures r.Err? ==> r.error == ValueError
    ensures r.Ok? && r.value.Some? && r.value.value.2.Some? ==> r.value.value.2.value.AbsolutePosition?
  {
    match SplitOnce(line, "-->")
    case None => Ok(None)
    case Some((a, b)) => TimesAndPosition(a, b)
  }

  /** A line without "-->" gives nothing. */
  lemma LineWithoutArrowSkipped(line: string)
    ensures !Contains(line, "-->") ==> ParseTimeLine(line) == Ok(None)
  {
    SplitOnceFirst(line, "-->");
  }

  /**
   * A time line cut at its first "-->": ValueError exactly when the start
   * time, the end time or the position after it is malformed; otherwise both
   * times and the position, if any.
   */
  lemma TimeLineValue(a: string, b: string)
    requires forall j :: 0 <= j < |a| ==> !OccursAt(a + "-->" + b, "-->", j)
    ensures var r := ParseTimeLine(a + "-->" + b);
      && (r.Err? <==> ParseTimestamp(a).Err? || ParseTimestamp(b).Err? || EndPosition(b).Err?)
      && (r.Err? ==> r.error == ValueError)
      && (r.Ok? ==> r.value == Some((ParseTimestamp(a).value, ParseTimestamp(b).value, EndPosition(b).value)))
  {
    SplitOnceAtFirst(a, "-->", b);
  }

  /** The two sides of "-->": the start time, the end time, then the position after the end time. */
  function TimesAndPosition(a: string, b: string): (r: Result<Option<(Time, Time, Option<Formatting>)>>)
    ensures r.Err? ==> r.error == ValueError
    ensures r.Ok? ==> r.value.Some? && (r.value.value.2.Some? ==> r.value.value.2.value.AbsolutePosition?)
  {
    match ParseTimestamp(a)
    case Err(e) => Err(e)
    case Ok(start) =>
      match ParseTimestamp(b)
      case Err(e) => Err(e)
      case Ok(end) =>
        match EndPosition(b)
        case Err(e) => Err(e)
        case Ok(p) => Ok(Some((start, end, p)))
  }

  /** The absolute position after the end time: read only when the upper-cased part holds an 'X'. */
  function EndPosition(b: string): (r: Result<Option<Formatting>>)
    ensures r.Err? ==> r.error == ValueError
    ensures !HasChar(Upper(b), 'X') ==> r == Ok(None)
    ensures r.Ok? && r.value.Some? ==> r.value.value.AbsolutePosition?
  {
    var upper := Upper(b);
    if HasChar(upper, 'X') then AbsolutePositionOf(upper) else Ok(None)
  }

  // ---------------------------------------------------------------- de-duplication

  predicate NoDuplicates(fs: seq<Formatting>) {
    forall i, j :: 0 <= i < j < |fs| ==> fs[i] != fs[j]
  }

  /**
   * `formattings.extend(filter(lambda f: not already_exists(f), items))`: the
   * filter is lazy, so an item is compared with those appended before it.
   */
  function AppendNew(fs: seq<Formatting>, items: seq<Formatting>): (r: seq<Formatting>)
    ensures |fs| <= |r| && r[..|fs|] == fs
    decreases |items|
  {
    if items == [] then fs
    else
      var fs' := if items[0] in fs then fs else fs + [items[0]];
      var r := AppendNew(fs', items[1..]);
      assert r[..|fs|] == r[..|fs'|][..|fs|];
      r
  }

  /** What the filtered extend keeps: every item ends up in the list, nothing else is added, and no repeat appears. */
  lemma AppendNewMembers(fs: seq<Formatting>, items: seq<Formatting>)
    ensures var r := AppendNew(fs, items);
      && (NoDuplicates(fs) ==> NoDuplicates(r))
      && (forall x :: x in items ==> x in r)
      && (forall x :: x in r ==> x in fs || x in items)
  {
    if NoDuplicates(fs) { AppendNewKeepsDistinct(fs, items); }
    AppendNewHoldsItems(fs, items);
    AppendNewAddsOnlyItems(fs, items);
  }

  /** An item is appended only when absent, so a list without repeats keeps none. */
  lemma {:induction false} AppendNewKeepsDistinct(fs: seq<Formatting>, items: seq<Formatting>)
    requires NoDuplicates(fs)
    ensures NoDuplicates(AppendNew(fs, items))
    decreases |items|
  {
    if items != [] {
      var fs' := if items[0] in fs then fs else fs + [items[0]];
      if items[0] !in fs {
        forall i, j | 0 <= i < j < |fs'| ensures fs'[i] != fs'[j] {
          if j == |fs| { assert fs'[i] == fs[i]; }
        }
      }
      AppendNewKeepsDistinct(fs', items[1..]);
    }
  }

  /** Every item is in the list afterwards. */
  lemma {:induction false} AppendNewHoldsItems(fs: seq<Formatting>, items: seq<Formatting>)
    ensures forall x :: x in items ==> x in AppendNew(fs, items)
    decreases |items|
  {
    if items != [] {
      var fs' := if items[0] in fs then fs else fs + [items[0]];
      var r := AppendNew(fs', items[1..]);
      AppendNewHoldsItems(fs', items[1..]);
      assert items[0] in r by { assert items[0] in fs' && r[..|fs'|] == fs'; assert items[0] in r[..|fs'|]; }
      assert forall x :: x in items ==> x == items[0] || x in items[1..];
    }
  }

  /** Nothing but the list and the items is in the list afterwards. */
  lemma {:induction false} AppendNewAddsOnlyItems(fs: seq<Formatting>, items: seq<Formatting>)
    ensures forall x :: x in AppendNew(fs, items) ==> x in fs || x in items
    decreases |items|
  {
    if items != [] {
      var fs' := if items[0] in fs then fs else fs + [items[0]];
      AppendNewAddsOnlyItems(fs', items[1..]);
      assert forall x :: x in items[1..] ==> x in items;
      if items[0] !in fs {
        assert forall x :: x in fs + [items[0]] ==> x in fs || x == items[0];
      }
    }
  }

  /** Span formattings that lie in [0, n]. */
  predicate SpansIn(fs: seq<Formatting>, n: int) {
    forall i :: 0 <= i < |fs| ==> fs[i].IsSpan() ==> 0 <= fs[i].start <= fs[i].end <= n
  }

  /** The position part `_parse_unit_text` appends: the stripper's position, if it found one. */
  function PositionPart(pos: Option<Classifier>): (r: seq<Formatting>)
    ensures |r| <= 1 && forall i :: 0 <= i < |r| ==> r[i].RelativePosition?
  {
    if pos.Some? then [RelativePosition(pos.value)] else []
  }

  /** The position the stripper finds in a cue's stripped text. */
  function TextPosition(text: string): Option<Classifier> {
    var t := Strip(text);
    FirstPosition(None, PositionTags(t, Matches(t, 0)))
  }

  /** Appending position formattings and formattings within n keeps every span within n. */
  lemma AppendNewSpansIn(fs: seq<Formatting>, pos: seq<Formatting>, markup: seq<Formatting>, n: int)
    requires forall i :: 0 <= i < |fs| ==> !fs[i].IsSpan()
    requires forall i :: 0 <= i < |pos| ==> !pos[i].IsSpan()
    requires SpansIn(markup, n)
    ensures SpansIn(AppendNew(AppendNew(fs, pos), markup), n)
  {
    var a := AppendNew(fs, pos);
    var r := AppendNew(a, markup);
    AppendNewMembers(fs, pos);
    AppendNewMembers(a, markup);
    forall i | 0 <= i < |r| && r[i].IsSpan()
      ensures 0 <= r[i].start <= r[i].end <= n
    {
      assert r[i] in r;
      assert r[i] !in fs && r[i] !in pos;
      var k :| 0 <= k < |markup| && markup[k] == r[i];
    }
  }

  /**
   * What a stored cue's formattings satisfy: the position gathered from the
   * time line first, the stripper's position, no repeats, every span inside
   * the text.
   */
  lemma StoredFormattings(fs: seq<Formatting>, pos: seq<Formatting>, markup: seq<Formatting>, n: int)
    requires |fs| <= 1 && forall i :: 0 <= i < |fs| ==> fs[i].AbsolutePosition?
    requires forall i :: 0 <= i < |pos| ==> pos[i].RelativePosition?
    requires SpansIn(markup, n)
    ensures var r := AppendNew(AppendNew(fs, pos), markup);
      && |fs| <= |r| && r[..|fs|] == fs
      && (forall f :: f in pos ==> f in r)
      && NoDuplicates(r) && SpansWithin(r, n)
  {
    var a := AppendNew(fs, pos);
    var r := AppendNew(a, markup);
    AppendNewMembers(fs, pos);
    AppendNewMembers(a, markup);
    AppendNewSpansIn(fs, pos, markup, n);
    assert r[..|fs|] == r[..|a|][..|fs|];
  }

  /**
   * The formattings `fs` of a stored cue whose text has length `n`: no
   * repeats, every span inside the text, `pending` first, and the stripper's
   * position of `text` among them.
   */
  ghost predicate FormattingsParsed(fs: seq<Formatting>, n: int, pending: seq<Formatting>, text: string) {
    && NoDuplicates(fs) && SpansWithin(fs, n)
    && |pending| <= |fs| && fs[..|pending|] == pending
    && forall f :: f in PositionPart(TextPosition(text)) ==> f in fs
  }

  /** `StoredFormattings` for the position the stripper reads from `text`. */
  lemma ParsedFormattings(fs: seq<Formatting>, text: string, markup: seq<Formatting>, n: int)
    requires |fs| <= 1 && (fs != [] ==> fs[0].AbsolutePosition?)
    requires SpansIn(markup, n)
    ensures FormattingsParsed(AppendNew(AppendNew(fs, PositionPart(TextPosition(text))), markup), n, fs, text)
  {
    forall i | 0 <= i < |fs| ensures fs[i].AbsolutePosition? {
      assert i == 0;
    }
    StoredFormattings(fs, PositionPart(TextPosition(text)), markup, n);
  }

  // ---------------------------------------------------------------- the reader as a function of its lines

  /** What a cue's content becomes: stripped, cleared of `{…}` directives, then of markup. */
  function CueText(content: string, tokenize: string -> seq<Event>): string {
    MarkupText(tokenize(RemoveMatches(Strip(content), 0)))
  }

  /** The markup parser's formattings for a cue's content. */
  function CueMarkup(content: string, tokenize: string -> seq<Event>, palette: map<string, Rgb>): seq<Formatting> {
    MarkupFormattings(tokenize(RemoveMatches(Strip(content), 0)), palette)
  }

  /** A cue's formattings: those pending, then the stripper's position, then the markup's, each only if new. */
  function CueFormattings(pending: seq<Formatting>, content: string, tokenize: string -> seq<Event>, palette: map<string, Rgb>): seq<Formatting> {
    AppendNew(AppendNew(pending, PositionPart(TextPosition(content))), CueMarkup(content, tokenize, palette))
  }

  /**
   * The stored formattings keep what was pending as a prefix, hold the
   * stripper's position, do not repeat and lie inside the cue's text.
   */
  lemma CueFormattingsParsed(pending: seq<Formatting>, content: string, tokenize: string -> seq<Event>, palette: map<string, Rgb>)
    requires |pending| <= 1 && (pending != [] ==> pending[0].AbsolutePosition?)
    ensures FormattingsParsed(CueFormattings(pending, content, tokenize, palette), |CueText(content, tokenize)|, pending, content)
  {
    MarkupWithin(tokenize(RemoveMatches(Strip(content), 0)), palette);
    ParsedFormattings(pending, content, CueMarkup(content, tokenize, palette), |CueText(content, tokenize)|);
  }

  /** The reader's state between lines: the handler state, what is pending, and the cues so far. */
  datatype Reader = Reader(
    state: State, startTime: Option<Time>, endTime: Option<Time>,
    formattings: seq<Formatting>, rawText: string, tempText: string, units: seq<Cue>)

  /** A reader that has seen nothing. */
  const InitialReader := Reader(IndexState, None, None, [], "", "", [])

  /**
   * `_store_unit`: the temporary text joins the content; with both times set
   * a cue of the parsed content is appended; everything pending is reset.
   */
  function Flushed(r: Reader, tokenize: string -> seq<Event>, palette: map<string, Rgb>): Reader {
    var content := r.rawText + r.tempText;
    var units :=
      if r.startTime.Some? && r.endTime.Some? then
        r.units + [Cue(r.startTime.value, r.endTime.value, CueText(content, tokenize), CueFormattings(r.formattings, content, tokenize, palette))]
      else r.units;
    Reader(r.state, None, None, [], "", "", units)
  }

  /** `_on_index_state`: an index moves to the time state, flushing a timed cue; any other line is kept. */
  function IndexLine(r: Reader, line: string, tokenize: string -> seq<Event>, palette: map<string, Rgb>): Reader {
    if ParseInt(line).Some? then
      var r1 := r.(state := TimeState);
      if r.startTime.Some? && r.endTime.Some? then Flushed(r1, tokenize, palette) else r1
    else r.(tempText := r.tempText + line + "\n")
  }

  /** `_on_time_state`: no "-->" skips the line; otherwise the times, maybe a position, and the content state. */
  function TimeLine(r: Reader, line: string): Result<Reader> {
    match ParseTimeLine(line)
    case Err(e) => Err(e)
    case Ok(None) => Ok(r)
    case Ok(Some((start, end, position))) =>
      Ok(r.(state := ContentState, startTime := Some(start), endTime := Some(end),
            formattings := r.formattings + (if position.Some? then [position.value] else [])))
  }

  /** `_on_content_state`: a blank line ends the content; any other line joins it. */
  function ContentLine(r: Reader, line: string): Reader {
    if line == "" then r.(tempText := "\n", state := IndexState)
    else r.(rawText := r.rawText + line + "\n")
  }

  /** One stripped line, handed to the handler of the current state. */
  function ReadLine(r: Reader, line: string, tokenize: string -> seq<Event>, palette: map<string, Rgb>): Result<Reader> {
    match r.state
    case IndexState => Ok(IndexLine(r, line, tokenize, palette))
    case TimeState => TimeLine(r, line)
    case ContentState => Ok(ContentLine(r, line))
    case BetweenSubs => Ok(r)
  }

  /** The lines read in order, each stripped first; the first error ends the reading. */
  function ReadLines(r: Reader, lines: seq<string>, tokenize: string -> seq<Event>, palette: map<string, Rgb>): Result<Reader>
    decreases |lines|
  {
    if lines == [] then Ok(r)
    else
      match ReadLines(r, lines[..|lines| - 1], tokenize, palette)
      case Err(e) => Err(e)
      case Ok(r1) => ReadLine(r1, Strip(lines[|lines| - 1]), tokenize, palette)
  }

  /** The lines of a SubRip text: byte-order marks dropped, then split at line boundaries. */
  function SrtLines(srt: string): seq<string> {
    SplitLines(ReplaceAll(srt, "\U{FEFF}", ""))
  }

  /** `parse_text`: every line read, then a last timed cue flushed. */
  function ReadSrt(r: Reader, srt: string, tokenize: string -> seq<Event>, palette: map<string, Rgb>): Result<Reader> {
    match ReadLines(r, SrtLines(srt), tokenize, palette)
    case Err(e) => Err(e)
    case Ok(r1) => Ok(if r1.startTime.Some? && r1.endTime.Some? then Flushed(r1, tokenize, palette) else r1)
  }

  /** Reading a + b is reading a, then b from where a left off. */
  lemma {:induction false} ReadLinesAppend(r: Reader, a: seq<string>, b: seq<string>, tokenize: string -> seq<Event>, palette: map<string, Rgb>)
    ensures ReadLines(r, a + b, tokenize, palette) ==
      match ReadLines(r, a, tokenize, palette)
      case Err(e) => Err(e)
      case Ok(r1) => ReadLines(r1, b, tokenize, palette)
    decreases |b|
  {
    if b == [] {
      assert a + b == a;
    } else {
      assert (a + b)[..|a + b| - 1] == a + b[..|b| - 1];
      ReadLinesAppend(r, a, b[..|b| - 1], tokenize, palette);
    }
  }

  /** Reading one more line is one more step. */
  lemma ReadLinesSnoc(r: Reader, lines: seq<string>, line: string, tokenize: string -> seq<Event>, palette: map<string, Rgb>)
    ensures ReadLines(r, lines + [line], tokenize, palette) ==
      match ReadLines(r, lines, tokenize, palette)
      case Err(e) => Err(e)
      case Ok(r1) => ReadLine(r1, Strip(line), tokenize, palette)
  {
    assert (lines + [line])[..|lines|] == lines;
  }

  /** Once a line fails, reading more lines fails too. */
  lemma ReadLinesErrStays(r: Reader, a: seq<string>, b: seq<string>, tokenize: string -> seq<Event>, palette: map<string, Rgb>)
    requires ReadLines(r, a, tokenize, palette).Err?
    ensures ReadLines(r, a + b, tokenize, palette).Err?
  {
    ReadLinesAppend(r, a, b, tokenize, palette);
  }

  /** A line that fails after a successful reading makes the longer reading fail. */
  lemma ReadLinesStepErr(r0: Reader, lines: seq<string>, line: string, r: Reader, tokenize: string -> seq<Event>, palette: map<string, Rgb>)
    requires ReadLines(r0, lines, tokenize, palette) == Ok(r)
    requires ReadLine(r, Strip(line), tokenize, palette).Err?
    ensures ReadLines(r0, lines + [line], tokenize, palette).Err?
  {
    ReadLinesSnoc(r0, lines, line, tokenize, palette);
  }

  /** Units as a prefix: `u` begins with `v`. */
  predicate UnitsExtend(v: seq<Cue>, u: seq<Cue>) { |v| <= |u| && u[..|v|] == v }

  /** Extending is transitive. */
  lemma UnitsExtendTrans(a: seq<Cue>, b: seq<Cue>, c: seq<Cue>)
    requires UnitsExtend(a, b) && UnitsExtend(b, c)
    ensures UnitsExtend(a, c)
  {
    assert c[..|a|] == c[..|b|][..|a|];
  }

  /** One line never drops or changes a cue already read. */
  lemma ReadLineKeepsUnits(r: Reader, line: string, tokenize: string -> seq<Event>, palette: map<string, Rgb>)
    ensures ReadLine(r, line, tokenize, palette).Ok? ==> UnitsExtend(r.units, ReadLine(r, line, tokenize, palette).value.units)
  {
    if r.state == IndexState && ParseInt(line).Some? && r.startTime.Some? && r.endTime.Some? {
      var u := Flushed(r.(state := TimeState), tokenize, palette).units;
      assert u[..|r.units|] == r.units;
    }
  }

  /** Reading never drops or changes a cue already read: it only appends. */
  lemma {:induction false} ReadLinesKeepsUnits(r: Reader, lines: seq<string>, tokenize: string -> seq<Event>, palette: map<string, Rgb>)
    ensures ReadLines(r, lines, tokenize, palette).Ok? ==> UnitsExtend(r.units, ReadLines(r, lines, tokenize, palette).value.units)
    decreases |lines|
  {
    if lines != [] {
      var init := lines[..|lines| - 1];
      ReadLinesKeepsUnits(r, init, tokenize, palette);
      var r1 := ReadLines(r, init, tokenize, palette);
      if r1.Ok? {
        ReadLineKeepsUnits(r1.value, Strip(lines[|lines| - 1]), tokenize, palette);
        var r2 := ReadLines(r, lines, tokenize, palette);
        if r2.Ok? {
          UnitsExtendTrans(r.units, r1.value.units, r2.value.units);
        }
      }
    }
  }

  /** A line read from where the earlier lines left off. */
  lemma ReadLinesStep(r0: Reader, lines: seq<string>, line: string, r: Reader, r1: Reader, tokenize: string -> seq<Event>, palette: map<string, Rgb>)
    requires ReadLines(r0, lines, tokenize, palette) == Ok(r)
    requires ReadLine(r, Strip(line), tokenize, palette) == Ok(r1)
    ensures ReadLines(r0, lines + [line], tokenize, palette) == Ok(r1)
  {
    ReadLinesSnoc(r0, lines, line, tokenize, palette);
  }

  /** A time line with both times moves to the content state, adding the position if there is one. */
  lemma TimeLineSome(r: Reader, line: string)
    requires ParseTimeLine(line).Ok? && ParseTimeLine(line).value.Some?
    ensures var t := ParseTimeLine(line).value.value;
      TimeLine(r, line) == Ok(r.(state := ContentState, startTime := Some(t.0), endTime := Some(t.1),
                                 formattings := r.formattings + (if t.2.Some? then [t.2.value] else [])))
  {
  }

  /** In the index state with no times, an index line moves to the time state and stores nothing. */
  lemma IndexStarts(r0: Reader, lines: seq<string>, r: Reader, index: string, tokenize: string -> seq<Event>, palette: map<string, Rgb>)
    requires ReadLines(r0, lines, tokenize, palette) == Ok(r)
    requires r.state == IndexState && r.startTime.None? && ParseInt(Strip(index)).Some?
    ensures ReadLines(r0, lines + [index], tokenize, palette) == Ok(r.(state := TimeState))
  {
    ReadLinesStep(r0, lines, index, r, r.(state := TimeState), tokenize, palette);
  }

  /** In the time state, a time line with both times sets them and any position, and the content state follows. */
  lemma TimesRead(r0: Reader, lines: seq<string>, r: Reader, times: string, tokenize: string -> seq<Event>, palette: map<string, Rgb>)
    requires ReadLines(r0, lines, tokenize, palette) == Ok(r) && r.state == TimeState
    requires ParseTimeLine(Strip(times)).Ok? && ParseTimeLine(Strip(times)).value.Some?
    ensures var t := ParseTimeLine(Strip(times)).value.value;
      ReadLines(r0, lines + [times], tokenize, palette) ==
        Ok(r.(state := ContentState, startTime := Some(t.0), endTime := Some(t.1),
              formattings := r.formattings + (if t.2.Some? then [t.2.value] else [])))
  {
    var t := ParseTimeLine(Strip(times)).value.value;
    TimeLineSome(r, Strip(times));
    ReadLinesStep(r0, lines, times, r,
      r.(state := ContentState, startTime := Some(t.0), endTime := Some(t.1),
         formattings := r.formattings + (if t.2.Some? then [t.2.value] else [])), tokenize, palette);
  }

  /** From the index state with no times, an index line and a time line with both times: the content state, the times and any position set. */
  lemma OneBlockTimed(r0: Reader, lines: seq<string>, r: Reader, index: string, times: string, tokenize: string -> seq<Event>, palette: map<string, Rgb>)
    requires ReadLines(r0, lines, tokenize, palette) == Ok(r) && r.state == IndexState && r.startTime.None?
    requires ParseInt(Strip(index)).Some?
    requires ParseTimeLine(Strip(times)).Ok? && ParseTimeLine(Strip(times)).value.Some?
    ensures var t := ParseTimeLine(Strip(times)).value.value;
      ReadLines(r0, lines + [index] + [times], tokenize, palette) ==
        Ok(r.(state := ContentState, startTime := Some(t.0), endTime := Some(t.1),
              formattings := r.formattings + (if t.2.Some? then [t.2.value] else [])))
  {
    var t := ParseTimeLine(Strip(times)).value.value;
    var pending := if t.2.Some? then [t.2.value] else [];
    var r1 := r.(state := TimeState);
    IndexStarts(r0, lines, r, index, tokenize, palette);
    TimesRead(r0, lines + [index], r1, times, tokenize, palette);
    var r2 := r1.(state := ContentState, startTime := Some(t.0), endTime := Some(t.1), formattings := r1.formattings + pending);
    assert r2 == r.(state := ContentState, startTime := Some(t.0), endTime := Some(t.1), formattings := r.formattings + pending);
  }

  /** In the content state, a content line and then a blank line: the line joins the content and the index state follows. */
  lemma ContentThenBlank(r0: Reader, lines: seq<string>, r: Reader, content: string, tokenize: string -> seq<Event>, palette: map<string, Rgb>)
    requires ReadLines(r0, lines, tokenize, palette) == Ok(r) && r.state == ContentState
    requires Strip(content) != ""
    ensures ReadLines(r0, lines + [content, ""], tokenize, palette) ==
      Ok(r.(rawText := r.rawText + Strip(content) + "\n", tempText := "\n", state := IndexState))
  {
    var r3 := r.(rawText := r.rawText + Strip(content) + "\n");
    ReadLinesStep(r0, lines, content, r, r3, tokenize, palette);
    assert Strip("") == "";
    ReadLinesStep(r0, lines + [content], "", r3, r3.(tempText := "\n", state := IndexState), tokenize, palette);
    assert lines + [content] + [""] == lines + [content, ""];
  }

  /** Then one content line and the blank line leave the cue pending, that line added to its content. */
  lemma OneBlockPending(r0: Reader, lines: seq<string>, r: Reader, index: string, times: string, content: string, tokenize: string -> seq<Event>, palette: map<string, Rgb>)
    requires ReadLines(r0, lines, tokenize, palette) == Ok(r) && r.state == IndexState && r.startTime.None?
    requires ParseInt(Strip(index)).Some? && Strip(content) != ""
    requires ParseTimeLine(Strip(times)).Ok? && ParseTimeLine(Strip(times)).value.Some?
    ensures var t := ParseTimeLine(Strip(times)).value.value;
      ReadLines(r0, lines + [index] + [times] + [content, ""], tokenize, palette) ==
        Ok(r.(state := IndexState, startTime := Some(t.0), endTime := Some(t.1),
              formattings := r.formattings + (if t.2.Some? then [t.2.value] else []),
              rawText := r.rawText + Strip(content) + "\n", tempText := "\n"))
  {
    var t := ParseTimeLine(Strip(times)).value.value;
    var r2 := r.(state := ContentState, startTime := Some(t.0), endTime := Some(t.1),
                 formattings := r.formattings + (if t.2.Some? then [t.2.value] else []));
    OneBlockTimed(r0, lines, r, index, times, tokenize, palette);
    ContentThenBlank(r0, lines + [index] + [times], r2, content, tokenize, palette);
  }

  /** In the index state with both times set, an index line stores the pending cue and the time state follows. */
  lemma IndexStores(r0: Reader, lines: seq<string>, r: Reader, next: string, tokenize: string -> seq<Event>, palette: map<string, Rgb>)
    requires ReadLines(r0, lines, tokenize, palette) == Ok(r)
    requires r.state == IndexState && r.startTime.Some? && r.endTime.Some?
    requires ParseInt(Strip(next)).Some?
    ensures ReadLines(r0, lines + [next], tokenize, palette) == Ok(Flushed(r.(state := TimeState), tokenize, palette))
  {
    ReadLinesStep(r0, lines, next, r, Flushed(r.(state := TimeState), tokenize, palette), tokenize, palette);
  }

  /** Storing a reader with both times appends its cue and clears what was pending. */
  lemma FlushedTimed(r: Reader, tokenize: string -> seq<Event>, palette: map<string, Rgb>)
    requires r.startTime.Some? && r.endTime.Some?
    ensures Flushed(r, tokenize, palette) == Reader(r.state, None, None, [], "", "",
      r.units + [Cue(r.startTime.value, r.endTime.value, CueText(r.rawText + r.tempText, tokenize),
                     CueFormattings(r.formattings, r.rawText + r.tempText, tokenize, palette))])
  {
  }

  /**
   * One block: an index, a time line, one content line and a blank line,
   * stored as one more cue when the next index line arrives; its content is
   * the stripped content line and two line breaks after whatever was kept.
   */
  lemma OneBlock(r0: Reader, lines: seq<string>, r: Reader, index: string, times: string, content: string, next: string,
                 tokenize: string -> seq<Event>, palette: map<string, Rgb>)
    requires ReadLines(r0, lines, tokenize, palette) == Ok(r) && r.state == IndexState && r.startTime.None?
    requires ParseInt(Strip(index)).Some? && ParseInt(Strip(next)).Some? && Strip(content) != ""
    requires ParseTimeLine(Strip(times)).Ok? && ParseTimeLine(Strip(times)).value.Some?
    ensures var t := ParseTimeLine(Strip(times)).value.value;
      var pending := r.formattings + (if t.2.Some? then [t.2.value] else []);
      var text := r.rawText + Strip(content) + "\n" + "\n";
      ReadLines(r0, lines + [index] + [times] + [content, ""] + [next], tokenize, palette) ==
        Ok(Reader(TimeState, None, None, [], "", "",
                  r.units + [Cue(t.0, t.1, CueText(text, tokenize), CueFormattings(pending, text, tokenize, palette))]))
  {
    var t := ParseTimeLine(Strip(times)).value.value;
    OneBlockPending(r0, lines, r, index, times, content, tokenize, palette);
    var r4 := r.(state := IndexState, startTime := Some(t.0), endTime := Some(t.1),
                 formattings := r.formattings + (if t.2.Some? then [t.2.value] else []),
                 rawText := r.rawText + Strip(content) + "\n", tempText := "\n");
    IndexStores(r0, lines + [index] + [times] + [content, ""], r4, next, tokenize, palette);
    FlushedTimed(r4.(state := TimeState), tokenize, palette);
  }

  /**
   * A line after the blank line that is not an index joins the cue's text,
   * behind a line break, when the cue is finally stored.
   */
  lemma StrayLineJoinsCue(r: Reader, stray: string, tokenize: string -> seq<Event>, palette: map<string, Rgb>)
    requires r.state == ContentState && r.startTime.Some? && r.endTime.Some?
    requires ParseInt(Strip(stray)).None?
    ensures ReadLines(r, ["", stray], tokenize, palette) == Ok(r.(state := IndexState, tempText := "\n" + Strip(stray) + "\n"))
    ensures var content := r.rawText + "\n" + Strip(stray) + "\n";
      Flushed(ReadLines(r, ["", stray], tokenize, palette).value, tokenize, palette).units ==
        r.units + [Cue(r.startTime.value, r.endTime.value, CueText(content, tokenize), CueFormattings(r.formattings, content, tokenize, palette))]
  {
    assert Strip("") == "";
    assert ["", stray][..1] == [""] && [""][..0] == [];
    assert r.rawText + ("\n" + Strip(stray) + "\n") == r.rawText + "\n" + Strip(stray) + "\n";
  }

  // ---------------------------------------------------------------- the parser

  /** Every cue of the list has its spans inside its text and no repeated formatting. */
  ghost predicate CuesValid(subtitle: Subtitle)
    reads subtitle
  {
    forall i :: 0 <= i < |subtitle.units| ==>
      WellFormed(subtitle.units[i]) && NoDuplicates(subtitle.units[i].formattings)
  }

  /** Both helper parsers are in their initial state. */
  ghost predicate HelpersClear(html: TagParser, ssa: SsaTagParser)
    reads html, ssa
  {
    && html.Valid() && html.position == 0 && html.text == "" && html.textParts == []
    && html.stack == [] && html.spans == [] && html.formattings == []
    && ssa.text == "" && ssa.position == None
  }

  /**
   * What is pending between lines: both times or neither; in the time state
   * nothing; the only formatting gathered before a cue is stored is its
   * absolute position. The content state can hold no times: the last flush
   * of `parse_text` clears them and keeps the state.
   */
  ghost predicate PendingValid(state: State, startTime: Option<Time>, endTime: Option<Time>, formattings: seq<Formatting>) {
    && state != BetweenSubs
    && (startTime.Some? <==> endTime.Some?)
    && (state == TimeState ==> startTime.None? && formattings == [])
    && (formattings != [] ==> startTime.Some?)
    && |formattings| <= 1 && (formattings != [] ==> formattings[0].AbsolutePosition?)
  }

  class SubRipParser {
    const subtitle: Subtitle
    var state: State
    var startTime: Option<Time>
    var endTime: Option<Time>
    var formattings: seq<Formatting>
    var rawText: string
    var tempText: string
    const html: TagParser
    const ssa: SsaTagParser
    /** The markup tokenizer of `HTMLParser.feed`, which is not part of this model. */
    const tokenize: string -> seq<Event>

    /**
     * Between lines: the helpers are clear; outside a cue nothing is pending;
     * the only formatting gathered before a cue is stored is its absolute position.
     */
    ghost predicate Valid()
      reads this, subtitle, html, ssa
    {
      HelpersClear(html, ssa) && CuesValid(subtitle) && PendingValid(state, startTime, endTime, formattings)
    }

    /** The reader's state as a value. */
    function Reading(): Reader
      reads this, subtitle
    {
      Reader(state, startTime, endTime, formattings, rawText, tempText, subtitle.units)
    }

    constructor (palette: map<string, Rgb>, tokenize: string -> seq<Event>)
      ensures Valid() && fresh(subtitle) && fresh(html) && fresh(ssa)
      ensures subtitle.units == [] && state == IndexState && startTime == None && endTime == None
      ensures formattings == [] && rawText == "" && tempText == "" && this.tokenize == tokenize
      ensures html.palette == palette
    {
      subtitle := new Subtitle([]);
      state := IndexState;
      startTime := None;
      endTime := None;
      formattings := [];
      rawText := "";
      tempText := "";
      html := new TagParser(palette);
      ssa := new SsaTagParser();
      this.tokenize := tokenize;
    }

    /** `_formatting_already_exists`: an equal formatting of the same class is already gathered. */
    method FormattingAlreadyExists(f: Formatting) returns (b: bool)
      ensures b <==> f in formattings
    {
      for k := 0 to |formattings|
        invariant f !in formattings[..k]
      {
        DataclassEqIsEquality(formattings[k], f);
        if KindOf(formattings[k]) == KindOf(f) && DataclassEq(formattings[k], f) {
          return true;
        }
        assert formattings[..k + 1] == formattings[..k] + [formattings[k]];
      }
      assert formattings[..|formattings|] == formattings;
      return false;
    }

    /** `_parse_absolute_position`: reads the coordinates and appends the position itself when all four are there. */
    method ParseAbsolutePosition(line: string) returns (r: Result<()>)
      modifies this
      ensures r.Err? <==> AbsolutePositionOf(line).Err?
      ensures r.Err? ==> r.error == ValueError
      ensures r.Ok? ==>
        formattings == old(formattings) + (if AbsolutePositionOf(line).value.Some? then [AbsolutePositionOf(line).value.value] else [])
      ensures state == old(state) && startTime == old(startTime) && endTime == old(endTime)
      ensures rawText == old(rawText) && tempText == old(tempText)
    {
      var tokens := SplitWhitespace(line);
      var c := NoCoordinates;
      assert tokens[0..] == tokens;
      for k := 0 to |tokens|
        invariant ReadCoordinates(c, tokens[k..]) == ReadCoordinates(NoCoordinates, tokens)
        invariant formattings == old(formattings) && state == old(state)
        invariant startTime == old(startTime) && endTime == old(endTime)
        invariant rawText == old(rawText) && tempText == old(tempText)
      {
        assert tokens[k..][1..] == tokens[k + 1..];
        var step := ReadCoordinate(c, tokens[k]);
        if step.Err? {
          return Err(ValueError);
        }
        c := step.value;
      }
      assert tokens[|tokens|..] == [];
      if c.x1.Some? && c.x2.Some? && c.y1.Some? && c.y2.Some? {
        formattings := formattings + [AbsolutePosition(c.x1.value, c.x2.value, c.y1.value, c.y2.value)];
      }
      return Ok(());
    }

    /**
     * `_parse_unit_text`: strip the text; take the position of the directive
     * stripper, then the markup parser's formattings, each only if not already
     * gathered; the text becomes the markup parser's text; both helpers are cleared.
     */
    method ParseUnitText(text: string)
      requires HelpersClear(html, ssa)
      modifies this, html, ssa
      ensures HelpersClear(html, ssa)
      ensures rawText == CueText(text, tokenize)
      ensures formattings == AppendNew(AppendNew(old(formattings), PositionPart(TextPosition(text))), CueMarkup(text, tokenize, html.palette))
      ensures state == old(state) && startTime == old(startTime) && endTime == old(endTime)
      ensures tempText == old(tempText)
    {
      var position, cleaned := RunStripper(text);
      AddPosition(position);
      ghost var positioned := formattings;
      var items, out := RunMarkup(cleaned);
      ExtendNew(items);
      assert formattings == AppendNew(positioned, items);
      rawText := out;
      ClearHelpers();
    }

    /** Both helper parsers go back to their initial state. */
    method ClearHelpers()
      requires html.Valid()
      modifies html, ssa
      ensures HelpersClear(html, ssa)
    {
      ssa.Clear();
      html.Clear();
    }

    /** Append the stripper's position unless an equal one is already gathered. */
    method AddPosition(position: Option<Classifier>)
      modifies this
      ensures formattings == AppendNew(old(formattings), PositionPart(position))
      ensures state == old(state) && startTime == old(startTime) && endTime == old(endTime)
      ensures rawText == old(rawText) && tempText == old(tempText)
    {
      if position.Some? {
        var present := FormattingAlreadyExists(RelativePosition(position.value));
        if !present {
          formattings := formattings + [RelativePosition(position.value)];
        }
        assert [RelativePosition(position.value)][1..] == [];
      }
    }

    /** The directive stripper's part of `_parse_unit_text`: feed the stripped text, read position and text. */
    method RunStripper(text: string) returns (position: Option<Classifier>, cleaned: string)
      requires ssa.position == None
      modifies ssa
      ensures position == TextPosition(text)
      ensures cleaned == RemoveMatches(Strip(text), 0)
    {
      var t := Strip(text);
      ssa.Feed(t);
      position := ssa.position;
      cleaned := ssa.text;
    }

    /** The markup parser's part of `_parse_unit_text`: feed the tokens, close, read formattings and text. */
    method RunMarkup(cleaned: string) returns (items: seq<Formatting>, out: string)
      requires html.Valid() && html.Snapshot() == InitialMarkup
      modifies html
      ensures html.Valid()
      ensures out == MarkupText(tokenize(cleaned)) && items == MarkupFormattings(tokenize(cleaned), html.palette)
      ensures SpansIn(items, |out|)
    {
      html.Feed(tokenize(cleaned));
      html.Close();
      items := html.formattings;
      out := html.text;
    }

    /** The `extend(filter(...))` of `_parse_unit_text`, one item at a time. */
    method ExtendNew(items: seq<Formatting>)
      modifies this
      ensures formattings == AppendNew(old(formattings), items)
      ensures state == old(state) && startTime == old(startTime) && endTime == old(endTime)
      ensures rawText == old(rawText) && tempText == old(tempText)
    {
      for k := 0 to |items|
        invariant formattings == AppendNew(old(formattings), items[..k])
        invariant state == old(state) && startTime == old(startTime) && endTime == old(endTime)
        invariant rawText == old(rawText) && tempText == old(tempText)
      {
        var present := FormattingAlreadyExists(items[k]);
        if !present {
          formattings := formattings + [items[k]];
        }
        AppendNewStep(old(formattings), items, k);
        assert [items[k]][1..] == [];
      }
      assert items[..|items|] == items;
    }

    /**
     * `_store_unit`: the pending temporary text joins the content, which is
     * parsed; a cue is appended when both times are set; then everything
     * pending is reset.
     */
    method StoreUnit()
      requires HelpersClear(html, ssa) && CuesValid(subtitle)
      requires |formattings| <= 1 && (formattings != [] ==> formattings[0].AbsolutePosition?)
      modifies this, html, ssa, subtitle
      ensures HelpersClear(html, ssa) && CuesValid(subtitle)
      ensures Reading() == Flushed(old(Reading()), tokenize, html.palette)
      ensures startTime == None && endTime == None && formattings == [] && rawText == "" && tempText == "" && state == old(state)
      ensures |old(subtitle.units)| <= |subtitle.units| && subtitle.units[..|old(subtitle.units)|] == old(subtitle.units)
    {
      ghost var pending, text := ParsePendingText();
      StoreIfTimed(pending, text);
      ClearPending();
    }

    /** The middle of `_store_unit`: with both times set, the parsed content becomes a cue of the list. */
    method StoreIfTimed(ghost pending: seq<Formatting>, ghost text: string)
      requires ContentParsed(pending, text)
      requires rawText == CueText(text, tokenize) && formattings == CueFormattings(pending, text, tokenize, html.palette)
      modifies subtitle
      ensures CuesValid(subtitle)
      ensures subtitle.units == old(subtitle.units) +
        if startTime.Some? && endTime.Some? then [Cue(startTime.value, endTime.value, rawText, formattings)] else []
    {
      if startTime.Some? && endTime.Some? {
        var cue := Cue(startTime.value, endTime.value, rawText, formattings);
        StoreCue(cue);
      }
    }

    /** The first half of `_store_unit`: the temporary text joins the content, which is parsed. */
    method ParsePendingText() returns (ghost pending: seq<Formatting>, ghost text: string)
      requires HelpersClear(html, ssa) && CuesValid(subtitle)
      requires |formattings| <= 1 && (formattings != [] ==> formattings[0].AbsolutePosition?)
      modifies this, html, ssa
      ensures pending == old(formattings) && text == old(rawText) + old(tempText)
      ensures HelpersClear(html, ssa) && ContentParsed(pending, text)
      ensures rawText == CueText(text, tokenize) && formattings == CueFormattings(pending, text, tokenize, html.palette)
      ensures state == old(state) && startTime == old(startTime) && endTime == old(endTime)
    {
      pending, text := formattings, rawText + tempText;
      rawText := rawText + tempText;
      ParseUnitText(rawText);
      CueFormattingsParsed(pending, text, tokenize, html.palette);
    }

    /**
     * After the content is parsed: the list is well formed, the gathered
     * formattings do not repeat, lie in the text, begin with those pending
     * before and hold the stripper's position.
     */
    ghost predicate ContentParsed(pending: seq<Formatting>, text: string)
      reads this, subtitle
    {
      CuesValid(subtitle) && FormattingsParsed(formattings, |rawText|, pending, text)
    }

    /** A cue whose spans lie in its text and whose formattings do not repeat joins the list. */
    method StoreCue(cue: Cue)
      requires CuesValid(subtitle) && WellFormed(cue) && NoDuplicates(cue.formattings)
      modifies subtitle
      ensures CuesValid(subtitle) && subtitle.units == old(subtitle.units) + [cue]
    {
      subtitle.Append(cue);
    }

    /** The end of `_store_unit`: both times, the text and the formattings are reset. */
    method ClearPending()
      modifies this
      ensures startTime == None && endTime == None && formattings == [] && rawText == "" && tempText == ""
      ensures state == old(state)
    {
      startTime := None;
      endTime := None;
      rawText := "";
      tempText := "";
      formattings := [];
    }

    /** `_on_index_state`: an index line moves to the time state, storing the pending cue; any other line is kept in the temporary text. */
    method OnIndexState(line: string)
      requires Valid() && state == IndexState
      modifies this, html, ssa, subtitle
      ensures Valid()
      ensures Reading() == IndexLine(old(Reading()), line, tokenize, html.palette)
    {
      var index := ParseInt(line);
      if index.Some? {
        state := TimeState;
        if startTime.Some? && endTime.Some? {
          StoreUnit();
        }
      } else {
        tempText := tempText + line + "\n";
      }
    }

    /** `_on_time_state`: a line without "-->" is skipped; otherwise both times are read (ValueError if malformed) and the content state follows. */
    method OnTimeState(line: string) returns (r: Result<()>)
      requires PendingValid(state, startTime, endTime, formattings) && state == TimeState
      modifies this
      ensures r.Err? <==> ParseTimeLine(line).Err?
      ensures r.Err? ==> r.error == ValueError
      ensures r.Ok? ==> PendingValid(state, startTime, endTime, formattings) && rawText == old(rawText) && tempText == old(tempText)
      ensures r.Ok? ==> Reading() == TimeLine(old(Reading()), line).value
      ensures r.Ok? && ParseTimeLine(line).value.None? ==>
        state == TimeState && startTime == old(startTime) && endTime == old(endTime) && formattings == old(formattings)
      ensures r.Ok? && ParseTimeLine(line).value.Some? ==>
        && state == ContentState
        && startTime == Some(ParseTimeLine(line).value.value.0) && endTime == Some(ParseTimeLine(line).value.value.1)
        && formattings == (if ParseTimeLine(line).value.value.2.Some? then [ParseTimeLine(line).value.value.2.value] else [])
    {
      var timestamps := SplitOnce(line, "-->");
      if timestamps.None? {
        assert ParseTimeLine(line) == Ok(None);
        return Ok(());
      }
      var a, b := timestamps.value.0, timestamps.value.1;
      assert ParseTimeLine(line) == TimesAndPosition(a, b);
      ghost var before := Reading();
      r := ReadTimes(a, b);
      if r.Ok? {
        TimeLineSome(before, line);
        assert before.formattings + formattings == formattings;
      }
    }

    /**
     * The two sides of "-->" read in order: the start time, the end time,
     * then the position after the end time; the content state follows.
     */
    method ReadTimes(a: string, b: string) returns (r: Result<()>)
      requires formattings == []
      modifies this
      ensures r.Err? <==> TimesAndPosition(a, b).Err?
      ensures r.Err? ==> r.error == ValueError
      ensures r.Ok? ==>
        && state == ContentState && PendingValid(state, startTime, endTime, formattings)
        && startTime == Some(TimesAndPosition(a, b).value.value.0) && endTime == Some(TimesAndPosition(a, b).value.value.1)
        && formattings == (if TimesAndPosition(a, b).value.value.2.Some? then [TimesAndPosition(a, b).value.value.2.value] else [])
      ensures rawText == old(rawText) && tempText == old(tempText)
    {
      var start := ParseTimestamp(a);
      if start.Err? {
        return Err(ValueError);
      }
      startTime := Some(start.value);
      var end := ParseTimestamp(b);
      if end.Err? {
        return Err(ValueError);
      }
      endTime := Some(end.value);
      r := ReadEndPosition(b);
    }

    /**
     * The tail of `_on_time_state`: an 'X' after the end time calls for an
     * absolute position; then the content state follows.
     */
    method ReadEndPosition(b: string) returns (r: Result<()>)
      requires formattings == [] && startTime.Some? && endTime.Some?
      modifies this
      ensures r.Err? <==> EndPosition(b).Err?
      ensures r.Err? ==> r.error == ValueError
      ensures r.Ok? ==>
        && state == ContentState && PendingValid(state, startTime, endTime, formattings)
        && formattings == (if EndPosition(b).value.Some? then [EndPosition(b).value.value] else [])
      ensures startTime == old(startTime) && endTime == old(endTime)
      ensures rawText == old(rawText) && tempText == old(tempText)
    {
      var upper := Upper(b);
      if HasChar(upper, 'X') {
        r := ParseAbsolutePosition(upper);
        if r.Err? {
          return;
        }
      } else {
        r := Ok(());
      }
      state := ContentState;
    }

    /** `_on_content_state`: a blank line ends the content, leaving a line break pending; any other line is added to it. */
    method OnContentState(line: string)
      requires Valid() && state == ContentState
      modifies this
      ensures Valid()
      ensures Reading() == ContentLine(old(Reading()), line)
    {
      if |line| == 0 {
        tempText := "\n";
        state := IndexState;
      } else {
        rawText := rawText + line + "\n";
      }
    }

    /**
     * `parse_text`: drop byte-order marks, split into lines, strip each and
     * dispatch on the state; store the last cue if both its times are set.
     * ValueError from a malformed time line ends the parse.
     */
    method ParseText(srt: string) returns (r: Result<Subtitle>)
      requires Valid()
      modifies this, html, ssa, subtitle
      ensures CuesValid(subtitle)
      ensures |old(subtitle.units)| <= |subtitle.units| && subtitle.units[..|old(subtitle.units)|] == old(subtitle.units)
      ensures r.Err? ==> r.error == ValueError
      ensures r.Ok? ==> Valid()
      ensures r.Ok? ==> r.value == subtitle && HelpersClear(html, ssa) && startTime == None && endTime == None && formattings == []
      ensures r.Err? <==> ReadSrt(old(Reading()), srt, tokenize, html.palette).Err?
      ensures r.Ok? ==> Reading() == ReadSrt(old(Reading()), srt, tokenize, html.palette).value
    {
      ghost var start := Reading();
      var lines := SplitLines(ReplaceAll(srt, "\U{FEFF}", ""));
      assert lines == SrtLines(srt);
      var read := ReadAllLines(lines);
      if read.Err? {
        return Err(ValueError);
      }
      ghost var mid := Reading();
      assert ReadSrt(start, srt, tokenize, html.palette) ==
        Ok(if mid.startTime.Some? && mid.endTime.Some? then Flushed(mid, tokenize, html.palette) else mid);
      if startTime.Some? && endTime.Some? {
        ghost var units := subtitle.units;
        StoreUnit();
        UnitsExtendTrans(old(subtitle.units), units, subtitle.units);
      }
      return Ok(subtitle);
    }

    /** The loop of `parse_text`: each line stripped and handled; a ValueError ends it. */
    method ReadAllLines(lines: seq<string>) returns (r: Result<()>)
      requires Valid()
      modifies this, html, ssa, subtitle
      ensures r.Ok? ==> Valid()
      ensures r.Err? ==> r.error == ValueError && CuesValid(subtitle)
      ensures |old(subtitle.units)| <= |subtitle.units| && subtitle.units[..|old(subtitle.units)|] == old(subtitle.units)
      ensures r.Err? <==> ReadLines(old(Reading()), lines, tokenize, html.palette).Err?
      ensures r.Ok? ==> Reading() == ReadLines(old(Reading()), lines, tokenize, html.palette).value
    {
      ghost var start := Reading();
      for k := 0 to |lines|
        invariant Valid()
        invariant UnitsExtend(old(subtitle.units), subtitle.units)
        invariant ReadLines(start, lines[..k], tokenize, html.palette) == Ok(Reading())
      {
        ghost var units := subtitle.units;
        ghost var before := Reading();
        assert lines[..k + 1] == lines[..k] + [lines[k]];
        var step := ParseLine(Strip(lines[k]));
        UnitsExtendTrans(old(subtitle.units), units, subtitle.units);
        if step.Err? {
          ReadLinesStepErr(start, lines[..k], lines[k], before, tokenize, html.palette);
          ReadLinesErrStays(start, lines[..k + 1], lines[k + 1..], tokenize, html.palette);
          assert lines[..k + 1] + lines[k + 1..] == lines;
          return Err(ValueError);
        }
        ReadLinesStep(start, lines[..k], lines[k], before, Reading(), tokenize, html.palette);
      }
      assert lines[..|lines|] == lines;
      return Ok(());
    }

    /** One stripped line of `parse_text`, handed to the handler of the current state. */
    method ParseLine(line: string) returns (r: Result<()>)
      requires Valid()
      modifies this, html, ssa, subtitle
      ensures r.Ok? ==> Valid()
      ensures r.Err? ==> r.error == ValueError && CuesValid(subtitle)
      ensures r.Err? <==> ReadLine(old(Reading()), line, tokenize, html.palette).Err?
      ensures r.Ok? ==> Reading() == ReadLine(old(Reading()), line, tokenize, html.palette).value
      ensures |old(subtitle.units)| <= |subtitle.units| && subtitle.units[..|old(subtitle.units)|] == old(subtitle.units)
    {
      r := Ok(());
      if state == IndexState {
        OnIndexState(line);
      } else if state == TimeState {
        r := OnTimeState(line);
      } else if state == ContentState {
        OnContentState(line);
      }
    }
  }

  /** Appending the first k + 1 items is appending the first k, then the next one. */
  lemma AppendNewStep(fs: seq<Formatting>, items: seq<Formatting>, k: nat)
    requires k < |items|
    ensures AppendNew(fs, items[..k + 1]) == AppendNew(AppendNew(fs, items[..k]), [items[k]])
  {
    AppendNewConcat(fs, items[..k], [items[k]]);
    assert items[..k + 1] == items[..k] + [items[k]];
  }

  lemma {:induction false} AppendNewConcat(fs: seq<Formatting>, a: seq<Formatting>, b: seq<Formatting>)
    ensures AppendNew(fs, a + b) == AppendNew(AppendNew(fs, a), b)
    decreases |a|
  {
    if a == [] {
      assert a + b == b;
    } else {
      assert (a + b)[0] == a[0] && (a + b)[1..] == a[1..] + b;
      AppendNewConcat(if a[0] in fs then fs else fs + [a[0]], a[1..], b);
    }
  }
}
