/**
 * The MicroDVD reader (`MicroDVDParser`): the `{DEFAULT}` line, one cue
 * line at a time, and the whole document.
 *
 * Floating point stays outside the model: the frame rate is a `real` and
 * `Time.from_frame` and `float(...)` are function-valued fields, as is the
 * iteration order of a Python set (`setOrder`).
 */
module MicroDvdParsing {
  import opened Wrappers
  import opened PyStr
  import opened Times
  import opened Formattings
  import opened Subtitles
  import opened MicroDvdContent
  import opened SetDicts

  // ---------------------------------------------------------------- the default line

  /** A `{DEFAULT}{...}codes` line: the cue pattern matches and its start group is "DEFAULT". */
  predicate IsDefaultLine(line: string) {
    MatchSub(line).Some? && MatchSub(line).value.start == "DEFAULT"
  }

  /** Such a line contains `{DEFAULT}`, so the substring test in front of the match never decides anything. */
  lemma DefaultLineHasMarker(line: string)
    requires IsDefaultLine(line)
    ensures Find(line, "{DEFAULT}").Some?
  {
    var m := MatchSub(line).value;
    MatchSubShape(line);
    assert line == "{DEFAULT}" + ("{" + m.end + "}" + m.content);
    assert OccursAt(line, "{DEFAULT}", 0);
    FindFirst(line, "{DEFAULT}");
  }

  /** The first default line from k on. */
  function FirstDefaultLine(lines: seq<string>, k: nat): (r: Option<nat>)
    requires k <= |lines|
    ensures r.Some? ==> k <= r.value < |lines| && IsDefaultLine(lines[r.value])
    decreases |lines| - k
  {
    if k == |lines| then None
    else if IsDefaultLine(lines[k]) then Some(k)
    else FirstDefaultLine(lines, k + 1)
  }

  /** It is a default line with none before it from k on; there is none exactly when no line from k on is one. */
  lemma {:induction false} FirstDefaultLineSpec(lines: seq<string>, k: nat)
    requires k <= |lines|
    ensures var r := FirstDefaultLine(lines, k);
      && (r.Some? ==> forall j :: k <= j < r.value ==> !IsDefaultLine(lines[j]))
      && (r.None? <==> forall j :: k <= j < |lines| ==> !IsDefaultLine(lines[j]))
    decreases |lines| - k
  {
    if k < |lines| && !IsDefaultLine(lines[k]) {
      FirstDefaultLineSpec(lines, k + 1);
    }
  }

  /** Adding a value under one of c, f, s, y, p keeps the defaults valid; new keys go last. */
  lemma AddDefaultKeeps(d: SetDict<string>, identifier: string, value: string)
    requires identifier in {"c", "f", "s", "y", "p"}
    ensures var r := AddValue(d, identifier, value);
      && (DefaultsValid(d) ==> DefaultsValid(r))
      && (Keys(r) == Keys(d) || (|Keys(r)| == |Keys(d)| + 1 && Keys(r)[..|d|] == Keys(d)))
  {
    var r := AddValue(d, identifier, value);
    if DefaultsValid(d) {
      forall i | 0 <= i < |r| ensures r[i].0 in {"c", "f", "s", "y", "p"} {
        assert Keys(r)[i] == r[i].0;
        if i < |d| {
          assert Keys(d)[i] == d[i].0;
        }
      }
    }
    assert Keys(r)[..|d|] == Keys(d);
  }

  /**
   * One code of the default line: identifier and value lower-cased and
   * stripped; kept only for c, f, s, y and p.
   */
  function DefaultCode(d: SetDict<string>, code: string): (r: SetDict<string>)
    ensures DefaultsValid(d) ==> DefaultsValid(r)
  {
    match DefaultEntry(code)
    case None => d
    case Some((identifier, value)) =>
      if identifier in {"c", "f", "s", "y", "p"} then
        AddDefaultKeeps(d, identifier, value);
        AddValue(d, identifier, value)
      else d
  }

  /** `code.split(":")` with at least two parts: the first two, stripped and lower-cased. */
  function DefaultEntry(code: string): Option<(string, string)> {
    var parts := SplitChar(code, ':');
    if |parts| <= 1 then None else Some((Lower(Strip(parts[0])), Lower(Strip(parts[1]))))
  }

  /** Every code of the default line, in order. */
  function DefaultCodes(d: SetDict<string>, codes: seq<string>): (r: SetDict<string>)
    ensures DefaultsValid(d) ==> DefaultsValid(r)
  {
    if codes == [] then d else DefaultCode(DefaultCodes(d, codes[..|codes| - 1]), codes[|codes| - 1])
  }

  /** The defaults after `_parse_default`: only the first default line counts. */
  function DefaultsAfter(d: SetDict<string>, lines: seq<string>): (r: SetDict<string>)
    ensures DefaultsValid(d) ==> DefaultsValid(r)
    ensures FirstDefaultLine(lines, 0).None? ==> r == d
  {
    match FirstDefaultLine(lines, 0)
    case None => d
    case Some(i) => DefaultCodes(d, ControlCodes(MatchSub(lines[i]).value.content))
  }

  // ---------------------------------------------------------------- reading cues

  /** What the reader keeps between lines: the cues so far, whether the last end was empty, and the last cue. */
  datatype Reader = Reader(units: seq<Cue>, previousEndEmpty: bool, previous: Option<nat>)

  /** The last cue is one of the cues, and every cue's spans lie within its text. */
  predicate ReaderValid(rd: Reader) {
    && (rd.previous.Some? ==> rd.previous.value < |rd.units|)
    && forall i :: 0 <= i < |rd.units| ==> WellFormed(rd.units[i])
  }

  /** The parser's settings: the frame rate, `Time.from_frame`, the set order and the default codes. */
  datatype Settings = Settings(fps: real, fromFrame: (int, real) -> Time, order: set<string> -> seq<string>, defaults: SetDict<string>)

  ghost predicate SettingsValid(st: Settings) {
    DefaultsValid(st.defaults) && Enumerates(st.order)
  }

  /** `start_str.isnumeric()`, for decimal digits. */
  predicate IsNumeric(s: string) {
    s != [] && AllDigits(s)
  }

  /**
   * `previous_unit.end = start`, done when the previous cue's end was
   * empty: only that cue changes, and only its end.
   */
  function CloseOpenCue(rd: Reader, start: Time): (units: seq<Cue>)
    requires ReaderValid(rd)
    ensures ReaderValid(rd.(units := units))
    ensures |units| == |rd.units|
    ensures forall i :: 0 <= i < |units| ==> units[i].(end := rd.units[i].end) == rd.units[i]
    ensures forall i :: 0 <= i < |units| && units[i].end != rd.units[i].end ==>
      rd.previousEndEmpty && rd.previous == Some(i)
    ensures rd.previousEndEmpty && rd.previous.Some? ==> units[rd.previous.value].end == start
  {
    if rd.previousEndEmpty && rd.previous.Some? then
      rd.units[rd.previous.value := rd.units[rd.previous.value].(end := start)]
    else rd.units
  }

  /**
   * `_parse_unit` once the pattern matched with a numeric start: the open
   * previous cue is closed at this start; an end that is not a number
   * raises ValueError; an empty end means eight seconds after the start;
   * the cue is appended and becomes the previous one unless its content
   * raises.
   */
  ghost function ReadFields(rd: Reader, m: SubFields, st: Settings): (r: (Result<()>, Reader))
    requires ReaderValid(rd) && SettingsValid(st) && IsNumeric(m.start)
    ensures ReaderValid(r.1) && |rd.units| <= |r.1.units|
    ensures var start := st.fromFrame(DigitsValue(m.start), st.fps);
      r.1.units[..|rd.units|] == CloseOpenCue(rd, start)
    ensures r.0.Err? ==> r.0.error == ValueError && |r.1.units| == |rd.units|
    ensures m.end != "" && ParseInt(m.end).None? ==> r.0 == Err(ValueError) && r.1.previousEndEmpty == rd.previousEndEmpty
    ensures r.0.Ok? ==>
      var start := st.fromFrame(DigitsValue(m.start), st.fps);
      && |r.1.units| == |rd.units| + 1 && r.1.previous == Some(|rd.units|)
      && r.1.units[|rd.units|].start == start
      && r.1.previousEndEmpty == (m.end == "")
      && (m.end == "" ==> r.1.units[|rd.units|].end.milliseconds == start.milliseconds + 8000)
      && (m.end != "" ==> r.1.units[|rd.units|].end == st.fromFrame(ParseInt(m.end).value, st.fps))
    ensures r.0.Err? <==>
      (m.end != "" && ParseInt(m.end).None?) || ContentFormattings(st.defaults, SplitChar(m.content, '|'), st.order).Err?
    ensures r.0.Ok? ==>
      var lines := SplitChar(m.content, '|');
      && r.1.units[|rd.units|].text == CueText(lines)
      && r.1.units[|rd.units|].formattings == ContentFormattings(st.defaults, lines, st.order).value
  {
    var start := st.fromFrame(DigitsValue(m.start), st.fps);
    var units := CloseOpenCue(rd, start);
    if m.end != "" && ParseInt(m.end).None? then (Err(ValueError), rd.(units := units))
    else
      var end := if m.end == "" then Add(start, IntOperand(8000)) else st.fromFrame(ParseInt(m.end).value, st.fps);
      AppendContent(Reader(units, m.end == "", rd.previous), start, end, m.content, st)
  }

  /** The cue of a content is appended and becomes the previous one, unless its content raises. */
  ghost function AppendContent(rd: Reader, start: Time, end: Time, content: string, st: Settings): (r: (Result<()>, Reader))
    requires ReaderValid(rd) && SettingsValid(st)
    ensures ReaderValid(r.1) && r.1.previousEndEmpty == rd.previousEndEmpty
    ensures r.0.Err? ==> r.0.error == ValueError && r.1 == rd
    ensures r.0.Ok? ==> |r.1.units| == |rd.units| + 1 && r.1.units[..|rd.units|] == rd.units
    ensures r.0.Ok? ==> r.1.previous == Some(|rd.units|) && r.1.units[|rd.units|].start == start && r.1.units[|rd.units|].end == end
    ensures r.0.Err? <==> ContentFormattings(st.defaults, SplitChar(content, '|'), st.order).Err?
    ensures r.0.Ok? ==>
      var lines := SplitChar(content, '|');
      r.1.units[|rd.units|] == Cue(start, end, CueText(lines), ContentFormattings(st.defaults, lines, st.order).value)
  {
    var lines := SplitChar(content, '|');
    match ContentFormattings(st.defaults, lines, st.order)
    case Err(e) => (Err(e), rd)
    case Ok(fs) =>
      var c := Cue(start, end, CueText(lines), fs);
      assert WellFormed(c) by { ContentWithin(st.defaults, lines, st.order); }
      AppendKeepsValid(rd, c);
      (Ok(()), Reader(rd.units + [c], rd.previousEndEmpty, Some(|rd.units|)))
  }

  /** Appending a well-formed cue that becomes the previous one keeps the reader valid. */
  lemma AppendKeepsValid(rd: Reader, c: Cue)
    requires ReaderValid(rd) && WellFormed(c)
    ensures var r := Reader(rd.units + [c], rd.previousEndEmpty, Some(|rd.units|));
      ReaderValid(r) && r.units[..|rd.units|] == rd.units && r.units[|rd.units|] == c
  {
    var r := Reader(rd.units + [c], rd.previousEndEmpty, Some(|rd.units|));
    assert r.units[..|rd.units|] == rd.units;
  }

  /** `_parse_unit` on one line: a line that does not match, or whose start is not a number, changes nothing. */
  ghost function ReadUnit(rd: Reader, line: string, st: Settings): (r: (Result<()>, Reader))
    requires ReaderValid(rd) && SettingsValid(st)
    ensures ReaderValid(r.1)
    ensures MatchSub(line).None? || !IsNumeric(MatchSub(line).value.start) ==> r == (Ok(()), rd)
    ensures |rd.units| <= |r.1.units| <= |rd.units| + 1
  {
    match MatchSub(line)
    case None => (Ok(()), rd)
    case Some(m) => if IsNumeric(m.start) then ReadFields(rd, m, st) else (Ok(()), rd)
  }

  /** Of the cues read before, only the previous one can change, and only its end. */
  lemma ReadUnitKeepsEarlier(rd: Reader, line: string, st: Settings)
    requires ReaderValid(rd) && SettingsValid(st)
    ensures var r := ReadUnit(rd, line, st).1;
      && (forall i :: 0 <= i < |rd.units| ==> r.units[i].(end := rd.units[i].end) == rd.units[i])
      && (forall i :: 0 <= i < |rd.units| && r.units[i].end != rd.units[i].end ==>
        rd.previousEndEmpty && rd.previous == Some(i))
  {
    var r := ReadUnit(rd, line, st).1;
    match MatchSub(line)
    case None =>
    case Some(m) =>
      if IsNumeric(m.start) {
        var units := CloseOpenCue(rd, st.fromFrame(DigitsValue(m.start), st.fps));
        forall i | 0 <= i < |rd.units| ensures r.units[i] == units[i] {
          assert r.units[..|rd.units|][i] == r.units[i];
        }
      }
  }

  /** `_parse_unit` on each line in turn; the first error ends the run. */
  ghost function ReadUnits(rd: Reader, lines: seq<string>, st: Settings): (r: (Result<()>, Reader))
    requires ReaderValid(rd) && SettingsValid(st)
    ensures ReaderValid(r.1) && |rd.units| <= |r.1.units| <= |rd.units| + |lines|
    ensures r.0.Err? ==> r.0.error == ValueError
  {
    if lines == [] then (Ok(()), rd)
    else
      var r := ReadUnits(rd, lines[..|lines| - 1], st);
      if r.0.Err? then r else ReadUnit(r.1, lines[|lines| - 1], st)
  }

  /** One more line after a run without error: the run goes on with what reading that line gives. */
  lemma ReadUnitsNext(rd: Reader, lines: seq<string>, k: nat, st: Settings, before: Reader, e: Result<()>, after: Reader)
    requires ReaderValid(rd) && SettingsValid(st) && k < |lines| && ReadUnits(rd, lines[..k], st) == (Ok(()), before)
    requires (e, after) == ReadUnit(before, lines[k], st)
    ensures ReadUnits(rd, lines[..k + 1], st) == (e, after)
  {
    assert lines[..k + 1][..k] == lines[..k];
  }

  /** An error in line k ends the whole run: the lines after it change nothing. */
  lemma {:induction false} ReadUnitsPrefixErr(rd: Reader, lines: seq<string>, k: nat, st: Settings, e: Result<()>, after: Reader)
    requires ReaderValid(rd) && SettingsValid(st) && k < |lines|
    requires ReadUnits(rd, lines[..k + 1], st) == (e, after) && e.Err?
    ensures ReadUnits(rd, lines, st) == (e, after)
    decreases |lines| - k
  {
    if k + 1 < |lines| {
      var init := lines[..|lines| - 1];
      assert init[..k + 1] == lines[..k + 1];
      ReadUnitsPrefixErr(rd, init, k, st, e, after);
    } else {
      assert lines[..k + 1] == lines;
    }
  }

  /** A line read without error extends a run without error. */
  lemma ReadUnitsExtend(rd: Reader, lines: seq<string>, k: nat, st: Settings, before: Reader, e: Result<()>, after: Reader)
    requires ReaderValid(rd) && SettingsValid(st) && k < |lines| && ReadUnits(rd, lines[..k], st) == (Ok(()), before)
    requires (e, after) == ReadUnit(before, lines[k], st) && e.Ok?
    ensures ReadUnits(rd, lines[..k + 1], st) == (Ok(()), after)
  {
    ReadUnitsNext(rd, lines, k, st, before, e, after);
    OkUnit(e);
  }

  /**
   * A cue whose end is empty is closed by the next numbered cue: it ends
   * where that one starts.
   */
  lemma OpenCueClosedByNext(rd: Reader, first: string, second: string, st: Settings)
    requires ReaderValid(rd) && SettingsValid(st)
    requires ReadUnit(rd, first, st).0.Ok? && |ReadUnit(rd, first, st).1.units| == |rd.units| + 1
    requires MatchSub(first).Some? && MatchSub(first).value.end == ""
    requires MatchSub(second).Some? && IsNumeric(MatchSub(second).value.start)
    ensures var mid := ReadUnit(rd, first, st).1;
      var last := ReadUnit(mid, second, st).1;
      last.units[|rd.units|].end == st.fromFrame(DigitsValue(MatchSub(second).value.start), st.fps)
      && last.units[|rd.units|].start == mid.units[|rd.units|].start
  {
    var m1, m2 := MatchSub(first).value, MatchSub(second).value;
    assert IsNumeric(m1.start);
    OpenFieldsClosedByNext(rd, m1, m2, st);
  }

  lemma OpenFieldsClosedByNext(rd: Reader, m1: SubFields, m2: SubFields, st: Settings)
    requires ReaderValid(rd) && SettingsValid(st) && IsNumeric(m1.start) && IsNumeric(m2.start)
    requires ReadFields(rd, m1, st).0.Ok? && m1.end == ""
    ensures var mid := ReadFields(rd, m1, st).1;
      var last := ReadFields(mid, m2, st).1;
      last.units[|rd.units|].end == st.fromFrame(DigitsValue(m2.start), st.fps)
      && last.units[|rd.units|].start == mid.units[|rd.units|].start
  {
    var mid := ReadFields(rd, m1, st).1;
    var last := ReadFields(mid, m2, st).1;
    var closed := CloseOpenCue(mid, st.fromFrame(DigitsValue(m2.start), st.fps));
    assert last.units[..|mid.units|] == closed;
    assert last.units[|rd.units|] == closed[|rd.units|];
  }

  /** The first line's frame rate: `{n}{n}rate` with equal groups sets it when the rate parses. */
  function FpsOf(line: string, fps: real, parseFloat: string -> Option<real>): real {
    match MatchSub(line)
    case None => fps
    case Some(m) =>
      if m.start == m.end then
        match parseFloat(m.content)
        case Some(f) => f
        case None => fps
      else fps
  }

  /** `sub_text.replace("\ufeff", "")`: the byte order mark removed. */
  function RemoveBom(text: string): string {
    ReplaceAll(text, "\U{FEFF}", "")
  }

  lemma GatherLineStep(g: Gathered, i: int, codes: seq<string>, k: nat)
    requires k < |codes|
    ensures GatherLine(g, i, codes[..k + 1]) == GatherCode(GatherLine(g, i, codes[..k]), i, codes[k])
  {
    assert codes[..k + 1][..k] == codes[..k];
  }

  lemma GatherLinesStep(g: Gathered, lines: seq<string>, i: nat)
    requires i < |lines|
    ensures GatherLines(g, lines[..i + 1]) == GatherLine(GatherLines(g, lines[..i]), i, ControlCodes(lines[i]))
  {
    assert lines[..i + 1][..i] == lines[..i];
  }

  lemma CleanLinesStep(lines: seq<string>, i: nat)
    requires i < |lines|
    ensures CleanLines(lines[..i + 1]) == CleanLines(lines[..i]) + [CleanLine(lines[i])]
  {
    var a, b := CleanLines(lines[..i + 1]), CleanLines(lines[..i]) + [CleanLine(lines[i])];
    assert |a| == |b|;
    forall k | 0 <= k < |a| ensures a[k] == b[k] {
      assert lines[..i + 1][k] == lines[k];
    }
  }

  lemma RemoveCodesStep(line: string, codes: seq<string>, k: nat)
    requires k < |codes|
    ensures RemoveCodes(line, codes[..k + 1]) == ReplaceAll(RemoveCodes(line, codes[..k]), "{" + codes[k] + "}", "")
  {
    assert codes[..k + 1][..k] == codes[..k];
  }

  /** One control code: `code.split(":")`; with two parts or more, the stripped value goes under the stripped identifier. */
  method ScanCode(code: string, i: int, global: SetDict<string>, perLine: SetDict<(int, string)>)
    returns (global': SetDict<string>, perLine': SetDict<(int, string)>)
    ensures Gathered(global', perLine') == GatherCode(Gathered(global, perLine), i, code)
  {
    global', perLine' := global, perLine;
    var split := SplitChar(code, ':');
    if |split| > 1 {
      var identifier := Strip(split[0]);
      var value := Strip(split[1]);
      if IsUpper(identifier) {
        global' := AddValue(global, identifier, value);
      } else {
        perLine' := AddValue(perLine, (i, identifier), value);
      }
    }
  }

  /**
   * One line of `_parse_content`'s first loop: each control code in turn
   * is recorded under its identifier and removed from the line.
   */
  method ScanLine(line: string, i: int, global: SetDict<string>, perLine: SetDict<(int, string)>)
    returns (cleanLine: string, global': SetDict<string>, perLine': SetDict<(int, string)>)
    ensures cleanLine == CleanLine(line)
    ensures Gathered(global', perLine') == GatherLine(Gathered(global, perLine), i, ControlCodes(line))
  {
    cleanLine, global', perLine' := line, global, perLine;
    var codes := ControlCodes(line);
    for k := 0 to |codes|
      invariant cleanLine == RemoveCodes(line, codes[..k])
      invariant Gathered(global', perLine') == GatherLine(Gathered(global, perLine), i, codes[..k])
    {
      var code := codes[k];
      GatherLineStep(Gathered(global, perLine), i, codes, k);
      global', perLine' := ScanCode(code, i, global', perLine');
      cleanLine := ReplaceAll(cleanLine, "{" + code + "}", "");
      RemoveCodesStep(line, codes, k);
    }
    assert codes[..|codes|] == codes;
  }

  /**
   * `_parse_content`'s first loop: the defaults copied into the whole-cue
   * codes, then every line scanned, its cleaned text kept.
   */
  method ScanLines(lines: seq<string>, defaults: SetDict<string>)
    returns (clean: seq<string>, global: SetDict<string>, perLine: SetDict<(int, string)>)
    ensures clean == CleanLines(lines)
    ensures Gathered(global, perLine) == GatherLines(Gathered(defaults, []), lines)
  {
    // The copy shares the defaults' sets; it never adds to them (EveryValueOnlyForUpperY).
    global := defaults;
    perLine := [];
    clean := [];
    for i := 0 to |lines|
      invariant clean == CleanLines(lines[..i])
      invariant Gathered(global, perLine) == GatherLines(Gathered(defaults, []), lines[..i])
    {
      var cleanLine;
      cleanLine, global, perLine := ScanLine(lines[i], i, global, perLine);
      GatherLinesStep(Gathered(defaults, []), lines, i);
      CleanLinesStep(lines, i);
      clean := clean + [cleanLine];
    }
    assert lines[..|lines|] == lines;
  }

  /** `_parse_content`'s loop over the whole-cue codes: each entry over the whole text [0, n]. */
  method RenderGlobal(global: SetDict<string>, n: int, order: set<string> -> seq<string>) returns (r: Result<seq<Formatting>>)
    requires NonEmptySets(global) && Enumerates(order)
    ensures r == RunJobs(GlobalJobs(global, order, n))
  {
    ghost var jobs := GlobalJobs(global, order, n);
    var formattings: seq<Formatting> := [];
    for k := 0 to |global|
      invariant RunJobs(jobs[..k]) == Ok(formattings)
    {
      var (code, val) := global[k];
      EnumeratesNonEmpty(order, val);
      var f := RenderEntry(code, order(val), 0, n);
      assert jobs[..k + 1][..k] == jobs[..k];
      if f.Err? {
        RunJobsPrefixErr(jobs, k + 1);
        return Err(f.error);
      }
      formattings := formattings + f.value;
    }
    assert jobs[..|global|] == jobs;
    r := Ok(formattings);
  }

  /**
   * `_parse_content`'s loop over the per-line codes: each entry over its
   * line, whose bounds come from the running sums of the line lengths
   * plus one.
   */
  method RenderPerLine(perLine: SetDict<(int, string)>, acc: seq<int>, order: set<string> -> seq<string>)
    returns (r: Result<seq<Formatting>>)
    requires NonEmptySets(perLine) && Enumerates(order)
    requires forall i :: 0 <= i < |perLine| ==> 0 <= perLine[i].0.0 < |acc|
    ensures r == RunJobs(PerLineJobs(perLine, order, acc))
  {
    ghost var jobs := PerLineJobs(perLine, order, acc);
    var fs: seq<Formatting> := [];
    for k := 0 to |perLine|
      invariant RunJobs(jobs[..k]) == Ok(fs)
    {
      var (key, val) := perLine[k];
      var (start, end) := LineBounds(acc, key.0);
      EnumeratesNonEmpty(order, val);
      var f := RenderEntry(key.1, order(val), start, end);
      assert jobs[..k + 1][..k] == jobs[..k];
      if f.Err? {
        RunJobsPrefixErr(jobs, k + 1);
        return Err(f.error);
      }
      fs := fs + f.value;
    }
    assert jobs[..|perLine|] == jobs;
    r := Ok(fs);
  }

  /** `_parse_content`'s rendering: the whole-cue entries, then the per-line ones; the first error ends it. */
  method RenderCodes(global: SetDict<string>, perLine: SetDict<(int, string)>, clean: seq<string>, order: set<string> -> seq<string>)
    returns (r: Result<seq<Formatting>>)
    requires NonEmptySets(global) && NonEmptySets(perLine) && Enumerates(order)
    requires forall i :: 0 <= i < |perLine| ==> 0 <= perLine[i].0.0 < |clean|
    ensures r == RunJobs(GlobalJobs(global, order, |Join("\n", clean)|) + PerLineJobs(perLine, order, AccumulateFrom(LineLengths(clean), 0)))
  {
    var n := |Join("\n", clean)|;
    var acc := AccumulateFrom(LineLengths(clean), 0);
    ghost var gj := GlobalJobs(global, order, n);
    ghost var jobs := gj + PerLineJobs(perLine, order, acc);
    var f := RenderGlobal(global, n, order);
    if f.Err? {
      assert jobs[..|gj|] == gj;
      RunJobsPrefixErr(jobs, |gj|);
      return f;
    }
    var g := RenderPerLine(perLine, acc, order);
    RunJobsConcat(gj, PerLineJobs(perLine, order, acc));
    r := if g.Err? then g else Ok(f.value + g.value);
  }

  /**
   * `MicroDVDParser`. `subtitle` is the list the cues are appended to;
   * `previous` is the index of the last cue appended, which
   * `previous_unit.end = start` updates in place.
   */
  class MicroDvdParser {
    const subtitle: Subtitle
    var fps: real
    var previousEndEmpty: bool
    var defaults: SetDict<string>
    var previous: Option<nat>
    const fromFrame: (int, real) -> Time
    const parseFloat: string -> Option<real>
    const setOrder: set<string> -> seq<string>

    function State(): Reader
      reads this, subtitle
    {
      Reader(subtitle.units, previousEndEmpty, previous)
    }

    function CurrentSettings(): Settings
      reads this
    {
      Settings(fps, fromFrame, setOrder, defaults)
    }

    ghost predicate Valid()
      reads this, subtitle
    {
      SettingsValid(CurrentSettings()) && ReaderValid(State())
    }

    constructor (fps: real, fromFrame: (int, real) -> Time, parseFloat: string -> Option<real>, setOrder: set<string> -> seq<string>)
      requires Enumerates(setOrder)
      ensures Valid() && fresh(subtitle)
      ensures State() == Reader([], false, None) && CurrentSettings() == Settings(fps, fromFrame, setOrder, [])
      ensures this.parseFloat == parseFloat
    {
      subtitle := new Subtitle([]);
      this.fps := fps;
      previousEndEmpty := false;
      defaults := [];
      previous := None;
      this.fromFrame := fromFrame;
      this.parseFloat := parseFloat;
      this.setOrder := setOrder;
    }

    /** `_parse_content`: the cue text and its formattings, or the error a colour code raises. */
    method ParseContent(content: string) returns (r: Result<(string, seq<Formatting>)>)
      requires DefaultsValid(defaults) && Enumerates(setOrder)
      ensures var lines := SplitChar(content, '|');
        match ContentFormattings(defaults, lines, setOrder)
        case Ok(fs) => r == Ok((CueText(lines), fs))
        case Err(e) => r == Err(e)
    {
      var lines := SplitChar(content, '|');
      var clean, global, perLine := ScanLines(lines, defaults);
      ContentFormattingsOfGathered(defaults, lines, setOrder);

      var text := Join("\n", clean);
      var formattings := RenderCodes(global, perLine, clean, setOrder);
      if formattings.Ok? {
        r := Ok((text, formattings.value));
      } else {
        r := Err(formattings.error);
      }
    }

    /** `_parse_unit`, proved against ReadUnit. */
    method ParseUnit(line: string) returns (r: Result<()>)
      requires Valid()
      modifies this, subtitle
      ensures Valid() && CurrentSettings() == old(CurrentSettings())
      ensures (r, State()) == ReadUnit(old(State()), line, old(CurrentSettings()))
    {
      var m := MatchSub(line);
      if m.None? {
        return Ok(());
      }
      var fields := m.value;
      if !(fields.start != [] && AllDigits(fields.start)) {
        return Ok(());
      }
      r := ParseFields(fields);
    }

    /** `previous_unit.end = start` when the previous cue's end was empty. */
    method ClosePrevious(start: Time)
      requires Valid()
      modifies subtitle
      ensures Valid() && subtitle.units == CloseOpenCue(old(State()), start)
    {
      if previousEndEmpty && previous.Some? {
        subtitle.SetEnd(previous.value, start);
      }
    }

    /** `_parse_unit` once the line matched with a numeric start, proved against ReadFields. */
    method ParseFields(fields: SubFields) returns (r: Result<()>)
      requires Valid() && IsNumeric(fields.start)
      modifies this, subtitle
      ensures Valid() && CurrentSettings() == old(CurrentSettings())
      ensures (r, State()) == ReadFields(old(State()), fields, old(CurrentSettings()))
    {
      ghost var rd := State();
      var start := fromFrame(DigitsValue(fields.start), fps);
      ClosePrevious(start);
      var endFrame: Option<int> := None;
      if fields.end != "" {
        endFrame := ParseInt(fields.end);
        if endFrame.None? {
          return Err(ValueError);
        }
      }
      previousEndEmpty := endFrame.None?;
      assert State() == Reader(CloseOpenCue(rd, start), fields.end == "", rd.previous);
      var end := if endFrame.Some? then fromFrame(endFrame.value, fps) else Add(start, IntOperand(8000));
      r := AddCue(start, end, fields.content);
    }

    /** The cue is appended and becomes the previous one, unless its content raises; proved against AppendContent. */
    method AddCue(start: Time, end: Time, content: string) returns (r: Result<()>)
      requires Valid()
      modifies this, subtitle
      ensures Valid() && CurrentSettings() == old(CurrentSettings())
      ensures (r, State()) == AppendContent(old(State()), start, end, content, old(CurrentSettings()))
    {
      ghost var rd, lines := State(), SplitChar(content, '|');
      var parsed := ParseContent(content);
      if parsed.Err? {
        assert ContentFormattings(defaults, lines, setOrder) == Err(parsed.error);
        return Err(parsed.error);
      }
      assert ContentFormattings(defaults, lines, setOrder) == Ok(parsed.value.1);
      ContentWithin(defaults, lines, setOrder);
      var cue := Cue(start, end, parsed.value.0, parsed.value.1);
      assert cue == Cue(start, end, CueText(lines), parsed.value.1);
      PushCue(cue);
      r := Ok(());
    }

    /** A well-formed cue goes at the end of the subtitle and becomes the previous one. */
    method PushCue(cue: Cue)
      requires Valid() && WellFormed(cue)
      modifies this, subtitle
      ensures Valid() && CurrentSettings() == old(CurrentSettings())
      ensures State() == Reader(old(State()).units + [cue], old(previousEndEmpty), Some(|old(State()).units|))
    {
      subtitle.Append(cue);
      previous := Some(|subtitle.units| - 1);
    }

    /** The codes of the default line, each added to the defaults when it names c, f, s, y or p. */
    method AddDefaultCodes(codes: seq<string>)
      modifies this
      ensures defaults == DefaultCodes(old(defaults), codes)
      ensures fps == old(fps) && previousEndEmpty == old(previousEndEmpty) && previous == old(previous)
    {
      for k := 0 to |codes|
        invariant defaults == DefaultCodes(old(defaults), codes[..k])
        invariant fps == old(fps) && previousEndEmpty == old(previousEndEmpty) && previous == old(previous)
      {
        assert codes[..k + 1][..k] == codes[..k];
        defaults := DefaultCode(defaults, codes[k]);
      }
      assert codes[..|codes|] == codes;
    }

    /** `_parse_default`: the codes of the first default line are added to the defaults. */
    method ParseDefault(lines: seq<string>)
      requires Valid()
      modifies this
      ensures Valid() && State() == old(State()) && fps == old(fps)
      ensures defaults == DefaultsAfter(old(defaults), lines)
    {
      for i := 0 to |lines|
        invariant defaults == old(defaults)
        invariant FirstDefaultLine(lines, i) == FirstDefaultLine(lines, 0)
      {
        var line := lines[i];
        // The `"{DEFAULT}" in line` test in front of the match is implied by it (DefaultLineHasMarker).
        if IsDefaultLine(line) {
          var codes := ControlCodes(MatchSub(line).value.content);
          assert DefaultsAfter(old(defaults), lines) == DefaultCodes(old(defaults), codes);
          AddDefaultCodes(codes);
          return;
        }
      }
    }

    /**
     * `parse_text`: the byte order mark removed and the text split into
     * lines; the frame rate read from the first line when asked to (an
     * empty text then raises IndexError); the defaults read; then every
     * line read as a cue.
     */
    method ParseText(text: string, fpsFromFile: bool) returns (r: Result<Subtitle>)
      requires Valid()
      modifies this, subtitle
      ensures Valid()
      ensures var lines := SplitLines(RemoveBom(text));
        if fpsFromFile && lines == [] then
          r == Err(IndexError) && State() == old(State()) && CurrentSettings() == old(CurrentSettings())
        else
          var fps1 := if fpsFromFile then FpsOf(lines[0], old(fps), parseFloat) else old(fps);
          var st := Settings(fps1, fromFrame, setOrder, DefaultsAfter(old(defaults), lines));
          var run := ReadUnits(old(State()), lines, st);
          && CurrentSettings() == st
          && State() == run.1
          && (r.Ok? <==> run.0.Ok?)
          && (r.Ok? ==> r.value == subtitle)
          && (r.Err? ==> r.error == run.0.error)
    {
      var lines := SplitLines(RemoveBom(text));
      if fpsFromFile {
        if lines == [] {
          return Err(IndexError);
        }
        ReadFps(lines[0]);
      }
      ParseDefault(lines);
      var e := ParseUnits(lines);
      r := if e.Err? then Err(e.error) else Ok(subtitle);
    }

    /** The frame rate from a first line `{n}{n}rate` whose groups are equal, when the rate parses. */
    method ReadFps(line: string)
      requires Valid()
      modifies this
      ensures Valid() && State() == old(State()) && defaults == old(defaults)
      ensures fps == FpsOf(line, old(fps), parseFloat)
    {
      var m := MatchSub(line);
      if m.Some? && m.value.start == m.value.end {
        var f := parseFloat(m.value.content);
        if f.Some? {
          fps := f.value;
        }
      }
    }

    /** `for line in sub_lines: self._parse_unit(line)`, proved against ReadUnits; an error ends it. */
    method ParseUnits(lines: seq<string>) returns (r: Result<()>)
      requires Valid()
      modifies this, subtitle
      ensures Valid() && CurrentSettings() == old(CurrentSettings())
      ensures (r, State()) == ReadUnits(old(State()), lines, old(CurrentSettings()))
    {
      ghost var rd0 := State();
      ghost var st := CurrentSettings();
      for k := 0 to |lines|
        invariant Valid() && CurrentSettings() == st
        invariant ReadUnits(rd0, lines[..k], st) == (Ok(()), State())
      {
        ghost var before := State();
        var e := ParseUnit(lines[k]);
        if e.Err? {
          ReadUnitsNext(rd0, lines, k, st, before, e, State());
          ReadUnitsPrefixErr(rd0, lines, k, st, e, State());
          return e;
        }
        ReadUnitsExtend(rd0, lines, k, st, before, e, State());
      }
      assert lines[..|lines|] == lines;
      r := Ok(());
    }
  }
}
