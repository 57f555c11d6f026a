/**
 * The MicroDVD writer (`MicroDVDExporter`): the cues sorted by start, a
 * header `{1}{1}fps`, then one `{start frame}{end frame}content` line per
 * cue with text and a non-zero duration. Each formatting becomes a
 * `{CODE:value}` control code: one covering the whole text is written once,
 * upper case, in front of the first line; any other span is written lower
 * case in front of every line it touches. The lines are joined with `|`.
 *
 * The frame conversion (`Time.to_frame`, a float computation), the text of
 * the frame rate (`str(fps)`) and the iteration order of a Python set are
 * parameters.
 */
module MicroDvdExport {
  import opened Wrappers
  import opened PyStr
  import opened Times
  import opened Formattings
  import opened Subtitles
  import opened SetDicts
  import Sorting
  import MicroDvdContent
  import MicroDvdParsing

  // ---------------------------------------------------------------- control codes

  /** `get_control_code`: the code and its value, or nothing for strikethrough and absolute positions. */
  function ControlCode(f: Formatting): (r: Option<(string, string)>)
    ensures r.None? <==> f.Strikethrough? || f.AbsolutePosition?
    ensures r.Some? ==> (r.value.0 == "Y" <==> f.Bold? || f.Italic? || f.Underline?)
  {
    match f
    case Bold(_, _) => Some(("Y", "b"))
    case Italic(_, _) => Some(("Y", "i"))
    case Underline(_, _) => Some(("Y", "u"))
    case Strikethrough(_, _) => None
    case Color(_, _, c) => Some(("C", ToBgrHex(c)))
    case FontFace(_, _, face) => Some(("F", face))
    case TextSize(_, _, size) => Some(("S", IntToString(size)))
    case RelativePosition(classifier) => Some(("P", if classifier == TopCenter then "0" else "1"))
    case AbsolutePosition(_, _, _, _) => None
  }

  /**
   * The MicroDVD reader turns a code back into the formatting it came
   * from, over the same span, negative sizes included; of the relative
   * positions only the top centre one reads back.
   */
  lemma ControlCodeReadBack(f: Formatting)
    requires ControlCode(f).Some?
    ensures var (code, value) := ControlCode(f).value;
      && (f.IsSpan() ==> MicroDvdContent.FromControlCode(code, value, f.start, f.end) == Ok([f]))
      && (f.RelativePosition? ==> forall s: int, e: int ::
            MicroDvdContent.FromControlCode(code, value, s, e) == Ok(if f.classifier == TopCenter then [f] else []))
  {
    var (code, value) := ControlCode(f).value;
    match f
    case Bold(_, _) =>
      assert Lower(code) == "y" && Lower(value) == "b";
      assert 'i' !in "b" && 'u' !in "b";
      assert [] + [f] + [] == [f];
    case Italic(_, _) =>
      assert Lower(code) == "y" && Lower(value) == "i";
      assert 'b' !in "i" && 'u' !in "i";
      assert [f] + [] + [] == [f];
    case Underline(_, _) =>
      assert Lower(code) == "y" && Lower(value) == "u";
      assert 'i' !in "u" && 'b' !in "u";
      assert [] + [] + [f] == [f];
    case Color(_, _, c) =>
      assert Lower(code) == "c";
      FromBgrHexToBgrHex(c);
    case FontFace(_, _, _) =>
      assert Lower(code) == "f";
    case TextSize(_, _, size) =>
      assert Lower(code) == "s";
      ParseIntOfIntToString(size);
    case RelativePosition(_) =>
      assert Lower(code) == "p";
  }

  // ---------------------------------------------------------------- gathering

  /** A span that starts after the text's start or ends before its end is written per line. */
  predicate PerLine(f: Formatting, n: int) {
    f.IsSpan() && (f.start > 0 || f.end < n)
  }

  /** `global_formattings` (code to values) and `per_line_formattings` ((code, line) to values). */
  datatype Codes = Codes(global: SetDict<string>, perLine: SetDict<(string, int)>)

  /** `for line in line_indices: per_line_formattings[(code, line)].add(value)`. */
  function AddToLines(d: SetDict<(string, int)>, code: string, lines: seq<int>, value: string): SetDict<(string, int)>
    decreases |lines|
  {
    if lines == [] then d
    else AddValue(AddToLines(d, code, lines[..|lines| - 1], value), (code, lines[|lines| - 1]), value)
  }

  /** One turn of the loop over `unit.formattings`. */
  function AddCode(codes: Codes, text: string, f: Formatting): Codes {
    match ControlCode(f)
    case None => codes
    case Some((code, value)) =>
      if PerLine(f, |text|) then codes.(perLine := AddToLines(codes.perLine, code, LinesOfFormatting(text, f.AsSpan()), value))
      else codes.(global := AddValue(codes.global, code, value))
  }

  /** Both dictionaries after the loop over the formattings. */
  function Gather(text: string, fs: seq<Formatting>): Codes
    decreases |fs|
  {
    if fs == [] then Codes([], [])
    else AddCode(Gather(text, fs[..|fs| - 1]), text, fs[|fs| - 1])
  }

  /** f gives a value under `code` for the whole text. */
  predicate GlobalUnder(f: Formatting, n: int, code: string) {
    ControlCode(f).Some? && ControlCode(f).value.0 == code && !PerLine(f, n)
  }

  /** f gives a value under `code` on the given line. */
  predicate LineUnder(f: Formatting, text: string, code: string, line: int) {
    ControlCode(f).Some? && ControlCode(f).value.0 == code && PerLine(f, |text|) && line in LinesOfFormatting(text, f.AsSpan())
  }

  /** The values of the formattings that have a control code and satisfy `p`. */
  ghost function ValuesWhere(fs: seq<Formatting>, p: Formatting -> bool): set<string> {
    set i | 0 <= i < |fs| && ControlCode(fs[i]).Some? && p(fs[i]) :: ControlCode(fs[i]).value.1
  }

  /** The values the formattings give under a code for the whole text. */
  ghost function GlobalValues(fs: seq<Formatting>, n: int, code: string): set<string> {
    ValuesWhere(fs, f => GlobalUnder(f, n, code))
  }

  /** The values the formattings give under a code on a line. */
  ghost function LineValues(fs: seq<Formatting>, text: string, code: string, line: int): set<string> {
    ValuesWhere(fs, f => LineUnder(f, text, code, line))
  }

  lemma ValuesWhereSnoc(fs: seq<Formatting>, p: Formatting -> bool)
    requires fs != []
    ensures var f := fs[|fs| - 1];
      ValuesWhere(fs, p) ==
        ValuesWhere(fs[..|fs| - 1], p) + (if ControlCode(f).Some? && p(f) then {ControlCode(f).value.1} else {})
  {
    var init, f := fs[..|fs| - 1], fs[|fs| - 1];
    forall v | v in ValuesWhere(fs, p)
      ensures v in ValuesWhere(init, p) + (if ControlCode(f).Some? && p(f) then {ControlCode(f).value.1} else {})
    {
      var i :| 0 <= i < |fs| && ControlCode(fs[i]).Some? && p(fs[i]) && ControlCode(fs[i]).value.1 == v;
      if i < |init| { assert init[i] == fs[i]; }
    }
    forall v | v in ValuesWhere(init, p) ensures v in ValuesWhere(fs, p) {
      var i :| 0 <= i < |init| && ControlCode(init[i]).Some? && p(init[i]) && ControlCode(init[i]).value.1 == v;
      assert fs[i] == init[i];
    }
  }

  /** Adding a value on several lines adds it under each of them and nowhere else. */
  lemma {:induction false} LookupAddToLines(d: SetDict<(string, int)>, code: string, lines: seq<int>, value: string, key: (string, int))
    ensures Lookup(AddToLines(d, code, lines, value), key) ==
      Lookup(d, key) + (if key.0 == code && key.1 in lines then {value} else {})
    decreases |lines|
  {
    if lines != [] {
      var init := lines[..|lines| - 1];
      LookupAddToLines(d, code, init, value, key);
      LookupAddValue(AddToLines(d, code, init, value), (code, lines[|lines| - 1]), value, key);
      assert key.1 in lines <==> key.1 in init || key.1 == lines[|lines| - 1];
    }
  }

  /** The global dictionary holds, under each code, exactly the values the whole-text formattings give. */
  lemma {:induction false} GatherGlobal(text: string, fs: seq<Formatting>, code: string)
    ensures Lookup(Gather(text, fs).global, code) == GlobalValues(fs, |text|, code)
    decreases |fs|
  {
    if fs != [] {
      var init, f := fs[..|fs| - 1], fs[|fs| - 1];
      GatherGlobal(text, init, code);
      ValuesWhereSnoc(fs, f => GlobalUnder(f, |text|, code));
      match ControlCode(f)
      case None =>
      case Some((c, v)) =>
        if !PerLine(f, |text|) {
          LookupAddValue(Gather(text, init).global, c, v, code);
        }
    } else {
      assert GlobalValues(fs, |text|, code) == {};
    }
  }

  /** The per-line dictionary holds, under each (code, line), exactly the values the formattings give on that line. */
  lemma {:induction false} GatherPerLine(text: string, fs: seq<Formatting>, code: string, line: int)
    ensures Lookup(Gather(text, fs).perLine, (code, line)) == LineValues(fs, text, code, line)
    decreases |fs|
  {
    if fs != [] {
      var init, f := fs[..|fs| - 1], fs[|fs| - 1];
      GatherPerLine(text, init, code, line);
      ValuesWhereSnoc(fs, f => LineUnder(f, text, code, line));
      match ControlCode(f)
      case None =>
      case Some((c, v)) =>
        if PerLine(f, |text|) {
          LookupAddToLines(Gather(text, init).perLine, c, LinesOfFormatting(text, f.AsSpan()), v, (code, line));
        }
    } else {
      assert LineValues(fs, text, code, line) == {};
    }
  }

  /** Keys stay distinct and every set non-empty. */
  lemma {:induction false} AddToLinesValid(d: SetDict<(string, int)>, code: string, lines: seq<int>, value: string)
    requires DistinctKeys(d) && NonEmptySets(d)
    ensures DistinctKeys(AddToLines(d, code, lines, value)) && NonEmptySets(AddToLines(d, code, lines, value))
    decreases |lines|
  {
    if lines != [] {
      AddToLinesValid(d, code, lines[..|lines| - 1], value);
    }
  }

  lemma {:induction false} GatherValid(text: string, fs: seq<Formatting>)
    ensures var codes := Gather(text, fs);
      DistinctKeys(codes.global) && NonEmptySets(codes.global) && DistinctKeys(codes.perLine) && NonEmptySets(codes.perLine)
    decreases |fs|
  {
    if fs != [] {
      var init, f := fs[..|fs| - 1], fs[|fs| - 1];
      GatherValid(text, init);
      match ControlCode(f)
      case None =>
      case Some((c, v)) =>
        if PerLine(f, |text|) {
          AddToLinesValid(Gather(text, init).perLine, c, LinesOfFormatting(text, f.AsSpan()), v);
        }
    }
  }

  // ---------------------------------------------------------------- tokens

  /** The text of a value set: Y values sorted and comma-joined; any other code shows the first value in set order. */
  ghost function ValueText(isY: bool, values: set<string>, order: set<string> -> seq<string>): (v: string)
    requires MicroDvdContent.Enumerates(order) && values != {}
    ensures !isY ==> v in values
  {
    if isY then Join(",", Sorting.SortedElements(values))
    else
      MicroDvdContent.EnumeratesNonEmpty(order, values);
      order(values)[0]
  }

  /** `{CODE:value}` for a whole-text entry; the style test is on the upper-cased code. */
  ghost function GlobalToken(entry: (string, set<string>), order: set<string> -> seq<string>): string
    requires MicroDvdContent.Enumerates(order) && entry.1 != {}
  {
    "{" + Upper(entry.0) + ":" + ValueText(Upper(entry.0) == "Y", entry.1, order) + "}"
  }

  /** `{code:value}` for a per-line entry; the style test is on the lower-cased code. */
  ghost function LineToken(entry: ((string, int), set<string>), order: set<string> -> seq<string>): string
    requires MicroDvdContent.Enumerates(order) && entry.1 != {}
  {
    "{" + Lower(entry.0.0) + ":" + ValueText(Lower(entry.0.0) == "y", entry.1, order) + "}"
  }

  /** A control-code token: braces around a code, a colon and a value. */
  predicate IsToken(t: string) {
    |t| >= 3 && t[0] == '{' && t[|t| - 1] == '}' && ':' in t
  }

  /** The whole-text tokens as they stand in front of the first line: each is prepended, so the last entry comes first. */
  ghost function GlobalTokens(d: SetDict<string>, order: set<string> -> seq<string>): (ts: seq<string>)
    requires MicroDvdContent.Enumerates(order) && NonEmptySets(d)
    ensures |ts| == |d| && forall t :: t in ts ==> IsToken(t)
    decreases |d|
  {
    if d == [] then [] else [GlobalToken(d[|d| - 1], order)] + GlobalTokens(d[..|d| - 1], order)
  }

  /** `lines[i]` on a deque of n lines: a negative index counts from the end, anything else is an IndexError. */
  function DequeIndex(i: int, n: nat): (r: Option<nat>)
    ensures r.Some? <==> 0 <= i + n && i < n
    ensures r.Some? ==> r.value < n && (r.value == i || r.value == i + n)
  {
    if 0 <= i < n then Some(i) else if 0 <= i + n && i < 0 then Some(i + n) else None
  }

  /** The per-line tokens that land on one line, the last entry first. */
  ghost function LineTokens(d: SetDict<(string, int)>, n: nat, line: nat, order: set<string> -> seq<string>): (ts: seq<string>)
    requires MicroDvdContent.Enumerates(order) && NonEmptySets(d)
    ensures |ts| <= |d| && forall t :: t in ts ==> IsToken(t)
    decreases |d|
  {
    if d == [] then []
    else
      var e := d[|d| - 1];
      (if DequeIndex(e.0.1, n) == Some(line) then [LineToken(e, order)] else []) + LineTokens(d[..|d| - 1], n, line, order)
  }

  /** Every per-line index names one of the n lines. */
  predicate LinesFit(d: SetDict<(string, int)>, n: nat) {
    forall j :: 0 <= j < |d| ==> DequeIndex(d[j].0.1, n).Some?
  }

  /** The lines with the per-line tokens in front, or the IndexError of the first index past the lines. */
  ghost function WithLineTokens(lines: seq<string>, d: SetDict<(string, int)>, order: set<string> -> seq<string>): (r: Result<seq<string>>)
    requires MicroDvdContent.Enumerates(order) && NonEmptySets(d)
    ensures r.Err? <==> !LinesFit(d, |lines|)
    ensures r.Err? ==> r.error == IndexError
    ensures r.Ok? ==> |r.value| == |lines|
  {
    if !LinesFit(d, |lines|) then Err(IndexError)
    else Ok(seq(|lines|, i requires 0 <= i < |lines| => Join("", LineTokens(d, |lines|, i, order)) + lines[i]))
  }

  lemma GlobalTokensStep(d: SetDict<string>, i: nat, order: set<string> -> seq<string>)
    requires MicroDvdContent.Enumerates(order) && NonEmptySets(d) && i < |d|
    ensures GlobalTokens(d[..i + 1], order) == [GlobalToken(d[i], order)] + GlobalTokens(d[..i], order)
  {
    assert d[..i + 1][..i] == d[..i];
  }

  lemma LineTokensStep(d: SetDict<(string, int)>, j: nat, n: nat, line: nat, order: set<string> -> seq<string>)
    requires MicroDvdContent.Enumerates(order) && NonEmptySets(d) && j < |d|
    ensures LineTokens(d[..j + 1], n, line, order) ==
      (if DequeIndex(d[j].0.1, n) == Some(line) then [LineToken(d[j], order)] else []) + LineTokens(d[..j], n, line, order)
  {
    assert d[..j + 1][..j] == d[..j];
  }

  // ---------------------------------------------------------------- rendering loops

  /** `",".join(sorted(values))` for the style code, `list(values)[0]` for any other. */
  method ValueOf(isY: bool, values: set<string>, order: set<string> -> seq<string>) returns (v: string)
    requires MicroDvdContent.Enumerates(order) && values != {}
    ensures v == ValueText(isY, values, order)
  {
    if isY {
      var sorted := Sorting.SortStrings(values);
      v := Join(",", sorted);
    } else {
      MicroDvdContent.EnumeratesNonEmpty(order, values);
      v := order(values)[0];
    }
  }

  /** The loop over `global_formattings.items()`: each token goes in front of the first line. */
  method PrependGlobal(lines: seq<string>, d: SetDict<string>, order: set<string> -> seq<string>) returns (r: seq<string>)
    requires lines != [] && MicroDvdContent.Enumerates(order) && NonEmptySets(d)
    ensures r == lines[0 := Join("", GlobalTokens(d, order)) + lines[0]]
  {
    r := lines;
    assert d[..0] == [];
    assert Join("", GlobalTokens(d[..0], order)) + lines[0] == lines[0];
    assert lines[0 := Join("", GlobalTokens(d[..0], order)) + lines[0]] == lines;
    for i := 0 to |d|
      invariant r == lines[0 := Join("", GlobalTokens(d[..i], order)) + lines[0]]
    {
      var (code, values) := d[i];
      var val := ValueOf(Upper(code) == "Y", values, order);
      var token := "{" + Upper(code) + ":" + val + "}";
      assert token == GlobalToken(d[i], order);
      PrependGlobalStep(lines, r, d, i, order);
      r := r[0 := token + r[0]];
    }
    assert d[..|d|] == d;
  }

  /** One turn of the whole-text loop puts one more token in front of the first line. */
  lemma PrependGlobalStep(lines: seq<string>, r: seq<string>, d: SetDict<string>, i: nat, order: set<string> -> seq<string>)
    requires lines != [] && MicroDvdContent.Enumerates(order) && NonEmptySets(d) && i < |d|
    requires r == lines[0 := Join("", GlobalTokens(d[..i], order)) + lines[0]]
    ensures r[0 := GlobalToken(d[i], order) + r[0]] == lines[0 := Join("", GlobalTokens(d[..i + 1], order)) + lines[0]]
  {
    var token, before := GlobalToken(d[i], order), GlobalTokens(d[..i], order);
    GlobalTokensStep(d, i, order);
    JoinEmptyCons(token, before);
    assert token + (Join("", before) + lines[0]) == Join("", [token] + before) + lines[0];
  }

  /** The loop over `per_line_formattings.items()`: each token goes in front of its line. */
  method PrependPerLine(lines: seq<string>, d: SetDict<(string, int)>, order: set<string> -> seq<string>) returns (r: Result<seq<string>>)
    requires MicroDvdContent.Enumerates(order) && NonEmptySets(d)
    ensures r == WithLineTokens(lines, d, order)
  {
    var n := |lines|;
    var current := lines;
    for j := 0 to |d|
      invariant LinesFit(d[..j], n) && |current| == n
      invariant forall k :: 0 <= k < n ==> current[k] == Join("", LineTokens(d[..j], n, k, order)) + lines[k]
    {
      var ((code, index), values) := d[j];
      var at := DequeIndex(index, n);
      if at.None? {
        assert d[j].0.1 == index;
        return Err(IndexError);
      }
      var val := ValueOf(Lower(code) == "y", values, order);
      var token := "{" + Lower(code) + ":" + val + "}";
      assert token == LineToken(d[j], order);
      PrependStep(lines, current, d, j, n, at.value, order);
      current := current[at.value := token + current[at.value]];
    }
    assert d[..|d|] == d;
    WithLineTokensOf(lines, current, d, order);
    r := Ok(current);
  }

  /** One turn of the per-line loop keeps every line equal to its tokens so far in front of the original. */
  lemma PrependStep(lines: seq<string>, current: seq<string>, d: SetDict<(string, int)>, j: nat, n: nat, at: nat, order: set<string> -> seq<string>)
    requires MicroDvdContent.Enumerates(order) && NonEmptySets(d) && j < |d|
    requires |lines| == |current| == n && DequeIndex(d[j].0.1, n) == Some(at)
    requires forall k :: 0 <= k < n ==> current[k] == Join("", LineTokens(d[..j], n, k, order)) + lines[k]
    ensures var next := current[at := LineToken(d[j], order) + current[at]];
      forall k :: 0 <= k < n ==> next[k] == Join("", LineTokens(d[..j + 1], n, k, order)) + lines[k]
  {
    var next := current[at := LineToken(d[j], order) + current[at]];
    forall k | 0 <= k < n
      ensures next[k] == Join("", LineTokens(d[..j + 1], n, k, order)) + lines[k]
    {
      LineTokensStep(d, j, n, k, order);
      if k == at {
        JoinEmptyCons(LineToken(d[j], order), LineTokens(d[..j], n, k, order));
      } else {
        assert [] + LineTokens(d[..j], n, k, order) == LineTokens(d[..j], n, k, order);
      }
    }
  }

  lemma WithLineTokensOf(lines: seq<string>, current: seq<string>, d: SetDict<(string, int)>, order: set<string> -> seq<string>)
    requires MicroDvdContent.Enumerates(order) && NonEmptySets(d)
    requires LinesFit(d, |lines|) && |current| == |lines|
    requires forall k :: 0 <= k < |lines| ==> current[k] == Join("", LineTokens(d, |lines|, k, order)) + lines[k]
    ensures WithLineTokens(lines, d, order) == Ok(current)
  {
    assert current == seq(|lines|, i requires 0 <= i < |lines| => Join("", LineTokens(d, |lines|, i, order)) + lines[i]);
  }

  /** The loop over `line_indices`. */
  method AddLines(d: SetDict<(string, int)>, code: string, lines: seq<int>, value: string) returns (r: SetDict<(string, int)>)
    ensures r == AddToLines(d, code, lines, value)
  {
    r := d;
    for k := 0 to |lines|
      invariant r == AddToLines(d, code, lines[..k], value)
    {
      assert lines[..k + 1][..k] == lines[..k];
      r := AddValue(r, (code, lines[k]), value);
    }
    assert lines[..|lines|] == lines;
  }

  /** The loop over `unit.formattings`, with the inner loop over the line indices. */
  method GatherCodes(text: string, fs: seq<Formatting>) returns (codes: Codes)
    ensures codes == Gather(text, fs)
  {
    codes := Codes([], []);
    for i := 0 to |fs|
      invariant codes == Gather(text, fs[..i])
    {
      var f := fs[i];
      assert fs[..i + 1][..i] == fs[..i];
      var cc := ControlCode(f);
      if cc.Some? {
        var (code, value) := cc.value;
        if PerLine(f, |text|) {
          var perLine := AddLines(codes.perLine, code, LinesOfFormatting(text, f.AsSpan()), value);
          codes := codes.(perLine := perLine);
        } else {
          codes := codes.(global := AddValue(codes.global, code, value));
        }
      }
    }
    assert fs[..|fs|] == fs;
  }

  // ---------------------------------------------------------------- cues and the document

  /**
   * The exporter's settings: the frame rate, `Time.to_frame`, `str` on the
   * frame rate, and the order in which a set lists its elements.
   */
  datatype Settings = Settings(fps: real, toFrame: (Time, real) -> int, fpsText: real -> string, order: set<string> -> seq<string>)

  /** `MicroDVDExporter()` uses 24 frames per second. */
  const DefaultFps: real := 24.0

  /** `"{" + str(start) + "}" + "{" + str(end) + "}"`. */
  function FramePair(start: int, end: int): string {
    "{" + IntToString(start) + "}{" + IntToString(end) + "}"
  }

  /** The header line `{1}{1}` followed by the frame rate. */
  function Header(st: Settings): string {
    "{1}{1}" + st.fpsText(st.fps)
  }

  /**
   * The line of one cue, or nothing for a cue with empty text or no
   * duration: the frame pair, then the text's lines, each with its tokens
   * in front (the whole-text ones on the first line, after that line's own),
   * joined with `|`. A per-line index past the lines is an IndexError.
   */
  ghost function CueLine(c: Cue, st: Settings): (r: Result<Option<string>>)
    requires MicroDvdContent.Enumerates(st.order)
    ensures r.Ok? && r.value.None? <==> c.text == [] || c.start == c.end
    ensures r.Err? ==> r.error == IndexError
  {
    if c.text == [] || c.start == c.end then Ok(None)
    else
      match ContentLines(c.text, c.formattings, st.order)
      case Err(e) => Err(e)
      case Ok(ls) => Ok(Some(FramePair(st.toFrame(c.start, st.fps), st.toFrame(c.end, st.fps)) + Join("|", ls)))
  }

  /** The text's lines with their tokens in front, before they are joined with `|`. */
  ghost function ContentLines(text: string, fs: seq<Formatting>, order: set<string> -> seq<string>): (r: Result<seq<string>>)
    requires MicroDvdContent.Enumerates(order) && text != []
    ensures r.Err? ==> r.error == IndexError
    ensures r.Ok? ==> |r.value| == |SplitLines(text)|
  {
    var codes := Gather(text, fs);
    GatherValid(text, fs);
    var lines := SplitLines(text);
    WithLineTokens(lines[0 := Join("", GlobalTokens(codes.global, order)) + lines[0]], codes.perLine, order)
  }

  /** The lines of the cues in order, skipping those without one; the first error ends it. */
  ghost function CueLines(units: seq<Cue>, st: Settings): (r: Result<seq<string>>)
    requires MicroDvdContent.Enumerates(st.order)
    ensures r.Ok? ==> |r.value| <= |units|
    decreases |units|
  {
    if units == [] then Ok([])
    else
      match CueLines(units[..|units| - 1], st)
      case Err(e) => Err(e)
      case Ok(ls) =>
        match CueLine(units[|units| - 1], st)
        case Err(e) => Err(e)
        case Ok(None) => Ok(ls)
        case Ok(Some(l)) => Ok(ls + [l])
  }

  /** The whole output: the header and the cue lines, joined with newlines. */
  ghost function Document(units: seq<Cue>, st: Settings): (r: Result<string>)
    requires MicroDvdContent.Enumerates(st.order)
  {
    match CueLines(units, st)
    case Err(e) => Err(e)
    case Ok(ls) => Ok(Join("\n", [Header(st)] + ls))
  }

  lemma CueLinesStep(units: seq<Cue>, i: nat, st: Settings)
    requires MicroDvdContent.Enumerates(st.order) && i < |units|
    ensures CueLines(units[..i + 1], st) ==
      match CueLines(units[..i], st)
      case Err(e) => Err(e)
      case Ok(ls) =>
        match CueLine(units[i], st)
        case Err(e) => Err(e)
        case Ok(None) => Ok(ls)
        case Ok(Some(l)) => Ok(ls + [l])
  {
    assert units[..i + 1][..i] == units[..i];
  }

  /** Once a cue fails, every longer run of cues fails the same way. */
  lemma {:induction false} CueLinesErrSticks(units: seq<Cue>, i: nat, st: Settings)
    requires MicroDvdContent.Enumerates(st.order) && i <= |units| && CueLines(units[..i], st).Err?
    ensures CueLines(units, st) == CueLines(units[..i], st)
    decreases |units| - i
  {
    if i < |units| {
      CueLinesStep(units, i, st);
      CueLinesErrSticks(units, i + 1, st);
    } else {
      assert units[..i] == units;
    }
  }

  /** `MicroDVDExporter`: the settings are fixed at construction. */
  class MicroDvdExporter {
    const fps: real
    const toFrame: (Time, real) -> int
    const fpsText: real -> string
    const order: set<string> -> seq<string>

    constructor (fps: real, toFrame: (Time, real) -> int, fpsText: real -> string, order: set<string> -> seq<string>)
      ensures Current() == Settings(fps, toFrame, fpsText, order)
    {
      this.fps := fps;
      this.toFrame := toFrame;
      this.fpsText := fpsText;
      this.order := order;
    }

    function Current(): Settings {
      Settings(fps, toFrame, fpsText, order)
    }

    /** The body of the loop over the cues, for one cue. */
    method RenderCue(c: Cue) returns (r: Result<Option<string>>)
      requires MicroDvdContent.Enumerates(order)
      ensures r == CueLine(c, Current())
    {
      if |c.text| == 0 || c.start == c.end {
        return Ok(None);
      }
      var start := toFrame(c.start, fps);
      var end := toFrame(c.end, fps);
      var lines := SplitLines(c.text);
      var codes := GatherCodes(c.text, c.formattings);
      GatherValid(c.text, c.formattings);
      lines := PrependGlobal(lines, codes.global, order);
      var withTokens := PrependPerLine(lines, codes.perLine, order);
      match withTokens
      case Err(e) => r := Err(e);
      case Ok(ls) => r := Ok(Some(FramePair(start, end) + Join("|", ls)));
    }

    /** `to_string`: sorts the subtitle in place by start, then writes the header and the cue lines. */
    method ToString(subtitle: Subtitle) returns (r: Result<string>)
      requires MicroDvdContent.Enumerates(order)
      modifies subtitle
      ensures subtitle.units == Sorting.StableSort(old(subtitle.units), StartKey)
      ensures r == Document(subtitle.units, Current())
    {
      subtitle.SortByStart();
      var units := subtitle.units;
      var out := [];
      for i := 0 to |units|
        invariant subtitle.units == units
        invariant CueLines(units[..i], Current()) == Ok(out)
      {
        CueLinesStep(units, i, Current());
        var line := RenderCue(units[i]);
        match line
        case Err(e) =>
          CueLinesErrSticks(units, i + 1, Current());
          return Err(e);
        case Ok(None) =>
        case Ok(Some(l)) => out := out + [l];
      }
      assert units[..|units|] == units;
      r := Ok(Join("\n", ["{1}{1}" + fpsText(fps)] + out));
    }
  }

  // ---------------------------------------------------------------- properties of a cue line

  /** The tokens written in front of line i: that line's own, then on the first line the whole-text ones. */
  ghost function TokensBefore(text: string, fs: seq<Formatting>, order: set<string> -> seq<string>, i: nat): (ts: seq<string>)
    requires MicroDvdContent.Enumerates(order)
    ensures forall t :: t in ts ==> IsToken(t)
  {
    var codes := Gather(text, fs);
    GatherValid(text, fs);
    LineTokens(codes.perLine, |SplitLines(text)|, i, order) + (if i == 0 then GlobalTokens(codes.global, order) else [])
  }

  /**
   * Every written line is the text's line with tokens in front, so taking
   * the tokens away leaves the text's lines, joined with `|`.
   */
  lemma ContentLinesShape(text: string, fs: seq<Formatting>, order: set<string> -> seq<string>)
    requires MicroDvdContent.Enumerates(order) && text != [] && ContentLines(text, fs, order).Ok?
    ensures var ls, lines := ContentLines(text, fs, order).value, SplitLines(text);
      |ls| == |lines| && forall i :: 0 <= i < |lines| ==> ls[i] == Join("", TokensBefore(text, fs, order, i)) + lines[i]
  {
    var n := |SplitLines(text)|;
    var ls := ContentLines(text, fs, order).value;
    forall i | 0 <= i < n ensures ls[i] == Join("", TokensBefore(text, fs, order, i)) + SplitLines(text)[i] {
      ContentLineAt(text, fs, order, i);
    }
  }

  lemma ContentLineAt(text: string, fs: seq<Formatting>, order: set<string> -> seq<string>, i: nat)
    requires MicroDvdContent.Enumerates(order) && text != [] && ContentLines(text, fs, order).Ok?
    requires i < |SplitLines(text)|
    ensures ContentLines(text, fs, order).value[i] == Join("", TokensBefore(text, fs, order, i)) + SplitLines(text)[i]
  {
    var codes := Gather(text, fs);
    GatherValid(text, fs);
    WithTokensAt(SplitLines(text), GlobalTokens(codes.global, order), codes.perLine, order, i);
  }

  lemma WithLineTokensAt(lines: seq<string>, d: SetDict<(string, int)>, order: set<string> -> seq<string>, i: nat)
    requires MicroDvdContent.Enumerates(order) && NonEmptySets(d) && i < |lines|
    requires WithLineTokens(lines, d, order).Ok?
    ensures WithLineTokens(lines, d, order).value[i] == Join("", LineTokens(d, |lines|, i, order)) + lines[i]
  {
  }

  /** Line i of the written lines: its own tokens, then on the first line the whole-text ones, then the line. */
  lemma WithTokensAt(lines: seq<string>, global: seq<string>, d: SetDict<(string, int)>, order: set<string> -> seq<string>, i: nat)
    requires MicroDvdContent.Enumerates(order) && NonEmptySets(d) && i < |lines|
    requires WithLineTokens(lines[0 := Join("", global) + lines[0]], d, order).Ok?
    ensures WithLineTokens(lines[0 := Join("", global) + lines[0]], d, order).value[i] ==
      Join("", LineTokens(d, |lines|, i, order) + (if i == 0 then global else [])) + lines[i]
  {
    var w := lines[0 := Join("", global) + lines[0]];
    WithLineTokensAt(w, d, order, i);
    if i == 0 {
      PrefixJoin(LineTokens(d, |lines|, i, order), global, lines[i]);
    } else {
      PrefixJoin(LineTokens(d, |lines|, i, order), [], lines[i]);
    }
  }

  lemma PrefixJoin(own: seq<string>, tail: seq<string>, line: string)
    ensures Join("", own) + (Join("", tail) + line) == Join("", own + tail) + line
  {
    JoinEmptyConcat(own, tail);
  }

  /** Every line index in the per-line dictionary is a line a span inside the text touches. */
  lemma GatheredLineWithin(text: string, fs: seq<Formatting>, j: nat)
    requires SpansWithin(fs, |text|) && j < |Gather(text, fs).perLine|
    ensures 0 <= Gather(text, fs).perLine[j].0.1 <= CountChar(text, '\n')
  {
    var d := Gather(text, fs).perLine;
    var (code, line) := d[j].0;
    GatherValid(text, fs);
    LookupPresent(d, j);
    GatherPerLine(text, fs, code, line);
    var values := LineValues(fs, text, code, line);
    var v :| v in values;
    var i :| 0 <= i < |fs| && ControlCode(fs[i]).Some? && LineUnder(fs[i], text, code, line) && ControlCode(fs[i]).value.1 == v;
    LineUnderWithin(fs[i], text, code, line);
  }

  lemma LineUnderWithin(f: Formatting, text: string, code: string, line: int)
    requires LineUnder(f, text, code, line) && 0 <= f.start <= f.end <= |text|
    ensures 0 <= line <= CountChar(text, '\n')
  {
    LinesOfFormattingWithin(text, f.AsSpan());
  }

  /**
   * When '\n' is the text's only line break and does not end it, and every
   * span lies inside the text, no per-line index is past the lines.
   */
  lemma NoIndexError(c: Cue, st: Settings)
    requires MicroDvdContent.Enumerates(st.order) && Writable(c)
    ensures CueLine(c, st).Ok?
  {
    if c.text != [] && c.start != c.end {
      SplitLinesIsSplitNewline(c.text);
      SplitCharCount(c.text, '\n');
      var n := |SplitLines(c.text)|;
      var d := Gather(c.text, c.formattings).perLine;
      forall j | 0 <= j < |d| ensures DequeIndex(d[j].0.1, n).Some? {
        GatheredLineWithin(c.text, c.formattings, j);
      }
    }
  }

  /**
   * A text ending in a line break: `splitlines` gives one line, but a span
   * reaching past the break counts a second one, and writing it fails.
   */
  lemma TrailingBreakIndexError(st: Settings)
    requires MicroDvdContent.Enumerates(st.order)
    ensures CueLine(Cue(Time(0), Time(1000), "a\n", [Bold(1, 2)]), st) == Err(IndexError)
  {
    TrailingBreakContent(st.order);
  }

  lemma TrailingBreakContent(order: set<string> -> seq<string>)
    requires MicroDvdContent.Enumerates(order)
    ensures ContentLines("a\n", [Bold(1, 2)], order) == Err(IndexError)
  {
    TrailingBreakLines();
    TrailingBreakGather();
    var d := Gather("a\n", [Bold(1, 2)]).perLine;
    assert DequeIndex(d[1].0.1, 1).None?;
    assert !LinesFit(d, 1);
  }

  lemma TrailingBreakLines()
    ensures SplitLines("a\n") == ["a"]
  {
    var text := "a\n";
    assert !IsLineBreak(text[0]) && IsLineBreak(text[1]);
    assert LineEnd(text, 1) == 1;
    assert LineEnd(text, 0) == 1;
    assert text[..1] == "a" && text[2..] == [];
  }

  lemma TrailingBreakGather()
    ensures Gather("a\n", [Bold(1, 2)]).perLine == [(("Y", 0), {"b"}), (("Y", 1), {"b"})]
  {
    var text := "a\n";
    var f := Bold(1, 2);
    assert LinesOfFormatting(text, f.AsSpan()) == [0, 1] by {
      assert Slice(text, 0, 1) == "a";
      assert Slice(text, 1, 2) == "\n";
    }
    assert PerLine(f, |text|);
    assert [f][..0] == [];
    assert Gather(text, [f]).perLine == AddToLines([], "Y", [0, 1], "b");
    TrailingBreakAdd();
  }

  lemma TrailingBreakAdd()
    ensures AddToLines([], "Y", [0, 1], "b") == [(("Y", 0), {"b"}), (("Y", 1), {"b"})]
  {
    assert [0, 1][..1] == [0];
    assert [0][..0] == [];
    assert AddToLines([], "Y", [0], "b") == [(("Y", 0), {"b"})];
  }

  /** `str(n)` has no `}`. */
  lemma IntToStringNoBrace(n: int)
    ensures '}' !in IntToString(n)
  {
    var digits := NatToString(if n < 0 then -n else n);
    assert forall k :: 0 <= k < |digits| ==> digits[k] != '}' by {
      forall k | 0 <= k < |digits| ensures digits[k] != '}' {
        assert IsDigit(digits[k]);
      }
    }
    assert IntToString(n) == (if n < 0 then "-" else "") + digits;
  }

  /**
   * A written cue line reads back through the MicroDVD line pattern as the
   * two frame numbers and the content; the end frame parses back to itself,
   * and the start frame does when it is not negative (a negative one fails
   * the reader's `isnumeric` test, so the line is skipped).
   */
  lemma CueLineReadBack(c: Cue, st: Settings)
    requires MicroDvdContent.Enumerates(st.order) && CueLine(c, st).Ok? && CueLine(c, st).value.Some?
    ensures var start, end := st.toFrame(c.start, st.fps), st.toFrame(c.end, st.fps);
      && c.text != []
      && ContentLines(c.text, c.formattings, st.order).Ok?
      && MicroDvdContent.MatchSub(CueLine(c, st).value.value) ==
           Some(MicroDvdContent.SubFields(IntToString(start), IntToString(end), Join("|", ContentLines(c.text, c.formattings, st.order).value)))
      && (start >= 0 ==> MicroDvdParsing.IsNumeric(IntToString(start)) && DigitsValue(IntToString(start)) == start)
      && (start < 0 ==> !MicroDvdParsing.IsNumeric(IntToString(start)))
      && ParseInt(IntToString(end)) == Some(end)
  {
    var start, end := st.toFrame(c.start, st.fps), st.toFrame(c.end, st.fps);
    IntToStringNoBrace(start);
    IntToStringNoBrace(end);
    var content := Join("|", ContentLines(c.text, c.formattings, st.order).value);
    assert FramePair(start, end) + content == "{" + IntToString(start) + "}{" + IntToString(end) + "}" + content;
    MicroDvdContent.MatchSubOfFields(IntToString(start), IntToString(end), content);
    if start < 0 { assert IntToString(start)[0] == '-'; }
    ParseIntOfIntToString(end);
  }

  // ---------------------------------------------------------------- what the tokens say

  lemma {:induction false} LineTokensHas(d: SetDict<(string, int)>, n: nat, line: nat, j: nat, order: set<string> -> seq<string>)
    requires MicroDvdContent.Enumerates(order) && NonEmptySets(d) && j < |d| && DequeIndex(d[j].0.1, n) == Some(line)
    ensures LineToken(d[j], order) in LineTokens(d, n, line, order)
    decreases |d|
  {
    if j < |d| - 1 {
      LineTokensHas(d[..|d| - 1], n, line, j, order);
    }
  }

  lemma {:induction false} LineTokensFrom(d: SetDict<(string, int)>, n: nat, line: nat, t: string, order: set<string> -> seq<string>)
    requires MicroDvdContent.Enumerates(order) && NonEmptySets(d) && t in LineTokens(d, n, line, order)
    ensures exists j :: 0 <= j < |d| && DequeIndex(d[j].0.1, n) == Some(line) && t == LineToken(d[j], order)
    decreases |d|
  {
    var init := d[..|d| - 1];
    if t !in LineTokens(init, n, line, order) {
      assert t == LineToken(d[|d| - 1], order);
    } else {
      LineTokensFrom(init, n, line, t, order);
      var j :| 0 <= j < |init| && DequeIndex(init[j].0.1, n) == Some(line) && t == LineToken(init[j], order);
      assert d[j] == init[j];
    }
  }

  lemma {:induction false} GlobalTokensHas(d: SetDict<string>, j: nat, order: set<string> -> seq<string>)
    requires MicroDvdContent.Enumerates(order) && NonEmptySets(d) && j < |d|
    ensures GlobalToken(d[j], order) in GlobalTokens(d, order)
    decreases |d|
  {
    if j < |d| - 1 {
      GlobalTokensHas(d[..|d| - 1], j, order);
    }
  }

  lemma {:induction false} GlobalTokensFrom(d: SetDict<string>, t: string, order: set<string> -> seq<string>)
    requires MicroDvdContent.Enumerates(order) && NonEmptySets(d) && t in GlobalTokens(d, order)
    ensures exists j :: 0 <= j < |d| && t == GlobalToken(d[j], order)
    decreases |d|
  {
    var init := d[..|d| - 1];
    if t !in GlobalTokens(init, order) {
      assert t == GlobalToken(d[|d| - 1], order);
    } else {
      GlobalTokensFrom(init, t, order);
      var j :| 0 <= j < |init| && t == GlobalToken(init[j], order);
      assert d[j] == init[j];
    }
  }

  /**
   * A code that formattings give on a line of the text is written on that
   * line once, as one token holding every value gathered for it there.
   */
  lemma LineTokenPresent(text: string, fs: seq<Formatting>, order: set<string> -> seq<string>, code: string, line: nat)
    requires MicroDvdContent.Enumerates(order) && line < |SplitLines(text)| && LineValues(fs, text, code, line) != {}
    ensures LineToken(((code, line), LineValues(fs, text, code, line)), order) in TokensBefore(text, fs, order, line)
  {
    var d := Gather(text, fs).perLine;
    GatherValid(text, fs);
    GatherPerLine(text, fs, code, line);
    var j := IndexOf(Keys(d), (code, line)).value;
    assert d[j] == ((code, line), LineValues(fs, text, code, line));
    LineTokensHas(d, |SplitLines(text)|, line, j, order);
  }

  /** A code that formattings give for the whole text is written once in front of the first line, with every value gathered for it. */
  lemma GlobalTokenPresent(text: string, fs: seq<Formatting>, order: set<string> -> seq<string>, code: string)
    requires MicroDvdContent.Enumerates(order) && GlobalValues(fs, |text|, code) != {}
    ensures GlobalToken((code, GlobalValues(fs, |text|, code)), order) in TokensBefore(text, fs, order, 0)
  {
    var d := Gather(text, fs).global;
    GatherValid(text, fs);
    GatherGlobal(text, fs, code);
    var j := IndexOf(Keys(d), code).value;
    assert d[j] == (code, GlobalValues(fs, |text|, code));
    GlobalTokensHas(d, j, order);
  }

  /**
   * Every token in front of a line is a code the formattings give on that
   * line, or, on the first line, one they give for the whole text; each with
   * all its gathered values.
   */
  lemma TokenOrigin(text: string, fs: seq<Formatting>, order: set<string> -> seq<string>, line: nat, t: string)
    requires MicroDvdContent.Enumerates(order) && t in TokensBefore(text, fs, order, line)
    ensures || (exists code, index ::
                  && DequeIndex(index, |SplitLines(text)|) == Some(line) && LineValues(fs, text, code, index) != {}
                  && t == LineToken(((code, index), LineValues(fs, text, code, index)), order))
            || (line == 0 && exists code ::
                  && GlobalValues(fs, |text|, code) != {}
                  && t == GlobalToken((code, GlobalValues(fs, |text|, code)), order))
  {
    var codes := Gather(text, fs);
    GatherValid(text, fs);
    if t in LineTokens(codes.perLine, |SplitLines(text)|, line, order) {
      LineTokenOrigin(text, fs, order, line, t);
    } else {
      GlobalTokenOrigin(text, fs, order, t);
    }
  }

  lemma LineTokenOrigin(text: string, fs: seq<Formatting>, order: set<string> -> seq<string>, line: nat, t: string)
    requires MicroDvdContent.Enumerates(order)
    requires NonEmptySets(Gather(text, fs).perLine) && DistinctKeys(Gather(text, fs).perLine)
    requires t in LineTokens(Gather(text, fs).perLine, |SplitLines(text)|, line, order)
    ensures exists code, index ::
      && DequeIndex(index, |SplitLines(text)|) == Some(line) && LineValues(fs, text, code, index) != {}
      && t == LineToken(((code, index), LineValues(fs, text, code, index)), order)
  {
    var d := Gather(text, fs).perLine;
    var n := |SplitLines(text)|;
    LineTokensFrom(d, n, line, t, order);
    var j :| 0 <= j < |d| && DequeIndex(d[j].0.1, n) == Some(line) && t == LineToken(d[j], order);
    var (code, index) := d[j].0;
    LookupEntry(d, j);
    GatherPerLine(text, fs, code, index);
  }

  lemma GlobalTokenOrigin(text: string, fs: seq<Formatting>, order: set<string> -> seq<string>, t: string)
    requires MicroDvdContent.Enumerates(order)
    requires NonEmptySets(Gather(text, fs).global) && DistinctKeys(Gather(text, fs).global)
    requires t in GlobalTokens(Gather(text, fs).global, order)
    ensures exists code ::
      && GlobalValues(fs, |text|, code) != {}
      && t == GlobalToken((code, GlobalValues(fs, |text|, code)), order)
  {
    var d := Gather(text, fs).global;
    GlobalTokensFrom(d, t, order);
    var j :| 0 <= j < |d| && t == GlobalToken(d[j], order);
    LookupEntry(d, j);
    GatherGlobal(text, fs, d[j].0);
  }

  /** Writing a subtitle a second time writes the same text: the first call already sorted it. */
  lemma ExportTwice(units: seq<Cue>, st: Settings)
    requires MicroDvdContent.Enumerates(st.order)
    ensures var sorted := Sorting.StableSort(units, StartKey);
      Sorting.StableSort(sorted, StartKey) == sorted && Document(Sorting.StableSort(sorted, StartKey), st) == Document(sorted, st)
  {
    Sorting.StableSortSorted(units, StartKey);
    Sorting.StableSortOfSorted(Sorting.StableSort(units, StartKey), StartKey);
  }

  // ---------------------------------------------------------------- the document

  /** The cues that get a line: those with text and a start different from the end. */
  function Kept(units: seq<Cue>): (r: seq<Cue>)
    ensures |r| <= |units|
    ensures forall c :: c in r <==> c in units && c.text != [] && c.start != c.end
    decreases |units|
  {
    if units == [] then []
    else
      var c := units[|units| - 1];
      Kept(units[..|units| - 1]) + (if c.text != [] && c.start != c.end then [c] else [])
  }

  /** The document has one line per kept cue after the header. */
  lemma {:induction false} CueLinesCount(units: seq<Cue>, st: Settings)
    requires MicroDvdContent.Enumerates(st.order) && CueLines(units, st).Ok?
    ensures |CueLines(units, st).value| == |Kept(units)|
    decreases |units|
  {
    if units != [] {
      CueLinesCount(units[..|units| - 1], st);
    }
  }

  /** Text the writer is safe on: '\n' is its only line break and does not end it, and every span lies inside it. */
  predicate Writable(c: Cue) {
    && WellFormed(c)
    && (forall i :: 0 <= i < |c.text| && IsLineBreak(c.text[i]) ==> c.text[i] == '\n')
    && (c.text != [] ==> c.text[|c.text| - 1] != '\n')
  }

  /** A subtitle whose every cue is writable is written without an error. */
  lemma {:induction false} DocumentOk(units: seq<Cue>, st: Settings)
    requires MicroDvdContent.Enumerates(st.order) && forall i :: 0 <= i < |units| ==> Writable(units[i])
    ensures CueLines(units, st).Ok? && Document(units, st).Ok?
    decreases |units|
  {
    if units != [] {
      DocumentOk(units[..|units| - 1], st);
      NoIndexError(units[|units| - 1], st);
    }
  }
}
