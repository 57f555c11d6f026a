/**
 * The MicroDVD cue format as read by `MicroDVDParser`: the cue pattern
 * `{start frame}{end frame}content`, the `{code:value}` control codes, and
 * what a cue's content becomes. The content's lines are separated by `|`;
 * codes whose identifier is upper case apply to the whole cue, the others
 * to their own line, and the document's default codes to every cue.
 *
 * The iteration order of a Python set is a parameter (`order`): any
 * listing of the set's elements, the same each time the set is listed.
 */
module MicroDvdContent {
  import opened Wrappers
  import opened PyStr
  import opened Times
  import opened Formattings
  import opened Subtitles
  import opened SetDicts

  // ---------------------------------------------------------------- the cue pattern

  /** The named groups of `{(?P<start>.*?)}{(?P<end>.*?)}(?P<content>.*)`. */
  datatype SubFields = SubFields(start: string, end: string, content: string)

  /** The first `}{` at or after k. */
  function BracePair(s: string, k: nat): (r: Option<nat>)
    ensures r.Some? ==> k <= r.value && r.value + 1 < |s| && s[r.value] == '}' && s[r.value + 1] == '{'
    ensures r.Some? ==> forall i :: k <= i < r.value ==> !(s[i] == '}' && s[i + 1] == '{')
    ensures r.None? ==> forall i :: k <= i && i + 1 < |s| ==> !(s[i] == '}' && s[i + 1] == '{')
    decreases |s| - k
  {
    if k + 1 >= |s| then None
    else if s[k] == '}' && s[k + 1] == '{' then Some(k)
    else BracePair(s, k + 1)
  }

  /** The first c at or after k. */
  function CharFrom(s: string, k: nat, c: char): (r: Option<nat>)
    ensures r.Some? ==> k <= r.value < |s| && s[r.value] == c && forall i :: k <= i < r.value ==> s[i] != c
    ensures r.None? ==> forall i :: k <= i < |s| ==> s[i] != c
    decreases |s| - k
  {
    if k >= |s| then None
    else if s[k] == c then Some(k)
    else CharFrom(s, k + 1, c)
  }

  /**
   * `re.match` of the cue pattern. The lazy start group ends at the first
   * `}{`; the lazy end group at the first `}` after it; the content takes
   * the rest. Without such a `}` no longer start group helps either, so the
   * line does not match.
   */
  function MatchSub(line: string): Option<SubFields> {
    if line == [] || line[0] != '{' then None
    else
      match BracePair(line, 1)
      case None => None
      case Some(i) =>
        match CharFrom(line, i + 2, '}')
        case None => None
        case Some(j) => Some(SubFields(line[1..i], line[i + 2..j], line[j + 1..]))
  }

  /** A match reassembles the line from its fields, with no `}` in the end field; a line not opening with `{` never matches. */
  lemma MatchSubShape(line: string)
    ensures var r := MatchSub(line);
      && (r.Some? ==> line == "{" + r.value.start + "}{" + r.value.end + "}" + r.value.content && '}' !in r.value.end)
      && (line == [] || line[0] != '{' ==> r.None?)
  {
    if line != [] && line[0] == '{' {
      match BracePair(line, 1)
      case None =>
      case Some(i) =>
        match CharFrom(line, i + 2, '}')
        case None =>
        case Some(j) => CutAround(line, i, j);
    }
  }

  lemma CutAround(line: string, i: nat, j: nat)
    requires 1 <= i && i + 2 <= j < |line|
    requires line[0] == '{' && line[i] == '}' && line[i + 1] == '{' && line[j] == '}'
    requires forall k :: i + 2 <= k < j ==> line[k] != '}'
    ensures line == "{" + line[1..i] + "}{" + line[i + 2..j] + "}" + line[j + 1..]
    ensures '}' !in line[i + 2..j]
  {
    assert line == line[..1] + line[1..i] + line[i..i + 2] + line[i + 2..j] + line[j..j + 1] + line[j + 1..];
  }

  /** A line written from fields without `}` reads back as those fields. */
  lemma MatchSubOfFields(start: string, end: string, content: string)
    requires '}' !in start && '}' !in end
    ensures MatchSub("{" + start + "}{" + end + "}" + content) == Some(SubFields(start, end, content))
  {
    var line := "{" + start + "}{" + end + "}" + content;
    var i := |start| + 1;
    var j := i + 2 + |end|;
    assert line[1..i] == start && line[i] == '}' && line[i + 1] == '{';
    assert line[i + 2..j] == end && line[j] == '}' && line[j + 1..] == content;
    forall k | 1 <= k < i ensures line[k] != '}' {
      assert line[k] == start[k - 1];
    }
    assert BracePair(line, 1) == Some(i);
    forall k | i + 2 <= k < j ensures line[k] != '}' {
      assert line[k] == end[k - i - 2];
    }
    assert CharFrom(line, i + 2, '}') == Some(j);
  }

  // ---------------------------------------------------------------- control codes


  /** The pattern `{(.*?)}` matches at p up to q: a `{` at p and the first `}` after it at q. */
  predicate CodeSpan(s: string, p: nat, q: nat) {
    p < q < |s| && s[p] == '{' && s[q] == '}' && forall i :: p < i < q ==> s[i] != '}'
  }

  /** No match of the pattern starts in [lo, hi). */
  predicate NoCodeIn(s: string, lo: nat, hi: nat) {
    forall p, q :: lo <= p < hi && p < q < |s| ==> !CodeSpan(s, p, q)
  }

  /**
   * What `finditer` reports from k on, as (open, close) positions: the
   * leftmost match at or after k, then the same from just past its `}`.
   */
  predicate CodeScan(s: string, k: nat, spans: seq<(nat, nat)>)
    decreases |spans|
  {
    if spans == [] then k <= |s| && NoCodeIn(s, k, |s|)
    else
      && k <= spans[0].0 && CodeSpan(s, spans[0].0, spans[0].1)
      && NoCodeIn(s, k, spans[0].0)
      && CodeScan(s, spans[0].1 + 1, spans[1..])
  }

  /** Only one list of spans is what `finditer` reports. */
  lemma {:induction false} CodeScanUnique(s: string, k: nat, spans: seq<(nat, nat)>, spans': seq<(nat, nat)>)
    requires CodeScan(s, k, spans) && CodeScan(s, k, spans')
    ensures spans == spans'
    decreases |spans|
  {
    if spans != [] && spans' != [] {
      assert spans[0].0 == spans'[0].0;
      assert spans[0] == spans'[0] by { FirstCloseUnique(s, spans[0].0, spans[0].1, spans'[0].1); }
      CodeScanUnique(s, spans[0].1 + 1, spans[1..], spans'[1..]);
      assert spans == [spans[0]] + spans[1..] && spans' == [spans'[0]] + spans'[1..];
    } else {
      assert spans == [] && spans' == [];
    }
  }

  /** A `{` has at most one first `}` after it. */
  lemma {:induction false} FirstCloseUnique(s: string, p: nat, q: nat, q': nat)
    requires CodeSpan(s, p, q) && CodeSpan(s, p, q')
    ensures q == q'
  {
  }

  /** The next match from k: the first `{`, and the first `}` after it. */
  function NextSpan(s: string, k: nat): (m: Option<(nat, nat)>)
    requires k <= |s|
    ensures m.Some? ==> k <= m.value.0 < m.value.1 < |s|
  {
    match CharFrom(s, k, '{')
    case None => None
    case Some(p) =>
      match CharFrom(s, p + 1, '}')
      case None => None
      case Some(q) => Some((p, q))
  }

  /** The spans of the matches from k on: the next match, and on from just past its `}`. */
  function CodeSpans(s: string, k: nat): (spans: seq<(nat, nat)>)
    requires k <= |s|
    ensures forall i :: 0 <= i < |spans| ==> k <= spans[i].0 < spans[i].1 < |s|
    decreases |s| - k
  {
    match NextSpan(s, k)
    case None => []
    case Some(m) => [m] + CodeSpans(s, m.1 + 1)
  }

  /** The spans `CodeSpans` gives are what `finditer` reports. */
  lemma {:induction false} CodeSpansScan(s: string, k: nat)
    requires k <= |s|
    ensures CodeScan(s, k, CodeSpans(s, k))
    decreases |s| - k
  {
    match CharFrom(s, k, '{')
    case None =>
      NoOpenNoCode(s, k, |s|);
    case Some(p) =>
      match CharFrom(s, p + 1, '}')
      case None =>
        NoCloseNoCode(s, k, p);
      case Some(q) =>
        CodeSpansScan(s, q + 1);
        NoOpenNoCode(s, k, p);
        CodeSpansStep(s, k, p, q);
        ScanCons(s, k, (p, q), CodeSpans(s, q + 1));
  }

  /** Without a `{` in [lo, hi) no match starts there. */
  lemma NoOpenNoCode(s: string, lo: nat, hi: nat)
    requires hi <= |s| && forall i :: lo <= i < hi ==> s[i] != '{'
    ensures NoCodeIn(s, lo, hi)
  {
  }

  /** A first `{` at p with no `}` after it: no match starts at or after k. */
  lemma NoCloseNoCode(s: string, k: nat, p: nat)
    requires k <= |s| && CharFrom(s, k, '{') == Some(p) && CharFrom(s, p + 1, '}') == None
    ensures NoCodeIn(s, k, |s|)
  {
    forall p', q' | k <= p' < |s| && p' < q' < |s| ensures !CodeSpan(s, p', q') {
      if p' >= p { assert s[q'] != '}'; }
    }
  }

  /** A leftmost match followed by the scan from past its `}` is a scan. */
  lemma ScanCons(s: string, k: nat, m: (nat, nat), rest: seq<(nat, nat)>)
    requires k <= m.0 && CodeSpan(s, m.0, m.1) && NoCodeIn(s, k, m.0) && CodeScan(s, m.1 + 1, rest)
    ensures CodeScan(s, k, [m] + rest)
  {
    assert ([m] + rest)[1..] == rest;
  }

  /** One step of the scan: the first `{` from k at p, the first `}` after it at q. */
  lemma CodeSpansStep(s: string, k: nat, p: nat, q: nat)
    requires k <= |s| && CharFrom(s, k, '{') == Some(p) && CharFrom(s, p + 1, '}') == Some(q)
    ensures CodeSpans(s, k) == [(p, q)] + CodeSpans(s, q + 1)
  {
    assert NextSpan(s, k) == Some((p, q));
    CodeSpansUnfold(s, k, (p, q), q + 1);
  }

  /** The groups of the spans: the text between each `{` and its `}`. */
  function Groups(s: string, spans: seq<(nat, nat)>): (codes: seq<string>)
    requires forall i :: 0 <= i < |spans| ==> spans[i].0 < spans[i].1 <= |s|
    ensures |codes| == |spans|
    ensures forall i :: 0 <= i < |spans| ==> codes[i] == s[spans[i].0 + 1..spans[i].1]
  {
    seq(|spans|, i requires 0 <= i < |spans| => s[spans[i].0 + 1..spans[i].1])
  }

  /** `CodeScan` keeps its spans inside the text. */
  lemma {:induction false} CodeScanWithin(s: string, k: nat, spans: seq<(nat, nat)>)
    requires CodeScan(s, k, spans)
    ensures forall i :: 0 <= i < |spans| ==> k <= spans[i].0 < spans[i].1 < |s| && CodeSpan(s, spans[i].0, spans[i].1)
    decreases |spans|
  {
    if spans != [] {
      CodeScanWithin(s, spans[0].1 + 1, spans[1..]);
      forall i | 1 <= i < |spans| ensures k <= spans[i].0 < spans[i].1 < |s| && CodeSpan(s, spans[i].0, spans[i].1) {
        assert spans[i] == spans[1..][i - 1];
      }
    }
  }

  /**
   * The groups of `re.finditer(r"{(.*?)}", s)`: from each `{` to the first
   * `}` after it, scanning on after that `}`. A `{` with no `}` after it
   * ends the scan, since no later `{` can have one either.
   */
  function ControlCodes(s: string): (codes: seq<string>)
    ensures forall i :: 0 <= i < |codes| ==> '}' !in codes[i]
    ensures '{' !in s ==> codes == []
  {
    var spans := CodeSpans(s, 0);
    CodeSpansScan(s, 0);
    GroupsOfScan(s, spans);
    Groups(s, spans)
  }

  /** The groups of reported spans hold no `}`, and without a `{` there are none. */
  lemma GroupsOfScan(s: string, spans: seq<(nat, nat)>)
    requires CodeScan(s, 0, spans)
    ensures forall i :: 0 <= i < |spans| ==> spans[i].0 < spans[i].1 <= |s|
    ensures var codes := Groups(s, spans);
      && (forall i :: 0 <= i < |codes| ==> '}' !in codes[i])
      && ('{' !in s ==> codes == [])
  {
    CodeScanWithin(s, 0, spans);
    var codes := Groups(s, spans);
    forall i | 0 <= i < |codes| ensures '}' !in codes[i] {
      assert CodeSpan(s, spans[i].0, spans[i].1);
      forall j | 0 <= j < |codes[i]| ensures codes[i][j] != '}' {
        assert codes[i][j] == s[spans[i].0 + 1 + j];
      }
    }
    if spans != [] {
      assert s[spans[0].0] == '{';
    }
  }

  /** Any list of spans `finditer` could report has the groups `ControlCodes` gives: these are exactly the pattern's groups. */
  lemma ControlCodesExact(s: string, spans: seq<(nat, nat)>)
    requires CodeScan(s, 0, spans)
    ensures forall i :: 0 <= i < |spans| ==> spans[i].0 < spans[i].1 <= |s|
    ensures ControlCodes(s) == Groups(s, spans)
  {
    CodeSpansScan(s, 0);
    CodeScanUnique(s, 0, spans, CodeSpans(s, 0));
    CodeScanWithin(s, 0, spans);
  }

  /** `code.split(":")` when it gives more than one part: the first two parts, stripped. */
  function CodeParts(code: string): (r: Option<(string, string)>)
    ensures r.Some? <==> ':' in code
  {
    var parts := SplitChar(code, ':');
    if |parts| > 1 then Some((Strip(parts[0]), Strip(parts[1])))
    else
      assert ':' !in code by { JoinSplitChar(code, ':'); }
      None
  }

  /**
   * `formattings_from_control_codes`: the code is compared case-insensitively;
   * y gives italic, bold and underline in that order for each of i, b, u in
   * the value; c reads `$bbggrr` and raises ValueError when it cannot; s
   * needs an integer; p gives the top centre position only for "0".
   */
  function FromControlCode(code: string, value: string, start: int, end: int): (r: Result<seq<Formatting>>)
    ensures r.Err? ==> r.error == ValueError && Lower(code) == "c"
    ensures r.Ok? ==> forall f :: f in r.value && f.IsSpan() ==> f.start == start && f.end == end
    ensures Lower(code) == "y" ==> r.Ok?
    ensures Lower(code) == "y" ==>
      && (Italic(start, end) in r.value <==> 'i' in Lower(value))
      && (Bold(start, end) in r.value <==> 'b' in Lower(value))
      && (Underline(start, end) in r.value <==> 'u' in Lower(value))
      && forall i, j :: 0 <= i < j < |r.value| ==> StyleRank(r.value[i]) < StyleRank(r.value[j])
    ensures Lower(code) == "c" ==> (r.Ok? <==> FromBgrHex(value).Ok?)
    ensures Lower(code) == "c" && r.Ok? ==> r.value == [Color(start, end, FromBgrHex(value).value)]
    ensures Lower(code) == "f" ==> r == Ok([FontFace(start, end, value)])
    ensures Lower(code) == "s" ==> r.Ok? && (r.value != [] <==> ParseInt(value).Some?)
    ensures Lower(code) == "s" && ParseInt(value).Some? ==> r == Ok([TextSize(start, end, ParseInt(value).value)])
    ensures Lower(code) == "p" ==> r.Ok? && r.value == (if value == "0" then [RelativePosition(TopCenter)] else [])
    ensures Lower(code) !in {"y", "c", "f", "s", "p"} ==> r == Ok([])
  {
    var c := Lower(code);
    if c == "y" then
      var v := Lower(value);
      Ok((if 'i' in v then [Italic(start, end)] else [])
        + (if 'b' in v then [Bold(start, end)] else [])
        + (if 'u' in v then [Underline(start, end)] else []))
    else if c == "c" then
      match FromBgrHex(value)
      case Ok(rgb) => Ok([Color(start, end, rgb)])
      case Err(e) => Err(e)
    else if c == "f" then Ok([FontFace(start, end, value)])
    else if c == "s" then
      match ParseInt(value)
      case Some(n) => Ok([TextSize(start, end, n)])
      case None => Ok([])
    else if c == "p" then
      Ok(if value == "0" then [RelativePosition(TopCenter)] else [])
    else Ok([])
  }

  /** The order the style code emits its formattings in. */
  function StyleRank(f: Formatting): int {
    if f.Italic? then 0 else if f.Bold? then 1 else 2
  }

  // ---------------------------------------------------------------- cue content

  /** `line.replace("{" + code + "}", "")` for each code in turn, on the text left by the previous ones. */
  function RemoveCodes(line: string, codes: seq<string>): (r: string)
    ensures |r| <= |line|
  {
    if codes == [] then line
    else ReplaceAll(RemoveCodes(line, codes[..|codes| - 1]), "{" + codes[|codes| - 1] + "}", "")
  }

  /** A content line with its control codes removed. */
  function CleanLine(line: string): string {
    RemoveCodes(line, ControlCodes(line))
  }

  /** A line without `{` has no control code and is kept as it is. */
  lemma CleanLineWithoutBrace(line: string)
    requires '{' !in line
    ensures CleanLine(line) == line
  {
  }

  // ---------------------------------------------------------------- lines built from plain text and codes

  /** A piece of a content line: plain text without `{`, or a code `{c}` whose c holds no brace. */
  datatype Piece = Plain(t: string) | Code(c: string)

  predicate FlatPiece(p: Piece) {
    match p
    case Plain(t) => '{' !in t
    case Code(c) => '{' !in c && '}' !in c
  }

  predicate Flat(ps: seq<Piece>) { forall i :: 0 <= i < |ps| ==> FlatPiece(ps[i]) }

  function PieceText(p: Piece): string {
    match p
    case Plain(t) => t
    case Code(c) => "{" + c + "}"
  }

  /** The line the pieces make. */
  function Render(ps: seq<Piece>): string {
    if ps == [] then "" else PieceText(ps[0]) + Render(ps[1..])
  }

  /** The codes among the pieces, in order. */
  function CodesOf(ps: seq<Piece>): seq<string> {
    if ps == [] then [] else (if ps[0].Code? then [ps[0].c] else []) + CodesOf(ps[1..])
  }

  /** The plain text among the pieces, in order. */
  function TextOf(ps: seq<Piece>): string {
    if ps == [] then "" else (if ps[0].Plain? then ps[0].t else "") + TextOf(ps[1..])
  }

  /** The pieces without the code c. */
  function Drop(ps: seq<Piece>, c: string): (r: seq<Piece>)
    ensures forall p :: p in r <==> p in ps && p != Code(c)
    ensures TextOf(r) == TextOf(ps)
  {
    if ps == [] then []
    else if ps[0] == Code(c) then Drop(ps[1..], c)
    else
      var rest := Drop(ps[1..], c);
      assert ([ps[0]] + rest)[1..] == rest;
      [ps[0]] + rest
  }

  /** The pieces without any of the codes, dropped one code after the other. */
  function DropAll(ps: seq<Piece>, codes: seq<string>): (r: seq<Piece>)
    ensures forall p :: p in r <==> p in ps && !(p.Code? && p.c in codes)
    ensures TextOf(r) == TextOf(ps)
  {
    if codes == [] then ps else Drop(DropAll(ps, codes[..|codes| - 1]), codes[|codes| - 1])
  }

  /**
   * A line made of plain text and codes, none of them holding a stray brace:
   * `finditer` reports exactly its codes, and removing them one after the
   * other leaves exactly its plain text.
   */
  lemma CleanFlatLine(ps: seq<Piece>)
    requires Flat(ps)
    ensures ControlCodes(Render(ps)) == CodesOf(ps)
    ensures CleanLine(Render(ps)) == TextOf(ps)
  {
    CodesOfFlat(ps);
    RemoveCodesOfFlat(ps, CodesOf(ps));
    var rest := DropAll(ps, CodesOf(ps));
    forall i | 0 <= i < |rest| ensures rest[i].Plain? {
      assert rest[i] in rest;
      if rest[i].Code? { CodesOfHas(ps, rest[i].c); }
    }
    RenderPlain(rest);
  }

  /** Every code piece is among the codes. */
  lemma {:induction false} CodesOfHas(ps: seq<Piece>, c: string)
    requires Code(c) in ps
    ensures c in CodesOf(ps)
  {
    if ps[0] != Code(c) {
      assert Code(c) in ps[1..];
      CodesOfHas(ps[1..], c);
    }
  }

  /** Pieces that are all plain render as their text. */
  lemma {:induction false} RenderPlain(ps: seq<Piece>)
    requires forall i :: 0 <= i < |ps| ==> ps[i].Plain?
    ensures Render(ps) == TextOf(ps)
  {
    if ps != [] {
      RenderPlain(ps[1..]);
    }
  }

  /** The codes `finditer` reports on a flat line are its code pieces. */
  lemma {:induction false} CodesOfFlat(ps: seq<Piece>)
    requires Flat(ps)
    ensures ControlCodes(Render(ps)) == CodesOf(ps)
  {
    if ps != [] {
      assert Flat(ps[1..]);
      CodesOfFlat(ps[1..]);
      var r := Render(ps[1..]);
      match ps[0]
      case Plain(t) =>
        CodesAfterPlain(t, r);
      case Code(c) =>
        CodesAfterCode(c, r);
    }
  }

  /** Text without `{` before r adds no code. */
  lemma CodesAfterPlain(t: string, r: string)
    requires '{' !in t
    ensures ControlCodes(t + r) == ControlCodes(r)
  {
    var s := t + r;
    var spans := CodeSpans(r, 0);
    CodeSpansShift(t, r, 0);
    GroupsShift(t, r, spans);
    CodeSpansSkip(s, 0, |t|);
  }

  /** A brace-free code `{c}` before r adds c in front of r's codes. */
  lemma CodesAfterCode(c: string, r: string)
    requires '{' !in c && '}' !in c
    ensures ControlCodes("{" + c + "}" + r) == [c] + ControlCodes(r)
  {
    var a := "{" + c + "}";
    var s := a + r;
    var spans := CodeSpans(r, 0);
    CodeSpansShift(a, r, 0);
    GroupsShift(a, r, spans);
    var m: (nat, nat) := (0, |c| + 1);
    var sh := Shift(spans, |a|);
    NextSpanOfCode(c, r);
    CodeSpansUnfold(s, 0, m, |a| + 0);
    assert CodeSpans(s, 0) == [m] + sh;
    GroupsCons(s, m, sh);
    assert s[m.0 + 1..m.1] == c;
    calc {
      ControlCodes(s);
      Groups(s, [m] + sh);
      [c] + Groups(s, sh);
      [c] + Groups(r, spans);
    }
  }

  /** The first match of `{c}` + r is the code itself. */
  lemma NextSpanOfCode(c: string, r: string)
    requires '{' !in c && '}' !in c
    ensures NextSpan("{" + c + "}" + r, 0) == Some((0, |c| + 1))
  {
    var s := "{" + c + "}" + r;
    assert s[0] == '{';
    assert s[|c| + 1] == '}';
    forall i | 1 <= i < |c| + 1 ensures s[i] != '}' {
      assert s[i] == c[i - 1];
    }
    CharFromSkip(s, 1, |c| + 1, '}');
  }

  /** The groups of a first span, then the rest. */
  lemma GroupsCons(s: string, m: (nat, nat), spans: seq<(nat, nat)>)
    requires m.0 < m.1 <= |s| && forall i :: 0 <= i < |spans| ==> spans[i].0 < spans[i].1 <= |s|
    ensures forall i :: 0 <= i < |[m] + spans| ==> ([m] + spans)[i].0 < ([m] + spans)[i].1 <= |s|
    ensures Groups(s, [m] + spans) == [s[m.0 + 1..m.1]] + Groups(s, spans)
  {
    var g, g' := Groups(s, [m] + spans), [s[m.0 + 1..m.1]] + Groups(s, spans);
    forall i | 0 <= i < |g| ensures g[i] == g'[i] {
      if i > 0 {
        assert ([m] + spans)[i] == spans[i - 1];
      }
    }
    assert |g| == |g'|;
  }

  /** Without a `{` in [k, k') the scan from k is the scan from k'. */
  lemma CodeSpansSkip(s: string, k: nat, k': nat)
    requires k <= k' <= |s| && forall i :: k <= i < k' ==> s[i] != '{'
    ensures CodeSpans(s, k) == CodeSpans(s, k')
  {
    CharFromSkip(s, k, k', '{');
    SameNextSpan(s, k, k');
    match NextSpan(s, k)
    case None =>
    case Some(m) =>
      var next: nat := m.1 + 1;
      CodeSpansUnfold(s, k, m, next);
      CodeSpansUnfold(s, k', m, next);
  }

  lemma SameNextSpan(s: string, k: nat, k': nat)
    requires k <= |s| && k' <= |s| && CharFrom(s, k, '{') == CharFrom(s, k', '{')
    ensures NextSpan(s, k) == NextSpan(s, k')
  {
  }

  /** Nothing to find before k': the search from k finds what the search from k' does. */
  lemma {:induction false} CharFromSkip(s: string, k: nat, k': nat, c: char)
    requires k <= k' <= |s| && forall i :: k <= i < k' ==> s[i] != c
    ensures CharFrom(s, k, c) == CharFrom(s, k', c)
    decreases k' - k
  {
    if k < k' {
      CharFromSkip(s, k + 1, k', c);
    }
  }

  /** Searching in a + b past a is searching in b, shifted by |a|. */
  lemma {:induction false} CharFromShift(a: string, b: string, k: nat, c: char)
    requires k <= |b|
    ensures CharFrom(b, k, c).None? ==> CharFrom(a + b, |a| + k, c).None?
    ensures CharFrom(b, k, c).Some? ==> CharFrom(a + b, |a| + k, c) == Some(|a| + CharFrom(b, k, c).value)
    decreases |b| - k
  {
    if k < |b| {
      assert (a + b)[|a| + k] == b[k];
      CharFromShift(a, b, k + 1, c);
    }
  }

  /** The spans moved right by n. */
  function Shift(spans: seq<(nat, nat)>, n: nat): (r: seq<(nat, nat)>)
    ensures |r| == |spans|
  {
    if spans == [] then [] else [(spans[0].0 + n, spans[0].1 + n)] + Shift(spans[1..], n)
  }

  lemma {:induction false} ShiftAt(spans: seq<(nat, nat)>, n: nat)
    ensures forall i :: 0 <= i < |spans| ==> Shift(spans, n)[i] == (spans[i].0 + n, spans[i].1 + n)
  {
    if spans != [] {
      ShiftAt(spans[1..], n);
    }
  }

  /** The next match in a + b past a is the next match in b, shifted by |a|. */
  lemma NextSpanShift(a: string, b: string, k: nat)
    requires k <= |b|
    ensures NextSpan(b, k).None? ==> NextSpan(a + b, |a| + k).None?
    ensures NextSpan(b, k).Some? ==> NextSpan(a + b, |a| + k) == Some((NextSpan(b, k).value.0 + |a|, NextSpan(b, k).value.1 + |a|))
  {
    CharFromShift(a, b, k, '{');
    match CharFrom(b, k, '{')
    case None =>
    case Some(p) =>
      CharFromShift(a, b, p + 1, '}');
  }

  /** A next match m is the first span, and the scan goes on past its `}`. */
  lemma CodeSpansUnfold(s: string, k: nat, m: (nat, nat), next: nat)
    requires k <= |s| && NextSpan(s, k) == Some(m) && next == m.1 + 1
    ensures next <= |s| && CodeSpans(s, k) == [m] + CodeSpans(s, next)
  {
  }

  /** The spans found in a + b past a are those found in b, shifted by |a|. */
  lemma {:induction false} CodeSpansShift(a: string, b: string, k: nat)
    requires k <= |b|
    ensures CodeSpans(a + b, |a| + k) == Shift(CodeSpans(b, k), |a|)
    decreases |b| - k
  {
    match NextSpan(b, k)
    case None =>
      ShiftNone(a, b, k);
    case Some(m) =>
      var next: nat := m.1 + 1;
      CodeSpansShift(a, b, next);
      ShiftSome(a, b, k, m, next);
  }

  lemma ShiftNone(a: string, b: string, k: nat)
    requires k <= |b| && NextSpan(b, k).None?
    ensures CodeSpans(a + b, |a| + k) == [] == CodeSpans(b, k)
  {
    NextSpanShift(a, b, k);
  }

  lemma ShiftSome(a: string, b: string, k: nat, m: (nat, nat), next: nat)
    requires k <= |b| && NextSpan(b, k) == Some(m) && next == m.1 + 1
    requires CodeSpans(a + b, |a| + next) == Shift(CodeSpans(b, next), |a|)
    ensures CodeSpans(a + b, |a| + k) == Shift(CodeSpans(b, k), |a|)
  {
    NextSpanShift(a, b, k);
    var m': (nat, nat) := (m.0 + |a|, m.1 + |a|);
    var nextAB: nat := |a| + next;
    CodeSpansUnfold(b, k, m, next);
    CodeSpansUnfold(a + b, |a| + k, m', nextAB);
    ShiftGlue(CodeSpans(b, k), CodeSpans(b, next), CodeSpans(a + b, |a| + k), CodeSpans(a + b, nextAB), m, m', |a|);
  }

  lemma ShiftGlue(spans: seq<(nat, nat)>, rest: seq<(nat, nat)>, spans': seq<(nat, nat)>, rest': seq<(nat, nat)>, m: (nat, nat), m': (nat, nat), n: nat)
    requires m' == (m.0 + n, m.1 + n)
    requires spans == [m] + rest && spans' == [m'] + rest' && rest' == Shift(rest, n)
    ensures spans' == Shift(spans, n)
  {
    ShiftCons(m, rest, n);
  }

  lemma ShiftCons(m: (nat, nat), spans: seq<(nat, nat)>, n: nat)
    ensures Shift([m] + spans, n) == [(m.0 + n, m.1 + n)] + Shift(spans, n)
  {
    assert ([m] + spans)[1..] == spans;
  }

  /** The groups of shifted spans in a + b are the groups of the spans in b. */
  lemma GroupsShift(a: string, b: string, spans: seq<(nat, nat)>)
    requires forall i :: 0 <= i < |spans| ==> spans[i].0 < spans[i].1 <= |b|
    ensures forall i :: 0 <= i < |spans| ==> Shift(spans, |a|)[i].0 < Shift(spans, |a|)[i].1 <= |a + b|
    ensures Groups(a + b, Shift(spans, |a|)) == Groups(b, spans)
  {
    var sh := Shift(spans, |a|);
    ShiftAt(spans, |a|);
    var g, g' := Groups(a + b, sh), Groups(b, spans);
    forall i | 0 <= i < |spans| ensures g[i] == g'[i] {
      ShiftedGroup(a, b, spans[i].0, spans[i].1, sh[i].0, sh[i].1, g[i], g'[i]);
    }
    assert |g| == |g'|;
  }

  /** One group, shifted. */
  lemma ShiftedGroup(a: string, b: string, p: nat, q: nat, p': nat, q': nat, x: string, y: string)
    requires p < q <= |b| && p' == p + |a| && q' == q + |a|
    requires x == (a + b)[p' + 1..q'] && y == b[p + 1..q]
    ensures x == y
  {
    GroupAt(a, b, p, q);
  }

  /** One group, shifted. */
  lemma GroupAt(a: string, b: string, p: nat, q: nat)
    requires p < q <= |b|
    ensures (a + b)[|a| + p + 1..|a| + q] == b[p + 1..q]
  {
    SliceAfter(a, b, p + 1, q);
  }

  /** A slice of a + b past a is a slice of b. */
  lemma SliceAfter(a: string, b: string, i: nat, j: nat)
    requires i <= j <= |b|
    ensures (a + b)[|a| + i..|a| + j] == b[i..j]
  {
    assert (a + b)[|a|..] == b;
  }

  /** Removing `{c}` from a flat line drops exactly its code pieces c. */
  lemma {:induction false} RemoveCodeOfFlat(ps: seq<Piece>, c: string)
    requires Flat(ps) && '}' !in c
    ensures ReplaceAll(Render(ps), "{" + c + "}", "") == Render(Drop(ps, c))
  {
    var pat := "{" + c + "}";
    if ps == [] {
      assert ReplaceAll("", pat, "") == "";
    } else {
      assert Flat(ps[1..]);
      RemoveCodeOfFlat(ps[1..], c);
      var r := Render(ps[1..]);
      var rest := Drop(ps[1..], c);
      assert Render(ps) == PieceText(ps[0]) + r;
      if ps[0] == Code(c) {
        RemoveSame(c, r);
        assert Drop(ps, c) == rest;
      } else {
        match ps[0]
        case Plain(t) =>
          SkipWithoutOpen(t, r, pat);
        case Code(d) =>
          RemoveOther(d, c, r);
        assert Drop(ps, c) == [ps[0]] + rest;
        assert ([ps[0]] + rest)[1..] == rest;
      }
    }
  }

  /** `{c}` in front is removed. */
  lemma RemoveSame(c: string, r: string)
    ensures ReplaceAll("{" + c + "}" + r, "{" + c + "}", "") == ReplaceAll(r, "{" + c + "}", "")
  {
    var pat, s := "{" + c + "}", "{" + c + "}" + r;
    assert s[..|pat|] == pat;
    assert s[|pat|..] == r;
  }

  /** A different brace-free code `{d}` in front is kept. */
  lemma RemoveOther(d: string, c: string, r: string)
    requires d != c && '{' !in d && '}' !in d && '}' !in c
    ensures ReplaceAll("{" + d + "}" + r, "{" + c + "}", "") == "{" + d + "}" + ReplaceAll(r, "{" + c + "}", "")
  {
    var pat, s := "{" + c + "}", "{" + d + "}" + r;
    CodeDiffers(d, c, r);
    var tail := d + "}";
    assert '{' !in tail;
    assert s == ['{'] + (tail + r);
    SkipWithoutOpen(tail, r, pat);
    SkipFirst(['{'] , tail + r, pat);
    assert ['{'] + tail == "{" + d + "}";
  }

  /** A first character that starts no occurrence is kept. */
  lemma SkipFirst(h: string, t: string, pat: string)
    requires pat != [] && |h| == 1 && (|h + t| >= |pat| ==> (h + t)[..|pat|] != pat)
    ensures ReplaceAll(h + t, pat, "") == h + ReplaceAll(t, pat, "")
  {
    assert (h + t)[1..] == t;
    if |h + t| < |pat| {
      assert ReplaceAll(t, pat, "") == t;
    }
  }

  /** A different brace-free code is no occurrence of `{c}`. */
  lemma CodeDiffers(d: string, c: string, r: string)
    requires d != c && '}' !in d && '}' !in c
    ensures var s, pat := "{" + d + "}" + r, "{" + c + "}"; |s| >= |pat| ==> s[..|pat|] != pat
  {
    var s, pat := "{" + d + "}" + r, "{" + c + "}";
    if |s| >= |pat| {
      if |d| < |c| {
        assert s[|d| + 1] == '}' && pat[|d| + 1] == c[|d|];
      } else if |d| > |c| {
        assert s[|c| + 1] == d[|c|] && pat[|c| + 1] == '}';
      } else {
        var i :| 0 <= i < |c| && d[i] != c[i];
        assert s[i + 1] == d[i] && pat[i + 1] == c[i];
      }
    }
  }

  /** Text without `{` is passed over by a pattern that starts with `{`. */
  lemma {:induction false} SkipWithoutOpen(t: string, r: string, pat: string)
    requires pat != [] && pat[0] == '{' && '{' !in t
    ensures ReplaceAll(t + r, pat, "") == t + ReplaceAll(r, pat, "")
    decreases |t|
  {
    if t != [] {
      var s, rest := t + r, t[1..];
      assert s[0] == t[0] != '{';
      assert s[1..] == rest + r;
      SkipWithoutOpen(rest, r, pat);
      if |s| >= |pat| {
        assert s[..|pat|] != pat by { assert s[..|pat|][0] == s[0]; }
        calc {
          ReplaceAll(s, pat, "");
          [t[0]] + ReplaceAll(rest + r, pat, "");
          [t[0]] + (rest + ReplaceAll(r, pat, ""));
          { assert [t[0]] + rest == t; }
          t + ReplaceAll(r, pat, "");
        }
      } else {
        assert ReplaceAll(r, pat, "") == r;
      }
    } else {
      assert t + r == r;
    }
  }

  /** Removing the codes one after the other from a flat line drops them all. */
  lemma {:induction false} RemoveCodesOfFlat(ps: seq<Piece>, codes: seq<string>)
    requires Flat(ps) && forall i :: 0 <= i < |codes| ==> '}' !in codes[i]
    ensures Flat(DropAll(ps, codes))
    ensures RemoveCodes(Render(ps), codes) == Render(DropAll(ps, codes))
    decreases |codes|
  {
    if codes != [] {
      RemoveCodesOfFlat(ps, codes[..|codes| - 1]);
      var rest := DropAll(ps, codes[..|codes| - 1]);
      RemoveCodeOfFlat(rest, codes[|codes| - 1]);
      var r := DropAll(ps, codes);
      forall i | 0 <= i < |r| ensures FlatPiece(r[i]) {
        assert r[i] in r;
      }
    }
  }

  function CleanLines(lines: seq<string>): (r: seq<string>)
    ensures |r| == |lines| && forall i :: 0 <= i < |lines| ==> r[i] == CleanLine(lines[i])
  {
    seq(|lines|, i requires 0 <= i < |lines| => CleanLine(lines[i]))
  }

  /** The cue text: the content's lines, each cleaned, joined with newlines. */
  function CueText(lines: seq<string>): string {
    Join("\n", CleanLines(lines))
  }

  /** The code sets gathered from a content: whole-cue ones by identifier, per-line ones by (line, identifier). */
  datatype Gathered = Gathered(global: SetDict<string>, perLine: SetDict<(int, string)>)

  /** One control code of line i: an upper-case identifier goes to the whole-cue sets, any other to the line's. */
  function GatherCode(g: Gathered, i: int, code: string): Gathered {
    match CodeParts(code)
    case None => g
    case Some((identifier, value)) =>
      if IsUpper(identifier) then g.(global := AddValue(g.global, identifier, value))
      else g.(perLine := AddValue(g.perLine, (i, identifier), value))
  }

  /** The codes of line i, in order. */
  function GatherLine(g: Gathered, i: int, codes: seq<string>): Gathered {
    if codes == [] then g
    else GatherCode(GatherLine(g, i, codes[..|codes| - 1]), i, codes[|codes| - 1])
  }

  /** The codes of every line, line by line. */
  function GatherLines(g: Gathered, lines: seq<string>): Gathered {
    if lines == [] then g
    else GatherLine(GatherLines(g, lines[..|lines| - 1]), |lines| - 1, ControlCodes(lines[|lines| - 1]))
  }

  /**
   * What gathering keeps: keys stay distinct and sets non-empty; per-line
   * keys name a line below n and an identifier that is not upper case; the
   * whole-cue keys are the starting ones and upper-case identifiers. The
   * starting keys are not upper case, so their entries come first and are
   * never added to: the copy of the defaults shares their sets, and sharing
   * them changes nothing.
   */
  ghost predicate GatheredFrom(g: Gathered, start: SetDict<string>, n: int) {
    && (forall i :: 0 <= i < |start| ==> !IsUpper(start[i].0))
    && |start| <= |g.global| && g.global[..|start|] == start
    && DistinctKeys(g.global) && NonEmptySets(g.global)
    && DistinctKeys(g.perLine) && NonEmptySets(g.perLine)
    && (forall i :: 0 <= i < |g.perLine| ==> 0 <= g.perLine[i].0.0 < n && !IsUpper(g.perLine[i].0.1))
    && (forall i :: 0 <= i < |g.global| ==> g.global[i].0 in Keys(start) || IsUpper(g.global[i].0))
  }

  lemma GatherCodeKeeps(g: Gathered, start: SetDict<string>, n: int, i: int, code: string)
    requires GatheredFrom(g, start, n) && 0 <= i < n
    ensures GatheredFrom(GatherCode(g, i, code), start, n)
  {
    match CodeParts(code)
    case None =>
    case Some((identifier, value)) =>
      if IsUpper(identifier) {
        GlobalAddKeeps(g.global, start, identifier, value);
      } else {
        PerLineAddKeeps(g.perLine, n, i, identifier, value);
      }
  }

  /** An upper-case code added to the whole-cue sets keeps the defaults in front. */
  lemma GlobalAddKeeps(global: SetDict<string>, start: SetDict<string>, identifier: string, value: string)
    requires IsUpper(identifier)
    requires |start| <= |global| && global[..|start|] == start
    requires forall i :: 0 <= i < |start| ==> !IsUpper(start[i].0)
    requires forall i :: 0 <= i < |global| ==> global[i].0 in Keys(start) || IsUpper(global[i].0)
    ensures var r := AddValue(global, identifier, value);
      && |start| <= |r| && r[..|start|] == start
      && forall i :: 0 <= i < |r| ==> r[i].0 in Keys(start) || IsUpper(r[i].0)
  {
    var r := AddValue(global, identifier, value);
    forall j | 0 <= j < |start| ensures r[j] == start[j] {
      assert global[j] == start[j];
    }
    forall j | 0 <= j < |r| ensures r[j].0 in Keys(start) || IsUpper(r[j].0) {
      assert Keys(r)[j] == r[j].0;
      if j < |global| {
        assert Keys(global)[j] == global[j].0;
      }
    }
  }

  /** A code added to line i's sets keeps every per-line key on a line below n and not upper case. */
  lemma PerLineAddKeeps(perLine: SetDict<(int, string)>, n: int, i: int, identifier: string, value: string)
    requires 0 <= i < n && !IsUpper(identifier)
    requires forall j :: 0 <= j < |perLine| ==> 0 <= perLine[j].0.0 < n && !IsUpper(perLine[j].0.1)
    ensures var r := AddValue(perLine, (i, identifier), value);
      forall j :: 0 <= j < |r| ==> 0 <= r[j].0.0 < n && !IsUpper(r[j].0.1)
  {
    var r := AddValue(perLine, (i, identifier), value);
    forall j | 0 <= j < |r| ensures 0 <= r[j].0.0 < n && !IsUpper(r[j].0.1) {
      assert Keys(r)[j] == r[j].0;
      if j < |perLine| {
        assert Keys(perLine)[j] == perLine[j].0;
      }
    }
  }

  lemma {:induction false} GatherLineKeeps(g: Gathered, start: SetDict<string>, n: int, i: int, codes: seq<string>)
    requires GatheredFrom(g, start, n) && 0 <= i < n
    ensures GatheredFrom(GatherLine(g, i, codes), start, n)
    decreases |codes|
  {
    if codes != [] {
      GatherLineKeeps(g, start, n, i, codes[..|codes| - 1]);
      GatherCodeKeeps(GatherLine(g, i, codes[..|codes| - 1]), start, n, i, codes[|codes| - 1]);
    }
  }

  lemma {:induction false} GatherLinesKeeps(g: Gathered, start: SetDict<string>, n: int, lines: seq<string>)
    requires GatheredFrom(g, start, n) && |lines| <= n
    ensures GatheredFrom(GatherLines(g, lines), start, n)
    decreases |lines|
  {
    if lines != [] {
      GatherLinesKeeps(g, start, n, lines[..|lines| - 1]);
      GatherLineKeeps(GatherLines(g, lines[..|lines| - 1]), start, n, |lines| - 1, ControlCodes(lines[|lines| - 1]));
    }
  }

  // ---------------------------------------------------------------- from codes to formattings

  /** One dictionary entry to render: a code, its values in iteration order and its span. */
  datatype Job = Job(code: string, values: seq<string>, start: int, end: int)

  /** A listing of every set's elements, each once. */
  ghost predicate Enumerates(order: set<string> -> seq<string>) {
    forall s: set<string> :: |order(s)| == |s| && forall x :: x in order(s) <==> x in s
  }

  lemma EnumeratesNonEmpty(order: set<string> -> seq<string>, s: set<string>)
    requires Enumerates(order) && s != {}
    ensures order(s) != []
  {
    var x :| x in s;
    assert x in order(s);
  }

  /** `for v in val: formattings.extend(...)`: every value's formattings, in order; the first error ends it. */
  function EachValue(code: string, values: seq<string>, start: int, end: int): (r: Result<seq<Formatting>>)
    ensures r.Err? ==> r.error == ValueError
    ensures r.Ok? ==> forall f :: f in r.value && f.IsSpan() ==> f.start == start && f.end == end
  {
    if values == [] then Ok([])
    else
      match EachValue(code, values[..|values| - 1], start, end)
      case Err(e) => Err(e)
      case Ok(a) =>
        match FromControlCode(code, values[|values| - 1], start, end)
        case Err(e) => Err(e)
        case Ok(b) => Ok(a + b)
  }

  /** An entry: every value for the code "Y", otherwise only the first value listed. */
  function JobFormattings(j: Job): (r: Result<seq<Formatting>>)
    requires j.values != []
    ensures r.Err? ==> r.error == ValueError
    ensures r.Ok? ==> forall f :: f in r.value && f.IsSpan() ==> f.start == j.start && f.end == j.end
  {
    if j.code == "Y" then EachValue(j.code, j.values, j.start, j.end)
    else FromControlCode(j.code, j.values[0], j.start, j.end)
  }

  predicate HasValues(jobs: seq<Job>) {
    forall i :: 0 <= i < |jobs| ==> jobs[i].values != []
  }

  /** Two runs one after the other: the first error wins, else the formattings concatenate. */
  function Combine(x: Result<seq<Formatting>>, y: Result<seq<Formatting>>): (r: Result<seq<Formatting>>)
    ensures x.Err? ==> r == x
    ensures x.Ok? && y.Err? ==> r == y
    ensures x.Ok? && y.Ok? ==> r == Ok(x.value + y.value)
  {
    match x
    case Err(_) => x
    case Ok(a) => (match y case Err(_) => y case Ok(b) => Ok(a + b))
  }

  lemma CombineAssociative(x: Result<seq<Formatting>>, y: Result<seq<Formatting>>, z: Result<seq<Formatting>>)
    ensures Combine(Combine(x, y), z) == Combine(x, Combine(y, z))
  {
    if x.Ok? && y.Ok? && z.Ok? {
      assert x.value + y.value + z.value == x.value + (y.value + z.value);
    }
  }

  /** Every entry in order, the formattings concatenated; the first error ends it. */
  function RunJobs(jobs: seq<Job>): (r: Result<seq<Formatting>>)
    requires HasValues(jobs)
    ensures r.Err? ==> r.error == ValueError
  {
    if jobs == [] then Ok([])
    else Combine(RunJobs(jobs[..|jobs| - 1]), JobFormattings(jobs[|jobs| - 1]))
  }

  /** Each span formatting produced covers the span of one of the entries. */
  lemma {:induction false} RunJobsSpans(jobs: seq<Job>)
    requires HasValues(jobs)
    ensures RunJobs(jobs).Ok? ==> forall f :: f in RunJobs(jobs).value && f.IsSpan() ==>
      exists i :: 0 <= i < |jobs| && f.start == jobs[i].start && f.end == jobs[i].end
    decreases |jobs|
  {
    if jobs != [] && RunJobs(jobs).Ok? {
      var init := jobs[..|jobs| - 1];
      RunJobsSpans(init);
      forall f | f in RunJobs(jobs).value && f.IsSpan()
        ensures exists i :: 0 <= i < |jobs| && f.start == jobs[i].start && f.end == jobs[i].end
      {
        if f in RunJobs(init).value {
          var i :| 0 <= i < |init| && f.start == init[i].start && f.end == init[i].end;
          assert jobs[i] == init[i];
        } else {
          assert f in JobFormattings(jobs[|jobs| - 1]).value;
        }
      }
    }
  }

  /** The whole-cue entries: every span is the whole text [0, n]. */
  function GlobalJobs(d: SetDict<string>, order: set<string> -> seq<string>, n: int): (jobs: seq<Job>)
    requires NonEmptySets(d) && Enumerates(order)
    ensures |jobs| == |d| && HasValues(jobs)
    ensures forall i :: 0 <= i < |jobs| ==> jobs[i] == Job(d[i].0, order(d[i].1), 0, n)
  {
    forall i | 0 <= i < |d| ensures order(d[i].1) != [] {
      EnumeratesNonEmpty(order, d[i].1);
    }
    seq(|d|, i requires 0 <= i < |d| => Job(d[i].0, order(d[i].1), 0, n))
  }

  // ---------------------------------------------------------------- line offsets

  /** `map(lambda x: len(x) + 1, clean_lines)`. */
  function LineLengths(lines: seq<string>): (r: seq<int>)
    ensures |r| == |lines| && forall i :: 0 <= i < |lines| ==> r[i] == |lines[i]| + 1
  {
    seq(|lines|, i requires 0 <= i < |lines| => |lines[i]| + 1)
  }

  /** `itertools.accumulate` started from base: the running sums. */
  function AccumulateFrom(xs: seq<int>, base: int): (r: seq<int>)
    ensures |r| == |xs|
  {
    if xs == [] then [] else [base + xs[0]] + AccumulateFrom(xs[1..], base + xs[0])
  }

  /** Where line i starts in the lines joined with newlines. */
  function Offset(lines: seq<string>, i: nat): (o: nat)
    requires i <= |lines|
  {
    if i == 0 then 0 else |lines[0]| + 1 + Offset(lines[1..], i - 1)
  }

  /** The k-th running sum of the line lengths plus one is where line k + 1 starts. */
  lemma {:induction false} AccumulateIsOffset(lines: seq<string>, base: int, k: nat)
    requires k < |lines|
    ensures AccumulateFrom(LineLengths(lines), base)[k] == base + Offset(lines, k + 1)
    decreases k
  {
    var xs := LineLengths(lines);
    if k > 0 {
      assert xs[1..] == LineLengths(lines[1..]);
      AccumulateIsOffset(lines[1..], base + xs[0], k - 1);
    }
  }

  /** Line i of the joined text sits at its offset: the slice there is the line itself. */
  lemma {:induction false} LineOfJoin(lines: seq<string>, i: nat)
    requires i < |lines|
    ensures Offset(lines, i) + |lines[i]| <= |Join("\n", lines)|
    ensures Join("\n", lines)[Offset(lines, i)..Offset(lines, i) + |lines[i]|] == lines[i]
    decreases i
  {
    var text := Join("\n", lines);
    if |lines| == 1 {
    } else if i == 0 {
      assert text == lines[0] + "\n" + Join("\n", lines[1..]);
      assert text[..|lines[0]|] == lines[0];
    } else {
      var rest := Join("\n", lines[1..]);
      assert text == lines[0] + "\n" + rest;
      LineOfJoin(lines[1..], i - 1);
      var o := Offset(lines[1..], i - 1);
      var p := |lines[0]| + 1;
      assert text[p + o..p + o + |lines[i]|] == rest[o..o + |lines[i]|];
    }
  }

  /**
   * `start` and `end` of a per-line code, read from the running sums as
   * written: line 0 from 0, line i from the (i - 1)-th sum, ending one
   * before the i-th.
   */
  function LineBounds(acc: seq<int>, lineIndex: int): (int, int)
    requires 0 <= lineIndex < |acc|
  {
    var index := lineIndex - 1;
    if index < 0 then (0, acc[0] - 1) else (acc[index], acc[index + 1] - 1)
  }

  /** So a per-line code spans exactly its line of the joined text. */
  lemma LineBoundsAreLine(lines: seq<string>, i: nat)
    requires i < |lines|
    ensures var b := LineBounds(AccumulateFrom(LineLengths(lines), 0), i);
      b.0 == Offset(lines, i) && b.1 == Offset(lines, i) + |lines[i]|
  {
    AccumulateIsOffset(lines, 0, i);
    if i > 0 {
      AccumulateIsOffset(lines, 0, i - 1);
      OffsetStep(lines, i);
    } else {
      assert Offset(lines, 1) == |lines[0]| + 1 + Offset(lines[1..], 0);
    }
  }

  lemma {:induction false} OffsetStep(lines: seq<string>, i: nat)
    requires i < |lines|
    ensures Offset(lines, i + 1) == Offset(lines, i) + |lines[i]| + 1
    decreases i
  {
    if i > 0 {
      OffsetStep(lines[1..], i - 1);
      assert lines[1..][i - 1] == lines[i];
    }
  }

  /** The per-line entries: each spans its own line. */
  function PerLineJobs(d: SetDict<(int, string)>, order: set<string> -> seq<string>, acc: seq<int>): (jobs: seq<Job>)
    requires NonEmptySets(d) && Enumerates(order)
    requires forall i :: 0 <= i < |d| ==> 0 <= d[i].0.0 < |acc|
    ensures |jobs| == |d| && HasValues(jobs)
    ensures forall i :: 0 <= i < |jobs| ==>
      jobs[i] == Job(d[i].0.1, order(d[i].1), LineBounds(acc, d[i].0.0).0, LineBounds(acc, d[i].0.0).1)
  {
    forall i | 0 <= i < |d| ensures order(d[i].1) != [] {
      EnumeratesNonEmpty(order, d[i].1);
    }
    seq(|d|, i requires 0 <= i < |d| =>
      Job(d[i].0.1, order(d[i].1), LineBounds(acc, d[i].0.0).0, LineBounds(acc, d[i].0.0).1))
  }

  // ---------------------------------------------------------------- a cue's content

  /** The default codes a parser may hold: distinct lower-case keys among c, f, s, y, p, none with an empty set. */
  ghost predicate DefaultsValid(d: SetDict<string>) {
    && DistinctKeys(d) && NonEmptySets(d)
    && forall i :: 0 <= i < |d| ==> d[i].0 in {"c", "f", "s", "y", "p"}
  }

  /**
   * `_parse_content`'s formattings for the content split at `|`: the
   * whole-cue entries (the defaults first, then upper-case identifiers in
   * order of appearance) over the whole text, then the per-line entries
   * over their lines.
   */
  function ContentFormattings(defaults: SetDict<string>, lines: seq<string>, order: set<string> -> seq<string>): (r: Result<seq<Formatting>>)
    requires DefaultsValid(defaults) && Enumerates(order)
    ensures r.Err? ==> r.error == ValueError
  {
    var clean := CleanLines(lines);
    GatherLinesKeeps(Gathered(defaults, []), defaults, |lines|, lines);
    var g := GatherLines(Gathered(defaults, []), lines);
    var acc := AccumulateFrom(LineLengths(clean), 0);
    RunJobs(GlobalJobs(g.global, order, |Join("\n", clean)|) + PerLineJobs(g.perLine, order, acc))
  }

  /** The sets gathered from a content are fit to render, and rendering them over the cleaned lines is ContentFormattings. */
  lemma ContentFormattingsOfGathered(defaults: SetDict<string>, lines: seq<string>, order: set<string> -> seq<string>)
    requires DefaultsValid(defaults) && Enumerates(order)
    ensures var g, clean := GatherLines(Gathered(defaults, []), lines), CleanLines(lines);
      && NonEmptySets(g.global) && NonEmptySets(g.perLine)
      && (forall i :: 0 <= i < |g.perLine| ==> 0 <= g.perLine[i].0.0 < |clean|)
      && ContentFormattings(defaults, lines, order) ==
         RunJobs(GlobalJobs(g.global, order, |Join("\n", clean)|) + PerLineJobs(g.perLine, order, AccumulateFrom(LineLengths(clean), 0)))
  {
    GatherLinesKeeps(Gathered(defaults, []), defaults, |lines|, lines);
  }

  /** Each entry spans the whole text or exactly one line. */
  ghost predicate WholeOrLine(jobs: seq<Job>, clean: seq<string>, n: int) {
    forall k :: 0 <= k < |jobs| ==>
      (jobs[k].start == 0 && jobs[k].end == n) ||
      exists i :: 0 <= i < |clean| && jobs[k].start == Offset(clean, i) && jobs[k].end == Offset(clean, i) + |clean[i]|
  }

  lemma PerLineJobsAreLines(d: SetDict<(int, string)>, order: set<string> -> seq<string>, clean: seq<string>, n: int)
    requires NonEmptySets(d) && Enumerates(order)
    requires forall i :: 0 <= i < |d| ==> 0 <= d[i].0.0 < |clean|
    ensures WholeOrLine(PerLineJobs(d, order, AccumulateFrom(LineLengths(clean), 0)), clean, n)
  {
    var jobs := PerLineJobs(d, order, AccumulateFrom(LineLengths(clean), 0));
    forall k | 0 <= k < |jobs|
      ensures exists i :: 0 <= i < |clean| && jobs[k].start == Offset(clean, i) && jobs[k].end == Offset(clean, i) + |clean[i]|
    {
      LineBoundsAreLine(clean, d[k].0.0);
    }
  }

  /** Every span lies within the joined lines and covers the whole text or exactly one line. */
  ghost predicate LineSpans(fs: seq<Formatting>, clean: seq<string>) {
    var text := Join("\n", clean);
    && SpansWithin(fs, |text|)
    && forall f :: f in fs && f.IsSpan() ==>
      (f.start == 0 && f.end == |text|) ||
      exists i :: 0 <= i < |clean| && f.start == Offset(clean, i) && text[f.start..f.end] == clean[i]
  }

  /** Entries that each span the whole text or one line give formattings that do too. */
  lemma RunJobsWholeOrLine(jobs: seq<Job>, clean: seq<string>)
    requires HasValues(jobs) && WholeOrLine(jobs, clean, |Join("\n", clean)|)
    ensures var r := RunJobs(jobs); r.Ok? ==> LineSpans(r.value, clean)
  {
    var r := RunJobs(jobs);
    var text := Join("\n", clean);
    if r.Ok? {
      RunJobsSpans(jobs);
      forall f | f in r.value && f.IsSpan()
        ensures 0 <= f.start <= f.end <= |text|
        ensures (f.start == 0 && f.end == |text|) ||
          exists i :: 0 <= i < |clean| && f.start == Offset(clean, i) && text[f.start..f.end] == clean[i]
      {
        var k :| 0 <= k < |jobs| && f.start == jobs[k].start && f.end == jobs[k].end;
        WholeOrLineWithin(clean, f.start, f.end);
      }
    }
  }

  /** A range that is the whole text or one line's place in it lies within the text and holds that line. */
  lemma WholeOrLineWithin(clean: seq<string>, start: int, end: int)
    requires var text := Join("\n", clean);
      (start == 0 && end == |text|) ||
      exists i :: 0 <= i < |clean| && start == Offset(clean, i) && end == Offset(clean, i) + |clean[i]|
    ensures var text := Join("\n", clean);
      && 0 <= start <= end <= |text|
      && ((start == 0 && end == |text|) ||
          exists i :: 0 <= i < |clean| && start == Offset(clean, i) && text[start..end] == clean[i])
  {
    var text := Join("\n", clean);
    if !(start == 0 && end == |text|) {
      var i :| 0 <= i < |clean| && start == Offset(clean, i) && end == Offset(clean, i) + |clean[i]|;
      LineOfJoin(clean, i);
    }
  }

  /**
   * Every span formatting of a cue covers either the whole text or exactly
   * one of its lines, so it lies within the text.
   */
  lemma ContentSpans(defaults: SetDict<string>, lines: seq<string>, order: set<string> -> seq<string>)
    requires DefaultsValid(defaults) && Enumerates(order)
    ensures var r := ContentFormattings(defaults, lines, order); r.Ok? ==> LineSpans(r.value, CleanLines(lines))
  {
    var clean := CleanLines(lines);
    var n := |Join("\n", clean)|;
    ContentFormattingsOfGathered(defaults, lines, order);
    var g := GatherLines(Gathered(defaults, []), lines);
    var gj := GlobalJobs(g.global, order, n);
    var pj := PerLineJobs(g.perLine, order, AccumulateFrom(LineLengths(clean), 0));
    PerLineJobsAreLines(g.perLine, order, clean, n);
    WholeOrLineConcat(gj, pj, clean, n);
    RunJobsWholeOrLine(gj + pj, clean);
  }

  /** The cue built from a content is well formed: its spans lie within its text. */
  lemma ContentWithin(defaults: SetDict<string>, lines: seq<string>, order: set<string> -> seq<string>)
    requires DefaultsValid(defaults) && Enumerates(order)
    ensures var r := ContentFormattings(defaults, lines, order);
      r.Ok? ==> WellFormed(Cue(Time(0), Time(0), CueText(lines), r.value))
  {
    ContentSpans(defaults, lines, order);
  }

  lemma WholeOrLineConcat(gj: seq<Job>, pj: seq<Job>, clean: seq<string>, n: int)
    requires forall k :: 0 <= k < |gj| ==> gj[k].start == 0 && gj[k].end == n
    requires WholeOrLine(pj, clean, n)
    ensures WholeOrLine(gj + pj, clean, n)
  {
    var jobs := gj + pj;
    forall k | 0 <= k < |jobs| && k >= |gj| ensures jobs[k] == pj[k - |gj|] {
    }
  }

  /**
   * Only an upper-case identifier can be "Y": per-line and default style
   * codes are rendered from one value of their set, never from all of them.
   * The defaults' entries come first among the whole-cue ones and stay as
   * they were.
   */
  lemma EveryValueOnlyForUpperY(defaults: SetDict<string>, lines: seq<string>)
    requires DefaultsValid(defaults)
    ensures var g := GatherLines(Gathered(defaults, []), lines);
      && (forall i :: 0 <= i < |g.perLine| ==> g.perLine[i].0.1 != "Y")
      && (forall i :: 0 <= i < |defaults| ==> defaults[i].0 != "Y")
      && |defaults| <= |g.global| && g.global[..|defaults|] == defaults
  {
    GatherLinesKeeps(Gathered(defaults, []), defaults, |lines|, lines);
    assert IsUpper("Y") by { assert "Y"[0] == 'Y'; }
  }

  // ---------------------------------------------------------------- errors end a run

  /** Running two lists of entries one after the other: the first error wins, else the formattings concatenate. */
  lemma {:induction false} RunJobsConcat(a: seq<Job>, b: seq<Job>)
    requires HasValues(a) && HasValues(b)
    ensures RunJobs(a + b) == Combine(RunJobs(a), RunJobs(b))
    decreases |b|
  {
    if b == [] {
      assert a + b == a;
      if RunJobs(a).Ok? {
        assert RunJobs(a).value + [] == RunJobs(a).value;
      }
    } else {
      var init := b[..|b| - 1];
      var ab := a + b;
      assert ab[..|ab| - 1] == a + init && ab[|ab| - 1] == b[|b| - 1];
      RunJobsUnfold(ab);
      RunJobsUnfold(b);
      RunJobsConcat(a, init);
      CombineAssociative(RunJobs(a), RunJobs(init), JobFormattings(b[|b| - 1]));
    }
  }

  lemma RunJobsUnfold(jobs: seq<Job>)
    requires HasValues(jobs) && jobs != []
    ensures RunJobs(jobs) == Combine(RunJobs(jobs[..|jobs| - 1]), JobFormattings(jobs[|jobs| - 1]))
  {
  }

  lemma {:induction false} RunJobsPrefixErr(jobs: seq<Job>, k: nat)
    requires k <= |jobs| && HasValues(jobs) && RunJobs(jobs[..k]).Err?
    ensures RunJobs(jobs) == RunJobs(jobs[..k])
    decreases |jobs| - k
  {
    if k < |jobs| {
      var init := jobs[..|jobs| - 1];
      assert init[..k] == jobs[..k];
      RunJobsPrefixErr(init, k);
    } else {
      assert jobs[..k] == jobs;
    }
  }

  /** One dictionary entry rendered: every listed value for "Y", the first one otherwise. */
  method RenderEntry(code: string, values: seq<string>, start: int, end: int) returns (r: Result<seq<Formatting>>)
    requires values != []
    ensures r == JobFormattings(Job(code, values, start, end))
  {
    if code == "Y" {
      var formattings: seq<Formatting> := [];
      for k := 0 to |values|
        invariant EachValue(code, values[..k], start, end) == Ok(formattings)
      {
        assert values[..k + 1][..k] == values[..k];
        // The style code never raises.
        var f := FromControlCode(code, values[k], start, end);
        formattings := formattings + f.value;
      }
      assert values[..|values|] == values;
      r := Ok(formattings);
    } else {
      r := FromControlCode(code, values[0], start, end);
    }
  }
}
