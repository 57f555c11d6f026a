/**
 * The inline markup parser (`SubtitleHTMLTagParser`). It is a stack machine
 * fed with start-tag, end-tag and data events by a markup tokenizer. It
 * builds the plain text and the formattings of a cue: `<b>`, `<i>`, `<u>`,
 * `<s>` and `<font>` become formattings; unmatched end tags and unclosed
 * unknown start tags are written back into the text.
 */
module HtmlParsing {
  import opened Wrappers
  import opened PyStr
  import opened Formattings
  import Sorting
  import Splicing

  /** An attribute as the tokenizer reports it: a name and an optional value. */
  type Attribute = (string, Option<string>)

  /** What the markup tokenizer reports, in document order. */
  datatype Event =
    | StartTag(name: string, attrs: seq<Attribute>)
    | EndTag(name: string)
    | Data(data: string)

  /** `TagSpan`: an opened tag, where it starts in the text, and where it was closed. */
  datatype TagSpan = TagSpan(tag: string, attributes: seq<Attribute>, start: int, end: Option<int>)

  /** `VALID_HTML_TAGS`. */
  const ValidTags: seq<string> := ["b", "i", "u", "s", "font"]

  /** Every frame starts and (when closed) ends within the first n characters. */
  predicate FramesWithin(frames: seq<TagSpan>, n: int) {
    forall i :: 0 <= i < |frames| ==>
      0 <= frames[i].start <= n && (frames[i].end.Some? ==> frames[i].start <= frames[i].end.value <= n)
  }

  // ---------------------------------------------------------------- static helpers

  /** `_build_start_tag`: the start tag written back, attributes in order. */
  function BuildStartTag(tag: string, attrs: seq<Attribute>): (s: string)
    ensures |s| >= |tag| + 2 && s[..|tag| + 1] == "<" + tag && s[|s| - 1] == '>'
    ensures attrs == [] ==> s == "<" + tag + ">"
  {
    var s := "<" + tag + AttributesText(attrs) + ">";
    assert s[..|tag| + 1] == "<" + tag;
    s
  }

  /** ` name="value"`, or ` name` for an attribute without a value. */
  function AttributeText(a: Attribute): string {
    match a.1
    case Some(v) => " " + a.0 + "=\"" + v + "\""
    case None => " " + a.0
  }

  /** The attributes written one after the other, in order. */
  function AttributesText(attrs: seq<Attribute>): string {
    if attrs == [] then "" else AttributeText(attrs[0]) + AttributesText(attrs[1..])
  }

  // ---------------------------------------------------------------- reading a start tag back

  /** A character that can stand in an attribute name the reader below reads back. */
  predicate NameChar(c: char) { c != ' ' && c != '=' && c != '"' }

  /** An attribute that reads back as itself: a non-empty name of name characters, a value without `"`. */
  predicate PlainAttribute(a: Attribute) {
    && a.0 != [] && (forall i :: 0 <= i < |a.0| ==> NameChar(a.0[i]))
    && (a.1.Some? ==> '"' !in a.1.value)
  }

  /** The end of the name that starts at i: the first index from i that holds no name character. */
  function NameEnd(s: string, i: nat): (n: nat)
    requires i <= |s|
    ensures i <= n <= |s| && (n < |s| ==> !NameChar(s[n]))
    ensures forall k :: i <= k < n ==> NameChar(s[k])
    decreases |s| - i
  {
    if i == |s| || !NameChar(s[i]) then i else NameEnd(s, i + 1)
  }

  /**
   * Reads the attribute at the front of s: a space, a name, and then either
   * `="value"` or nothing before the next space or the end. Gives the
   * attribute and how many characters it took; None when s does not start
   * with one.
   */
  function ReadAttribute(s: string): (r: Option<(Attribute, nat)>)
    ensures r.Some? ==> 0 < r.value.1 <= |s|
  {
    if s == [] || s[0] != ' ' then None
    else
      var n := NameEnd(s, 1);
      if n == 1 || (n < |s| && s[n] == '"') then None
      else if n < |s| && s[n] == '=' then
        if n + 1 < |s| && s[n + 1] == '"' then
          match FindChar(s[n + 2..], '"')
          case None => None
          case Some(q) => Some(((s[1..n], Some(s[n + 2..n + 2 + q])), n + 3 + q))
        else None
      else Some(((s[1..n], None), n))
  }

  /** Reads attribute text back, attribute after attribute; None when it is not of that form. */
  function ReadAttributes(s: string): Option<seq<Attribute>>
    decreases |s|
  {
    if s == [] then Some([])
    else
      match ReadAttribute(s)
      case None => None
      case Some(r) => Prepend(r.0, ReadAttributes(s[r.1..]))
  }

  function Prepend(a: Attribute, r: Option<seq<Attribute>>): Option<seq<Attribute>> {
    match r
    case None => None
    case Some(rest) => Some([a] + rest)
  }

  /** Reads a start tag back: `<`, a tag name without space, the attribute text, `>`. */
  function ReadStartTag(s: string): Option<(string, seq<Attribute>)> {
    if |s| < 3 || s[0] != '<' || s[|s| - 1] != '>' then None
    else
      var body := s[1..|s| - 1];
      var n := TagNameEnd(body, 0);
      if n == 0 then None
      else
        match ReadAttributes(body[n..])
        case None => None
        case Some(attrs) => Some((body[..n], attrs))
  }

  /** The first space from i, or the end. */
  function TagNameEnd(s: string, i: nat): (n: nat)
    requires i <= |s|
    ensures i <= n <= |s| && (n < |s| ==> s[n] == ' ')
    ensures forall k :: i <= k < n ==> s[k] != ' '
    decreases |s| - i
  {
    if i == |s| || s[i] == ' ' then i else TagNameEnd(s, i + 1)
  }

  /** The rebuilt start tag reads back as the tag and the attributes it was built from. */
  lemma BuildStartTagReadBack(tag: string, attrs: seq<Attribute>)
    requires tag != [] && ' ' !in tag
    requires forall i :: 0 <= i < |attrs| ==> PlainAttribute(attrs[i])
    ensures ReadStartTag(BuildStartTag(tag, attrs)) == Some((tag, attrs))
  {
    var t := AttributesText(attrs);
    var s := BuildStartTag(tag, attrs);
    var body := tag + t;
    assert s[1..|s| - 1] == body;
    ReadAttributesText(attrs);
    AttributesTextStart(attrs);
    TagNameEndAt(body, tag, t);
    assert body[..|tag|] == tag && body[|tag|..] == t;
  }

  lemma TagNameEndAt(body: string, tag: string, t: string)
    requires body == tag + t && ' ' !in tag && (t == [] || t[0] == ' ')
    ensures TagNameEnd(body, 0) == |tag|
  {
    TagNameEndTo(body, 0, |tag|);
  }

  lemma {:induction false} TagNameEndTo(s: string, i: nat, n: nat)
    requires i <= n <= |s| && (forall k :: i <= k < n ==> s[k] != ' ') && (n == |s| || s[n] == ' ')
    ensures TagNameEnd(s, i) == n
    decreases n - i
  {
    if i < n {
      TagNameEndTo(s, i + 1, n);
    }
  }

  lemma {:induction false} NameEndTo(s: string, i: nat, n: nat)
    requires i <= n <= |s| && (forall k :: i <= k < n ==> NameChar(s[k])) && (n == |s| || !NameChar(s[n]))
    ensures NameEnd(s, i) == n
    decreases n - i
  {
    if i < n {
      NameEndTo(s, i + 1, n);
    }
  }

  /** Attribute text is empty or starts with a space. */
  lemma AttributesTextStart(attrs: seq<Attribute>)
    ensures var t := AttributesText(attrs); t == [] || t[0] == ' '
  {
  }

  /** Attribute text reads back as the attributes it was written from. */
  lemma {:induction false} ReadAttributesText(attrs: seq<Attribute>)
    requires forall i :: 0 <= i < |attrs| ==> PlainAttribute(attrs[i])
    ensures ReadAttributes(AttributesText(attrs)) == Some(attrs)
    decreases |attrs|
  {
    if attrs != [] {
      var rest := AttributesText(attrs[1..]);
      ReadAttributesText(attrs[1..]);
      AttributesTextStart(attrs[1..]);
      ReadAttributeCons(attrs[0], rest);
      assert [attrs[0]] + attrs[1..] == attrs;
    }
  }

  /** One attribute in front of text that is empty or starts with a space is read first. */
  lemma ReadAttributeCons(a: Attribute, rest: string)
    requires PlainAttribute(a) && (rest == [] || rest[0] == ' ')
    ensures ReadAttributes(AttributeText(a) + rest) == Prepend(a, ReadAttributes(rest))
  {
    var s := AttributeText(a) + rest;
    match a.1
    case Some(v) =>
      ReadValuedAttribute(s, a.0, v, rest);
    case None =>
      ReadBareAttribute(s, a.0, rest);
  }

  lemma ReadBareAttribute(s: string, name: string, rest: string)
    requires s == " " + name + rest && (rest == [] || rest[0] == ' ')
    requires name != [] && forall i :: 0 <= i < |name| ==> NameChar(name[i])
    ensures ReadAttribute(s) == Some(((name, None), 1 + |name|)) && s[1 + |name|..] == rest
  {
    var n := 1 + |name|;
    forall k | 1 <= k < n ensures NameChar(s[k]) {
      assert s[k] == name[k - 1];
    }
    NameEndTo(s, 1, n);
    assert s[1..n] == name && s[n..] == rest;
  }

  lemma ReadValuedAttribute(s: string, name: string, v: string, rest: string)
    requires s == " " + name + "=\"" + v + "\"" + rest
    requires name != [] && (forall i :: 0 <= i < |name| ==> NameChar(name[i])) && '"' !in v
    ensures ReadAttribute(s) == Some(((name, Some(v)), 4 + |name| + |v|)) && s[4 + |name| + |v|..] == rest
  {
    var n := 1 + |name|;
    ValuedPieces(s, name, v, rest);
    NameEndTo(s, 1, n);
    var u := s[n + 2..];
    forall j | 0 <= j < |v| ensures u[j] != '"' {
      assert u[j] == s[n + 2 + j];
    }
    FindCharIs(u, '"', |v|);
    ReadAttributeValued(s, n, |v|);
  }

  /** Where the name, the `="`, the value and the closing `"` of a valued attribute lie. */
  lemma ValuedPieces(s: string, name: string, v: string, rest: string)
    requires s == " " + name + "=\"" + v + "\"" + rest
    requires (forall i :: 0 <= i < |name| ==> NameChar(name[i])) && '"' !in v
    ensures var n := 1 + |name|;
      && n + 2 + |v| < |s| && s[0] == ' ' && s[n] == '=' && s[n + 1] == '"' && s[n + 2 + |v|] == '"'
      && (forall k :: 1 <= k < n ==> NameChar(s[k]))
      && (forall j :: n + 2 <= j < n + 2 + |v| ==> s[j] != '"')
      && s[1..n] == name && s[n + 2..n + 2 + |v|] == v && s[n + 3 + |v|..] == rest
  {
    var n := 1 + |name|;
    forall k | 1 <= k < n ensures NameChar(s[k]) {
      assert s[k] == name[k - 1];
    }
    forall j | n + 2 <= j < n + 2 + |v| ensures s[j] != '"' {
      assert s[j] == v[j - n - 2];
    }
  }

  /** The reader on a valued attribute: the name up to n, the q characters between the quotes. */
  lemma ReadAttributeValued(s: string, n: nat, q: nat)
    requires s != [] && s[0] == ' ' && NameEnd(s, 1) == n && n > 1 && n + 1 < |s| && s[n] == '=' && s[n + 1] == '"'
    requires FindChar(s[n + 2..], '"') == Some(q)
    ensures ReadAttribute(s) == Some(((s[1..n], Some(s[n + 2..n + 2 + q])), n + 3 + q))
  {
  }

  /** The formatting one `<font>` attribute yields, if any. */
  function FontFromAttribute(attr: Attribute, start: int, end: int, palette: map<string, Rgb>): (r: seq<Formatting>)
    ensures |r| <= 1
    ensures forall f :: f in r ==> f.IsFont() && f.start == start && f.end == end
    ensures attr.1 == None || attr.1 == Some("") ==> r == []
  {
    var (key, value) := attr;
    if value.None? || value.value == "" then []
    else
      var k := Lower(key);
      if k == "color" then
        match ColorFromString(value.value, palette)
        case Some(c) => [Color(start, end, c)]
        case None => []
      else if k == "face" then [FontFace(start, end, value.value)]
      else if k == "size" then
        match ParseInt(value.value)
        case Some(n) => [TextSize(start, end, n)]
        case None => []
      else []
  }

  /** `_font_from_attributes`: one formatting per usable attribute, in attribute order. */
  function FontFromAttributes(attrs: seq<Attribute>, start: int, end: int, palette: map<string, Rgb>): (r: seq<Formatting>)
    ensures |r| <= |attrs|
    ensures forall f :: f in r ==> f.IsFont() && f.start == start && f.end == end
  {
    if attrs == [] then []
    else FontFromAttribute(attrs[0], start, end, palette) + FontFromAttributes(attrs[1..], start, end, palette)
  }

  /** Attributes are read one after the other: the result for a + b is the result for a, then for b. */
  lemma {:induction false} FontFromAttributesAppend(a: seq<Attribute>, b: seq<Attribute>, start: int, end: int, palette: map<string, Rgb>)
    ensures FontFromAttributes(a + b, start, end, palette)
         == FontFromAttributes(a, start, end, palette) + FontFromAttributes(b, start, end, palette)
    decreases |a|
  {
    if a == [] {
      assert a + b == b;
    } else {
      assert (a + b)[1..] == a[1..] + b;
      FontFromAttributesAppend(a[1..], b, start, end, palette);
    }
  }

  /** A face attribute is kept whatever the case of its name. */
  lemma FaceAttributeKept(start: int, end: int, palette: map<string, Rgb>, face: string)
    requires face != []
    ensures FontFromAttribute(("FACE", Some(face)), start, end, palette) == [FontFace(start, end, face)]
  {
    assert Lower("FACE") == "face";
  }

  /** A decimal size attribute is kept as that size, with or without a sign. */
  lemma SizeAttributeKept(start: int, end: int, palette: map<string, Rgb>, size: int)
    ensures FontFromAttribute(("size", Some(IntToString(size))), start, end, palette) == [TextSize(start, end, size)]
    ensures size >= 0 ==>
      FontFromAttribute(("size", Some("+" + IntToString(size))), start, end, palette) == [TextSize(start, end, size)]
  {
    assert Lower("size") == "size";
    ParseIntOfIntToString(size);
    if size >= 0 {
      ParseIntOfPlus(NatToString(size));
    }
  }

  /** A colour attribute written as a colour's own hex is kept as that colour. */
  lemma ColorAttributeKept(start: int, end: int, palette: map<string, Rgb>, c: Rgb)
    ensures FontFromAttribute(("Color", Some(ToHex(c))), start, end, palette) == [Color(start, end, c)]
  {
    var v := ToHex(c);
    assert v != "";
    assert Lower("Color") == "color";
    ColorFromStringToHex(c, palette);
    assert ColorFromString(v, palette) == Some(c);
  }

  /** `_init_valid_formatting`: the formattings a closed tag yields. */
  function InitValidFormatting(tag: string, attrs: seq<Attribute>, start: int, end: int, palette: map<string, Rgb>): (r: seq<Formatting>)
    ensures forall f :: f in r ==> f.IsSpan() && f.start == start && f.end == end
    ensures tag !in ValidTags ==> r == []
    ensures tag in ValidTags && tag != "font" ==> |r| == 1 && r[0].IsPlainStyle() && TagName(r[0]) == tag
    ensures tag == "font" ==> r == FontFromAttributes(attrs, start, end, palette)
  {
    if tag == "font" then FontFromAttributes(attrs, start, end, palette)
    else if tag == "b" then [Bold(start, end)]
    else if tag == "i" then [Italic(start, end)]
    else if tag == "u" then [Underline(start, end)]
    else if tag == "s" then [Strikethrough(start, end)]
    else []
  }

  // ---------------------------------------------------------------- what close() computes

  /** The stack after `close`: recognised frames end at the final position. */
  function CloseFrames(stack: seq<TagSpan>, position: int): (r: seq<TagSpan>)
    ensures |r| == |stack|
    ensures forall i :: 0 <= i < |stack| ==>
      r[i] == if stack[i].tag in ValidTags then stack[i].(end := Some(position)) else stack[i]
  {
    seq(|stack|, i requires 0 <= i < |stack| =>
      if stack[i].tag in ValidTags then stack[i].(end := Some(position)) else stack[i])
  }

  /** The formattings of the closed frames, in frame order. */
  function CollectFormattings(spans: seq<TagSpan>, palette: map<string, Rgb>): (r: seq<Formatting>)
    ensures forall f :: f in r ==> f.IsSpan()
  {
    if spans == [] then []
    else
      var last := spans[|spans| - 1];
      CollectFormattings(spans[..|spans| - 1], palette)
      + (if last.end.Some? then InitValidFormatting(last.tag, last.attributes, last.start, last.end.value, palette) else [])
  }

  /** Formattings of frames within n lie within n. */
  lemma {:induction false} CollectFormattingsWithin(spans: seq<TagSpan>, palette: map<string, Rgb>, n: int)
    requires FramesWithin(spans, n)
    ensures forall f :: f in CollectFormattings(spans, palette) ==> 0 <= f.start <= f.end <= n
    decreases |spans|
  {
    if spans != [] {
      CollectFormattingsWithin(spans[..|spans| - 1], palette, n);
    }
  }

  /** `(start, start tag)` for every frame never closed. */
  function Unclosed(spans: seq<TagSpan>): (r: seq<Splicing.Insertion>)
    ensures |r| <= |spans|
  {
    if spans == [] then []
    else
      var last := spans[|spans| - 1];
      Unclosed(spans[..|spans| - 1])
      + (if last.end.None? then [Splicing.Insertion(last.start, 0, BuildStartTag(last.tag, last.attributes))] else [])
  }

  lemma {:induction false} UnclosedWithin(spans: seq<TagSpan>, n: nat)
    requires FramesWithin(spans, n)
    ensures Splicing.InRange(Unclosed(spans), 0, n)
    decreases |spans|
  {
    if spans != [] {
      UnclosedWithin(spans[..|spans| - 1], n);
    }
  }

  /** Tuples `(position, tag)` compare position first, then the tag string. */
  function TupleKey(t: Splicing.Insertion): seq<int> { [t.offset] + Sorting.CodePoints(t.tag) }

  /**
   * `sorted(invalid_tags, reverse=True)` visits this list from its end:
   * entries that compare equal are identical tuples, so the descending order
   * is the ascending one reversed.
   */
  function SortedUnclosed(spans: seq<TagSpan>): seq<Splicing.Insertion> {
    Sorting.StableSort(Unclosed(spans), TupleKey)
  }

  /** The tuple order compares offsets first. */
  lemma TupleKeyOffset(a: Splicing.Insertion, b: Splicing.Insertion)
    requires Sorting.LexLe(TupleKey(a), TupleKey(b))
    ensures a.offset <= b.offset
  {
    assert TupleKey(a)[0] == a.offset && TupleKey(b)[0] == b.offset;
  }

  lemma SortedUnclosedAscending(spans: seq<TagSpan>, n: nat)
    requires FramesWithin(spans, n)
    ensures Splicing.Ascending(SortedUnclosed(spans)) && Splicing.InRange(SortedUnclosed(spans), 0, n)
  {
    var t := SortedUnclosed(spans);
    Sorting.StableSortSorted(Unclosed(spans), TupleKey);
    forall i, j | 0 <= i < j < |t| ensures t[i].offset <= t[j].offset {
      TupleKeyOffset(t[i], t[j]);
    }
    UnclosedWithin(spans, n);
    forall i | 0 <= i < |t| ensures 0 <= t[i].offset <= n {
      assert t[i] in multiset(Unclosed(spans));
    }
  }

  /** How a splice of L characters at p moves one span. */
  function Shift(f: Formatting, p: int, L: nat): (g: Formatting)
    requires f.IsSpan()
    ensures g.IsSpan() && KindOf(g) == KindOf(f)
    ensures f.start >= p ==> g.start == f.start + L && g.end == f.end + L
    ensures f.start < p <= f.end ==> g.start == f.start && g.end == f.end + L
    ensures f.start < p && f.end < p ==> g == f
  {
    if f.start >= p then f.(start := f.start + L, end := f.end + L)
    else if f.end >= p then f.(end := f.end + L)
    else f
  }

  predicate AllSpans(fs: seq<Formatting>) { forall i :: 0 <= i < |fs| ==> fs[i].IsSpan() }

  function ShiftAll(fs: seq<Formatting>, p: int, L: nat): (r: seq<Formatting>)
    requires AllSpans(fs)
    ensures |r| == |fs| && AllSpans(r)
    ensures forall i :: 0 <= i < |fs| ==> r[i] == Shift(fs[i], p, L)
  {
    seq(|fs|, i requires 0 <= i < |fs| => Shift(fs[i], p, L))
  }

  /** The spans after the insertions of `tags`, processed from the last to the first. */
  function ShiftedBack(fs: seq<Formatting>, tags: seq<Splicing.Insertion>): (r: seq<Formatting>)
    requires AllSpans(fs)
    ensures |r| == |fs| && AllSpans(r)
  {
    if tags == [] then fs else ShiftAll(ShiftedBack(fs, tags[1..]), tags[0].offset, |tags[0].tag|)
  }

  /**
   * Splicing L characters at p <= n keeps every span inside the longer text:
   * a span within [0, n] is within [0, n + L] afterwards.
   */
  lemma ShiftKeepsWithin(f: Formatting, p: int, L: nat, n: int)
    requires f.IsSpan() && 0 <= f.start <= f.end <= n && p <= n
    ensures var g := Shift(f, p, L); 0 <= g.start <= g.end <= n + L
  {
  }

  // ---------------------------------------------------------------- the parser as a function of its events

  /** The parser's working state: the length of the text emitted so far, the text in pieces, the open frames, the frames done. */
  datatype Markup = Markup(position: int, textParts: seq<string>, stack: seq<TagSpan>, spans: seq<TagSpan>)

  /** The state after construction or `clear`. */
  const InitialMarkup := Markup(0, [], [], [])

  /** The position is the length of the text emitted so far, and every frame lies within it. */
  predicate MarkupValid(m: Markup) {
    m.position == |Join("", m.textParts)| && FramesWithin(m.stack, m.position) && FramesWithin(m.spans, m.position)
  }

  /**
   * One event handled: a start tag opens a frame at the position; an end tag
   * closes the topmost open frame of its name, or is written into the text
   * when there is none; data is written into the text.
   */
  function StepEvent(m: Markup, e: Event): Markup {
    match e
    case StartTag(name, attrs) => m.(stack := m.stack + [TagSpan(name, attrs, m.position, None)])
    case EndTag(name) =>
      (match TopmostFrame(m.stack, name)
       case Some(i) => m.(stack := m.stack[..i] + m.stack[i + 1..], spans := m.spans + [m.stack[i].(end := Some(m.position))])
       case None => m.(textParts := m.textParts + ["</" + name + ">"], position := m.position + |name| + 3))
    case Data(d) => m.(textParts := m.textParts + [d], position := m.position + |d|)
  }

  /** The events handled one after the other. */
  function AfterEvents(m: Markup, events: seq<Event>): Markup
    decreases |events|
  {
    if events == [] then m else StepEvent(AfterEvents(m, events[..|events| - 1]), events[|events| - 1])
  }

  /** Handling one event keeps the state valid. */
  lemma StepEventValid(m: Markup, e: Event)
    requires MarkupValid(m)
    ensures MarkupValid(StepEvent(m, e))
  {
    match e
    case StartTag(_, _) =>
    case EndTag(name) =>
      match TopmostFrame(m.stack, name) {
        case Some(i) =>
          var rest := m.stack[..i] + m.stack[i + 1..];
          forall j | 0 <= j < |rest| ensures rest[j] in m.stack {
            if j < i { assert rest[j] == m.stack[j]; } else { assert rest[j] == m.stack[j + 1]; }
          }
        case None =>
          JoinEmptySnoc(m.textParts, "</" + name + ">");
      }
    case Data(d) =>
      JoinEmptySnoc(m.textParts, d);
  }

  /** Handling events keeps the state valid, and the position never goes back. */
  lemma {:induction false} AfterEventsValid(m: Markup, events: seq<Event>)
    requires MarkupValid(m)
    ensures MarkupValid(AfterEvents(m, events)) && AfterEvents(m, events).position >= m.position
    decreases |events|
  {
    if events != [] {
      AfterEventsValid(m, events[..|events| - 1]);
      StepEventValid(AfterEvents(m, events[..|events| - 1]), events[|events| - 1]);
    }
  }

  /** The number of start tags among the events. */
  function StartTagCount(events: seq<Event>): nat {
    if events == [] then 0
    else StartTagCount(events[..|events| - 1]) + (if events[|events| - 1].StartTag? then 1 else 0)
  }

  /** Every start tag makes exactly one frame, open or done; nothing else makes one. */
  lemma {:induction false} FramesOfStartTags(m: Markup, events: seq<Event>)
    ensures var r := AfterEvents(m, events);
      |r.stack| + |r.spans| == |m.stack| + |m.spans| + StartTagCount(events)
    decreases |events|
  {
    if events != [] {
      FramesOfStartTags(m, events[..|events| - 1]);
    }
  }

  /** The data of the events, in order. */
  function DataText(events: seq<Event>): string {
    if events == [] then ""
    else DataText(events[..|events| - 1]) + (if events[|events| - 1].Data? then events[|events| - 1].data else "")
  }

  /** Each end tag closes an open frame: those frames of its name still open before it. */
  predicate EndTagsMatched(m: Markup, events: seq<Event>)
    decreases |events|
  {
    events == [] ||
      (EndTagsMatched(m, events[..|events| - 1]) &&
       (events[|events| - 1].EndTag? ==> TopmostFrame(AfterEvents(m, events[..|events| - 1]).stack, events[|events| - 1].name).Some?))
  }

  /** When every end tag closes a frame, the text emitted is exactly the data, in order. */
  lemma {:induction false} TextIsData(m: Markup, events: seq<Event>)
    requires EndTagsMatched(m, events)
    ensures Join("", AfterEvents(m, events).textParts) == Join("", m.textParts) + DataText(events)
    decreases |events|
  {
    if events != [] {
      var init := events[..|events| - 1];
      var prev := AfterEvents(m, init);
      TextIsData(m, init);
      match events[|events| - 1]
      case StartTag(_, _) =>
      case EndTag(_) =>
      case Data(d) =>
        JoinEmptySnoc(prev.textParts, d);
    }
  }

  /** A start tag, data and its end tag: one frame done, from where the data starts to where it ends. */
  lemma TagAroundData(m: Markup, tag: string, attrs: seq<Attribute>, d: string)
    ensures AfterEvents(m, [StartTag(tag, attrs), Data(d), EndTag(tag)]) ==
      Markup(m.position + |d|, m.textParts + [d], m.stack, m.spans + [TagSpan(tag, attrs, m.position, Some(m.position + |d|))])
  {
    var e1, e2, e3 := StartTag(tag, attrs), Data(d), EndTag(tag);
    var frame := TagSpan(tag, attrs, m.position, None);
    AfterEventsSnoc(m, [], e1);
    assert [] + [e1] == [e1];
    var m1 := AfterEvents(m, [e1]);
    assert m1 == m.(stack := m.stack + [frame]);
    AfterEventsSnoc(m, [e1], e2);
    assert [e1] + [e2] == [e1, e2];
    var m2 := AfterEvents(m, [e1, e2]);
    assert m2 == m1.(textParts := m.textParts + [d], position := m.position + |d|);
    AfterEventsSnoc(m, [e1, e2], e3);
    assert [e1, e2] + [e3] == [e1, e2, e3];
    assert TopmostFrame(m2.stack, tag) == Some(|m.stack|);
    assert m2.stack[..|m.stack|] + m2.stack[|m.stack| + 1..] == m.stack;
  }

  /** Handling one more event is one more step. */
  lemma AfterEventsSnoc(m: Markup, events: seq<Event>, e: Event)
    ensures AfterEvents(m, events + [e]) == StepEvent(AfterEvents(m, events), e)
  {
    assert (events + [e])[..|events|] == events;
  }

  /** The frames done once `close` has ended the open ones. */
  function ClosedSpans(m: Markup): seq<TagSpan> {
    m.spans + CloseFrames(m.stack, m.position)
  }

  /** Closing keeps every frame within the text. */
  lemma ClosedSpansWithin(m: Markup)
    requires MarkupValid(m)
    ensures FramesWithin(ClosedSpans(m), m.position)
  {
    var c := CloseFrames(m.stack, m.position);
    assert FramesWithin(c, m.position) by {
      forall i | 0 <= i < |c| ensures 0 <= c[i].start <= m.position && (c[i].end.Some? ==> c[i].start <= c[i].end.value <= m.position) {
        assert c[i].start == m.stack[i].start;
      }
    }
  }

  /** The text `close` leaves: the emitted text with the start tags of frames never closed spliced back in. */
  function ClosedText(m: Markup): string
    requires MarkupValid(m)
  {
    ClosedSpansWithin(m);
    SortedUnclosedAscending(ClosedSpans(m), m.position);
    Splicing.Interleave(Join("", m.textParts), SortedUnclosed(ClosedSpans(m)), 0)
  }

  /** The formattings `close` leaves: those of the closed frames, shifted past the spliced start tags. */
  function ClosedFormattings(m: Markup, palette: map<string, Rgb>): seq<Formatting> {
    var fs := CollectFormattings(ClosedSpans(m), palette);
    assert AllSpans(fs) by {
      forall i | 0 <= i < |fs| ensures fs[i].IsSpan() {
        assert fs[i] in fs;
      }
    }
    ShiftedBack(fs, SortedUnclosed(ClosedSpans(m)))
  }

  /** Spans only, each inside [0, n]. */
  predicate SpansUpTo(fs: seq<Formatting>, n: int) {
    forall i :: 0 <= i < |fs| ==> fs[i].IsSpan() && 0 <= fs[i].start <= fs[i].end <= n
  }

  /** Splices at offsets up to n move spans within n to spans within n plus the spliced length. */
  lemma {:induction false} ShiftedBackWithin(fs: seq<Formatting>, tags: seq<Splicing.Insertion>, n: int)
    requires SpansUpTo(fs, n)
    requires forall i :: 0 <= i < |tags| ==> tags[i].offset <= n
    ensures AllSpans(fs) && SpansUpTo(ShiftedBack(fs, tags), n + Splicing.TagLength(tags))
    decreases |tags|
  {
    if tags != [] {
      var r1 := ShiftedBack(fs, tags[1..]);
      var n1 := n + Splicing.TagLength(tags[1..]);
      ShiftedBackWithin(fs, tags[1..], n);
      var r := ShiftAll(r1, tags[0].offset, |tags[0].tag|);
      forall i | 0 <= i < |r| ensures r[i].IsSpan() && 0 <= r[i].start <= r[i].end <= n1 + |tags[0].tag| {
        ShiftKeepsWithin(r1[i], tags[0].offset, |tags[0].tag|, n1);
      }
    }
  }

  /**
   * What `close` leaves: every formatting is a span inside the text, and
   * deleting the spliced start tags gives the emitted text back.
   */
  lemma ClosedWithin(m: Markup, palette: map<string, Rgb>)
    requires MarkupValid(m)
    ensures SpansUpTo(ClosedFormattings(m, palette), |ClosedText(m)|)
    ensures var tags := SortedUnclosed(ClosedSpans(m));
      Splicing.Ascending(tags) && Splicing.InRange(tags, 0, |Join("", m.textParts)|) &&
      Join("", Splicing.Pieces(Join("", m.textParts), tags, 0)) == Join("", m.textParts)
  {
    var text := Join("", m.textParts);
    var tags := SortedUnclosed(ClosedSpans(m));
    ClosedSpansWithin(m);
    SortedUnclosedAscending(ClosedSpans(m), m.position);
    Splicing.InterleaveErasesToText(text, tags, 0);
    assert |ClosedText(m)| == m.position + Splicing.TagLength(tags);
    ClosedFormattingsWithin(m, palette);
  }

  /** The closed formattings lie within the emitted text and the spliced tags. */
  lemma ClosedFormattingsWithin(m: Markup, palette: map<string, Rgb>)
    requires MarkupValid(m)
    ensures SpansUpTo(ClosedFormattings(m, palette), m.position + Splicing.TagLength(SortedUnclosed(ClosedSpans(m))))
  {
    var spans := ClosedSpans(m);
    ClosedSpansWithin(m);
    SortedUnclosedAscending(spans, m.position);
    CollectFormattingsWithin(spans, palette, m.position);
    var fs := CollectFormattings(spans, palette);
    assert SpansUpTo(fs, m.position) by {
      forall i | 0 <= i < |fs| ensures fs[i].IsSpan() && 0 <= fs[i].start <= fs[i].end <= m.position {
        assert fs[i] in fs;
      }
    }
    ShiftedBackWithin(fs, SortedUnclosed(spans), m.position);
  }

  /** The text the markup parser leaves for these events from a fresh start. */
  function MarkupText(events: seq<Event>): string {
    AfterEventsValid(InitialMarkup, events);
    ClosedText(AfterEvents(InitialMarkup, events))
  }

  /** The formattings the markup parser leaves for these events from a fresh start. */
  function MarkupFormattings(events: seq<Event>, palette: map<string, Rgb>): seq<Formatting> {
    ClosedFormattings(AfterEvents(InitialMarkup, events), palette)
  }

  /** From a fresh start, the formattings are spans inside the text. */
  lemma MarkupWithin(events: seq<Event>, palette: map<string, Rgb>)
    ensures SpansUpTo(MarkupFormattings(events, palette), |MarkupText(events)|)
  {
    AfterEventsValid(InitialMarkup, events);
    ClosedWithin(AfterEvents(InitialMarkup, events), palette);
  }

  /** Data only: no frame is ever opened and the text is the data. */
  lemma {:induction false} DataOnlyState(events: seq<Event>)
    requires forall i :: 0 <= i < |events| ==> events[i].Data?
    ensures var m := AfterEvents(InitialMarkup, events);
      m.stack == [] && m.spans == [] && Join("", m.textParts) == DataText(events)
    decreases |events|
  {
    if events != [] {
      var init := events[..|events| - 1];
      DataOnlyState(init);
      JoinEmptySnoc(AfterEvents(InitialMarkup, init).textParts, events[|events| - 1].data);
    }
  }

  /** Text without markup comes out as it went in, with no formatting. */
  lemma DataOnlyMarkup(events: seq<Event>, palette: map<string, Rgb>)
    requires forall i :: 0 <= i < |events| ==> events[i].Data?
    ensures MarkupText(events) == DataText(events) && MarkupFormattings(events, palette) == []
  {
    DataOnlyState(events);
    var m := AfterEvents(InitialMarkup, events);
    assert ClosedSpans(m) == [];
    assert SortedUnclosed(ClosedSpans(m)) == [];
    assert Join("", m.textParts)[0..] == Join("", m.textParts);
  }

  /** `<b>`, data, `</b>` from the start: the text is the data, and one bold span covers all of it. */
  lemma BoldAroundData(d: string, palette: map<string, Rgb>)
    ensures var m := AfterEvents(InitialMarkup, [StartTag("b", []), Data(d), EndTag("b")]);
      MarkupValid(m) && ClosedText(m) == d && ClosedFormattings(m, palette) == [Bold(0, |d|)]
  {
    TagAroundData(InitialMarkup, "b", [], d);
    var m := AfterEvents(InitialMarkup, [StartTag("b", []), Data(d), EndTag("b")]);
    assert m == Markup(|d|, [d], [], [TagSpan("b", [], 0, Some(|d|))]);
    assert ClosedSpans(m) == [TagSpan("b", [], 0, Some(|d|))];
    assert Unclosed(ClosedSpans(m)) == [];
    assert CollectFormattings(ClosedSpans(m), palette) == [Bold(0, |d|)];
  }

  // ---------------------------------------------------------------- the parser

  class TagParser {
    var position: int
    var text: string
    var textParts: seq<string>
    var stack: seq<TagSpan>
    var spans: seq<TagSpan>
    var formattings: seq<Formatting>
    /** The named colours `Color.from_string` knows. */
    const palette: map<string, Rgb>

    /** `position` is the length of the text emitted so far; every frame lies within it. */
    ghost predicate Valid()
      reads this
    {
      position == |Join("", textParts)| && FramesWithin(stack, position) && FramesWithin(spans, position)
    }

    constructor (palette: map<string, Rgb>)
      ensures Valid() && this.palette == palette
      ensures position == 0 && text == "" && textParts == [] && stack == [] && spans == [] && formattings == []
    {
      this.palette := palette;
      position := 0;
      text := "";
      textParts := [];
      stack := [];
      spans := [];
      formattings := [];
    }

    /** `handle_starttag`: push an open frame at the current position; no text. */
    method HandleStartTag(tag: string, attrs: seq<Attribute>)
      requires Valid()
      modifies this
      ensures Valid()
      ensures stack == old(stack) + [TagSpan(tag, attrs, old(position), None)]
      ensures position == old(position) && textParts == old(textParts) && spans == old(spans)
      ensures text == old(text) && formattings == old(formattings)
    {
      stack := stack + [TagSpan(tag, attrs, position, None)];
    }

    /**
     * `handle_endtag`: close the topmost frame of that name, wherever it is on
     * the stack; with none, write the end tag into the text.
     */
    method HandleEndTag(tag: string)
      requires Valid()
      modifies this
      ensures Valid()
      ensures text == old(text) && formattings == old(formattings)
      ensures match TopmostFrame(old(stack), tag)
        case Some(i) =>
          && stack == old(stack)[..i] + old(stack)[i + 1..]
          && spans == old(spans) + [old(stack)[i].(end := Some(old(position)))]
          && position == old(position) && textParts == old(textParts)
        case None =>
          && stack == old(stack) && spans == old(spans)
          && textParts == old(textParts) + ["</" + tag + ">"]
          && position == old(position) + |tag| + 3
    {
      var i := |stack|;
      while i > 0
        invariant 0 <= i <= |stack|
        invariant forall j :: i <= j < |stack| ==> stack[j].tag != tag
        invariant stack == old(stack) && spans == old(spans) && position == old(position)
      {
        if stack[i - 1].tag == tag {
          var frame := stack[i - 1];
          stack := stack[..i - 1] + stack[i..];
          spans := spans + [frame.(end := Some(position))];
          return;
        }
        i := i - 1;
      }
      var tagText := "</" + tag + ">";
      JoinEmptySnoc(textParts, tagText);
      position := position + |tagText|;
      textParts := textParts + [tagText];
    }

    /** `handle_data`: append the text and advance the position by its length. */
    method HandleData(data: string)
      requires Valid()
      modifies this
      ensures Valid()
      ensures textParts == old(textParts) + [data] && position == old(position) + |data|
      ensures stack == old(stack) && spans == old(spans) && text == old(text) && formattings == old(formattings)
    {
      JoinEmptySnoc(textParts, data);
      textParts := textParts + [data];
      position := position + |data|;
    }

    /** The parser's working state as a value. */
    function Snapshot(): Markup
      reads this
    {
      Markup(position, textParts, stack, spans)
    }

    /** The tokenizer's events, dispatched in order (`feed`). */
    method Feed(events: seq<Event>)
      requires Valid()
      modifies this
      ensures Valid() && text == old(text) && formattings == old(formattings)
      ensures Snapshot() == AfterEvents(old(Snapshot()), events)
    {
      for k := 0 to |events|
        invariant Valid() && text == old(text) && formattings == old(formattings)
        invariant Snapshot() == AfterEvents(old(Snapshot()), events[..k])
      {
        assert events[..k + 1][..k] == events[..k];
        match events[k]
        case StartTag(name, attrs) => HandleStartTag(name, attrs);
        case EndTag(name) => HandleEndTag(name);
        case Data(data) => HandleData(data);
      }
      assert events[..|events|] == events;
    }

    /**
     * `close`: end the recognised open frames at the final position, build the
     * formattings of the closed frames, and splice the start tags of the
     * frames never closed back into the text, shifting the formattings.
     */
    method Close()
      requires Valid()
      modifies this
      ensures Valid() && position == old(position) && textParts == old(textParts)
      ensures stack == CloseFrames(old(stack), old(position))
      ensures spans == old(spans) + CloseFrames(old(stack), old(position))
      ensures Splicing.Ascending(SortedUnclosed(spans)) && Splicing.InRange(SortedUnclosed(spans), 0, position)
      ensures text == Splicing.Interleave(Join("", textParts), SortedUnclosed(spans), 0)
      ensures formattings == ShiftedBack(CollectFormattings(spans, palette), SortedUnclosed(spans))
      ensures forall i :: 0 <= i < |formattings| ==>
        formattings[i].IsSpan() && 0 <= formattings[i].start <= formattings[i].end <= |text|
      ensures MarkupValid(old(Snapshot()))
      ensures text == ClosedText(old(Snapshot())) && formattings == ClosedFormattings(old(Snapshot()), palette)
    {
      CloseOpenFrames();
      text := Join("", textParts);
      var invalid := CollectClosedFrames();
      SortedUnclosedAscending(spans, position);
      CollectFormattingsWithin(spans, palette, position);
      var sorted := Sorting.StableSort(invalid, TupleKey);
      SpliceUnclosed(sorted);
    }

    /** The first loop of `close`. */
    method CloseOpenFrames()
      requires Valid()
      modifies this
      ensures Valid() && position == old(position) && textParts == old(textParts)
      ensures stack == CloseFrames(old(stack), old(position))
      ensures spans == old(spans) + CloseFrames(old(stack), old(position))
    {
      var closed := CloseFrames(stack, position);
      for k := 0 to |stack|
        invariant |stack| == |closed| && position == old(position) && textParts == old(textParts)
        invariant forall i :: 0 <= i < k ==> stack[i] == closed[i]
        invariant forall i :: k <= i < |stack| ==> stack[i] == old(stack)[i]
        invariant spans == old(spans) + closed[..k]
        invariant FramesWithin(stack, position) && FramesWithin(spans, position)
      {
        var frame := stack[k];
        if frame.tag in ValidTags {
          frame := frame.(end := Some(position));
        }
        assert frame == closed[k];
        stack := stack[k := frame];
        spans := spans + [frame];
        assert closed[..k + 1] == closed[..k] + [frame];
      }
      assert closed[..|closed|] == closed;
    }

    /** The second loop of `close`: formattings of closed frames, start tags of the others. */
    method CollectClosedFrames() returns (invalid: seq<Splicing.Insertion>)
      requires Valid()
      modifies this
      ensures Valid()
      ensures position == old(position) && textParts == old(textParts) && text == old(text)
      ensures stack == old(stack) && spans == old(spans)
      ensures formattings == CollectFormattings(spans, palette) && invalid == Unclosed(spans)
    {
      formattings := [];
      invalid := [];
      for k := 0 to |spans|
        invariant spans == old(spans) && stack == old(stack) && text == old(text)
        invariant position == old(position) && textParts == old(textParts)
        invariant formattings == CollectFormattings(spans[..k], palette) && invalid == Unclosed(spans[..k])
      {
        var frame := spans[k];
        assert spans[..k + 1][..k] == spans[..k];
        if frame.end.None? {
          invalid := invalid + [Splicing.Insertion(frame.start, 0, BuildStartTag(frame.tag, frame.attributes))];
        } else {
          formattings := formattings + InitValidFormatting(frame.tag, frame.attributes, frame.start, frame.end.value, palette);
        }
      }
      assert spans[..|spans|] == spans;
    }

    /** The third loop of `close`: splice from the highest position down, shifting the spans. */
    method SpliceUnclosed(sorted: seq<Splicing.Insertion>)
      requires Splicing.Ascending(sorted) && Splicing.InRange(sorted, 0, |text|)
      requires forall i :: 0 <= i < |formattings| ==>
        formattings[i].IsSpan() && 0 <= formattings[i].start <= formattings[i].end <= |text|
      modifies this
      ensures text == Splicing.Interleave(old(text), sorted, 0)
      ensures AllSpans(old(formattings)) && formattings == ShiftedBack(old(formattings), sorted)
      ensures forall i :: 0 <= i < |formattings| ==>
        formattings[i].IsSpan() && 0 <= formattings[i].start <= formattings[i].end <= |text|
      ensures position == old(position) && textParts == old(textParts) && stack == old(stack) && spans == old(spans)
    {
      ghost var text0 := text;
      ghost var fs0 := formattings;
      var k := |sorted|;
      while k > 0
        invariant 0 <= k <= |sorted|
        invariant text == Splicing.Interleave(text0, sorted[k..], 0) && |text| >= |text0|
        invariant formattings == ShiftedBack(fs0, sorted[k..])
        invariant forall i :: 0 <= i < |formattings| ==>
          formattings[i].IsSpan() && 0 <= formattings[i].start <= formattings[i].end <= |text|
        invariant position == old(position) && textParts == old(textParts) && stack == old(stack) && spans == old(spans)
      {
        k := k - 1;
        var t := sorted[k];
        Splicing.InterleaveSplit(text0, sorted[k + 1..], 0, t.offset);
        assert sorted[k..][1..] == sorted[k + 1..];
        text := Splice(text, t.offset, t.tag);
        ShiftFormattings(t.offset, |t.tag|);
      }
    }

    /** `for formatting in self.formattings`: shift each span for a splice of L characters at p. */
    method ShiftFormattings(p: int, L: nat)
      requires 0 <= p && p + L <= |text| && AllSpans(formattings)
      requires forall i :: 0 <= i < |formattings| ==> 0 <= formattings[i].start <= formattings[i].end <= |text| - L
      modifies this
      ensures formattings == ShiftAll(old(formattings), p, L)
      ensures forall i :: 0 <= i < |formattings| ==>
        formattings[i].IsSpan() && 0 <= formattings[i].start <= formattings[i].end <= |text|
      ensures text == old(text) && position == old(position) && textParts == old(textParts)
      ensures stack == old(stack) && spans == old(spans)
    {
      for j := 0 to |formattings|
        invariant |formattings| == |old(formattings)| && text == old(text)
        invariant forall i :: 0 <= i < j ==> formattings[i] == Shift(old(formattings)[i], p, L)
        invariant forall i :: j <= i < |formattings| ==> formattings[i] == old(formattings)[i]
        invariant position == old(position) && textParts == old(textParts) && stack == old(stack) && spans == old(spans)
      {
        ShiftKeepsWithin(formattings[j], p, L, |text| - L);
        formattings := formattings[j := Shift(formattings[j], p, L)];
      }
      forall i | 0 <= i < |formattings|
        ensures 0 <= formattings[i].start <= formattings[i].end <= |text|
      {
        ShiftKeepsWithin(old(formattings)[i], p, L, |text| - L);
      }
    }

    /** `clear`: back to the initial state (the named colours stay). */
    method Clear()
      modifies this
      ensures Valid()
      ensures position == 0 && text == "" && textParts == [] && stack == [] && spans == [] && formattings == []
    {
      position := 0;
      text := "";
      textParts := [];
      stack := [];
      spans := [];
      formattings := [];
    }
  }

  /** The index of the topmost frame with that tag name. */
  function TopmostFrame(stack: seq<TagSpan>, tag: string): (r: Option<nat>)
    ensures r.Some? ==> r.value < |stack| && stack[r.value].tag == tag
    ensures r.Some? ==> forall j :: r.value < j < |stack| ==> stack[j].tag != tag
    ensures r.None? <==> forall j :: 0 <= j < |stack| ==> stack[j].tag != tag
    decreases |stack|
  {
    if stack == [] then None
    else if stack[|stack| - 1].tag == tag then Some(|stack| - 1)
    else TopmostFrame(stack[..|stack| - 1], tag)
  }
}
