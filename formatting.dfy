/**
 * The formatting vocabulary of a cue. Seven variants cover a range
 * `[start, end]` of character offsets (bold, italic, underline,
 * strikethrough, colour, font face, text size); two apply to the whole cue
 * (a position on the 3x3 grid, or an absolute rectangle).
 */
module Formattings {
  import opened Wrappers
  import opened PyStr

  // ---------------------------------------------------------------- the 3x3 grid

  datatype Classifier =
    | BottomLeft | BottomCenter | BottomRight
    | MiddleLeft | MiddleCenter | MiddleRight
    | TopLeft | TopCenter | TopRight

  /** The enum value of a classifier. */
  function ClassifierValue(c: Classifier): (v: int)
    ensures 1 <= v <= 9
  {
    match c
    case BottomLeft => 1
    case BottomCenter => 2
    case BottomRight => 3
    case MiddleLeft => 4
    case MiddleCenter => 5
    case MiddleRight => 6
    case TopLeft => 7
    case TopCenter => 8
    case TopRight => 9
  }

  /** `PositionClassifier(v)`: the member with value v, or None where Python raises ValueError. */
  function ClassifierOf(v: int): (r: Option<Classifier>)
    ensures r.Some? <==> 1 <= v <= 9
    ensures r.Some? ==> ClassifierValue(r.value) == v
  {
    if v == 1 then Some(BottomLeft)
    else if v == 2 then Some(BottomCenter)
    else if v == 3 then Some(BottomRight)
    else if v == 4 then Some(MiddleLeft)
    else if v == 5 then Some(MiddleCenter)
    else if v == 6 then Some(MiddleRight)
    else if v == 7 then Some(TopLeft)
    else if v == 8 then Some(TopCenter)
    else if v == 9 then Some(TopRight)
    else None
  }

  /** Every classifier is found again from its value, so the values are distinct. */
  lemma ClassifierOfValue(c: Classifier)
    ensures ClassifierOf(ClassifierValue(c)) == Some(c)
  {
  }

  /** The row of a classifier, from its name: 0 bottom, 1 middle, 2 top. */
  function Row(c: Classifier): int {
    if c in {BottomLeft, BottomCenter, BottomRight} then 0
    else if c in {MiddleLeft, MiddleCenter, MiddleRight} then 1
    else 2
  }

  /** The column of a classifier, from its name: 0 left, 1 center, 2 right. */
  function Column(c: Classifier): int {
    if c in {BottomLeft, MiddleLeft, TopLeft} then 0
    else if c in {BottomCenter, MiddleCenter, TopCenter} then 1
    else 2
  }

  /** Bottom row 1-3, middle row 4-6, top row 7-9, each left to right. */
  lemma ClassifierGrid(c: Classifier)
    ensures ClassifierValue(c) == 3 * Row(c) + Column(c) + 1
  {
  }

  // ---------------------------------------------------------------- spans

  /** A closed range of character offsets. */
  datatype Span = Span(start: int, end: int) {
    /** `encloses`: both ends inclusive. */
    predicate Encloses(i: int) { start <= i <= end }

    /** `overlaps`: the closed ranges meet. */
    predicate Overlaps(other: Span) { start <= other.end && other.start <= end }
  }

  /** Overlap is symmetric and, for non-empty ranges, means sharing an offset (touching counts). */
  lemma OverlapsIsSharedOffset(a: Span, b: Span)
    requires a.start <= a.end && b.start <= b.end
    ensures a.Overlaps(b) == b.Overlaps(a)
    ensures a.Overlaps(b) <==> exists i :: a.Encloses(i) && b.Encloses(i)
  {
    if a.Overlaps(b) {
      var i := if a.start >= b.start then a.start else b.start;
      assert a.Encloses(i) && b.Encloses(i);
    }
  }

  // ---------------------------------------------------------------- colours

  type byte = b: int | 0 <= b < 256

  /** A colour's channels, as the bytes the hex notations carry. */
  datatype Rgb = Rgb(r: byte, g: byte, b: byte)

  /** `to_hex`: `#rrggbb` in lower case. */
  function ToHex(c: Rgb): (s: string)
    ensures |s| == 7 && s[0] == '#'
  {
    "#" + Hex2(c.r) + Hex2(c.g) + Hex2(c.b)
  }

  /** `to_bgr_hex`: `$bbggrr` in lower case. */
  function ToBgrHex(c: Rgb): (s: string)
    ensures |s| == 7 && s[0] == '$'
  {
    "$" + Hex2(c.b) + Hex2(c.g) + Hex2(c.r)
  }

  /** `int(s[i:i+2], 16) for i in (0, 2, 4)`. */
  function HexPairs(s: string): Option<(byte, byte, byte)> {
    match (ParseHexByte(Slice(s, 0, 2)), ParseHexByte(Slice(s, 2, 4)), ParseHexByte(Slice(s, 4, 6)))
    case (Some(x), Some(y), Some(z)) => Some((x, y, z))
    case _ => None
  }

  /** `Color.from_hex`: every `#` removed, then pairs at 0, 2, 4 read as r, g, b. */
  function FromHex(s: string): (r: Result<Rgb>)
    ensures r.Err? ==> r.error == ValueError
  {
    match HexPairs(ReplaceAll(s, "#", ""))
    case Some((x, y, z)) => Ok(Rgb(x, y, z))
    case None => Err(ValueError)
  }

  /** `Color.from_bgr_hex`: every `$` removed, then pairs at 0, 2, 4 read as b, g, r. */
  function FromBgrHex(s: string): (r: Result<Rgb>)
    ensures r.Err? ==> r.error == ValueError
  {
    match HexPairs(ReplaceAll(s, "$", ""))
    case Some((x, y, z)) => Ok(Rgb(z, y, x))
    case None => Err(ValueError)
  }

  /** A one-character pattern that does not occur leaves the string as it is. */
  lemma {:induction false} ReplaceAbsentChar(s: string, c: char)
    requires c !in s
    ensures ReplaceAll(s, [c], "") == s
    decreases |s|
  {
    if |s| >= 1 {
      assert s[0] in s;
      assert s[..1] != [c] by { assert s[..1][0] == s[0]; }
      ReplaceAbsentChar(s[1..], c);
      assert s == [s[0]] + s[1..];
    }
  }

  lemma HexHasNoMarks(c: Rgb)
    ensures var d := Hex2(c.r) + Hex2(c.g) + Hex2(c.b); '#' !in d && '$' !in d && |d| == 6
    ensures var d := Hex2(c.b) + Hex2(c.g) + Hex2(c.r); '#' !in d && '$' !in d && |d| == 6
  {
  }

  lemma HexPairsOfHex2(x: byte, y: byte, z: byte)
    ensures HexPairs(Hex2(x) + Hex2(y) + Hex2(z)) == Some((x, y, z))
  {
    var d := Hex2(x) + Hex2(y) + Hex2(z);
    assert Slice(d, 0, 2) == Hex2(x);
    assert Slice(d, 2, 4) == Hex2(y);
    assert Slice(d, 4, 6) == Hex2(z);
  }

  /** `from_hex(to_hex(c)) == c`. */
  lemma FromHexToHex(c: Rgb)
    ensures FromHex(ToHex(c)) == Ok(c)
  {
    var d := Hex2(c.r) + Hex2(c.g) + Hex2(c.b);
    HexHasNoMarks(c);
    ReplaceAbsentChar(d, '#');
    assert ToHex(c) == ['#'] + d;
    assert ReplaceAll(ToHex(c), "#", "") == ReplaceAll(d, "#", "");
    HexPairsOfHex2(c.r, c.g, c.b);
  }

  /** `from_bgr_hex(to_bgr_hex(c)) == c`. */
  lemma FromBgrHexToBgrHex(c: Rgb)
    ensures FromBgrHex(ToBgrHex(c)) == Ok(c)
  {
    var d := Hex2(c.b) + Hex2(c.g) + Hex2(c.r);
    HexHasNoMarks(c);
    ReplaceAbsentChar(d, '$');
    assert ToBgrHex(c) == ['$'] + d;
    assert ReplaceAll(ToBgrHex(c), "$", "") == ReplaceAll(d, "$", "");
    HexPairsOfHex2(c.b, c.g, c.r);
  }

  /** On digits without marks, the BGR reading is the RGB reading with r and b exchanged. */
  lemma BgrIsSwappedRgb(s: string)
    requires '#' !in s && '$' !in s
    ensures FromHex(s).Ok? <==> FromBgrHex(s).Ok?
    ensures FromHex(s).Ok? ==>
      var c := FromHex(s).value; FromBgrHex(s).value == Rgb(c.b, c.g, c.r)
  {
    ReplaceAbsentChar(s, '#');
    ReplaceAbsentChar(s, '$');
  }

  /**
   * `Color.from_string`: stripped and lower-cased, read as hex, else looked up
   * among the named colours; None when both fail.
   */
  function ColorFromString(s: string, palette: map<string, Rgb>): (r: Option<Rgb>)
    ensures r.None? <==> FromHex(Lower(Strip(s))).Err? && Lower(Strip(s)) !in palette
  {
    var t := Lower(Strip(s));
    match FromHex(t)
    case Ok(c) => Some(c)
    case Err(_) => if t in palette then Some(palette[t]) else None
  }

  /** Whatever the named colours, a colour's own `to_hex` text reads back as that colour. */
  lemma ColorFromStringToHex(c: Rgb, palette: map<string, Rgb>)
    ensures ColorFromString(ToHex(c), palette) == Some(c)
  {
    var h := ToHex(c);
    assert !IsSpace(h[0]) && !IsSpace(h[|h| - 1]);
    StripNoSpaceEnds(h);
    assert Lower(h) == h;
    FromHexToHex(c);
  }

  // ---------------------------------------------------------------- formattings

  datatype Formatting =
    | Bold(start: int, end: int)
    | Italic(start: int, end: int)
    | Underline(start: int, end: int)
    | Strikethrough(start: int, end: int)
    | Color(start: int, end: int, color: Rgb)
    | FontFace(start: int, end: int, face: string)
    | TextSize(start: int, end: int, size: int)
    | RelativePosition(classifier: Classifier)
    | AbsolutePosition(x1: int, x2: int, y1: int, y2: int)
  {
    /** The variants that are also a `Span` (`HTMLTag` subclasses). */
    predicate IsSpan() { !RelativePosition? && !AbsolutePosition? }

    predicate IsPlainStyle() { Bold? || Italic? || Underline? || Strikethrough? }

    predicate IsFont() { Color? || FontFace? || TextSize? }

    function AsSpan(): Span
      requires IsSpan()
    {
      Span(start, end)
    }
  }

  /** The class of a formatting, as `type(f)` and `isinstance` see it. */
  datatype Kind =
    | BoldKind | ItalicKind | UnderlineKind | StrikethroughKind
    | ColorKind | FontFaceKind | TextSizeKind
    | RelativePositionKind | AbsolutePositionKind

  function KindOf(f: Formatting): Kind {
    match f
    case Bold(_, _) => BoldKind
    case Italic(_, _) => ItalicKind
    case Underline(_, _) => UnderlineKind
    case Strikethrough(_, _) => StrikethroughKind
    case Color(_, _, _) => ColorKind
    case FontFace(_, _, _) => FontFaceKind
    case TextSize(_, _, _) => TextSizeKind
    case RelativePosition(_) => RelativePositionKind
    case AbsolutePosition(_, _, _, _) => AbsolutePositionKind
  }

  /** The element name a span variant is written with. */
  function TagName(f: Formatting): string
    requires f.IsSpan()
  {
    match f
    case Bold(_, _) => "b"
    case Italic(_, _) => "i"
    case Underline(_, _) => "u"
    case Strikethrough(_, _) => "s"
    case _ => "font"
  }

  /** `get_attributes`. */
  function Attributes(f: Formatting): (a: string)
    requires f.IsSpan()
    ensures a == "" <==> f.IsPlainStyle()
  {
    match f
    case Color(_, _, c) => "color=\"" + ToHex(c) + "\""
    case FontFace(_, _, face) => "face=\"" + face + "\""
    case TextSize(_, _, size) => "size=" + IntToString(size)
    case _ => ""
  }

  /** `get_html_tag(position)`: ValueError for a position other than "start" and "end". */
  function HtmlTag(f: Formatting, position: string): (r: Result<string>)
    requires f.IsSpan()
    ensures r.Err? <==> position != "start" && position != "end"
    ensures r.Err? ==> r.error == ValueError
  {
    if position == "start" then
      Ok(match f
         case Bold(_, _) => "<b>"
         case Italic(_, _) => "<i>"
         case Underline(_, _) => "<u>"
         case Strikethrough(_, _) => "<s>"
         case Color(_, _, c) => "<font color=\"" + ToHex(c) + "\">"
         case FontFace(_, _, face) => "<font face=\"" + face + "\">"
         case TextSize(_, _, size) => "<font size=" + IntToString(size) + ">"
         case _ => "")
    else if position == "end" then
      Ok(match f
         case Bold(_, _) => "</b>"
         case Italic(_, _) => "</i>"
         case Underline(_, _) => "</u>"
         case Strikethrough(_, _) => "</s>"
         case _ => "</font>")
    else Err(ValueError)
  }

  /**
   * The tags and the attribute text agree: the opening tag is the element
   * name followed by the attributes when there are any, and the closing tag
   * names the same element.
   */
  lemma HtmlTagIsNameAndAttributes(f: Formatting)
    requires f.IsSpan()
    ensures HtmlTag(f, "start") ==
      Ok("<" + TagName(f) + (if Attributes(f) == "" then "" else " " + Attributes(f)) + ">")
    ensures HtmlTag(f, "end") == Ok("</" + TagName(f) + ">")
  {
    StartTagIsNameAndAttributes(f);
    EndTagIsName(f);
  }

  lemma StartTagIsNameAndAttributes(f: Formatting)
    requires f.IsSpan()
    ensures HtmlTag(f, "start") ==
      Ok("<" + TagName(f) + (if Attributes(f) == "" then "" else " " + Attributes(f)) + ">")
  {
    if f.IsPlainStyle() {
      PlainStartTag(f);
      assert "<" + TagName(f) + "" + ">" == "<" + TagName(f) + ">";
    } else {
      var a := Attributes(f);
      assert TagName(f) == "font" && a != "";
      FontStartTag(f);
      assert "<font " + a + ">" == "<" + "font" + (" " + a) + ">";
    }
  }

  lemma PlainStartTag(f: Formatting)
    requires f.IsPlainStyle()
    ensures HtmlTag(f, "start") == Ok("<" + TagName(f) + ">")
  {
    match f
    case Bold(_, _) => assert "<b>" == "<" + "b" + ">";
    case Italic(_, _) => assert "<i>" == "<" + "i" + ">";
    case Underline(_, _) => assert "<u>" == "<" + "u" + ">";
    case Strikethrough(_, _) => assert "<s>" == "<" + "s" + ">";
  }

  lemma FontStartTag(f: Formatting)
    requires f.IsFont()
    ensures HtmlTag(f, "start") == Ok("<font " + Attributes(f) + ">")
  {
    match f
    case Color(_, _, c) =>
      assert "<font color=\"" + ToHex(c) + "\">" == "<font " + ("color=\"" + ToHex(c) + "\"") + ">";
    case FontFace(_, _, face) =>
      assert "<font face=\"" + face + "\">" == "<font " + ("face=\"" + face + "\"") + ">";
    case TextSize(_, _, size) =>
      assert "<font size=" + IntToString(size) + ">" == "<font " + ("size=" + IntToString(size)) + ">";
  }

  lemma EndTagIsName(f: Formatting)
    requires f.IsSpan()
    ensures HtmlTag(f, "end") == Ok("</" + TagName(f) + ">")
  {
    var t := HtmlTag(f, "end").value;
    match f
    case Bold(_, _) => assert t == "</b>" == "</" + "b" + ">";
    case Italic(_, _) => assert t == "</i>" == "</" + "i" + ">";
    case Underline(_, _) => assert t == "</u>" == "</" + "u" + ">";
    case Strikethrough(_, _) => assert t == "</s>" == "</" + "s" + ">";
    case Color(_, _, _) => assert TagName(f) == "font"; assert t == "</font>" == "</" + "font" + ">";
    case FontFace(_, _, _) => assert TagName(f) == "font"; assert t == "</font>" == "</" + "font" + ">";
    case TextSize(_, _, _) => assert TagName(f) == "font"; assert t == "</font>" == "</" + "font" + ">";
  }

  // ---------------------------------------------------------------- equality

  /** A dataclass field value. */
  datatype FieldValue = IntField(i: int) | TextField(s: string) | RgbField(c: Rgb) | ClassifierField(k: Classifier)

  /**
   * The fields a dataclass compares, in declaration order: a span's inherited
   * `start` and `end` come first, then the one field a font tag adds.
   */
  function Fields(f: Formatting): (v: seq<FieldValue>)
    ensures |v| >= 1
    ensures f.IsSpan() ==> |v| >= 2 && v[..2] == [IntField(f.start), IntField(f.end)]
    ensures f.IsPlainStyle() ==> |v| == 2
    ensures f.IsFont() ==> |v| == 3
  {
    match f
    case Bold(s, e) => [IntField(s), IntField(e)]
    case Italic(s, e) => [IntField(s), IntField(e)]
    case Underline(s, e) => [IntField(s), IntField(e)]
    case Strikethrough(s, e) => [IntField(s), IntField(e)]
    case Color(s, e, c) => [IntField(s), IntField(e), RgbField(c)]
    case FontFace(s, e, face) => [IntField(s), IntField(e), TextField(face)]
    case TextSize(s, e, size) => [IntField(s), IntField(e), IntField(size)]
    case RelativePosition(k) => [ClassifierField(k)]
    case AbsolutePosition(x1, x2, y1, y2) => [IntField(x1), IntField(x2), IntField(y1), IntField(y2)]
  }

  /**
   * The `__eq__` the dataclass decorator generates: same class and equal field
   * tuples. It is the one in force for positions as well, since each position
   * variant is itself a dataclass and its generated method shadows the
   * catch-all on the common base class.
   */
  predicate DataclassEq(a: Formatting, b: Formatting) {
    KindOf(a) == KindOf(b) && Fields(a) == Fields(b)
  }

  /** Two formattings are equal exactly when they are the same variant with equal fields. */
  lemma DataclassEqIsEquality(a: Formatting, b: Formatting)
    ensures DataclassEq(a, b) <==> a == b
  {
    if DataclassEq(a, b) {
      var fa, fb := Fields(a), Fields(b);
      assert fa[0] == fb[0];
      if a.IsSpan() {
        assert fa[1] == fb[1];
      }
      if a.IsFont() || a.AbsolutePosition? {
        assert fa[2] == fb[2];
      }
      if a.AbsolutePosition? {
        assert fa[1] == fb[1] && fa[3] == fb[3];
      }
    }
  }
}
