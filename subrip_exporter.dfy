/**
 * The SubRip writer (`SubRipExporter`): the cues sorted by start, each
 * written as its number, its time line `HH:MM:SS,mmm --> HH:MM:SS,mmm`
 * (with the first absolute position appended), its content line and an
 * empty line. In the content line the font formattings that share a range
 * become one `<font ...>` element; bold, italic, underline and strikethrough
 * are skipped; the first relative position becomes a `{\anN}` prefix.
 */
module SubRipExport {
  import opened Wrappers
  import opened PyStr
  import opened Times
  import opened Formattings
  import opened Subtitles
  import Sorting
  import opened Splicing
  import SubRipParsing

  // ---------------------------------------------------------------- timestamps

  /** The text of the parts of a time: zero-padded to 2, 2, 2 and 3 digits. */
  function Clock(h: HumanTime): string {
    ZeroPad(h.hours, 2) + ":" + ZeroPad(h.minutes, 2) + ":" + ZeroPad(h.seconds, 2) + "," + ZeroPad(h.milliseconds, 3)
  }

  /** `_time_to_string`: the parts of `human_time`, written out. */
  function TimeToString(t: Time): string {
    Clock(ToHumanTime(t))
  }

  /** Parts the reader can read back: the hours any number, the minutes and seconds not negative, the milliseconds in [0, 1000). */
  predicate ClockReadable(h: HumanTime) {
    h.minutes >= 0 && h.seconds >= 0 && 0 <= h.milliseconds < 1000
  }

  /** Every time has readable parts; a negative one has negative hours. */
  lemma TimeReadable(t: Time)
    ensures ClockReadable(ToHumanTime(t))
    ensures t.milliseconds < 0 <==> ToHumanTime(t).hours < 0
  {
  }

  /** A number below 1000 has at most three digits. */
  lemma ShortNumber(n: nat)
    requires n < 1000
    ensures |NatToString(n)| <= 3
  {
    if n >= 10 {
      assert |NatToString(n)| == |NatToString(n / 10)| + 1;
      if n / 10 >= 10 {
        assert |NatToString(n / 10)| == |NatToString(n / 10 / 10)| + 1;
        assert n / 10 / 10 < 10;
      }
    }
  }

  /** Digits, colons, commas and the sign of the hours only. */
  predicate TimestampChar(c: char) { IsDigit(c) || c == ':' || c == ',' || c == '-' }

  /** The fields of a readable clock: the hours integer text, then digit strings around ':' and ',', the milliseconds exactly three. */
  lemma ClockFields(h: HumanTime)
    requires ClockReadable(h)
    ensures var hh, mm, ss, ms := ZeroPad(h.hours, 2), ZeroPad(h.minutes, 2), ZeroPad(h.seconds, 2), ZeroPad(h.milliseconds, 3);
      && IntText(hh) && ParseInt(hh) == Some(h.hours)
      && mm != [] && AllDigits(mm) && DigitsValue(mm) == h.minutes
      && ss != [] && AllDigits(ss) && DigitsValue(ss) == h.seconds
      && ms != [] && AllDigits(ms) && DigitsValue(ms) == h.milliseconds && |ms| == 3
  {
    ZeroPadIntText(h.hours, 2);
    ParseZeroPad(h.minutes, 2);
    ParseZeroPad(h.seconds, 2);
    ParseZeroPad(h.milliseconds, 3);
    ShortNumber(h.milliseconds);
  }

  /** A readable clock is made of digits, ':' and ',', with at most a '-' in front of a digit. */
  lemma ClockChars(h: HumanTime)
    requires ClockReadable(h)
    ensures Clock(h) != [] && forall i :: 0 <= i < |Clock(h)| ==> TimestampChar(Clock(h)[i])
    ensures forall i :: 0 < i < |Clock(h)| ==> Clock(h)[i] != '-'
    ensures Clock(h)[0] == '-' ==> |Clock(h)| > 1 && IsDigit(Clock(h)[1])
    ensures Word(Clock(h)) && NoLower(Clock(h))
  {
    ClockFields(h);
    FieldsChars(ZeroPad(h.hours, 2), ZeroPad(h.minutes, 2), ZeroPad(h.seconds, 2), ZeroPad(h.milliseconds, 3));
  }

  lemma FieldsChars(hh: string, mm: string, ss: string, ms: string)
    requires IntText(hh) && AllDigits(mm) && AllDigits(ss) && AllDigits(ms)
    ensures var t := hh + ":" + mm + ":" + ss + "," + ms;
      && (forall i :: 0 <= i < |t| ==> TimestampChar(t[i]) && (i > 0 ==> t[i] != '-'))
      && (t[0] == '-' ==> IsDigit(t[1]))
      && Word(t) && NoLower(t)
  {
    var t := hh + ":" + mm + ":" + ss + "," + ms;
    if hh[0] == '-' { assert t[1] == hh[1]; }
    forall i | 0 <= i < |t| ensures TimestampChar(t[i]) && (i > 0 ==> t[i] != '-') {
      var a := |hh| + 1 + |mm| + 1 + |ss| + 1;
      if i < |hh| { assert t[i] == hh[i]; }
      else if i == |hh| { }
      else if i < |hh| + 1 + |mm| { assert t[i] == mm[i - |hh| - 1]; }
      else if i == |hh| + 1 + |mm| { }
      else if i < a - 1 { assert t[i] == ss[i - |hh| - 2 - |mm|]; }
      else if i == a - 1 { }
      else { assert t[i] == ms[i - a]; }
    }
  }

  /**
   * The SubRip reader reads a readable clock back, negative hours included,
   * after any leading whitespace and before anything at all: only the first
   * three millisecond digits count.
   */
  lemma ClockReadBack(h: HumanTime, sp: string, tail: string)
    requires ClockReadable(h)
    requires forall i :: 0 <= i < |sp| ==> IsSpace(sp[i])
    ensures SubRipParsing.ParseTimestamp(sp + Clock(h) + tail) == Ok(FromHumanTime(h.milliseconds, h.seconds, h.minutes, h.hours))
  {
    var hh, mm, ss, ms := ZeroPad(h.hours, 2), ZeroPad(h.minutes, 2), ZeroPad(h.seconds, 2), ZeroPad(h.milliseconds, 3);
    var text := sp + Clock(h) + tail;
    assert SubRipParsing.TimestampFields(text) == Some((sp + hh, mm, ss, ms + tail)) by {
      ClockFields(h);
      SpacedDigitsHaveNo(sp, hh, ':');
      SpacedDigitsHaveNo([], mm, ':');
      SpacedDigitsHaveNo([], ss, ',');
      assert [] + mm == mm && [] + ss == ss;
      FieldsOfTimestamp(sp + hh, mm, ss, ms, tail);
      Regroup(sp, hh, mm, ss, ms, tail);
    }
    assert ParseInt(sp + hh) == Some(h.hours) && ParseInt(mm) == Some(h.minutes) && ParseInt(ss) == Some(h.seconds) by {
      ClockFields(h);
      ParseIntAfterSpaces(sp, hh);
      ParseZeroPad(h.minutes, 2);
      ParseIntOfDigits(mm);
      ParseIntOfDigits(ss);
    }
    assert ParseInt(SubRipParsing.FirstThree(ms + tail)) == Some(h.milliseconds) by {
      ClockFields(h);
      assert (ms + tail)[..3] == ms;
      ParseIntOfDigits(ms);
    }
    ParseTimestampOfFields(text, sp + hh, mm, ss, ms + tail, h);
  }

  /** A timestamp whose four fields read as the parts of a time. */
  lemma ParseTimestampOfFields(text: string, a: string, b: string, c: string, d: string, h: HumanTime)
    requires SubRipParsing.TimestampFields(text) == Some((a, b, c, d))
    requires ParseInt(a) == Some(h.hours) && ParseInt(b) == Some(h.minutes) && ParseInt(c) == Some(h.seconds)
    requires ParseInt(SubRipParsing.FirstThree(d)) == Some(h.milliseconds)
    ensures SubRipParsing.ParseTimestamp(text) == Ok(FromHumanTime(h.milliseconds, h.seconds, h.minutes, h.hours))
  {
  }

  /** The SubRip reader reads every written time back, a negative one included. */
  lemma TimestampReadBack(t: Time, sp: string, tail: string)
    requires forall i :: 0 <= i < |sp| ==> IsSpace(sp[i])
    ensures SubRipParsing.ParseTimestamp(sp + TimeToString(t) + tail) == Ok(t)
  {
    TimeReadable(t);
    ClockReadBack(ToHumanTime(t), sp, tail);
    FromHumanTimeOfParts(t);
  }

  /** Whitespace then integer text holds no ':' nor ','. */
  lemma SpacedDigitsHaveNo(sp: string, d: string, c: char)
    requires forall i :: 0 <= i < |sp| ==> IsSpace(sp[i])
    requires (AllDigits(d) || IntText(d)) && (c == ':' || c == ',')
    ensures forall j :: 0 <= j < |sp + d| ==> (sp + d)[j] != c
  {
    forall j | 0 <= j < |sp + d| ensures (sp + d)[j] != c {
      if j < |sp| { assert IsSpace(sp[j]); }
      else if j > |sp| || AllDigits(d) { assert IsDigit(d[j - |sp|]); }
    }
  }

  /** The four fields the reader finds in `h:m:s,rest`. */
  lemma FieldsOfTimestamp(h: string, m: string, s: string, ms: string, tail: string)
    requires forall j :: 0 <= j < |h| ==> h[j] != ':'
    requires forall j :: 0 <= j < |m| ==> m[j] != ':'
    requires forall j :: 0 <= j < |s| ==> s[j] != ','
    ensures SubRipParsing.TimestampFields(h + ":" + m + ":" + s + "," + (ms + tail)) == Some((h, m, s, ms + tail))
  {
    SubRipParsing.TimestampFieldsOf(h, m, s, ',', ms + tail);
  }

  /** The timestamp text regrouped around its fields. */
  lemma Regroup(sp: string, hh: string, mm: string, ss: string, ms: string, tail: string)
    ensures sp + (hh + ":" + mm + ":" + ss + "," + ms) + tail == (sp + hh) + ":" + mm + ":" + ss + "," + (ms + tail)
  {
  }

  // ---------------------------------------------------------------- the time line

  /** The token `L:ddd` of one coordinate, zero-padded to three digits. */
  function CoordinateWord(name: string, v: int): string {
    name + ":" + ZeroPad(v, 3)
  }

  /** The `  X1:xxx X2:xxx Y1:xxx Y2:xxx` suffix. */
  function PositionSuffix(p: Formatting): string
    requires p.AbsolutePosition?
  {
    "  " + CoordinateWord("X1", p.x1) + " " + CoordinateWord("X2", p.x2) + " " + CoordinateWord("Y1", p.y1) + " " + CoordinateWord("Y2", p.y2)
  }

  /** `_construct_time_line`: both times around " --> ", then the suffix of the first absolute position, if any. */
  function TimeLine(c: Cue): string {
    TimeToString(c.start) + " --> " + TimeToString(c.end) + PositionSuffixOf(c.formattings)
  }

  /** The suffix of the first absolute position, or nothing. */
  function PositionSuffixOf(fs: seq<Formatting>): string {
    match FormattingOfKind(fs, AbsolutePositionKind)
    case Some(p) => PositionSuffix(p)
    case None => ""
  }

  /** The four coordinate names. */
  predicate CoordinateName(name: string) { name in {"X1", "X2", "Y1", "Y2"} }

  lemma CoordinateNameChars(name: string)
    requires CoordinateName(name)
    ensures |name| == 2 && forall j :: 0 <= j < |name| ==> name[j] != ':' && !IsSpace(name[j]) && !('a' <= name[j] <= 'z')
  {
    if name == "X1" {
    } else if name == "X2" {
    } else if name == "Y1" {
    } else {
      assert name == "Y2";
    }
  }

  /** A coordinate token `L:ddd` is read into its name's place. */
  lemma CoordinateReadBack(c: SubRipParsing.Coordinates, name: string, v: int)
    requires CoordinateName(name)
    ensures SubRipParsing.ReadCoordinate(c, CoordinateWord(name, v)) ==
      Ok(if name == "X1" then c.(x1 := Some(v))
         else if name == "X2" then c.(x2 := Some(v))
         else if name == "Y1" then c.(y1 := Some(v))
         else c.(y2 := Some(v)))
  {
    var d := ZeroPad(v, 3);
    ZeroPadIntText(v, 3);
    CoordinateNameChars(name);
    SplitOnceAt(name, ":", d);
  }

  /** A coordinate token holds no whitespace and no lower-case letter. */
  lemma CoordinateWordChars(name: string, v: int)
    requires CoordinateName(name)
    ensures var w := CoordinateWord(name, v);
      w != [] && (forall i :: 0 <= i < |w| ==> !IsSpace(w[i]) && !('a' <= w[i] <= 'z')) && Word(w) && NoLower(w)
  {
    ZeroPadIsIntText(v, 3);
    NameAndDigits(name, ZeroPad(v, 3));
  }

  lemma NameAndDigits(name: string, d: string)
    requires CoordinateName(name) && IntText(d)
    ensures var w := name + ":" + d;
      w != [] && (forall i :: 0 <= i < |w| ==> !IsSpace(w[i]) && !('a' <= w[i] <= 'z')) && Word(w) && NoLower(w)
  {
    CoordinateNameChars(name);
    var w := name + ":" + d;
    forall i | 0 <= i < |w| ensures !IsSpace(w[i]) && !('a' <= w[i] <= 'z') {
      if i > |name| + 1 { assert IsDigit(d[i - |name| - 1]); }
    }
  }

  /** The end time's own token is no coordinate and is passed over. */
  lemma ClockTokenSkipped(c: SubRipParsing.Coordinates, h: HumanTime)
    requires ClockReadable(h)
    ensures SubRipParsing.ReadCoordinate(c, Clock(h)) == Ok(c)
  {
    var hh, mm, ss, ms := ZeroPad(h.hours, 2), ZeroPad(h.minutes, 2), ZeroPad(h.seconds, 2), ZeroPad(h.milliseconds, 3);
    HoursDigitKey(h);
    RegroupFirst(hh, mm, ss, ms);
    DigitKeySkipped(c, hh, mm + ":" + ss + "," + ms);
  }

  /** The padded hours of a readable clock start with a digit or '-' and hold no ':'. */
  lemma HoursDigitKey(h: HumanTime)
    requires ClockReadable(h)
    ensures var hh := ZeroPad(h.hours, 2); hh != [] && (IsDigit(hh[0]) || hh[0] == '-') && forall j :: 0 <= j < |hh| ==> hh[j] != ':'
  {
    var hh := ZeroPad(h.hours, 2);
    ClockFields(h);
    SpacedDigitsHaveNo([], hh, ':');
    assert [] + hh == hh;
  }

  /** The clock text regrouped around its first ':'. */
  lemma RegroupFirst(hh: string, mm: string, ss: string, ms: string)
    ensures hh + ":" + mm + ":" + ss + "," + ms == hh + ":" + (mm + ":" + ss + "," + ms)
  {
  }

  /** A token whose part before the first ':' starts with a digit or a '-' names no coordinate. */
  lemma DigitKeySkipped(c: SubRipParsing.Coordinates, key: string, rest: string)
    requires key != [] && (IsDigit(key[0]) || key[0] == '-') && forall j :: 0 <= j < |key| ==> key[j] != ':'
    ensures SubRipParsing.ReadCoordinate(c, key + ":" + rest) == Ok(c)
  {
    SplitOnceAt(key, ":", rest);
    assert key !in {"X1", "X2", "Y1", "Y2"};
  }

  /** Words without whitespace, separated by whitespace. */
  predicate Word(w: string) { w != [] && forall i :: 0 <= i < |w| ==> !IsSpace(w[i]) }

  /** The suffix regrouped word by word. */
  lemma RegroupSuffix(w0: string, w1: string, w2: string, w3: string, w4: string)
    ensures " " + w0 + ("  " + w1 + " " + w2 + " " + w3 + " " + w4)
      == " " + w0 + ("  " + w1 + (" " + w2 + (" " + w3 + (" " + w4 + ""))))
  {
  }

  /** The tokens of the end half: the end time, then the four coordinates. */
  lemma PositionTokens(w0: string, w1: string, w2: string, w3: string, w4: string)
    requires Word(w0) && Word(w1) && Word(w2) && Word(w3) && Word(w4)
    ensures SplitWhitespace(" " + w0 + ("  " + w1 + " " + w2 + " " + w3 + " " + w4)) == [w0, w1, w2, w3, w4]
  {
    RegroupSuffix(w0, w1, w2, w3, w4);
    var r4 := " " + w4 + "";
    var r3 := " " + w3 + r4;
    var r2 := " " + w2 + r3;
    var r1 := "  " + w1 + r2;
    assert SplitWhitespace(r1) == [w1] + ([w2] + ([w3] + [w4])) by {
      assert SplitWhitespace(r2) == [w2] + ([w3] + [w4]) by {
        assert SplitWhitespace(r3) == [w3] + [w4] by {
          WordStep(" ", w4, "", []);
          assert [w4] + [] == [w4];
          WordStep(" ", w3, r4, [w4]);
        }
        WordStep(" ", w2, r3, [w3] + [w4]);
      }
      WordStep("  ", w1, r2, [w2] + ([w3] + [w4]));
    }
    WordStep(" ", w0, r1, [w1] + ([w2] + ([w3] + [w4])));
    FiveItems(w0, w1, w2, w3, w4);
  }

  lemma FiveItems<T>(a: T, b: T, c: T, d: T, e: T)
    ensures [a] + ([b] + ([c] + ([d] + [e]))) == [a, b, c, d, e]
  {
  }

  /** One more word in front of whitespace-separated words. */
  lemma WordStep(sp: string, w: string, rest: string, ws: seq<string>)
    requires sp != [] && (forall i :: 0 <= i < |sp| ==> IsSpace(sp[i])) && Word(w)
    requires (rest == [] || IsSpace(rest[0])) && SplitWhitespace(rest) == ws
    ensures SplitWhitespace(sp + w + rest) == [w] + ws
  {
    SplitWhitespaceCons(sp, w, rest);
  }

  /** The five tokens give all four coordinates. */
  lemma CoordinatesReadBack(h: HumanTime, p: Formatting)
    requires ClockReadable(h) && p.AbsolutePosition?
    ensures SubRipParsing.ReadCoordinates(SubRipParsing.NoCoordinates,
      [Clock(h), CoordinateWord("X1", p.x1), CoordinateWord("X2", p.x2), CoordinateWord("Y1", p.y1), CoordinateWord("Y2", p.y2)])
      == Ok(SubRipParsing.Coordinates(Some(p.x1), Some(p.x2), Some(p.y1), Some(p.y2)))
  {
    var c0 := SubRipParsing.NoCoordinates;
    var c1 := c0.(x1 := Some(p.x1));
    var c2 := c1.(x2 := Some(p.x2));
    var c3 := c2.(y1 := Some(p.y1));
    var c4 := c3.(y2 := Some(p.y2));
    var w1, w2, w3, w4 := CoordinateWord("X1", p.x1), CoordinateWord("X2", p.x2), CoordinateWord("Y1", p.y1), CoordinateWord("Y2", p.y2);
    assert SubRipParsing.ReadCoordinates(c3, [w4]) == Ok(c4) by {
      CoordinateReadBack(c3, "Y2", p.y2);
      ReadCoordinatesStep(c3, c4, [w4]);
    }
    assert SubRipParsing.ReadCoordinates(c2, [w3, w4]) == Ok(c4) by {
      CoordinateReadBack(c2, "Y1", p.y1);
      ReadCoordinatesStep(c2, c3, [w3, w4]);
    }
    assert SubRipParsing.ReadCoordinates(c1, [w2, w3, w4]) == Ok(c4) by {
      CoordinateReadBack(c1, "X2", p.x2);
      ReadCoordinatesStep(c1, c2, [w2, w3, w4]);
    }
    assert SubRipParsing.ReadCoordinates(c0, [w1, w2, w3, w4]) == Ok(c4) by {
      CoordinateReadBack(c0, "X1", p.x1);
      ReadCoordinatesStep(c0, c1, [w1, w2, w3, w4]);
    }
    ClockTokenSkipped(c0, h);
    ReadCoordinatesStep(c0, c0, [Clock(h), w1, w2, w3, w4]);
  }

  /** Reading a list of tokens is reading its first one, then the rest. */
  lemma ReadCoordinatesStep(c: SubRipParsing.Coordinates, c': SubRipParsing.Coordinates, tokens: seq<string>)
    requires tokens != [] && SubRipParsing.ReadCoordinate(c, tokens[0]) == Ok(c')
    ensures SubRipParsing.ReadCoordinates(c, tokens) == SubRipParsing.ReadCoordinates(c', tokens[1..])
  {
  }

  /** The end half of a time line with a position: its upper case is itself and names all four coordinates. */
  lemma EndHalfReadBack(h: HumanTime, p: Formatting)
    requires ClockReadable(h) && p.AbsolutePosition?
    ensures SubRipParsing.EndPosition(" " + Clock(h) + PositionSuffix(p)) == Ok(Some(p))
  {
    var w0, w1, w2, w3, w4 := Clock(h), CoordinateWord("X1", p.x1), CoordinateWord("X2", p.x2), CoordinateWord("Y1", p.y1), CoordinateWord("Y2", p.y2);
    var b := " " + Clock(h) + PositionSuffix(p);
    assert Word(w0) && Word(w1) && Word(w2) && Word(w3) && Word(w4) by {
      ClockChars(h);
      CoordinateWordChars("X1", p.x1);
      CoordinateWordChars("X2", p.x2);
      CoordinateWordChars("Y1", p.y1);
      CoordinateWordChars("Y2", p.y2);
    }
    assert Upper(b) == b by {
      assert NoLower(w0) && NoLower(w1) && NoLower(w2) && NoLower(w3) && NoLower(w4) by {
        ClockChars(h);
        CoordinateWordChars("X1", p.x1);
        CoordinateWordChars("X2", p.x2);
        CoordinateWordChars("Y1", p.y1);
        CoordinateWordChars("Y2", p.y2);
      }
      SpacedWordsUnchanged(w0, w1, w2, w3, w4);
    }
    assert HasChar(b, 'X') by {
      assert w1[0] == 'X';
      HasX(w0, w1, w2, w3, w4);
    }
    PositionTokens(w0, w1, w2, w3, w4);
    CoordinatesReadBack(h, p);
    AbsolutePositionOfTokens(b, p);
  }

  /** The first coordinate token starts with 'X'. */
  lemma HasX(w0: string, w1: string, w2: string, w3: string, w4: string)
    requires w1 != [] && w1[0] == 'X'
    ensures HasChar(" " + w0 + ("  " + w1 + " " + w2 + " " + w3 + " " + w4), 'X')
  {
    var b := " " + w0 + ("  " + w1 + " " + w2 + " " + w3 + " " + w4);
    assert b[|w0| + 3] == 'X';
    HasCharIsIn(b, 'X');
  }

  /** No lower-case letter. */
  predicate NoLower(s: string) { forall i :: 0 <= i < |s| ==> !('a' <= s[i] <= 'z') }

  lemma NoLowerConcat(a: string, b: string)
    requires NoLower(a) && NoLower(b)
    ensures NoLower(a + b)
  {
    forall i | 0 <= i < |a + b| ensures !('a' <= (a + b)[i] <= 'z') {
      if i >= |a| { assert (a + b)[i] == b[i - |a|]; }
    }
  }

  /** Upper-casing leaves the end half of a time line as it is. */
  lemma SpacedWordsUnchanged(w0: string, w1: string, w2: string, w3: string, w4: string)
    requires NoLower(w0) && NoLower(w1) && NoLower(w2) && NoLower(w3) && NoLower(w4)
    ensures var b := " " + w0 + ("  " + w1 + " " + w2 + " " + w3 + " " + w4); Upper(b) == b
  {
    var sp, sp2 := " ", "  ";
    assert NoLower(sp) && NoLower(sp2);
    var b := sp + w0 + (sp2 + w1 + sp + w2 + sp + w3 + sp + w4);
    assert NoLower(b) by {
      NoLowerConcat(sp, w0);
      NoLowerConcat(sp2, w1);
      NoLowerConcat(sp2 + w1, sp);
      NoLowerConcat(sp2 + w1 + sp, w2);
      NoLowerConcat(sp2 + w1 + sp + w2, sp);
      NoLowerConcat(sp2 + w1 + sp + w2 + sp, w3);
      NoLowerConcat(sp2 + w1 + sp + w2 + sp + w3, sp);
      NoLowerConcat(sp2 + w1 + sp + w2 + sp + w3 + sp, w4);
      NoLowerConcat(sp + w0, sp2 + w1 + sp + w2 + sp + w3 + sp + w4);
    }
    UpperUnchanged(b);
  }

  /** A line whose tokens hold all four coordinates gives that position. */
  lemma AbsolutePositionOfTokens(b: string, p: Formatting)
    requires p.AbsolutePosition?
    requires SubRipParsing.ReadCoordinates(SubRipParsing.NoCoordinates, SplitWhitespace(b))
      == Ok(SubRipParsing.Coordinates(Some(p.x1), Some(p.x2), Some(p.y1), Some(p.y2)))
    requires Upper(b) == b && HasChar(b, 'X')
    ensures SubRipParsing.EndPosition(b) == Ok(Some(p))
  {
  }

  /** The end half of a time line without a position holds no 'X' and gives no position. */
  lemma EndHalfWithoutPosition(h: HumanTime)
    requires ClockReadable(h)
    ensures SubRipParsing.EndPosition(" " + Clock(h)) == Ok(None)
  {
    ClockChars(h);
    NoX(Clock(h));
  }

  /** A space and a timestamp: no lower-case letter and no 'X'. */
  lemma NoX(w: string)
    requires forall i :: 0 <= i < |w| ==> TimestampChar(w[i])
    ensures !HasChar(Upper(" " + w), 'X')
  {
    var b := " " + w;
    forall i | 0 <= i < |b| ensures !('a' <= b[i] <= 'z') && b[i] != 'X' {
      if i > 0 { assert TimestampChar(w[i - 1]); }
    }
    UpperUnchanged(b);
    HasCharIsIn(b, 'X');
  }

  /**
   * The SubRip reader reads a written time line back: both times and the
   * first absolute position, negative values included.
   */
  lemma TimeLineReadBack(c: Cue)
    ensures SubRipParsing.ParseTimeLine(TimeLine(c)) ==
      Ok(Some((c.start, c.end, FormattingOfKind(c.formattings, AbsolutePositionKind))))
  {
    StartSideRead(c);
    EndSideRead(c);
    ParseTimeLineOfHalves(TimeLine(c), TimeToString(c.start) + " ", " " + TimeToString(c.end) + PositionSuffixOf(c.formattings),
      c.start, c.end, FormattingOfKind(c.formattings, AbsolutePositionKind));
  }

  /** The arrow splits a time line after the start time, which reads back. */
  lemma StartSideRead(c: Cue)
    ensures var a, b := TimeToString(c.start) + " ", " " + TimeToString(c.end) + PositionSuffixOf(c.formattings);
      SplitOnce(TimeLine(c), "-->") == Some((a, b)) && SubRipParsing.ParseTimestamp(a) == Ok(c.start)
  {
    TimeLineSplit(c);
    StartHalfReadBack(c.start);
  }

  /** After the arrow, the end time and the absolute position read back. */
  lemma EndSideRead(c: Cue)
    ensures var b := " " + TimeToString(c.end) + PositionSuffixOf(c.formattings);
      SubRipParsing.ParseTimestamp(b) == Ok(c.end) && SubRipParsing.EndPosition(b) == Ok(FormattingOfKind(c.formattings, AbsolutePositionKind))
  {
    TimestampReadBack(c.end, " ", PositionSuffixOf(c.formattings));
    EndHalfPosition(c);
  }

  lemma TimeLineSplit(c: Cue)
    ensures SplitOnce(TimeLine(c), "-->") ==
      Some((TimeToString(c.start) + " ", " " + TimeToString(c.end) + PositionSuffixOf(c.formattings)))
  {
    TimeReadable(c.start);
    var h1, h2 := ToHumanTime(c.start), ToHumanTime(c.end);
    var suffix := PositionSuffixOf(c.formattings);
    RegroupArrow(Clock(h1), Clock(h2), suffix);
    TimeLineHalves(h1, h2, suffix);
  }

  lemma StartHalfReadBack(t: Time)
    ensures SubRipParsing.ParseTimestamp(TimeToString(t) + " ") == Ok(t)
  {
    TimestampReadBack(t, "", " ");
    NoPrefix(TimeToString(t), " ");
  }

  lemma EndHalfPosition(c: Cue)
    ensures SubRipParsing.EndPosition(" " + TimeToString(c.end) + PositionSuffixOf(c.formattings))
      == Ok(FormattingOfKind(c.formattings, AbsolutePositionKind))
  {
    TimeReadable(c.end);
    var p := FormattingOfKind(c.formattings, AbsolutePositionKind);
    if p.Some? {
      EndHalfReadBack(ToHumanTime(c.end), p.value);
    } else {
      assert " " + TimeToString(c.end) + PositionSuffixOf(c.formattings) == " " + Clock(ToHumanTime(c.end));
      EndHalfWithoutPosition(ToHumanTime(c.end));
    }
  }

  /** A line split at its arrow into two readable halves. */
  lemma ParseTimeLineOfHalves(line: string, a: string, b: string, start: Time, end: Time, p: Option<Formatting>)
    requires SplitOnce(line, "-->") == Some((a, b))
    requires SubRipParsing.ParseTimestamp(a) == Ok(start) && SubRipParsing.ParseTimestamp(b) == Ok(end)
    requires SubRipParsing.EndPosition(b) == Ok(p)
    ensures SubRipParsing.ParseTimeLine(line) == Ok(Some((start, end, p)))
  {
  }

  /** A time line regrouped around its arrow. */
  lemma RegroupArrow(x: string, y: string, suffix: string)
    ensures x + " --> " + y + suffix == (x + " ") + "-->" + (" " + y + suffix)
  {
  }

  lemma NoPrefix(x: string, y: string)
    ensures "" + x + y == x + y
  {
  }

  /** The reader splits a time line at its arrow. */
  lemma TimeLineHalves(h1: HumanTime, h2: HumanTime, suffix: string)
    requires ClockReadable(h1)
    ensures SplitOnce(Clock(h1) + " " + "-->" + (" " + Clock(h2) + suffix), "-->") == Some((Clock(h1) + " ", " " + Clock(h2) + suffix))
  {
    var a := Clock(h1) + " ";
    var b := " " + Clock(h2) + suffix;
    ClockHead(h1);
    NoArrowIn(a, "-->" + b);
    assert a + "-->" + b == a + ("-->" + b);
    SplitOnceAtFirst(a, "-->", b);
  }

  /** The start time and its space hold no '-' after the first character. */
  lemma ClockHead(h: HumanTime)
    requires ClockReadable(h)
    ensures var a := Clock(h) + " "; |a| > 1 && a[1] != '-' && forall i :: 0 < i < |a| ==> a[i] != '-'
  {
    var c := Clock(h);
    var a := c + " ";
    ClockChars(h);
    forall i | 0 < i < |a| ensures a[i] != '-' {
      if i < |c| { assert a[i] == c[i]; }
    }
  }

  /** No arrow starts inside a head whose only '-' could be its first character, followed by something else. */
  lemma NoArrowIn(a: string, b: string)
    requires |a| > 1 && a[1] != '-' && forall i :: 0 < i < |a| ==> a[i] != '-'
    ensures forall j :: 0 <= j < |a| ==> !OccursAt(a + b, "-->", j)
  {
    var s := a + b;
    forall j | 0 <= j < |a| ensures !OccursAt(s, "-->", j) {
      if j + 3 <= |s| {
        var w := s[j..j + 3];
        if j == 0 {
          assert w[1] == a[1] && "-->"[1] == '-';
        } else {
          assert w[0] == a[j] && "-->"[0] == '-';
        }
        assert w != "-->";
      }
    }
  }

  // ---------------------------------------------------------------- the content line

  /** The number of entries of the priority table: the rank of a closing `</font>`. */
  const PriorityCount := 7

  /** `filter(lambda f: not isinstance(f, Position), ...)`. */
  function NonPositions(fs: seq<Formatting>): (r: seq<Formatting>)
    ensures forall f :: f in r <==> f in fs && f.IsSpan()
    decreases |fs|
  {
    if fs == [] then [] else (if fs[0].IsSpan() then [fs[0]] else []) + NonPositions(fs[1..])
  }

  predicate AllFonts(fs: seq<Formatting>) {
    forall i :: 0 <= i < |fs| ==> fs[i].IsFont()
  }

  /** `filter(lambda f: isinstance(f, (Color, FontFace, TextSize)), ...)`. */
  function Fonts(fs: seq<Formatting>): (r: seq<Formatting>)
    ensures forall f :: f in r <==> f in fs && f.IsFont()
    ensures AllFonts(r)
    decreases |fs|
  {
    if fs == [] then [] else (if fs[0].IsFont() then [fs[0]] else []) + Fonts(fs[1..])
  }

  /** The complementary filter. */
  function NonFonts(fs: seq<Formatting>): (r: seq<Formatting>)
    ensures forall f :: f in r <==> f in fs && !f.IsFont()
    decreases |fs|
  {
    if fs == [] then [] else (if !fs[0].IsFont() then [fs[0]] else []) + NonFonts(fs[1..])
  }

  /** `font_groups`: a `defaultdict(list)` from (start, end) to fonts, keys in first-use order. */
  type FontGroups = seq<((int, int), seq<Formatting>)>

  function GroupIndex(groups: FontGroups, key: (int, int)): (r: Option<nat>)
    ensures r.Some? ==> r.value < |groups| && groups[r.value].0 == key
    ensures r.None? ==> forall i :: 0 <= i < |groups| ==> groups[i].0 != key
    decreases |groups|
  {
    if groups == [] then None
    else if groups[0].0 == key then Some(0)
    else match GroupIndex(groups[1..], key)
      case None => None
      case Some(i) => Some(i + 1)
  }

  /** The range of a span. */
  function RangeOf(f: Formatting): (int, int)
    requires f.IsSpan()
  {
    (f.start, f.end)
  }

  /** `font_groups[(f.start, f.end)].append(f)`. */
  function AddToGroup(groups: FontGroups, f: Formatting): FontGroups
    requires f.IsSpan()
  {
    match GroupIndex(groups, RangeOf(f))
    case None => groups + [(RangeOf(f), [f])]
    case Some(i) => groups[i := (groups[i].0, groups[i].1 + [f])]
  }

  /** The groups after the fonts are added in turn. */
  function Grouped(fonts: seq<Formatting>): FontGroups
    requires AllFonts(fonts)
    decreases |fonts|
  {
    if fonts == [] then []
    else AddToGroup(Grouped(fonts[..|fonts| - 1]), fonts[|fonts| - 1])
  }

  /** The fonts over a range, in order. */
  function OverRange(fonts: seq<Formatting>, key: (int, int)): seq<Formatting>
    decreases |fonts|
  {
    if fonts == [] then []
    else
      var f := fonts[|fonts| - 1];
      OverRange(fonts[..|fonts| - 1], key) + (if f.IsSpan() && RangeOf(f) == key then [f] else [])
  }

  /** The fonts over a range are fonts of the list, over that range. */
  lemma {:induction false} OverRangeIn(fonts: seq<Formatting>, key: (int, int))
    ensures forall f :: f in OverRange(fonts, key) ==> f in fonts && f.IsSpan() && RangeOf(f) == key
    decreases |fonts|
  {
    if fonts != [] {
      OverRangeIn(fonts[..|fonts| - 1], key);
    }
  }

  /** No font over the range: nothing over it. */
  lemma {:induction false} OverRangeNone(fonts: seq<Formatting>, key: (int, int))
    requires AllFonts(fonts) && forall k :: 0 <= k < |fonts| ==> RangeOf(fonts[k]) != key
    ensures OverRange(fonts, key) == []
    decreases |fonts|
  {
    if fonts != [] {
      OverRangeNone(fonts[..|fonts| - 1], key);
    }
  }

  /**
   * The groups of a list of fonts: distinct ranges, each group holding
   * exactly the fonts over its range in their order, and a group for every font.
   */
  predicate GroupsOf(g: FontGroups, fonts: seq<Formatting>)
    requires AllFonts(fonts)
  {
    && (forall i, j :: 0 <= i < j < |g| ==> g[i].0 != g[j].0)
    && (forall i :: 0 <= i < |g| ==> g[i].1 != [] && g[i].1 == OverRange(fonts, g[i].0))
    && (forall k :: 0 <= k < |fonts| ==> GroupIndex(g, RangeOf(fonts[k])).Some?)
  }

  /** Fonts over the same range merge into one group, in order. */
  lemma {:induction false} GroupedSpec(fonts: seq<Formatting>)
    requires AllFonts(fonts)
    ensures GroupsOf(Grouped(fonts), fonts)
    decreases |fonts|
  {
    if fonts != [] {
      var init := fonts[..|fonts| - 1];
      GroupedSpec(init);
      AddToGroupSpec(Grouped(init), init, fonts[|fonts| - 1]);
      assert init + [fonts[|fonts| - 1]] == fonts;
    }
  }

  /** Adding one font keeps the groups those of the longer list. */
  lemma AddToGroupSpec(g: FontGroups, fonts: seq<Formatting>, f: Formatting)
    requires AllFonts(fonts) && f.IsFont() && GroupsOf(g, fonts)
    ensures AllFonts(fonts + [f]) && GroupsOf(AddToGroup(g, f), fonts + [f])
  {
    var all := fonts + [f];
    assert all[..|all| - 1] == fonts;
    match GroupIndex(g, RangeOf(f))
    case None =>
      NewGroup(g, fonts, f);
    case Some(j) =>
      JoinGroup(g, fonts, f, j);
  }

  lemma NewGroup(g: FontGroups, fonts: seq<Formatting>, f: Formatting)
    requires AllFonts(fonts) && f.IsFont() && GroupsOf(g, fonts) && GroupIndex(g, RangeOf(f)).None?
    ensures AllFonts(fonts + [f]) && GroupsOf(g + [(RangeOf(f), [f])], fonts + [f])
  {
    var all := fonts + [f];
    var g' := g + [(RangeOf(f), [f])];
    assert all[..|all| - 1] == fonts;
    assert OverRange(fonts, RangeOf(f)) == [] by {
      forall k | 0 <= k < |fonts| ensures RangeOf(fonts[k]) != RangeOf(f) {
        assert GroupIndex(g, RangeOf(fonts[k])).Some?;
      }
      OverRangeNone(fonts, RangeOf(f));
    }
    forall i | 0 <= i < |g'| ensures g'[i].1 != [] && g'[i].1 == OverRange(all, g'[i].0) {
      if i < |g| { assert g'[i] == g[i]; }
    }
    forall k | 0 <= k < |all| ensures GroupIndex(g', RangeOf(all[k])).Some? {
      if k < |fonts| {
        var j := GroupIndex(g, RangeOf(fonts[k])).value;
        assert g'[j].0 == RangeOf(all[k]);
      } else {
        assert g'[|g|].0 == RangeOf(all[k]);
      }
    }
  }

  lemma JoinGroup(g: FontGroups, fonts: seq<Formatting>, f: Formatting, j: nat)
    requires AllFonts(fonts) && f.IsFont() && GroupsOf(g, fonts) && GroupIndex(g, RangeOf(f)) == Some(j)
    ensures AllFonts(fonts + [f]) && GroupsOf(g[j := (g[j].0, g[j].1 + [f])], fonts + [f])
  {
    var all := fonts + [f];
    var g' := g[j := (g[j].0, g[j].1 + [f])];
    assert AllFonts(all);
    assert forall i :: 0 <= i < |g'| ==> g'[i].0 == g[i].0;
    JoinedOverRange(g, fonts, f, j);
    JoinedIndex(g, fonts, f, j);
  }

  /** The fonts over a range, after one more font. */
  lemma OverRangeSnoc(fonts: seq<Formatting>, f: Formatting, key: (int, int))
    requires f.IsSpan()
    ensures OverRange(fonts + [f], key) == OverRange(fonts, key) + (if RangeOf(f) == key then [f] else [])
  {
    assert (fonts + [f])[..|fonts|] == fonts;
  }

  /** Appending a font to its group keeps every group the fonts over its range. */
  lemma JoinedOverRange(g: FontGroups, fonts: seq<Formatting>, f: Formatting, j: nat)
    requires f.IsSpan() && j < |g| && g[j].0 == RangeOf(f)
    requires forall i :: 0 <= i < |g| && i != j ==> g[i].0 != g[j].0
    requires forall i :: 0 <= i < |g| ==> g[i].1 != [] && g[i].1 == OverRange(fonts, g[i].0)
    ensures var g' := g[j := (g[j].0, g[j].1 + [f])];
      forall i :: 0 <= i < |g'| ==> g'[i].1 != [] && g'[i].1 == OverRange(fonts + [f], g'[i].0)
  {
    var g' := g[j := (g[j].0, g[j].1 + [f])];
    forall i | 0 <= i < |g'| ensures g'[i].1 != [] && g'[i].1 == OverRange(fonts + [f], g'[i].0) {
      OverRangeSnoc(fonts, f, g[i].0);
    }
  }

  /** Appending a font to its group keeps a group for every font. */
  lemma JoinedIndex(g: FontGroups, fonts: seq<Formatting>, f: Formatting, j: nat)
    requires AllFonts(fonts) && f.IsFont() && j < |g| && g[j].0 == RangeOf(f)
    requires forall k :: 0 <= k < |fonts| ==> GroupIndex(g, RangeOf(fonts[k])).Some?
    ensures AllFonts(fonts + [f])
    ensures var g', all := g[j := (g[j].0, g[j].1 + [f])], fonts + [f];
      forall k :: 0 <= k < |all| ==> GroupIndex(g', RangeOf(all[k])).Some?
  {
    var g', all := g[j := (g[j].0, g[j].1 + [f])], fonts + [f];
    assert AllFonts(all);
    forall k | 0 <= k < |all| ensures GroupIndex(g', RangeOf(all[k])).Some? {
      if k < |fonts| {
        var i := GroupIndex(g, RangeOf(fonts[k])).value;
        assert g'[i].0 == RangeOf(all[k]);
      } else {
        assert g'[j].0 == RangeOf(all[k]);
      }
    }
  }

  /** A permutation of fonts holds only fonts. */
  lemma PermutedFonts(a: seq<Formatting>, b: seq<Formatting>)
    requires AllFonts(a) && multiset(a) == multiset(b)
    ensures AllFonts(b)
  {
    forall i | 0 <= i < |b| ensures b[i].IsFont() {
      assert b[i] in multiset(a);
      var k :| 0 <= k < |a| && a[k] == b[i];
    }
  }

  /** A group's fonts in the order of their attribute text (`group.sort(key=get_attributes)`). */
  function AttributeKey(f: Formatting): seq<int> {
    if f.IsSpan() then Sorting.CodePoints(Attributes(f)) else []
  }

  /** `" " + get_attributes()` for each font in turn. */
  function FontAttributes(group: seq<Formatting>): string
    requires AllFonts(group)
    decreases |group|
  {
    if group == [] then ""
    else FontAttributes(group[..|group| - 1]) + " " + Attributes(group[|group| - 1])
  }

  lemma FontAttributesStep(group: seq<Formatting>, j: nat)
    requires AllFonts(group) && j < |group|
    ensures AllFonts(group[..j]) && AllFonts(group[..j + 1])
    ensures FontAttributes(group[..j + 1]) == FontAttributes(group[..j]) + " " + Attributes(group[j])
  {
    assert group[..j + 1][..j] == group[..j];
  }

  lemma Append4(a: string, b: string, c: string, d: string)
    ensures a + b + c + d == a + (b + c + d)
  {
  }

  /** The merged opening tag of a group. */
  function FontStartTag(group: seq<Formatting>): string
    requires AllFonts(group)
  {
    var sorted := Sorting.StableSort(group, AttributeKey);
    PermutedFonts(group, sorted);
    "<font" + FontAttributes(sorted) + ">"
  }

  predicate FontGroupsValid(groups: FontGroups) {
    forall i :: 0 <= i < |groups| ==> AllFonts(groups[i].1)
  }

  /** Every group holds fonts over its own range, which is the range of a font of the list. */
  lemma GroupedValid(fonts: seq<Formatting>)
    requires AllFonts(fonts)
    ensures FontGroupsValid(Grouped(fonts))
    ensures forall i :: 0 <= i < |Grouped(fonts)| ==> exists k :: 0 <= k < |fonts| && RangeOf(fonts[k]) == Grouped(fonts)[i].0
  {
    GroupedSpec(fonts);
    var g := Grouped(fonts);
    forall i | 0 <= i < |g|
      ensures AllFonts(g[i].1) && exists k :: 0 <= k < |fonts| && RangeOf(fonts[k]) == g[i].0
    {
      OverRangeIn(fonts, g[i].0);
      forall m | 0 <= m < |g[i].1| ensures g[i].1[m].IsFont() {
        assert g[i].1[m] in g[i].1;
        assert g[i].1[m] in fonts;
        var k :| 0 <= k < |fonts| && fonts[k] == g[i].1[m];
      }
      assert g[i].1[0] in g[i].1;
      assert g[i].1[0] in fonts;
      var k :| 0 <= k < |fonts| && fonts[k] == g[i].1[0];
    }
  }

  /** Each group's opening tag at its start with rank 0 and its `</font>` at its end with rank 7. */
  function GroupTags(groups: FontGroups): (r: seq<Insertion>)
    requires FontGroupsValid(groups)
    ensures |r| == 2 * |groups|
    decreases |groups|
  {
    if groups == [] then []
    else
      var g := groups[|groups| - 1];
      GroupTags(groups[..|groups| - 1]) + [Insertion(g.0.0, 0, FontStartTag(g.1)), Insertion(g.0.1, PriorityCount, "</font>")]
  }

  /** One more group adds its two tags at the end. */
  lemma GroupTagsStep(groups: FontGroups, k: nat)
    requires FontGroupsValid(groups) && k < |groups|
    ensures FontGroupsValid(groups[..k]) && FontGroupsValid(groups[..k + 1])
    ensures GroupTags(groups[..k + 1]) == GroupTags(groups[..k]) +
      [Insertion(groups[k].0.0, 0, FontStartTag(groups[k].1)), Insertion(groups[k].0.1, PriorityCount, "</font>")]
  {
    assert groups[..k + 1][..k] == groups[..k];
  }

  /** The tags of the i-th group are the (2i)-th and (2i+1)-th. */
  lemma {:induction false} GroupTagsAt(groups: FontGroups, i: nat)
    requires FontGroupsValid(groups) && i < |groups|
    ensures GroupTags(groups)[2 * i] == Insertion(groups[i].0.0, 0, FontStartTag(groups[i].1))
    ensures GroupTags(groups)[2 * i + 1] == Insertion(groups[i].0.1, PriorityCount, "</font>")
    decreases |groups|
  {
    if i < |groups| - 1 {
      var init := groups[..|groups| - 1];
      assert init[i] == groups[i];
      GroupTagsAt(init, i);
    }
  }

  /** The content's tags, sorted stably by (offset, rank). */
  function ContentTags(fs: seq<Formatting>): seq<Insertion> {
    var fonts := Fonts(NonPositions(fs));
    GroupedValid(fonts);
    Sorting.StableSort(GroupTags(Grouped(fonts)), Key)
  }

  /** `{\anN}` for the first relative position, else nothing. */
  function PositionPrefix(fs: seq<Formatting>): string {
    match FormattingOfKind(fs, RelativePositionKind)
    case Some(p) => "{\\an" + IntToString(ClassifierValue(p.classifier)) + "}"
    case None => ""
  }

  /** What `_construct_content_line` returns. */
  function ContentLine(c: Cue): string {
    PositionPrefix(c.formattings) + Spliced(c.text, ContentTags(c.formattings))
  }

  /** `_construct_content_line`. */
  method ConstructContentLine(c: Cue) returns (r: string)
    ensures r == ContentLine(c)
  {
    var tags := ContentTagsOf(c.formattings);
    var text := InsertRightToLeft(c.text, tags);
    var prefix := PositionPrefixOf(c.formattings);
    r := prefix + text;
  }

  /** The `{\anN}` that `_construct_content_line` puts in front when there is a relative position. */
  method PositionPrefixOf(fs: seq<Formatting>) returns (prefix: string)
    ensures prefix == PositionPrefix(fs)
  {
    prefix := "";
    var position := FormattingOfKind(fs, RelativePositionKind);
    if position.Some? {
      prefix := "{\\an" + IntToString(ClassifierValue(position.value.classifier)) + "}";
    }
  }

  /** The tag-building part of `_construct_content_line`: group the fonts, skip the plain styles, sort the tags. */
  method ContentTagsOf(fs: seq<Formatting>) returns (tags: seq<Insertion>)
    ensures tags == ContentTags(fs)
  {
    var formattings := NonPositions(fs);
    var fonts := Fonts(formattings);
    var others := NonFonts(formattings);
    var groups := GroupFonts(fonts);
    SkipPlainStyles(formattings, others);
    GroupedValid(fonts);
    tags := FontTags(groups);
    tags := Sorting.StableSort(tags, Key);
  }

  /** The `font_groups` loop. */
  method GroupFonts(fonts: seq<Formatting>) returns (groups: FontGroups)
    requires AllFonts(fonts)
    ensures groups == Grouped(fonts)
  {
    groups := [];
    for i := 0 to |fonts|
      invariant groups == Grouped(fonts[..i])
    {
      assert fonts[..i + 1][..i] == fonts[..i];
      groups := AddToGroup(groups, fonts[i]);
    }
    assert fonts[..|fonts|] == fonts;
  }

  /**
   * The loop over the remaining formattings: every one is bold, italic,
   * underline or strikethrough, which it skips, so it adds no tag.
   */
  method SkipPlainStyles(formattings: seq<Formatting>, others: seq<Formatting>)
    requires forall f :: f in formattings ==> f.IsSpan()
    requires forall f :: f in others <==> f in formattings && !f.IsFont()
    ensures forall f :: f in others ==> f.IsPlainStyle()
  {
    for i := 0 to |others|
      invariant forall k :: 0 <= k < i ==> others[k].IsPlainStyle()
    {
      assert others[i] in others;
      if !others[i].IsPlainStyle() {
        assert false;
      }
    }
  }

  /** The loop that builds each group's pair of tags. */
  method FontTags(groups: FontGroups) returns (tags: seq<Insertion>)
    requires FontGroupsValid(groups)
    ensures tags == GroupTags(groups)
  {
    tags := [];
    for k := 0 to |groups|
      invariant tags == GroupTags(groups[..k])
    {
      var (key, group) := groups[k];
      var startTag := FontStartTagOf(group);
      GroupTagsStep(groups, k);
      tags := tags + [Insertion(key.0, 0, startTag), Insertion(key.1, PriorityCount, "</font>")];
    }
    assert groups[..|groups|] == groups;
  }

  /** The sort of a group and the loop that appends each font's attributes. */
  method FontStartTagOf(group: seq<Formatting>) returns (startTag: string)
    requires AllFonts(group)
    ensures startTag == FontStartTag(group)
  {
    var sorted := Sorting.StableSort(group, AttributeKey);
    PermutedFonts(group, sorted);
    var openTag := OpenFontTag(sorted);
    startTag := openTag + ">";
  }

  /** The loop of the merged opening tag: `<font` followed by each font's attributes in turn. */
  method OpenFontTag(fonts: seq<Formatting>) returns (openTag: string)
    requires AllFonts(fonts)
    ensures openTag == "<font" + FontAttributes(fonts)
  {
    openTag := "<font";
    for j := 0 to |fonts|
      invariant openTag == "<font" + FontAttributes(fonts[..j])
    {
      FontAttributesStep(fonts, j);
      Append4("<font", FontAttributes(fonts[..j]), " ", Attributes(fonts[j]));
      openTag := openTag + " " + Attributes(fonts[j]);
    }
    assert fonts[..|fonts|] == fonts;
  }

  /** Groups over ranges within the text give tags within the text. */
  lemma {:induction false} GroupTagsInRange(groups: FontGroups, n: nat)
    requires FontGroupsValid(groups)
    requires forall i :: 0 <= i < |groups| ==> 0 <= groups[i].0.0 <= n && 0 <= groups[i].0.1 <= n
    ensures InRange(GroupTags(groups), 0, n)
    decreases |groups|
  {
    if groups != [] {
      GroupTagsInRange(groups[..|groups| - 1], n);
    }
  }

  /** A reordering of tags within the text stays within it. */
  lemma InRangePermuted(a: seq<Insertion>, b: seq<Insertion>, n: nat)
    requires InRange(a, 0, n) && multiset(a) == multiset(b)
    ensures InRange(b, 0, n)
  {
    forall i | 0 <= i < |b| ensures 0 <= b[i].offset <= n {
      assert b[i] in multiset(a);
      var k :| 0 <= k < |a| && a[k] == b[i];
    }
  }

  /** Every tag of a content lies at the start or the end of one of its fonts. */
  lemma ContentTagsInRange(fs: seq<Formatting>, n: nat)
    requires SpansWithin(fs, n)
    ensures InRange(ContentTags(fs), 0, n)
  {
    var fonts := Fonts(NonPositions(fs));
    GroupedValid(fonts);
    var g := Grouped(fonts);
    forall i | 0 <= i < |g| ensures 0 <= g[i].0.0 <= n && 0 <= g[i].0.1 <= n {
      var k :| 0 <= k < |fonts| && RangeOf(fonts[k]) == g[i].0;
      assert fonts[k] in fonts;
      assert fonts[k] in fs;
      var m :| 0 <= m < |fs| && fs[m] == fonts[k];
    }
    GroupTagsInRange(g, n);
    InRangePermuted(GroupTags(g), ContentTags(fs), n);
  }

  /**
   * For a cue whose spans lie in its text, deleting the inserted tags from
   * the content line (after the position prefix) gives back the cue text;
   * the tags are in ascending (offset, rank) order.
   */
  lemma ContentLineErasesToText(c: Cue)
    requires WellFormed(c)
    ensures var tags := ContentTags(c.formattings);
      && Sorting.SortedBy(tags, Key) && InRange(tags, 0, |c.text|) && Ascending(tags)
      && ContentLine(c) == PositionPrefix(c.formattings) + Weave(Pieces(c.text, tags, 0), TagStrings(tags))
      && Join("", Pieces(c.text, tags, 0)) == c.text
      && |ContentLine(c)| == |PositionPrefix(c.formattings)| + |c.text| + TagLength(tags)
  {
    var tags := ContentTags(c.formattings);
    ContentTagsSorted(c.formattings);
    SortedIsAscending(tags);
    ContentTagsInRange(c.formattings, |c.text|);
    SplicedIsInterleave(c.text, tags);
    InterleaveErasesToText(c.text, tags, 0);
  }

  lemma ContentTagsSorted(fs: seq<Formatting>)
    ensures Sorting.SortedBy(ContentTags(fs), Key)
  {
    var fonts := Fonts(NonPositions(fs));
    GroupedValid(fonts);
    Sorting.StableSortSorted(GroupTags(Grouped(fonts)), Key);
  }

  /** At a shared offset an opening tag (rank 0) comes before a closing one (rank 7). */
  lemma OpeningsBeforeClosings(fs: seq<Formatting>, i: nat, j: nat)
    requires i < |ContentTags(fs)| && j < |ContentTags(fs)|
    requires ContentTags(fs)[i].offset == ContentTags(fs)[j].offset
    requires ContentTags(fs)[i].rank == 0 && ContentTags(fs)[j].rank == PriorityCount
    ensures i < j
  {
    ContentTagsSorted(fs);
    KeyOrderIsListOrder(ContentTags(fs), i, j);
  }

  /** The formattings without bold, italic, underline and strikethrough. */
  function WithoutPlainStyles(fs: seq<Formatting>): (r: seq<Formatting>)
    ensures forall f :: f in r <==> f in fs && !f.IsPlainStyle()
    decreases |fs|
  {
    if fs == [] then [] else (if fs[0].IsPlainStyle() then [] else [fs[0]]) + WithoutPlainStyles(fs[1..])
  }

  /** The fonts of a list with one more formatting in front. */
  lemma FontsOfNonPositionsCons(f: Formatting, r: seq<Formatting>)
    ensures Fonts(NonPositions([f] + r)) == (if f.IsFont() then [f] else []) + Fonts(NonPositions(r))
  {
    assert ([f] + r)[1..] == r;
    if f.IsSpan() {
      assert NonPositions([f] + r) == [f] + NonPositions(r);
      assert ([f] + NonPositions(r))[1..] == NonPositions(r);
      assert Fonts([f] + NonPositions(r)) == (if f.IsFont() then [f] else []) + Fonts(NonPositions(r));
    } else {
      assert NonPositions([f] + r) == NonPositions(r);
    }
  }

  /** Dropping the plain styles keeps the fonts, in order. */
  lemma {:induction false} PlainStylesNotFonts(fs: seq<Formatting>)
    ensures Fonts(NonPositions(WithoutPlainStyles(fs))) == Fonts(NonPositions(fs))
    decreases |fs|
  {
    if fs == [] {
      assert WithoutPlainStyles(fs) == [];
    } else {
      var f, t := fs[0], fs[1..];
      var rest := WithoutPlainStyles(t);
      PlainStylesNotFonts(t);
      assert fs == [f] + t;
      FontsOfNonPositionsCons(f, t);
      if f.IsPlainStyle() {
        assert WithoutPlainStyles(fs) == rest;
        assert Fonts(NonPositions(fs)) == [] + Fonts(NonPositions(t));
        assert [] + Fonts(NonPositions(t)) == Fonts(NonPositions(t));
      } else {
        assert WithoutPlainStyles(fs) == [f] + rest;
        FontsOfNonPositionsCons(f, rest);
      }
    }
  }

  /** The first formatting of a kind in a list with one more formatting in front. */
  lemma FormattingOfKindCons(f: Formatting, r: seq<Formatting>, k: Kind)
    ensures FormattingOfKind([f] + r, k) == if KindOf(f) == k then Some(f) else FormattingOfKind(r, k)
  {
    assert ([f] + r)[1..] == r;
  }

  /** Dropping the plain styles keeps the first relative position. */
  lemma {:induction false} PlainStylesNotPositions(fs: seq<Formatting>)
    ensures FormattingOfKind(WithoutPlainStyles(fs), RelativePositionKind) == FormattingOfKind(fs, RelativePositionKind)
    decreases |fs|
  {
    if fs == [] {
      assert WithoutPlainStyles(fs) == [];
    } else {
      PlainStylesNotPositions(fs[1..]);
      if fs[0].IsPlainStyle() {
        PlainStyleFrontDropped(fs);
      } else {
        OtherFrontKept(fs);
      }
    }
  }

  /** The step of `PlainStylesNotPositions` when the front formatting is a plain style: it is dropped. */
  lemma PlainStyleFrontDropped(fs: seq<Formatting>)
    requires fs != [] && fs[0].IsPlainStyle()
    requires FormattingOfKind(WithoutPlainStyles(fs[1..]), RelativePositionKind) == FormattingOfKind(fs[1..], RelativePositionKind)
    ensures FormattingOfKind(WithoutPlainStyles(fs), RelativePositionKind) == FormattingOfKind(fs, RelativePositionKind)
  {
    var rest := WithoutPlainStyles(fs[1..]);
    assert WithoutPlainStyles(fs) == rest by { assert [] + rest == rest; }
    assert KindOf(fs[0]) != RelativePositionKind;
  }

  /** The step of `PlainStylesNotPositions` when the front formatting is kept. */
  lemma OtherFrontKept(fs: seq<Formatting>)
    requires fs != [] && !fs[0].IsPlainStyle()
    requires FormattingOfKind(WithoutPlainStyles(fs[1..]), RelativePositionKind) == FormattingOfKind(fs[1..], RelativePositionKind)
    ensures FormattingOfKind(WithoutPlainStyles(fs), RelativePositionKind) == FormattingOfKind(fs, RelativePositionKind)
  {
    var rest := WithoutPlainStyles(fs[1..]);
    assert WithoutPlainStyles(fs) == [fs[0]] + rest;
    FormattingOfKindCons(fs[0], rest, RelativePositionKind);
  }

  /** Bold, italic, underline and strikethrough leave no trace in the content line. */
  lemma PlainStylesDropped(c: Cue)
    ensures ContentLine(c) == ContentLine(c.(formattings := WithoutPlainStyles(c.formattings)))
  {
    PlainStylesNotFonts(c.formattings);
    PlainStylesNotPositions(c.formattings);
  }

  // ---------------------------------------------------------------- the document

  /**
   * Four lines per cue: its number from 1, its time line, its content line
   * and an empty line. The two per-cue lines are parameters, so that the
   * layout is reasoned about apart from how each line is built.
   */
  function BlocksOf(units: seq<Cue>, timeLine: Cue -> string, contentLine: Cue -> string): (lines: seq<string>)
    ensures |lines| == 4 * |units|
    decreases |units|
  {
    if units == [] then []
    else
      var u := units[|units| - 1];
      BlocksOf(units[..|units| - 1], timeLine, contentLine) + [IntToString(|units|), timeLine(u), contentLine(u), ""]
  }

  /** The i-th cue's block sits at lines 4i to 4i + 3. */
  lemma {:induction false} BlocksOfAt(units: seq<Cue>, timeLine: Cue -> string, contentLine: Cue -> string, i: nat)
    requires i < |units|
    ensures var lines := BlocksOf(units, timeLine, contentLine);
      && lines[4 * i] == IntToString(i + 1) && lines[4 * i + 1] == timeLine(units[i])
      && lines[4 * i + 2] == contentLine(units[i]) && lines[4 * i + 3] == ""
    decreases |units|
  {
    if i < |units| - 1 {
      var init := units[..|units| - 1];
      assert init[i] == units[i];
      BlocksOfAt(init, timeLine, contentLine, i);
    }
  }

  /** One more cue adds its four lines at the end. */
  lemma BlocksOfStep(units: seq<Cue>, timeLine: Cue -> string, contentLine: Cue -> string, i: nat)
    requires i < |units|
    ensures BlocksOf(units[..i + 1], timeLine, contentLine) ==
      BlocksOf(units[..i], timeLine, contentLine) + [IntToString(i + 1), timeLine(units[i]), contentLine(units[i]), ""]
  {
    assert units[..i + 1][..i] == units[..i];
  }

  /** The lines of the SubRip document. */
  function Blocks(units: seq<Cue>): seq<string> {
    BlocksOf(units, TimeLine, ContentLine)
  }

  /** The text `to_string` returns for cues in this order. */
  function Document(units: seq<Cue>): string {
    Join("\n", Blocks(units))
  }

  /** `to_string`: the subtitle is sorted by start in place, then written cue by cue. */
  method ToString(subtitle: Subtitle) returns (r: string)
    modifies subtitle
    ensures subtitle.units == Sorting.StableSort(old(subtitle.units), StartKey)
    ensures Sorting.SortedBy(subtitle.units, StartKey)
    ensures r == Document(subtitle.units)
  {
    subtitle.SortByStart();
    var units := subtitle.units;
    var lines: seq<string> := [];
    for i := 0 to |units|
      invariant subtitle.units == units
      invariant lines == BlocksOf(units[..i], TimeLine, ContentLine)
    {
      var unit := units[i];
      var content := ConstructContentLine(unit);
      BlocksOfStep(units, TimeLine, ContentLine, i);
      lines := lines + [IntToString(i + 1), TimeLine(unit), content, ""];
    }
    assert units[..|units|] == units;
    r := Join("\n", lines);
  }

  /** Writing twice gives the same text: the second sort finds the cues already sorted. */
  lemma ToStringTwice(units: seq<Cue>)
    ensures var once := Sorting.StableSort(units, StartKey);
      Sorting.StableSort(once, StartKey) == once && Document(Sorting.StableSort(once, StartKey)) == Document(once)
  {
    Sorting.StableSortSorted(units, StartKey);
    Sorting.StableSortOfSorted(Sorting.StableSort(units, StartKey), StartKey);
  }

  /**
   * Each cue's number and time line read back: the number line parses to
   * its position from 1, the time line to the cue's times and first
   * absolute position.
   */
  lemma BlockReadBack(units: seq<Cue>, i: nat)
    requires i < |units|
    ensures ParseInt(Blocks(units)[4 * i]) == Some(i + 1)
    ensures SubRipParsing.ParseTimeLine(Blocks(units)[4 * i + 1]) ==
      Ok(Some((units[i].start, units[i].end, FormattingOfKind(units[i].formattings, AbsolutePositionKind))))
  {
    BlocksOfAt(units, TimeLine, ContentLine, i);
    ParseIntOfDigits(NatToString(i + 1));
    TimeLineReadBack(units[i]);
  }
}
