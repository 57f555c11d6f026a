# pysubtools2 in Dafny

A Dafny model of the text-processing core of pysubtools2, a Python library
that reads and writes subtitle files. A subtitle is a list of cues
(`SubtitleUnit`). Each cue holds a start and an end time in milliseconds, its
text and a list of formattings over character ranges of that text: bold,
italic, underline, strikethrough, colour, font face and text size. A cue can
also carry a position on the screen.

The model follows the library's pipeline:

- **Values.** `Times` (`subtitle/time.py`): integer milliseconds, `human_time`, clamped subtraction and
  comparisons. `Formattings` (`subtitle/formatting.py`): the formatting variants, their HTML tags and the
  colour hex notations. `Subtitles` (`subtitle/subtitle.py`): the cue and the subtitle list.
- **Readers.**
  - `HtmlParsing` (`parsers/html_parsing.py`): the inline markup stack machine.
  - `SsaParsing` (`parsers/ssa_control_code_parsing.py`): the `{\anN}` position stripper.
  - `SubRipParsing` (`parsers/subrip.py`): the SubRip line state machine.
  - `MicroDvdContent` and `MicroDvdParsing` (`parsers/microdvd.py`): `{start}{end}content` lines, `{code:value}`
    control codes and DEFAULT codes.
- **Writers.**
  - `HtmlInjection` (`exporters/html_injection.py`): tags spliced into text.
  - `SubRipExport` (`exporters/subrip.py`): numbered blocks with timestamps and `<font>` tags.
  - `MicroDvdExport` (`exporters/microdvd.py`): `{start}{end}` frame lines with control codes.
- **Python semantics the code relies on.**
  - `Wrappers`: `Option`, `Result` and the Python exceptions that are modelled as errors.
  - `PyStr`: `strip`, `split`, `splitlines`, `replace`, `int()`, `str()`, hex formatting and `lower`/`upper`.
  - `SetDicts`: a `defaultdict(set)` that keeps its insertion order.
  - `Sorting`: Python's stable `sort` and `sorted` on strings.
  - `Splicing`: right-to-left insertion of strings at offsets.

Objects that the source changes in place are Dafny classes:

- `Times.TimeObject` for `+=` and `-=`;
- `Subtitles.Subtitle`;
- the tag parsers `HtmlParsing.TagParser` and `SsaParsing.SsaTagParser`;
- the readers `SubRipParsing.SubRipParser` and `MicroDvdParsing.MicroDvdParser`;
- the writers `HtmlInjection.HtmlInjector`, `SubRipExport.SubRipExporter` and `MicroDvdExport.MicroDvdExporter`.

Their methods carry the source's loops and are proved against specification functions. The
lemmas next to those functions state what the source promises: bounds, read-back through the
matching reader, erasure of inserted tags, ordering, and which inputs raise which exception.

The two readers that work line by line or event by event also have a value form. For the markup
parser, `Markup` is the parser's state and `AfterEvents` hands the events to the handlers one
after another. `TagParser.Feed` ends in that state, and `TagParser.Close` leaves `ClosedText`
and `ClosedFormattings` of it. For the SubRip reader, `Reader` is what is pending between
lines, and `ReadLines` and `ReadSrt` read a text the way `parse_text` does. Each handler method
ends in the reader its function gives, so `SubRipParser.ParseText` ends in `ReadSrt` of the
reader it started from. Lemmas such as `OneBlock` and `StrayLineJoinsCue` then state which cues
a given block of lines yields.

Python exceptions are values of the `Result` type. A method returns `Err(ValueError)`,
`Err(IndexError)` or `Err(AttributeError)` exactly where the source raises that exception.

The following are parameters rather than computations:

- floating point: frames to milliseconds and back, `float()`, and `str()` of a frame rate;
- the iteration order of a Python set;
- the table of named HTML colours;
- the host HTML tokenizer.

## Model

| member | source | states |
|---|---|---|
| Times.ToHumanTime | pysubtools2/subtitle/time.py:18-32 | minutes and seconds are in 0..59, milliseconds in 0..999, and hours, minutes, seconds and milliseconds recombine to the input; the hours are non-negative exactly when the time is |
| Times.FromHumanTimeOfParts | pysubtools2/subtitle/time.py:18-46 | `from_human_time` of the parts of `human_time` gives the time back |
| Times.ToHumanTimeOfInRangeParts | pysubtools2/subtitle/time.py:18-46 | parts with minutes and seconds below 60 and milliseconds below 1000 are exactly what `human_time` gives for the time `from_human_time` builds from them |
| Times.Sub | pysubtools2/subtitle/time.py:107-118 | `-` clamps: the result is never negative, is at least the plain difference, and is either 0 or that difference |
| Times.RSub | pysubtools2/subtitle/time.py:129-137 | reflected `-` does not clamp: result plus the time is the left operand |
| Times.AddCommutes | pysubtools2/subtitle/time.py:88-96 | `a + b == b + a` on times (`__radd__` is `__add__`) |
| Times.SubUndoesAdd | pysubtools2/subtitle/time.py:88-118 | for a non-negative time, adding and then subtracting the same operand gives it back |
| Times.SubAndRSub | pysubtools2/subtitle/time.py:107-137 | clamped `a - b` equals the reflected difference exactly when `a >= b` |
| Times.Compare | pysubtools2/subtitle/time.py:62-86 | every comparison raises ValueError exactly when the operand is not a time |
| Times.ComparisonsAreOneTotalOrder | pysubtools2/subtitle/time.py:62-86 | `==` is equality of times, `<`/`>` and `<=`/`>=` are converses, `<=` is `<` or equal, any two times are comparable, `>=` is not `<` |
| Times.TimeObject.constructor | pysubtools2/subtitle/time.py:15-16 | the object holds the given milliseconds |
| Times.TimeObject.Plus | pysubtools2/subtitle/time.py:88-96 | `+` returns a fresh object with the sum and leaves this one unchanged |
| Times.TimeObject.PlusAssign | pysubtools2/subtitle/time.py:98-105 | `+=` changes this object to the sum and returns it |
| Times.TimeObject.Minus | pysubtools2/subtitle/time.py:107-118 | `-` returns a fresh object with the clamped difference |
| Times.TimeObject.MinusAssign | pysubtools2/subtitle/time.py:120-127 | `-=` changes this object to the unclamped difference, which may be negative, and returns it |
| Times.TimeObject.ReflectedMinus | pysubtools2/subtitle/time.py:129-137 | `other - t` returns a fresh object with the unclamped difference |
| Formattings.ClassifierValue | pysubtools2/subtitle/formatting.py:10-19 | every position classifier has a value in 1..9 |
| Formattings.ClassifierOf | pysubtools2/subtitle/formatting.py:10-19 | `PositionClassifier(v)` exists exactly for v in 1..9 and has value v |
| Formattings.ClassifierOfValue | pysubtools2/subtitle/formatting.py:10-19 | each classifier is found again from its value, so the nine values are distinct |
| Formattings.ClassifierGrid | pysubtools2/subtitle/formatting.py:10-19 | value = 3·row + column + 1: bottom row 1-3, middle 4-6, top 7-9, each left to right |
| Formattings.OverlapsIsSharedOffset | pysubtools2/subtitle/formatting.py:27-31 | `overlaps` is symmetric, and for ranges with start ≤ end it holds exactly when some offset is enclosed by both (both ends inclusive, so touching ranges overlap) |
| Formattings.ToHex | pysubtools2/subtitle/formatting.py:202-206 | `to_hex` is seven characters starting with `#` |
| Formattings.ToBgrHex | pysubtools2/subtitle/formatting.py:208-212 | `to_bgr_hex` is seven characters starting with `$` |
| Formattings.FromHex | pysubtools2/subtitle/formatting.py:174-181 | `from_hex` fails only with ValueError |
| Formattings.FromBgrHex | pysubtools2/subtitle/formatting.py:164-172 | `from_bgr_hex` fails only with ValueError |
| Formattings.FromHexToHex | pysubtools2/subtitle/formatting.py:174-206 | `from_hex(to_hex(c))` is c |
| Formattings.FromBgrHexToBgrHex | pysubtools2/subtitle/formatting.py:164-212 | `from_bgr_hex(to_bgr_hex(c))` is c |
| Formattings.BgrIsSwappedRgb | pysubtools2/subtitle/formatting.py:164-181 | on text without `#` and `$`, the BGR reading succeeds exactly when the RGB one does, with red and blue exchanged |
| Formattings.ColorFromString | pysubtools2/subtitle/formatting.py:187-200 | `from_string` gives None exactly when the stripped, lower-cased text is neither hex nor a known colour name |
| Formattings.ColorFromStringToHex | pysubtools2/subtitle/formatting.py:187-206 | whatever the named colours, `from_string(to_hex(c))` is c |
| Formattings.Attributes | pysubtools2/subtitle/formatting.py:223-285 | `get_attributes` is empty exactly for bold, italic, underline and strikethrough |
| Formattings.HtmlTag | pysubtools2/subtitle/formatting.py:48-281 | `get_html_tag` raises ValueError exactly for a position other than "start" and "end" |
| Formattings.HtmlTagIsNameAndAttributes | pysubtools2/subtitle/formatting.py:48-285 | the start tag is the element name followed by the attributes when there are any, and the end tag closes the same element |
| Formattings.PlainStartTag | pysubtools2/subtitle/formatting.py:49-55 | the plain styles open with `<b>`, `<i>`, `<u>`, `<s>` |
| Formattings.FontStartTag | pysubtools2/subtitle/formatting.py:223-281 | colour, face and size open with `<font ` + their attribute text + `>` |
| Formattings.EndTagIsName | pysubtools2/subtitle/formatting.py:48-230 | every end tag is `</name>` |
| Formattings.Fields | pysubtools2/subtitle/formatting.py:48-339 | the dataclass fields in declaration order: every variant compares at least one field; a span's inherited start and end come first, a plain style has just those two, and a font tag adds exactly one more |
| Formattings.DataclassEqIsEquality | pysubtools2/subtitle/formatting.py:324-339 | the generated `__eq__` holds exactly for the same variant with equal fields; for positions it overrides the catch-all of `Position` |
| Subtitles.Duration | pysubtools2/subtitle/subtitle.py:22-24 | the duration is never negative: end minus start when the cue does not run backwards, otherwise 0 |
| Subtitles.JoinedWordsLength | pysubtools2/subtitle/subtitle.py:26-29 | `"".join(s.split())` is as long as the number of non-whitespace characters of s |
| Subtitles.CharacterCount | pysubtools2/subtitle/subtitle.py:26-29 | the count is at most the text length, and is the text length when whitespace counts |
| Subtitles.CharacterCountIsNonSpace | pysubtools2/subtitle/subtitle.py:26-29 | without whitespace, the count is the number of non-whitespace characters |
| Subtitles.NonSpaceCountAppend | pysubtools2/subtitle/subtitle.py:26-29 | the non-whitespace count of a concatenation is the sum of the counts |
| Subtitles.LineCount | pysubtools2/subtitle/subtitle.py:31-32 | a cue has no lines exactly when its text is empty |
| Subtitles.OverlapsSymmetric | pysubtools2/subtitle/subtitle.py:34-35 | `a.overlaps(b)` equals `b.overlaps(a)` |
| Subtitles.Distance | pysubtools2/subtitle/subtitle.py:37-41 | the distance is never negative |
| Subtitles.DistanceIsGap | pysubtools2/subtitle/subtitle.py:34-41 | distance is symmetric, is zero exactly for overlapping cues, and for forward cues that do not overlap is the gap between the end of the first and the start of the second |
| Subtitles.FormattingOfKind | pysubtools2/subtitle/subtitle.py:43-49 | the result has the requested class and is the first formatting of that class in the list; None exactly when the list has none |
| Subtitles.LinesOfFormatting | pysubtools2/subtitle/subtitle.py:51-57 | a non-empty run of consecutive line numbers starting at the number of `\n` before the span start |
| Subtitles.LinesOfFormattingWithin | pysubtools2/subtitle/subtitle.py:51-57 | for a span inside the text, the run goes from the line of the start to the line of the end and stays within the text's lines |
| Subtitles.Subtitle.constructor | pysubtools2/subtitle/subtitle.py:81 | the list holds the given cues |
| Subtitles.Subtitle.Append | pysubtools2/subtitle/subtitle.py:81 | `append` puts the cue at the end and changes nothing else |
| Subtitles.Subtitle.SetEnd | pysubtools2/parsers/microdvd.py:155-156 | setting the end of a cue held by reference changes that cue's end in the list and nothing else |
| Subtitles.Subtitle.SortByStart | pysubtools2/exporters/microdvd.py:55 | the list is replaced by its stable sort by start time: ordered, a permutation of the old list |
| HtmlParsing.BuildStartTag | pysubtools2/parsers/html_parsing.py:170-181 | the rebuilt tag starts with `<` and the tag name and ends with `>`; with no attributes it is exactly `<tag>`; what stands between is stated by BuildStartTagReadBack |
| HtmlParsing.BuildStartTagReadBack | pysubtools2/parsers/html_parsing.py:170-181 | the rebuilt tag reads back as its tag name and its attributes, in order, each as ` name="value"` or ` name`, for names without space, `=` or `"` and values without `"` |
| HtmlParsing.ReadAttributesText | pysubtools2/parsers/html_parsing.py:175-179 | the attribute text written attribute after attribute reads back as those attributes, in order |
| HtmlParsing.ReadAttributeCons | pysubtools2/parsers/html_parsing.py:175-179 | one attribute written in front of further attribute text is read first, and the rest from just after it |
| HtmlParsing.ReadValuedAttribute | pysubtools2/parsers/html_parsing.py:176-177 | ` name="value"` is read as that name and value, and takes exactly its own characters |
| HtmlParsing.ReadBareAttribute | pysubtools2/parsers/html_parsing.py:178-179 | ` name` is read as that name without a value, and takes exactly its own characters |
| HtmlParsing.FontFromAttribute | pysubtools2/parsers/html_parsing.py:151-167 | one attribute yields at most one font formatting over the given range; a missing or empty value yields none |
| HtmlParsing.FontFromAttributes | pysubtools2/parsers/html_parsing.py:144-168 | at most one formatting per attribute, each a font formatting over the given range |
| HtmlParsing.FontFromAttributesAppend | pysubtools2/parsers/html_parsing.py:151-167 | attributes are read in order: the result for a + b is the result for a followed by the result for b |
| HtmlParsing.FaceAttributeKept | pysubtools2/parsers/html_parsing.py:154-161 | a non-empty face is kept whatever the case of the attribute name |
| HtmlParsing.SizeAttributeKept | pysubtools2/parsers/html_parsing.py:162-165 | a size attribute written as an integer, with a `-` or, when not negative, a `+` in front, gives that text size |
| HtmlParsing.ColorAttributeKept | pysubtools2/parsers/html_parsing.py:154-158 | a colour written as its own `#rrggbb` gives that colour, whatever the named colours |
| HtmlParsing.InitValidFormatting | pysubtools2/parsers/html_parsing.py:128-142 | an unknown tag gives nothing, `b`/`i`/`u`/`s` give one formatting of that style, `font` gives what its attributes give; all over the frame's range |
| HtmlParsing.CloseFrames | pysubtools2/parsers/html_parsing.py:77-81 | frames of known tags are closed at the final position, the others keep their end |
| HtmlParsing.CollectFormattings | pysubtools2/parsers/html_parsing.py:88-98 | only span formattings are collected |
| HtmlParsing.CollectFormattingsWithin | pysubtools2/parsers/html_parsing.py:88-98 | formattings built from frames within the text lie within the text |
| HtmlParsing.Unclosed | pysubtools2/parsers/html_parsing.py:88-92 | at most one re-inserted start tag per frame |
| HtmlParsing.UnclosedWithin | pysubtools2/parsers/html_parsing.py:88-92 | re-inserted tags sit at offsets within the text |
| HtmlParsing.SortedUnclosedAscending | pysubtools2/parsers/html_parsing.py:101 | the re-inserted tags, visited from the highest offset down, are in ascending order and within the text |
| HtmlParsing.Shift | pysubtools2/parsers/html_parsing.py:106-111 | a span starting at or after the splice point moves by the tag length; one enclosing it grows by that length; one before it is unchanged |
| HtmlParsing.ShiftAll | pysubtools2/parsers/html_parsing.py:106-111 | every formatting is shifted, one by one, and stays a span |
| HtmlParsing.ShiftedBack | pysubtools2/parsers/html_parsing.py:101-111 | the splices keep the number of formattings and their kind |
| HtmlParsing.ShiftKeepsWithin | pysubtools2/parsers/html_parsing.py:101-111 | a span within the old text is within the new text |
| HtmlParsing.TopmostFrame | pysubtools2/parsers/html_parsing.py:56-57 | the found frame has that tag and no frame above it does; None exactly when no frame has it |
| HtmlParsing.StepEventValid | pysubtools2/parsers/html_parsing.py:48-71 | handling a start tag, an end tag or data keeps the position equal to the length of the emitted text and every frame within it |
| HtmlParsing.AfterEventsValid | pysubtools2/parsers/html_parsing.py:48-71 | handling events one after another keeps that invariant and never moves the position back |
| HtmlParsing.AfterEventsSnoc | pysubtools2/parsers/html_parsing.py:48-71 | events are handled in order: one more event is one more handler call on the state the earlier ones left |
| HtmlParsing.FramesOfStartTags | pysubtools2/parsers/html_parsing.py:48-66 | every start tag makes exactly one frame, open or done, and no other event makes or drops one |
| HtmlParsing.TextIsData | pysubtools2/parsers/html_parsing.py:55-71 | when every end tag finds an open frame of its name, the emitted text grows by exactly the data, in order |
| HtmlParsing.TagAroundData | pysubtools2/parsers/html_parsing.py:48-71 | a start tag, data and the matching end tag emit the data and leave one done frame from where the data starts to where it ends; nothing else changes |
| HtmlParsing.ClosedSpansWithin | pysubtools2/parsers/html_parsing.py:77-81 | closing the open frames at the final position keeps every frame within the emitted text |
| HtmlParsing.ShiftedBackWithin | pysubtools2/parsers/html_parsing.py:101-111 | splices at offsets within the text move spans within the text to spans within the text lengthened by the spliced tags |
| HtmlParsing.ClosedFormattingsWithin | pysubtools2/parsers/html_parsing.py:77-111 | the formattings `close` leaves lie within the emitted text lengthened by the start tags spliced back |
| HtmlParsing.ClosedWithin | pysubtools2/parsers/html_parsing.py:74-111 | the formattings `close` leaves are spans inside the text it leaves; the start tags are spliced at ascending offsets within the emitted text, and without them the pieces rejoin to that text |
| HtmlParsing.MarkupWithin | pysubtools2/parsers/html_parsing.py:36-111 | from a fresh parser, the formattings left after the events and `close` are spans inside the final text |
| HtmlParsing.DataOnlyState | pysubtools2/parsers/html_parsing.py:69-71 | data alone opens no frame and emits exactly the data, in order |
| HtmlParsing.DataOnlyMarkup | pysubtools2/parsers/html_parsing.py:69-111 | text without markup comes out of a fresh parser unchanged and with no formatting |
| HtmlParsing.BoldAroundData | pysubtools2/parsers/html_parsing.py:48-111 | `<b>`, data, `</b>` from a fresh parser give the data as the text and one bold formatting over all of it |
| HtmlParsing.TagParser.constructor | pysubtools2/parsers/html_parsing.py:37-45 | position 0, empty text, no parts, frames or formattings |
| HtmlParsing.TagParser.HandleStartTag | pysubtools2/parsers/html_parsing.py:47-52 | an open frame at the current position is pushed; nothing else changes |
| HtmlParsing.TagParser.HandleEndTag | pysubtools2/parsers/html_parsing.py:54-66 | the topmost frame of that name leaves the stack and is recorded as closed at the current position; with none, `</tag>` goes into the text and the position moves by its length |
| HtmlParsing.TagParser.HandleData | pysubtools2/parsers/html_parsing.py:68-71 | the data is appended and the position moves by its length |
| HtmlParsing.TagParser.Feed | pysubtools2/parsers/html_parsing.py:48-71 | the state after the events is the handlers applied one event after another to the state before (AfterEvents), so every property proved of AfterEvents holds of the parser |
| HtmlParsing.TagParser.Close | pysubtools2/parsers/html_parsing.py:73-111 | the text is ClosedText and the formattings ClosedFormattings of the state before the call: the joined parts with the unclosed start tags spliced back in, and the formattings of the closed frames shifted by the splices, each within the final text |
| HtmlParsing.TagParser.CloseOpenFrames | pysubtools2/parsers/html_parsing.py:77-81 | the open frames are closed and moved to the recorded frames |
| HtmlParsing.TagParser.CollectClosedFrames | pysubtools2/parsers/html_parsing.py:85-98 | the formattings of the closed frames and the start tags of the unclosed ones, in frame order |
| HtmlParsing.TagParser.SpliceUnclosed | pysubtools2/parsers/html_parsing.py:101-111 | the tags are spliced into the text from the highest offset down, each shifting the formattings, which stay within the text |
| HtmlParsing.TagParser.ShiftFormattings | pysubtools2/parsers/html_parsing.py:106-111 | each formatting is shifted for one splice and stays within the longer text |
| HtmlParsing.TagParser.Clear | pysubtools2/parsers/html_parsing.py:113-120 | back to the initial state |
| SsaParsing.Backslashes | pysubtools2/parsers/ssa_control_code_parsing.py:9 | `\\*` takes the whole run of backslashes |
| SsaParsing.LastBrace | pysubtools2/parsers/ssa_control_code_parsing.py:9 | the result is the last `}` of the range; None exactly when there is none |
| SsaParsing.MatchAt | pysubtools2/parsers/ssa_control_code_parsing.py:9 | None exactly when the pattern matches nowhere at that point; otherwise a match of the pattern there, the one with the most backslashes and then the longest group, as the backtracking engine picks |
| SsaParsing.MatchBounds | pysubtools2/parsers/ssa_control_code_parsing.py:9 | every match at a point ends inside the non-whitespace run after the `{`, at or before its last `}`, with no more backslashes than the run holds |
| SsaParsing.Matches | pysubtools2/parsers/ssa_control_code_parsing.py:31 | exactly the list `finditer` reports: the leftmost match from the scan point, then the same from its end, until none is left; ascending and non-overlapping inside the text |
| SsaParsing.FindIterUnique | pysubtools2/parsers/ssa_control_code_parsing.py:31 | only one list of matches is what `finditer` reports from a point |
| SsaParsing.RemoveMatches | pysubtools2/parsers/ssa_control_code_parsing.py:35 | `sub("", text)` is the text between the matches `finditer` reports, in order: exactly those matches are removed and nothing else |
| SsaParsing.RemoveMatchesLength | pysubtools2/parsers/ssa_control_code_parsing.py:31-35 | the remaining and matched lengths add up to the input length |
| SsaParsing.RemoveMatchesWithoutBrace | pysubtools2/parsers/ssa_control_code_parsing.py:31-35 | text without `{` has no directive and is left as it is |
| SsaParsing.TagPosition | pysubtools2/parsers/ssa_control_code_parsing.py:17-25 | for `an` + digits, a position is found exactly when the number is 1..9, and it is the classifier of that number |
| SsaParsing.DropPrefixAn | pysubtools2/parsers/ssa_control_code_parsing.py:19 | for `an` + digits, removing every `an` leaves the digits, and `int` reads them |
| SsaParsing.FirstPosition | pysubtools2/parsers/ssa_control_code_parsing.py:20-22 | a position already set is kept; otherwise the result comes from one of the tags, and is None only when no tag gives one |
| SsaParsing.FirstPositionStep | pysubtools2/parsers/ssa_control_code_parsing.py:20-22 | handling one tag and then the rest is the same as handling them all |
| SsaParsing.SsaTagParser.constructor | pysubtools2/parsers/ssa_control_code_parsing.py:13-15 | empty text, no position |
| SsaParsing.SsaTagParser.HandleTag | pysubtools2/parsers/ssa_control_code_parsing.py:17-28 | the first valid position is kept, and every `{tag}` is removed from the current text |
| SsaParsing.SsaTagParser.Feed | pysubtools2/parsers/ssa_control_code_parsing.py:30-35 | the text becomes the input with every directive removed; the position is the first valid one among the position directives, in text order |
| SsaParsing.SsaTagParser.Clear | pysubtools2/parsers/ssa_control_code_parsing.py:37-39 | empty text, no position |
| SsaParsing.GreedyGroupExample | pysubtools2/parsers/ssa_control_code_parsing.py:9-35 | the greedy group swallows up to the last `}` of the run: `{\an8}Hello}` is one directive, not a position, and nothing of it is left |
| SsaParsing.GreedyGroupMatch | pysubtools2/parsers/ssa_control_code_parsing.py:9 | the match at the start of `{\an8}Hello}` runs to its end |
| SsaParsing.GreedyGroupMatches | pysubtools2/parsers/ssa_control_code_parsing.py:31 | `finditer` on `{\an8}Hello}` reports one match, over the whole text |
| SsaParsing.GreedyGroupRemoved | pysubtools2/parsers/ssa_control_code_parsing.py:35 | `sub` on `{\an8}Hello}` leaves nothing |
| SubRipParsing.FirstThree | pysubtools2/parsers/subrip.py:267 | `ms[:3]` is the first three characters, or the whole field when shorter |
| SubRipParsing.ParseTimestamp | pysubtools2/parsers/subrip.py:262-272 | a timestamp fails only with ValueError; its value for any input is stated by TimestampValue, TimestampWithoutTwoColons and TimestampWithoutSeparator |
| SubRipParsing.TimestampValue | pysubtools2/parsers/subrip.py:262-272 | `h:m:s` then `,` (or, in text without `,`, `.`) then `ms` is h·3600000 + m·60000 + s·1000 + the first three characters of ms, each read by `int()` (so unpadded, signed and space-padded fields count, and `2345` gives 234); ValueError exactly when one field is not an integer |
| SubRipParsing.TimestampFieldsOf | pysubtools2/parsers/subrip.py:264-267 | such a timestamp is cut into exactly its hours, minutes, seconds and millisecond fields |
| SubRipParsing.TimestampWithoutTwoColons | pysubtools2/parsers/subrip.py:264 | a timestamp with fewer than two `:` is ValueError |
| SubRipParsing.TimestampWithoutSeparator | pysubtools2/parsers/subrip.py:265-266 | a timestamp with neither `,` nor `.` after its second `:` is ValueError |
| SubRipParsing.ReadCoordinate | pysubtools2/parsers/subrip.py:278-290 | a coordinate token fails only with ValueError |
| SubRipParsing.TokenWithoutColonSkipped | pysubtools2/parsers/subrip.py:279-280 | a token without `:` leaves the coordinates as they are |
| SubRipParsing.ReadCoordinates | pysubtools2/parsers/subrip.py:277-290 | the tokens fail only with ValueError; which tokens fail and what they give is stated by ReadCoordinatesErr and ReadCoordinatesValue |
| SubRipParsing.ReadCoordinateOf | pysubtools2/parsers/subrip.py:278-290 | one token fails exactly when it is `X1`, `X2`, `Y1` or `Y2` with a value `int()` rejects; otherwise it sets only the coordinate its label names, and a token without `:` or with another label changes nothing |
| SubRipParsing.ReadCoordinatesErr | pysubtools2/parsers/subrip.py:277-290 | reading the tokens fails exactly when one of them is a labelled coordinate that is not an integer |
| SubRipParsing.ReadCoordinatesValue | pysubtools2/parsers/subrip.py:277-290 | otherwise each coordinate is the value of the last token carrying its label, and keeps its earlier value when none does |
| SubRipParsing.CoordinateAfterCons | pysubtools2/parsers/subrip.py:277-290 | the first token gives the starting value of each coordinate for the tokens after it |
| SubRipParsing.CoordinateAfterSome | pysubtools2/parsers/subrip.py:292-293 | without a malformed coordinate, a coordinate is set exactly when some token carries its label |
| SubRipParsing.AbsolutePositionOf | pysubtools2/parsers/subrip.py:274-295 | the coordinates fail only with ValueError, and what they give is an absolute position; AbsolutePositionValue states when and which |
| SubRipParsing.AbsolutePositionValue | pysubtools2/parsers/subrip.py:274-295 | ValueError exactly when a labelled coordinate is not an integer; otherwise a position exactly when each of X1, X2, Y1 and Y2 labels some token, made of the last value given for each |
| SubRipParsing.PositionOfCoordinates | pysubtools2/parsers/subrip.py:292-295 | coordinates read without error give a position exactly when all four labels occur, made of those four values |
| SubRipParsing.ParseTimeLine | pysubtools2/parsers/subrip.py:353-372 | a time line fails only with ValueError, and the position it carries is absolute; TimeLineValue states when it fails |
| SubRipParsing.TimeLineValue | pysubtools2/parsers/subrip.py:356-370 | a line cut at its first `-->` fails, with ValueError, exactly when the start time, the end time or the position after it is malformed, and otherwise gives those two times and that position |
| SubRipParsing.LineWithoutArrowSkipped | pysubtools2/parsers/subrip.py:356-358 | a line without `-->` gives nothing and no error |
| SubRipParsing.TimesAndPosition | pysubtools2/parsers/subrip.py:360-370 | the two sides of `-->` fail only with ValueError; otherwise both times are set |
| SubRipParsing.EndPosition | pysubtools2/parsers/subrip.py:364-370 | without an `X` in the upper-cased end side there is no position and no error |
| SubRipParsing.AppendNew | pysubtools2/parsers/subrip.py:316-321 | the filtered extend keeps the old list as a prefix |
| SubRipParsing.AppendNewMembers | pysubtools2/parsers/subrip.py:297-321 | every item ends up in the list, nothing else is added, and a list without repeats stays without repeats |
| SubRipParsing.AppendNewConcat | pysubtools2/parsers/subrip.py:316-321 | the lazy filter reads items one after the other: extending by a + b is extending by a, then by b |
| SubRipParsing.PositionPart | pysubtools2/parsers/subrip.py:307-311 | the stripper contributes at most one formatting, a relative position |
| SubRipParsing.AppendNewSpansIn | pysubtools2/parsers/subrip.py:304-321 | appending positions and markup formattings that lie in the text keeps every span in the text |
| SubRipParsing.StoredFormattings | pysubtools2/parsers/subrip.py:304-334 | a stored cue's formattings begin with the time line's position, contain the stripper's position, have no repeats and have their spans in the text |
| SubRipParsing.CueFormattingsParsed | pysubtools2/parsers/subrip.py:304-342 | a stored cue's formattings (CueFormattings) begin with the time line's position, hold the stripper's position, have no repeats and lie within the cue text (CueText) |
| SubRipParsing.ReadLinesAppend | pysubtools2/parsers/subrip.py:386-396 | the lines are read in order: reading a + b is reading a, then b from where a left off; the first error ends the reading |
| SubRipParsing.ReadLinesSnoc | pysubtools2/parsers/subrip.py:386-396 | one more line is one more handler call on the reader the earlier lines left, unless they already failed |
| SubRipParsing.ReadLinesErrStays | pysubtools2/parsers/subrip.py:386-396 | once a line fails, reading further lines fails too |
| SubRipParsing.ReadLinesStepErr | pysubtools2/parsers/subrip.py:386-396 | a line that fails after a successful reading makes the longer reading fail |
| SubRipParsing.ReadLinesStep | pysubtools2/parsers/subrip.py:386-396 | a line read successfully from where the earlier lines left off gives the reader for the longer list |
| SubRipParsing.ReadLineKeepsUnits | pysubtools2/parsers/subrip.py:328-379 | no handler drops or changes a cue already read: the list only grows at its end |
| SubRipParsing.ReadLinesKeepsUnits | pysubtools2/parsers/subrip.py:381-396 | reading any lines keeps every earlier cue as a prefix of the list |
| SubRipParsing.UnitsExtendTrans | pysubtools2/parsers/subrip.py:328-342 | keeping the list as a prefix composes over successive steps |
| SubRipParsing.TimeLineSome | pysubtools2/parsers/subrip.py:353-372 | a time line with both times gives the content state, those times, and the pending formattings followed by the position if there is one |
| SubRipParsing.IndexStarts | pysubtools2/parsers/subrip.py:344-349 | in the index state with no times, an index line moves to the time state and stores nothing |
| SubRipParsing.TimesRead | pysubtools2/parsers/subrip.py:353-372 | in the time state, a time line with both times sets them, adds any position and moves to the content state |
| SubRipParsing.OneBlockTimed | pysubtools2/parsers/subrip.py:344-372 | from the index state with no times, an index line and a time line give the content state with those times and any position |
| SubRipParsing.ContentThenBlank | pysubtools2/parsers/subrip.py:374-379 | in the content state, a content line joins the text with a line break, then a blank line leaves a pending line break and the index state |
| SubRipParsing.OneBlockPending | pysubtools2/parsers/subrip.py:344-379 | index, time line, one content line and a blank line leave the cue pending: its times and position, the stripped line and a line break as text, a line break kept aside |
| SubRipParsing.IndexStores | pysubtools2/parsers/subrip.py:344-351 | with both times set, an index line stores the pending cue and moves to the time state |
| SubRipParsing.FlushedTimed | pysubtools2/parsers/subrip.py:328-342 | storing with both times set appends exactly one cue, with those times, the CueText of the text and kept line breaks, and its CueFormattings, and clears what was pending |
| SubRipParsing.OneBlock | pysubtools2/parsers/subrip.py:344-379 | one block (index, time line, one content line, blank line) followed by the next index adds exactly one cue, its text the content line and two line breaks after what was kept, its formattings the pending ones and the time line's position first |
| SubRipParsing.StrayLineJoinsCue | pysubtools2/parsers/subrip.py:344-379 | a non-index line after the blank line replaces the kept line break and is stored in the cue text behind a line break |
| SubRipParsing.SubRipParser.constructor | pysubtools2/parsers/subrip.py:239-252 | an empty subtitle, the index state, nothing pending, fresh helper parsers |
| SubRipParsing.SubRipParser.FormattingAlreadyExists | pysubtools2/parsers/subrip.py:297-302 | true exactly when an equal formatting is already gathered (equality implies the same class) |
| SubRipParsing.SubRipParser.ParseAbsolutePosition | pysubtools2/parsers/subrip.py:274-295 | ValueError exactly when the coordinates do; otherwise the position is appended by the method itself when all four coordinates are there; nothing else changes |
| SubRipParsing.SubRipParser.ParseUnitText | pysubtools2/parsers/subrip.py:304-326 | the text kept is CueText of the content and the formattings gain the stripper's position and then the markup formattings of that content, each only if new; times and state are kept and the helpers are cleared |
| SubRipParsing.SubRipParser.ClearHelpers | pysubtools2/parsers/subrip.py:325-326 | both helper parsers are back in their initial state |
| SubRipParsing.SubRipParser.AddPosition | pysubtools2/parsers/subrip.py:307-311 | the stripper's position is appended unless already gathered |
| SubRipParsing.SubRipParser.RunStripper | pysubtools2/parsers/subrip.py:305-312 | the position and text the stripper gives for the stripped text |
| SubRipParsing.SubRipParser.RunMarkup | pysubtools2/parsers/subrip.py:314-322 | from a fresh markup parser, the text and formattings are MarkupText and MarkupFormattings of the content's events, the formattings within the text |
| SubRipParsing.SubRipParser.ExtendNew | pysubtools2/parsers/subrip.py:316-321 | the list is extended by the items not already gathered, one at a time |
| SubRipParsing.SubRipParser.StoreUnit | pysubtools2/parsers/subrip.py:328-342 | the reader after the call is Flushed of the reader before: with both times set one cue with those times, its CueText and its CueFormattings is appended; otherwise the list is unchanged; then nothing is pending and the state is kept |
| SubRipParsing.SubRipParser.ParsePendingText | pysubtools2/parsers/subrip.py:329-330 | the text becomes CueText and the formattings CueFormattings of the pending ones and the kept text: they begin with the pending ones, hold the stripper's position, do not repeat and lie in the text |
| SubRipParsing.SubRipParser.StoreIfTimed | pysubtools2/parsers/subrip.py:331-335 | with both times set exactly the cue of those times, that text and those formattings joins the end of the list, otherwise the list is unchanged; the list stays well formed |
| SubRipParsing.AppendNewKeepsDistinct | pysubtools2/parsers/subrip.py:308-321 | appending only absent items keeps a list without repeats without repeats |
| SubRipParsing.AppendNewHoldsItems | pysubtools2/parsers/subrip.py:308-321 | every item offered is in the list afterwards |
| SubRipParsing.AppendNewAddsOnlyItems | pysubtools2/parsers/subrip.py:308-321 | nothing but the earlier list and the offered items is in the list afterwards |
| SubRipParsing.SubRipParser.StoreCue | pysubtools2/parsers/subrip.py:332-335 | a well-formed cue without repeats joins the list and keeps it valid |
| SubRipParsing.SubRipParser.ClearPending | pysubtools2/parsers/subrip.py:337-342 | times, texts and formattings are reset; the state is kept |
| SubRipParsing.SubRipParser.OnIndexState | pysubtools2/parsers/subrip.py:344-351 | the reader after the call is IndexLine of the reader before: an integer line moves to the time state and stores a timed pending cue; any other line is added to the kept text |
| SubRipParsing.SubRipParser.OnTimeState | pysubtools2/parsers/subrip.py:353-372 | ValueError exactly when the time line is malformed; otherwise the reader is TimeLine of the reader before: a line without `-->` changes nothing; otherwise both times, the absolute position if any, and the content state |
| SubRipParsing.SubRipParser.ReadTimes | pysubtools2/parsers/subrip.py:360-372 | ValueError exactly when a side is malformed; otherwise the times and position read from the two sides |
| SubRipParsing.SubRipParser.ReadEndPosition | pysubtools2/parsers/subrip.py:364-372 | ValueError exactly when the coordinates are malformed; otherwise the position, if all four are there, and the content state |
| SubRipParsing.SubRipParser.OnContentState | pysubtools2/parsers/subrip.py:374-379 | the reader after the call is ContentLine of the reader before: a blank line leaves a pending line break and returns to the index state; any other line is added to the text |
| SubRipParsing.SubRipParser.ParseText | pysubtools2/parsers/subrip.py:381-398 | ValueError exactly when ReadSrt fails for the reader before the call (the byte-order marks dropped, the lines split, stripped and read, then a last timed cue stored); otherwise the reader is ReadSrt of it, the subtitle is returned and the parser is left valid, so parse_text can be called again; cues are only appended, each well formed |
| SubRipParsing.SubRipParser.ReadAllLines | pysubtools2/parsers/subrip.py:386-396 | ValueError exactly when ReadLines fails on these lines from the reader before the call; otherwise the reader is ReadLines of it; cues are only appended |
| SubRipParsing.SubRipParser.ParseLine | pysubtools2/parsers/subrip.py:386-393 | ValueError exactly when ReadLine fails for the reader before the call; otherwise the reader is ReadLine of it; the parser stays valid and cues are only appended |
| MicroDvdContent.BracePair | pysubtools2/parsers/microdvd.py:24 | the first `}{` at or after the scan point; None exactly when there is none |
| MicroDvdContent.CharFrom | pysubtools2/parsers/microdvd.py:24-25 | the first occurrence of the character at or after the scan point; None exactly when there is none |
| MicroDvdContent.MatchSubShape | pysubtools2/parsers/microdvd.py:24 | a match reassembles the line as `{start}{end}content` with no `}` in the end field; a line that does not open with `{` never matches |
| MicroDvdContent.CutAround | pysubtools2/parsers/microdvd.py:24 | a line cut at its first `}{` and the next `}` is those pieces put back together |
| MicroDvdContent.MatchSubOfFields | pysubtools2/parsers/microdvd.py:24 | a line written from start and end fields without `}` reads back as exactly those fields and that content |
| MicroDvdContent.ControlCodes | pysubtools2/parsers/microdvd.py:25 | no code found holds a `}`, and text without `{` holds no code; ControlCodesExact states that the codes are exactly the groups `finditer` reports |
| MicroDvdContent.CodeSpansScan | pysubtools2/parsers/microdvd.py:25 | the spans scanned are what `finditer` reports: from each leftmost `{` to the first `}` after it, then on past that `}`, with no match skipped |
| MicroDvdContent.CodeScanUnique | pysubtools2/parsers/microdvd.py:25 | only one list of spans is what `finditer` reports from a point |
| MicroDvdContent.ControlCodesExact | pysubtools2/parsers/microdvd.py:25 | for any list of spans `finditer` could report, the codes are exactly their groups, in order |
| MicroDvdContent.CodeSpansShift | pysubtools2/parsers/microdvd.py:25 | the spans found in a text placed after another are those found in it alone, shifted by the length in front |
| MicroDvdContent.CodeParts | pysubtools2/parsers/microdvd.py:88-91 | a code is split into identifier and value exactly when it holds a `:` |
| MicroDvdContent.FromControlCode | pysubtools2/parsers/microdvd.py:28-54 | only `c` can fail, and only with ValueError: it fails exactly when the BGR hex value is rejected and otherwise gives that colour; `y` gives italic, bold and underline (in that order) exactly for the `i`, `b`, `u` in the value; `f` gives the font face named by the value; `s` gives the size `int(value)` exactly when the value is an integer and nothing otherwise; `p` gives the top centre only for `0`; unknown codes give nothing; spans cover the given range |
| MicroDvdContent.RemoveCodes | pysubtools2/parsers/microdvd.py:97 | removing codes never lengthens the line; RemoveCodesOfFlat states which characters remain |
| MicroDvdContent.CleanLineWithoutBrace | pysubtools2/parsers/microdvd.py:85-98 | a line without `{` is kept as it is |
| MicroDvdContent.CleanFlatLine | pysubtools2/parsers/microdvd.py:84-98 | for a line made of plain text without `{` and codes without braces, the codes found are exactly its codes, in order, and cleaning leaves exactly its plain text |
| MicroDvdContent.CodesOfFlat | pysubtools2/parsers/microdvd.py:25 | on such a line `finditer` reports exactly its code pieces, in order |
| MicroDvdContent.RemoveCodeOfFlat | pysubtools2/parsers/microdvd.py:97 | removing `{c}` from such a line drops exactly its code pieces c and keeps every other piece in order |
| MicroDvdContent.RemoveCodesOfFlat | pysubtools2/parsers/microdvd.py:97 | removing the codes one after the other from such a line drops exactly those code pieces, and the line stays of that form |
| MicroDvdContent.Drop | pysubtools2/parsers/microdvd.py:97 | the pieces kept are exactly those other than the code c, with the same plain text |
| MicroDvdContent.DropAll | pysubtools2/parsers/microdvd.py:97 | the pieces kept are exactly those that are not one of the codes, with the same plain text |
| MicroDvdContent.CleanLines | pysubtools2/parsers/microdvd.py:84-98 | every line is cleaned on its own, in order |
| MicroDvdContent.GatherCodeKeeps | pysubtools2/parsers/microdvd.py:88-95 | adding one code keeps keys distinct and sets non-empty, and sends upper-case identifiers to the whole cue and others to their line |
| MicroDvdContent.GlobalAddKeeps | pysubtools2/parsers/microdvd.py:80-93 | an upper-case identifier added to the whole-cue codes keeps the defaults in front, unchanged |
| MicroDvdContent.PerLineAddKeeps | pysubtools2/parsers/microdvd.py:94-95 | per-line keys keep naming an existing line and an identifier that is not upper case |
| MicroDvdContent.GatherLineKeeps | pysubtools2/parsers/microdvd.py:86-97 | gathering one line's codes keeps all of the above |
| MicroDvdContent.GatherLinesKeeps | pysubtools2/parsers/microdvd.py:80-98 | gathering every line's codes keeps all of the above |
| MicroDvdContent.EnumeratesNonEmpty | pysubtools2/parsers/microdvd.py:112-135 | listing a non-empty set gives a first element, so `list(val)[0]` exists |
| MicroDvdContent.EachValue | pysubtools2/parsers/microdvd.py:106-110 | each value's formattings in turn; the only error is ValueError; spans cover the entry's range |
| MicroDvdContent.JobFormattings | pysubtools2/parsers/microdvd.py:105-137 | an entry fails only with ValueError and its spans cover the entry's range |
| MicroDvdContent.Combine | pysubtools2/parsers/microdvd.py:104-137 | the first error wins; otherwise the formattings concatenate |
| MicroDvdContent.CombineAssociative | pysubtools2/parsers/microdvd.py:104-137 | combining runs does not depend on grouping |
| MicroDvdContent.RunJobs | pysubtools2/parsers/microdvd.py:104-137 | the entries fail only with ValueError |
| MicroDvdContent.RunJobsSpans | pysubtools2/parsers/microdvd.py:104-137 | every span produced covers the range of one of the entries |
| MicroDvdContent.RunJobsConcat | pysubtools2/parsers/microdvd.py:104-137 | running two lists of entries in sequence: the first error ends it, else the formattings concatenate |
| MicroDvdContent.RunJobsPrefixErr | pysubtools2/parsers/microdvd.py:104-137 | an exception in an entry ends the parse of the content: later entries add nothing |
| MicroDvdContent.GlobalJobs | pysubtools2/parsers/microdvd.py:102-116 | one entry per whole-cue code, in dictionary order, over the whole text [0, len(text)] |
| MicroDvdContent.LineLengths | pysubtools2/parsers/microdvd.py:118-120 | each line's length plus one |
| MicroDvdContent.AccumulateFrom | pysubtools2/parsers/microdvd.py:118-120 | as many running sums as items |
| MicroDvdContent.AccumulateIsOffset | pysubtools2/parsers/microdvd.py:118-120 | the k-th running sum is where line k + 1 starts in the joined text |
| MicroDvdContent.LineOfJoin | pysubtools2/parsers/microdvd.py:100 | in the lines joined with `\n`, each line sits at its offset |
| MicroDvdContent.OffsetStep | pysubtools2/parsers/microdvd.py:100-120 | the next line starts one past the end of this one |
| MicroDvdContent.LineBoundsAreLine | pysubtools2/parsers/microdvd.py:121-128 | the start and end read from the running sums are exactly line i's place in the joined text |
| MicroDvdContent.PerLineJobs | pysubtools2/parsers/microdvd.py:121-137 | one entry per per-line code, in dictionary order, over its line |
| MicroDvdContent.PerLineJobsAreLines | pysubtools2/parsers/microdvd.py:121-128 | every per-line entry spans exactly one line |
| MicroDvdContent.ContentFormattings | pysubtools2/parsers/microdvd.py:68-138 | a content's formattings fail only with ValueError |
| MicroDvdContent.RunJobsWholeOrLine | pysubtools2/parsers/microdvd.py:102-137 | entries each over the whole text or one line give spans that lie in the text and cover the whole text or exactly one line |
| MicroDvdContent.WholeOrLineWithin | pysubtools2/parsers/microdvd.py:100-128 | such a range lies in the text, and a line's range holds that line |
| MicroDvdContent.WholeOrLineConcat | pysubtools2/parsers/microdvd.py:102-137 | the whole-cue entries followed by per-line ones still each span the whole text or one line |
| MicroDvdContent.ContentSpans | pysubtools2/parsers/microdvd.py:68-138 | every span of a parsed content covers the whole text or exactly one of its lines |
| MicroDvdContent.ContentWithin | pysubtools2/parsers/microdvd.py:68-138 | the cue built from a content is well formed: its spans lie in its text |
| MicroDvdContent.EveryValueOnlyForUpperY | pysubtools2/parsers/microdvd.py:80-130 | only an upper-case `Y` has all its values rendered: per-line keys and defaults are never `Y`; the defaults stay first and unchanged |
| MicroDvdContent.RenderEntry | pysubtools2/parsers/microdvd.py:105-116 | the method renders an entry as the specification does: every value for `Y`, the first listed value otherwise |
| MicroDvdParsing.DefaultLineHasMarker | pysubtools2/parsers/microdvd.py:175-186 | a line whose start group is `DEFAULT` contains `{DEFAULT}`, so the substring test never rejects a default line |
| MicroDvdParsing.FirstDefaultLine | pysubtools2/parsers/microdvd.py:173-186 | the line found is a default line at or after the scan point |
| MicroDvdParsing.FirstDefaultLineSpec | pysubtools2/parsers/microdvd.py:173-202 | no default line comes before the one found; None exactly when there is no default line |
| MicroDvdParsing.AddDefaultKeeps | pysubtools2/parsers/microdvd.py:198-201 | adding a value under c, f, s, y or p keeps the defaults valid, and a new key goes last |
| MicroDvdParsing.DefaultCode | pysubtools2/parsers/microdvd.py:189-201 | one default code keeps the defaults valid: distinct keys among c, f, s, y, p, no empty set |
| MicroDvdParsing.DefaultCodes | pysubtools2/parsers/microdvd.py:189-201 | every code of the default line keeps the defaults valid |
| MicroDvdParsing.DefaultsAfter | pysubtools2/parsers/microdvd.py:173-202 | the defaults stay valid, and without a default line they are unchanged |
| MicroDvdParsing.CloseOpenCue | pysubtools2/parsers/microdvd.py:155-156 | only the previous cue can change, only in its end, and only when its end was empty; then it ends at the new start |
| MicroDvdParsing.ReadFields | pysubtools2/parsers/microdvd.py:153-171 | the open previous cue is closed at the new start; ValueError exactly when the end is not empty and `int()` rejects it (a signed end such as `-5` is read) or the content's control codes raise; an empty end means start + 8000 ms and leaves the new cue open; otherwise one cue with that start is appended and becomes the previous one, its text the `|`-separated lines without their codes joined by line breaks and its formattings those the defaults and codes give |
| MicroDvdParsing.AppendContent | pysubtools2/parsers/microdvd.py:167-171 | ValueError exactly when the content's control codes raise, and then nothing changes; otherwise the cue is appended with the given times, its text the `|`-separated lines without their codes joined by line breaks and its formattings those the defaults and codes give, and it becomes the previous one |
| MicroDvdParsing.ReadUnit | pysubtools2/parsers/microdvd.py:140-171 | a line that does not match, or whose start is not numeric, changes nothing; at most one cue is added |
| MicroDvdParsing.ReadUnitKeepsEarlier | pysubtools2/parsers/microdvd.py:140-171 | of the cues read before, only the previous open one can change, and only its end |
| MicroDvdParsing.ReadUnits | pysubtools2/parsers/microdvd.py:225-226 | at most one cue per line; the only error is ValueError |
| MicroDvdParsing.ReadUnitsPrefixErr | pysubtools2/parsers/microdvd.py:225-226 | an exception ends the parse: lines after it change nothing |
| MicroDvdParsing.OpenCueClosedByNext | pysubtools2/parsers/microdvd.py:155-165 | a cue with an empty end ends exactly where the next numbered cue starts |
| MicroDvdParsing.OpenFieldsClosedByNext | pysubtools2/parsers/microdvd.py:155-165 | the same, stated on matched fields |
| MicroDvdParsing.ScanCode | pysubtools2/parsers/microdvd.py:87-95 | one code is gathered as the specification gathers it |
| MicroDvdParsing.ScanLine | pysubtools2/parsers/microdvd.py:84-98 | one line's codes are gathered and removed as the specification does |
| MicroDvdParsing.ScanLines | pysubtools2/parsers/microdvd.py:80-98 | the defaults copied, then every line scanned: the cleaned lines and the gathered codes of the specification |
| MicroDvdParsing.RenderGlobal | pysubtools2/parsers/microdvd.py:102-116 | the whole-cue loop computes the whole-cue entries of the specification |
| MicroDvdParsing.RenderPerLine | pysubtools2/parsers/microdvd.py:118-137 | the per-line loop computes the per-line entries of the specification |
| MicroDvdParsing.RenderCodes | pysubtools2/parsers/microdvd.py:100-138 | both loops in turn: the whole-cue entries, then the per-line ones |
| MicroDvdParsing.MicroDvdParser.constructor | pysubtools2/parsers/microdvd.py:58-66 | an empty subtitle, no defaults, no open cue, the given frame rate |
| MicroDvdParsing.MicroDvdParser.ParseContent | pysubtools2/parsers/microdvd.py:68-138 | the cleaned lines joined with `\n` and the formattings of the specification, or its error |
| MicroDvdParsing.MicroDvdParser.ParseUnit | pysubtools2/parsers/microdvd.py:140-171 | result and new state are those of the specification of one line |
| MicroDvdParsing.MicroDvdParser.ClosePrevious | pysubtools2/parsers/microdvd.py:155-156 | the previous cue is closed in place as the specification says |
| MicroDvdParsing.MicroDvdParser.ParseFields | pysubtools2/parsers/microdvd.py:153-171 | result and new state are those of the specification of a matched line |
| MicroDvdParsing.MicroDvdParser.AddCue | pysubtools2/parsers/microdvd.py:167-171 | result and new state are those of the specification of appending a content |
| MicroDvdParsing.MicroDvdParser.PushCue | pysubtools2/parsers/microdvd.py:169-171 | the cue goes last and becomes the previous one |
| MicroDvdParsing.MicroDvdParser.AddDefaultCodes | pysubtools2/parsers/microdvd.py:189-201 | the defaults become those of the specification; nothing else changes |
| MicroDvdParsing.MicroDvdParser.ParseDefault | pysubtools2/parsers/microdvd.py:173-202 | only the first default line's codes are added; the cues are unchanged |
| MicroDvdParsing.MicroDvdParser.ParseText | pysubtools2/parsers/microdvd.py:204-228 | with the frame rate asked from an empty text, IndexError and nothing changes; otherwise the frame rate from the first line, the defaults from the first default line, then every line read in order, with the specification's result and cues |
| MicroDvdParsing.MicroDvdParser.ReadFps | pysubtools2/parsers/microdvd.py:208-221 | a first line `{n}{n}rate` with equal groups sets the frame rate when the rate parses; otherwise it is kept |
| MicroDvdParsing.MicroDvdParser.ParseUnits | pysubtools2/parsers/microdvd.py:225-226 | result and cues are those of the specification of the lines in order |
| HtmlInjection.TagsSnoc | pysubtools2/exporters/html_injection.py:21 | the element names of the rules plus one more rule are the old names and that rule's element |
| HtmlInjection.OrderingKeys | pysubtools2/exporters/html_injection.py:21 | the ordering has exactly one entry per distinct element name, so `len(ordering)` counts distinct elements |
| HtmlInjection.OrderingIsLastIndex | pysubtools2/exporters/html_injection.py:21 | each element name maps to the position of the last rule that uses it |
| HtmlInjection.MarkOf | pysubtools2/exporters/html_injection.py:23-44 | AttributeError exactly when the class has a rule but the formatting has no offsets; nothing exactly when the class has no rule; otherwise the key (start, end, element) and an attribute string that is empty exactly when the rule names no attribute |
| HtmlInjection.AttributesUnderCons | pysubtools2/exporters/html_injection.py:44-51 | the attribute strings recorded under a key by a list are those of its first formatting and those of the rest |
| HtmlInjection.AddedMarksOk | pysubtools2/exporters/html_injection.py:49-51 | `add_formattings` succeeds exactly when no formatting's mark raises |
| HtmlInjection.AddedMarksLookup | pysubtools2/exporters/html_injection.py:44-51 | after a successful `add_formattings`, each key's set is its old set plus the attribute strings of the formattings recorded under it, and nothing else |
| HtmlInjection.AddedMarksStep | pysubtools2/exporters/html_injection.py:49-51 | registering one formatting is one step of the fold |
| HtmlInjection.AddedMarksValid | pysubtools2/exporters/html_injection.py:20-44 | registering keeps the keys distinct and no set empty |
| HtmlInjection.MarkInsertions | pysubtools2/exporters/html_injection.py:55-71 | each mark, in dictionary order, contributes its opening tag and then its closing tag |
| HtmlInjection.MarkInsertionsStep | pysubtools2/exporters/html_injection.py:55-71 | one more mark adds its two tags at the end |
| HtmlInjection.MarkInsertionsInRange | pysubtools2/exporters/html_injection.py:55-71 | marks within the text give tag offsets within the text |
| HtmlInjection.SortedInsertionsInRange | pysubtools2/exporters/html_injection.py:73 | sorting keeps the offsets within the text |
| HtmlInjection.InjectedErasesToText | pysubtools2/exporters/html_injection.py:53-77 | with marks inside the text, the result is the text cut at the tag offsets with the sorted tags woven in: removing the tags gives the text back, and the length grows by the tags' total length |
| HtmlInjection.InjectedTagOrder | pysubtools2/exporters/html_injection.py:73-77 | tags come out ordered by (offset, rank), and tags with equal keys keep the order in which the marks were registered |
| HtmlInjection.MarksOverSameRangeNest | pysubtools2/exporters/html_injection.py:68-73 | two marks over the same non-empty range nest: the lower-ranked element opens first and closes last |
| HtmlInjection.MarkTagsPresent | pysubtools2/exporters/html_injection.py:70-77 | every mark's opening and closing tags are among those spliced in |
| HtmlInjection.PlainStartTag | pysubtools2/exporters/html_injection.py:59-66 | a mark whose only attribute string is empty opens with the bare element |
| HtmlInjection.SingleAttributeStartTag | pysubtools2/exporters/html_injection.py:59-66 | a mark with one non-empty attribute string opens as `<tag attribute>` |
| HtmlInjection.HtmlInjector.constructor | pysubtools2/exporters/html_injection.py:18-21 | the given rules, their ordering, no marks |
| HtmlInjection.HtmlInjector.FormattingToMark | pysubtools2/exporters/html_injection.py:32-44 | result and marks are those of the specification of one formatting |
| HtmlInjection.HtmlInjector.Clear | pysubtools2/exporters/html_injection.py:46-47 | no marks; rules and ordering stay |
| HtmlInjection.HtmlInjector.AddFormattings | pysubtools2/exporters/html_injection.py:49-51 | result and marks are those of the specification, formatting by formatting |
| HtmlInjection.HtmlInjector.StartTagOf | pysubtools2/exporters/html_injection.py:59-66 | the opening tag is built as the specification says |
| HtmlInjection.HtmlInjector.Inject | pysubtools2/exporters/html_injection.py:53-77 | the result is the specification's injected text, about which the lemmas above hold |
| SubRipExport.TimeReadable | pysubtools2/exporters/subrip.py:56-62 | every time has parts the reader can read back, and its hours are negative exactly when it is |
| SubRipExport.ShortNumber | pysubtools2/exporters/subrip.py:62 | milliseconds below 1000 take at most three digits, so `:03` pads them to exactly three |
| SubRipExport.ClockFields | pysubtools2/exporters/subrip.py:56-62 | the padded hours are integer text, a `-` in front for negative hours, reading back as the hours; the other fields are digit strings whose values are the parts, the milliseconds exactly three digits |
| SubRipExport.ClockChars | pysubtools2/exporters/subrip.py:56-62 | a written time holds only digits, `:`, `,` and at most a leading `-` followed by a digit |
| SubRipExport.ClockReadBack | pysubtools2/exporters/subrip.py:56-62 | the SubRip reader reads a written clock back, negative hours included, whatever whitespace comes before it and whatever follows it |
| SubRipExport.TimestampReadBack | pysubtools2/exporters/subrip.py:56-62 | every time, negative ones included, written out is read back by the SubRip reader as the same time |
| SubRipExport.FieldsOfTimestamp | pysubtools2/exporters/subrip.py:62 | the reader finds the four written fields of `h:m:s,ms` |
| SubRipExport.CoordinateReadBack | pysubtools2/exporters/subrip.py:75 | a written coordinate token is read into its own coordinate |
| SubRipExport.CoordinateWordChars | pysubtools2/exporters/subrip.py:75 | a coordinate token, negative or not, holds no whitespace and no lower-case letter |
| SubRipExport.ClockTokenSkipped | pysubtools2/exporters/subrip.py:73-75 | the end time's own token names no coordinate and is passed over |
| SubRipExport.DigitKeySkipped | pysubtools2/exporters/subrip.py:73-75 | a token whose label starts with a digit names no coordinate |
| SubRipExport.PositionTokens | pysubtools2/exporters/subrip.py:73-75 | the end half splits into the end time and the four coordinate tokens |
| SubRipExport.CoordinatesReadBack | pysubtools2/exporters/subrip.py:73-75 | those five tokens give all four coordinates of the position |
| SubRipExport.EndHalfReadBack | pysubtools2/exporters/subrip.py:71-75 | the end half with a position reads back as that position |
| SubRipExport.SpacedWordsUnchanged | pysubtools2/exporters/subrip.py:73-75 | upper-casing leaves the end half as it is |
| SubRipExport.AbsolutePositionOfTokens | pysubtools2/exporters/subrip.py:73-75 | an upper-case end half with an `X` whose tokens give four coordinates reads as that position |
| SubRipExport.EndHalfWithoutPosition | pysubtools2/exporters/subrip.py:73 | an end half without a position holds no `X` and gives no position |
| SubRipExport.TimeLineReadBack | pysubtools2/exporters/subrip.py:64-76 | the SubRip reader reads a written time line back as the cue's start, end and first absolute position, negative times and coordinates included |
| SubRipExport.StartSideRead | pysubtools2/exporters/subrip.py:70-73 | the arrow splits the time line after the start time, which reads back |
| SubRipExport.EndSideRead | pysubtools2/exporters/subrip.py:71-75 | after the arrow, the end time and the absolute position read back |
| SubRipExport.TimeLineSplit | pysubtools2/exporters/subrip.py:73 | the first `-->` of a time line is the one written between the times, even when the start time is negative |
| SubRipExport.NoArrowIn | pysubtools2/exporters/subrip.py:73 | no `-->` starts in text whose only `-` can be its first character, followed by something else |
| SubRipExport.EndHalfPosition | pysubtools2/exporters/subrip.py:68-75 | the end half gives the cue's first absolute position, or none |
| SubRipExport.ParseTimeLineOfHalves | pysubtools2/exporters/subrip.py:64-76 | a line split at its arrow into readable halves reads as their times and position |
| SubRipExport.TimeLineHalves | pysubtools2/exporters/subrip.py:73 | the reader splits a time line at its arrow |
| SubRipExport.NonPositions | pysubtools2/exporters/subrip.py:131-133 | exactly the formattings that are not positions remain |
| SubRipExport.Fonts | pysubtools2/exporters/subrip.py:135-138 | exactly the colour, face and size formattings remain |
| SubRipExport.NonFonts | pysubtools2/exporters/subrip.py:139-142 | exactly the formattings that are not fonts remain |
| SubRipExport.GroupIndex | pysubtools2/exporters/subrip.py:144-149 | the group of a range, if any: None exactly when no group has that range |
| SubRipExport.OverRangeIn | pysubtools2/exporters/subrip.py:148-149 | the fonts over a range are fonts of the list over that range |
| SubRipExport.OverRangeNone | pysubtools2/exporters/subrip.py:148-149 | no font over the range means nothing over it |
| SubRipExport.GroupedSpec | pysubtools2/exporters/subrip.py:144-149 | grouping gives distinct ranges, each group exactly the fonts over its range in list order, and a group for every font |
| SubRipExport.AddToGroupSpec | pysubtools2/exporters/subrip.py:148-149 | adding one font keeps that property for the longer list |
| SubRipExport.NewGroup | pysubtools2/exporters/subrip.py:148-149 | a font over a new range opens a group of its own |
| SubRipExport.JoinGroup | pysubtools2/exporters/subrip.py:148-149 | a font over a known range joins that group at its end |
| SubRipExport.OverRangeSnoc | pysubtools2/exporters/subrip.py:148-149 | one more font adds itself to its own range only |
| SubRipExport.PermutedFonts | pysubtools2/exporters/subrip.py:173 | sorting a group keeps it a group of fonts |
| SubRipExport.FontAttributesStep | pysubtools2/exporters/subrip.py:175-176 | each font adds a space and its attributes to the tag |
| SubRipExport.GroupedValid | pysubtools2/exporters/subrip.py:144-149 | every group holds only fonts, over the range of a font of the list |
| SubRipExport.GroupTags | pysubtools2/exporters/subrip.py:172-182 | two tags per group |
| SubRipExport.GroupTagsStep | pysubtools2/exporters/subrip.py:172-182 | one more group adds its two tags at the end |
| SubRipExport.GroupTagsAt | pysubtools2/exporters/subrip.py:179-182 | group i gives the merged `<font ...>` at its start with rank 0 and `</font>` at its end with rank 7 |
| SubRipExport.GroupTagsInRange | pysubtools2/exporters/subrip.py:172-182 | groups within the text give tags within the text |
| SubRipExport.InRangePermuted | pysubtools2/exporters/subrip.py:184 | sorting keeps the tags within the text |
| SubRipExport.ContentTagsInRange | pysubtools2/exporters/subrip.py:144-184 | for spans within the text every tag lies within it |
| SubRipExport.ContentLineErasesToText | pysubtools2/exporters/subrip.py:128-195 | for a cue whose spans lie in its text, removing the tags from the content line (after the position prefix) gives the text back; the tags are in ascending (offset, rank) order; the length grows by the tags' length |
| SubRipExport.ContentTagsSorted | pysubtools2/exporters/subrip.py:184 | the tags are sorted by (offset, rank) |
| SubRipExport.OpeningsBeforeClosings | pysubtools2/exporters/subrip.py:179-184 | at a shared offset every opening `<font>` comes before every `</font>` |
| SubRipExport.WithoutPlainStyles | pysubtools2/exporters/subrip.py:152-154 | exactly the formattings other than bold, italic, underline and strikethrough remain |
| SubRipExport.FontsOfNonPositionsCons | pysubtools2/exporters/subrip.py:131-138 | filtering a list with one more formatting in front filters that one, then the rest |
| SubRipExport.PlainStylesNotFonts | pysubtools2/exporters/subrip.py:131-149 | dropping the plain styles keeps the fonts, in order |
| SubRipExport.FormattingOfKindCons | pysubtools2/subtitle/subtitle.py:43-49 | the first formatting of a kind is the front one when it has that kind, else the first of the rest |
| SubRipExport.PlainStylesNotPositions | pysubtools2/exporters/subrip.py:191 | dropping the plain styles keeps the first relative position |
| SubRipExport.PlainStylesDropped | pysubtools2/exporters/subrip.py:152-154 | bold, italic, underline and strikethrough leave no trace in the content line |
| SubRipExport.ConstructContentLine | pysubtools2/exporters/subrip.py:128-195 | the method builds the content line the lemmas above are about |
| SubRipExport.ContentTagsOf | pysubtools2/exporters/subrip.py:130-183 | the tags built from a cue's formattings are its fonts' merged tag pairs, sorted by offset and priority |
| SubRipExport.PositionPrefixOf | pysubtools2/exporters/subrip.py:190-194 | `{\anN}` for the first relative position's classifier, nothing when there is none |
| SubRipExport.GroupFonts | pysubtools2/exporters/subrip.py:144-149 | the loop builds the font groups of the specification |
| SubRipExport.SkipPlainStyles | pysubtools2/exporters/subrip.py:152-154 | every remaining formatting is a plain style, so the loop adds no tag |
| SubRipExport.FontTags | pysubtools2/exporters/subrip.py:172-182 | the loop builds the tags of the specification |
| SubRipExport.FontStartTagOf | pysubtools2/exporters/subrip.py:173-177 | the sorted group's attributes make the merged opening tag of the specification |
| SubRipExport.OpenFontTag | pysubtools2/exporters/subrip.py:174-176 | the loop yields `<font` followed by every font's attributes, in the given order |
| SubRipExport.BlocksOf | pysubtools2/exporters/subrip.py:202-209 | four lines per cue |
| SubRipExport.BlocksOfAt | pysubtools2/exporters/subrip.py:202-209 | cue i's block is lines 4i to 4i + 3: its number from 1, its time line, its content line, an empty line |
| SubRipExport.BlocksOfStep | pysubtools2/exporters/subrip.py:202-209 | one more cue adds its four lines at the end |
| SubRipExport.ToString | pysubtools2/exporters/subrip.py:197-212 | the subtitle is sorted stably by start in place, and the text is the document of the sorted cues |
| SubRipExport.ToStringTwice | pysubtools2/exporters/subrip.py:197-212 | writing twice gives the same text: the second sort changes nothing |
| SubRipExport.BlockReadBack | pysubtools2/exporters/subrip.py:52-209 | each cue's number line reads back as its position from 1, and its time line as its times and first absolute position |
| MicroDvdExport.ControlCode | pysubtools2/exporters/microdvd.py:18-45 | strikethrough and absolute positions have no code; bold, italic and underline share the style code `Y`, each other kind has its own code |
| MicroDvdExport.ControlCodeReadBack | pysubtools2/exporters/microdvd.py:18-45 | the MicroDVD reader turns each written code back into the formatting it came from over the same span; a negative size included, and of the relative positions only the top centre one reads back as itself |
| MicroDvdExport.ValuesWhereSnoc | pysubtools2/exporters/microdvd.py:77-92 | the values gathered from a list of formattings are those of the list without its last one plus the last one's, when it has a code and qualifies |
| MicroDvdExport.LookupAddToLines | pysubtools2/exporters/microdvd.py:87-88 | adding a value over a list of lines puts it under (code, line) for exactly those lines and leaves every other key as it was |
| MicroDvdExport.GatherGlobal | pysubtools2/exporters/microdvd.py:77-92 | after the loop, each code's whole-text set holds exactly the values of the formattings with that code that are not spans or cover the whole text |
| MicroDvdExport.GatherPerLine | pysubtools2/exporters/microdvd.py:77-92 | after the loop, each (code, line) set holds exactly the values of the spans with that code that do not cover the whole text and touch that line |
| MicroDvdExport.AddToLinesValid | pysubtools2/exporters/microdvd.py:87-88 | the per-line dictionary keeps distinct keys and non-empty sets |
| MicroDvdExport.GatherValid | pysubtools2/exporters/microdvd.py:71-92 | both dictionaries keep distinct keys and non-empty sets, as a `defaultdict(set)` that is only added to does |
| MicroDvdExport.ValueText | pysubtools2/exporters/microdvd.py:95-100 | for any code other than `Y` the written value is one of the gathered values |
| MicroDvdExport.GlobalTokens | pysubtools2/exporters/microdvd.py:94-101 | one `{CODE:value}` token per whole-text entry |
| MicroDvdExport.DequeIndex | pysubtools2/exporters/microdvd.py:110-111 | indexing a deque of n lines succeeds exactly for -n <= i < n, at i or, for a negative i, at i + n |
| MicroDvdExport.LineTokens | pysubtools2/exporters/microdvd.py:103-112 | a line carries at most one token per per-line entry, each a `{code:value}` token |
| MicroDvdExport.WithLineTokens | pysubtools2/exporters/microdvd.py:103-112 | the per-line loop fails with an IndexError exactly when some line index is past the lines; otherwise it keeps the number of lines |
| MicroDvdExport.GlobalTokensStep | pysubtools2/exporters/microdvd.py:94-101 | one more whole-text entry puts its token in front of those written so far |
| MicroDvdExport.LineTokensStep | pysubtools2/exporters/microdvd.py:103-112 | one more per-line entry puts its token in front of its own line only |
| MicroDvdExport.ValueOf | pysubtools2/exporters/microdvd.py:95-100 | computes the written value of a value set: the style values sorted and joined with commas, any other the first in set order |
| MicroDvdExport.PrependGlobal | pysubtools2/exporters/microdvd.py:94-101 | the loop leaves every line but the first as it was and puts the whole-text tokens in front of the first |
| MicroDvdExport.PrependGlobalStep | pysubtools2/exporters/microdvd.py:101 | one turn of the whole-text loop keeps the first line equal to the tokens so far in front of the original |
| MicroDvdExport.PrependPerLine | pysubtools2/exporters/microdvd.py:103-112 | the loop gives each line its own tokens in front, or the IndexError of an index past the lines |
| MicroDvdExport.PrependStep | pysubtools2/exporters/microdvd.py:110-112 | one turn of the per-line loop keeps every line equal to its tokens so far in front of the original |
| MicroDvdExport.WithLineTokensOf | pysubtools2/exporters/microdvd.py:103-112 | lines that each carry their own tokens in front of the original are the loop's result |
| MicroDvdExport.AddLines | pysubtools2/exporters/microdvd.py:87-88 | the loop over the line indices adds the value under each of them |
| MicroDvdExport.GatherCodes | pysubtools2/exporters/microdvd.py:77-92 | the loop over the formattings fills both dictionaries as the gathering defines |
| MicroDvdExport.CueLine | pysubtools2/exporters/microdvd.py:61-117 | a cue is skipped exactly when its text is empty or its start equals its end; the only failure is an IndexError |
| MicroDvdExport.ContentLines | pysubtools2/exporters/microdvd.py:69-112 | the written lines are as many as `splitlines` gives; the only failure is an IndexError |
| MicroDvdExport.CueLines | pysubtools2/exporters/microdvd.py:61-117 | at most one line per cue |
| MicroDvdExport.CueLinesStep | pysubtools2/exporters/microdvd.py:61-117 | one more cue adds its line, nothing, or its error |
| MicroDvdExport.CueLinesErrSticks | pysubtools2/exporters/microdvd.py:61-117 | the first cue that fails makes the whole output fail with its error |
| MicroDvdExport.MicroDvdExporter.constructor | pysubtools2/exporters/microdvd.py:49-50 | the exporter holds the given frame rate, frame conversion, number text and set order |
| MicroDvdExport.MicroDvdExporter.RenderCue | pysubtools2/exporters/microdvd.py:61-117 | the loop body gives a cue's line, nothing for a skipped cue, or its IndexError |
| MicroDvdExport.MicroDvdExporter.ToString | pysubtools2/exporters/microdvd.py:52-120 | the subtitle is sorted stably by start in place, and the text is the header and the cue lines of the sorted cues |
| MicroDvdExport.TokensBefore | pysubtools2/exporters/microdvd.py:94-112 | everything written in front of a line is control-code tokens |
| MicroDvdExport.ContentLinesShape | pysubtools2/exporters/microdvd.py:69-114 | every written line is its text line with tokens in front, so taking the tokens away gives back the text's lines |
| MicroDvdExport.ContentLineAt | pysubtools2/exporters/microdvd.py:94-112 | line i is its own tokens, then on the first line the whole-text ones, then the text line |
| MicroDvdExport.WithLineTokensAt | pysubtools2/exporters/microdvd.py:103-112 | after the per-line loop, line i is its tokens in front of the line before the loop |
| MicroDvdExport.WithTokensAt | pysubtools2/exporters/microdvd.py:94-112 | the whole-text tokens end up after the first line's own tokens and before its text |
| MicroDvdExport.PrefixJoin | pysubtools2/exporters/microdvd.py:101 | prepending tokens one after another is prepending their concatenation |
| MicroDvdExport.GatheredLineWithin | pysubtools2/exporters/microdvd.py:86-88 | for spans inside the text every gathered line index counts no more line breaks than the text has |
| MicroDvdExport.LineUnderWithin | pysubtools2/exporters/microdvd.py:86-88 | a span inside the text touches only lines 0 to the number of '\n' in the text |
| MicroDvdExport.NoIndexError | pysubtools2/exporters/microdvd.py:69-112 | a cue whose spans lie inside its text, whose only line break is '\n' and whose text does not end in one is written without an IndexError |
| MicroDvdExport.TrailingBreakIndexError | pysubtools2/exporters/microdvd.py:69-112 | a bold span over the final '\n' of "a\n" counts two lines where `splitlines` gives one, and writing the cue fails with an IndexError |
| MicroDvdExport.TrailingBreakContent | pysubtools2/exporters/microdvd.py:69-112 | the content of that cue fails with an IndexError |
| MicroDvdExport.TrailingBreakLines | pysubtools2/exporters/microdvd.py:69 | `splitlines` of "a\n" is one line |
| MicroDvdExport.TrailingBreakGather | pysubtools2/exporters/microdvd.py:82-88 | a bold span over the final break is gathered under lines 0 and 1 |
| MicroDvdExport.TrailingBreakAdd | pysubtools2/exporters/microdvd.py:87-88 | adding over lines 0 and 1 to an empty dictionary makes two entries in that order |
| MicroDvdExport.IntToStringNoBrace | pysubtools2/exporters/microdvd.py:115-116 | a frame number's text holds no closing brace |
| MicroDvdExport.CueLineReadBack | pysubtools2/exporters/microdvd.py:114-117 | the MicroDVD line pattern reads a written cue line back as its two frame numbers and its `|`-joined content, the end frame parses back to itself, and the start frame does exactly when it is not negative, since `isnumeric` rejects the `-` of a negative one |
| MicroDvdExport.LineTokensHas | pysubtools2/exporters/microdvd.py:103-112 | every per-line entry whose index lands on a line is written on it |
| MicroDvdExport.LineTokensFrom | pysubtools2/exporters/microdvd.py:103-112 | every token on a line comes from a per-line entry whose index lands on it |
| MicroDvdExport.GlobalTokensHas | pysubtools2/exporters/microdvd.py:94-101 | every whole-text entry is written in front of the first line |
| MicroDvdExport.GlobalTokensFrom | pysubtools2/exporters/microdvd.py:94-101 | every whole-text token comes from a whole-text entry |
| MicroDvdExport.LineTokenPresent | pysubtools2/exporters/microdvd.py:77-112 | a code the formattings give on a line is written on it as one token holding all the values gathered for it there |
| MicroDvdExport.GlobalTokenPresent | pysubtools2/exporters/microdvd.py:77-101 | a code the formattings give for the whole text is written in front of the first line as one token holding all its values |
| MicroDvdExport.TokenOrigin | pysubtools2/exporters/microdvd.py:77-112 | every token in front of a line is a code the formattings give on that line or, on the first line only, for the whole text, with all its gathered values |
| MicroDvdExport.LineTokenOrigin | pysubtools2/exporters/microdvd.py:77-112 | every per-line token on a line is a code the formattings give on a line index landing there, with all its values |
| MicroDvdExport.GlobalTokenOrigin | pysubtools2/exporters/microdvd.py:77-101 | every whole-text token is a code the formattings give for the whole text, with all its values |
| MicroDvdExport.ExportTwice | pysubtools2/exporters/microdvd.py:55 | writing a subtitle a second time gives the same text: the first call already sorted it |
| MicroDvdExport.Kept | pysubtools2/exporters/microdvd.py:61-65 | the cues that get a line are exactly those with text and a start different from the end |
| MicroDvdExport.CueLinesCount | pysubtools2/exporters/microdvd.py:61-119 | a successful export has one line per kept cue after the header |
| MicroDvdExport.DocumentOk | pysubtools2/exporters/microdvd.py:52-120 | a subtitle whose every cue is writable is exported without an error |
| PyStr.Strip | pysubtools2/parsers/subrip.py:305 | `strip()` is the slice of the text between its leading and its trailing whitespace: no whitespace at either end of the result, only whitespace before and after it |
| PyStr.StripIs | pysubtools2/parsers/subrip.py:305 | a slice with only whitespace around it and none at its ends is what `strip()` gives |
| PyStr.StripNoSpaceEnds | pysubtools2/parsers/subrip.py:305 | text with no whitespace at either end is its own `strip()` |
| PyStr.CountCharAppend | pysubtools2/subtitle/subtitle.py:54-55 | counting '\n' over two adjacent pieces adds the two counts |
| PyStr.Splice | pysubtools2/parsers/html_parsing.py:102 | `text[:i] + piece + text[i:]` puts the piece at i and keeps the text around it |
| PyStr.SplitChar | pysubtools2/parsers/microdvd.py:83 | `split` on a character gives at least one part, none holding the separator |
| PyStr.SplitCharCount | pysubtools2/parsers/microdvd.py:83 | `split` gives one part more than the text has separators |
| PyStr.JoinSplitChar | pysubtools2/parsers/microdvd.py:83 | joining the parts of a `split` with its separator gives the text back |
| PyStr.JoinEmptyConcat | pysubtools2/parsers/html_parsing.py:83 | joining the concatenation of two part lists is joining each and concatenating |
| PyStr.SplitOnceFirst | pysubtools2/parsers/subrip.py:356 | `split(sep, 1)` cuts exactly when the separator occurs, and at its first occurrence |
| PyStr.SplitOnceAt | pysubtools2/parsers/subrip.py:264-266 | a text whose head lacks the separator's first character is cut right after that head |
| PyStr.SplitWhitespaceCons | pysubtools2/parsers/subrip.py:277 | `split()` skips leading whitespace and cuts a word at the whitespace that follows it |
| PyStr.SplitLines | pysubtools2/subtitle/subtitle.py:32 | no line `splitlines` gives holds a line break |
| PyStr.SplitLinesIsSplitNewline | pysubtools2/exporters/microdvd.py:69 | with '\n' the only break and none at the end, `splitlines()` is `split("\n")` |
| PyStr.RemoveCharGone | pysubtools2/subtitle/formatting.py:166 | `replace(c, "")` leaves no c in the text |
| PyStr.UpperUnchanged | pysubtools2/exporters/microdvd.py:95 | text without lower-case letters is its own `upper()` |
| PyStr.ParseInt | pysubtools2/parsers/subrip.py:268-271 | `int()` accepts only non-empty text; what it accepts is stated by ParseIntIsStripThenSigned |
| PyStr.ParseSigned | pysubtools2/parsers/subrip.py:268-271 | an optional `+` or `-` then one or more digits: a digit string gives its value, and only a `-` in front gives a negative number |
| PyStr.ParseIntIsStripThenSigned | pysubtools2/parsers/subrip.py:268-271 | `int()` is the signed reading of the text with its surrounding whitespace stripped |
| PyStr.ParseIntOfNegated | pysubtools2/exporters/microdvd.py:38 | `-` then digits parses to the negated value |
| PyStr.ParseIntOfPlus | pysubtools2/parsers/html_parsing.py:164 | `+` then digits parses to their value |
| PyStr.ParseIntOfIntToString | pysubtools2/exporters/microdvd.py:38 | `int(str(i)) == i` for every integer, negative ones included |
| PyStr.ParseIntZeroPad | pysubtools2/exporters/subrip.py:62 | a zero-padded integer, its sign included, parses back to itself |
| PyStr.ZeroPadIntText | pysubtools2/exporters/subrip.py:62 | a zero-padded integer is integer text reading back as itself, starting with `-` exactly when negative |
| PyStr.ParseIntAfterSpaces | pysubtools2/parsers/subrip.py:268-271 | whitespace in front of integer text does not change what it parses to |
| PyStr.SplitOnceAtFirst | pysubtools2/parsers/subrip.py:264-266 | a text in which the separator first occurs right after the head is cut there |
| PyStr.ParseIntOfDigits | pysubtools2/parsers/microdvd.py:153 | a digit string parses to its value |
| PyStr.NatToString | pysubtools2/exporters/microdvd.py:115-116 | `str(n)` of a natural number is a non-empty digit string whose value is n |
| PyStr.PadZeros | pysubtools2/exporters/subrip.py:62 | padding gives the width, or the text's own length when it is wider |
| PyStr.LeadingZeros | pysubtools2/exporters/subrip.py:62 | leading zeros do not change a digit string's value |
| PyStr.ParseZeroPad | pysubtools2/exporters/subrip.py:62 | a zero-padded natural number is a digit string whose value is the number |
| PyStr.ParseHexByte | pysubtools2/subtitle/formatting.py:176 | `int(s, 16)` of at most two characters is below 256 |
| PyStr.HexDigitChar | pysubtools2/subtitle/formatting.py:206 | the written hex digit is lower case and reads back as its value |
| PyStr.Hex2 | pysubtools2/subtitle/formatting.py:206 | `format(b, "02x")` is two characters that read back as b |
| Sorting.LexLeReflexive | pysubtools2/exporters/html_injection.py:73 | every tuple is at most itself |
| Sorting.LexLeTotal | pysubtools2/exporters/html_injection.py:73 | any two tuples compare |
| Sorting.LexLeTransitive | pysubtools2/exporters/html_injection.py:73 | tuple comparison is transitive |
| Sorting.LexLeAntisymmetric | pysubtools2/exporters/html_injection.py:73 | tuples that are each at most the other are equal |
| Sorting.StrLeAntisymmetric | pysubtools2/exporters/microdvd.py:97 | strings that are each at most the other are equal |
| Sorting.Insert | pysubtools2/exporters/subrip.py:200 | one insertion step adds exactly the element |
| Sorting.InsertSorted | pysubtools2/exporters/subrip.py:200 | inserting into a sorted list keeps it sorted |
| Sorting.StableSort | pysubtools2/exporters/subrip.py:200 | the sorted list is a permutation of the input |
| Sorting.StableSortSorted | pysubtools2/exporters/subrip.py:200 | the result is sorted by the key |
| Sorting.InsertWithKey | pysubtools2/exporters/subrip.py:200 | an insertion step adds the element after those with the same key |
| Sorting.StableSortKeepsEqualKeysInOrder | pysubtools2/exporters/subrip.py:200 | the sort is stable: elements with equal keys keep their order |
| Sorting.StableSortOfSorted | pysubtools2/exporters/microdvd.py:55 | sorting a sorted list changes nothing |
| Sorting.SortedPrecedes | pysubtools2/exporters/html_injection.py:73 | in a sorted list an element with a strictly smaller key comes first |
| Sorting.MinString | pysubtools2/exporters/microdvd.py:96-97 | the least element of a non-empty set of strings |
| Sorting.SortedElementsSpec | pysubtools2/exporters/microdvd.py:96-97 | `sorted(set)` lists every element once, in strictly ascending order |
| Sorting.SortedElementsCount | pysubtools2/exporters/microdvd.py:96-97 | `sorted(set)` has as many entries as the set has elements |
| Sorting.SortedElementsMembers | pysubtools2/exporters/microdvd.py:96-97 | `sorted(set)` holds exactly the set's elements |
| Sorting.SortedElementsAscending | pysubtools2/exporters/microdvd.py:96-97 | `sorted(set)` is in strictly ascending order |
| Sorting.SortStrings | pysubtools2/exporters/microdvd.py:96-97 | `list(values)` then `sort()` computes the sorted elements of the set |
| Splicing.SortedIsAscending | pysubtools2/exporters/html_injection.py:73 | a list sorted by (offset, rank) has ascending offsets |
| Splicing.Pieces | pysubtools2/exporters/html_injection.py:75-76 | cutting the text at n offsets gives n + 1 pieces |
| Splicing.InterleaveErasesToText | pysubtools2/exporters/html_injection.py:73-77 | deleting the inserted tags gives the text back, and the output is as long as the text and tags together |
| Splicing.InterleaveSplit | pysubtools2/exporters/html_injection.py:75-76 | text before the first offset comes out unchanged |
| Splicing.KeyOrderIsListOrder | pysubtools2/exporters/html_injection.py:73 | after sorting, an entry with a strictly smaller (offset, rank) comes first |
| Splicing.KeyBefore | pysubtools2/exporters/html_injection.py:73 | a strictly smaller (offset, rank) is not at least the other's key |
| Splicing.Spliced | pysubtools2/exporters/html_injection.py:75-76 | splicing from the right adds exactly the tags' length |
| Splicing.SplicedIsInterleave | pysubtools2/exporters/html_injection.py:73-77 | with ascending offsets inside the text, inserting from the last to the first places every tag at its own offset of the original text |
| Splicing.InsertRightToLeft | pysubtools2/exporters/html_injection.py:75-76 | the loop over the reversed list computes the right-to-left splice |
| SetDicts.IndexOf | pysubtools2/exporters/microdvd.py:88 | a key is found exactly when present, at its first position |
| SetDicts.IndexOfAppend | pysubtools2/exporters/microdvd.py:88 | a new key goes after all others without moving them |
| SetDicts.AddValue | pysubtools2/exporters/microdvd.py:88 | `d[k].add(v)` puts a new key last, keeps an existing key's place, keeps keys distinct and sets non-empty, and leaves other entries alone |
| SetDicts.LookupAddValue | pysubtools2/exporters/microdvd.py:88 | after `d[k].add(v)` the set under k has gained v and every other set is as it was |
| SetDicts.LookupPresent | pysubtools2/exporters/microdvd.py:94 | every listed key has a non-empty set |
| SetDicts.LookupEntry | pysubtools2/exporters/microdvd.py:94 | with distinct keys, an entry's set is the one its key looks up |

## Left out

- Reading and writing files (`parse_file` in `parsers/subrip.py` and `parsers/microdvd.py`, `to_file` in both exporters) is I/O; the model starts from and ends with strings.
- `pysubtools2/utils.py` detects encodings through a foreign library and is not part of this model.
- The host `html.parser` tokenizer (tag and attribute scanning, character references, lower-casing of names) is a library. The markup parsers take its events as input, and the SubRip reader holds the tokenizer as a function parameter.
- Python's `re` engine is not modelled. The three patterns (`parsers/subrip.py:29`, `parsers/microdvd.py:24` and `:25`) are hand-written scanners with the same matching behaviour (lazy `.*?`, greedy `\S+`).
- Floating point is left out. `Time.to_frame`, `Time.from_frame`, `float()` of a frame rate, `str()` of a frame rate and the frame rate itself are parameters. Multiplying a time by a number (`__mul__`, `__imul__`) is left out. Colour channels are whole bytes, without the float scaling and the alpha channel.
- The table of named HTML colours lives in a module that is not part of this model, so it is a parameter (a partial map from names to channels).
- The iteration order of a Python set is a parameter (`list(values)[0]` picks the first element that order gives).
- `pysubtools2/parsers/webvtt.py` is unfinished (its entry points raise `NotImplementedError`) and is not part of this model.
- `to_json`, `__str__` and `__unicode__` build debug and serialisation output and are left out.
- The `print(e)` in the position stripper's error handler is output only; the caught error leaves the state unchanged, as modelled.
- `parsers/subrip.py` carries its own copies of the markup parser and the position stripper. They differ from `parsers/html_parsing.py` and `parsers/ssa_control_code_parsing.py` only in a redundant type check, so `HtmlParsing` and `SsaParsing` model both.
- `exporters/subrip.py:78-124` (`_to_html_tag`, `_to_ass_tag`, `_a`) is never called on the way to the output and is left out.
- `_parse_absolute_position` appends the position itself and returns `None`, so the branch that would append its result (`parsers/subrip.py:367-370`) never runs; the model keeps the append and drops the dead branch.
- The `raw_text` field of the MicroDVD reader is written but never read and is left out.
- PyStr.ParseInt: accepts surrounding whitespace, an optional `+` or `-` and ASCII decimal digits. Python's `int()` also accepts underscores between digits and non-ASCII decimal digits (such as `٣`); the model rejects those.
- MicroDvdParsing.IsNumeric: ASCII digits only. Python's `isnumeric()` also holds for other numeric characters, so `{½}{2}x` (where `int()` then raises ValueError) and `{٣}{٥}x` (which Python stores as a cue) are both skipped as non-cue lines by the model.
- MicroDvdParsing.ReadUnit: inherits the ASCII-only IsNumeric above.
- MicroDvdParsing.MicroDvdParser.ParseUnit: inherits the ASCII-only IsNumeric above.
- SsaParsing.TagPosition: `isdigit()` is modelled over ASCII digits only, so `{\an٣}` gives no position in the model where Python gives position 3.
- HtmlParsing.BuildStartTag: its own contract gives the `<tag`…`>` frame; the attribute text between is stated through BuildStartTagReadBack, which holds for attribute names without space, `=` or `"` and values without `"` (others do not read back unambiguously).
- SsaParsing.RemoveMatchesLength: states lengths only; which characters remain is stated by RemoveMatches.
- MicroDvdContent.ControlCodes: its own contract gives only that no code holds a `}`; that the codes are exactly the groups `finditer` reports is ControlCodesExact.
- MicroDvdContent.RemoveCodes: which characters remain is stated for lines made of plain text without `{` and codes without braces (RemoveCodesOfFlat, CleanFlatLine); for other lines only the length bound is stated.
- PyStr.ParseHexByte: accepts exactly one or two ASCII hex digits. Python's `int(s, 16)` also accepts whitespace, a sign and a `0x` prefix.
- PyStr.Lower: changes ASCII letters only, unlike Python's full Unicode case mapping. PyStr.Upper is limited in the same way.
- PyStr.IsUpper: counts ASCII letters only, unlike Python's Unicode `isupper()`, so an identifier such as `É` is taken as per-line rather than global. No formatting changes: only an identifier that lower-cases to `y`, `c`, `f`, `s` or `p` yields one, and each of those is a single ASCII letter on which both agree.
- SubRipExport.ClockReadBack: holds for clocks whose minutes and seconds are not negative and whose milliseconds lie in 0..999. Every clock the writer produces is one (TimeReadable); with 1000 or more milliseconds, the reader would keep only the first three digits.
- MicroDvdExport.NoIndexError: holds only for writable cues, meaning spans inside the text, '\n' as the only line break and no break at the end. For other text the writer can fail, as TrailingBreakIndexError shows.
- SubRipParsing.SubRipParser.ParseText: after a ValueError, the state the parser is left in is not stated (the start time may already be set when the end time fails). The error ends the call, and no later line is read.
