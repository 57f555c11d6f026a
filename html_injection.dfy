/**
 * The tag injector (`HTMLInjector`): formattings are registered as marks
 * keyed by (start, end, element name), each with the set of attribute
 * strings gathered for it; `inject` turns every mark into an opening and a
 * closing tag, sorts all tags by (offset, rank) and splices them into the
 * text from the last to the first. The rank of an opening tag is the
 * position of its element in the rules; the closing tag gets the number of
 * elements minus that, so that marks over the same range nest.
 */
module HtmlInjection {
  import opened Wrappers
  import opened PyStr
  import opened Formattings
  import opened SetDicts
  import Sorting
  import opened Splicing

  /** `HTMLRule`: the element name, and the attribute name the formatting's value goes under, if any. */
  datatype Rule = Rule(tag: string, attribute: Option<string>)

  /** The rules dictionary: formatting classes with their rules, in insertion order. */
  type Rules = seq<(Kind, Rule)>

  /** The key of a mark: start, end and element name. */
  type MarkKey = (int, int, string)

  /** A dictionary has each key once. */
  predicate DistinctKinds(rules: Rules) {
    forall i, j :: 0 <= i < j < |rules| ==> rules[i].0 != rules[j].0
  }

  /** `rules.get(cls)`. */
  function RuleFor(rules: Rules, k: Kind): Option<Rule>
    decreases |rules|
  {
    if rules == [] then None
    else if rules[0].0 == k then Some(rules[0].1)
    else RuleFor(rules[1..], k)
  }

  // ---------------------------------------------------------------- ordering

  /** `{rule["tag"]: i for i, rule in enumerate(rules.values())}`: a later rule with the same element overwrites. */
  function Ordering(rules: Rules): map<string, int>
    decreases |rules|
  {
    if rules == [] then map[]
    else Ordering(rules[..|rules| - 1])[rules[|rules| - 1].1.tag := |rules| - 1]
  }

  /** The element names the rules use. */
  function Tags(rules: Rules): set<string> {
    set i | 0 <= i < |rules| :: rules[i].1.tag
  }

  lemma TagsSnoc(rules: Rules)
    requires rules != []
    ensures Tags(rules) == Tags(rules[..|rules| - 1]) + {rules[|rules| - 1].1.tag}
  {
    var init := rules[..|rules| - 1];
    forall t | t in Tags(rules) ensures t in Tags(init) + {rules[|rules| - 1].1.tag} {
      var i :| 0 <= i < |rules| && rules[i].1.tag == t;
      if i < |rules| - 1 { assert init[i] == rules[i]; }
    }
    forall t | t in Tags(init) ensures t in Tags(rules) {
      var i :| 0 <= i < |init| && init[i].1.tag == t;
      assert rules[i] == init[i];
    }
  }

  /** The ordering has an entry for exactly the element names the rules use, so one per distinct name. */
  lemma {:induction false} OrderingKeys(rules: Rules)
    ensures Ordering(rules).Keys == Tags(rules)
    ensures |Ordering(rules)| == |Tags(rules)|
    decreases |rules|
  {
    if rules != [] {
      OrderingKeys(rules[..|rules| - 1]);
      TagsSnoc(rules);
    }
    assert |Ordering(rules)| == |Ordering(rules).Keys|;
  }

  /** Each element name is mapped to the position of the last rule that uses it. */
  lemma {:induction false} OrderingIsLastIndex(rules: Rules, t: string)
    requires t in Ordering(rules)
    ensures 0 <= Ordering(rules)[t] < |rules| && rules[Ordering(rules)[t]].1.tag == t
    ensures forall j :: Ordering(rules)[t] < j < |rules| ==> rules[j].1.tag != t
    decreases |rules|
  {
    var init := rules[..|rules| - 1];
    if rules[|rules| - 1].1.tag != t {
      OrderingIsLastIndex(init, t);
      var i := Ordering(init)[t];
      assert rules[i] == init[i];
      forall j | i < j < |rules| ensures rules[j].1.tag != t {
        if j < |rules| - 1 { assert rules[j] == init[j]; }
      }
    }
  }

  // ---------------------------------------------------------------- marks

  /** `_get_formatting_value`, as the f-string shows it: the text `None` for the classes without a value. */
  function ValueText(f: Formatting): string {
    match f
    case Color(_, _, c) => ToHex(c)
    case FontFace(_, _, face) => face
    case TextSize(_, _, size) => IntToString(size)
    case _ => "None"
  }

  /**
   * What `_formatting_to_mark` records for one formatting: nothing when its
   * class has no rule; AttributeError when it has a rule but no offsets;
   * otherwise its key and attribute string.
   */
  function MarkOf(rules: Rules, f: Formatting): (r: Result<Option<(MarkKey, string)>>)
    ensures r.Err? <==> RuleFor(rules, KindOf(f)).Some? && !f.IsSpan()
    ensures r.Err? ==> r.error == AttributeError
    ensures r == Ok(None) <==> RuleFor(rules, KindOf(f)).None?
    ensures r.Ok? && r.value.Some? ==>
      var rule := RuleFor(rules, KindOf(f)).value;
      && r.value.value.0 == (f.start, f.end, rule.tag)
      && (r.value.value.1 == "" <==> rule.attribute.None?)
  {
    match RuleFor(rules, KindOf(f))
    case None => Ok(None)
    case Some(rule) =>
      if !f.IsSpan() then Err(AttributeError)
      else
        var attribute := if rule.attribute.Some? then rule.attribute.value + "=\"" + ValueText(f) + "\"" else "";
        Ok(Some(((f.start, f.end, rule.tag), attribute)))
  }

  /** f is recorded under k. */
  predicate MarkedUnder(rules: Rules, f: Formatting, k: MarkKey) {
    MarkOf(rules, f).Ok? && MarkOf(rules, f).value.Some? && MarkOf(rules, f).value.value.0 == k
  }

  /** The attribute strings the formattings record under k. */
  function AttributesUnder(rules: Rules, fs: seq<Formatting>, k: MarkKey): set<string> {
    set i | 0 <= i < |fs| && MarkedUnder(rules, fs[i], k) :: MarkOf(rules, fs[i]).value.value.1
  }

  /** `add_formattings(fs)`: each formatting in turn; the first AttributeError ends it, with what was added before kept. */
  function AddedMarks(rules: Rules, marks: SetDict<MarkKey>, fs: seq<Formatting>): (Result<()>, SetDict<MarkKey>)
    decreases |fs|
  {
    if fs == [] then (Ok(()), marks)
    else
      match MarkOf(rules, fs[0])
      case Err(e) => (Err(e), marks)
      case Ok(None) => AddedMarks(rules, marks, fs[1..])
      case Ok(Some((k, a))) => AddedMarks(rules, AddValue(marks, k, a), fs[1..])
  }

  lemma AttributesUnderCons(rules: Rules, fs: seq<Formatting>, k: MarkKey)
    requires fs != []
    ensures AttributesUnder(rules, fs, k) ==
      (if MarkedUnder(rules, fs[0], k) then {MarkOf(rules, fs[0]).value.value.1} else {}) + AttributesUnder(rules, fs[1..], k)
  {
    var rest := fs[1..];
    forall a | a in AttributesUnder(rules, fs, k)
      ensures a in (if MarkedUnder(rules, fs[0], k) then {MarkOf(rules, fs[0]).value.value.1} else {}) + AttributesUnder(rules, rest, k)
    {
      var i :| 0 <= i < |fs| && MarkedUnder(rules, fs[i], k) && MarkOf(rules, fs[i]).value.value.1 == a;
      if i > 0 { assert rest[i - 1] == fs[i]; }
    }
    forall a | a in AttributesUnder(rules, rest, k) ensures a in AttributesUnder(rules, fs, k) {
      var i :| 0 <= i < |rest| && MarkedUnder(rules, rest[i], k) && MarkOf(rules, rest[i]).value.value.1 == a;
      assert fs[i + 1] == rest[i];
    }
  }

  /** `add_formattings` succeeds exactly when no formatting with a rule lacks offsets. */
  lemma {:induction false} AddedMarksOk(rules: Rules, marks: SetDict<MarkKey>, fs: seq<Formatting>)
    ensures AddedMarks(rules, marks, fs).0.Ok? <==> forall i :: 0 <= i < |fs| ==> MarkOf(rules, fs[i]).Ok?
    decreases |fs|
  {
    if fs != [] {
      var rest := fs[1..];
      assert forall i :: 1 <= i < |fs| ==> fs[i] == rest[i - 1];
      match MarkOf(rules, fs[0])
      case Err(_) =>
      case Ok(None) =>
        AddedMarksOk(rules, marks, rest);
      case Ok(Some((k0, a))) =>
        AddedMarksOk(rules, AddValue(marks, k0, a), rest);
    }
  }

  /**
   * When `add_formattings` succeeds, every key's set has gained the
   * attribute strings of the formattings recorded under it, and nothing else.
   */
  lemma {:induction false} AddedMarksLookup(rules: Rules, marks: SetDict<MarkKey>, fs: seq<Formatting>)
    ensures AddedMarks(rules, marks, fs).0.Ok? ==>
      forall k :: Lookup(AddedMarks(rules, marks, fs).1, k) == Lookup(marks, k) + AttributesUnder(rules, fs, k)
    decreases |fs|
  {
    if fs != [] {
      var rest := fs[1..];
      forall k ensures AttributesUnder(rules, fs, k) ==
        (if MarkedUnder(rules, fs[0], k) then {MarkOf(rules, fs[0]).value.value.1} else {}) + AttributesUnder(rules, rest, k)
      {
        AttributesUnderCons(rules, fs, k);
      }
      match MarkOf(rules, fs[0])
      case Err(_) =>
      case Ok(None) =>
        AddedMarksLookup(rules, marks, rest);
      case Ok(Some((k0, a))) =>
        AddedMarksLookup(rules, AddValue(marks, k0, a), rest);
        forall k ensures Lookup(AddValue(marks, k0, a), k) == Lookup(marks, k) + (if k == k0 then {a} else {}) {
          LookupAddValue(marks, k0, a, k);
        }
    } else {
      forall k ensures AttributesUnder(rules, fs, k) == {} { }
    }
  }

  /** One formatting, then the rest. */
  lemma AddedMarksStep(rules: Rules, marks: SetDict<MarkKey>, fs: seq<Formatting>, i: nat)
    requires i < |fs|
    ensures var (r, m) := AddedMarks(rules, marks, [fs[i]]);
      AddedMarks(rules, marks, fs[i..]) == if r.Err? then (r, m) else AddedMarks(rules, m, fs[i + 1..])
  {
    assert fs[i..][1..] == fs[i + 1..];
    assert [fs[i]][1..] == [];
  }

  /** Registering keeps the keys distinct and every set non-empty. */
  lemma {:induction false} AddedMarksValid(rules: Rules, marks: SetDict<MarkKey>, fs: seq<Formatting>)
    requires DistinctKeys(marks) && NonEmptySets(marks)
    ensures DistinctKeys(AddedMarks(rules, marks, fs).1) && NonEmptySets(AddedMarks(rules, marks, fs).1)
    decreases |fs|
  {
    if fs != [] {
      match MarkOf(rules, fs[0])
      case Err(_) =>
      case Ok(None) => AddedMarksValid(rules, marks, fs[1..]);
      case Ok(Some((k, a))) => AddedMarksValid(rules, AddValue(marks, k, a), fs[1..]);
    }
  }

  // ---------------------------------------------------------------- tags

  /** `ordering.get(tag, 0)`. */
  function Rank(ordering: map<string, int>, tag: string): int {
    if tag in ordering then ordering[tag] else 0
  }

  /** `<tag>`, or `<tag a b ...>` with the attribute strings sorted and joined by spaces when that text is not empty. */
  ghost function StartTag(tag: string, attributes: set<string>): string {
    var joined := Join(" ", Sorting.SortedElements(attributes));
    "<" + tag + (if joined != "" then " " + joined else "") + ">"
  }

  function EndTag(tag: string): string { "</" + tag + ">" }

  /** The opening tag of a mark, at its start with the element's rank. */
  ghost function Opening(ordering: map<string, int>, mark: (MarkKey, set<string>)): Insertion {
    Insertion(mark.0.0, Rank(ordering, mark.0.2), StartTag(mark.0.2, mark.1))
  }

  /** The closing tag of a mark, at its end with the complementary rank. */
  function Closing(ordering: map<string, int>, mark: (MarkKey, set<string>)): Insertion {
    Insertion(mark.0.1, |ordering| - Rank(ordering, mark.0.2), EndTag(mark.0.2))
  }

  /** The tag list `inject` builds before sorting: each mark's opening then its closing tag, mark by mark. */
  ghost function MarkInsertions(marks: SetDict<MarkKey>, ordering: map<string, int>): (r: seq<Insertion>)
    ensures |r| == 2 * |marks|
    ensures forall i :: 0 <= i < |marks| ==> r[2 * i] == Opening(ordering, marks[i]) && r[2 * i + 1] == Closing(ordering, marks[i])
    decreases |marks|
  {
    if marks == [] then []
    else
      var init := MarkInsertions(marks[..|marks| - 1], ordering);
      init + [Opening(ordering, marks[|marks| - 1]), Closing(ordering, marks[|marks| - 1])]
  }

  /** One more mark adds its opening and closing tags at the end. */
  lemma MarkInsertionsStep(marks: SetDict<MarkKey>, ordering: map<string, int>, i: nat)
    requires i < |marks|
    ensures MarkInsertions(marks[..i + 1], ordering) ==
      MarkInsertions(marks[..i], ordering) + [Opening(ordering, marks[i]), Closing(ordering, marks[i])]
  {
    assert marks[..i + 1][..i] == marks[..i];
  }

  /** The tags sorted stably by (offset, rank). */
  ghost function SortedInsertions(marks: SetDict<MarkKey>, ordering: map<string, int>): seq<Insertion> {
    Sorting.StableSort(MarkInsertions(marks, ordering), Key)
  }

  /** What `inject(text)` returns. */
  ghost function Injected(marks: SetDict<MarkKey>, ordering: map<string, int>, text: string): string {
    Spliced(text, SortedInsertions(marks, ordering))
  }

  /** Every mark lies in a text of length n. */
  predicate MarksWithin(marks: SetDict<MarkKey>, n: int) {
    forall i :: 0 <= i < |marks| ==> 0 <= marks[i].0.0 <= n && 0 <= marks[i].0.1 <= n
  }

  lemma {:induction false} MarkInsertionsInRange(marks: SetDict<MarkKey>, ordering: map<string, int>, n: nat)
    requires MarksWithin(marks, n)
    ensures InRange(MarkInsertions(marks, ordering), 0, n)
    decreases |marks|
  {
    if marks != [] {
      MarkInsertionsInRange(marks[..|marks| - 1], ordering, n);
    }
  }

  lemma SortedInsertionsInRange(marks: SetDict<MarkKey>, ordering: map<string, int>, n: nat)
    requires MarksWithin(marks, n)
    ensures InRange(SortedInsertions(marks, ordering), 0, n)
  {
    var ins := MarkInsertions(marks, ordering);
    var sorted := SortedInsertions(marks, ordering);
    MarkInsertionsInRange(marks, ordering, n);
    forall i | 0 <= i < |sorted| ensures 0 <= sorted[i].offset <= n {
      assert sorted[i] in multiset(sorted);
      assert sorted[i] in multiset(ins);
    }
  }

  /**
   * With every mark inside the text, the result is the text cut at the tag
   * offsets with the sorted tags woven in: deleting the tags gives the text
   * back, and the length grows by the tags' total length.
   */
  lemma InjectedErasesToText(marks: SetDict<MarkKey>, ordering: map<string, int>, text: string)
    requires MarksWithin(marks, |text|)
    ensures var sorted := SortedInsertions(marks, ordering);
      && Sorting.SortedBy(sorted, Key) && Ascending(sorted) && InRange(sorted, 0, |text|)
      && Injected(marks, ordering, text) == Weave(Pieces(text, sorted, 0), TagStrings(sorted))
      && Join("", Pieces(text, sorted, 0)) == text
      && |Injected(marks, ordering, text)| == |text| + TagLength(sorted)
  {
    var sorted := SortedInsertions(marks, ordering);
    Sorting.StableSortSorted(MarkInsertions(marks, ordering), Key);
    SortedIsAscending(sorted);
    SortedInsertionsInRange(marks, ordering, |text|);
    SplicedIsInterleave(text, sorted);
    InterleaveErasesToText(text, sorted, 0);
  }

  /**
   * The tags come out in ascending (offset, rank) order, and tags with the
   * same offset and rank keep the order in which the marks were registered.
   */
  lemma InjectedTagOrder(marks: SetDict<MarkKey>, ordering: map<string, int>, k: seq<int>)
    ensures Sorting.SortedBy(SortedInsertions(marks, ordering), Key)
    ensures Sorting.WithKey(SortedInsertions(marks, ordering), Key, k) == Sorting.WithKey(MarkInsertions(marks, ordering), Key, k)
  {
    Sorting.StableSortSorted(MarkInsertions(marks, ordering), Key);
    Sorting.StableSortKeepsEqualKeysInOrder(MarkInsertions(marks, ordering), Key, k);
  }

  /**
   * Two marks over the same non-empty range nest: the one whose element
   * ranks lower opens first and closes last.
   */
  lemma MarksOverSameRangeNest(marks: SetDict<MarkKey>, ordering: map<string, int>, a: nat, b: nat, p1: nat, p2: nat, q1: nat, q2: nat)
    requires a < |marks| && b < |marks|
    requires marks[a].0.0 == marks[b].0.0 < marks[a].0.1 == marks[b].0.1
    requires Rank(ordering, marks[a].0.2) < Rank(ordering, marks[b].0.2)
    requires var s := SortedInsertions(marks, ordering);
      && p1 < |s| && p2 < |s| && q1 < |s| && q2 < |s|
      && s[p1] == Opening(ordering, marks[a]) && s[p2] == Opening(ordering, marks[b])
      && s[q2] == Closing(ordering, marks[b]) && s[q1] == Closing(ordering, marks[a])
    ensures p1 < p2 < q2 < q1
  {
    var s := SortedInsertions(marks, ordering);
    Sorting.StableSortSorted(MarkInsertions(marks, ordering), Key);
    KeyOrderIsListOrder(s, p1, p2);
    KeyOrderIsListOrder(s, p2, q2);
    KeyOrderIsListOrder(s, q2, q1);
  }

  /** Every mark's two tags are among the sorted tags. */
  lemma MarkTagsPresent(marks: SetDict<MarkKey>, ordering: map<string, int>, a: nat)
    requires a < |marks|
    ensures Opening(ordering, marks[a]) in SortedInsertions(marks, ordering)
    ensures Closing(ordering, marks[a]) in SortedInsertions(marks, ordering)
  {
    var ins := MarkInsertions(marks, ordering);
    assert ins[2 * a] == Opening(ordering, marks[a]) && ins[2 * a + 1] == Closing(ordering, marks[a]);
    assert ins[2 * a] in multiset(SortedInsertions(marks, ordering));
    assert ins[2 * a + 1] in multiset(SortedInsertions(marks, ordering));
  }

  /** A mark whose only attribute text is empty opens with the bare element. */
  lemma PlainStartTag(tag: string, attributes: set<string>)
    requires attributes <= {""}
    ensures StartTag(tag, attributes) == "<" + tag + ">"
  {
    Sorting.SortedElementsSpec(attributes);
    var r := Sorting.SortedElements(attributes);
    if attributes == {} {
      assert r == [];
    } else {
      assert attributes == {""};
      assert r[0] in attributes;
      assert r == [""];
    }
  }

  /** A mark with one non-empty attribute string opens as `<tag attribute>`. */
  lemma SingleAttributeStartTag(tag: string, a: string)
    requires a != ""
    ensures StartTag(tag, {a}) == "<" + tag + " " + a + ">"
  {
    Sorting.SortedElementsSpec({a});
    var r := Sorting.SortedElements({a});
    assert r[0] in {a};
    assert r == [a];
  }

  // ---------------------------------------------------------------- the injector

  /** `HTMLInjector`: fixed rules and ordering, and the marks registered so far. */
  class HtmlInjector {
    const rules: Rules
    const ordering: map<string, int>
    var marks: SetDict<MarkKey>

    ghost predicate Valid()
      reads this
    {
      && DistinctKinds(rules) && ordering == Ordering(rules)
      && DistinctKeys(marks) && NonEmptySets(marks)
    }

    constructor (rules: Rules)
      requires DistinctKinds(rules)
      ensures this.rules == rules && ordering == Ordering(rules) && marks == [] && Valid()
    {
      this.rules := rules;
      ordering := Ordering(rules);
      marks := [];
    }

    /** `_formatting_to_mark`: the attribute string added under the formatting's key. */
    method FormattingToMark(f: Formatting) returns (r: Result<()>)
      requires Valid()
      modifies this
      ensures Valid()
      ensures r == AddedMarks(rules, old(marks), [f]).0 && marks == AddedMarks(rules, old(marks), [f]).1
    {
      var rule := RuleFor(rules, KindOf(f));
      if rule.None? {
        return Ok(());
      }
      if !f.IsSpan() {
        return Err(AttributeError);
      }
      var attribute := "";
      if rule.value.attribute.Some? {
        attribute := rule.value.attribute.value + "=\"" + ValueText(f) + "\"";
      }
      marks := AddValue(marks, (f.start, f.end, rule.value.tag), attribute);
      r := Ok(());
    }

    /** `clear`: no marks; the rules and the ordering stay. */
    method Clear()
      requires Valid()
      modifies this
      ensures Valid() && marks == []
    {
      marks := [];
    }

    /** `add_formattings`: each formatting registered in turn. */
    method AddFormattings(fs: seq<Formatting>) returns (r: Result<()>)
      requires Valid()
      modifies this
      ensures Valid()
      ensures (r, marks) == AddedMarks(rules, old(marks), fs)
    {
      ghost var goal := AddedMarks(rules, marks, fs);
      r := Ok(());
      for i := 0 to |fs|
        invariant Valid() && r == Ok(())
        invariant AddedMarks(rules, marks, fs[i..]) == goal
      {
        AddedMarksStep(rules, marks, fs, i);
        r := FormattingToMark(fs[i]);
        if r.Err? {
          return;
        }
      }
      assert fs[|fs|..] == [];
    }

    /** The opening tag `inject` builds for one mark. */
    static method StartTagOf(tag: string, attributes: set<string>) returns (startTag: string)
      ensures startTag == StartTag(tag, attributes)
    {
      var sorted := Sorting.SortStrings(attributes);
      var joined := Join(" ", sorted);
      startTag := "<" + tag;
      if joined != "" {
        startTag := startTag + " " + joined;
      }
      startTag := startTag + ">";
    }

    /** The opening entry `inject` appends for one mark: its start, the element's rank and the start tag. */
    static method OpeningOf(ordering: map<string, int>, mark: (MarkKey, set<string>)) returns (t: Insertion)
      ensures t == Opening(ordering, mark)
    {
      var startTag := StartTagOf(mark.0.2, mark.1);
      t := Insertion(mark.0.0, Rank(ordering, mark.0.2), startTag);
    }

    /** The loop of `inject` over the marks: each mark's opening and closing entries, mark by mark. */
    static method CollectInsertions(marks: SetDict<MarkKey>, ordering: map<string, int>) returns (tags: seq<Insertion>)
      ensures tags == MarkInsertions(marks, ordering)
    {
      tags := [];
      for i := 0 to |marks|
        invariant tags == MarkInsertions(marks[..i], ordering)
      {
        var opening := OpeningOf(ordering, marks[i]);
        MarkInsertionsStep(marks, ordering, i);
        tags := tags + [opening, Closing(ordering, marks[i])];
      }
      assert marks[..|marks|] == marks;
    }

    /** `inject(text)`: reads the marks and returns the text with every mark's tags spliced in. */
    method Inject(text: string) returns (r: string)
      ensures r == Injected(marks, ordering, text)
    {
      var tags := CollectInsertions(marks, ordering);
      tags := Sorting.StableSort(tags, Key);
      r := InsertRightToLeft(text, tags);
    }
  }
}
