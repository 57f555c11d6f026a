/**
 * Re-linearisation of tag strings into text. Both exporters collect
 * (offset, rank, tag) entries, sort them by (offset, rank) and insert them
 * from the last to the first, so that an insertion never moves an offset
 * that is still to be used. `Interleave` is the forward description of the
 * same result: the text cut at the offsets with the tags in between.
 */
module Splicing {
  import opened PyStr
  import Sorting

  /** A literal tag string to be inserted at a character offset. */
  datatype Insertion = Insertion(offset: int, rank: int, tag: string)

  /** The sort key `(offset, rank)`. */
  function Key(t: Insertion): seq<int> { [t.offset, t.rank] }

  predicate InRange(tags: seq<Insertion>, from: int, n: nat) {
    forall i :: 0 <= i < |tags| ==> from <= tags[i].offset <= n
  }

  predicate Ascending(tags: seq<Insertion>) {
    forall i, j :: 0 <= i < j < |tags| ==> tags[i].offset <= tags[j].offset
  }

  /** A list sorted by `(offset, rank)` has ascending offsets. */
  lemma SortedIsAscending(tags: seq<Insertion>)
    requires Sorting.SortedBy(tags, Key)
    ensures Ascending(tags)
  {
    forall i, j | 0 <= i < j < |tags| ensures tags[i].offset <= tags[j].offset {
      assert Sorting.LexLe(Key(tags[i]), Key(tags[j]));
    }
  }

  /** The text from `from` on, with each tag placed at its offset, in list order. */
  function Interleave(text: string, tags: seq<Insertion>, from: nat): string
    requires from <= |text| && InRange(tags, from, |text|) && Ascending(tags)
    decreases |tags|
  {
    if tags == [] then text[from..]
    else text[from..tags[0].offset] + tags[0].tag + Interleave(text, tags[1..], tags[0].offset)
  }

  /** The text cut at the offsets: what is left when the tags are deleted again. */
  function Pieces(text: string, tags: seq<Insertion>, from: nat): (p: seq<string>)
    requires from <= |text| && InRange(tags, from, |text|) && Ascending(tags)
    ensures |p| == |tags| + 1
    decreases |tags|
  {
    if tags == [] then [text[from..]]
    else [text[from..tags[0].offset]] + Pieces(text, tags[1..], tags[0].offset)
  }

  /** p[0] + t[0] + p[1] + t[1] + ... + p[n]. */
  function Weave(p: seq<string>, t: seq<string>): string
    requires |p| == |t| + 1
    decreases |t|
  {
    if t == [] then p[0] else p[0] + t[0] + Weave(p[1..], t[1..])
  }

  function TagStrings(tags: seq<Insertion>): (t: seq<string>)
    ensures |t| == |tags| && forall i :: 0 <= i < |tags| ==> t[i] == tags[i].tag
  {
    seq(|tags|, i requires 0 <= i < |tags| => tags[i].tag)
  }

  function TagLength(tags: seq<Insertion>): nat {
    if tags == [] then 0 else |tags[0].tag| + TagLength(tags[1..])
  }

  /**
   * Deleting the inserted tags gives the text back: the output is the text's
   * pieces woven with the tag strings, and the pieces concatenate to the text.
   */
  lemma {:induction false} InterleaveErasesToText(text: string, tags: seq<Insertion>, from: nat)
    requires from <= |text| && InRange(tags, from, |text|) && Ascending(tags)
    ensures Interleave(text, tags, from) == Weave(Pieces(text, tags, from), TagStrings(tags))
    ensures Join("", Pieces(text, tags, from)) == text[from..]
    ensures |Interleave(text, tags, from)| == |text| - from + TagLength(tags)
    decreases |tags|
  {
    if tags != [] {
      var o := tags[0].offset;
      InterleaveErasesToText(text, tags[1..], o);
      assert TagStrings(tags)[1..] == TagStrings(tags[1..]);
      assert Pieces(text, tags, from) == [text[from..o]] + Pieces(text, tags[1..], o);
      JoinEmptyCons(text[from..o], Pieces(text, tags[1..], o));
      assert text[from..] == text[from..o] + text[o..];
    }
  }

  /** Cutting the forward result at an offset not beyond the first tag. */
  lemma InterleaveSplit(text: string, tags: seq<Insertion>, a: nat, o: nat)
    requires a <= o <= |text| && InRange(tags, o, |text|) && Ascending(tags)
    ensures Interleave(text, tags, a) == text[a..o] + Interleave(text, tags, o)
  {
    if tags != [] {
      assert text[a..tags[0].offset] == text[a..o] + text[o..tags[0].offset];
    } else {
      assert text[a..] == text[a..o] + text[o..];
    }
  }

  /**
   * The list order of a sorted list follows the keys: an entry whose
   * `(offset, rank)` is strictly smaller comes first.
   */
  lemma KeyOrderIsListOrder(tags: seq<Insertion>, i: nat, j: nat)
    requires Sorting.SortedBy(tags, Key) && i < |tags| && j < |tags|
    requires tags[i].offset < tags[j].offset || (tags[i].offset == tags[j].offset && tags[i].rank < tags[j].rank)
    ensures i < j
  {
    KeyBefore(tags[i], tags[j]);
  }

  lemma KeyBefore(a: Insertion, b: Insertion)
    requires a.offset < b.offset || (a.offset == b.offset && a.rank < b.rank)
    ensures !Sorting.LexLe(Key(b), Key(a))
  {
    assert Key(b)[1..] == [b.rank] && Key(a)[1..] == [a.rank];
    if a.offset == b.offset {
      assert !Sorting.LexLe([b.rank], [a.rank]);
    }
  }

  /**
   * `for tag in reversed(tags): text = text[:offset] + tag + text[offset:]`,
   * whatever the offsets: the first entry is spliced last, into the text
   * that already holds all the others.
   */
  function Spliced(text: string, tags: seq<Insertion>): (r: string)
    ensures |r| == |text| + TagLength(tags)
    decreases |tags|
  {
    if tags == [] then text else Splice(Spliced(text, tags[1..]), tags[0].offset, tags[0].tag)
  }

  /** With every offset in the text and the offsets ascending, splicing from the right is the forward interleaving. */
  lemma {:induction false} SplicedIsInterleave(text: string, tags: seq<Insertion>)
    requires InRange(tags, 0, |text|) && Ascending(tags)
    ensures Spliced(text, tags) == Interleave(text, tags, 0)
    decreases |tags|
  {
    if tags != [] {
      var o := tags[0].offset;
      SplicedIsInterleave(text, tags[1..]);
      InterleaveSplit(text, tags[1..], 0, o);
      var r := Interleave(text, tags[1..], 0);
      assert r == text[..o] + Interleave(text, tags[1..], o);
      assert r[..o] == text[..o] && r[o..] == Interleave(text, tags[1..], o);
    }
  }

  /** The loop itself: from the last entry to the first. */
  method InsertRightToLeft(text: string, tags: seq<Insertion>) returns (r: string)
    ensures r == Spliced(text, tags)
  {
    r := text;
    var i := |tags|;
    while i > 0
      invariant 0 <= i <= |tags|
      invariant r == Spliced(text, tags[i..])
    {
      i := i - 1;
      assert tags[i..][1..] == tags[i + 1..];
      r := Splice(r, tags[i].offset, tags[i].tag);
    }
  }
}
