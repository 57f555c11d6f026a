/**
 * A `defaultdict(set)` of strings: the keys in insertion order, each with
 * its set. Looking up a missing key gives the empty set the dictionary
 * would create.
 */
module SetDicts {
  import opened Wrappers

  /** A `defaultdict(set)`: its keys in insertion order, each with its set. */
  type SetDict<K> = seq<(K, set<string>)>

  function Keys<K>(d: SetDict<K>): (ks: seq<K>)
    ensures |ks| == |d| && forall i :: 0 <= i < |d| ==> ks[i] == d[i].0
  {
    seq(|d|, i requires 0 <= i < |d| => d[i].0)
  }

  predicate DistinctKeys<K(==)>(d: SetDict<K>) {
    forall i, j :: 0 <= i < j < |d| ==> d[i].0 != d[j].0
  }

  predicate NonEmptySets<K>(d: SetDict<K>) {
    forall i :: 0 <= i < |d| ==> d[i].1 != {}
  }

  /** The first position of k in ks. */
  function IndexOf<K(==)>(ks: seq<K>, k: K): (r: Option<nat>)
    ensures r.Some? <==> k in ks
    ensures r.Some? ==> r.value < |ks| && ks[r.value] == k && k !in ks[..r.value]
  {
    if ks == [] then None
    else if ks[0] == k then Some(0)
    else
      match IndexOf(ks[1..], k)
      case None => None
      case Some(i) =>
        assert ks[..i + 1] == [ks[0]] + ks[1..][..i];
        Some(i + 1)
  }

  lemma IndexOfAppend<K>(ks: seq<K>, k: K, x: K)
    requires k !in ks
    ensures IndexOf(ks + [k], x) == if x in ks then IndexOf(ks, x) else if x == k then Some(|ks|) else None
  {
    if x in ks {
      var i := IndexOf(ks, x).value;
      assert (ks + [k])[..i] == ks[..i];
    } else if x == k {
      assert (ks + [k])[..|ks|] == ks;
    }
  }

  /** `d[k]`: the set under k, or the empty set a `defaultdict` would create. */
  function Lookup<K(==)>(d: SetDict<K>, k: K): set<string> {
    match IndexOf(Keys(d), k)
    case None => {}
    case Some(i) => d[i].1
  }

  /**
   * `d[k].add(v)`: a new key goes last; an existing key keeps its place and
   * every other entry stays as it was.
   */
  function AddValue<K(==)>(d: SetDict<K>, k: K, v: string): (r: SetDict<K>)
    ensures Keys(r) == if k in Keys(d) then Keys(d) else Keys(d) + [k]
    ensures DistinctKeys(d) ==> DistinctKeys(r)
    ensures NonEmptySets(d) ==> NonEmptySets(r)
    ensures |d| <= |r| && forall i :: 0 <= i < |d| && d[i].0 != k ==> r[i] == d[i]
  {
    match IndexOf(Keys(d), k)
    case None =>
      var r := d + [(k, {v})];
      assert Keys(r) == Keys(d) + [k];
      r
    case Some(i) =>
      var r := d[i := (k, d[i].1 + {v})];
      assert Keys(r) == Keys(d);
      r
  }

  /** After `d[k].add(v)` the set under k has gained v and every other set is as it was. */
  lemma LookupAddValue<K>(d: SetDict<K>, k: K, v: string, x: K)
    ensures Lookup(AddValue(d, k, v), x) == if x == k then Lookup(d, k) + {v} else Lookup(d, x)
  {
    if k !in Keys(d) {
      IndexOfAppend(Keys(d), k, x);
    }
  }

  /** With non-empty sets, every key present looks up a non-empty set. */
  lemma LookupPresent<K>(d: SetDict<K>, j: nat)
    requires NonEmptySets(d) && j < |d|
    ensures Lookup(d, d[j].0) != {}
  {
    assert Keys(d)[j] == d[j].0;
  }

  /** With distinct keys, each entry's key looks up that entry's set. */
  lemma LookupEntry<K>(d: SetDict<K>, j: nat)
    requires DistinctKeys(d) && j < |d|
    ensures Lookup(d, d[j].0) == d[j].1
  {
    assert Keys(d)[j] == d[j].0;
  }
}
