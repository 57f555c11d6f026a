/**
 * Python's orderings and sorts as the core uses them: tuples and strings
 * compare lexicographically (a proper prefix first), `list.sort` is stable,
 * and `sorted(set)` gives the ascending list of a set's elements.
 */
module Sorting {

  /** Lexicographic order on integer sequences; a proper prefix comes first. */
  predicate LexLe(a: seq<int>, b: seq<int>)
    decreases |a|
  {
    if a == [] then true
    else if b == [] then false
    else if a[0] != b[0] then a[0] < b[0]
    else LexLe(a[1..], b[1..])
  }

  lemma {:induction false} LexLeReflexive(a: seq<int>)
    ensures LexLe(a, a)
    decreases |a|
  {
    if a != [] { LexLeReflexive(a[1..]); }
  }

  lemma {:induction false} LexLeTotal(a: seq<int>, b: seq<int>)
    ensures LexLe(a, b) || LexLe(b, a)
    decreases |a|
  {
    if a != [] && b != [] && a[0] == b[0] { LexLeTotal(a[1..], b[1..]); }
  }

  lemma {:induction false} LexLeTransitive(a: seq<int>, b: seq<int>, c: seq<int>)
    requires LexLe(a, b) && LexLe(b, c)
    ensures LexLe(a, c)
    decreases |a|
  {
    if a != [] && b != [] && c != [] && a[0] == b[0] && b[0] == c[0] {
      LexLeTransitive(a[1..], b[1..], c[1..]);
    }
  }

  lemma {:induction false} LexLeAntisymmetric(a: seq<int>, b: seq<int>)
    requires LexLe(a, b) && LexLe(b, a)
    ensures a == b
    decreases |a|
  {
    if a != [] && b != [] {
      LexLeAntisymmetric(a[1..], b[1..]);
      assert a == [a[0]] + a[1..] && b == [b[0]] + b[1..];
    }
  }

  /** The code points of a string: Python compares strings by these. */
  function CodePoints(s: string): (k: seq<int>)
    ensures |k| == |s| && forall i :: 0 <= i < |s| ==> k[i] == s[i] as int
  {
    seq(|s|, i requires 0 <= i < |s| => s[i] as int)
  }

  /** `a <= b` on Python strings. */
  predicate StrLe(a: string, b: string) { LexLe(CodePoints(a), CodePoints(b)) }

  lemma StrLeAntisymmetric(a: string, b: string)
    requires StrLe(a, b) && StrLe(b, a)
    ensures a == b
  {
    LexLeAntisymmetric(CodePoints(a), CodePoints(b));
    assert forall i :: 0 <= i < |a| ==> a[i] as int == b[i] as int;
  }

  // ---------------------------------------------------------------- stable sort

  predicate SortedBy<T>(s: seq<T>, key: T -> seq<int>) {
    forall i, j :: 0 <= i < j < |s| ==> LexLe(key(s[i]), key(s[j]))
  }

  /** Insertion of x into a sorted list, after every element whose key is not greater. */
  function Insert<T>(r: seq<T>, x: T, key: T -> seq<int>): (q: seq<T>)
    ensures multiset(q) == multiset(r) + multiset{x}
    decreases |r|
  {
    if r == [] then [x]
    else if LexLe(key(r[|r| - 1]), key(x)) then r + [x]
    else
      var q := Insert(r[..|r| - 1], x, key) + [r[|r| - 1]];
      assert r == r[..|r| - 1] + [r[|r| - 1]];
      q
  }

  lemma {:induction false} InsertSorted<T>(r: seq<T>, x: T, key: T -> seq<int>)
    requires SortedBy(r, key)
    ensures SortedBy(Insert(r, x, key), key)
    decreases |r|
  {
    if r == [] {
    } else if LexLe(key(r[|r| - 1]), key(x)) {
      forall i | 0 <= i < |r| ensures LexLe(key(r[i]), key(x)) {
        if i < |r| - 1 { LexLeTransitive(key(r[i]), key(r[|r| - 1]), key(x)); } else { }
      }
    } else {
      var last := r[|r| - 1];
      var p := Insert(r[..|r| - 1], x, key);
      InsertSorted(r[..|r| - 1], x, key);
      LexLeTotal(key(last), key(x));
      forall i | 0 <= i < |p| ensures LexLe(key(p[i]), key(last)) {
        assert p[i] in multiset(p);
        if p[i] == x { } else {
          assert p[i] in multiset(r[..|r| - 1]);
          var k :| 0 <= k < |r| - 1 && r[k] == p[i];
        }
      }
    }
  }

  /** `sorted(s, key=key)`: a stable insertion sort. */
  function StableSort<T>(s: seq<T>, key: T -> seq<int>): (r: seq<T>)
    ensures multiset(r) == multiset(s) && |r| == |s|
    decreases |s|
  {
    if s == [] then []
    else
      var r := Insert(StableSort(s[..|s| - 1], key), s[|s| - 1], key);
      assert s == s[..|s| - 1] + [s[|s| - 1]];
      assert |r| == |multiset(r)|;
      r
  }

  lemma {:induction false} StableSortSorted<T>(s: seq<T>, key: T -> seq<int>)
    ensures SortedBy(StableSort(s, key), key)
    decreases |s|
  {
    if s != [] {
      StableSortSorted(s[..|s| - 1], key);
      InsertSorted(StableSort(s[..|s| - 1], key), s[|s| - 1], key);
    }
  }

  /** The elements of s whose key is k, in their order in s. */
  function WithKey<T>(s: seq<T>, key: T -> seq<int>, k: seq<int>): seq<T>
    decreases |s|
  {
    if s == [] then []
    else WithKey(s[..|s| - 1], key, k) + KeyPart(s[|s| - 1], key, k)
  }

  /** The elements of a single-element list with key k. */
  function KeyPart<T>(y: T, key: T -> seq<int>, k: seq<int>): seq<T> {
    if key(y) == k then [y] else []
  }

  lemma {:induction false} InsertWithKey<T>(r: seq<T>, x: T, key: T -> seq<int>, k: seq<int>)
    ensures WithKey(Insert(r, x, key), key, k) == WithKey(r, key, k) + KeyPart(x, key, k)
    decreases |r|
  {
    if r == [] {
      assert WithKey([x], key, k) == WithKey([], key, k) + KeyPart(x, key, k) by {
        assert [x][..0] == [];
      }
    } else if LexLe(key(r[|r| - 1]), key(x)) {
      InsertWithKeyAfterLast(r, x, key, k);
    } else {
      InsertWithKey(r[..|r| - 1], x, key, k);
      InsertWithKeyBeforeLast(r, x, key, k);
    }
  }

  /** x goes after the last element: its key-k elements follow those of r. */
  lemma InsertWithKeyAfterLast<T>(r: seq<T>, x: T, key: T -> seq<int>, k: seq<int>)
    requires r != [] && LexLe(key(r[|r| - 1]), key(x))
    ensures WithKey(Insert(r, x, key), key, k) == WithKey(r, key, k) + KeyPart(x, key, k)
  {
    assert Insert(r, x, key) == r + [x];
    assert (r + [x])[..|r|] == r;
  }

  /** x goes before the last element, whose key differs from x's when its key is k. */
  lemma InsertWithKeyBeforeLast<T>(r: seq<T>, x: T, key: T -> seq<int>, k: seq<int>)
    requires r != [] && !LexLe(key(r[|r| - 1]), key(x))
    requires WithKey(Insert(r[..|r| - 1], x, key), key, k) == WithKey(r[..|r| - 1], key, k) + KeyPart(x, key, k)
    ensures WithKey(Insert(r, x, key), key, k) == WithKey(r, key, k) + KeyPart(x, key, k)
  {
    var last := r[|r| - 1];
    var p := Insert(r[..|r| - 1], x, key);
    assert Insert(r, x, key) == p + [last];
    WithKeyAppend(p, last, key, k);
    if key(x) == k && key(last) == k { LexLeReflexive(k); }
    AppendCommuteTail(WithKey(r[..|r| - 1], key, k), KeyPart(x, key, k), KeyPart(last, key, k));
  }

  /** Appending one element extends the elements with key k by its key part. */
  lemma WithKeyAppend<T>(s: seq<T>, y: T, key: T -> seq<int>, k: seq<int>)
    ensures WithKey(s + [y], key, k) == WithKey(s, key, k) + KeyPart(y, key, k)
  {
    assert (s + [y])[..|s|] == s;
  }

  /** Two tails of which one is empty can be appended in either order. */
  lemma AppendCommuteTail<T>(a: seq<T>, x: seq<T>, l: seq<T>)
    requires x == [] || l == []
    ensures (a + x) + l == (a + l) + x
  {
    if x == [] {
      assert a + x == a;
    } else {
      assert a + l == a;
    }
  }

  /** Stability: the elements that share a key keep their relative order. */
  lemma {:induction false} StableSortKeepsEqualKeysInOrder<T>(s: seq<T>, key: T -> seq<int>, k: seq<int>)
    ensures WithKey(StableSort(s, key), key, k) == WithKey(s, key, k)
    decreases |s|
  {
    if s != [] {
      StableSortKeepsEqualKeysInOrder(s[..|s| - 1], key, k);
      InsertWithKey(StableSort(s[..|s| - 1], key), s[|s| - 1], key, k);
    }
  }

  /** Sorting a list that is already sorted leaves it unchanged. */
  lemma {:induction false} StableSortOfSorted<T>(s: seq<T>, key: T -> seq<int>)
    requires SortedBy(s, key)
    ensures StableSort(s, key) == s
    decreases |s|
  {
    if s != [] {
      var init := s[..|s| - 1];
      assert SortedBy(init, key);
      StableSortOfSorted(init, key);
      if init != [] {
        assert LexLe(key(init[|init| - 1]), key(s[|s| - 1]));
      }
      assert init + [s[|s| - 1]] == s;
    }
  }

  /** In a sorted list an element with a strictly smaller key comes first. */
  lemma SortedPrecedes<T>(s: seq<T>, key: T -> seq<int>, i: nat, j: nat)
    requires SortedBy(s, key) && i < |s| && j < |s|
    requires !LexLe(key(s[j]), key(s[i]))
    ensures i < j
  {
    LexLeReflexive(key(s[i]));
  }

  // ---------------------------------------------------------------- sorted sets of strings

  lemma {:induction false} MinExists(s: set<string>)
    requires s != {}
    ensures exists m :: m in s && forall x :: x in s ==> StrLe(m, x)
    decreases s
  {
    var y :| y in s;
    var rest := s - {y};
    if rest == {} {
      LexLeReflexive(CodePoints(y));
      forall x | x in s ensures StrLe(y, x) {
        assert x !in rest;
      }
    } else {
      MinExists(rest);
      var m :| m in rest && forall x :: x in rest ==> StrLe(m, x);
      MinWithOneMore(s, y, m);
    }
  }

  /** The least of a set with y left out, compared with y, gives the least of the whole set. */
  lemma MinWithOneMore(s: set<string>, y: string, m: string)
    requires y in s && m in s - {y} && forall x :: x in s - {y} ==> StrLe(m, x)
    ensures exists m' :: m' in s && forall x :: x in s ==> StrLe(m', x)
  {
    LexLeTotal(CodePoints(m), CodePoints(y));
    if StrLe(m, y) {
      forall x | x in s ensures StrLe(m, x) {
        if x != y { assert x in s - {y}; }
      }
      assert m in s;
    } else {
      forall x | x in s ensures StrLe(y, x) {
        if x == y { LexLeReflexive(CodePoints(y)); }
        else { assert x in s - {y}; LexLeTransitive(CodePoints(y), CodePoints(m), CodePoints(x)); }
      }
    }
  }

  /** The least string of a non-empty set. */
  ghost function MinString(s: set<string>): (m: string)
    requires s != {}
    ensures m in s && forall x :: x in s ==> StrLe(m, x)
  {
    MinExists(s);
    var m :| m in s && forall x :: x in s ==> StrLe(m, x); m
  }

  /** `sorted(s)` for a set of strings. */
  ghost function SortedElements(s: set<string>): seq<string>
    decreases s
  {
    if s == {} then [] else var m := MinString(s); [m] + SortedElements(s - {m})
  }

  /** `sorted(s)` lists every element of s exactly once, in strictly ascending order. */
  lemma SortedElementsSpec(s: set<string>)
    ensures var r := SortedElements(s);
      && |r| == |s|
      && (forall x :: x in r <==> x in s)
      && (forall i, j :: 0 <= i < j < |r| ==> StrLe(r[i], r[j]) && r[i] != r[j])
  {
    SortedElementsCount(s);
    SortedElementsMembers(s);
    SortedElementsAscending(s);
  }

  /** `sorted(s)` is as long as s has elements. */
  lemma {:induction false} SortedElementsCount(s: set<string>)
    ensures |SortedElements(s)| == |s|
    decreases s
  {
    if s != {} {
      var m := MinString(s);
      SortedElementsCount(s - {m});
    }
  }

  /** `sorted(s)` holds exactly the elements of s. */
  lemma {:induction false} SortedElementsMembers(s: set<string>)
    ensures forall x :: x in SortedElements(s) <==> x in s
    decreases s
  {
    if s != {} {
      var m := MinString(s);
      var rest := SortedElements(s - {m});
      SortedElementsMembers(s - {m});
      assert SortedElements(s) == [m] + rest;
      forall x ensures x in [m] + rest <==> x in s {
        assert x in [m] + rest <==> x == m || x in rest;
      }
    }
  }

  /** Each string is before every later one and differs from it. */
  predicate StrictlyAscending(r: seq<string>) {
    forall i, j :: 0 <= i < j < |r| ==> StrLe(r[i], r[j]) && r[i] != r[j]
  }

  /** `sorted(s)` is strictly ascending. */
  lemma {:induction false} SortedElementsAscending(s: set<string>)
    ensures StrictlyAscending(SortedElements(s))
    decreases s
  {
    if s != {} {
      var m := MinString(s);
      var rest := SortedElements(s - {m});
      SortedElementsAscending(s - {m});
      SortedElementsMembers(s - {m});
      var r := [m] + rest;
      assert SortedElements(s) == r;
      forall i, j | 0 <= i < j < |r| ensures StrLe(r[i], r[j]) && r[i] != r[j] {
        assert r[j] == rest[j - 1] && rest[j - 1] in rest;
        if i == 0 {
          assert r[j] in s - {m};
        } else {
          assert r[i] == rest[i - 1];
        }
      }
    }
  }

  /** `list(s)` followed by `.sort()`: repeatedly take the least remaining string. */
  method SortStrings(s: set<string>) returns (r: seq<string>)
    ensures r == SortedElements(s)
  {
    r := [];
    var rest := s;
    while rest != {}
      invariant r + SortedElements(rest) == SortedElements(s)
      decreases rest
    {
      MinExists(rest);
      var m :| m in rest && forall x :: x in rest ==> StrLe(m, x);
      StrLeAntisymmetric(m, MinString(rest));
      assert SortedElements(rest) == [m] + SortedElements(rest - {m});
      r := r + [m];
      rest := rest - {m};
    }
  }
}
