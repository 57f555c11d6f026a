/**
 * The handful of Python `str` operations the subtitle code relies on, written
 * out with Python's semantics: whitespace as `str.isspace`, `splitlines`
 * boundaries, `split`, `join`, `replace`, `count`, slicing with clamped
 * indices, `int()` on decimal text and `format(n, "0w")`.
 */
module PyStr {
  import opened Wrappers

  /** `str.isspace` for one character: the ASCII blanks (tab to carriage return, the four
      information separators and the space) or one of the wider Unicode spaces. */
  predicate IsSpace(c: char) {
    if c <= ' ' then c == ' ' || '\t' <= c <= '\r' || '\U{1c}' <= c <= '\U{1f}'
    else c in WideSpaces
  }

  /** The characters above U+0020 that `str.isspace` accepts. */
  const WideSpaces: set<char> := {
    '\U{85}', '\U{a0}', '\U{1680}', '\U{2000}', '\U{2001}', '\U{2002}', '\U{2003}', '\U{2004}', '\U{2005}',
    '\U{2006}', '\U{2007}', '\U{2008}', '\U{2009}', '\U{200a}', '\U{2028}', '\U{2029}', '\U{202f}',
    '\U{205f}', '\U{3000}'
  }

  /** The characters at which `str.splitlines` ends a line. */
  predicate IsLineBreak(c: char) {
    c == '\n' || c == '\r' || c == '\U{0b}' || c == '\U{0c}' || ('\U{1c}' <= c <= '\U{1e}')
    || c == '\U{85}' || c == '\U{2028}' || c == '\U{2029}'
  }

  predicate IsDigit(c: char) { '0' <= c <= '9' }

  predicate AllDigits(s: string) { forall i :: 0 <= i < |s| ==> IsDigit(s[i]) }

  // ---------------------------------------------------------------- strip

  /** Index of the first non-whitespace character at or after i, or the length. */
  function SkipSpaces(s: string, i: nat): (j: nat)
    requires i <= |s|
    ensures i <= j <= |s| && (j < |s| ==> !IsSpace(s[j]))
    ensures forall k :: i <= k < j ==> IsSpace(s[k])
    decreases |s| - i
  {
    if i == |s| || !IsSpace(s[i]) then i else SkipSpaces(s, i + 1)
  }

  /** Index just after the last non-whitespace character of s[lo..hi], or lo. */
  function SkipSpacesBack(s: string, lo: nat, hi: nat): (j: nat)
    requires lo <= hi <= |s|
    ensures lo <= j <= hi && (j > lo ==> !IsSpace(s[j - 1]))
    ensures forall k :: j <= k < hi ==> IsSpace(s[k])
    decreases hi - lo
  {
    if hi == lo || !IsSpace(s[hi - 1]) then hi else SkipSpacesBack(s, lo, hi - 1)
  }

  /** Whitespace up to n and a non-space (or the end) at n: skipping stops at n. */
  lemma {:induction false} SkipSpacesTo(s: string, i: nat, n: nat)
    requires i <= n <= |s|
    requires forall k :: i <= k < n ==> IsSpace(s[k])
    requires n == |s| || !IsSpace(s[n])
    ensures SkipSpaces(s, i) == n
    decreases n - i
  {
    if i < n {
      SkipSpacesTo(s, i + 1, n);
    }
  }

  /** Where `strip` and `lstrip` start cutting: the number of leading whitespace characters. */
  function StripStart(s: string): (i: nat)
    ensures i <= |s|
  {
    SkipSpaces(s, 0)
  }

  /** Where `strip` stops cutting. */
  function StripEnd(s: string): (i: nat)
    ensures StripStart(s) <= i <= |s|
  {
    SkipSpacesBack(s, StripStart(s), |s|)
  }

  /** `str.lstrip()`: the input without its leading whitespace. */
  function LStrip(s: string): (r: string)
    ensures |r| <= |s| && r == s[|s| - |r|..]
    ensures r != [] ==> !IsSpace(r[0])
    ensures forall i :: 0 <= i < |s| - |r| ==> IsSpace(s[i])
  {
    s[StripStart(s)..]
  }

  /** `str.strip()`: the input without leading and trailing whitespace. */
  function Strip(s: string): (r: string)
    ensures |r| <= |s|
    ensures r != [] ==> !IsSpace(r[0]) && !IsSpace(r[|r| - 1])
    ensures StripStart(s) + |r| <= |s| && r == s[StripStart(s)..StripStart(s) + |r|]
    ensures forall k :: 0 <= k < StripStart(s) ==> IsSpace(s[k])
    ensures forall k :: StripStart(s) + |r| <= k < |s| ==> IsSpace(s[k])
  {
    s[StripStart(s)..StripEnd(s)]
  }

  /** Trailing whitespace from n to hi and a non-space (or lo) just before n: skipping back stops at n. */
  lemma {:induction false} SkipSpacesBackTo(s: string, lo: nat, hi: nat, n: nat)
    requires lo <= n <= hi <= |s|
    requires forall k :: n <= k < hi ==> IsSpace(s[k])
    requires n == lo || !IsSpace(s[n - 1])
    ensures SkipSpacesBack(s, lo, hi) == n
    decreases hi - n
  {
    if n < hi {
      SkipSpacesBackTo(s, lo, hi - 1, n);
    }
  }

  /** `strip` keeps exactly the slice from a to b when everything outside it is whitespace
      and it has no whitespace at either end. */
  lemma StripIs(s: string, a: nat, b: nat)
    requires a <= b <= |s|
    requires forall k :: 0 <= k < a ==> IsSpace(s[k])
    requires forall k :: b <= k < |s| ==> IsSpace(s[k])
    requires a < b ==> !IsSpace(s[a]) && !IsSpace(s[b - 1])
    ensures Strip(s) == s[a..b]
  {
    if a < b {
      SkipSpacesTo(s, 0, a);
      SkipSpacesBackTo(s, a, |s|, b);
    } else {
      SkipSpacesTo(s, 0, |s|);
    }
  }

  /** Text with no whitespace at either end is its own strip. */
  lemma StripNoSpaceEnds(s: string)
    requires s != [] && !IsSpace(s[0]) && !IsSpace(s[|s| - 1])
    ensures Strip(s) == s
  {
    StripIs(s, 0, |s|);
  }

  /** A leading whitespace character does not change the strip. */
  lemma StripDropFirst(s: string)
    requires s != [] && IsSpace(s[0])
    ensures Strip(s) == Strip(s[1..])
  {
    var t := s[1..];
    StripAfterSpace(s, t, StripStart(t), Strip(t));
  }

  /** The strip of t, seen inside s, one whitespace character longer at the front. */
  lemma StripAfterSpace(s: string, t: string, a: nat, r: string)
    requires s != [] && IsSpace(s[0]) && t == s[1..]
    requires r != [] ==> !IsSpace(r[0]) && !IsSpace(r[|r| - 1])
    requires a + |r| <= |t| && r == t[a..a + |r|]
    requires forall k :: 0 <= k < a ==> IsSpace(t[k])
    requires forall k :: a + |r| <= k < |t| ==> IsSpace(t[k])
    ensures Strip(s) == r
  {
    var b := a + |r|;
    forall k | 0 <= k < a + 1 ensures IsSpace(s[k]) {
      if k > 0 { assert s[k] == t[k - 1]; }
    }
    forall k | b + 1 <= k < |s| ensures IsSpace(s[k]) {
      assert s[k] == t[k - 1];
    }
    if r != [] {
      assert s[a + 1] == r[0];
      assert s[b] == r[|r| - 1];
    }
    StripIs(s, a + 1, b + 1);
    assert s[a + 1..b + 1] == r;
  }

  /** A trailing whitespace character does not change the strip. */
  lemma StripDropLast(s: string)
    requires s != [] && IsSpace(s[|s| - 1])
    ensures Strip(s) == Strip(s[..|s| - 1])
  {
    var u := s[..|s| - 1];
    StripBeforeSpace(s, u, StripStart(u), Strip(u));
  }

  /** The strip of u, seen inside s, one whitespace character longer at the back. */
  lemma StripBeforeSpace(s: string, u: string, a: nat, r: string)
    requires s != [] && IsSpace(s[|s| - 1]) && u == s[..|s| - 1]
    requires r != [] ==> !IsSpace(r[0]) && !IsSpace(r[|r| - 1])
    requires a + |r| <= |u| && r == u[a..a + |r|]
    requires forall k :: 0 <= k < a ==> IsSpace(u[k])
    requires forall k :: a + |r| <= k < |u| ==> IsSpace(u[k])
    ensures Strip(s) == r
  {
    var b := a + |r|;
    forall k | 0 <= k < a ensures IsSpace(s[k]) {
      assert s[k] == u[k];
    }
    forall k | b <= k < |s| ensures IsSpace(s[k]) {
      if k < |u| { assert s[k] == u[k]; }
    }
    if r != [] {
      assert s[a] == r[0];
      assert s[b - 1] == r[|r| - 1];
    }
    StripIs(s, a, b);
    assert s[a..b] == r;
  }

  // ---------------------------------------------------------------- search

  /** `sub in s` at index i. */
  predicate OccursAt(s: string, sub: string, i: nat) {
    i + |sub| <= |s| && s[i..i + |sub|] == sub
  }

  /** `s.find(sub)`, as an option. */
  function Find(s: string, sub: string): (r: Option<nat>)
    ensures r.Some? ==> OccursAt(s, sub, r.value)
  {
    FindFrom(s, sub, 0)
  }

  /** Find gives the first occurrence, and None only when there is none. */
  lemma FindFirst(s: string, sub: string)
    ensures Find(s, sub).Some? ==> forall j :: 0 <= j < Find(s, sub).value ==> !OccursAt(s, sub, j)
    ensures Find(s, sub).None? <==> forall j :: 0 <= j <= |s| ==> !OccursAt(s, sub, j)
  {
    var r := FindFrom(s, sub, 0);
    FindFromFirst(s, sub, 0);
    if r.Some? {
      assert OccursAt(s, sub, r.value);
    }
  }

  function FindFrom(s: string, sub: string, k: nat): (r: Option<nat>)
    ensures r.Some? ==> k <= r.value && OccursAt(s, sub, r.value)
    decreases |s| - k
  {
    if k + |sub| > |s| then None
    else if s[k..k + |sub|] == sub then Some(k)
    else FindFrom(s, sub, k + 1)
  }

  /** The search from k skips only places where sub does not occur. */
  lemma {:induction false} FindFromFirst(s: string, sub: string, k: nat)
    ensures var r := FindFrom(s, sub, k);
      && (r.Some? ==> forall j :: k <= j < r.value ==> !OccursAt(s, sub, j))
      && (r.None? ==> forall j :: k <= j <= |s| ==> !OccursAt(s, sub, j))
    decreases |s| - k
  {
    if k + |sub| <= |s| && s[k..k + |sub|] != sub {
      FindFromFirst(s, sub, k + 1);
    }
  }

  predicate Contains(s: string, sub: string) { Find(s, sub).Some? }

  /** `c in s` for one character, as a scan from the left. */
  predicate HasChar(s: string, c: char)
    decreases |s|
  {
    s != [] && (s[0] == c || HasChar(s[1..], c))
  }

  /** The scan agrees with sequence membership. */
  lemma {:induction false} HasCharIsIn(s: string, c: char)
    ensures HasChar(s, c) <==> c in s
    decreases |s|
  {
    if s != [] {
      HasCharIsIn(s[1..], c);
      assert s == [s[0]] + s[1..];
    }
  }

  /** First index of character c, as an option. */
  function FindChar(s: string, c: char): (r: Option<nat>)
    ensures r.Some? ==> r.value < |s| && s[r.value] == c && c !in s[..r.value]
    ensures r.Some? ==> forall j :: 0 <= j < r.value ==> s[j] != c
    ensures r.None? ==> c !in s
  {
    if c !in s then None
    else if s[0] == c then Some(0)
    else
      var k := FindChar(s[1..], c);
      assert s[1..][k.value] == s[k.value + 1];
      assert s[..k.value + 1] == [s[0]] + s[1..][..k.value];
      Some(k.value + 1)
  }

  /** `s.count(c)` for a one-character needle. */
  function CountChar(s: string, c: char): (n: nat)
    ensures n <= |s|
  {
    if s == [] then 0 else CountChar(s[..|s| - 1], c) + (if s[|s| - 1] == c then 1 else 0)
  }

  lemma {:induction false} CountCharAppend(a: string, b: string, c: char)
    ensures CountChar(a + b, c) == CountChar(a, c) + CountChar(b, c)
    decreases |b|
  {
    if b != [] {
      assert (a + b)[..|a + b| - 1] == a + b[..|b| - 1];
      CountCharAppend(a, b[..|b| - 1], c);
    } else {
      assert a + b == a;
    }
  }

  // ---------------------------------------------------------------- slicing

  /** Python's normalisation of a slice bound against a length. */
  function SliceIndex(i: int, n: nat): (k: nat)
    ensures k <= n
    ensures 0 <= i <= n ==> k == i
  {
    if i < 0 then (if n + i < 0 then 0 else n + i) else if i > n then n else i
  }

  /** `s[a:b]`. */
  function Slice(s: string, a: int, b: int): (r: string)
    ensures |r| <= |s|
  {
    var i := SliceIndex(a, |s|);
    var j := SliceIndex(b, |s|);
    if i <= j then s[i..j] else []
  }

  /** `s[:i] + piece + s[i:]`. */
  function Splice(s: string, i: int, piece: string): (r: string)
    ensures |r| == |s| + |piece|
    ensures 0 <= i <= |s| ==> r == s[..i] + piece + s[i..]
  {
    var k := SliceIndex(i, |s|);
    s[..k] + piece + s[k..]
  }

  // ---------------------------------------------------------------- split / join

  /** `s.split(c)` for a one-character separator. */
  function SplitChar(s: string, c: char): (parts: seq<string>)
    ensures |parts| >= 1
    ensures forall i :: 0 <= i < |parts| ==> c !in parts[i]
    decreases |s|
  {
    match FindChar(s, c)
    case None => [s]
    case Some(i) => [s[..i]] + SplitChar(s[i + 1..], c)
  }

  /** A string without c counts none of it. */
  lemma {:induction false} CountCharAbsent(s: string, c: char)
    requires c !in s
    ensures CountChar(s, c) == 0
    decreases |s|
  {
    if s != [] {
      CountCharAbsent(s[..|s| - 1], c);
    }
  }

  /** `s.split(c)` has one part more than s has occurrences of c. */
  lemma {:induction false} SplitCharCount(s: string, c: char)
    ensures |SplitChar(s, c)| == CountChar(s, c) + 1
    decreases |s|
  {
    match FindChar(s, c)
    case None => CountCharAbsent(s, c);
    case Some(i) =>
      assert s == s[..i] + [c] + s[i + 1..];
      CountCharAppend(s[..i] + [c], s[i + 1..], c);
      CountCharAppend(s[..i], [c], c);
      CountCharAbsent(s[..i], c);
      SplitCharCount(s[i + 1..], c);
  }

  /** `sep.join(parts)`. */
  function Join(sep: string, parts: seq<string>): string {
    if |parts| == 0 then ""
    else if |parts| == 1 then parts[0]
    else parts[0] + sep + Join(sep, parts[1..])
  }

  /** `"".join([w] + rest)`. */
  lemma JoinEmptyCons(w: string, rest: seq<string>)
    ensures Join("", [w] + rest) == w + Join("", rest)
  {
    if rest != [] {
      assert ([w] + rest)[1..] == rest;
    }
  }

  /** `"".join(parts + [w])`: appending a part appends its text. */
  lemma {:induction false} JoinEmptySnoc(parts: seq<string>, w: string)
    ensures Join("", parts + [w]) == Join("", parts) + w
    decreases |parts|
  {
    if parts == [] {
      assert parts + [w] == [w];
    } else {
      JoinEmptyCons(parts[0], parts[1..] + [w]);
      assert parts + [w] == [parts[0]] + (parts[1..] + [w]);
      JoinEmptySnoc(parts[1..], w);
      JoinEmptyCons(parts[0], parts[1..]);
      assert parts == [parts[0]] + parts[1..];
    }
  }

  /** `"".join(a + b)` is the two joins one after the other. */
  lemma {:induction false} JoinEmptyConcat(a: seq<string>, b: seq<string>)
    ensures Join("", a + b) == Join("", a) + Join("", b)
    decreases |a|
  {
    if a == [] {
      assert a + b == b;
    } else {
      assert a + b == [a[0]] + (a[1..] + b);
      JoinEmptyCons(a[0], a[1..] + b);
      JoinEmptyConcat(a[1..], b);
      JoinEmptyCons(a[0], a[1..]);
      assert a == [a[0]] + a[1..];
    }
  }

  /** Splitting on a character and joining with it again gives the input back. */
  lemma {:induction false} JoinSplitChar(s: string, c: char)
    ensures Join([c], SplitChar(s, c)) == s
    decreases |s|
  {
    match FindChar(s, c)
    case None =>
    case Some(i) =>
      var rest := SplitChar(s[i + 1..], c);
      assert SplitChar(s, c) == [s[..i]] + rest;
      JoinCons([c], s[..i], rest);
      JoinSplitChar(s[i + 1..], c);
      assert s == s[..i] + [c] + s[i + 1..];
  }

  /** `sep.join([w] + rest)` for a non-empty rest. */
  lemma JoinCons(sep: string, w: string, rest: seq<string>)
    requires rest != []
    ensures Join(sep, [w] + rest) == w + sep + Join(sep, rest)
  {
    assert ([w] + rest)[1..] == rest;
  }

  /** `s.split(sep, 1)` when it gives two parts: around the first occurrence of `sep`. */
  function SplitOnce(s: string, sep: string): (r: Option<(string, string)>)
    ensures r.Some? ==> s == r.value.0 + sep + r.value.1
  {
    match Find(s, sep)
    case None => None
    case Some(i) =>
      assert s == s[..i] + sep + s[i + |sep|..];
      Some((s[..i], s[i + |sep|..]))
  }

  /** SplitOnce cuts exactly when the separator occurs, and at its first occurrence. */
  lemma SplitOnceFirst(s: string, sep: string)
    ensures SplitOnce(s, sep).Some? <==> Contains(s, sep)
    ensures SplitOnce(s, sep).Some? ==> forall j :: 0 <= j < |SplitOnce(s, sep).value.0| ==> !OccursAt(s, sep, j)
  {
    FindFirst(s, sep);
  }

  /** Cutting at a separator whose first character does not occur before it. */
  lemma SplitOnceAt(a: string, sep: string, b: string)
    requires sep != [] && forall j :: 0 <= j < |a| ==> a[j] != sep[0]
    ensures SplitOnce(a + sep + b, sep) == Some((a, b))
  {
    var s := a + sep + b;
    assert OccursAt(s, sep, |a|) by { assert s[|a|..|a| + |sep|] == sep; }
    FindFirst(s, sep);
    var i := Find(s, sep).value;
    assert s[i] == sep[0] by { assert s[i..i + |sep|][0] == s[i]; }
    assert i == |a|;
    assert s[..i] == a && s[i + |sep|..] == b;
  }

  /** Cutting at the first place the separator occurs, which is right after the head. */
  lemma SplitOnceAtFirst(a: string, sep: string, b: string)
    requires forall j :: 0 <= j < |a| ==> !OccursAt(a + sep + b, sep, j)
    ensures SplitOnce(a + sep + b, sep) == Some((a, b))
  {
    var s := a + sep + b;
    assert OccursAt(s, sep, |a|) by { assert s[|a|..|a| + |sep|] == sep; }
    FindFirst(s, sep);
    var i := Find(s, sep).value;
    assert i == |a|;
    assert s[..i] == a && s[i + |sep|..] == b;
  }

  /** `s.split()`: the maximal runs of non-whitespace characters. */
  function SplitWhitespace(s: string): seq<string>
    decreases |s|
  {
    var t := LStrip(s);
    if t == [] then []
    else
      var i := WordEnd(t, 0);
      [t[..i]] + SplitWhitespace(t[i..])
  }

  /** First whitespace position at or after k, or the length. */
  function WordEnd(s: string, k: nat): (i: nat)
    requires k <= |s|
    ensures k <= i <= |s| && (i < |s| ==> IsSpace(s[i]))
    ensures forall j :: k <= j < i ==> !IsSpace(s[j])
    decreases |s| - k
  {
    if k == |s| || IsSpace(s[k]) then k else WordEnd(s, k + 1)
  }

  /** Leading whitespace is skipped, a word is cut at the whitespace that follows it. */
  lemma SplitWhitespaceCons(sp: string, w: string, rest: string)
    requires forall i :: 0 <= i < |sp| ==> IsSpace(sp[i])
    requires w != [] && forall i :: 0 <= i < |w| ==> !IsSpace(w[i])
    requires rest == [] || IsSpace(rest[0])
    ensures SplitWhitespace(sp + w + rest) == [w] + SplitWhitespace(rest)
  {
    var t := w + rest;
    assert sp + w + rest == sp + t;
    LStripSpaces(sp, t);
    WordEndAfterWord(w, rest);
    assert t[..|w|] == w && t[|w|..] == rest;
  }

  lemma LStripSpaces(sp: string, t: string)
    requires forall i :: 0 <= i < |sp| ==> IsSpace(sp[i])
    requires t == [] || !IsSpace(t[0])
    ensures LStrip(sp + t) == t
  {
    var s := sp + t;
    assert forall k :: 0 <= k < |sp| ==> s[k] == sp[k];
    assert |sp| < |s| ==> s[|sp|] == t[0];
    SkipSpacesTo(s, 0, |sp|);
    assert s[|sp|..] == t;
  }

  lemma WordEndAfterWord(w: string, rest: string)
    requires forall i :: 0 <= i < |w| ==> !IsSpace(w[i])
    requires rest == [] || IsSpace(rest[0])
    ensures WordEnd(w + rest, 0) == |w|
  {
    var t := w + rest;
    assert forall j :: 0 <= j < |w| ==> !IsSpace(t[j]);
    assert rest != [] ==> IsSpace(t[|w|]);
  }

  /** `str.splitlines()`: "\r\n" is one break, and a final break adds no empty line. */
  function SplitLines(s: string): (lines: seq<string>)
    ensures forall l :: l in lines ==> forall i :: 0 <= i < |l| ==> !IsLineBreak(l[i])
    decreases |s|
  {
    if s == [] then []
    else
      var i := LineEnd(s, 0);
      if i == |s| then [s]
      else
        var skip := if s[i] == '\r' && i + 1 < |s| && s[i + 1] == '\n' then 2 else 1;
        [s[..i]] + SplitLines(s[i + skip..])
  }

  function LineEnd(s: string, k: nat): (i: nat)
    requires k <= |s|
    ensures k <= i <= |s| && (i < |s| ==> IsLineBreak(s[i]))
    ensures forall j :: k <= j < i ==> !IsLineBreak(s[j])
    decreases |s| - k
  {
    if k == |s| || IsLineBreak(s[k]) then k else LineEnd(s, k + 1)
  }

  /** With '\n' as the only break and no break at the end, `splitlines` is `split("\n")`. */
  lemma {:induction false} SplitLinesIsSplitNewline(s: string)
    requires s != [] && s[|s| - 1] != '\n'
    requires forall i :: 0 <= i < |s| && IsLineBreak(s[i]) ==> s[i] == '\n'
    ensures SplitLines(s) == SplitChar(s, '\n')
    decreases |s|
  {
    var i := LineEnd(s, 0);
    if i == |s| {
      assert '\n' !in s by {
        forall j | 0 <= j < |s| ensures s[j] != '\n' {
          assert !IsLineBreak(s[j]);
        }
      }
    } else {
      assert s[i] == '\n';
      FindCharIs(s, '\n', i);
      SplitLinesAt(s, i);
      SplitCharAt(s, '\n', i);
      var rest := s[i + 1..];
      assert rest != [] && rest[|rest| - 1] == s[|s| - 1];
      forall j | 0 <= j < |rest| && IsLineBreak(rest[j]) ensures rest[j] == '\n' {
        assert rest[j] == s[i + 1 + j];
      }
      SplitLinesIsSplitNewline(rest);
    }
  }

  /** A `\n` first break at i: the first line, then the lines after it. */
  lemma SplitLinesAt(s: string, i: nat)
    requires s != [] && i == LineEnd(s, 0) && i < |s| && s[i] == '\n'
    ensures SplitLines(s) == [s[..i]] + SplitLines(s[i + 1..])
  {
  }

  /** A first c at i: the part before it, then the parts after it. */
  lemma SplitCharAt(s: string, c: char, i: nat)
    requires FindChar(s, c) == Some(i)
    ensures i < |s| && SplitChar(s, c) == [s[..i]] + SplitChar(s[i + 1..], c)
  {
  }

  /** The first occurrence of c is at i when c is at i and nowhere before. */
  lemma FindCharIs(s: string, c: char, i: nat)
    requires i < |s| && s[i] == c && forall j :: 0 <= j < i ==> s[j] != c
    ensures FindChar(s, c) == Some(i)
  {
    assert c in s;
  }

  // ---------------------------------------------------------------- replace

  /** `s.replace(pat, rep)` for a non-empty pattern: left to right, non-overlapping. */
  function ReplaceAll(s: string, pat: string, rep: string): (r: string)
    requires pat != []
    ensures rep == [] ==> |r| <= |s|
    decreases |s|
  {
    if |s| < |pat| then s
    else if s[..|pat|] == pat then rep + ReplaceAll(s[|pat|..], pat, rep)
    else [s[0]] + ReplaceAll(s[1..], pat, rep)
  }

  /** Removing a one-character pattern leaves no occurrence of it. */
  lemma {:induction false} RemoveCharGone(s: string, c: char)
    ensures c !in ReplaceAll(s, [c], "")
    decreases |s|
  {
    if |s| >= 1 {
      RemoveCharGone(s[1..], c);
    }
  }

  // ---------------------------------------------------------------- case

  function LowerChar(c: char): char { if 'A' <= c <= 'Z' then (c as int + 32) as char else c }
  function UpperChar(c: char): char { if 'a' <= c <= 'z' then (c as int - 32) as char else c }

  /** `str.lower()` on ASCII letters. */
  function Lower(s: string): (r: string)
    ensures |r| == |s|
  {
    seq(|s|, i requires 0 <= i < |s| => LowerChar(s[i]))
  }

  /** `str.upper()` on ASCII letters. */
  function Upper(s: string): (r: string)
    ensures |r| == |s|
  {
    seq(|s|, i requires 0 <= i < |s| => UpperChar(s[i]))
  }

  /** Text without lower-case ASCII letters is its own upper case. */
  lemma UpperUnchanged(s: string)
    requires forall i :: 0 <= i < |s| ==> !('a' <= s[i] <= 'z')
    ensures Upper(s) == s
  {
  }

  /** `str.isupper()`: some cased character and no lower-case one. */
  predicate IsUpper(s: string) {
    (exists i :: 0 <= i < |s| && 'A' <= s[i] <= 'Z') && forall i :: 0 <= i < |s| ==> !('a' <= s[i] <= 'z')
  }

  // ---------------------------------------------------------------- numbers

  function DigitValue(c: char): nat requires IsDigit(c) { c as int - '0' as int }

  /** The value of a string of decimal digits, most significant first. */
  function DigitsValue(s: string): nat
    requires AllDigits(s)
  {
    if s == [] then 0 else DigitsValue(s[..|s| - 1]) * 10 + DigitValue(s[|s| - 1])
  }

  /**
   * `int(s)` on decimal text: surrounding whitespace is allowed, the rest
   * must be an optional `+` or `-` and then one or more ASCII digits;
   * anything else is `ValueError`.
   */
  function ParseInt(s: string): (r: Option<int>)
    ensures r.Some? ==> s != []
    decreases |s|
  {
    if s != [] && IsSpace(s[0]) then ParseInt(s[1..])
    else if s != [] && IsSpace(s[|s| - 1]) then ParseInt(s[..|s| - 1])
    else ParseSigned(s)
  }

  /** An optional sign followed by one or more digits, with nothing around them. */
  function ParseSigned(t: string): (r: Option<int>)
    ensures r.Some? ==> t != []
    ensures t != [] && AllDigits(t) ==> r == Some(DigitsValue(t))
    ensures r.Some? && r.value < 0 ==> t[0] == '-'
  {
    if t != [] && (t[0] == '+' || t[0] == '-') then
      var d := t[1..];
      if d != [] && AllDigits(d) then Some(if t[0] == '-' then -(DigitsValue(d) as int) else DigitsValue(d)) else None
    else if t != [] && AllDigits(t) then Some(DigitsValue(t))
    else None
  }

  /** Whitespace is stripped from both ends first; what is left is a signed number or an error. */
  lemma {:induction false} ParseIntIsStripThenSigned(s: string)
    ensures ParseInt(s) == ParseSigned(Strip(s))
    decreases |s|
  {
    if s != [] && IsSpace(s[0]) {
      StripDropFirst(s);
      ParseIntIsStripThenSigned(s[1..]);
    } else if s != [] && IsSpace(s[|s| - 1]) {
      StripDropLast(s);
      ParseIntIsStripThenSigned(s[..|s| - 1]);
    } else if s != [] {
      StripNoSpaceEnds(s);
    }
  }

  /** Whitespace in front of a number is skipped: it parses as the number alone. */
  lemma {:induction false} ParseIntAfterSpaces(sp: string, d: string)
    requires forall i :: 0 <= i < |sp| ==> IsSpace(sp[i])
    requires IntText(d)
    ensures ParseInt(sp + d) == ParseInt(d)
    decreases |sp|
  {
    if sp != [] {
      assert (sp + d)[1..] == sp[1..] + d;
      ParseIntAfterSpaces(sp[1..], d);
    } else {
      assert sp + d == d;
    }
  }

  /** What `str()` and `format()` write for an integer: digits, after a `-` for a negative one. */
  predicate IntText(s: string) {
    && s != [] && IsDigit(s[|s| - 1])
    && (IsDigit(s[0]) || s[0] == '-')
    && forall i :: 0 < i < |s| ==> IsDigit(s[i])
  }

  /** Text that is all digits parses to its value. */
  lemma ParseIntOfDigits(s: string)
    requires s != [] && AllDigits(s)
    ensures ParseInt(s) == Some(DigitsValue(s))
  {
  }

  /** A minus sign followed by digits parses to the negated value. */
  lemma ParseIntOfNegated(d: string)
    requires d != [] && AllDigits(d)
    ensures ParseInt("-" + d) == Some(-(DigitsValue(d) as int))
  {
    var t := "-" + d;
    assert t[1..] == d;
    assert t[|t| - 1] == d[|d| - 1];
  }

  function DigitChar(d: nat): (c: char) requires d < 10 ensures IsDigit(c) && DigitValue(c) == d {
    ('0' as int + d) as char
  }

  /** `str(n)` for a natural number. */
  function NatToString(n: nat): (s: string)
    ensures s != [] && AllDigits(s)
    ensures DigitsValue(s) == n
    decreases n
  {
    if n < 10 then [DigitChar(n)]
    else
      var s := NatToString(n / 10) + [DigitChar(n % 10)];
      assert s[..|s| - 1] == NatToString(n / 10);
      s
  }

  /** `str(i)` for any integer. */
  function IntToString(i: int): string {
    if i < 0 then "-" + NatToString(-i) else NatToString(i)
  }

  /** A plus sign followed by digits parses to their value. */
  lemma ParseIntOfPlus(d: string)
    requires d != [] && AllDigits(d)
    ensures ParseInt("+" + d) == Some(DigitsValue(d))
  {
    var t := "+" + d;
    assert t[1..] == d;
    assert t[|t| - 1] == d[|d| - 1];
  }

  /** `int(str(i)) == i`, the sign included. */
  lemma ParseIntOfIntToString(i: int)
    ensures ParseInt(IntToString(i)) == Some(i)
  {
    if i < 0 {
      ParseIntOfNegated(NatToString(-i));
    } else {
      ParseIntOfDigits(NatToString(i));
    }
  }

  function Zeros(k: nat): (s: string) ensures |s| == k && AllDigits(s) && DigitsValue(s) == 0 {
    if k == 0 then "" else
      var s := Zeros(k - 1) + "0";
      assert s[..|s| - 1] == Zeros(k - 1);
      s
  }

  /** Leading zeros leave the value of a digit string unchanged. */
  lemma {:induction false} LeadingZeros(k: nat, s: string)
    requires AllDigits(s)
    ensures AllDigits(Zeros(k) + s) && DigitsValue(Zeros(k) + s) == DigitsValue(s)
    decreases |s|
  {
    if s != [] {
      var z := Zeros(k) + s;
      assert z[..|z| - 1] == Zeros(k) + s[..|s| - 1];
      LeadingZeros(k, s[..|s| - 1]);
    } else {
      assert Zeros(k) + s == Zeros(k);
    }
  }

  /** `s` left-padded with '0' to at least `w` characters. */
  function PadZeros(s: string, w: nat): (r: string)
    ensures |r| == if |s| >= w then |s| else w
  {
    if |s| >= w then s else Zeros(w - |s|) + s
  }

  /** `format(n, "0" + str(w))`: zero-padded to width w, the sign counting towards it. */
  function ZeroPad(n: int, w: nat): string {
    if n < 0 then "-" + PadZeros(NatToString(-n), if w > 0 then w - 1 else 0)
    else PadZeros(NatToString(n), w)
  }

  /** Reading a zero-padded natural number back gives the number. */
  lemma ParseZeroPad(n: nat, w: nat)
    ensures var s := ZeroPad(n, w); s != [] && AllDigits(s) && DigitsValue(s) == n
  {
    var t := NatToString(n);
    if |t| < w { LeadingZeros(w - |t|, t); }
  }

  /** Reading a zero-padded number back, the sign included, gives the number. */
  lemma ParseIntZeroPad(n: int, w: nat)
    ensures ParseInt(ZeroPad(n, w)) == Some(n)
  {
    if n < 0 {
      ParseIntZeroPadNegative(-n, if w > 0 then w - 1 else 0, n, w);
    } else {
      ParseZeroPad(n, w);
      ParseIntOfDigits(ZeroPad(n, w));
    }
  }

  lemma ParseIntZeroPadNegative(m: nat, w': nat, n: int, w: nat)
    requires n < 0 && m == -n && w' == (if w > 0 then w - 1 else 0)
    ensures ParseInt(ZeroPad(n, w)) == Some(n)
  {
    var d := ZeroPad(m, w');
    calc {
      ParseInt(ZeroPad(n, w));
      { assert ZeroPad(n, w) == "-" + d; }
      ParseInt("-" + d);
      { ParseZeroPad(m, w'); ParseIntOfNegated(d); }
      Some(-(DigitsValue(d) as int));
      { ParseZeroPad(m, w'); }
      Some(n);
    }
  }

  /** A zero-padded number is integer text that reads back as the number; it starts with '-' exactly when negative. */
  lemma ZeroPadIntText(n: int, w: nat)
    ensures var s := ZeroPad(n, w); IntText(s) && ParseInt(s) == Some(n) && (s[0] == '-' <==> n < 0)
  {
    ParseIntZeroPad(n, w);
    ZeroPadIsIntText(n, w);
  }

  /** A zero-padded number is integer text; it starts with '-' exactly when negative. */
  lemma ZeroPadIsIntText(n: int, w: nat)
    ensures var s := ZeroPad(n, w); IntText(s) && (s[0] == '-' <==> n < 0)
  {
    if n < 0 {
      var d := ZeroPad(-n, if w > 0 then w - 1 else 0);
      ParseZeroPad(-n, if w > 0 then w - 1 else 0);
      assert ZeroPad(n, w) == "-" + d;
      NegatedIntText(d);
    } else {
      ParseZeroPad(n, w);
    }
  }

  /** A minus sign followed by digits is integer text starting with '-'. */
  lemma NegatedIntText(d: string)
    requires d != [] && AllDigits(d)
    ensures IntText("-" + d) && ("-" + d)[0] == '-'
  {
    var s := "-" + d;
    assert forall i :: 0 < i < |s| ==> s[i] == d[i - 1];
  }

  // ---------------------------------------------------------------- hexadecimal

  predicate IsHexDigit(c: char) { IsDigit(c) || 'a' <= c <= 'f' || 'A' <= c <= 'F' }

  function HexDigitValue(c: char): (v: nat)
    requires IsHexDigit(c)
    ensures v < 16
  {
    if IsDigit(c) then DigitValue(c) else if 'a' <= c <= 'f' then c as int - 'a' as int + 10 else c as int - 'A' as int + 10
  }

  /** `int(s, 16)` for a slice of at most two characters: one or two hex digits. */
  function ParseHexByte(s: string): (r: Option<nat>)
    ensures r.Some? ==> r.value < 256
  {
    if |s| == 1 && IsHexDigit(s[0]) then Some(HexDigitValue(s[0]))
    else if |s| == 2 && IsHexDigit(s[0]) && IsHexDigit(s[1]) then Some(HexDigitValue(s[0]) * 16 + HexDigitValue(s[1]))
    else None
  }

  function HexDigitChar(d: nat): (c: char)
    requires d < 16
    ensures IsHexDigit(c) && HexDigitValue(c) == d && !('A' <= c <= 'Z')
  {
    if d < 10 then DigitChar(d) else ('a' as int + d - 10) as char
  }

  /** `format(b, "02x")` for a byte: two lower-case hex digits. */
  function Hex2(b: nat): (s: string)
    requires b < 256
    ensures |s| == 2 && ParseHexByte(s) == Some(b)
  {
    [HexDigitChar(b / 16), HexDigitChar(b % 16)]
  }
}
