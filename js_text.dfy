/**
 * The JavaScript string built-ins that the enrichment script relies on:
 * `String.prototype.trim`, `String.prototype.split` with a one-character
 * separator, and `Array.prototype.join`.
 */
module JsText {
  import opened Wrappers

  /** The whitespace removed by `trim`, restricted to ASCII: space, tab, LF, VT, FF and CR. */
  predicate IsWhitespace(c: char) {
    c == ' ' || c == '\t' || c == '\n' || c == '\U{000B}' || c == '\U{000C}' || c == '\r'
  }

  /**
   * An ASCII decimal digit: the class `\d` of a regular expression without
   * the `u` flag, and the digits `${n}` writes for a number.
   */
  predicate IsDigit(c: char) {
    '0' <= c <= '9'
  }

  predicate AllWhitespace(s: string) {
    forall k :: 0 <= k < |s| ==> IsWhitespace(s[k])
  }

  /** No whitespace at either end of `s`: what `trim` leaves untouched. */
  predicate IsTrimmed(s: string) {
    s == [] || (!IsWhitespace(s[0]) && !IsWhitespace(s[|s| - 1]))
  }

  /** The end of `s[..j]` once its trailing whitespace is dropped. */
  function ContentEnd(s: string, j: nat): (e: nat)
    requires j <= |s|
    ensures e <= j
    ensures forall k :: e <= k < j ==> IsWhitespace(s[k])
    ensures e == 0 || !IsWhitespace(s[e - 1])
    decreases j
  {
    if j > 0 && IsWhitespace(s[j - 1]) then ContentEnd(s, j - 1) else j
  }

  /** The start of `s[i..e]` once its leading whitespace is dropped. */
  function ContentStart(s: string, i: nat, e: nat): (b: nat)
    requires i <= e <= |s|
    ensures i <= b <= e
    ensures forall k :: i <= k < b ==> IsWhitespace(s[k])
    ensures b == e || !IsWhitespace(s[b])
    decreases e - i
  {
    if i < e && IsWhitespace(s[i]) then ContentStart(s, i + 1, e) else i
  }

  /** `s.trim()`: `s` without its leading and trailing whitespace. */
  function Trim(s: string): (r: string)
    ensures IsTrimmed(r)
    ensures r == [] <==> AllWhitespace(s)
  {
    var e := ContentEnd(s, |s|);
    var b := ContentStart(s, 0, e);
    assert b < e ==> s[b..e][|s[b..e]| - 1] == s[e - 1];
    s[b..e]
  }

  /** The trailing whitespace of `s` dropped (`trimEnd`). */
  function TrimEnd(s: string): (r: string)
  {
    s[..ContentEnd(s, |s|)]
  }

  /**
   * `trim` returns the part of its argument between an all-whitespace prefix
   * and an all-whitespace suffix.
   */
  lemma TrimSpec(s: string)
    ensures exists i, j :: 0 <= i <= j <= |s| && Trim(s) == s[i..j] && AllWhitespace(s[..i]) && AllWhitespace(s[j..])
  {
    var e := ContentEnd(s, |s|);
    var b := ContentStart(s, 0, e);
    assert AllWhitespace(s[..b]);
    assert AllWhitespace(s[e..]);
  }

  lemma ContentEndExact(s: string, j: nat, n: nat)
    requires n <= j <= |s|
    requires forall k :: n <= k < j ==> IsWhitespace(s[k])
    requires n == 0 || !IsWhitespace(s[n - 1])
    ensures ContentEnd(s, j) == n
  {
  }

  lemma ContentStartExact(s: string, i: nat, e: nat, n: nat)
    requires i <= n <= e <= |s|
    requires forall k :: i <= k < n ==> IsWhitespace(s[k])
    requires n == e || !IsWhitespace(s[n])
    ensures ContentStart(s, i, e) == n
  {
  }

  /** Whitespace on both sides of a string is removed by `trim` and nothing else changes. */
  lemma TrimSurrounded(w: string, x: string, w': string)
    requires AllWhitespace(w) && AllWhitespace(w')
    requires IsTrimmed(x)
    ensures Trim(w + x + w') == x
  {
    var s := w + x + w';
    if x == [] {
      assert AllWhitespace(s);
    } else {
      ContentEndExact(s, |s|, |w| + |x|);
      ContentStartExact(s, 0, |w| + |x|, |w|);
      assert s[|w|..|w| + |x|] == x;
    }
  }

  /**
   * Trimming a line made of indentation, a part `a` with no whitespace at its
   * ends, and a tail `f` leaves `a` followed by `f` without its trailing whitespace.
   */
  lemma TrimAroundPart(w: string, a: string, f: string)
    requires AllWhitespace(w)
    requires a != [] && IsTrimmed(a)
    ensures Trim(w + a + f) == a + TrimEnd(f)
  {
    assert w + a + f == w + (a + f);
    TrimAfterWhitespace(w, a + f);
    TrimOfNoLeading(a + f);
    TrimEndAppend(a, f);
  }

  /** Without leading whitespace, `trim` only drops the trailing whitespace. */
  lemma TrimOfNoLeading(x: string)
    requires x != [] && !IsWhitespace(x[0])
    ensures Trim(x) == TrimEnd(x)
  {
    ContentStartExact(x, 0, ContentEnd(x, |x|), 0);
  }

  /** Trailing whitespace after a non-whitespace character lies entirely in the tail. */
  lemma TrimEndAppend(a: string, f: string)
    requires a != [] && !IsWhitespace(a[|a| - 1])
    ensures TrimEnd(a + f) == a + TrimEnd(f)
  {
    var s := a + f;
    var m := ContentEnd(f, |f|);
    assert forall k :: |a| <= k < |s| ==> s[k] == f[k - |a|];
    assert s[|a| + m - 1] == if m == 0 then a[|a| - 1] else f[m - 1];
    ContentEndExact(s, |s|, |a| + m);
    assert s[..|a| + m] == a + f[..m];
  }

  /** Dropping trailing whitespace first does not change what `trim` returns. */
  lemma TrimAfterTrimEnd(f: string)
    ensures Trim(TrimEnd(f)) == Trim(f)
  {
    var m := ContentEnd(f, |f|);
    var t := f[..m];
    ContentEndExact(t, |t|, m);
    var b := ContentStart(f, 0, m);
    ContentStartExact(t, 0, m, b);
  }

  /** A string with no whitespace at its ends is its own `trim`. */
  lemma TrimOfTrimmed(s: string)
    requires IsTrimmed(s)
    ensures Trim(s) == s
  {
    TrimSurrounded([], s, []);
    assert [] + s + [] == s;
  }

  /** A string is its three slices at `i` and `j` put back together. */
  lemma SliceThree(v: string, i: nat, j: nat)
    requires i <= j <= |v|
    ensures v == v[..i] + v[i..j] + v[j..]
  {
  }

  /** Concatenating a prefix in front of three pieces. */
  lemma AppendAssoc(w: string, a: string, b: string, c: string)
    ensures w + (a + b + c) == (w + a) + b + c
  {
  }

  /** Leading whitespace does not change what `trim` returns. */
  lemma TrimAfterWhitespace(w: string, v: string)
    requires AllWhitespace(w)
    ensures Trim(w + v) == Trim(v)
  {
    TrimSpec(v);
    var i, j :| 0 <= i <= j <= |v| && Trim(v) == v[i..j] && AllWhitespace(v[..i]) && AllWhitespace(v[j..]);
    var lead := w + v[..i];
    SliceThree(v, i, j);
    AppendAssoc(w, v[..i], v[i..j], v[j..]);
    assert AllWhitespace(lead) by {
      assert forall k :: |w| <= k < |lead| ==> lead[k] == v[..i][k - |w|];
    }
    TrimSurrounded(lead, v[i..j], v[j..]);
  }

  /** The index of the first occurrence of `c` in `s`, like `indexOf` (with `None` for -1). */
  function IndexOf(s: string, c: char): (r: Option<nat>)
    ensures r.Some? ==> r.value < |s|
  {
    if |s| == 0 then None
    else if s[0] == c then Some(0)
    else match IndexOf(s[1..], c)
      case None => None
      case Some(k) => Some(k + 1)
  }

  /** `IndexOf` finds `c` exactly when it occurs, and then its first occurrence. */
  lemma {:induction false} IndexOfSpec(s: string, c: char)
    ensures IndexOf(s, c).None? <==> c !in s
    ensures IndexOf(s, c).Some? ==> s[IndexOf(s, c).value] == c && c !in s[..IndexOf(s, c).value]
  {
    if |s| > 0 && s[0] != c {
      IndexOfSpec(s[1..], c);
      assert s == [s[0]] + s[1..];
      if IndexOf(s[1..], c).Some? {
        var k := IndexOf(s[1..], c).value;
        assert s[..k + 1] == [s[0]] + s[1..][..k];
      }
    }
  }

  /** `parts.join(sep)`: the parts with one separator between neighbours. */
  function Join(parts: seq<string>, sep: char): string
  {
    if |parts| == 0 then ""
    else if |parts| == 1 then parts[0]
    else parts[0] + [sep] + Join(parts[1..], sep)
  }

  /** A join ends with the last character of its last part, when that part is not empty. */
  lemma {:induction false} JoinEndsWithLast(parts: seq<string>, sep: char)
    requires |parts| >= 1 && parts[|parts| - 1] != []
    ensures var j, last := Join(parts, sep), parts[|parts| - 1]; j != [] && j[|j| - 1] == last[|last| - 1]
  {
    if |parts| > 1 {
      JoinEndsWithLast(parts[1..], sep);
    }
  }

  /** `s.split(sep)` with a one-character separator. */
  function Split(s: string, sep: char): (parts: seq<string>)
    ensures |parts| >= 1
    decreases |s|
  {
    match IndexOf(s, sep)
    case None => [s]
    case Some(k) => [s[..k]] + Split(s[k + 1..], sep)
  }

  /**
   * `split` cuts `s` into separator-free pieces that `join` puts back
   * together: the pieces are the maximal separator-free parts of `s`, in order,
   * with empty pieces at the ends and between adjacent separators.
   */
  lemma {:induction false} SplitJoin(s: string, sep: char)
    ensures Join(Split(s, sep), sep) == s
    ensures forall p :: p in Split(s, sep) ==> sep !in p
    decreases |s|
  {
    IndexOfSpec(s, sep);
    match IndexOf(s, sep)
    case None =>
    case Some(k) =>
      var rest := Split(s[k + 1..], sep);
      SplitJoin(s[k + 1..], sep);
      assert ([s[..k]] + rest)[1..] == rest;
      assert s == s[..k] + [sep] + s[k + 1..];
  }

  /** A string without the separator splits into itself alone. */
  lemma SplitWithoutSeparator(s: string, sep: char)
    requires sep !in s
    ensures Split(s, sep) == [s]
  {
    IndexOfSpec(s, sep);
  }

  /** The first occurrence is the one with no occurrence before it. */
  lemma IndexOfAt(s: string, c: char, k: nat)
    requires k < |s| && s[k] == c && c !in s[..k]
    ensures IndexOf(s, c) == Some(k)
  {
    IndexOfSpec(s, c);
  }

  /** Splitting stops at the first separator: the piece before it is the first part. */
  lemma SplitAtFirst(head: string, sep: char, tail: string)
    requires sep !in head
    ensures Split(head + [sep] + tail, sep) == [head] + Split(tail, sep)
  {
    var s := head + [sep] + tail;
    assert s[..|head|] == head;
    IndexOfAt(s, sep, |head|);
    assert s[|head| + 1..] == tail;
  }

  /** `split` undoes `join` when no part contains the separator. */
  lemma {:induction false} SplitOfJoin(parts: seq<string>, sep: char)
    requires |parts| >= 1
    requires forall p :: p in parts ==> sep !in p
    ensures Split(Join(parts, sep), sep) == parts
  {
    if |parts| == 1 {
      SplitWithoutSeparator(parts[0], sep);
    } else {
      assert parts[0] in parts;
      assert forall p :: p in parts[1..] ==> p in parts;
      SplitAtFirst(parts[0], sep, Join(parts[1..], sep));
      SplitOfJoin(parts[1..], sep);
      assert parts == [parts[0]] + parts[1..];
    }
  }

  /** `xs.filter(keep)`: the elements that `keep` accepts, in their order. */
  function Filter<T>(xs: seq<T>, keep: T -> bool): (r: seq<T>)
    ensures |r| <= |xs|
    ensures forall k :: 0 <= k < |r| ==> r[k] in xs && keep(r[k])
  {
    if |xs| == 0 then []
    else (if keep(xs[0]) then [xs[0]] else []) + Filter(xs[1..], keep)
  }

  /** Every position moved one place on. */
  function Shifted(idx: seq<nat>): (r: seq<nat>)
    ensures |r| == |idx| && forall m :: 0 <= m < |idx| ==> r[m] == idx[m] + 1
  {
    seq(|idx|, m requires 0 <= m < |idx| => idx[m] + 1)
  }

  /** The positions of the elements that `keep` accepts, in increasing order. */
  ghost function Kept<T>(xs: seq<T>, keep: T -> bool): (idx: seq<nat>)
    ensures forall m :: 0 <= m < |idx| ==> idx[m] < |xs| && keep(xs[idx[m]])
  {
    if |xs| == 0 then []
    else (if keep(xs[0]) then [0] else []) + Shifted(Kept(xs[1..], keep))
  }

  /**
   * The `m`-th element that `filter` keeps is the element at the `m`-th
   * accepted position.
   */
  lemma {:induction false} KeptPicks<T>(xs: seq<T>, keep: T -> bool)
    ensures |Kept(xs, keep)| == |Filter(xs, keep)|
    ensures forall m :: 0 <= m < |Filter(xs, keep)| ==> Filter(xs, keep)[m] == xs[Kept(xs, keep)[m]]
  {
    if |xs| > 0 {
      KeptPicks(xs[1..], keep);
      var rest, f := Kept(xs[1..], keep), Filter(xs[1..], keep);
      var h := if keep(xs[0]) then 1 else 0;
      assert Filter(xs, keep) == (if keep(xs[0]) then [xs[0]] else []) + f;
      assert Kept(xs, keep) == (if keep(xs[0]) then [0] else []) + Shifted(rest);
      forall m | h <= m < |Filter(xs, keep)| ensures Filter(xs, keep)[m] == xs[Kept(xs, keep)[m]] {
        assert Filter(xs, keep)[m] == f[m - h];
        assert Kept(xs, keep)[m] == rest[m - h] + 1;
        assert f[m - h] == xs[1..][rest[m - h]];
      }
    }
  }

  /** The accepted positions are listed in increasing order: `filter` keeps the order. */
  lemma {:induction false} KeptIncreasing<T>(xs: seq<T>, keep: T -> bool)
    ensures forall m, m' :: 0 <= m < m' < |Kept(xs, keep)| ==> Kept(xs, keep)[m] < Kept(xs, keep)[m']
  {
    if |xs| > 0 {
      KeptIncreasing(xs[1..], keep);
    }
  }

  /** Every accepted position is listed: `filter` drops no accepted element. */
  lemma {:induction false} KeptComplete<T>(xs: seq<T>, keep: T -> bool)
    ensures forall k :: 0 <= k < |xs| && keep(xs[k]) ==> k in Kept(xs, keep)
  {
    if |xs| > 0 {
      KeptComplete(xs[1..], keep);
      var rest := Kept(xs[1..], keep);
      forall k | 1 <= k < |xs| && keep(xs[k]) ensures k in Kept(xs, keep) {
        assert xs[1..][k - 1] == xs[k];
        var r :| 0 <= r < |rest| && rest[r] == k - 1;
        KeptTail(xs, keep, r);
      }
    }
  }

  /** The positions kept in the tail reappear one place on, after the head's if it is kept. */
  lemma KeptTail<T>(xs: seq<T>, keep: T -> bool, r: nat)
    requires |xs| > 0 && r < |Kept(xs[1..], keep)|
    ensures var h := if keep(xs[0]) then 1 else 0;
      r + h < |Kept(xs, keep)| && Kept(xs, keep)[r + h] == Kept(xs[1..], keep)[r] + 1
  {
    assert Kept(xs, keep) == (if keep(xs[0]) then [0] else []) + Shifted(Kept(xs[1..], keep));
  }

  /** When `keep` accepts every element, `filter` returns its argument. */
  lemma {:induction false} FilterKeepsAll<T>(xs: seq<T>, keep: T -> bool)
    requires forall k :: 0 <= k < |xs| ==> keep(xs[k])
    ensures Filter(xs, keep) == xs
  {
    if |xs| > 0 {
      FilterKeepsAll(xs[1..], keep);
      assert xs == [xs[0]] + xs[1..];
    }
  }

  /**
   * A `for...of` loop that produces one result for every element on which
   * `f` gives one, in the order of the elements.
   */
  function FilterMap<T, U>(xs: seq<T>, f: T -> Option<U>): (r: seq<U>)
    ensures |r| <= |xs|
  {
    if |xs| == 0 then []
    else (match f(xs[0]) case None => [] case Some(y) => [y]) + FilterMap(xs[1..], f)
  }

  /** The elements on which `f` gives a result. */
  function Defined<T, U>(f: T -> Option<U>): T -> bool
  {
    x => f(x).Some?
  }

  /**
   * The `m`-th result comes from the element at the `m`-th position on which
   * `f` gives a result.
   */
  lemma {:induction false} FilterMapPicks<T, U>(xs: seq<T>, f: T -> Option<U>)
    ensures |Kept(xs, Defined(f))| == |FilterMap(xs, f)|
    ensures forall m :: 0 <= m < |FilterMap(xs, f)| ==> f(xs[Kept(xs, Defined(f))[m]]) == Some(FilterMap(xs, f)[m])
  {
    if |xs| > 0 {
      FilterMapPicks(xs[1..], f);
      var keep := Defined(f);
      var rest, r := Kept(xs[1..], keep), FilterMap(xs[1..], f);
      var h := if f(xs[0]).Some? then 1 else 0;
      assert keep(xs[0]) == f(xs[0]).Some?;
      assert FilterMap(xs, f) == (match f(xs[0]) case None => [] case Some(y) => [y]) + r;
      assert Kept(xs, keep) == (if keep(xs[0]) then [0] else []) + Shifted(rest);
      forall m | 0 <= m < |FilterMap(xs, f)| ensures f(xs[Kept(xs, keep)[m]]) == Some(FilterMap(xs, f)[m]) {
        if m >= h {
          assert FilterMap(xs, f)[m] == r[m - h];
          assert Kept(xs, keep)[m] == rest[m - h] + 1;
          assert xs[rest[m - h] + 1] == xs[1..][rest[m - h]];
        }
      }
    }
  }

  /** Running the loop over two lists one after the other gives the two results one after the other. */
  lemma {:induction false} FilterMapAppend<T, U>(a: seq<T>, b: seq<T>, f: T -> Option<U>)
    ensures FilterMap(a + b, f) == FilterMap(a, f) + FilterMap(b, f)
  {
    if |a| == 0 {
      assert a + b == b;
    } else {
      var head := match f(a[0]) case None => [] case Some(y) => [y];
      FilterMapAppend(a[1..], b, f);
      TailOfAppend(a, b);
      assert FilterMap(a + b, f) == head + (FilterMap(a[1..], f) + FilterMap(b, f));
      assert FilterMap(a, f) == head + FilterMap(a[1..], f);
      ConcatAssoc(head, FilterMap(a[1..], f), FilterMap(b, f));
    }
  }

  /** The head and tail of a concatenation whose first part is not empty. */
  lemma TailOfAppend<T>(a: seq<T>, b: seq<T>)
    requires |a| > 0
    ensures (a + b)[0] == a[0] && (a + b)[1..] == a[1..] + b
  {
  }

  /** Concatenation is associative. */
  lemma ConcatAssoc<T>(a: seq<T>, b: seq<T>, c: seq<T>)
    ensures a + (b + c) == (a + b) + c
  {
  }
}
