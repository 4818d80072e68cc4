/**
 * The IPv4 search applied to a ticket summary: the JavaScript regular
 * expression `\b\d{1,3}\.\d{1,3}\.\d{1,3}\.\d{1,3}\b` (no flags), of which
 * only the leftmost match is used.
 *
 * Without the `u` flag, `\d` is an ASCII digit and `\b` is a boundary between
 * an ASCII word character (letter, digit, `_`) and anything else or an end of
 * the string. The octets are only checked syntactically: `999.999.999.999`
 * matches.
 */
module IPv4 {
  import opened Wrappers
  import opened JsText

  /** The characters of `\w`. */
  predicate IsWordChar(c: char) {
    IsDigit(c) || 'a' <= c <= 'z' || 'A' <= c <= 'Z' || c == '_'
  }

  /** `s[i..j]` is what `\d{1,3}` matches: one to three digits. */
  predicate IsOctetAt(s: string, i: nat, j: nat) {
    i < j <= i + 3 && j <= |s| && forall q :: i <= q < j ==> IsDigit(s[q])
  }

  /**
   * `s[i..j]` is `n` groups `\d{1,3}` separated by `\.`, read one group at a
   * time; with `n == 4` it is the body of the pattern between its two `\b`.
   */
  predicate IsDottedGroupsAt(s: string, i: nat, j: nat, n: nat)
    requires n >= 1
    decreases n
  {
    if n == 1 then IsOctetAt(s, i, j)
    else j <= |s| && exists k :: i < k < j && IsOctetAt(s, i, k) && s[k] == '.' && IsDottedGroupsAt(s, k + 1, j, n - 1)
  }

  /**
   * `\b` in front of a digit: the start of the string or a non-word character
   * before it.
   */
  predicate BoundaryBefore(s: string, i: nat)
    requires i <= |s|
  {
    i == 0 || !IsWordChar(s[i - 1])
  }

  /** `\b` after a digit: the end of the string or a non-word character after it. */
  predicate BoundaryAfter(s: string, j: nat)
    requires j <= |s|
  {
    j == |s| || !IsWordChar(s[j])
  }

  /** The pattern matches `s[i..j]`. */
  predicate MatchAt(s: string, i: nat, j: nat) {
    i <= j <= |s| && BoundaryBefore(s, i) && IsDottedGroupsAt(s, i, j, 4) && BoundaryAfter(s, j)
  }

  /** No match of the pattern starts at `i`. */
  ghost predicate NoMatchStartsAt(s: string, i: nat) {
    forall j: nat :: !MatchAt(s, i, j)
  }

  /** `s[i..j]` is the match `String.prototype.match` reports: no match starts earlier. */
  ghost predicate IsFirstMatch(s: string, i: nat, j: nat) {
    MatchAt(s, i, j) && forall i': nat, j': nat :: MatchAt(s, i', j') ==> i < i' || (i == i' && j == j')
  }

  /** The length of the run of digits that starts at `i`. */
  function DigitRun(s: string, i: nat): (n: nat)
    requires i <= |s|
    ensures i + n <= |s|
    ensures forall k :: i <= k < i + n ==> IsDigit(s[k])
    ensures i + n == |s| || !IsDigit(s[i + n])
    decreases |s| - i
  {
    if i < |s| && IsDigit(s[i]) then 1 + DigitRun(s, i + 1) else 0
  }

  /**
   * `\d{1,3}\.` at `i`: the position after the dot. The greedy quantifier may
   * give back digits, but a dot can only follow the whole run of digits, so
   * the run is the only candidate.
   */
  function OctetDot(s: string, i: nat): (r: Option<nat>)
    requires i <= |s|
    ensures r.Some? ==> i + 2 <= r.value <= |s|
  {
    var n := DigitRun(s, i);
    if 1 <= n <= 3 && i + n < |s| && s[i + n] == '.' then Some(i + n + 1) else None
  }

  /**
   * `\d{1,3}\b` at `i`: the end of the match. A boundary after a digit
   * cannot fall inside a run of digits, so again the whole run is the only
   * candidate.
   */
  function OctetEnd(s: string, i: nat): (r: Option<nat>)
    requires i <= |s|
    ensures r.Some? ==> i + 1 <= r.value <= |s|
  {
    var n := DigitRun(s, i);
    if 1 <= n <= 3 && BoundaryAfter(s, i + n) then Some(i + n) else None
  }

  /**
   * The end of a match of `n` groups `\d{1,3}` separated by `\.` and followed
   * by `\b`, starting at `i`, as the backtracking engine finds it.
   */
  function DottedEnd(s: string, i: nat, n: nat): (r: Option<nat>)
    requires i <= |s| && n >= 1
    ensures r.Some? ==> i <= r.value <= |s|
    decreases n
  {
    if n == 1 then OctetEnd(s, i)
    else match OctetDot(s, i)
      case None => None
      case Some(p) => DottedEnd(s, p, n - 1)
  }

  lemma DigitRunExact(s: string, i: nat, n: nat)
    requires i + n <= |s| && forall k :: i <= k < i + n ==> IsDigit(s[k])
    requires i + n == |s| || !IsDigit(s[i + n])
    ensures DigitRun(s, i) == n
  {
  }

  /** `OctetDot` steps over one to three digits followed by a dot. */
  lemma OctetDotAt(s: string, i: nat, k: nat)
    requires IsOctetAt(s, i, k) && k < |s| && s[k] == '.'
    ensures OctetDot(s, i) == Some(k + 1)
  {
    DigitRunExact(s, i, k - i);
  }

  /** `OctetEnd` accepts one to three digits that end at a boundary. */
  lemma OctetEndAt(s: string, i: nat, j: nat)
    requires IsOctetAt(s, i, j) && BoundaryAfter(s, j)
    ensures OctetEnd(s, i) == Some(j)
  {
    DigitRunExact(s, i, j - i);
  }

  /** Where the first group of several ends: at the dot before the rest. */
  lemma FirstGroup(s: string, i: nat, j: nat, n: nat) returns (k: nat)
    requires n >= 2 && IsDottedGroupsAt(s, i, j, n)
    ensures i < k < j <= |s| && IsOctetAt(s, i, k) && s[k] == '.' && IsDottedGroupsAt(s, k + 1, j, n - 1)
  {
    k :| i < k < j && IsOctetAt(s, i, k) && s[k] == '.' && IsDottedGroupsAt(s, k + 1, j, n - 1);
  }

  /** After a group and its dot, `DottedEnd` goes on with one group fewer. */
  lemma DottedEndStep(s: string, i: nat, n: nat, p: nat)
    requires i <= |s| && n >= 2 && OctetDot(s, i) == Some(p)
    ensures DottedEnd(s, i, n) == DottedEnd(s, p, n - 1)
  {
  }

  /** Whatever `DottedEnd` finds is `n` dotted octets followed by a boundary. */
  lemma {:induction false} DottedEndSound(s: string, i: nat, n: nat)
    requires i <= |s| && n >= 1 && DottedEnd(s, i, n).Some?
    ensures IsDottedGroupsAt(s, i, DottedEnd(s, i, n).value, n) && BoundaryAfter(s, DottedEnd(s, i, n).value)
    decreases n
  {
    if n > 1 {
      var p := OctetDot(s, i).value;
      var j := DottedEnd(s, p, n - 1).value;
      DottedEndSound(s, p, n - 1);
      assert i < p - 1 < j && IsOctetAt(s, i, p - 1) && s[p - 1] == '.' && IsDottedGroupsAt(s, p, j, n - 1);
    }
  }

  /**
   * `n` dotted octets followed by a boundary are what `DottedEnd` finds:
   * from a given start the pattern can match in one way only.
   */
  lemma {:induction false} DottedEndComplete(s: string, i: nat, j: nat, n: nat)
    requires i <= j <= |s| && n >= 1 && IsDottedGroupsAt(s, i, j, n) && BoundaryAfter(s, j)
    ensures DottedEnd(s, i, n) == Some(j)
    decreases n
  {
    if n == 1 {
      OctetEndAt(s, i, j);
    } else {
      var k := FirstGroup(s, i, j, n);
      DottedEndComplete(s, k + 1, j, n - 1);
      OctetDotAt(s, i, k);
      DottedEndStep(s, i, n, k + 1);
    }
  }

  /** The end of the match that starts at `i`, if one does. */
  function MatchEndAt(s: string, i: nat): (r: Option<nat>)
    requires i <= |s|
    ensures r.Some? ==> i <= r.value <= |s|
  {
    if BoundaryBefore(s, i) then DottedEnd(s, i, 4) else None
  }

  /** `MatchEndAt` reports the match that starts at `i`, and finds one whenever one exists. */
  lemma MatchEndAtSpec(s: string, i: nat)
    requires i <= |s|
    ensures MatchEndAt(s, i).Some? ==> MatchAt(s, i, MatchEndAt(s, i).value)
    ensures MatchEndAt(s, i).None? ==> NoMatchStartsAt(s, i)
  {
    if MatchEndAt(s, i).Some? {
      DottedEndSound(s, i, 4);
    } else {
      forall j: nat | MatchAt(s, i, j) ensures false {
        DottedEndComplete(s, i, j, 4);
      }
    }
  }

  /** Every start position where the pattern matches has exactly one end. */
  lemma MatchAtUnique(s: string, i: nat, j: nat, j': nat)
    requires MatchAt(s, i, j) && MatchAt(s, i, j')
    ensures j == j'
  {
    DottedEndComplete(s, i, j, 4);
    DottedEndComplete(s, i, j', 4);
  }

  /**
   * The first position from `i` to `hi` at which `f` reports an end, with
   * that end: the regex engine tries each start position in turn and stops
   * at the first where the pattern matches.
   */
  function Leftmost(f: nat -> Option<nat>, i: nat, hi: nat): (r: Option<(nat, nat)>)
    ensures r.Some? ==> i <= r.value.0 <= hi && f(r.value.0) == Some(r.value.1)
    ensures r.Some? ==> forall p :: i <= p < r.value.0 ==> f(p).None?
    ensures r.None? ==> forall p :: i <= p <= hi ==> f(p).None?
    decreases hi + 1 - i
  {
    if i > hi then None
    else match f(i)
      case Some(j) => Some((i, j))
      case None => Leftmost(f, i + 1, hi)
  }

  /** `MatchEndAt` at every start position of `s`. */
  function MatchEnds(s: string): nat -> Option<nat>
  {
    (p: nat) => if p <= |s| then MatchEndAt(s, p) else None
  }

  /**
   * `title.match(/\b\d{1,3}\.\d{1,3}\.\d{1,3}\.\d{1,3}\b/)`, reduced to
   * the matched text `ipMatch[0]`, or `None` for `null`.
   */
  function ExtractFirstIPv4(title: string): (r: Option<string>)
    ensures r.None? ==> forall i: nat, j: nat :: !MatchAt(title, i, j)
    ensures r.Some? ==> exists i: nat, j: nat :: IsFirstMatch(title, i, j) && r.value == title[i..j]
  {
    match Leftmost(MatchEnds(title), 0, |title|)
    case None =>
      NoMatchAnywhere(title);
      None
    case Some((i, j)) =>
      FirstMatchIsFirst(title, i, j);
      Some(title[i..j])
  }

  /** When the search from the start finds nothing, the pattern matches nowhere. */
  lemma NoMatchAnywhere(s: string)
    requires Leftmost(MatchEnds(s), 0, |s|).None?
    ensures forall i: nat, j: nat :: !MatchAt(s, i, j)
  {
    forall i: nat, j: nat | i <= |s| ensures !MatchAt(s, i, j) {
      assert MatchEnds(s)(i) == MatchEndAt(s, i);
      MatchEndAtSpec(s, i);
    }
  }

  /** What the search from the start finds is the leftmost match. */
  lemma FirstMatchIsFirst(s: string, i: nat, j: nat)
    requires Leftmost(MatchEnds(s), 0, |s|) == Some((i, j))
    ensures IsFirstMatch(s, i, j)
  {
    assert MatchEnds(s)(i) == MatchEndAt(s, i);
    MatchEndAtSpec(s, i);
    forall i': nat, j': nat | MatchAt(s, i', j') ensures i < i' || (i == i' && j == j') {
      assert MatchEnds(s)(i') == MatchEndAt(s, i');
      MatchEndAtSpec(s, i');
      if i' == i {
        MatchAtUnique(s, i, j, j');
      }
    }
  }

  /** The leftmost match is what the extraction returns. */
  lemma FirstMatchExtracted(title: string, i: nat, j: nat)
    requires IsFirstMatch(title, i, j)
    ensures ExtractFirstIPv4(title) == Some(title[i..j])
  {
    var found := Leftmost(MatchEnds(title), 0, |title|);
    if found.None? {
      NoMatchAnywhere(title);
      assert false;
    }
    var (i', j') := found.value;
    FirstMatchIsFirst(title, i', j');
  }

  /** Dotted groups begin and end with a digit and hold nothing but digits and dots. */
  lemma {:induction false} DottedGroupsChars(s: string, i: nat, j: nat, n: nat)
    requires n >= 1 && IsDottedGroupsAt(s, i, j, n)
    ensures i < j <= |s| && IsDigit(s[i]) && IsDigit(s[j - 1])
    ensures forall q :: i <= q < j ==> IsDigit(s[q]) || s[q] == '.'
    decreases n
  {
    if n > 1 {
      var k :| i < k < j && IsOctetAt(s, i, k) && s[k] == '.' && IsDottedGroupsAt(s, k + 1, j, n - 1);
      DottedGroupsChars(s, k + 1, j, n - 1);
    }
  }

  /**
   * An extracted address is a non-empty run of digits and dots that begins
   * and ends with a digit.
   */
  lemma ExtractedAddressChars(title: string)
    ensures ExtractFirstIPv4(title).Some? ==>
      var ip := ExtractFirstIPv4(title).value;
      && ip != [] && IsDigit(ip[0]) && IsDigit(ip[|ip| - 1])
      && forall q :: 0 <= q < |ip| ==> IsDigit(ip[q]) || ip[q] == '.'
  {
    var found := Leftmost(MatchEnds(title), 0, |title|);
    if found.Some? {
      var (i, j) := found.value;
      FirstMatchIsFirst(title, i, j);
      MatchedTextChars(title, i, j);
    }
  }

  /** The text of a match is made of digits and dots and begins and ends with a digit. */
  lemma MatchedTextChars(s: string, i: nat, j: nat)
    requires MatchAt(s, i, j)
    ensures var ip := s[i..j];
      && ip != [] && IsDigit(ip[0]) && IsDigit(ip[|ip| - 1])
      && forall q :: 0 <= q < |ip| ==> IsDigit(ip[q]) || ip[q] == '.'
  {
    DottedGroupsChars(s, i, j, 4);
  }

  /** A title that is four dotted groups from end to end is extracted whole. */
  lemma WholeTitleMatch(title: string)
    requires IsDottedGroupsAt(title, 0, |title|, 4)
    ensures ExtractFirstIPv4(title) == Some(title)
  {
    assert MatchAt(title, 0, |title|);
    forall i': nat, j': nat | MatchAt(title, i', j') ensures 0 < i' || (0 == i' && |title| == j') {
      if i' == 0 {
        MatchAtUnique(title, 0, |title|, j');
      }
    }
    FirstMatchExtracted(title, 0, |title|);
    assert title[0..|title|] == title;
  }

  /** `\d{1,3}` as a whole string: one to three digits. */
  predicate IsOctetText(t: string) {
    IsOctetAt(t, 0, |t|)
  }

  /** Dotted groups found in `r` are found at the same place in `r` behind a prefix. */
  lemma {:induction false} GroupsShift(pre: string, r: string, i: nat, j: nat, n: nat)
    requires n >= 1 && IsDottedGroupsAt(r, i, j, n)
    ensures IsDottedGroupsAt(pre + r, |pre| + i, |pre| + j, n)
    decreases n
  {
    var s := pre + r;
    if n == 1 {
      assert forall q :: |pre| + i <= q < |pre| + j ==> s[q] == r[q - |pre|];
    } else {
      var k :| i < k < j && IsOctetAt(r, i, k) && r[k] == '.' && IsDottedGroupsAt(r, k + 1, j, n - 1);
      GroupsShift(pre, r, k + 1, j, n - 1);
      assert forall q :: |pre| + i <= q <= |pre| + k ==> s[q] == r[q - |pre|];
      assert IsOctetAt(s, |pre| + i, |pre| + k) && s[|pre| + k] == '.';
    }
  }

  /** One more group and a dot in front of `n` dotted groups make `n + 1` of them. */
  lemma GroupsPrepend(t: string, r: string, n: nat)
    requires IsOctetText(t) && n >= 1 && IsDottedGroupsAt(r, 0, |r|, n)
    ensures IsDottedGroupsAt(t + ['.'] + r, 0, |t| + 1 + |r|, n + 1)
  {
    var s := t + ['.'] + r;
    GroupsShift(t + ['.'], r, 0, |r|, n);
    assert forall q :: 0 <= q <= |t| ==> s[q] == (t + ['.'])[q];
    assert IsOctetAt(s, 0, |t|) && s[|t|] == '.';
  }

  /** Octets joined by dots are as many dotted groups. */
  lemma {:induction false} JoinedGroups(octets: seq<string>)
    requires |octets| >= 1 && forall m :: 0 <= m < |octets| ==> IsOctetText(octets[m])
    ensures IsDottedGroupsAt(Join(octets, '.'), 0, |Join(octets, '.')|, |octets|)
  {
    if |octets| > 1 {
      JoinedGroups(octets[1..]);
      GroupsPrepend(octets[0], Join(octets[1..], '.'), |octets| - 1);
    }
  }

  /**
   * The octets are not range-checked: any four groups of one to three digits
   * joined by dots are extracted whole, whatever numbers they spell (so
   * `999.999.999.999` is).
   */
  lemma DottedQuadExtracted(octets: seq<string>)
    requires |octets| == 4 && forall m :: 0 <= m < 4 ==> IsOctetText(octets[m])
    ensures ExtractFirstIPv4(Join(octets, '.')) == Some(Join(octets, '.'))
  {
    JoinedGroups(octets);
    WholeTitleMatch(Join(octets, '.'));
  }
}
