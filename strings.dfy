/**
 * The small part of Python's `str` that the scraper relies on:
 * `pat in s`, `s.split(sep)`, `s.replace(pat, "")`, `s.strip()` and an ASCII
 * `s.lower()`. Strings are sequences of Unicode scalar values.
 */
module Strings {
  import opened Wrappers

  /** `pat` occurs in `s` starting at index `k`. */
  predicate OccursAt(s: string, pat: string, k: nat)
  {
    k + |pat| <= |s| && s[k..k + |pat|] == pat
  }

  /** Python's `pat in s`. */
  predicate Contains(s: string, pat: string)
  {
    exists k | 0 <= k <= |s| - |pat| :: OccursAt(s, pat, k)
  }

  /** The leftmost occurrence of `pat` in `s` at or after `from`. */
  function FindFrom(s: string, pat: string, from: nat): (r: Option<nat>)
    requires |pat| > 0
    ensures r.Some? ==> from <= r.value && OccursAt(s, pat, r.value)
    ensures r.Some? ==> forall k :: from <= k < r.value ==> !OccursAt(s, pat, k)
    ensures r.None? ==> forall k :: from <= k ==> !OccursAt(s, pat, k)
    decreases |s| - from
  {
    if from + |pat| > |s| then None
    else if OccursAt(s, pat, from) then Some(from)
    else FindFrom(s, pat, from + 1)
  }

  /** Python's `sep.join(parts)`. */
  function JoinWith(parts: seq<string>, sep: string): string
  {
    if |parts| == 0 then ""
    else if |parts| == 1 then parts[0]
    else parts[0] + sep + JoinWith(parts[1..], sep)
  }

  /** Python's `"".join(parts)`. */
  function Concat(parts: seq<string>): string
  {
    JoinWith(parts, "")
  }

  /**
   * Python's `s.split(sep)`: the pieces between the leftmost non-overlapping
   * occurrences of `sep`. Joining them with `sep` gives `s` back, and
   * (SplitPiecesFree) no piece holds `sep`.
   */
  function Split(s: string, sep: string): (parts: seq<string>)
    requires |sep| > 0
    ensures |parts| >= 1
    ensures JoinWith(parts, sep) == s
    decreases |s|
  {
    match FindFrom(s, sep, 0)
    case None => [s]
    case Some(i) =>
      var rest := Split(s[i + |sep|..], sep);
      assert s == s[..i] + sep + s[i + |sep|..];
      [s[..i]] + rest
  }

  /** Split at the leftmost occurrence, at index `i`. */
  lemma SplitAtFirst(s: string, sep: string, i: nat)
    requires |sep| > 0 && OccursAt(s, sep, i)
    requires forall k :: 0 <= k < i ==> !OccursAt(s, sep, k)
    ensures Split(s, sep) == [s[..i]] + Split(s[i + |sep|..], sep)
  {
    var j := FindFrom(s, sep, 0).value;
    assert j == i;
  }

  /** A text without the separator splits into itself. */
  lemma SplitNone(s: string, sep: string)
    requires |sep| > 0 && forall k :: 0 <= k < |s| ==> !OccursAt(s, sep, k)
    ensures Split(s, sep) == [s]
  {
  }

  /** No piece of a split holds the separator. */
  lemma {:induction false} SplitPiecesFree(s: string, sep: string)
    requires |sep| > 0
    ensures forall i :: 0 <= i < |Split(s, sep)| ==> !Contains(Split(s, sep)[i], sep)
    decreases |s|
  {
    match FindFrom(s, sep, 0)
    case None =>
      assert !Contains(s, sep);
    case Some(i) =>
      NoEarlierOccurrence(s, sep, i);
      SplitPiecesFree(s[i + |sep|..], sep);
  }

  /** The piece before the leftmost occurrence holds no occurrence. */
  lemma NoEarlierOccurrence(s: string, sep: string, i: nat)
    requires |sep| > 0 && i <= |s|
    requires forall k :: 0 <= k < i ==> !OccursAt(s, sep, k)
    ensures !Contains(s[..i], sep)
  {
    forall k: nat | k <= i - |sep| && OccursAt(s[..i], sep, k)
      ensures false
    {
      assert s[..i][k..k + |sep|] == s[k..k + |sep|];
      assert OccursAt(s, sep, k);
    }
  }

  /**
   * Python's `s.replace(pat, "")`, which is `"".join(s.split(pat))`: every
   * leftmost occurrence of `pat` deleted. Without an occurrence nothing
   * changes; with one the text shrinks by at least `pat`.
   */
  function RemoveAll(s: string, pat: string): (r: string)
    requires |pat| > 0
    ensures !Contains(s, pat) ==> r == s
    ensures Contains(s, pat) ==> |r| <= |s| - |pat|
  {
    var parts := Split(s, pat);
    JoinLonger(parts, pat);
    if FindFrom(s, pat, 0).None? then
      assert parts == [s];
      Concat(parts)
    else
      assert |parts| >= 2;
      Concat(parts)
  }

  /** Joining with a separator is longer than plain concatenation, by a separator at least once there are two pieces. */
  lemma {:induction false} JoinLonger(parts: seq<string>, sep: string)
    ensures |JoinWith(parts, sep)| >= |Concat(parts)|
    ensures |parts| >= 2 ==> |JoinWith(parts, sep)| >= |Concat(parts)| + |sep|
  {
    if |parts| > 1 {
      JoinLonger(parts[1..], sep);
    }
  }

  /** Joining a list extended by one piece. */
  lemma {:induction false} JoinWithSnoc(parts: seq<string>, last: string, sep: string)
    requires |parts| >= 1
    ensures JoinWith(parts + [last], sep) == JoinWith(parts, sep) + sep + last
  {
    if |parts| == 1 {
      assert parts + [last] == [parts[0], last];
    } else {
      assert (parts + [last])[1..] == parts[1..] + [last];
      JoinWithSnoc(parts[1..], last, sep);
    }
  }

  /** For a one-character separator, `pat in s` is membership of that character. */
  lemma ContainsChar(s: string, c: char)
    ensures Contains(s, [c]) <==> c in s
  {
    if c in s {
      var k :| 0 <= k < |s| && s[k] == c;
      assert s[k..k + 1] == [c];
      assert OccursAt(s, [c], k);
    } else {
      forall k: nat | k < |s|
        ensures OccursAt(s, [c], k) ==> s[k] == c
      {
        assert s[k..k + 1][0] == s[k];
      }
    }
  }

  /** Splitting on one character gives one more piece than it has occurrences. */
  lemma {:induction false} SplitCount(s: string, c: char)
    ensures |Split(s, [c])| == multiset(s)[c] + 1
    decreases |s|
  {
    match FindFrom(s, [c], 0)
    case None =>
      ContainsChar(s, c);
      assert multiset(s)[c] == 0;
    case Some(i) =>
      var head, rest := s[..i], s[i + 1..];
      assert s == head + [c] + rest;
      ContainsChar(head, c);
      NoEarlierOccurrence(s, [c], i);
      assert multiset(s) == multiset(head) + multiset{c} + multiset(rest);
      SplitCount(rest, c);
  }

  /** The characters Python's `str.strip()` removes: those for which `str.isspace()` holds. */
  const Whitespace: set<char> := {
      '\t', '\n', '\U{B}', '\U{C}', '\r', '\U{1C}', '\U{1D}', '\U{1E}',
      '\U{1F}', ' ', '\U{85}', '\U{A0}', '\U{1680}', '\U{2000}', '\U{2001}', '\U{2002}',
      '\U{2003}', '\U{2004}', '\U{2005}', '\U{2006}', '\U{2007}', '\U{2008}', '\U{2009}', '\U{200A}',
      '\U{2028}', '\U{2029}', '\U{202F}', '\U{205F}', '\U{3000}'
    }

  predicate IsSpace(c: char)
  {
    c in Whitespace
  }

  /** The first index at or after `from` that is not white space, or `|s|`. */
  function SkipSpace(s: string, from: nat): (i: nat)
    requires from <= |s|
    ensures from <= i <= |s|
    ensures forall k :: from <= k < i ==> IsSpace(s[k])
    ensures i < |s| ==> !IsSpace(s[i])
    decreases |s| - from
  {
    if from < |s| && IsSpace(s[from]) then SkipSpace(s, from + 1) else from
  }

  /** The end of `s[lo..hi]` once the white space at its end is cut away. */
  function TrimEndAt(s: string, lo: nat, hi: nat): (j: nat)
    requires lo <= hi <= |s|
    ensures lo <= j <= hi
    ensures forall k :: j <= k < hi ==> IsSpace(s[k])
    ensures j > lo ==> !IsSpace(s[j - 1])
    decreases hi
  {
    if hi > lo && IsSpace(s[hi - 1]) then TrimEndAt(s, lo, hi - 1) else hi
  }

  /**
   * Python's `s.strip()`: the slice of `s` that is left once the white space
   * before it (`i` characters) and after it is cut away; it neither starts
   * nor ends with white space.
   */
  function Strip(s: string): (r: string)
    ensures var i := SkipSpace(s, 0);
      && i + |r| <= |s| && r == s[i..i + |r|]
      && (forall k :: 0 <= k < i ==> IsSpace(s[k]))
      && (forall k :: i + |r| <= k < |s| ==> IsSpace(s[k]))
    ensures |r| > 0 ==> !IsSpace(r[0]) && !IsSpace(r[|r| - 1])
  {
    var i := SkipSpace(s, 0);
    var j := TrimEndAt(s, i, |s|);
    s[i..j]
  }

  /** An ASCII capital letter. */
  predicate IsUpper(c: char)
  {
    'A' <= c <= 'Z'
  }

  /** ASCII lower-casing of one character: a capital moves up 32 code points to its small letter. */
  function LowerChar(c: char): char
  {
    if IsUpper(c) then (c as int + 32) as char else c
  }

  /**
   * `s.lower()` restricted to ASCII letters: the same length, no capital
   * left, and every character that was not a capital kept in place.
   */
  function Lower(s: string): (r: string)
    ensures |r| == |s|
    ensures forall i :: 0 <= i < |r| ==> !IsUpper(r[i])
    ensures forall i :: 0 <= i < |s| && !IsUpper(s[i]) ==> r[i] == s[i]
  {
    seq(|s|, i requires 0 <= i < |s| => LowerChar(s[i]))
  }

  /** Lower-casing twice is lower-casing once. */
  lemma LowerIdempotent(s: string)
    ensures Lower(Lower(s)) == Lower(s)
  {
  }

  /** Lower-casing keeps every occurrence in place, lower-cased. */
  lemma LowerOccurs(s: string, pat: string, k: nat)
    requires OccursAt(s, pat, k)
    ensures OccursAt(Lower(s), Lower(pat), k)
  {
    forall j | 0 <= j < |pat|
      ensures Lower(s)[k + j] == Lower(pat)[j]
    {
      assert s[k + j] == s[k..k + |pat|][j];
    }
    assert Lower(s)[k..k + |pat|] == Lower(pat);
  }

  /** Lower-casing a slice is slicing the lower-cased text. */
  lemma LowerSlice(s: string, a: nat, b: nat)
    requires a <= b <= |s|
    ensures Lower(s[a..b]) == Lower(s)[a..b]
  {
    forall j | 0 <= j < b - a
      ensures Lower(s[a..b])[j] == Lower(s)[a..b][j]
    {
      assert s[a..b][j] == s[a + j];
    }
  }
}
