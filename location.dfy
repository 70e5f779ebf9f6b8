/**
 * The location field of a product page (main.py:339-348): a text of the
 * shape "<state> - <city>" is split on '-', the prefix words "استان"
 * (province) and "شهر" (city) are deleted and the halves are trimmed.
 */
module Location {
  import opened Wrappers
  import opened Strings

  const Separator: string := "-"
  /** "استان", the word for province. */
  const StateWord: string := "\U{0627}\U{0633}\U{062A}\U{0627}\U{0646}"
  /** "شهر", the word for city. */
  const CityWord: string := "\U{0634}\U{0647}\U{0631}"

  /** The state label as stored: the part before '-' without its prefix word, trimmed. */
  function CleanState(part: string): string
  {
    Strip(RemoveAll(part, StateWord))
  }

  /** The city label as stored: the part after '-' without its prefix word, trimmed. */
  function CleanCity(part: string): string
  {
    Strip(RemoveAll(part, CityWord))
  }

  /**
   * The (state, city) pair the scraper stores for a location text, or None
   * when it stores nothing: the text has no '-' (the `if` fails), or it has
   * several and unpacking `split("-")` into two names raises, which the
   * surrounding handler swallows.
   */
  function ParseLocation(text: string): Option<(string, string)>
  {
    if !Contains(text, Separator) then None
    else
      var parts := Split(text, Separator);
      if |parts| != 2 then None
      else Some((CleanState(parts[0]), CleanCity(parts[1])))
  }

  /** A pair is assigned exactly when the text holds exactly one '-'. */
  lemma ParseDefinedIffOneDash(text: string)
    ensures ParseLocation(text).Some? <==> multiset(text)['-'] == 1
  {
    ContainsChar(text, '-');
    SplitCount(text, '-');
    assert [('-')] == Separator;
  }

  /** Two '-' at different places count twice. */
  lemma TwoDashes(text: string, a: nat, b: nat)
    requires a < b < |text| && text[a] == '-' && text[b] == '-'
    ensures multiset(text)['-'] >= 2
  {
    var front, back := text[..b], text[b..];
    assert text == front + back;
    assert front[a] == '-' && back[0] == '-';
    assert multiset(text) == multiset(front) + multiset(back);
  }

  /** The '-' counted once sits at one index only. */
  lemma OnlyDashAt(text: string, i: nat)
    requires i < |text| && text[i] == '-'
    requires multiset(text)['-'] == 1
    ensures forall k :: 0 <= k < |text| && k != i ==> text[k] != '-'
  {
    forall k | 0 <= k < |text| && k != i
      ensures text[k] != '-'
    {
      if text[k] == '-' {
        if k < i { TwoDashes(text, k, i); } else { TwoDashes(text, i, k); }
      }
    }
  }

  /** Where no character is '-', the separator does not occur. */
  lemma NoDashNoSeparator(s: string, lo: nat, hi: nat)
    requires hi <= |s|
    requires forall k :: lo <= k < hi ==> s[k] != '-'
    ensures forall k :: lo <= k < hi ==> !OccursAt(s, Separator, k)
  {
    forall k | lo <= k < hi
      ensures !OccursAt(s, Separator, k)
    {
      assert s[k..k + 1][0] == s[k];
    }
  }

  /** Splitting on a '-' that is the text's only one cuts it there. */
  lemma SplitAtSoleDash(text: string, i: nat)
    requires i < |text| && text[i] == '-'
    requires forall k :: 0 <= k < |text| && k != i ==> text[k] != '-'
    ensures Split(text, Separator) == [text[..i], text[i + 1..]]
  {
    assert OccursAt(text, Separator, i) by {
      assert text[i..i + 1] == [text[i]];
    }
    NoDashNoSeparator(text, 0, i);
    var rest := text[i + 1..];
    NoDashNoSeparator(rest, 0, |rest|);
    SplitAtFirst(text, Separator, i);
    SplitNone(rest, Separator);
  }

  /** Splitting on the only '-' of a text cuts it at that '-'. */
  lemma SplitAtOnlyDash(text: string, i: nat)
    requires i < |text| && text[i] == '-'
    requires multiset(text)['-'] == 1
    ensures Split(text, Separator) == [text[..i], text[i + 1..]]
  {
    OnlyDashAt(text, i);
    SplitAtSoleDash(text, i);
  }

  /**
   * With its only '-' at index `i`, the state is the cleaned text before it
   * and the city the cleaned text after it.
   */
  lemma ParseAtDash(text: string, i: nat)
    requires i < |text| && text[i] == '-'
    requires multiset(text)['-'] == 1
    ensures ParseLocation(text) == Some((CleanState(text[..i]), CleanCity(text[i + 1..])))
  {
    ContainsChar(text, '-');
    SplitAtOnlyDash(text, i);
  }

  /** Without any '-' both fields keep their empty defaults. */
  lemma NoDashNoLocation(text: string)
    requires '-' !in text
    ensures ParseLocation(text).None?
  {
    ContainsChar(text, '-');
  }

  /** A text with two or more '-' is dropped, not half-assigned. */
  lemma ManyDashesNoLocation(text: string)
    requires multiset(text)['-'] >= 2
    ensures ParseLocation(text).None?
  {
    ParseDefinedIffOneDash(text);
  }
}
