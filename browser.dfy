/**
 * The two small guards around the browser session: the forbidden-page
 * check after the first navigation (main.py:92-99) and the cookie bootstrap
 * (main.py:58-89). The driver is represented by its answers.
 */
module Browser {
  import opened Wrappers
  import opened Strings

  /** `page_source` lower-cased holds "error 403" or "forbidden": the run stops. */
  predicate IsForbidden(pageSource: string)
  {
    var page := Lower(pageSource);
    Contains(page, "error 403") || Contains(page, "forbidden")
  }

  /** Any spelling of a marker, in any letter case, stops the run. */
  lemma ForbiddenInAnyCase(pageSource: string, marker: string, k: nat)
    requires Lower(marker) == "error 403" || Lower(marker) == "forbidden"
    requires OccursAt(pageSource, marker, k)
    ensures IsForbidden(pageSource)
  {
    LowerOccurs(pageSource, marker, k);
    assert k <= |Lower(pageSource)| - |Lower(marker)|;
  }

  /** A page with no occurrence of either marker, in any case, passes. */
  lemma CleanPagePasses(pageSource: string)
    requires forall k: nat, m: string ::
      (Lower(m) == "error 403" || Lower(m) == "forbidden") ==> !OccursAt(pageSource, m, k)
    ensures !IsForbidden(pageSource)
  {
    var page := Lower(pageSource);
    forall k: nat, m: string | m == "error 403" || m == "forbidden"
      ensures !OccursAt(page, m, k)
    {
      if k + |m| <= |page| {
        var original := pageSource[k..k + |m|];
        assert OccursAt(pageSource, original, k);
        LowerSlice(pageSource, k, k + |m|);
      }
    }
  }

  /** A cookie as read from `cookies.json`: its attributes by name. */
  type Cookie = map<string, string>

  /** The attributes popped before injection (main.py:70-73). */
  const Volatile: set<string> := {"sameSite", "hostOnly", "storeId", "expires"}

  /** The cookie with its volatile attributes removed and all others kept. */
  function Sanitize(c: Cookie): Cookie
  {
    c - Volatile
  }

  /** The cookie has both a name and a value. */
  predicate Named(c: Cookie)
  {
    "name" in c && "value" in c
  }

  /** The sanitised cookies that have both a name and a value, in file order. */
  function Eligible(cookies: seq<Cookie>): (r: seq<Cookie>)
    ensures |r| <= |cookies|
    ensures forall i :: 0 <= i < |r| ==> Named(r[i]) && r[i].Keys !! Volatile
  {
    if |cookies| == 0 then []
    else
      var c := Sanitize(cookies[0]);
      (if Named(c) then [c] else []) + Eligible(cookies[1..])
  }

  /** The cookies of `cs` the driver accepts, in order. */
  function Accepted(cs: seq<Cookie>, accepts: Cookie -> bool): (r: seq<Cookie>)
    ensures |r| <= |cs|
    ensures forall i :: 0 <= i < |r| ==> accepts(r[i]) && r[i] in cs
  {
    if |cs| == 0 then []
    else (if accepts(cs[0]) then [cs[0]] else []) + Accepted(cs[1..], accepts)
  }

  /**
   * `load_cookies_from_file`: `file` is the parsed cookie file (None when it
   * does not exist), `accepts` says whether `driver.add_cookie` succeeds on a
   * cookie, `refreshOk` whether `driver.refresh()` does. Every eligible
   * cookie is offered once; the two counters split them into added and
   * failed.
   */
  method LoadCookiesFromFile(file: Option<seq<Cookie>>, accepts: Cookie -> bool, refreshOk: bool)
    returns (ok: bool, added: seq<Cookie>, successCount: nat, failCount: nat)
    ensures file.None? ==> !ok && added == [] && successCount == 0 && failCount == 0
    ensures file.Some? ==> ok == refreshOk
    ensures file.Some? ==> added == Accepted(Eligible(file.value), accepts)
    ensures successCount == |added|
    ensures file.Some? ==> successCount + failCount == |Eligible(file.value)|
  {
    if file.None? {
      return false, [], 0, 0;
    }
    var cookies := file.value;
    added, successCount, failCount := [], 0, 0;
    var i := 0;
    while i < |cookies|
      invariant i <= |cookies|
      invariant added == Accepted(Eligible(cookies[..i]), accepts)
      invariant successCount == |added|
      invariant successCount + failCount == |Eligible(cookies[..i])|
    {
      var cookie := Sanitize(cookies[i]);
      EligiblePrefix(cookies, i);
      if Named(cookie) {
        AcceptedSnoc(Eligible(cookies[..i]), cookie, accepts);
        if accepts(cookie) {
          added := added + [cookie];
          successCount := successCount + 1;
        } else {
          failCount := failCount + 1;
        }
      } else {
        assert Eligible(cookies[..i]) + [] == Eligible(cookies[..i]);
      }
      i := i + 1;
    }
    assert cookies[..i] == cookies;
    ok := refreshOk;
  }

  /** Eligibility of a file extended by one cookie. */
  lemma {:induction false} EligibleSnoc(cookies: seq<Cookie>, c: Cookie)
    ensures Eligible(cookies + [c]) == Eligible(cookies) + (if Named(Sanitize(c)) then [Sanitize(c)] else [])
  {
    if |cookies| > 0 {
      assert (cookies + [c])[1..] == cookies[1..] + [c];
      EligibleSnoc(cookies[1..], c);
    } else {
      assert [c][1..] == [];
    }
  }

  /** The eligible cookies among the first i + 1 of a file. */
  lemma EligiblePrefix(cookies: seq<Cookie>, i: nat)
    requires i < |cookies|
    ensures Eligible(cookies[..i + 1]) ==
      Eligible(cookies[..i]) + (if Named(Sanitize(cookies[i])) then [Sanitize(cookies[i])] else [])
  {
    assert cookies[..i + 1] == cookies[..i] + [cookies[i]];
    EligibleSnoc(cookies[..i], cookies[i]);
  }

  /** Acceptance of a list extended by one cookie. */
  lemma {:induction false} AcceptedSnoc(cs: seq<Cookie>, c: Cookie, accepts: Cookie -> bool)
    ensures Accepted(cs + [c], accepts) == Accepted(cs, accepts) + (if accepts(c) then [c] else [])
  {
    if |cs| > 0 {
      assert (cs + [c])[1..] == cs[1..] + [c];
      AcceptedSnoc(cs[1..], c, accepts);
    } else {
      assert [c][1..] == [];
    }
  }
}
