/**
 * The video id both scripts read from the page's path: the first match of
 * `/\/watch\/(\d+)/` in `location.pathname` (inject.js:782-785,
 * content.js:25-28), and the `/watch` prefix test of the navigation checks.
 */
module Url {
  import opened Wrappers
  import opened Strings

  /** `\d` without the `u` flag: the ASCII digits. */
  predicate IsDigit(c: char)
  {
    '0' <= c <= '9'
  }

  /** The regular expression matches at `p`: `/watch/` followed by at least one digit. */
  predicate MatchAt(s: string, p: nat)
  {
    p + 8 <= |s| && s[p..p + 7] == "/watch/" && IsDigit(s[p + 7])
  }

  /** The greedy `(\d+)` group from position `i`: the longest run of digits starting there. */
  function DigitRun(s: string, i: nat): (r: string)
    requires i <= |s|
    ensures i + |r| <= |s| && s[i..i + |r|] == r
    ensures forall k :: 0 <= k < |r| ==> IsDigit(r[k])
    ensures i + |r| == |s| || !IsDigit(s[i + |r|])
    decreases |s| - i
  {
    if i < |s| && IsDigit(s[i]) then [s[i]] + DigitRun(s, i + 1) else []
  }

  /** The leftmost match at or after position `p`, and its group. */
  function WatchIdFrom(s: string, p: nat): Option<string>
    decreases |s| - p
  {
    if p + 8 > |s| then None
    else if MatchAt(s, p) then Some(DigitRun(s, p + 7))
    else WatchIdFrom(s, p + 1)
  }

  /** `getWatchId()` / `getVideoId()` on the path `pathname`; `None` is `null`. */
  function WatchId(pathname: string): (r: Option<string>)
    ensures r.Some? ==> r.value != [] && forall k :: 0 <= k < |r.value| ==> IsDigit(r.value[k])
  {
    WatchIdFromDigits(pathname, 0);
    WatchIdFrom(pathname, 0)
  }

  lemma {:induction false} WatchIdFromDigits(s: string, p: nat)
    ensures var r := WatchIdFrom(s, p);
            r.Some? ==> r.value != [] && forall k :: 0 <= k < |r.value| ==> IsDigit(r.value[k])
    decreases |s| - p
  {
    if p + 8 <= |s| && !MatchAt(s, p) {
      WatchIdFromDigits(s, p + 1);
    }
  }

  /**
   * Soundness and leftmost choice: an id comes from a match no earlier match
   * precedes, and is the whole run of digits there.
   */
  lemma {:induction false} WatchIdFromSound(s: string, p: nat)
    ensures var r := WatchIdFrom(s, p);
            r.Some? ==> exists q: nat :: p <= q && MatchAt(s, q) && r.value == DigitRun(s, q + 7) &&
                                         forall q': nat :: p <= q' < q ==> !MatchAt(s, q')
    decreases |s| - p
  {
    if p + 8 <= |s| {
      if MatchAt(s, p) {
        assert MatchAt(s, p) && WatchIdFrom(s, p).value == DigitRun(s, p + 7);
      } else {
        WatchIdFromSound(s, p + 1);
        var r := WatchIdFrom(s, p + 1);
        if r.Some? {
          var q: nat :| p + 1 <= q && MatchAt(s, q) && r.value == DigitRun(s, q + 7) &&
                        forall q': nat :: p + 1 <= q' < q ==> !MatchAt(s, q');
          assert forall q': nat :: p <= q' < q ==> !MatchAt(s, q');
        }
      }
    }
  }

  /** Completeness: no id means no position matches. */
  lemma {:induction false} WatchIdFromComplete(s: string, p: nat)
    ensures WatchIdFrom(s, p).None? <==> forall q: nat :: p <= q ==> !MatchAt(s, q)
    decreases |s| - p
  {
    if p + 8 <= |s| {
      if !MatchAt(s, p) {
        WatchIdFromComplete(s, p + 1);
      }
    }
  }

  /** `getWatchId()` returns the digits after the leftmost `/watch/` that a digit follows, or `null` when there is none. */
  lemma WatchIdSpec(pathname: string)
    ensures WatchId(pathname).None? <==> forall q: nat :: !MatchAt(pathname, q)
    ensures WatchId(pathname).Some? ==>
              exists q: nat :: MatchAt(pathname, q) && WatchId(pathname).value == DigitRun(pathname, q + 7) &&
                          forall q': nat :: q' < q ==> !MatchAt(pathname, q')
  {
    WatchIdFromComplete(pathname, 0);
    WatchIdFromSound(pathname, 0);
  }

  /** The path test of the navigation checks, `pathname.startsWith('/watch')`. */
  predicate OnWatchPath(pathname: string)
  {
    StartsWith(pathname, "/watch")
  }

  /** A path that opens with `/watch/` and a digit is a watch path and carries an id. */
  lemma IdAtStartIsWatchPath(pathname: string)
    requires MatchAt(pathname, 0)
    ensures OnWatchPath(pathname) && WatchId(pathname).Some?
  {
    assert pathname[..6] == pathname[0..7][..6];
    WatchIdFromComplete(pathname, 0);
  }

  /** `/watchlist` passes the prefix test but carries no id. */
  lemma WatchlistIsWatchPath()
    ensures OnWatchPath("/watchlist") && WatchId("/watchlist").None?
  {
    var s := "/watchlist";
    assert s[..6] == "/watch";
    forall q: nat ensures !MatchAt(s, q)
    {
      if q + 8 <= |s| {
        assert q <= 2;
        assert s[q..q + 7] != "/watch/" by {
          assert s[q..q + 7][6] == s[q + 6];
        }
      }
    }
    WatchIdFromComplete(s, 0);
  }
}
