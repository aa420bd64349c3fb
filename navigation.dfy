/**
 * The rehook state machine of inject.js (inject.js:473-476, 522, 778-902):
 * `lastWatchId`, `lastHref` and `cadmiumHooked`, the timers the script
 * arms, and the events that drive it. Time advances only when a timer
 * fires; the 200 ms URL poll, history changes, `message` events and added
 * nodes are inputs that arrive between timers, with the location (and
 * whether `window.netflix.player` exists) passed in.
 */
module Navigation {
  import opened Wrappers
  import opened Strings
  import opened Url
  import opened Dom

  /** What a pending timer does when it fires. */
  datatype Action =
    | AttemptHook       // one of `forceRehook`'s delayed `hookCadmium()` attempts
    | HistoryCheck      // the 50 ms check after `pushState`, `replaceState` or `popstate`
    | HookTick          // one tick of the 500 ms `hookInterval`
    | StopHookInterval  // the 60 s `clearInterval(hookInterval)`

  datatype Timer = Timer(due: int, action: Action)

  const RehookDelays: seq<int> := [100, 300, 500, 1000, 2000]
  const HistoryDelay: int := 50
  const HookPeriod: int := 500
  const HookDeadline: int := 60000
  const ReinitType: string := "NETFLIX_4K_REINIT"

  /**
   * The script's navigation state. `hookInterval` says whether the hook
   * interval still runs; `rehooks` counts `forceRehook` calls.
   */
  datatype Nav = Nav(lastWatchId: Option<string>, lastHref: string, cadmiumHooked: bool,
                     hookInterval: bool, now: int, pending: seq<Timer>, rehooks: nat)

  /** Timers fire in order of their due time. */
  predicate Sorted(q: seq<Timer>)
  {
    forall i, j :: 0 <= i < j < |q| ==> q[i].due <= q[j].due
  }

  /** The timer queue is in order and nothing in it is overdue. */
  predicate Valid(n: Nav)
  {
    Sorted(n.pending) && DueFrom(n.pending, n.now)
  }

  /** `setTimeout`: the timer goes after every timer due no later than it. */
  function Insert(q: seq<Timer>, t: Timer): (r: seq<Timer>)
    ensures |r| == |q| + 1
  {
    if q == [] || t.due < q[0].due then [t] + q else [q[0]] + Insert(q[1..], t)
  }

  /** `Insert` adds the one timer and loses none. */
  lemma {:induction false} InsertPerm(q: seq<Timer>, t: Timer)
    ensures multiset(Insert(q, t)) == multiset(q) + multiset{t}
  {
    if q != [] && q[0].due <= t.due {
      InsertPerm(q[1..], t);
      assert q == [q[0]] + q[1..];
    }
  }

  /** Where `Insert` places a timer: before the first timer due strictly later. */
  function InsertPoint(q: seq<Timer>, t: Timer): (k: nat)
    ensures k <= |q|
  {
    if q == [] || t.due < q[0].due then 0 else 1 + InsertPoint(q[1..], t)
  }

  lemma {:induction false} InsertPlacement(q: seq<Timer>, t: Timer)
    ensures var k := InsertPoint(q, t);
            Insert(q, t) == q[..k] + [t] + q[k..] &&
            (forall i :: 0 <= i < k ==> q[i].due <= t.due) &&
            (k < |q| ==> t.due < q[k].due)
  {
    if q != [] && q[0].due <= t.due {
      InsertPlacement(q[1..], t);
      var k := InsertPoint(q[1..], t);
      assert q[..k + 1] == [q[0]] + q[1..][..k];
      assert q[k + 1..] == q[1..][k..];
      forall i | 0 <= i < k + 1 ensures q[i].due <= t.due {
        if i > 0 { assert q[i] == q[1..][i - 1]; }
      }
    }
  }

  lemma {:induction false} InsertSorted(q: seq<Timer>, t: Timer)
    requires Sorted(q)
    ensures Sorted(Insert(q, t))
  {
    if q != [] && q[0].due <= t.due {
      var rest := Insert(q[1..], t);
      InsertSorted(q[1..], t);
      InsertPerm(q[1..], t);
      forall j | 0 <= j < |rest| ensures q[0].due <= rest[j].due {
        assert rest[j] in multiset(rest);
        assert rest[j] in multiset(q[1..]) || rest[j] == t;
      }
    }
  }

  /** No timer in `q` is due before `now`. */
  predicate DueFrom(q: seq<Timer>, now: int)
  {
    forall i :: 0 <= i < |q| ==> now <= q[i].due
  }

  lemma InsertDueFrom(q: seq<Timer>, t: Timer, now: int)
    requires DueFrom(q, now) && now <= t.due
    ensures DueFrom(Insert(q, t), now)
  {
    var r := Insert(q, t);
    InsertPerm(q, t);
    forall i | 0 <= i < |r| ensures now <= r[i].due {
      assert r[i] in multiset(r);
      assert r[i] in multiset(q) || r[i] == t;
    }
  }

  /** The timers `delays.forEach(delay => setTimeout(…, delay))` arms, in the order it arms them. */
  function Armed(now: int, delays: seq<int>, a: Action): (r: seq<Timer>)
    ensures |r| == |delays|
    ensures forall i :: 0 <= i < |r| ==> r[i] == Timer(now + delays[i], a)
  {
    if delays == [] then [] else [Timer(now + delays[0], a)] + Armed(now, delays[1..], a)
  }

  /** Arming one timer per delay, first to last, each through `setTimeout`. */
  function ScheduleAll(q: seq<Timer>, now: int, delays: seq<int>, a: Action): (r: seq<Timer>)
    ensures |r| == |q| + |delays|
    decreases |delays|
  {
    if delays == [] then q else ScheduleAll(Insert(q, Timer(now + delays[0], a)), now, delays[1..], a)
  }

  /** Arming adds exactly the armed timers and loses none. */
  lemma {:induction false} ScheduleAllPerm(q: seq<Timer>, now: int, delays: seq<int>, a: Action)
    ensures multiset(ScheduleAll(q, now, delays, a)) == multiset(q) + multiset(Armed(now, delays, a))
    decreases |delays|
  {
    if delays != [] {
      var t := Timer(now + delays[0], a);
      InsertPerm(q, t);
      ScheduleAllPerm(Insert(q, t), now, delays[1..], a);
      assert Armed(now, delays, a) == [t] + Armed(now, delays[1..], a);
    }
  }

  /** Arming the first delay, then the rest. */
  lemma ScheduleAllStep(q: seq<Timer>, now: int, delays: seq<int>, a: Action)
    requires delays != []
    ensures ScheduleAll(q, now, delays, a) == ScheduleAll(Insert(q, Timer(now + delays[0], a)), now, delays[1..], a)
  {
  }

  lemma {:induction false} ScheduleAllValid(q: seq<Timer>, now: int, delays: seq<int>, a: Action)
    requires Sorted(q) && DueFrom(q, now)
    requires forall i :: 0 <= i < |delays| ==> 0 <= delays[i]
    ensures Sorted(ScheduleAll(q, now, delays, a)) && DueFrom(ScheduleAll(q, now, delays, a), now)
    decreases |delays|
  {
    if delays != [] {
      var t := Timer(now + delays[0], a);
      InsertSorted(q, t);
      InsertDueFrom(q, t, now);
      ScheduleAllValid(Insert(q, t), now, delays[1..], a);
    }
  }

  /** `forceRehook`: the flag is cleared and five delayed attempts are armed. */
  function ForceRehook(n: Nav): (r: Nav)
    ensures !r.cadmiumHooked && r.rehooks == n.rehooks + 1 && |r.pending| == |n.pending| + |RehookDelays|
    ensures r.(cadmiumHooked := n.cadmiumHooked, pending := n.pending, rehooks := n.rehooks) == n
  {
    n.(cadmiumHooked := false, pending := ScheduleAll(n.pending, n.now, RehookDelays, AttemptHook),
       rehooks := n.rehooks + 1)
  }

  /** `hookCadmium`'s flag logic: nothing once hooked; hooked once the player exists. */
  function HookCadmium(n: Nav, playerPresent: bool): (r: Nav)
    ensures r.cadmiumHooked <==> n.cadmiumHooked || playerPresent
  {
    if n.cadmiumHooked then n
    else if playerPresent then n.(cadmiumHooked := true)
    else n
  }

  /** One run of the 200 ms URL poll, `location` being `href` and `pathname`. */
  function Poll(n: Nav, href: string, pathname: string): (r: Nav)
    ensures href == n.lastHref ==> r == n
    ensures r.lastHref == href && r.now == n.now && r.hookInterval == n.hookInterval
    ensures r.rehooks == n.rehooks + 1 <==>
              href != n.lastHref && OnWatchPath(pathname) && WatchId(pathname) != n.lastWatchId
    ensures r.rehooks == n.rehooks ==> r.pending == n.pending && r.cadmiumHooked == n.cadmiumHooked
  {
    if href == n.lastHref then n
    else
      var n1 := n.(lastHref := href);
      var id := WatchId(pathname);
      if OnWatchPath(pathname) then
        if id != n.lastWatchId then ForceRehook(n1.(lastWatchId := id)) else n1
      else n1.(lastWatchId := None)
  }

  /** The delayed history / popstate check: a rehook only for a non-null id that differs. */
  function CheckHistory(n: Nav, pathname: string): (r: Nav)
    ensures r == n ||
            (r.rehooks == n.rehooks + 1 && r.lastWatchId == WatchId(pathname) && r.lastWatchId.Some? &&
             r.lastWatchId != n.lastWatchId && !r.cadmiumHooked)
    ensures r != n <==> WatchId(pathname).Some? && WatchId(pathname) != n.lastWatchId
  {
    var id := WatchId(pathname);
    if id.Some? && id != n.lastWatchId then ForceRehook(n.(lastWatchId := id)) else n
  }

  /** `pushState`, `replaceState` or `popstate`: the check is armed 50 ms ahead. */
  function HistoryChanged(n: Nav): (r: Nav)
    ensures multiset(r.pending) == multiset(n.pending) + multiset{Timer(n.now + HistoryDelay, HistoryCheck)}
    ensures r.(pending := n.pending) == n
  {
    InsertPerm(n.pending, Timer(n.now + HistoryDelay, HistoryCheck));
    n.(pending := Insert(n.pending, Timer(n.now + HistoryDelay, HistoryCheck)))
  }

  /** A `message` event whose `data.type` is `msgType` (`None`: no such property). */
  function Message(n: Nav, msgType: Option<string>): (r: Nav)
    ensures r.rehooks == n.rehooks + 1 <==> msgType == Some(ReinitType)
    ensures msgType != Some(ReinitType) ==> r == n
  {
    if msgType == Some(ReinitType) then ForceRehook(n) else n
  }

  /** Whether a batch of mutation records adds a node that is or contains a video. */
  predicate AddsVideo(mutations: seq<seq<Node>>)
  {
    exists i, j :: 0 <= i < |mutations| && 0 <= j < |mutations[i]| && ShowsVideo(mutations[i][j])
  }

  /** The video-creation observer: at most one rehook per batch. */
  function VideoAdded(n: Nav, mutations: seq<seq<Node>>): (r: Nav)
    ensures r.rehooks == n.rehooks + 1 <==> AddsVideo(mutations)
    ensures !AddsVideo(mutations) ==> r == n
  {
    if AddsVideo(mutations) then ForceRehook(n) else n
  }

  /** Time passes without reaching any pending timer (the poll and page events happen at `now`). */
  function Advance(n: Nav, t: int): (r: Nav)
    requires n.now <= t && (n.pending == [] || t <= n.pending[0].due)
    ensures Valid(n) ==> Valid(r)
  {
    n.(now := t)
  }

  /** The earliest timer fires; `pathname` and `playerPresent` describe the page at that moment. */
  function Fire(n: Nav, pathname: string, playerPresent: bool): (r: Nav)
    requires n.pending != []
    ensures r.now == n.pending[0].due && r.lastHref == n.lastHref
    ensures r.hookInterval ==> n.hookInterval
    ensures n.cadmiumHooked && r.rehooks == n.rehooks ==> r.cadmiumHooked
    ensures r.rehooks == n.rehooks + 1 <==>
              n.pending[0].action == HistoryCheck &&
              WatchId(pathname).Some? && WatchId(pathname) != n.lastWatchId
  {
    var t := n.pending[0];
    var n1 := n.(now := t.due, pending := n.pending[1..]);
    match t.action
    case AttemptHook => if !n1.cadmiumHooked then HookCadmium(n1, playerPresent) else n1
    case HistoryCheck => CheckHistory(n1, pathname)
    case HookTick =>
      if !n1.hookInterval then n1
      else
        var n2 := HookCadmium(n1, playerPresent);
        if n2.cadmiumHooked then n2.(hookInterval := false)
        else n2.(pending := Insert(n2.pending, Timer(n2.now + HookPeriod, HookTick)))
    case StopHookInterval => n1.(hookInterval := false)
  }

  /** The state at the end of the script's first run. */
  function Init(href: string, pathname: string): (n: Nav)
    ensures Valid(n)
  {
    Nav(WatchId(pathname), href, false, true, 0, [Timer(HookPeriod, HookTick), Timer(HookDeadline, StopHookInterval)], 0)
  }

  // ---------------------------------------------------------------------
  // Properties
  // ---------------------------------------------------------------------

  lemma InsertValid(n: Nav, t: Timer)
    requires Valid(n) && n.now <= t.due
    ensures Valid(n.(pending := Insert(n.pending, t)))
  {
    InsertSorted(n.pending, t);
    InsertDueFrom(n.pending, t, n.now);
  }

  /** `forceRehook` clears the flag and arms exactly the five attempts, and keeps the queue valid. */
  lemma ForceRehookSpec(n: Nav)
    requires Valid(n)
    ensures var r := ForceRehook(n);
            Valid(r) && !r.cadmiumHooked && r.rehooks == n.rehooks + 1 &&
            multiset(r.pending) == multiset(n.pending) + multiset(RehookTimers(n.now))
  {
    ForceRehookArms(n);
    ScheduleAllValid(n.pending, n.now, RehookDelays, AttemptHook);
  }

  lemma ForceRehookArms(n: Nav)
    ensures multiset(ForceRehook(n).pending) == multiset(n.pending) + multiset(RehookTimers(n.now))
  {
    var p := ScheduleAll(n.pending, n.now, RehookDelays, AttemptHook);
    RehookTimersArmed(n.now);
    ScheduleAllPerm(n.pending, n.now, RehookDelays, AttemptHook);
    assert multiset(p) == multiset(n.pending) + multiset(RehookTimers(n.now));
  }

  /** The five attempts of `forceRehook`, in the order they are armed. */
  function RehookTimers(now: int): seq<Timer>
  {
    [Timer(now + 100, AttemptHook), Timer(now + 300, AttemptHook), Timer(now + 500, AttemptHook),
     Timer(now + 1000, AttemptHook), Timer(now + 2000, AttemptHook)]
  }

  lemma RehookTimersArmed(now: int)
    ensures Armed(now, RehookDelays, AttemptHook) == RehookTimers(now)
  {
    var r := Armed(now, RehookDelays, AttemptHook);
    assert r == [r[0], r[1], r[2], r[3], r[4]];
  }

  /** `hookCadmium` does nothing once the flag is set, so calling it twice is calling it once. */
  lemma HookCadmiumIdempotent(n: Nav, p: bool, q: bool)
    ensures n.cadmiumHooked ==> HookCadmium(n, p) == n
    ensures HookCadmium(HookCadmium(n, p), q).cadmiumHooked == (n.cadmiumHooked || p || q)
    ensures p ==> HookCadmium(HookCadmium(n, p), q) == HookCadmium(n, p)
  {
  }

  /** The poll does nothing while `href` stays the same. */
  lemma PollUnchangedHref(n: Nav, pathname: string)
    ensures Poll(n, n.lastHref, pathname) == n
  {
  }

  /**
   * After a poll that saw a new `href`, `lastHref` is that href. On a watch
   * path `lastWatchId` becomes the path's id, and a rehook happens exactly
   * when the id differs from the last one; off a watch path `lastWatchId`
   * becomes null and nothing else changes.
   */
  lemma PollSpec(n: Nav, href: string, pathname: string)
    requires Valid(n) && href != n.lastHref
    ensures var r := Poll(n, href, pathname);
            Valid(r) && r.lastHref == href &&
            (OnWatchPath(pathname) ==>
               r.lastWatchId == WatchId(pathname) &&
               (r.rehooks == n.rehooks + 1 <==> WatchId(pathname) != n.lastWatchId) &&
               (WatchId(pathname) == n.lastWatchId ==> r == n.(lastHref := href))) &&
            (!OnWatchPath(pathname) ==> r == n.(lastHref := href, lastWatchId := None))
  {
    if OnWatchPath(pathname) && WatchId(pathname) != n.lastWatchId {
      ForceRehookSpec(n.(lastHref := href, lastWatchId := WatchId(pathname)));
    }
  }

  /** The history check rehooks exactly for a non-null id that differs from the last one. */
  lemma CheckHistorySpec(n: Nav, pathname: string)
    requires Valid(n)
    ensures var r := CheckHistory(n, pathname);
            var id := WatchId(pathname);
            Valid(r) &&
            (r.rehooks == n.rehooks + 1 <==> id.Some? && id != n.lastWatchId) &&
            (r.rehooks == n.rehooks + 1 ==> r.lastWatchId == id && !r.cadmiumHooked) &&
            (r.rehooks == n.rehooks ==> r == n)
  {
    var id := WatchId(pathname);
    if id.Some? && id != n.lastWatchId {
      ForceRehookSpec(n.(lastWatchId := id));
    }
  }

  /**
   * A move to a new video seen by both the poll and the history check costs
   * one rehook cycle, whichever of the two runs first, and both orders end
   * with the same `lastWatchId`.
   */
  lemma OneRehookPerVideo(n: Nav, href: string, pathname: string)
    requires Valid(n) && href != n.lastHref && OnWatchPath(pathname)
    requires WatchId(pathname).Some? && WatchId(pathname) != n.lastWatchId
    ensures CheckHistory(Poll(n, href, pathname), pathname).rehooks == n.rehooks + 1
    ensures Poll(CheckHistory(n, pathname), href, pathname).rehooks == n.rehooks + 1
    ensures CheckHistory(Poll(n, href, pathname), pathname).lastWatchId ==
            Poll(CheckHistory(n, pathname), href, pathname).lastWatchId == WatchId(pathname)
  {
    PollSpec(n, href, pathname);
    CheckHistorySpec(n, pathname);
    var a := Poll(n, href, pathname);
    CheckHistorySpec(a, pathname);
    var b := CheckHistory(n, pathname);
    PollSpec(b, href, pathname);
  }

  /** Every event keeps the timer queue valid. */
  lemma FireValid(n: Nav, pathname: string, playerPresent: bool)
    requires Valid(n) && n.pending != []
    ensures Valid(Fire(n, pathname, playerPresent))
  {
    var t := n.pending[0];
    var n1 := n.(now := t.due, pending := n.pending[1..]);
    assert Valid(n1);
    match t.action
    case AttemptHook =>
    case HistoryCheck => CheckHistorySpec(n1, pathname);
    case HookTick =>
      if n1.hookInterval {
        var n2 := HookCadmium(n1, playerPresent);
        if !n2.cadmiumHooked {
          InsertValid(n2, Timer(n2.now + HookPeriod, HookTick));
        }
      }
    case StopHookInterval =>
  }

  lemma HistoryChangedValid(n: Nav)
    requires Valid(n)
    ensures Valid(HistoryChanged(n))
  {
    InsertValid(n, Timer(n.now + HistoryDelay, HistoryCheck));
  }

  lemma MessageValid(n: Nav, msgType: Option<string>)
    requires Valid(n)
    ensures Valid(Message(n, msgType))
    ensures Message(n, msgType).rehooks == if msgType == Some(ReinitType) then n.rehooks + 1 else n.rehooks
  {
    if msgType == Some(ReinitType) {
      ForceRehookSpec(n);
    }
  }

  lemma VideoAddedValid(n: Nav, mutations: seq<seq<Node>>)
    requires Valid(n)
    ensures Valid(VideoAdded(n, mutations))
    ensures VideoAdded(n, mutations).rehooks == if AddsVideo(mutations) then n.rehooks + 1 else n.rehooks
  {
    if AddsVideo(mutations) {
      ForceRehookSpec(n);
    }
  }

  /** Once stopped, the hook interval never runs again: neither a rehook nor a timer restarts it. */
  lemma HookIntervalStaysStopped(n: Nav, pathname: string, playerPresent: bool)
    requires !n.hookInterval
    ensures n.pending != [] ==> !Fire(n, pathname, playerPresent).hookInterval
  {
  }

  /** Once the player is hooked, a delayed attempt only leaves the queue. */
  lemma AttemptAfterHook(n: Nav, pathname: string, playerPresent: bool)
    requires n.pending != [] && n.pending[0].action == AttemptHook && n.cadmiumHooked
    ensures Fire(n, pathname, playerPresent) == n.(now := n.pending[0].due, pending := n.pending[1..])
  {
  }

  /** A hook tick that finds the player stops the interval, and the tick is not armed again. */
  lemma HookTickStops(n: Nav, pathname: string)
    requires n.pending != [] && n.pending[0].action == HookTick && n.hookInterval
    ensures var r := Fire(n, pathname, true);
            r.cadmiumHooked && !r.hookInterval && r.pending == n.pending[1..]
  {
  }
}
