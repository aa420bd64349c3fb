/**
 * The navigation handling of inject.js as the page runs it: the `let`
 * bindings its callbacks update and the timers they arm.
 */
module NavigationState {
  import opened Wrappers
  import opened Url
  import opened Dom
  import opened Navigation

  /**
   * The `let` bindings of the navigation handling and the timers they arm;
   * each method is one callback, proved to leave the state the function of
   * the same name describes.
   */
  class Navigator {
    var lastWatchId: Option<string>
    var lastHref: string
    var cadmiumHooked: bool
    var hookInterval: bool
    var now: int
    var pending: seq<Timer>
    var rehooks: nat

    function Snapshot(): Nav
      reads this
    {
      Nav(lastWatchId, lastHref, cadmiumHooked, hookInterval, now, pending, rehooks)
    }

    /** The end of the script's first run on a page at `href` with path `pathname`. */
    constructor Init(href: string, pathname: string)
      ensures Snapshot() == Navigation.Init(href, pathname)
    {
      lastWatchId := None;
      lastHref := href;
      cadmiumHooked := false;
      hookInterval := true;
      now := 0;
      rehooks := 0;
      var q := Insert([], Timer(HookPeriod, HookTick));
      assert q == [Timer(HookPeriod, HookTick)];
      var q' := Insert(q, Timer(HookDeadline, StopHookInterval));
      assert q' == [q[0]] + Insert([], Timer(HookDeadline, StopHookInterval));
      pending := q';
      var initial := WatchId(pathname);
      if initial.Some? {
        lastWatchId := initial;
      }
    }

    method SetTimeout(delay: int, a: Action)
      modifies this
      ensures Snapshot() == old(Snapshot()).(pending := Insert(old(pending), Timer(old(now) + delay, a)))
    {
      pending := Insert(pending, Timer(now + delay, a));
    }

    /** `delays.forEach(delay => setTimeout(…, delay))` for the action `a`. */
    method ArmAll(delays: seq<int>, a: Action)
      modifies this
      ensures pending == ScheduleAll(old(pending), old(now), delays, a)
      ensures lastWatchId == old(lastWatchId) && lastHref == old(lastHref) && cadmiumHooked == old(cadmiumHooked)
      ensures hookInterval == old(hookInterval) && now == old(now) && rehooks == old(rehooks)
    {
      for i := 0 to |delays|
        invariant ScheduleAll(pending, now, delays[i..], a) == ScheduleAll(old(pending), old(now), delays, a)
        invariant lastWatchId == old(lastWatchId) && lastHref == old(lastHref) && cadmiumHooked == old(cadmiumHooked)
        invariant hookInterval == old(hookInterval) && now == old(now) && rehooks == old(rehooks)
      {
        ScheduleAllStep(pending, now, delays[i..], a);
        assert delays[i..][1..] == delays[i + 1..];
        SetTimeout(delays[i], a);
      }
      assert delays[|delays|..] == [];
    }

    method ForceRehook()
      modifies this
      ensures Snapshot() == Navigation.ForceRehook(old(Snapshot()))
    {
      ArmAll(RehookDelays, AttemptHook);
      cadmiumHooked := false;
      rehooks := rehooks + 1;
    }

    method HookCadmium(playerPresent: bool)
      modifies this
      ensures Snapshot() == Navigation.HookCadmium(old(Snapshot()), playerPresent)
    {
      if cadmiumHooked {
        return;
      }
      if playerPresent {
        cadmiumHooked := true;
      }
    }

    method Poll(href: string, pathname: string)
      modifies this
      ensures Snapshot() == Navigation.Poll(old(Snapshot()), href, pathname)
    {
      if href != lastHref {
        lastHref := href;
        var newWatchId := WatchId(pathname);
        if OnWatchPath(pathname) {
          if newWatchId != lastWatchId {
            lastWatchId := newWatchId;
            ForceRehook();
          }
        } else {
          lastWatchId := None;
        }
      }
    }

    method CheckHistory(pathname: string)
      modifies this
      ensures Snapshot() == Navigation.CheckHistory(old(Snapshot()), pathname)
    {
      var watchId := WatchId(pathname);
      if watchId.Some? && watchId != lastWatchId {
        lastWatchId := watchId;
        ForceRehook();
      }
    }

    method HistoryChanged()
      modifies this
      ensures Snapshot() == Navigation.HistoryChanged(old(Snapshot()))
    {
      SetTimeout(HistoryDelay, HistoryCheck);
    }

    method Message(msgType: Option<string>)
      modifies this
      ensures Snapshot() == Navigation.Message(old(Snapshot()), msgType)
    {
      if msgType == Some(ReinitType) {
        ForceRehook();
      }
    }

    /** The video-creation observer's loops, left at the first node that shows a video. */
    method VideoAdded(mutations: seq<seq<Node>>)
      modifies this
      ensures Snapshot() == Navigation.VideoAdded(old(Snapshot()), mutations)
    {
      for i := 0 to |mutations|
        invariant Snapshot() == old(Snapshot())
        invariant forall i', j :: 0 <= i' < i && 0 <= j < |mutations[i']| ==> !ShowsVideo(mutations[i'][j])
      {
        var added := mutations[i];
        for j := 0 to |added|
          invariant Snapshot() == old(Snapshot())
          invariant forall j' :: 0 <= j' < j ==> !ShowsVideo(added[j'])
        {
          if ShowsVideo(added[j]) {
            ForceRehook();
            return;
          }
        }
      }
    }

    /** Time passes up to `t`, short of the next timer. */
    method Advance(t: int)
      requires now <= t && (pending == [] || t <= pending[0].due)
      modifies this
      ensures Snapshot() == Navigation.Advance(old(Snapshot()), t)
    {
      now := t;
    }

    /** The earliest pending timer fires. */
    method Fire(pathname: string, playerPresent: bool)
      requires pending != []
      modifies this
      ensures Snapshot() == Navigation.Fire(old(Snapshot()), pathname, playerPresent)
    {
      var t := pending[0];
      now, pending := t.due, pending[1..];
      match t.action
      case AttemptHook =>
        if !cadmiumHooked {
          HookCadmium(playerPresent);
        }
      case HistoryCheck =>
        CheckHistory(pathname);
      case HookTick =>
        if hookInterval {
          HookCadmium(playerPresent);
          if cadmiumHooked {
            hookInterval := false;
          } else {
            SetTimeout(HookPeriod, HookTick);
          }
        }
      case StopHookInterval =>
        hookInterval := false;
    }
  }
}
