/**
 * The content script as the page runs it: its two `let` bindings and the
 * messages it has posted.
 */
module ContentState {
  import opened Wrappers
  import opened Url
  import opened Dom
  import opened Content

  class ContentScript {
    var lastUrl: string
    var lastVideoId: Option<string>
    /** The `reason`s of the messages posted so far, oldest first. */
    var posted: seq<Reason>

    function Current(): Tracker
      reads this
    {
      Tracker(lastUrl, lastVideoId)
    }

    /** The script's first run on a page at `href` with path `pathname`. */
    constructor Load(href: string, pathname: string)
      ensures Current() == Start(href, pathname) && posted == []
    {
      lastUrl := href;
      lastVideoId := None;
      posted := [];
      lastVideoId := WatchId(pathname);
    }

    /** `signalReinit(reason)`. */
    method SignalReinit(reason: Reason)
      modifies this
      ensures Current() == old(Current()) && posted == old(posted) + [reason]
    {
      posted := posted + [reason];
    }

    /** `checkNavigation()`, run by the poll and 50 ms after each history change. */
    method CheckNavigation(href: string, pathname: string)
      modifies this
      ensures var c := Content.CheckNavigation(old(Current()), href, pathname);
              Current() == c.tracker && posted == old(posted) + c.signals
    {
      if href != lastUrl {
        lastUrl := href;
        var videoId := WatchId(pathname);
        if OnWatchPath(pathname) {
          if videoId != lastVideoId {
            lastVideoId := videoId;
            SignalReinit(NewVideo(videoId));
          } else {
            SignalReinit(WatchUrlChanged);
          }
        } else {
          lastVideoId := None;
        }
      }
    }

    /** The body of the inner loop: one added node. */
    method ObserveNode(node: Node)
      modifies this
      ensures Current() == old(Current()) && posted == old(posted) + NodeSignals(node)
    {
      if node.Element? {
        if IsPlayerContainer(node) {
          SignalReinit(PlayerContainer);
        }
        if ShowsVideo(node) {
          SignalReinit(VideoElement);
        }
      }
    }

    /** The loop over one mutation record's added nodes. */
    method ObserveNodes(added: seq<Node>)
      modifies this
      ensures Current() == old(Current()) && posted == old(posted) + NodesSignals(added)
    {
      for j := 0 to |added|
        invariant Current() == old(Current())
        invariant posted == old(posted) + NodesSignals(added[..j])
      {
        NodesSignalsSnoc(added, j);
        AppendAssoc(old(posted), NodesSignals(added[..j]), NodeSignals(added[j]));
        ObserveNode(added[j]);
      }
      assert added[..|added|] == added;
    }

    /** The observer callback's loop over the mutation records. */
    method Observe(mutations: seq<seq<Node>>)
      modifies this
      ensures Current() == old(Current()) && posted == old(posted) + ObserverSignals(mutations)
    {
      for i := 0 to |mutations|
        invariant Current() == old(Current())
        invariant posted == old(posted) + ObserverSignals(mutations[..i])
      {
        ObserverSignalsSnoc(mutations, i);
        AppendAssoc(old(posted), ObserverSignals(mutations[..i]), NodesSignals(mutations[i]));
        ObserveNodes(mutations[i]);
      }
      assert mutations[..|mutations|] == mutations;
    }
  }
}
