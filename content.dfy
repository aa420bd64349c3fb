/**
 * The content script's companion state machine (content.js:20-114): it
 * follows the page's URL with `lastUrl` and `lastVideoId` and, through
 * `signalReinit`, posts `NETFLIX_4K_REINIT` messages that the injected
 * script answers with a rehook. The page's location is passed in; posted
 * messages are collected in order.
 */
module Content {
  import opened Wrappers
  import opened Strings
  import opened Url
  import opened Dom
  import opened Navigation

  /** The `reason` of a posted reinit message. */
  datatype Reason =
    | NewVideo(videoId: Option<string>)  // "new video <id>"
    | WatchUrlChanged                    // "watch URL changed"
    | PlayerContainer                    // "player container detected"
    | VideoElement                       // "video element detected"

  datatype Tracker = Tracker(lastUrl: string, lastVideoId: Option<string>)

  /** The state after `checkNavigation` and the signals it posted. */
  datatype Checked = Checked(tracker: Tracker, signals: seq<Reason>)

  /**
   * `checkNavigation()` with `location` at `href` and `pathname`: the
   * tracker follows the href, and at most one signal is posted, a URL
   * reason, and only on a watch path.
   */
  function CheckNavigation(t: Tracker, href: string, pathname: string): (c: Checked)
    ensures c.tracker.lastUrl == href && |c.signals| <= 1
    ensures forall x :: x in c.signals ==> x.NewVideo? || x == WatchUrlChanged
    ensures c.signals != [] ==> href != t.lastUrl && OnWatchPath(pathname)
  {
    if href == t.lastUrl then Checked(t, [])
    else
      var videoId := WatchId(pathname);
      if OnWatchPath(pathname) then
        if videoId != t.lastVideoId then Checked(Tracker(href, videoId), [NewVideo(videoId)])
        else Checked(Tracker(href, t.lastVideoId), [WatchUrlChanged])
      else Checked(Tracker(href, None), [])
  }

  /**
   * The signals the observer posts for one added node, in order: "player
   * container detected" exactly when it is marked as the player, then "video
   * element detected" exactly when it is or holds a video; a node that is no
   * element posts nothing.
   */
  function NodeSignals(n: Node): (r: seq<Reason>)
    ensures PlayerContainer in r <==> IsPlayerContainer(n)
    ensures VideoElement in r <==> ShowsVideo(n)
    ensures n.Other? ==> r == []
    ensures r == [] || r == [PlayerContainer] || r == [VideoElement] || r == [PlayerContainer, VideoElement]
  {
    if n.Other? then []
    else (if IsPlayerContainer(n) then [PlayerContainer] else []) + (if ShowsVideo(n) then [VideoElement] else [])
  }

  /** The signals for a list of added nodes: only the two observer reasons. */
  function NodesSignals(nodes: seq<Node>): (r: seq<Reason>)
    ensures forall x :: x in r ==> x == PlayerContainer || x == VideoElement
  {
    if nodes == [] then [] else NodeSignals(nodes[0]) + NodesSignals(nodes[1..])
  }

  /**
   * The observer callback: every mutation record's added nodes, in order.
   * It posts only the two observer reasons, never a URL reason.
   */
  function ObserverSignals(mutations: seq<seq<Node>>): (r: seq<Reason>)
    ensures forall x :: x in r ==> x == PlayerContainer || x == VideoElement
  {
    if mutations == [] then [] else NodesSignals(mutations[0]) + ObserverSignals(mutations[1..])
  }

  /** The signals of a prefix of the added nodes, extended by one node. */
  lemma {:induction false} NodesSignalsSnoc(nodes: seq<Node>, j: nat)
    requires j < |nodes|
    ensures NodesSignals(nodes[..j + 1]) == NodesSignals(nodes[..j]) + NodeSignals(nodes[j])
  {
    if j > 0 {
      NodesSignalsSnoc(nodes[1..], j - 1);
      assert nodes[1..][..j] == nodes[..j + 1][1..];
      assert nodes[1..][..j - 1] == nodes[..j][1..];
    }
  }

  /** The signals of a prefix of the mutation records, extended by one record. */
  lemma {:induction false} ObserverSignalsSnoc(mutations: seq<seq<Node>>, i: nat)
    requires i < |mutations|
    ensures ObserverSignals(mutations[..i + 1]) == ObserverSignals(mutations[..i]) + NodesSignals(mutations[i])
  {
    if i > 0 {
      ObserverSignalsSnoc(mutations[1..], i - 1);
      assert mutations[1..][..i] == mutations[..i + 1][1..];
      assert mutations[1..][..i - 1] == mutations[..i][1..];
    }
  }

  /** Re-association of appended signal lists. */
  lemma AppendAssoc(a: seq<Reason>, b: seq<Reason>, c: seq<Reason>)
    ensures (a + b) + c == a + (b + c)
  {
  }

  /** The state at the end of the script's first run. */
  function Start(href: string, pathname: string): (t: Tracker)
    ensures t.lastUrl == href && t.lastVideoId == WatchId(pathname)
  {
    Tracker(href, WatchId(pathname))
  }

  // ---------------------------------------------------------------------
  // Properties
  // ---------------------------------------------------------------------

  /** Nothing happens while `href` stays the same. */
  lemma CheckUnchangedUrl(t: Tracker, pathname: string)
    ensures CheckNavigation(t, t.lastUrl, pathname) == Checked(t, [])
  {
  }

  /**
   * After a changed `href`, `lastUrl` is that href. On a watch path exactly
   * one signal is posted: a new video carrying its id (which becomes
   * `lastVideoId`) exactly when the id differs, else "watch URL changed"
   * with `lastVideoId` kept. Off a watch path `lastVideoId` becomes null and
   * nothing is posted.
   */
  lemma CheckChangedUrl(t: Tracker, href: string, pathname: string)
    requires href != t.lastUrl
    ensures var c := CheckNavigation(t, href, pathname);
            c.tracker.lastUrl == href &&
            (OnWatchPath(pathname) ==>
               |c.signals| == 1 &&
               (c.signals[0].NewVideo? <==> WatchId(pathname) != t.lastVideoId) &&
               (c.signals[0].NewVideo? ==> c.signals[0].videoId == WatchId(pathname)) &&
               (c.signals[0].NewVideo? ==> c.tracker.lastVideoId == WatchId(pathname)) &&
               (!c.signals[0].NewVideo? ==> c.signals[0] == WatchUrlChanged && c.tracker.lastVideoId == t.lastVideoId)) &&
            (!OnWatchPath(pathname) ==> c.signals == [] && c.tracker.lastVideoId == None)
  {
  }

  /** After a check, the tracker agrees with the page: its `lastUrl` is the href and its id the path's, on a watch path. */
  lemma CheckAgreesWithPage(t: Tracker, href: string, pathname: string)
    requires href != t.lastUrl
    ensures var c := CheckNavigation(t, href, pathname);
            c.tracker.lastUrl == href &&
            c.tracker.lastVideoId == (if OnWatchPath(pathname) then WatchId(pathname) else None)
  {
  }

  /** A second check at the same location does nothing. */
  lemma CheckTwice(t: Tracker, href: string, pathname: string)
    ensures var c := CheckNavigation(t, href, pathname);
            CheckNavigation(c.tracker, href, pathname) == Checked(c.tracker, [])
  {
  }

  lemma {:induction false} NodesSignalsSpec(nodes: seq<Node>, r: Reason)
    ensures r in NodesSignals(nodes) <==>
              exists j :: 0 <= j < |nodes| && r in NodeSignals(nodes[j])
  {
    if nodes != [] {
      NodesSignalsSpec(nodes[1..], r);
      if r in NodesSignals(nodes[1..]) {
        var j :| 0 <= j < |nodes[1..]| && r in NodeSignals(nodes[1..][j]);
        assert r in NodeSignals(nodes[j + 1]);
      }
      forall j | 1 <= j < |nodes| && r in NodeSignals(nodes[j])
        ensures r in NodesSignals(nodes[1..])
      {
        assert nodes[1..][j - 1] == nodes[j];
      }
    }
  }

  /** The observer posts a reason exactly when some added node's signals include it. */
  lemma {:induction false} ObserverSignalsHas(mutations: seq<seq<Node>>, r: Reason)
    ensures r in ObserverSignals(mutations) <==>
              exists i, j :: 0 <= i < |mutations| && 0 <= j < |mutations[i]| && r in NodeSignals(mutations[i][j])
  {
    if mutations != [] {
      ObserverSignalsHas(mutations[1..], r);
      NodesSignalsSpec(mutations[0], r);
      var rest := mutations[1..];
      if r in ObserverSignals(rest) {
        var i, j :| 0 <= i < |rest| && 0 <= j < |rest[i]| && r in NodeSignals(rest[i][j]);
        assert r in NodeSignals(mutations[i + 1][j]);
      }
      forall i, j | 1 <= i < |mutations| && 0 <= j < |mutations[i]| && r in NodeSignals(mutations[i][j])
        ensures r in ObserverSignals(rest)
      {
        assert rest[i - 1] == mutations[i];
      }
    }
  }

  /**
   * The observer posts a "player container" signal exactly when some added
   * element is marked as the player, and a "video element" signal exactly
   * when some added node is or holds a video.
   */
  lemma ObserverSignalsSpec(mutations: seq<seq<Node>>)
    ensures PlayerContainer in ObserverSignals(mutations) <==>
              exists i, j :: 0 <= i < |mutations| && 0 <= j < |mutations[i]| && IsPlayerContainer(mutations[i][j])
    ensures VideoElement in ObserverSignals(mutations) <==> AddsVideo(mutations)
  {
    ObserverSignalsHas(mutations, PlayerContainer);
    ObserverSignalsHas(mutations, VideoElement);
    forall i, j | 0 <= i < |mutations| && 0 <= j < |mutations[i]|
      ensures PlayerContainer in NodeSignals(mutations[i][j]) <==> IsPlayerContainer(mutations[i][j])
      ensures VideoElement in NodeSignals(mutations[i][j]) <==> ShowsVideo(mutations[i][j])
    {
    }
  }

  /** A node that is both the player container and a video posts both signals, container first. */
  lemma BothSignals(n: Node)
    requires IsPlayerContainer(n) && ShowsVideo(n)
    ensures NodeSignals(n) == [PlayerContainer, VideoElement]
  {
  }

  /** The injected script's answer to each posted signal: one `message` event of type `NETFLIX_4K_REINIT`. */
  function Deliver(n: Nav, signals: seq<Reason>): Nav
    decreases |signals|
  {
    if signals == [] then n else Deliver(Message(n, Some(ReinitType)), signals[1..])
  }

  /** Every posted signal costs the injected script one rehook, and its timer queue stays valid. */
  lemma {:induction false} DeliverRehooks(n: Nav, signals: seq<Reason>)
    requires Valid(n)
    ensures Valid(Deliver(n, signals)) && Deliver(n, signals).rehooks == n.rehooks + |signals|
    ensures signals != [] ==> !Deliver(n, signals).cadmiumHooked
    decreases |signals|
  {
    if signals != [] {
      var m := Message(n, Some(ReinitType));
      MessageValid(n, Some(ReinitType));
      assert !m.cadmiumHooked;
      DeliverRehooks(m, signals[1..]);
    }
  }
}
