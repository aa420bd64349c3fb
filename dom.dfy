/**
 * The nodes a `MutationObserver` reports as added, and the tests both
 * scripts apply to them.
 */
module Dom {

  /** An element with its upper-case tag name, class list, id and children; or any other node. */
  datatype Node =
    | Element(tag: string, classes: seq<string>, id: string, children: seq<Node>)
    | Other

  /** `node.tagName === 'VIDEO'` (`nodeName` is the same string for an element). */
  predicate IsVideoElement(n: Node)
  {
    n.Element? && n.tag == "VIDEO"
  }

  /** `node.querySelector('video')` finds something: a proper descendant is a video element. */
  predicate HasVideoBelow(n: Node)
  {
    n.Element? &&
    exists i :: 0 <= i < |n.children| && (IsVideoElement(n.children[i]) || HasVideoBelow(n.children[i]))
  }

  /** The test of both observers' video branch: the node is or contains a video element. */
  predicate ShowsVideo(n: Node)
  {
    IsVideoElement(n) || HasVideoBelow(n)
  }

  /** `classList.contains(c)`. */
  predicate HasClass(classes: seq<string>, c: string)
  {
    classes != [] && (classes[0] == c || HasClass(classes[1..], c))
  }

  /** An element whose own class list or id marks the player (content.js:86-91). */
  predicate IsPlayerContainer(n: Node)
  {
    n.Element? &&
    (HasClass(n.classes, "watch-video") || HasClass(n.classes, "VideoContainer") ||
     HasClass(n.classes, "nf-player-container") || n.id == "appMountPoint")
  }
}
