/**
 * The parts of the live document the controller touches: the `<video>`
 * elements whose playback fields it writes, their layout parents, and a
 * snapshot of the document tree, light and shadow, as the scanner sees it.
 */
module Page {
  import opened Wrappers
  import Router

  /** The computed `position` of an element. */
  datatype Position = Static | Relative | Absolute | Fixed | Sticky

  /** A video's `parentElement`; the feedback overlay is appended to it. */
  class ParentElement {
    var position: Position

    constructor (position: Position)
      ensures this.position == position
    {
      this.position := position;
    }
  }

  /** The identity of a `<video>` element, as JavaScript's `===` compares elements. */
  type VideoId = nat

  /** An HTML `<video>` element: the playback fields the keydown handler writes. */
  class VideoElement {
    const id: VideoId
    var paused: bool
    var muted: bool
    var currentTime: real
    var volume: real
    const duration: real
    var parent: ParentElement?

    constructor (id: VideoId, duration: real, parent: ParentElement?)
      ensures paused && !muted && currentTime == 0.0 && volume == 1.0
      ensures this.id == id && this.duration == duration && this.parent == parent
    {
      this.id := id;
      paused, muted, currentTime, volume := true, false, 0.0, 1.0;
      this.duration := duration;
      this.parent := parent;
    }

    /** The playback state as a value. */
    function State(): Router.Playback
      reads this
    {
      Router.Playback(paused, muted, currentTime, volume, duration)
    }
  }

  /**
   * A video as the scanner meets it: the element's identity and its layout at
   * scan time, that is whether `offsetParent` is non-null, and the width and
   * height of its bounding rectangle in whole CSS pixels.
   */
  datatype Video = Video(id: VideoId, hasOffsetParent: bool, width: nat, height: nat)

  /**
   * An element of the document: a `<video>` or not, its children in document
   * order, and the shadow root attached to it, if any.
   */
  datatype Node = Node(video: Option<Video>, children: seq<Node>, shadow: Shadow)

  /** `el.shadowRoot` is the root of an open shadow tree and `null` for a closed one. */
  datatype Shadow = NoShadow | OpenShadow(nodes: seq<Node>) | ClosedShadow(nodes: seq<Node>)

  /** The number of elements in a subtree, counting shadow trees: the scan's termination measure. */
  function NodeSize(n: Node): nat
  {
    1 + ForestSize(n.children) + ShadowSize(n.shadow)
  }

  function ShadowSize(s: Shadow): nat
  {
    match s
    case NoShadow => 0
    case OpenShadow(ns) => ForestSize(ns)
    case ClosedShadow(ns) => ForestSize(ns)
  }

  function ForestSize(ns: seq<Node>): nat
  {
    if ns == [] then 0 else NodeSize(ns[0]) + ForestSize(ns[1..])
  }

  /** The first element's own subtrees and the later siblings are each smaller than the forest. */
  lemma ForestSizeParts(ns: seq<Node>)
    requires ns != []
    ensures ForestSize(ns[0].children) < ForestSize(ns)
    ensures ShadowSize(ns[0].shadow) < ForestSize(ns)
    ensures ForestSize(ns[1..]) < ForestSize(ns)
  {
  }

  /** A shadow tree is smaller than its host. */
  lemma ShadowSmaller(n: Node)
    ensures n.shadow.OpenShadow? || n.shadow.ClosedShadow? ==> ForestSize(n.shadow.nodes) < NodeSize(n)
  {
  }
}
