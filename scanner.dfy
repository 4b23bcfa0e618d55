/**
 * The scan of `findMainVideo` (universal-video-controller/content.js:91-98):
 * `collectVideos(root)` appends every `<video>` below `root` in document
 * order, then descends into the shadow root of every element below `root`,
 * again in document order.
 */
module Scanner {
  import opened Wrappers
  import opened Page

  /** `root.querySelectorAll('*')`: every element below `root` in document order, not crossing shadow roots. */
  function Descendants(root: seq<Node>): (r: seq<Node>)
    ensures forall d :: d in r ==> NodeSize(d) <= ForestSize(root)
    ensures |r| >= |root|
    decreases ForestSize(root)
  {
    if root == [] then []
    else
      ForestSizeParts(root);
      [root[0]] + Descendants(root[0].children) + Descendants(root[1..])
  }

  /** The element itself, when it is a video. */
  function Own(n: Node): (r: seq<Video>)
    ensures |r| <= 1
  {
    if n.video.Some? then [n.video.value] else []
  }

  /** The videos among `ds`, in order: with `ds` the descendants, `querySelectorAll('video')`. */
  function VideosOf(ds: seq<Node>): (r: seq<Video>)
    ensures |r| <= |ds|
  {
    if ds == [] then [] else Own(ds[0]) + VideosOf(ds[1..])
  }

  /** `if (el.shadowRoot) collectVideos(el.shadowRoot)` for one element `el`. */
  function ShadowOf(el: Node): seq<Video>
    decreases NodeSize(el), 0
  {
    ShadowSmaller(el);
    match el.shadow
    case OpenShadow(nodes) => Collect(nodes)
    case _ => []
  }

  /** What the shadow descent contributes for the elements `ds` below `root`, in order. */
  function ShadowsOf(ds: seq<Node>, root: seq<Node>): seq<Video>
    requires forall d :: d in ds ==> NodeSize(d) <= ForestSize(root)
    decreases ForestSize(root), 1, |ds|
  {
    if ds == [] then []
    else
      ShadowSmaller(ds[0]);
      ShadowOf(ds[0]) + ShadowsOf(ds[1..], root)
  }

  /** `collectVideos(root)`: the list the scan builds, in the order it builds it. */
  function Collect(root: seq<Node>): seq<Video>
    decreases ForestSize(root), 2
  {
    var all := Descendants(root);
    VideosOf(all) + ShadowsOf(all, root)
  }

  /**
   * Reference definition of what the scan should find: the videos of the
   * tree composed with its open shadow trees, counted once each and in no
   * particular order.
   */
  function Reachable(ns: seq<Node>): multiset<Video>
    decreases ForestSize(ns), 1
  {
    if ns == [] then multiset{}
    else
      ForestSizeParts(ns);
      multiset(Own(ns[0])) + Reachable(ns[0].children) + ShadowReach(ns[0]) + Reachable(ns[1..])
  }

  function ShadowReach(n: Node): multiset<Video>
    decreases NodeSize(n), 0
  {
    ShadowSmaller(n);
    match n.shadow
    case OpenShadow(nodes) => Reachable(nodes)
    case _ => multiset{}
  }

  lemma {:induction false} VideosOfAppend(a: seq<Node>, b: seq<Node>)
    ensures VideosOf(a + b) == VideosOf(a) + VideosOf(b)
  {
    if a == [] {
      assert a + b == b;
    } else {
      var ab := a + b;
      assert ab != [] && ab[0] == a[0] && ab[1..] == a[1..] + b;
      VideosOfAppend(a[1..], b);
      calc {
        VideosOf(ab);
        Own(a[0]) + VideosOf(a[1..] + b);
        Own(a[0]) + (VideosOf(a[1..]) + VideosOf(b));
        (Own(a[0]) + VideosOf(a[1..])) + VideosOf(b);
      }
    }
  }

  lemma {:induction false} ShadowsOfAppend(a: seq<Node>, b: seq<Node>, root: seq<Node>)
    requires forall d :: d in a + b ==> NodeSize(d) <= ForestSize(root)
    ensures ShadowsOf(a + b, root) == ShadowsOf(a, root) + ShadowsOf(b, root)
  {
    if a == [] {
      assert a + b == b;
    } else {
      var ab := a + b;
      assert ab != [] && ab[0] == a[0] && ab[1..] == a[1..] + b;
      assert forall d :: d in a ==> NodeSize(d) <= ForestSize(root) by {
        assert forall d :: d in a ==> d in ab;
      }
      assert forall d :: d in a[1..] + b ==> NodeSize(d) <= ForestSize(root) by {
        assert forall d :: d in a[1..] + b ==> d in ab;
      }
      ShadowsOfAppend(a[1..], b, root);
      ShadowsOfCons(ab, root);
      ShadowsOfCons(a, root);
    }
  }

  /** One step of `ShadowsOf`. */
  lemma ShadowsOfCons(ds: seq<Node>, root: seq<Node>)
    requires ds != []
    requires forall d :: d in ds ==> NodeSize(d) <= ForestSize(root)
    ensures ShadowsOf(ds, root) == ShadowOf(ds[0]) + ShadowsOf(ds[1..], root)
  {
  }

  /** `ShadowsOf` over a longer prefix. */
  lemma ShadowsOfSnoc(ds: seq<Node>, j: nat, root: seq<Node>)
    requires j < |ds|
    requires forall d :: d in ds ==> NodeSize(d) <= ForestSize(root)
    ensures forall d :: d in ds[..j] ==> NodeSize(d) <= ForestSize(root)
    ensures ShadowsOf(ds[..j + 1], root) == ShadowsOf(ds[..j], root) + ShadowOf(ds[j])
  {
    var pre, last := ds[..j], [ds[j]];
    assert ds[..j + 1] == pre + last;
    assert forall d :: d in pre + last ==> d in ds;
    ShadowsOfAppend(pre, last, root);
    ShadowsOfCons(last, root);
    assert last[1..] == [];
  }

  /** The root passed along only bounds the recursion; it does not change the result. */
  lemma {:induction false} ShadowsOfAnyRoot(ds: seq<Node>, root: seq<Node>, root': seq<Node>)
    requires forall d :: d in ds ==> NodeSize(d) <= ForestSize(root)
    requires forall d :: d in ds ==> NodeSize(d) <= ForestSize(root')
    ensures ShadowsOf(ds, root) == ShadowsOf(ds, root')
  {
    if ds != [] {
      ShadowsOfAnyRoot(ds[1..], root, root');
    }
  }

  /** The scan of a forest, split into the parts its first element and the later siblings contribute. */
  lemma CollectSplit(root: seq<Node>)
    requires root != []
    ensures ForestSize(root[0].children) < ForestSize(root) && ForestSize(root[1..]) < ForestSize(root)
    ensures var n, rest := root[0], root[1..];
      var dc, dr := Descendants(n.children), Descendants(rest);
      Collect(root) ==
        (Own(n) + VideosOf(dc) + VideosOf(dr)) + (ShadowOf(n) + ShadowsOf(dc, n.children) + ShadowsOf(dr, rest))
  {
    ForestSizeParts(root);
    var n, rest := root[0], root[1..];
    var dc, dr := Descendants(n.children), Descendants(rest);
    var all := Descendants(root);
    assert all == [n] + dc + dr;
    assert VideosOf([n]) == Own(n) by { assert [n][1..] == []; }
    assert ShadowsOf([n], root) == ShadowOf(n) by { assert [n][1..] == []; }
    VideosOfAppend([n] + dc, dr);
    VideosOfAppend([n], dc);
    ShadowsOfAppend([n] + dc, dr, root);
    ShadowsOfAppend([n], dc, root);
    ShadowsOfAnyRoot(dc, root, n.children);
    ShadowsOfAnyRoot(dr, root, rest);
  }

  /**
   * Scan completeness: the scan lists every video of the light tree and of
   * every open shadow tree, recursively, exactly as often as it occurs, and
   * nothing else.
   */
  lemma {:induction false} ScanComplete(root: seq<Node>)
    ensures multiset(Collect(root)) == Reachable(root)
    decreases ForestSize(root)
  {
    if root != [] {
      CollectSplit(root);
      var n, rest := root[0], root[1..];
      var dc, dr := Descendants(n.children), Descendants(rest);
      ScanComplete(n.children);
      ScanComplete(rest);
      assert multiset(ShadowOf(n)) == ShadowReach(n) by {
        match n.shadow
        case OpenShadow(nodes) =>
          ShadowSmaller(n);
          ScanComplete(nodes);
        case _ =>
      }
      var o, sn := Own(n), ShadowOf(n);
      var vc, sc := VideosOf(dc), ShadowsOf(dc, n.children);
      var vr, sr := VideosOf(dr), ShadowsOf(dr, rest);
      Regroup(o, vc, vr, sn, sc, sr);
      assert vc + sc == Collect(n.children);
      assert vr + sr == Collect(rest);
    }
  }

  /** The parts of a split scan, regrouped by the subtree they come from. */
  lemma Regroup(o: seq<Video>, vc: seq<Video>, vr: seq<Video>, sn: seq<Video>, sc: seq<Video>, sr: seq<Video>)
    ensures multiset((o + vc + vr) + (sn + sc + sr)) ==
      multiset(o) + multiset(vc + sc) + multiset(sn) + multiset(vr + sr)
  {
  }

  /** The `videos` array that `collectVideos` pushes into. */
  class VideoList {
    var items: seq<Video>

    constructor ()
      ensures items == []
    {
      items := [];
    }

    /** `found.forEach(v => videos.push(v))`. */
    method PushAll(found: seq<Video>)
      modifies this
      ensures items == old(items) + found
    {
      var i := 0;
      while i < |found|
        invariant 0 <= i <= |found|
        invariant items == old(items) + found[..i]
      {
        items := items + [found[i]];
        i := i + 1;
      }
      assert found[..i] == found;
    }
  }

  /**
   * `collectVideos(root)`: push the videos below `root`, then recurse into
   * the shadow root of each element below `root`.
   */
  method CollectVideos(root: seq<Node>, videos: VideoList)
    modifies videos
    ensures videos.items == old(videos.items) + Collect(root)
    decreases ForestSize(root)
  {
    var found := VideosOf(Descendants(root));
    videos.PushAll(found);
    var all := Descendants(root);
    var j := 0;
    while j < |all|
      invariant 0 <= j <= |all|
      invariant videos.items == old(videos.items) + found + ShadowsOf(all[..j], root)
    {
      ShadowsOfSnoc(all, j, root);
      match all[j].shadow {
        case OpenShadow(nodes) =>
          ShadowSmaller(all[j]);
          CollectVideos(nodes, videos);
        case _ =>
      }
      j := j + 1;
    }
    assert all[..j] == all;
  }
}
