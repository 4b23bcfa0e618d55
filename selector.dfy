/**
 * The selection of `findMainVideo` (universal-video-controller/content.js:100-113):
 * keep the videos that have an offset parent and are wider and taller than
 * 150 pixels, sort them by area, largest first, with a stable sort, and take
 * the first.
 */
module Selector {
  import opened Wrappers
  import opened Page
  import Scanner

  /** Videos this size or smaller in either direction are thumbnails or previews. */
  const MinSize: nat := 150

  /** The filter's test: laid out, and both sides above the threshold. */
  predicate IsCandidate(v: Video)
  {
    v.hasOffsetParent && v.width > MinSize && v.height > MinSize
  }

  /** The sort key: the bounding rectangle's area. */
  function Area(v: Video): nat
  {
    v.width * v.height
  }

  /** `videos.filter(...)`: the candidates, in scan order. */
  function VisibleVideos(vs: seq<Video>): (r: seq<Video>)
    ensures forall i :: 0 <= i < |r| ==> IsCandidate(r[i])
    ensures forall v :: v in r <==> v in vs && IsCandidate(v)
    ensures |r| <= |vs|
  {
    if vs == [] then []
    else (if IsCandidate(vs[0]) then [vs[0]] else []) + VisibleVideos(vs[1..])
  }

  /** Largest area first. */
  predicate SortedByArea(s: seq<Video>)
  {
    forall i, j :: 0 <= i < j < |s| ==> Area(s[i]) >= Area(s[j])
  }

  /** No element of `s` is larger than `b`. */
  predicate AllAtMost(s: seq<Video>, b: nat)
  {
    forall i :: 0 <= i < |s| ==> Area(s[i]) <= b
  }

  /**
   * Insert `v` ahead of the first element whose area is not larger, so that
   * `v`, which came earlier in the input, stays ahead of equal areas.
   */
  function InsertByArea(v: Video, s: seq<Video>): (r: seq<Video>)
    ensures |r| == |s| + 1
    ensures r[0] == v || (s != [] && r[0] == s[0])
  {
    if s == [] || Area(v) >= Area(s[0]) then [v] + s
    else [s[0]] + InsertByArea(v, s[1..])
  }

  /** Insertion adds exactly `v`. */
  lemma {:induction false} InsertPermutes(v: Video, s: seq<Video>)
    ensures multiset(InsertByArea(v, s)) == multiset{v} + multiset(s)
  {
    if s != [] && Area(v) < Area(s[0]) {
      InsertPermutes(v, s[1..]);
      assert s == [s[0]] + s[1..];
    }
  }

  /** Insertion keeps a common upper bound. */
  lemma {:induction false} InsertAtMost(v: Video, s: seq<Video>, b: nat)
    requires Area(v) <= b && AllAtMost(s, b)
    ensures AllAtMost(InsertByArea(v, s), b)
  {
    if s != [] && Area(v) < Area(s[0]) {
      InsertAtMost(v, s[1..], b);
    }
  }

  /** Insertion into a sorted sequence leaves it sorted. */
  lemma {:induction false} InsertSorted(v: Video, s: seq<Video>)
    requires SortedByArea(s)
    ensures SortedByArea(InsertByArea(v, s))
  {
    if s != [] && Area(v) < Area(s[0]) {
      var rest := InsertByArea(v, s[1..]);
      InsertSorted(v, s[1..]);
      InsertAtMost(v, s[1..], Area(s[0]));
      assert InsertByArea(v, s) == [s[0]] + rest;
    }
  }

  /**
   * `visibleVideos.sort((a, b) => areaB - areaA)`: the stable sort by area,
   * largest first, written as an insertion sort.
   */
  function SortByArea(vs: seq<Video>): (r: seq<Video>)
    ensures |r| == |vs|
  {
    if vs == [] then [] else InsertByArea(vs[0], SortByArea(vs[1..]))
  }

  /** The sort is a permutation of its input and is sorted by area. */
  lemma {:induction false} SortCorrect(vs: seq<Video>)
    ensures multiset(SortByArea(vs)) == multiset(vs)
    ensures SortedByArea(SortByArea(vs))
  {
    if vs != [] {
      SortCorrect(vs[1..]);
      InsertPermutes(vs[0], SortByArea(vs[1..]));
      InsertSorted(vs[0], SortByArea(vs[1..]));
      assert vs == [vs[0]] + vs[1..];
    }
  }

  /**
   * Reference definition of the choice: the index of the first candidate,
   * in scan order, whose area is as large as any candidate's.
   */
  function LargestIndex(c: seq<Video>): (k: Option<nat>)
    ensures k.None? <==> forall i :: 0 <= i < |c| ==> !IsCandidate(c[i])
    ensures k.Some? ==> k.value < |c| && IsCandidate(c[k.value])
    ensures k.Some? ==> forall j :: 0 <= j < |c| && IsCandidate(c[j]) ==> Area(c[j]) <= Area(c[k.value])
    ensures k.Some? ==> forall j :: 0 <= j < k.value && IsCandidate(c[j]) ==> Area(c[j]) < Area(c[k.value])
  {
    if c == [] then None
    else
      var k := LargestIndex(c[1..]);
      assert forall j :: 1 <= j < |c| ==> c[j] == c[1..][j - 1];
      if !IsCandidate(c[0]) then
        if k.None? then None else Some(k.value + 1)
      else if k.None? || Area(c[0]) >= Area(c[1..][k.value]) then Some(0)
      else Some(k.value + 1)
  }

  /** The first position of `s` holding a largest area. */
  function FirstLargest(s: seq<Video>): (k: nat)
    requires s != []
    ensures k < |s|
    ensures forall j :: 0 <= j < |s| ==> Area(s[j]) <= Area(s[k])
    ensures forall j :: 0 <= j < k ==> Area(s[j]) < Area(s[k])
  {
    if |s| == 1 then 0
    else
      var k := FirstLargest(s[1..]);
      assert forall j :: 1 <= j < |s| ==> s[j] == s[1..][j - 1];
      if Area(s[0]) >= Area(s[k + 1]) then 0 else k + 1
  }

  /** Stability at the head: the sort puts the first largest element first. */
  lemma {:induction false} SortHead(s: seq<Video>)
    requires s != []
    ensures SortByArea(s)[0] == s[FirstLargest(s)]
  {
    if |s| > 1 {
      SortHead(s[1..]);
    }
  }

  /** The first largest candidate, counted among the candidates or among all videos, is the same video. */
  lemma {:induction false} FirstLargestCandidate(c: seq<Video>)
    ensures VisibleVideos(c) != [] ==>
      LargestIndex(c).Some? && VisibleVideos(c)[FirstLargest(VisibleVideos(c))] == c[LargestIndex(c).value]
  {
    if c != [] {
      FirstLargestCandidate(c[1..]);
      if IsCandidate(c[0]) {
        CandidateFirstStep(c);
      } else {
        OtherFirstStep(c);
      }
    }
  }

  /** The inductive step of `FirstLargestCandidate` when the first video is a candidate. */
  lemma CandidateFirstStep(c: seq<Video>)
    requires c != [] && IsCandidate(c[0])
    requires VisibleVideos(c[1..]) != [] ==>
      LargestIndex(c[1..]).Some? &&
      VisibleVideos(c[1..])[FirstLargest(VisibleVideos(c[1..]))] == c[1..][LargestIndex(c[1..]).value]
    ensures LargestIndex(c).Some? && VisibleVideos(c)[FirstLargest(VisibleVideos(c))] == c[LargestIndex(c).value]
  {
    var rest := c[1..];
    var vr := VisibleVideos(rest);
    assert VisibleVideos(c) == [c[0]] + vr;
    if vr == [] {
      assert forall i :: 0 <= i < |rest| ==> !IsCandidate(rest[i]) by {
        forall i | 0 <= i < |rest| ensures !IsCandidate(rest[i]) {
          assert rest[i] in rest;
        }
      }
      assert LargestIndex(c) == Some(0);
    } else {
      var k := LargestIndex(rest).value;
      FirstLargestCons(c[0], vr);
      LargestIndexCons(c);
      assert c[k + 1] == rest[k];
    }
  }

  /** `FirstLargest` on a longer sequence, in terms of its tail. */
  lemma FirstLargestCons(v: Video, s: seq<Video>)
    requires s != []
    ensures FirstLargest([v] + s) ==
      (if Area(v) >= Area(s[FirstLargest(s)]) then 0 else FirstLargest(s) + 1)
  {
    assert ([v] + s)[1..] == s;
  }

  /** `LargestIndex` of a sequence starting with a candidate, in terms of its tail. */
  lemma LargestIndexCons(c: seq<Video>)
    requires c != [] && IsCandidate(c[0]) && LargestIndex(c[1..]).Some?
    ensures var k := LargestIndex(c[1..]).value;
      LargestIndex(c) == (if Area(c[0]) >= Area(c[1..][k]) then Some(0) else Some(k + 1))
  {
  }

  /** The inductive step of `FirstLargestCandidate` when the first video is not a candidate. */
  lemma OtherFirstStep(c: seq<Video>)
    requires c != [] && !IsCandidate(c[0])
    requires VisibleVideos(c[1..]) != [] ==>
      LargestIndex(c[1..]).Some? &&
      VisibleVideos(c[1..])[FirstLargest(VisibleVideos(c[1..]))] == c[1..][LargestIndex(c[1..]).value]
    ensures VisibleVideos(c) != [] ==>
      LargestIndex(c).Some? && VisibleVideos(c)[FirstLargest(VisibleVideos(c))] == c[LargestIndex(c).value]
  {
    var rest := c[1..];
    assert VisibleVideos(c) == VisibleVideos(rest);
    if VisibleVideos(rest) != [] {
      var k := LargestIndex(rest).value;
      assert LargestIndex(c) == Some(k + 1);
      assert c[k + 1] == rest[k];
    }
  }

  /** The head of the sorted candidates is the first largest candidate. */
  lemma SortHeadIsLargest(c: seq<Video>)
    ensures VisibleVideos(c) != [] ==>
      LargestIndex(c).Some? && SortByArea(VisibleVideos(c))[0] == c[LargestIndex(c).value]
  {
    if VisibleVideos(c) != [] {
      SortHead(VisibleVideos(c));
      FirstLargestCandidate(c);
    }
  }

  /** No candidate before position `k` is as large as the video at `k`. */
  predicate EarliestLargest(c: seq<Video>, k: nat)
    requires k < |c|
  {
    forall j :: 0 <= j < k && IsCandidate(c[j]) ==> Area(c[j]) < Area(c[k])
  }

  /**
   * The filter, the sort and `visibleVideos[0]`: nothing when no collected
   * video qualifies; otherwise a qualifying collected video whose area is
   * as large as any other's, and the earliest such in scan order.
   */
  function SelectMain(collected: seq<Video>): (r: Option<Video>)
    ensures r.None? <==> forall v :: v in collected ==> !IsCandidate(v)
    ensures r.Some? ==> r.value in collected && IsCandidate(r.value)
    ensures r.Some? ==> forall v :: v in collected && IsCandidate(v) ==> Area(v) <= Area(r.value)
    ensures r.Some? ==> exists k :: 0 <= k < |collected| && collected[k] == r.value && EarliestLargest(collected, k)
  {
    var visible := VisibleVideos(collected);
    if |visible| == 0 then None
    else
      SortHeadIsLargest(collected);
      Some(SortByArea(visible)[0])
  }

  /** Selecting through the sort agrees with the reference definition. */
  lemma SelectMainIsFirstLargest(c: seq<Video>)
    ensures SelectMain(c) == if LargestIndex(c).None? then None else Some(c[LargestIndex(c).value])
  {
    SortHeadIsLargest(c);
    if LargestIndex(c).Some? {
      assert c[LargestIndex(c).value] in VisibleVideos(c);
    }
  }

  /**
   * `findMainVideo()`: scan the page, then select. The result is drawn
   * from the videos reachable from the page, light or open shadow.
   */
  method FindMainVideo(page: seq<Node>) returns (r: Option<Video>)
    ensures r == SelectMain(Scanner.Collect(page))
    ensures r.Some? ==> r.value in Scanner.Reachable(page) && IsCandidate(r.value)
  {
    var videos := new Scanner.VideoList();
    Scanner.CollectVideos(page, videos);
    ghost var collected := videos.items;
    assert collected == Scanner.Collect(page);
    var visibleVideos := VisibleVideos(videos.items);
    if |visibleVideos| == 0 {
      r := None;
    } else {
      var sorted := SortByArea(visibleVideos);
      r := Some(sorted[0]);
    }
    assert r == SelectMain(collected);
    Scanner.ScanComplete(page);
  }
}
