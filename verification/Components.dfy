/** 8-connected components of a set of pixels: the theory behind the blob extraction of
    src/OccupancyCounter.cpp. */
module Components {

  /** `cv::Point` */
  datatype Point = Point(x: int, y: int)

  predicate Adjacent(p: Point, q: Point) {
    -1 <= p.x - q.x <= 1 && -1 <= p.y - q.y <= 1
  }

  // ---------- paths ----------

  ghost predicate Path(within: set<Point>, path: seq<Point>) {
    && path != []
    && path[|path| - 1] in within
    && (|path| > 1 ==>
          Path(within, path[..|path| - 1]) && Adjacent(path[|path| - 2], path[|path| - 1]))
  }

  ghost predicate PathBetween(within: set<Point>, p: Point, q: Point, path: seq<Point>) {
    Path(within, path) && path[0] == p && path[|path| - 1] == q
  }

  ghost predicate Connected(within: set<Point>, p: Point, q: Point) {
    exists path :: PathBetween(within, p, q, path)
  }

  lemma ConnectedToItself(within: set<Point>, p: Point)
    requires p in within
    ensures Connected(within, p, p)
  {
    assert PathBetween(within, p, p, [p]);
  }

  lemma ConnectedStep(within: set<Point>, p: Point, q: Point, r: Point)
    requires Connected(within, p, q) && r in within && Adjacent(q, r)
    ensures Connected(within, p, r)
  {
    var path :| PathBetween(within, p, q, path);
    assert (path + [r])[..|path|] == path;
    assert PathBetween(within, p, r, path + [r]);
  }

  lemma {:induction false} PathInLarger(within: set<Point>, larger: set<Point>, path: seq<Point>)
    requires Path(within, path) && within <= larger
    ensures Path(larger, path)
  {
    if |path| > 1 {
      PathInLarger(within, larger, path[..|path| - 1]);
    }
  }

  lemma ConnectedInLarger(within: set<Point>, larger: set<Point>, p: Point, q: Point)
    requires Connected(within, p, q) && within <= larger
    ensures Connected(larger, p, q)
  {
    var path :| PathBetween(within, p, q, path);
    PathInLarger(within, larger, path);
    assert PathBetween(larger, p, q, path);
  }

  lemma {:induction false} PathConnects(within: set<Point>, p: Point, path: seq<Point>)
    requires Path(within, path) && Connected(within, p, path[0])
    ensures Connected(within, p, path[|path| - 1])
  {
    if |path| > 1 {
      PathConnects(within, p, path[..|path| - 1]);
      ConnectedStep(within, p, path[|path| - 2], path[|path| - 1]);
    }
  }

  lemma ConnectedTransitive(within: set<Point>, p: Point, q: Point, r: Point)
    requires Connected(within, p, q) && Connected(within, q, r)
    ensures Connected(within, p, r)
  {
    var path :| PathBetween(within, q, r, path);
    PathConnects(within, p, path);
  }

  lemma {:induction false} PathReverses(within: set<Point>, path: seq<Point>)
    requires Path(within, path)
    ensures Connected(within, path[|path| - 1], path[0])
  {
    var last := path[|path| - 1];
    ConnectedToItself(within, last);
    if |path| > 1 {
      PathReverses(within, path[..|path| - 1]);
      ConnectedStep(within, last, last, path[|path| - 2]);
      ConnectedTransitive(within, last, path[|path| - 2], path[0]);
    }
  }

  lemma ConnectedSymmetric(within: set<Point>, p: Point, q: Point)
    requires Connected(within, p, q)
    ensures Connected(within, q, p)
  {
    var path :| PathBetween(within, p, q, path);
    PathReverses(within, path);
  }

  // ---------- components ----------

  /** No pixel of `all` outside `part` touches `part`. */
  ghost predicate Closed(all: set<Point>, part: set<Point>) {
    forall p, q :: p in part && q in all && Adjacent(p, q) ==> q in part
  }

  ghost predicate IsComponent(all: set<Point>, part: set<Point>) {
    && part != {}
    && part <= all
    && Closed(all, part)
    && (forall p, q :: p in part && q in part ==> Connected(part, p, q))
  }

  lemma {:induction false} PathStaysInClosed(all: set<Point>, part: set<Point>, path: seq<Point>)
    requires Path(all, path) && Closed(all, part) && path[0] in part
    ensures path[|path| - 1] in part
  {
    if |path| > 1 {
      PathStaysInClosed(all, part, path[..|path| - 1]);
    }
  }

  lemma ClosedHoldsConnected(all: set<Point>, part: set<Point>, p: Point, q: Point)
    requires Closed(all, part) && p in part && Connected(all, p, q)
    ensures q in part
  {
    var path :| PathBetween(all, p, q, path);
    PathStaysInClosed(all, part, path);
  }

  /** A connected part of the pixels that meets a closed part lies inside it. */
  lemma ConnectedPartInClosed(all: set<Point>, closed: set<Point>, part: set<Point>, p: Point)
    requires Closed(all, closed) && part <= all && p in part && p in closed
    requires forall q, r :: q in part && r in part ==> Connected(part, q, r)
    ensures part <= closed
  {
    forall q | q in part ensures q in closed {
      ConnectedInLarger(part, all, p, q);
      ClosedHoldsConnected(all, closed, p, q);
    }
  }

  /** Two components are equal or have no pixel in common. */
  lemma ComponentsEqualOrDisjoint(all: set<Point>, a: set<Point>, b: set<Point>)
    requires IsComponent(all, a) && IsComponent(all, b)
    ensures a == b || a !! b
  {
    if p :| p in a && p in b {
      ConnectedPartInClosed(all, a, b, p);
      ConnectedPartInClosed(all, b, a, p);
    }
  }

  /** Fewer pixels, finer components: each component of a subset lies inside every component it meets. */
  lemma RefinedComponents(all: set<Point>, fewer: set<Point>, a: set<Point>, b: set<Point>)
    requires fewer <= all && IsComponent(all, a) && IsComponent(fewer, b) && !(a !! b)
    ensures b <= a
  {
    var p :| p in a && p in b;
    ConnectedPartInClosed(all, a, b, p);
  }

  lemma {:induction false} PathInsideClosed(all: set<Point>, part: set<Point>, path: seq<Point>)
    requires Path(all, path) && Closed(all, part) && path[0] in part
    ensures Path(part, path)
  {
    PathStaysInClosed(all, part, path);
    if |path| > 1 {
      PathInsideClosed(all, part, path[..|path| - 1]);
    }
  }

  /** Every pixel lies in a component: the pixels it is connected to. */
  lemma ComponentOf(all: set<Point>, p: Point) returns (part: set<Point>)
    requires p in all
    ensures IsComponent(all, part) && p in part
  {
    part := set q | q in all && Connected(all, p, q);
    ConnectedToItself(all, p);
    assert p in part;
    forall q, r | q in part && r in all && Adjacent(q, r) ensures r in part {
      ConnectedStep(all, p, q, r);
    }
    forall q | q in part ensures Connected(part, p, q) {
      var path :| PathBetween(all, p, q, path);
      PathInsideClosed(all, part, path);
      assert PathBetween(part, p, q, path);
    }
    forall q, r | q in part && r in part ensures Connected(part, q, r) {
      ConnectedSymmetric(part, p, q);
      ConnectedTransitive(part, q, p, r);
    }
  }

  // ---------- partitions ----------

  function Pixels(contour: seq<Point>): set<Point> {
    set p | p in contour
  }

  ghost predicate Distinct(contour: seq<Point>) {
    forall i, j :: 0 <= i < j < |contour| ==> contour[i] != contour[j]
  }

  lemma {:induction false} DistinctSize(contour: seq<Point>)
    requires Distinct(contour)
    ensures |Pixels(contour)| == |contour|
  {
    if contour != [] {
      var init := contour[..|contour| - 1];
      DistinctSize(init);
      assert Pixels(contour) == Pixels(init) + {contour[|contour| - 1]};
    }
  }

  /** The contours list every component of `all` exactly once, and every pixel exactly once. */
  ghost predicate Partition(all: set<Point>, contours: seq<seq<Point>>) {
    && (forall i :: 0 <= i < |contours| ==> Distinct(contours[i]) && IsComponent(all, Pixels(contours[i])))
    && (forall i, j :: 0 <= i < j < |contours| ==> Pixels(contours[i]) !! Pixels(contours[j]))
    && (forall p :: p in all ==> InSome(contours, p))
  }

  ghost predicate InSome(contours: seq<seq<Point>>, p: Point) {
    exists i :: 0 <= i < |contours| && p in Pixels(contours[i])
  }

  /** A partition leaves no component out. */
  lemma PartitionHasComponent(all: set<Point>, contours: seq<seq<Point>>, part: set<Point>) returns (i: nat)
    requires Partition(all, contours) && IsComponent(all, part)
    ensures i < |contours| && Pixels(contours[i]) == part
  {
    var p :| p in part;
    assert InSome(contours, p);
    i :| 0 <= i < |contours| && p in Pixels(contours[i]);
    ComponentsEqualOrDisjoint(all, part, Pixels(contours[i]));
  }

  /** Fewer foreground pixels refine the blobs: every component of the smaller set of pixels lies inside
      exactly one component of the larger one. */
  lemma InsideExactlyOne(all: set<Point>, fewer: set<Point>, contours: seq<seq<Point>>, part: set<Point>)
      returns (i: nat)
    requires fewer <= all && Partition(all, contours) && IsComponent(fewer, part)
    ensures i < |contours| && part <= Pixels(contours[i])
    ensures forall j :: 0 <= j < |contours| && j != i ==> part !! Pixels(contours[j])
  {
    var p :| p in part;
    assert InSome(contours, p);
    i :| 0 <= i < |contours| && p in Pixels(contours[i]);
    RefinedComponents(all, fewer, Pixels(contours[i]), part);
  }
}
