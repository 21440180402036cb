/** The choice of at most two bodies among the blobs (src/OccupancyCounter.cpp): the two largest that are
    large enough, looked for at rising thresholds. */
module BodyExtraction {
  import opened Components
  import opened Blobs

  const MIN_BODY_AREA := 20
  const MAX_BODY_AREA := 60
  const MIN_BODY_DIFF := 1

  datatype BodyBlob = BodyBlob(contour: seq<Point>, cx: int)

  /** At least `MIN_BODY_AREA` percent of an n by n image. */
  predicate LargeEnough(size: nat, n: nat) {
    100 * size >= MIN_BODY_AREA * n * n
  }

  /** More than `MAX_BODY_AREA` percent of it. */
  predicate TooLarge(size: nat, n: nat) {
    100 * size > MAX_BODY_AREA * n * n
  }

  /** A body covers at least a fifth of the image, and is too large above three fifths. */
  lemma Shares(size: nat, n: nat)
    ensures LargeEnough(size, n) <==> 5 * size >= n * n
    ensures TooLarge(size, n) <==> 5 * size > 3 * n * n
  {
  }

  // ---------- the two largest ----------

  predicate Candidate(contour: seq<Point>, n: nat) {
    contour != [] && LargeEnough(|contour|, n)
  }

  /** `best` lists the indices of the largest candidates, two of them if there are two, larger first. */
  ghost predicate BestTwo(contours: seq<seq<Point>>, n: nat, best: seq<nat>) {
    && |best| <= 2
    && (forall k :: 0 <= k < |best| ==> best[k] < |contours| && Candidate(contours[best[k]], n))
    && (|best| == 2 ==> best[0] != best[1] && |contours[best[0]]| >= |contours[best[1]]|)
    && (forall i :: 0 <= i < |contours| && Candidate(contours[i], n) && i !in best ==>
          |best| == 2 && |contours[i]| <= |contours[best[1]]|)
  }

  /** Ties may be broken either way, but the sizes chosen are always the same. */
  lemma BestTwoSizes(contours: seq<seq<Point>>, n: nat, a: seq<nat>, b: seq<nat>)
    requires BestTwo(contours, n, a) && BestTwo(contours, n, b)
    ensures |a| == |b|
    ensures forall k :: 0 <= k < |a| ==> |contours[a[k]]| == |contours[b[k]]|
  {
    if |a| > 0 {
      assert a[0] in b || |b| == 2;
    }
    if |b| > 0 {
      assert b[0] in a || |a| == 2;
    }
    if |a| == 2 {
      assert a[1] in b || |b| == 2;
    }
    if |b| == 2 {
      assert b[1] in a || |a| == 2;
    }
  }

  /** The leftmost and rightmost column of a contour. */
  ghost predicate Extent(contour: seq<Point>, left: int, right: int) {
    && (exists p :: p in contour && p.x == left)
    && (exists p :: p in contour && p.x == right)
    && (forall p :: p in contour ==> left <= p.x <= right)
  }

  /** The middle of the extent; columns beyond 8 count as 8 on the left. */
  ghost predicate Centred(body: BodyBlob) {
    forall left, right :: Extent(body.contour, left, right) ==>
      body.cx == ((if left < 8 then left else 8) + right) / 2
  }

  /** `initBody`: the middle of the extent, provided the blob begins at column 8 or before. */
  method InitBody(contour: seq<Point>) returns (body: BodyBlob)
    requires forall p :: p in contour ==> 0 <= p.x
    ensures body.contour == contour
    ensures Centred(body)
  {
    var minx, maxx := 8, 0;
    for i := 0 to |contour|
      invariant minx <= 8 && 0 <= maxx
      invariant forall p :: p in contour[..i] ==> minx <= p.x <= maxx
      invariant minx == 8 || exists p :: p in contour[..i] && p.x == minx
      invariant maxx == 0 || exists p :: p in contour[..i] && p.x == maxx
    {
      assert contour[..i + 1] == contour[..i] + [contour[i]];
      assert contour[i] in contour[..i + 1];
      if contour[i].x < minx {
        minx := contour[i].x;
      }
      if contour[i].x > maxx {
        maxx := contour[i].x;
      }
    }
    assert contour[..|contour|] == contour;
    body := BodyBlob(contour, (minx + maxx) / 2);
  }

  ghost predicate OnGrid(contours: seq<seq<Point>>) {
    forall i, p :: 0 <= i < |contours| && p in contours[i] ==> 0 <= p.x
  }

  lemma BestTwoNext(contours: seq<seq<Point>>, n: nat, i: nat, best: seq<nat>, next: seq<nat>)
    requires i < |contours| && BestTwo(contours[..i], n, best)
    requires next ==
      if !LargeEnough(|contours[i]|, n) then best
      else if |contours[i]| > (if |best| > 0 then |contours[best[0]]| else 0) then
        if |best| > 0 then [i, best[0]] else [i]
      else if |contours[i]| > (if |best| == 2 then |contours[best[1]]| else 0) then [best[0], i]
      else best
    ensures BestTwo(contours[..i + 1], n, next)
  {
    var a, b := contours[..i], contours[..i + 1];
    assert forall k :: 0 <= k < i ==> b[k] == a[k] == contours[k];
    assert b[i] == contours[i];
  }

  /** The bodies are those of the contours listed, in this order. */
  ghost predicate MadeFrom(contours: seq<seq<Point>>, best: seq<nat>, bodies: seq<BodyBlob>) {
    && |bodies| == |best|
    && forall k :: 0 <= k < |best| ==>
         best[k] < |contours| && bodies[k].contour == contours[best[k]] && Centred(bodies[k])
  }

  /** `convert_contour_to_body` */
  method ConvertContourToBody(contours: seq<seq<Point>>, n: nat) returns (bodies: seq<BodyBlob>)
    requires OnGrid(contours)
    ensures exists best :: BestTwo(contours, n, best) && MadeFrom(contours, best, bodies)
  {
    hide Centred;
    var biggest: seq<Point>, second: seq<Point> := [], [];
    ghost var best: seq<nat> := [];
    for i := 0 to |contours|
      invariant BestTwo(contours[..i], n, best)
      invariant biggest == (if |best| > 0 then contours[best[0]] else [])
      invariant second == (if |best| == 2 then contours[best[1]] else [])
    {
      ghost var was := best;
      if LargeEnough(|contours[i]|, n) {
        if |contours[i]| > |biggest| {
          second := biggest;
          biggest := contours[i];
          best := if |best| > 0 then [i, best[0]] else [i];
        } else if |contours[i]| > |second| {
          second := contours[i];
          best := [best[0], i];
        }
      }
      BestTwoNext(contours, n, i, was, best);
    }
    assert contours[..|contours|] == contours;
    bodies := [];
    if |biggest| > 0 {
      var body := InitBody(biggest);
      bodies := bodies + [body];
    }
    if |second| > 0 {
      var body := InitBody(second);
      bodies := bodies + [body];
    }
    assert MadeFrom(contours, best, bodies);
  }

  // ---------- rising thresholds ----------

  ghost predicate LargeComponent(fg: set<Point>, n: nat, part: set<Point>) {
    IsComponent(fg, part) && LargeEnough(|part|, n)
  }

  /** The bodies are the largest large-enough components of the foreground, two of them if there are two. */
  ghost predicate Found(fg: set<Point>, n: nat, bodies: seq<BodyBlob>) {
    && |bodies| <= 2
    && (forall k :: 0 <= k < |bodies| ==>
          Distinct(bodies[k].contour) && LargeComponent(fg, n, Pixels(bodies[k].contour)))
    && (|bodies| == 2 ==>
          Pixels(bodies[0].contour) !! Pixels(bodies[1].contour) && |bodies[0].contour| >= |bodies[1].contour|)
    && (forall part :: LargeComponent(fg, n, part) ==>
          || (exists k :: 0 <= k < |bodies| && part == Pixels(bodies[k].contour))
          || (|bodies| == 2 && |part| <= |bodies[1].contour|))
  }

  /** There is just one large-enough component, and it is too large to be one person. */
  ghost predicate Huge(fg: set<Point>, n: nat, part: set<Point>) {
    && LargeComponent(fg, n, part) && TooLarge(|part|, n)
    && (forall other :: LargeComponent(fg, n, other) ==> other == part)
  }

  lemma BestTwoIsFound(fg: set<Point>, contours: seq<seq<Point>>, n: nat, best: seq<nat>, bodies: seq<BodyBlob>)
    requires Partition(fg, contours) && BestTwo(contours, n, best) && |bodies| == |best|
    requires forall i :: 0 <= i < |contours| ==> contours[i] != []
    requires forall k :: 0 <= k < |best| ==> bodies[k].contour == contours[best[k]]
    ensures Found(fg, n, bodies)
  {
    forall k | 0 <= k < |bodies|
      ensures Distinct(bodies[k].contour) && LargeComponent(fg, n, Pixels(bodies[k].contour))
    {
      DistinctSize(contours[best[k]]);
    }
    forall part | LargeComponent(fg, n, part)
      ensures || (exists k :: 0 <= k < |bodies| && part == Pixels(bodies[k].contour))
              || (|bodies| == 2 && |part| <= |bodies[1].contour|)
    {
      var i := PartitionHasComponent(fg, contours, part);
      DistinctSize(contours[i]);
      if i in best {
        var k :| 0 <= k < |best| && best[k] == i;
        assert part == Pixels(bodies[k].contour);
      }
    }
  }

  ghost predicate OneHuge(fg: set<Point>, n: nat) {
    exists part :: Huge(fg, n, part)
  }

  /** Splitting a blob that is too large: whatever large component a higher threshold leaves over lies
      inside that blob. */
  lemma SplittingStaysInside(fg: set<Point>, fewer: set<Point>, n: nat, huge: set<Point>, part: set<Point>)
    requires fewer <= fg && Huge(fg, n, huge) && LargeComponent(fewer, n, part)
    ensures part <= huge
  {
    var p :| p in part;
    var around := ComponentOf(fg, p);
    RefinedComponents(fg, fewer, around, part);
    SubsetSize(part, around);
    assert LargeComponent(fg, n, around);
  }

  lemma FoundOneHuge(fg: set<Point>, n: nat, bodies: seq<BodyBlob>)
    requires Found(fg, n, bodies)
    ensures |bodies| <= 2
    ensures |bodies| == 1 && TooLarge(|bodies[0].contour|, n) <==> OneHuge(fg, n)
  {
    forall k | 0 <= k < |bodies| ensures |Pixels(bodies[k].contour)| == |bodies[k].contour| {
      DistinctSize(bodies[k].contour);
    }
    hide IsComponent, Distinct;
    if |bodies| == 1 && TooLarge(|bodies[0].contour|, n) {
      assert Huge(fg, n, Pixels(bodies[0].contour));
    }
    if part :| Huge(fg, n, part) {
      assert forall k :: 0 <= k < |bodies| ==> Pixels(bodies[k].contour) == part;
      assert part != {} by { NotEmpty(fg, part); }
    }
  }

  lemma NotEmpty(fg: set<Point>, part: set<Point>)
    requires IsComponent(fg, part)
    ensures part != {}
  {
  }

  ghost predicate AllCentred(bodies: seq<BodyBlob>) {
    forall k :: 0 <= k < |bodies| ==> Centred(bodies[k])
  }

  /** The bodies at one threshold. */
  method BodiesAt(diffs: array2<int>, n: nat, threshold: int) returns (bodies: seq<BodyBlob>)
    requires diffs.Length0 == diffs.Length1 == n
    ensures Found(AtLeast(diffs, threshold), n, bodies) && AllCentred(bodies)
  {
    hide Partition, BestTwo, Centred;
    var masked := Threshold(diffs, threshold);
    var contours := ConnectedC(masked);
    OnGridContours(masked, contours);
    bodies := ConvertContourToBody(contours, n);
    ghost var best :| BestTwo(contours, n, best) && MadeFrom(contours, best, bodies);
    BestTwoIsFound(AtLeast(diffs, threshold), contours, n, best, bodies);
  }

  lemma OnGridContours(im: array2<int>, contours: seq<seq<Point>>)
    requires Partition(Having(im, 1), contours)
    ensures OnGrid(contours)
  {
    forall i, p | 0 <= i < |contours| && p in contours[i] ensures 0 <= p.x {
      assert p in Pixels(contours[i]);
      assert p in Having(im, 1);
    }
  }

  /** `level` is the first of the eleven levels that is not covered by one blob too large, or the last one. */
  ghost predicate Settles(diffs: array2<int>, n: nat, level: int)
    reads diffs
  {
    && MIN_BODY_DIFF <= level <= MIN_BODY_DIFF + 10
    && (forall t :: MIN_BODY_DIFF <= t < level ==> OneHuge(AtLeast(diffs, t), n))
    && (level < MIN_BODY_DIFF + 10 ==> !OneHuge(AtLeast(diffs, level), n))
  }

  lemma SettlesOnce(diffs: array2<int>, n: nat, a: int, b: int)
    requires Settles(diffs, n, a) && Settles(diffs, n, b)
    ensures a == b
  {
    hide OneHuge, AtLeast;
    assert a < b ==> OneHuge(AtLeast(diffs, a), n);
    assert b < a ==> OneHuge(AtLeast(diffs, b), n);
  }

  /** `extract_body`: the bodies are those of the one level on which the search settles. */
  method ExtractBody(diffs: array2<int>, n: nat) returns (bodies: seq<BodyBlob>)
    requires diffs.Length0 == diffs.Length1 == n
    ensures AllCentred(bodies)
    ensures exists level :: Settles(diffs, n, level) && Found(AtLeast(diffs, level), n, bodies)
  {
    hide Found, OneHuge, AtLeast, AllCentred;
    var index := 0;
    bodies := [];
    while index <= 10
      invariant 0 <= index <= 11
      invariant forall t :: MIN_BODY_DIFF <= t < MIN_BODY_DIFF + index ==> OneHuge(AtLeast(diffs, t), n)
      invariant 0 < index ==> Found(AtLeast(diffs, MIN_BODY_DIFF + index - 1), n, bodies) && AllCentred(bodies)
    {
      ghost var level := MIN_BODY_DIFF + index;
      bodies := BodiesAt(diffs, n, MIN_BODY_DIFF + index);
      FoundOneHuge(AtLeast(diffs, level), n, bodies);
      if |bodies| == 0 || |bodies| == 2 {
        assert Settles(diffs, n, level);
        return;
      } else if !TooLarge(|bodies[0].contour|, n) {
        assert Settles(diffs, n, level);
        return;
      }
      index := index + 1;
    }
    assert Settles(diffs, n, MIN_BODY_DIFF + 10);
  }

  /** The bodies returned at one level lie inside the blob that was too large at any lower level. */
  lemma BodiesInsideEarlierBlob(diffs: array2<int>, n: nat, t: int, level: int, bodies: seq<BodyBlob>, huge: set<Point>)
    requires t <= level && Found(AtLeast(diffs, level), n, bodies) && Huge(AtLeast(diffs, t), n, huge)
    ensures forall k :: 0 <= k < |bodies| ==> Pixels(bodies[k].contour) <= huge
  {
    forall k | 0 <= k < |bodies| ensures Pixels(bodies[k].contour) <= huge {
      SplittingStaysInside(AtLeast(diffs, t), AtLeast(diffs, level), n, huge, Pixels(bodies[k].contour));
    }
  }
}
