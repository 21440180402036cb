/** Blob extraction of src/OccupancyCounter.cpp: thresholding, breadth-first flood fill, connected
    components, and the two largest blobs.  Images are square grids of any size. */
module Blobs {
  import opened Components

  ghost predicate Inside(a: array2<int>, p: Point) {
    0 <= p.x < a.Length0 && 0 <= p.y < a.Length1
  }

  /** The pixels of `a` whose value is `v`. */
  ghost function Having(a: array2<int>, v: int): (s: set<Point>)
    reads a
    ensures forall p :: p in s <==> Inside(a, p) && a[p.x, p.y] == v
  {
    set x, y | 0 <= x < a.Length0 && 0 <= y < a.Length1 && a[x, y] == v :: Point(x, y)
  }

  /** The pixels of `a` at or above a threshold. */
  ghost function AtLeast(a: array2<int>, threshold: int): (s: set<Point>)
    reads a
    ensures forall p :: p in s <==> Inside(a, p) && a[p.x, p.y] >= threshold
  {
    set x, y | 0 <= x < a.Length0 && 0 <= y < a.Length1 && a[x, y] >= threshold :: Point(x, y)
  }

  /** `threshold_` */
  method Threshold(raw: array2<int>, threshold: int) returns (result: array2<int>)
    ensures fresh(result) && result.Length0 == raw.Length0 && result.Length1 == raw.Length1
    ensures Having(result, 1) == AtLeast(raw, threshold)
  {
    result := new int[raw.Length0, raw.Length1]((_, _) => 0);
    for i := 0 to raw.Length0
      invariant forall x, y :: 0 <= x < i && 0 <= y < raw.Length1 ==> (result[x, y] == 1 <==> raw[x, y] >= threshold)
      invariant forall x, y :: i <= x < raw.Length0 && 0 <= y < raw.Length1 ==> result[x, y] == 0
    {
      for j := 0 to raw.Length1
        invariant forall x, y :: 0 <= x < i && 0 <= y < raw.Length1 ==> (result[x, y] == 1 <==> raw[x, y] >= threshold)
        invariant forall y :: 0 <= y < j ==> (result[i, y] == 1 <==> raw[i, y] >= threshold)
        invariant forall y :: j <= y < raw.Length1 ==> result[i, y] == 0
        invariant forall x, y :: i < x < raw.Length0 && 0 <= y < raw.Length1 ==> result[x, y] == 0
      {
        if raw[i, j] >= threshold {
          result[i, j] := 1;
        }
      }
    }
  }

  ghost predicate SameShape(im: array2<int>, status: array2<int>) {
    im != status && im.Length0 == im.Length1 == status.Length0 == status.Length1
  }

  /** The status array as a value. */
  ghost function Marks(status: array2<int>): (m: map<Point, int>)
    reads status
    ensures forall p :: p in m <==> Inside(status, p)
    ensures forall p :: p in m ==> Inside(status, p) && m[p] == status[p.x, p.y]
  {
    var inside := set x, y | 0 <= x < status.Length0 && 0 <= y < status.Length1 :: Point(x, y);
    map p | p in inside :: status[p.x, p.y]
  }

  /** From `old_` to `new_`, exactly the pixels in `added` were marked 1; they were unseen neighbours of `p`. */
  ghost predicate Marked(fg: set<Point>, old_: map<Point, int>, new_: map<Point, int>, p: Point, added: seq<Point>) {
    && Distinct(added)
    && old_.Keys == new_.Keys
    && (forall r :: r in added ==> r in fg && Adjacent(p, r) && r in old_ && old_[r] == 0 && new_[r] == 1)
    && (forall r :: r in old_ && r !in added ==> new_[r] == old_[r])
  }

  lemma MarkOneMore(fg: set<Point>, was: map<Point, int>, now: map<Point, int>, p: Point, added: seq<Point>, r: Point)
    requires Marked(fg, was, now, p, added) && r in fg && Adjacent(p, r) && r in now && now[r] == 0
    ensures Marked(fg, was, now[r := 1], p, added + [r])
  {
    assert r !in added;
  }

  /** The neighbours of `p` before row `i`, column `j` of its surroundings are all marked. */
  ghost predicate Scanned(fg: set<Point>, marks: map<Point, int>, p: Point, i: int, j: int) {
    forall r :: r in fg && Adjacent(p, r) && (r.x < p.x + i || (r.x == p.x + i && r.y < p.y + j)) ==>
      r in marks && marks[r] != 0
  }

  lemma ScannedRow(fg: set<Point>, marks: map<Point, int>, p: Point, i: int)
    requires Scanned(fg, marks, p, i, 2)
    ensures Scanned(fg, marks, p, i + 1, -1)
  {
  }

  lemma ScannedOne(fg: set<Point>, was: map<Point, int>, marks: map<Point, int>, p: Point, i: int, j: int)
    requires Scanned(fg, was, p, i, j)
    requires forall r :: r in was && was[r] != 0 ==> r in marks && marks[r] != 0
    requires Point(p.x + i, p.y + j) in fg ==> var r := Point(p.x + i, p.y + j); r in marks && marks[r] != 0
    ensures Scanned(fg, marks, p, i, j + 1)
  {
    forall r | r in fg && Adjacent(p, r) && (r.x < p.x + i || (r.x == p.x + i && r.y < p.y + j + 1))
      ensures r in marks && marks[r] != 0
    {
      if r.x == p.x + i && r.y == p.y + j {
        assert r == Point(p.x + i, p.y + j);
      }
    }
  }

  /** The body of the two inner loops of `bfs`, for the pixel at `(p.x + i, p.y + j)`. */
  method PushOne(im: array2<int>, status: array2<int>, p: Point, i: int, j: int, added0: seq<Point>,
                 ghost was: map<Point, int>, ghost fg: set<Point>) returns (added: seq<Point>)
    requires SameShape(im, status) && -1 <= i <= 1 && -1 <= j <= 1 && fg == Having(im, 1)
    requires Marked(fg, was, Marks(status), p, added0) && Scanned(fg, Marks(status), p, i, j)
    modifies status
    ensures Marked(fg, was, Marks(status), p, added) && Scanned(fg, Marks(status), p, i, j + 1)
  {
    hide Marked, Scanned;
    added := added0;
    var xx, yy := p.x + i, p.y + j;
    if 0 <= xx < im.Length0 && 0 <= yy < im.Length1 {
      if im[xx, yy] == 1 && status[xx, yy] == 0 {
        MarkOneMore(fg, was, Marks(status), p, added, Point(xx, yy));
        SetMark(status, Point(xx, yy), 1);
        added := added + [Point(xx, yy)];
      }
    }
    ScannedOne(fg, old(Marks(status)), Marks(status), p, i, j);
  }

  /** The two inner loops of `bfs`: mark and enqueue the foreground neighbours not yet seen. */
  method PushNeighbours(im: array2<int>, status: array2<int>, p: Point, ghost fg: set<Point>)
      returns (added: seq<Point>)
    requires SameShape(im, status) && Inside(im, p) && fg == Having(im, 1)
    modifies status
    ensures Marked(fg, old(Marks(status)), Marks(status), p, added)
    ensures Scanned(fg, Marks(status), p, 2, -1)
  {
    added := [];
    var i := -1;
    while i <= 1
      invariant -1 <= i <= 2 && fg == Having(im, 1)
      invariant Marked(fg, old(Marks(status)), Marks(status), p, added) && Scanned(fg, Marks(status), p, i, -1)
    {
      hide Marked, Scanned, Marks, Having;
      var j := -1;
      while j <= 1
        invariant -1 <= j <= 2 && fg == Having(im, 1)
        invariant Marked(fg, old(Marks(status)), Marks(status), p, added) && Scanned(fg, Marks(status), p, i, j)
      {
        added := PushOne(im, status, p, i, j, added, old(Marks(status)), fg);
        j := j + 1;
      }
      ScannedRow(fg, Marks(status), p, i);
      i := i + 1;
    }
  }

  // ---------- flood fill ----------

  /** Mid-flood over the foreground `fg`: `result` is done, `q` is waiting, `before` was done earlier, and
      the neighbours of the first `n` pixels of the result are all marked. */
  ghost predicate Flood(fg: set<Point>, marks: map<Point, int>, before: set<Point>, start: Point,
                        result: seq<Point>, q: seq<Point>, n: nat)
    requires n <= |result|
  {
    && fg <= marks.Keys
    && Distinct(result + q)
    && start in result + q
    && (forall p :: p in result + q ==> p in fg && p !in before)
    && (forall p :: p in marks ==>
          marks[p] == if p in q then 1 else if p in result || p in before then 2 else 0)
    && (forall k, r :: 0 <= k < n && r in fg && Adjacent(result[k], r) ==> marks[r] != 0)
  }

  /** Every pixel seen so far is reached from `start` through pixels seen so far. */
  ghost predicate Reached(start: Point, seen: seq<Point>) {
    forall p :: p in seen ==> Connected(Pixels(seen), start, p)
  }

  lemma ReachMore(start: Point, seen: seq<Point>, p: Point, added: seq<Point>)
    requires Reached(start, seen) && p in seen
    requires forall r :: r in added ==> Adjacent(p, r)
    ensures Reached(start, seen + added)
  {
    var all := seen + added;
    assert Pixels(seen) <= Pixels(all);
    forall r | r in all ensures Connected(Pixels(all), start, r) {
      if r in seen {
        ConnectedInLarger(Pixels(seen), Pixels(all), start, r);
      } else {
        ConnectedInLarger(Pixels(seen), Pixels(all), start, p);
        ConnectedStep(Pixels(all), start, p, r);
      }
    }
  }

  lemma ReachedIsConnected(start: Point, seen: seq<Point>, p: Point, q: Point)
    requires Reached(start, seen) && p in seen && q in seen
    ensures Connected(Pixels(seen), p, q)
  {
    ConnectedSymmetric(Pixels(seen), start, p);
    ConnectedTransitive(Pixels(seen), p, start, q);
  }

  lemma SubsetSize<T>(a: set<T>, b: set<T>)
    requires a <= b
    ensures |a| <= |b|
  {
    assert b == a + (b - a);
  }

  /** A pixel is enqueued at most once, so the queue and the result together never outgrow the foreground. */
  lemma SeenFits(fg: set<Point>, marks: map<Point, int>, before: set<Point>, start: Point,
                 result: seq<Point>, q: seq<Point>)
    requires Flood(fg, marks, before, start, result, q, |result|)
    ensures |result| + |q| <= |fg|
  {
    DistinctSize(result + q);
    SubsetSize(Pixels(result + q), fg);
  }

  /** Only finished pixels carry a mark, and they form whole components. */
  ghost predicate Between(fg: set<Point>, marks: map<Point, int>, done: set<Point>) {
    && done <= fg <= marks.Keys && Closed(fg, done)
    && (forall p :: p in marks ==> marks[p] == if p in done then 2 else 0)
  }

  lemma FloodStarts(fg: set<Point>, marks: map<Point, int>, before: set<Point>, start: Point)
    requires Between(fg, marks, before) && start in fg && start !in before
    ensures Flood(fg, marks[start := 1], before, start, [], [start], 0) && Reached(start, [] + [start])
  {
    ConnectedToItself(Pixels([start]), start);
    assert [] + [start] == [start];
  }

  lemma PopKeepsFlood(fg: set<Point>, marks: map<Point, int>, before: set<Point>, start: Point,
                      result: seq<Point>, q: seq<Point>)
    requires q != [] && Flood(fg, marks, before, start, result, q, |result|)
    ensures q[0] in fg && marks[q[0]] == 1
    ensures Flood(fg, marks[q[0] := 2], before, start, result + [q[0]], q[1..], |result|)
    ensures result + [q[0]] + q[1..] == result + q
  {
    assert q[0] in result + q;
    assert result + [q[0]] + q[1..] == result + q;
    assert q == [q[0]] + q[1..];
    var r := result + [q[0]];
    forall p | p in q[1..] ensures p != q[0] {
      var k :| 0 <= k < |q[1..]| && q[1..][k] == p;
      assert (result + q)[|result| + 1 + k] == p && (result + q)[|result|] == q[0];
    }
    assert forall k :: 0 <= k < |result| ==> r[k] == result[k];
  }

  lemma PushKeepsFlood(fg: set<Point>, was: map<Point, int>, marks: map<Point, int>, before: set<Point>, start: Point,
                       result: seq<Point>, q: seq<Point>, added: seq<Point>)
    requires result != [] && Flood(fg, was, before, start, result, q, |result| - 1)
    requires Marked(fg, was, marks, result[|result| - 1], added)
    requires Scanned(fg, marks, result[|result| - 1], 2, -1)
    ensures forall r :: r in added ==> Adjacent(result[|result| - 1], r)
    ensures Flood(fg, marks, before, start, result, q + added, |result|)
  {
    assert result + (q + added) == (result + q) + added;
    assert forall p :: p in added ==> p !in result + q && p !in before;
    DistinctAppend(result + q, added);
  }

  lemma DistinctAppend(a: seq<Point>, b: seq<Point>)
    requires Distinct(a) && Distinct(b) && forall p :: p in b ==> p !in a
    ensures Distinct(a + b)
  {
    forall i, j | 0 <= i < j < |a + b| ensures (a + b)[i] != (a + b)[j] {
      if i < |a| <= j {
        assert (a + b)[j] in b;
      }
    }
  }

  /** When the queue is empty, the result is one whole component. */
  lemma FloodFinds(fg: set<Point>, was: map<Point, int>, marks: map<Point, int>, before: set<Point>, start: Point,
                   result: seq<Point>)
    requires Between(fg, was, before)
    requires Flood(fg, marks, before, start, result, [], |result|) && Reached(start, result + [])
    ensures start in result
    ensures Distinct(result) && IsComponent(fg, Pixels(result)) && before !! Pixels(result)
    ensures Between(fg, marks, before + Pixels(result))
  {
    var part := Pixels(result);
    assert result + [] == result;
    forall p, q | p in part && q in fg && Adjacent(p, q) ensures q in part {
      var k :| 0 <= k < |result| && result[k] == p;
      assert marks[q] == 2;
      assert Adjacent(q, p);
    }
    forall p, q | p in part && q in part ensures Connected(part, p, q) {
      ReachedIsConnected(start, result, p, q);
    }
  }

  /** `bfs` */
  method Bfs(im: array2<int>, status: array2<int>, col: int, row: int, ghost before: set<Point>)
      returns (result: seq<Point>)
    requires SameShape(im, status) && Between(Having(im, 1), Marks(status), before)
    requires Point(col, row) in Having(im, 1) && Point(col, row) !in before
    modifies status
    ensures Distinct(result) && IsComponent(Having(im, 1), Pixels(result)) && before !! Pixels(result)
    ensures Point(col, row) in result
    ensures Between(Having(im, 1), Marks(status), before + Pixels(result))
  {
    hide Flood, Reached, Between, Marked, Scanned, IsComponent, Distinct, Marks, Having;
    ghost var fg := Having(im, 1);
    var start := Point(col, row);
    FloodStarts(fg, Marks(status), before, start);
    result := [];
    var q := [start];
    SetMark(status, start, 1);
    while q != []
      invariant Flood(fg, Marks(status), before, start, result, q, |result|)
      invariant Reached(start, result + q) && fg == Having(im, 1)
      decreases |fg| - |result|
    {
      SeenFits(fg, Marks(status), before, start, result, q);
      PopKeepsFlood(fg, Marks(status), before, start, result, q);
      var p := q[0];
      q := q[1..];
      if status[p.x, p.y] == 1 {
        SetMark(status, p, 2);
        result := result + [p];
        ghost var was := Marks(status);
        var added := PushNeighbours(im, status, p, fg);
        PushKeepsFlood(fg, was, Marks(status), before, start, result, q, added);
        ReachMore(start, result + q, p, added);
        assert (result + q) + added == result + (q + added);
        q := q + added;
      }
    }
    FloodFinds(fg, old(Marks(status)), Marks(status), before, start, result);
  }

  /** `status[p.x][p.y] = v` */
  method SetMark(status: array2<int>, p: Point, v: int)
    requires Inside(status, p)
    modifies status
    ensures Marks(status) == old(Marks(status))[p := v]
  {
    status[p.x, p.y] := v;
  }

  // ---------- connected components ----------

  /** `contours` partitions `done`, and each of them is a component of the foreground. */
  ghost predicate Listed(fg: set<Point>, contours: seq<seq<Point>>, done: set<Point>) {
    && (forall i :: 0 <= i < |contours| ==>
          contours[i] != [] && Distinct(contours[i]) && IsComponent(fg, Pixels(contours[i]))
          && Pixels(contours[i]) <= done)
    && (forall i, j :: 0 <= i < j < |contours| ==> Pixels(contours[i]) !! Pixels(contours[j]))
    && (forall p :: p in done ==> InSome(contours, p))
  }

  lemma ListOneMore(fg: set<Point>, contours: seq<seq<Point>>, done: set<Point>, res: seq<Point>)
    requires Listed(fg, contours, done) && res != []
    requires Distinct(res) && IsComponent(fg, Pixels(res)) && done !! Pixels(res)
    ensures Listed(fg, contours + [res], done + Pixels(res))
  {
    hide Distinct, IsComponent;
    var more := contours + [res];
    forall p | p in done + Pixels(res) ensures InSome(more, p) {
      if p in done {
        assert InSome(contours, p);
        var i :| 0 <= i < |contours| && p in Pixels(contours[i]);
        assert p in Pixels(more[i]);
      } else {
        assert p in Pixels(more[|contours|]);
      }
    }
  }

  lemma MarkedIffDone(fg: set<Point>, marks: map<Point, int>, done: set<Point>, p: Point)
    requires Between(fg, marks, done) && p in marks
    ensures marks[p] == 0 <==> p !in done
  {
  }

  lemma ListedIsPartition(fg: set<Point>, contours: seq<seq<Point>>, done: set<Point>)
    requires Listed(fg, contours, done) && fg <= done
    ensures Partition(fg, contours)
    ensures forall i :: 0 <= i < |contours| ==> contours[i] != []
  {
  }

  /** All foreground pixels before column `i`, row `j` are done. */
  ghost predicate Covered(fg: set<Point>, done: set<Point>, i: int, j: int) {
    forall p :: p in fg && (p.x < i || (p.x == i && p.y < j)) ==> p in done
  }

  lemma CoveredNext(fg: set<Point>, done: set<Point>, more: set<Point>, i: int, j: int)
    requires Covered(fg, done, i, j) && done <= more && (Point(i, j) in fg ==> Point(i, j) in more)
    ensures Covered(fg, more, i, j + 1)
  {
    forall p | p in fg && (p.x < i || (p.x == i && p.y < j + 1)) ensures p in more {
      if p.x == i && p.y == j {
        assert p == Point(i, j);
      }
    }
  }

  /** One round of the loops of `connectedC`. */
  method ListComponentAt(im: array2<int>, status: array2<int>, i: int, j: int, contours0: seq<seq<Point>>,
                         ghost fg: set<Point>, ghost done0: set<Point>)
      returns (contours: seq<seq<Point>>, ghost done: set<Point>)
    requires SameShape(im, status) && Inside(im, Point(i, j)) && fg == Having(im, 1)
    requires Between(fg, Marks(status), done0) && Listed(fg, contours0, done0) && Covered(fg, done0, i, j)
    modifies status
    ensures Between(fg, Marks(status), done) && Listed(fg, contours, done) && Covered(fg, done, i, j + 1)
  {
    hide Listed, Between, Covered;
    contours, done := contours0, done0;
    MarkedIffDone(fg, Marks(status), done, Point(i, j));
    if im[i, j] == 1 && status[i, j] == 0 {
      var res := Bfs(im, status, i, j, done);
      if |res| > 0 {
        ListOneMore(fg, contours, done, res);
        contours := contours + [res];
        done := done + Pixels(res);
      }
    }
    CoveredNext(fg, done0, done, i, j);
  }

  /** `connectedC`: an exact partition of the foreground into its components. */
  method ConnectedC(im: array2<int>) returns (contours: seq<seq<Point>>)
    requires im.Length0 == im.Length1
    ensures Partition(Having(im, 1), contours)
    ensures forall i :: 0 <= i < |contours| ==> contours[i] != []
  {
    var n := im.Length0;
    var status := new int[n, n]((_, _) => 0);
    contours := [];
    ghost var fg := Having(im, 1);
    ghost var done: set<Point> := {};
    for i := 0 to n
      invariant fg == Having(im, 1) && Between(fg, Marks(status), done) && Listed(fg, contours, done)
      invariant Covered(fg, done, i, 0)
    {
      hide Listed, Between, Covered, Marks;
      for j := 0 to n
        invariant fg == Having(im, 1) && Between(fg, Marks(status), done) && Listed(fg, contours, done)
        invariant Covered(fg, done, i, j)
      {
        contours, done := ListComponentAt(im, status, i, j, contours, fg, done);
      }
      assert Covered(fg, done, i + 1, 0) by { ColumnCovered(im, fg, done, i); }
    }
    ListedIsPartition(fg, contours, done);
  }

  lemma ColumnCovered(im: array2<int>, fg: set<Point>, done: set<Point>, i: int)
    requires fg == Having(im, 1) && Covered(fg, done, i, im.Length1)
    ensures Covered(fg, done, i + 1, 0)
  {
  }
}
