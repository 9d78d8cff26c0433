/** Greedy non-maximum suppression of detections, class by class. */
module Suppression {
  import opened Permutations
  import R = Rectangles

  /** A box by its centre and its sides, as a detector reports it: the sides are positive. */
  datatype Box = Box(x: real, y: real, w: real, h: real) {
    predicate Valid() {
      w > 0.0 && h > 0.0
    }
  }

  function Overlap(x1: real, w1: real, x2: real, w2: real): real {
    var l1, l2 := x1 - w1 / 2.0, x2 - w2 / 2.0;
    var r1, r2 := x1 + w1 / 2.0, x2 + w2 / 2.0;
    (if r1 < r2 then r1 else r2) - (if l1 > l2 then l1 else l2)
  }

  function Intersection(a: Box, b: Box): real {
    var w, h := Overlap(a.x, a.w, b.x, b.w), Overlap(a.y, a.h, b.y, b.h);
    if w < 0.0 || h < 0.0 then 0.0 else w * h
  }

  function Union(a: Box, b: Box): real {
    a.w * a.h + b.w * b.h - Intersection(a, b)
  }

  lemma ProductIsMonotone(a: real, b: real, c: real, d: real)
    requires 0.0 <= a <= c && 0.0 <= b <= d
    ensures 0.0 <= a * b <= c * d
  {
    assert a * b <= c * b;
    assert c * b <= c * d;
  }

  lemma ProductIsPositive(a: real, b: real)
    requires a > 0.0 && b > 0.0
    ensures a * b > 0.0
  {
  }

  lemma OverlapIsWithin(x1: real, w1: real, x2: real, w2: real)
    ensures Overlap(x1, w1, x2, w2) <= w1 && Overlap(x1, w1, x2, w2) == Overlap(x2, w2, x1, w1)
  {
  }

  /** The intersection is no larger than either box. */
  lemma IntersectionIsWithin(a: Box, b: Box)
    requires a.Valid() && b.Valid()
    ensures 0.0 <= Intersection(a, b) <= a.w * a.h && Intersection(a, b) == Intersection(b, a)
  {
    hide Overlap;
    var w, h := Overlap(a.x, a.w, b.x, b.w), Overlap(a.y, a.h, b.y, b.h);
    OverlapIsWithin(a.x, a.w, b.x, b.w);
    OverlapIsWithin(a.y, a.h, b.y, b.h);
    ProductIsPositive(a.w, a.h);
    if w >= 0.0 && h >= 0.0 {
      ProductIsMonotone(w, h, a.w, a.h);
    }
  }

  lemma UnionIsPositive(a: Box, b: Box)
    requires a.Valid() && b.Valid()
    ensures 0.0 <= Intersection(a, b) <= Union(a, b) && Union(a, b) > 0.0 && Union(a, b) == Union(b, a)
  {
    hide Intersection;
    IntersectionIsWithin(a, b);
    IntersectionIsWithin(b, a);
    ProductIsPositive(a.w, a.h);
    ProductIsPositive(b.w, b.h);
  }

  function Iou(a: Box, b: Box): real
    requires a.Valid() && b.Valid()
  {
    UnionIsPositive(a, b);
    Intersection(a, b) / Union(a, b)
  }

  lemma IouIsARatio(a: Box, b: Box)
    requires a.Valid() && b.Valid()
    ensures 0.0 <= Iou(a, b) <= 1.0 && Iou(a, b) == Iou(b, a)
  {
    hide Intersection, Union;
    UnionIsPositive(a, b);
    IntersectionIsWithin(a, b);
    Quotient(Intersection(a, b), Union(a, b));
  }

  lemma Quotient(i: real, u: real)
    requires 0.0 <= i <= u && u > 0.0
    ensures 0.0 <= i / u <= 1.0
  {
  }

  /** The rectangle of a box. */
  function Region(b: Box): R.Rectangle {
    R.Rectangle(b.x - b.w / 2.0, b.y - b.h / 2.0, b.x + b.w / 2.0, b.y + b.h / 2.0)
  }

  lemma IntersectionIsShared(a: Box, b: Box)
    ensures Intersection(a, b) == R.Shared(Region(a), Region(b))
  {
    var w, h := Overlap(a.x, a.w, b.x, b.w), Overlap(a.y, a.h, b.y, b.h);
    var p, q := Region(a), Region(b);
    assert w == R.Smaller(p.right, q.right) - R.Larger(p.left, q.left);
    assert h == R.Smaller(p.bottom, q.bottom) - R.Larger(p.top, q.top);
    if w == 0.0 {
      assert w * h == 0.0;
    } else if h == 0.0 {
      assert w * h == 0.0;
    }
  }

  /** The intersection is the area of the points both boxes have. */
  lemma IntersectionMeasures(a: Box, b: Box)
    ensures R.Measures(Intersection(a, b), Region(a), Region(b))
  {
    hide R.Measures, R.Shared, Intersection;
    R.SharedMeasures(Region(a), Region(b));
    IntersectionIsShared(a, b);
  }

  lemma AreaOfRegion(a: Box)
    ensures Region(a).Area() == a.w * a.h
  {
    var r := Region(a);
    assert r.right - r.left == a.w && r.bottom - r.top == a.h;
  }

  /** The overlap of two boxes is the area they have in common over the area they cover together. */
  lemma IouMeasures(a: Box, b: Box)
    requires a.Valid() && b.Valid()
    ensures R.IsIou(Iou(a, b), Region(a), Region(b))
  {
    hide R.Measures, Intersection, Region;
    var m := Intersection(a, b);
    IntersectionMeasures(a, b);
    UnionIsPositive(a, b);
    AreaOfRegion(a);
    AreaOfRegion(b);
    if m == 0.0 {
      assert Iou(a, b) == 0.0 / Union(a, b) == 0.0;
    }
    assert R.IsRatio(Iou(a, b), m, Region(a).Area() + Region(b).Area() - m);
  }

  datatype Detection = Detection(box: Box, objectness: real, prob: seq<real>, sortClass: int)

  /** What the suppression relies on: a score for every class. */
  ghost predicate Scored(ds: seq<Detection>, classes: nat) {
    forall i :: 0 <= i < |ds| ==> ds[i].box.Valid() && |ds[i].prob| >= classes
  }

  // ---- the processed prefix --------------------------------------------------------------------

  /** t holds the elements of s, in the order o. */
  ghost predicate Rearranged<T>(s: seq<T>, t: seq<T>, o: seq<int>) {
    IsPermutation(o, |s|) && |t| == |s| && forall i :: 0 <= i < |s| ==> t[i] == s[o[i]]
  }

  ghost function Identity(n: nat): seq<int> {
    seq(n, i => i)
  }

  lemma IdentityRearranges<T>(s: seq<T>)
    ensures Rearranged(s, s, Identity(|s|))
  {
  }

  lemma RearrangedLengths<T>(s: seq<T>, t: seq<T>, o: seq<int>)
    requires Rearranged(s, t, o)
    ensures |s| == |t| == |o|
  {
  }

  lemma SwapRearranges<T>(s: seq<T>, t: seq<T>, o: seq<int>, a: nat, b: nat)
    requires Rearranged(s, t, o) && a < |s| && b < |s|
    ensures Rearranged(s, t[a := t[b]][b := t[a]], o[a := o[b]][b := o[a]])
  {
  }

  /** Detections without any object move to the end; whatever is left out has none, and of what
      is kept only the last may have none. */
  method MoveEmptyBack(dets: array<Detection>) returns (total: nat, ghost o: seq<int>)
    modifies dets
    ensures total <= dets.Length && Rearranged(old(dets[..]), dets[..], o)
    ensures forall i :: total <= i < dets.Length ==> dets[i].objectness == 0.0
    ensures forall i :: 0 <= i < total - 1 ==> dets[i].objectness != 0.0
    ensures dets.Length > 0 ==> total > 0
  {
    hide Rearranged;
    ghost var start := dets[..];
    o := Identity(dets.Length);
    IdentityRearranges(start);
    var k, cnt := dets.Length - 1, 0;
    while cnt < k
      invariant 0 <= cnt && -1 <= k < dets.Length && cnt <= if dets.Length == 0 then 0 else k
      invariant Rearranged(start, dets[..], o)
      invariant forall i :: k < i < dets.Length ==> dets[i].objectness == 0.0
      invariant forall i :: 0 <= i < cnt ==> dets[i].objectness != 0.0
      decreases k - cnt
    {
      if dets[cnt].objectness == 0.0 {
        RearrangedLengths(start, dets[..], o);
        SwapRearranges(start, dets[..], o, k, cnt);
        ghost var before := dets[..];
        dets[k], dets[cnt] := dets[cnt], dets[k];
        assert dets[..] == before[k := before[cnt]][cnt := before[k]];
        o := o[k := o[cnt]][cnt := o[k]];
        k := k - 1;
      } else {
        cnt := cnt + 1;
      }
    }
    total := k + 1;
  }

  // ---- sorting ---------------------------------------------------------------------------------

  /** All are to be sorted by class k. */
  ghost predicate ByClass(s: seq<Detection>, k: nat) {
    forall i :: 0 <= i < |s| ==> s[i].sortClass == k && |s[i].prob| > k
  }

  /** The comparator: the class to sort by is the one noted in the second argument. */
  function Difference(a: Detection, b: Detection): real
    requires b.sortClass >= 0 ==> |a.prob| > b.sortClass && |b.prob| > b.sortClass
  {
    if b.sortClass >= 0 then a.prob[b.sortClass] - b.prob[b.sortClass] else a.objectness - b.objectness
  }

  /** Puts place d behind all places of o whose detections are no smaller. */
  function Inserted(s: seq<Detection>, k: nat, o: seq<int>, d: int): (p: seq<int>)
    requires ByClass(s, k) && InRange(o, |s|) && 0 <= d < |s|
    ensures InRange(p, |s|)
  {
    if o == [] then [d]
    else
      var m := |o| - 1;
      if Difference(s[o[m]], s[d]) >= 0.0 then o + [d] else Inserted(s, k, o[..m], d) + [o[m]]
  }

  /** The places of the first n detections, highest first; equal ones stay in their order. */
  function Order(s: seq<Detection>, k: nat, n: nat): (o: seq<int>)
    requires ByClass(s, k) && n <= |s|
    ensures InRange(o, |s|)
  {
    if n == 0 then [] else Inserted(s, k, Order(s, k, n - 1), n - 1)
  }

  function Sorted(s: seq<Detection>, k: nat): seq<Detection>
    requires ByClass(s, k)
  {
    var o := Order(s, k, |s|);
    seq(|o|, i requires 0 <= i < |o| => s[o[i]])
  }

  /** Highest first, and in the original order among equals. */
  ghost predicate InOrder(s: seq<Detection>, k: nat, o: seq<int>)
    requires ByClass(s, k) && InRange(o, |s|)
  {
    forall i, j :: 0 <= i < j < |o| ==> Ahead(s, k, o[i], o[j])
  }

  ghost predicate Ahead(s: seq<Detection>, k: nat, a: int, b: int)
    requires ByClass(s, k) && 0 <= a < |s| && 0 <= b < |s|
  {
    s[a].prob[k] > s[b].prob[k] || (s[a].prob[k] == s[b].prob[k] && a < b)
  }

  lemma AppendKeepsOrder(s: seq<Detection>, k: nat, o: seq<int>, e: int)
    requires ByClass(s, k) && InRange(o, |s|) && 0 <= e < |s|
    requires InOrder(s, k, o) && forall i :: 0 <= i < |o| ==> Ahead(s, k, o[i], e)
    ensures InOrder(s, k, o + [e])
  {
  }

  lemma {:induction false} InsertedElements(s: seq<Detection>, k: nat, o: seq<int>, d: int)
    requires ByClass(s, k) && InRange(o, |s|) && 0 <= d < |s|
    ensures |Inserted(s, k, o, d)| == |o| + 1
    ensures forall e :: e in Inserted(s, k, o, d) <==> e in o || e == d
  {
    if o != [] {
      var m := |o| - 1;
      assert o == o[..m] + [o[m]];
      InsertedElements(s, k, o[..m], d);
    }
  }

  lemma {:induction false} InsertedIsInOrder(s: seq<Detection>, k: nat, o: seq<int>, d: int)
    requires ByClass(s, k) && InRange(o, |s|) && 0 <= d < |s|
    requires InOrder(s, k, o) && forall i :: 0 <= i < |o| ==> o[i] < d
    ensures InOrder(s, k, Inserted(s, k, o, d))
  {
    if o == [] {
      AppendKeepsOrder(s, k, [], d);
    } else {
      var m := |o| - 1;
      if Difference(s[o[m]], s[d]) >= 0.0 {
        BehindTheLast(s, k, o, d);
        AppendKeepsOrder(s, k, o, d);
      } else {
        InsertedIsInOrder(s, k, o[..m], d);
        var q := Inserted(s, k, o[..m], d);
        InsertedElements(s, k, o[..m], d);
        forall i | 0 <= i < |q| ensures Ahead(s, k, q[i], o[m]) {
          assert q[i] in q;
          if q[i] != d {
            var j :| 0 <= j < m && o[j] == q[i];
          }
        }
        AppendKeepsOrder(s, k, q, o[m]);
      }
    }
  }

  lemma BehindTheLast(s: seq<Detection>, k: nat, o: seq<int>, d: int)
    requires ByClass(s, k) && InRange(o, |s|) && 0 <= d < |s| && o != []
    requires InOrder(s, k, o) && Ahead(s, k, o[|o| - 1], d)
    ensures forall i :: 0 <= i < |o| ==> Ahead(s, k, o[i], d)
  {
    forall i | 0 <= i < |o| ensures Ahead(s, k, o[i], d) {
      assert i < |o| - 1 ==> Ahead(s, k, o[i], o[|o| - 1]);
    }
  }

  lemma InOrderIsDistinct(s: seq<Detection>, k: nat, o: seq<int>)
    requires ByClass(s, k) && InRange(o, |s|) && InOrder(s, k, o)
    ensures Distinct(o)
  {
    forall i, j | 0 <= i < j < |o| ensures o[i] != o[j] {
      assert Ahead(s, k, o[i], o[j]);
    }
  }

  lemma {:induction false} OrderIsInOrder(s: seq<Detection>, k: nat, n: nat)
    requires ByClass(s, k) && n <= |s|
    ensures IsPermutation(Order(s, k, n), n) && InOrder(s, k, Order(s, k, n))
  {
    hide InOrder, Inserted, ByClass, Distinct;
    if n == 0 {
      InOrderOfNone(s, k);
    } else {
      var o := Order(s, k, n - 1);
      OrderIsInOrder(s, k, n - 1);
      InsertedIsInOrder(s, k, o, n - 1);
      InsertedElements(s, k, o, n - 1);
      var p := Order(s, k, n);
      forall i | 0 <= i < |p| ensures 0 <= p[i] < n {
        assert p[i] in p;
      }
    }
    InOrderIsDistinct(s, k, Order(s, k, n));
  }

  lemma InOrderOfNone(s: seq<Detection>, k: nat)
    requires ByClass(s, k)
    ensures InOrder(s, k, [])
  {
  }

  /** Sorting rearranges, and puts the higher scores of the class first. */
  lemma SortedIsSorted(s: seq<Detection>, k: nat)
    requires ByClass(s, k)
    ensures Rearranged(s, Sorted(s, k), Order(s, k, |s|))
    ensures forall i, j :: 0 <= i < j < |s| ==> Sorted(s, k)[i].prob[k] >= Sorted(s, k)[j].prob[k]
  {
    OrderIsInOrder(s, k, |s|);
  }

  // ---- one class -------------------------------------------------------------------------------

  /** The score of class k set to zero. */
  function Dropped(d: Detection, k: nat): Detection
    requires k < |d.prob|
  {
    d.(prob := d.prob[k := 0.0])
  }

  /** Row i, if it is still in, drops what comes after it and overlaps it too much. */
  function RowDrops(ds: seq<Detection>, total: nat, k: nat, thresh: real, i: nat): (r: seq<Detection>)
    requires i < total <= |ds| && Scored(ds, k + 1)
    ensures |r| == |ds| && Scored(r, k + 1)
  {
    seq(|ds|, j requires 0 <= j < |ds| =>
      if i < j < total && ds[i].prob[k] != 0.0 && Iou(ds[i].box, ds[j].box) > thresh then Dropped(ds[j], k) else ds[j])
  }

  /** The first n rows, one after the other. */
  function RowsDrop(ds: seq<Detection>, total: nat, k: nat, thresh: real, n: nat): (r: seq<Detection>)
    requires n <= total <= |ds| && Scored(ds, k + 1)
    ensures |r| == |ds| && Scored(r, k + 1)
  {
    if n == 0 then ds else RowDrops(RowsDrop(ds, total, k, thresh, n - 1), total, k, thresh, n - 1)
  }

  /** Detection i is still in, with its own score, and overlaps j too much. */
  ghost predicate Beats(s: seq<Detection>, r: seq<Detection>, k: nat, thresh: real, i: int, j: int)
    requires |s| == |r| && Scored(s, k + 1) && Scored(r, k + 1) && 0 <= i < |s| && 0 <= j < |s|
  {
    r[i].prob[k] == s[i].prob[k] != 0.0 && Iou(s[i].box, s[j].box) > thresh
  }

  /** The greedy choice after n rows: a detection is dropped only for an earlier one that is
      still in, and no two that are still in, the first among the rows done, overlap too much. */
  ghost predicate Greedy(s: seq<Detection>, r: seq<Detection>, total: nat, k: nat, thresh: real, n: nat)
    requires n <= total <= |s| && Scored(s, k + 1)
  {
    && |r| == |s| && Scored(r, k + 1)
    && (forall j :: 0 <= j < |s| ==> r[j] == s[j] || r[j] == Dropped(s[j], k))
    && (forall j :: 0 <= j < |s| && r[j] != s[j] ==> j < total && exists i :: 0 <= i < j && i < n && Beats(s, r, k, thresh, i, j))
    && (forall i, j :: 0 <= i < n && i < j < total && r[i].prob[k] != 0.0 && r[j].prob[k] != 0.0 ==>
         Iou(s[i].box, s[j].box) <= thresh)
  }

  lemma {:induction false} RowsDropGreedily(s: seq<Detection>, total: nat, k: nat, thresh: real, n: nat)
    requires n <= total <= |s| && Scored(s, k + 1)
    ensures Greedy(s, RowsDrop(s, total, k, thresh, n), total, k, thresh, n)
  {
    if n > 0 {
      RowsDropGreedily(s, total, k, thresh, n - 1);
      var q, r := RowsDrop(s, total, k, thresh, n - 1), RowsDrop(s, total, k, thresh, n);
      RowKeepsGreedy(s, q, r, total, k, thresh, n);
    }
  }

  /** What one row does to one detection. */
  lemma RowDropsOne(q: seq<Detection>, total: nat, k: nat, thresh: real, i: nat, j: nat)
    requires i < total <= |q| && Scored(q, k + 1) && j < |q|
    ensures var r := RowDrops(q, total, k, thresh, i);
      && r[i] == q[i] && (r[j] == q[j] || (i < j < total && r[j] == Dropped(q[j], k)))
      && (r[j] != q[j] ==> q[i].prob[k] != 0.0 && Iou(q[i].box, q[j].box) > thresh)
      && (i < j < total && q[i].prob[k] != 0.0 && r[j].prob[k] != 0.0 ==> Iou(q[i].box, q[j].box) <= thresh)
  {
    hide Iou;
  }

  lemma RowKeepsGreedy(s: seq<Detection>, q: seq<Detection>, r: seq<Detection>, total: nat, k: nat, thresh: real, n: nat)
    requires 0 < n <= total <= |s| && Scored(s, k + 1)
    requires Greedy(s, q, total, k, thresh, n - 1) && r == RowDrops(q, total, k, thresh, n - 1)
    ensures Greedy(s, r, total, k, thresh, n)
  {
    hide Iou, RowDrops;
    forall j | 0 <= j < |s|
      ensures r[j] == s[j] || r[j] == Dropped(s[j], k)
      ensures r[j] == q[j] || (n - 1 < j && r[j].prob[k] == 0.0)
    {
      RowDropsOne(q, total, k, thresh, n - 1, j);
    }
    forall j | 0 <= j < |s| && r[j] != s[j]
      ensures j < total && exists i :: 0 <= i < j && i < n && Beats(s, r, k, thresh, i, j)
    {
      RowDropsOne(q, total, k, thresh, n - 1, j);
      if q[j] != s[j] {
        var i :| 0 <= i < j && i < n - 1 && Beats(s, q, k, thresh, i, j);
        assert r[i] == q[i];
        assert Beats(s, r, k, thresh, i, j);
      } else {
        assert Beats(s, r, k, thresh, n - 1, j);
      }
    }
    forall i, j | 0 <= i < n && i < j < total && r[i].prob[k] != 0.0 && r[j].prob[k] != 0.0
      ensures Iou(s[i].box, s[j].box) <= thresh
    {
      RowDropsOne(q, total, k, thresh, n - 1, j);
    }
  }

  /** If two greedy choices agree before d, and one drops d, so does the other. */
  lemma DroppedByBoth(s: seq<Detection>, q: seq<Detection>, r: seq<Detection>, total: nat, k: nat, thresh: real, d: nat)
    requires total <= |s| && Scored(s, k + 1) && d < |s|
    requires Greedy(s, q, total, k, thresh, total) && Greedy(s, r, total, k, thresh, total)
    requires forall i :: 0 <= i < d ==> q[i] == r[i]
    ensures q[d] != s[d] ==> r[d] == q[d]
  {
    hide Iou;
    if q[d] != s[d] {
      var i :| 0 <= i < d && i < total && Beats(s, q, k, thresh, i, d);
      assert r[i] == q[i];
      assert r[d].prob[k] == 0.0;
      DroppingNothing(s[d], k);
    }
  }

  lemma DroppingNothing(d: Detection, k: nat)
    requires k < |d.prob|
    ensures d.prob[k] == 0.0 ==> Dropped(d, k) == d
  {
  }

  /** The greedy choice is the only one of its kind. */
  lemma {:induction false} GreedyIsUnique(s: seq<Detection>, q: seq<Detection>, r: seq<Detection>, total: nat, k: nat, thresh: real, j: nat)
    requires total <= |s| && Scored(s, k + 1) && j <= |s|
    requires Greedy(s, q, total, k, thresh, total) && Greedy(s, r, total, k, thresh, total)
    ensures forall i :: 0 <= i < j ==> q[i] == r[i]
  {
    if j > 0 {
      hide Greedy, Scored;
      GreedyIsUnique(s, q, r, total, k, thresh, j - 1);
      GreedyLengths(s, q, total, k, thresh);
      GreedyLengths(s, r, total, k, thresh);
      DroppedByBoth(s, q, r, total, k, thresh, j - 1);
      DroppedByBoth(s, r, q, total, k, thresh, j - 1);
    }
  }

  lemma GreedyLengths(s: seq<Detection>, r: seq<Detection>, total: nat, k: nat, thresh: real)
    requires total <= |s| && Scored(s, k + 1) && Greedy(s, r, total, k, thresh, total)
    ensures |r| == |s|
  {
  }

  // ---- class after class -------------------------------------------------------------------------

  /** r holds the detections of s in the order o; only scores may differ. */
  ghost predicate Holds(s: seq<Detection>, r: seq<Detection>, o: seq<int>) {
    && IsPermutation(o, |s|) && |r| == |s|
    && forall j :: 0 <= j < |s| ==>
         r[j].box == s[o[j]].box && r[j].objectness == s[o[j]].objectness && |r[j].prob| == |s[o[j]].prob|
  }

  /** Detection i kept its score of class c, which is at least the one j had, and overlaps j too much. */
  ghost predicate Outdoes(s: seq<Detection>, r: seq<Detection>, o: seq<int>, c: nat, thresh: real, i: int, j: int)
    requires Holds(s, r, o) && Scored(s, c + 1) && 0 <= i < |s| && 0 <= j < |s|
  {
    && r[i].prob[c] == s[o[i]].prob[c] != 0.0 && r[i].prob[c] >= s[o[j]].prob[c]
    && Iou(r[i].box, r[j].box) > thresh
  }

  /** No two detections still in for class c overlap too much, and every one that was dropped is
      outdone by one that is still in. */
  ghost predicate ClassSettled(s: seq<Detection>, r: seq<Detection>, o: seq<int>, total: nat, c: nat, thresh: real)
    requires Holds(s, r, o) && Scored(s, c + 1) && total <= |s|
  {
    && (forall j :: 0 <= j < total && r[j].prob[c] != s[o[j]].prob[c] ==>
         r[j].prob[c] == 0.0 && exists i :: 0 <= i < total && Outdoes(s, r, o, c, thresh, i, j))
    && (forall i, j :: 0 <= i < j < total && r[i].prob[c] != 0.0 && r[j].prob[c] != 0.0 ==> Iou(r[i].box, r[j].box) <= thresh)
  }

  /** The scores of the classes from `done` on, and all behind the prefix, are as they were. */
  ghost predicate RestUntouched(s: seq<Detection>, r: seq<Detection>, o: seq<int>, total: nat, done: nat)
    requires Holds(s, r, o)
  {
    forall j, c :: 0 <= j < |s| && 0 <= c < |r[j].prob| && (c >= done || j >= total) ==> r[j].prob[c] == s[o[j]].prob[c]
  }

  ghost predicate Settled(s: seq<Detection>, r: seq<Detection>, o: seq<int>, total: nat, done: nat, thresh: real) {
    && Holds(s, r, o) && Scored(s, done) && total <= |s| && RestUntouched(s, r, o, total, done)
    && forall c: nat :: c < done ==> ClassSettled(s, r, o, total, c, thresh)
  }

  /** u holds the same as r; only the prefix is in another order, given by e. */
  ghost predicate PrefixRearranged(r: seq<Detection>, u: seq<Detection>, total: nat, e: seq<int>) {
    && total <= |r| == |u| && IsPermutation(e, |r|)
    && (forall j :: 0 <= j < total ==> e[j] < total) && (forall j :: total <= j < |r| ==> e[j] == j)
    && forall j :: 0 <= j < |r| ==> u[j].box == r[e[j]].box && u[j].objectness == r[e[j]].objectness && u[j].prob == r[e[j]].prob
  }

  ghost function Composed(o: seq<int>, e: seq<int>): seq<int>
    requires InRange(e, |o|)
  {
    seq(|e|, j requires 0 <= j < |e| => o[e[j]])
  }

  lemma HoldsRearranged(s: seq<Detection>, r: seq<Detection>, o: seq<int>, u: seq<Detection>, total: nat, e: seq<int>)
    requires Holds(s, r, o) && PrefixRearranged(r, u, total, e)
    ensures Holds(s, u, Composed(o, e))
  {
  }

  /** Every place of the prefix is one of the new order's. */
  lemma Comes(e: seq<int>, n: nat, total: nat, i: int) returns (j: int)
    requires IsPermutation(e, n) && total <= n && 0 <= i < total
    requires forall k :: total <= k < n ==> e[k] == k
    ensures 0 <= j < total && e[j] == i
  {
    PermutationIsOnto(e, n, i);
    j :| 0 <= j < n && e[j] == i;
  }

  lemma ClassStaysSettled(
    s: seq<Detection>, r: seq<Detection>, o: seq<int>, u: seq<Detection>, total: nat, e: seq<int>, c: nat, thresh: real)
    requires Holds(s, r, o) && Scored(s, c + 1) && total <= |s| && ClassSettled(s, r, o, total, c, thresh)
    requires PrefixRearranged(r, u, total, e)
    ensures Holds(s, u, Composed(o, e)) && ClassSettled(s, u, Composed(o, e), total, c, thresh)
  {
    hide Iou;
    HoldsRearranged(s, r, o, u, total, e);
    var q := Composed(o, e);
    forall j | 0 <= j < total && u[j].prob[c] != s[q[j]].prob[c]
      ensures u[j].prob[c] == 0.0 && exists i :: 0 <= i < total && Outdoes(s, u, q, c, thresh, i, j)
    {
      var i :| 0 <= i < total && Outdoes(s, r, o, c, thresh, i, e[j]);
      var m := Comes(e, |s|, total, i);
      assert Outdoes(s, u, q, c, thresh, m, j);
    }
    forall i, j | 0 <= i < j < total && u[i].prob[c] != 0.0 && u[j].prob[c] != 0.0
      ensures Iou(u[i].box, u[j].box) <= thresh
    {
      IouIsARatio(u[i].box, u[j].box);
      assert e[i] != e[j];
    }
  }

  lemma RearrangingStaysSettled(
    s: seq<Detection>, r: seq<Detection>, o: seq<int>, u: seq<Detection>, total: nat, e: seq<int>, done: nat, thresh: real)
    requires Settled(s, r, o, total, done, thresh) && PrefixRearranged(r, u, total, e)
    ensures Settled(s, u, Composed(o, e), total, done, thresh)
  {
    hide ClassSettled, Iou;
    HoldsRearranged(s, r, o, u, total, e);
    forall c: nat | c < done ensures ClassSettled(s, u, Composed(o, e), total, c, thresh) {
      ClassStaysSettled(s, r, o, u, total, e, c, thresh);
    }
  }

  lemma DroppingSettles(
    s: seq<Detection>, u: seq<Detection>, o: seq<int>, r: seq<Detection>, total: nat, k: nat, thresh: real)
    requires Settled(s, u, o, total, k, thresh) && Scored(s, k + 1) && Scored(u, k + 1)
    requires Greedy(u, r, total, k, thresh, total)
    requires forall i, j :: 0 <= i < j < total ==> u[i].prob[k] >= u[j].prob[k]
    ensures Settled(s, r, o, total, k + 1, thresh)
  {
    hide Iou;
    assert Holds(s, r, o);
    assert ClassSettled(s, r, o, total, k, thresh) by {
      forall j | 0 <= j < total && r[j].prob[k] != s[o[j]].prob[k]
        ensures r[j].prob[k] == 0.0 && exists i :: 0 <= i < total && Outdoes(s, r, o, k, thresh, i, j)
      {
        assert u[j].prob[k] == s[o[j]].prob[k];
        var i :| 0 <= i < j && i < total && Beats(u, r, k, thresh, i, j);
        assert Outdoes(s, r, o, k, thresh, i, j);
      }
    }
    forall c: nat | c < k ensures ClassSettled(s, r, o, total, c, thresh) {
      OtherClassKept(s, u, o, r, total, k, c, thresh);
    }
  }

  lemma OtherClassKept(
    s: seq<Detection>, u: seq<Detection>, o: seq<int>, r: seq<Detection>, total: nat, k: nat, c: nat, thresh: real)
    requires Holds(s, u, o) && Holds(s, r, o) && Scored(s, k + 1) && c < k && total <= |s|
    requires ClassSettled(s, u, o, total, c, thresh)
    requires forall j :: 0 <= j < |s| ==> r[j] == u[j] || r[j] == Dropped(u[j], k)
    ensures ClassSettled(s, r, o, total, c, thresh)
  {
    hide Iou;
    forall j | 0 <= j < total && r[j].prob[c] != s[o[j]].prob[c]
      ensures r[j].prob[c] == 0.0 && exists i :: 0 <= i < total && Outdoes(s, r, o, c, thresh, i, j)
    {
      var i :| 0 <= i < total && Outdoes(s, u, o, c, thresh, i, j);
      assert Outdoes(s, r, o, c, thresh, i, j);
    }
  }

  // ---- in place ----------------------------------------------------------------------------------

  function Noted(d: Detection, k: nat): Detection {
    d.(sortClass := k)
  }

  /** The order of the whole list when its prefix is sorted. */
  ghost function PrefixOrder(s: seq<Detection>, total: nat, k: nat): seq<int>
    requires total <= |s| && ByClass(s[..total], k)
  {
    Order(s[..total], k, total) + seq(|s| - total, i => total + i)
  }

  lemma SortingRearranges(r: seq<Detection>, s: seq<Detection>, u: seq<Detection>, total: nat, k: nat)
    requires total <= |r| == |s| && ByClass(s[..total], k)
    requires forall j :: 0 <= j < |r| ==> s[j] == r[j] || s[j] == Noted(r[j], k)
    requires u == Sorted(s[..total], k) + s[total..]
    ensures PrefixRearranged(r, u, total, PrefixOrder(s, total, k))
    ensures forall i, j :: 0 <= i < j < total ==> |u[i].prob| > k && |u[j].prob| > k && u[i].prob[k] >= u[j].prob[k]
  {
    hide Order, Sorted;
    var p := s[..total];
    SortedIsSorted(p, k);
    var o := Order(p, k, total);
    forall j | 0 <= j < total ensures u[j] == s[o[j]] {
      assert u[j] == Sorted(p, k)[j] == p[o[j]];
    }
    forall i | 0 <= i < total ensures |u[i].prob| > k {
      assert u[i] == p[o[i]];
    }
    assert forall i, j :: 0 <= i < j < total ==> u[i] == Sorted(p, k)[i] && u[j] == Sorted(p, k)[j];
  }

  /** Every detection of the prefix notes the class it is to be sorted by. */
  method NoteClass(dets: array<Detection>, total: nat, k: nat)
    requires total <= dets.Length
    modifies dets
    ensures forall j :: 0 <= j < dets.Length ==> dets[j] == if j < total then Noted(old(dets[j]), k) else old(dets[j])
  {
    for i := 0 to total
      invariant forall j :: 0 <= j < dets.Length ==> dets[j] == if j < i then Noted(old(dets[j]), k) else old(dets[j])
    {
      dets[i] := Noted(dets[i], k);
    }
  }

  method SortPrefix(dets: array<Detection>, total: nat, k: nat)
    requires total <= dets.Length && ByClass(dets[..total], k)
    modifies dets
    ensures dets[..] == Sorted(old(dets[..total]), k) + old(dets[total..])
  {
    hide Sorted;
    SortedIsSorted(dets[..total], k);
    var sorted := Sorted(dets[..total], k);
    ghost var rest := dets[total..];
    for i := 0 to total
      invariant dets[..i] == sorted[..i] && dets[total..] == rest
    {
      dets[i] := sorted[i];
    }
    assert dets[..] == dets[..total] + dets[total..];
  }

  method DropRow(dets: array<Detection>, total: nat, k: nat, thresh: real, i: nat)
    requires i < total <= dets.Length && Scored(dets[..], k + 1)
    modifies dets
    ensures dets[..] == RowDrops(old(dets[..]), total, k, thresh, i)
  {
    hide Iou;
    ghost var s := dets[..];
    ghost var r := RowDrops(s, total, k, thresh, i);
    assert s[i].box.Valid() && |s[i].prob| > k;
    if dets[i].prob[k] == 0.0 {
      assert r == s;
      return;
    }
    var a := dets[i].box;
    for j := i + 1 to total
      invariant forall m :: 0 <= m < dets.Length ==> dets[m] == if i < m < j then r[m] else s[m]
    {
      assert s[j].box.Valid() && |s[j].prob| > k;
      if Iou(a, dets[j].box) > thresh {
        dets[j] := Dropped(dets[j], k);
      }
    }
    assert dets[..] == r;
  }

  /** One class: the prefix is sorted by its scores, and each row still in drops what it outdoes. */
  method SuppressClass(dets: array<Detection>, total: nat, k: nat, thresh: real, ghost s: seq<Detection>, ghost o: seq<int>)
    returns (ghost q: seq<int>)
    requires total <= dets.Length && Scored(s, k + 1) && Settled(s, dets[..], o, total, k, thresh)
    modifies dets
    ensures Settled(s, dets[..], q, total, k + 1, thresh)
    ensures dets[total..] == old(dets[total..])
  {
    hide Settled, Sorted, RowDrops, Iou, Scored, PrefixOrder, PrefixRearranged;
    ghost var r := dets[..];
    SettledIsScored(s, r, o, total, k, thresh);
    NoteClass(dets, total, k);
    ghost var noted := dets[..];
    NotedIsByClass(r, noted, total, k);
    SortPrefix(dets, total, k);
    ghost var u := dets[..];
    SortingRearranges(r, noted, u, total, k);
    q := Composed(o, PrefixOrder(noted, total, k)) by { PrefixOrderFits(r, u, o, total, PrefixOrder(noted, total, k)); }
    RearrangingStaysSettled(s, r, o, u, total, PrefixOrder(noted, total, k), k, thresh);
    SettledIsScored(s, u, q, total, k, thresh);
    for i := 0 to total
      invariant dets[..] == RowsDrop(u, total, k, thresh, i)
    {
      DropRow(dets, total, k, thresh, i);
    }
    RowsDropGreedily(u, total, k, thresh, total);
    DroppingSettles(s, u, q, dets[..], total, k, thresh);
    OnlyPrefixChanges(u, dets[..], total, k, thresh);
    assert u[total..] == noted[total..] == r[total..];
  }

  lemma OnlyPrefixChanges(u: seq<Detection>, r: seq<Detection>, total: nat, k: nat, thresh: real)
    requires total <= |u| && Scored(u, k + 1) && Greedy(u, r, total, k, thresh, total)
    ensures |r| == |u| && r[total..] == u[total..]
  {
  }

  lemma StartIsSettled(s: seq<Detection>, r: seq<Detection>, o: seq<int>, total: nat, thresh: real)
    requires Rearranged(s, r, o) && Scored(s, 0) && total <= |s|
    ensures Settled(s, r, o, total, 0, thresh)
  {
  }

  lemma ScoredForFewer(s: seq<Detection>, classes: nat, k: nat)
    requires Scored(s, classes) && k <= classes
    ensures Scored(s, k)
  {
  }

  lemma SettledIsScored(s: seq<Detection>, r: seq<Detection>, o: seq<int>, total: nat, k: nat, thresh: real)
    requires Scored(s, k + 1) && Settled(s, r, o, total, k, thresh)
    ensures Scored(r, k + 1) && |r| == |s| == |o| && total <= |s|
  {
    forall j | 0 <= j < |r| ensures r[j].box.Valid() && |r[j].prob| >= k + 1 {
      assert s[o[j]].box.Valid();
    }
  }

  lemma NotedIsByClass(r: seq<Detection>, noted: seq<Detection>, total: nat, k: nat)
    requires Scored(r, k + 1) && total <= |r| == |noted|
    requires forall j :: 0 <= j < |r| ==> noted[j] == if j < total then Noted(r[j], k) else r[j]
    ensures ByClass(noted[..total], k)
  {
  }

  lemma PrefixOrderFits(r: seq<Detection>, u: seq<Detection>, o: seq<int>, total: nat, e: seq<int>)
    requires PrefixRearranged(r, u, total, e) && |o| == |r|
    ensures InRange(e, |o|)
  {
  }

  /** Suppresses the detections of every class. `o` tells where each of them came from: detections
      with an object stay in the processed prefix, and every class of it is settled. */
  method Suppress(dets: array<Detection>, classes: nat, thresh: real) returns (total: nat, ghost o: seq<int>)
    requires Scored(dets[..], classes)
    modifies dets
    ensures Settled(old(dets[..]), dets[..], o, total, classes, thresh)
    ensures forall i :: total <= i < dets.Length ==> dets[i].objectness == 0.0
  {
    hide Settled, Rearranged, Scored;
    ghost var s := dets[..];
    total, o := MoveEmptyBack(dets);
    ScoredForFewer(s, classes, 0);
    RearrangedLengths(s, dets[..], o);
    StartIsSettled(s, dets[..], o, total, thresh);
    ghost var rest := dets[total..];
    for k := 0 to classes
      invariant Settled(s, dets[..], o, total, k, thresh) && dets[total..] == rest
    {
      ScoredForFewer(s, classes, k + 1);
      o := SuppressClass(dets, total, k, thresh, s, o);
    }
    forall i | total <= i < dets.Length ensures dets[i].objectness == 0.0 {
      assert dets[i] == rest[i - total];
    }
  }
}
