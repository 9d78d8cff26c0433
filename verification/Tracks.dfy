/** Tracks and detections of the tracker, their transitions, and the distance between boxes. */
module Tracks {
  import R = Rectangles

  /** A box by its left, top, right and bottom edges. */
  datatype Box = Box(left: real, top: real, right: real, bottom: real)

  /** The state of a track's motion filter. */
  datatype Motion = Motion(mean: seq<real>, covariance: seq<seq<real>>)

  /** The motion filter, whose arithmetic is not modelled. `predict` is told whether the track is
      being tracked; if not, the filter drops its height velocity first. */
  datatype Filter = Filter(
    initiate: Box -> Motion,
    predict: (Motion, bool) -> Motion,
    correct: (Motion, Box) -> Motion,
    shape: Motion -> Box)

  datatype TrackState = New | Tracked | Lost | Removed

  datatype Detection = Detection(box: Box, score: real, category: int)

  datatype Track = Track(
    id: int, state: TrackState, activated: bool, frame: int, start: int, length: int,
    box: Box, motion: Motion, score: real, category: int)
  {
    /** A matched track follows the detection. */
    function Update(f: Filter, d: Detection, now: int): Track {
      var m := f.correct(motion, d.box);
      this.(frame := now, length := length + 1, motion := m, box := f.shape(m), state := Tracked, activated := true, score := d.score)
    }

    /** A track that was lost is found again under its old id. */
    function ReActivate(f: Filter, d: Detection, now: int): Track {
      var m := f.correct(motion, d.box);
      this.(frame := now, length := 0, motion := m, box := f.shape(m), state := Tracked, activated := true, score := d.score)
    }

    function Predicted(f: Filter): Track {
      this.(motion := f.predict(motion, state == Tracked))
    }

    function Marked(s: TrackState): Track {
      this.(state := s)
    }

    /** How long the track has been followed. */
    function Lifetime(): int {
      frame - start
    }
  }

  /** A detection begins a track; only in the first frame it is activated at once. */
  function Born(f: Filter, d: Detection, id: int, now: int): Track {
    Track(id, Tracked, now == 1, now, now, 0, d.box, f.initiate(d.box), d.score, d.category)
  }

  function Min(a: real, b: real): real { if b < a then b else a }

  function Max(a: real, b: real): real { if a < b then b else a }

  /** Intersection over union, with edges counted as pixels. */
  function Iou(a: Box, b: Box): real
    ensures 0.0 <= Iou(a, b) <= 1.0
  {
    var w := Min(a.right, b.right) - Max(a.left, b.left) + 1.0;
    if w <= 0.0 then 0.0
    else
      var h := Min(a.bottom, b.bottom) - Max(a.top, b.top) + 1.0;
      if h <= 0.0 then 0.0
      else
        var union := Area(a) + Area(b) - w * h;
        OverlapIsInside(w, h, a.right - a.left + 1.0, a.bottom - a.top + 1.0);
        OverlapIsInside(w, h, b.right - b.left + 1.0, b.bottom - b.top + 1.0);
        QuotientInUnit(w * h, union);
        w * h / union
  }

  function Area(a: Box): real {
    (a.right - a.left + 1.0) * (a.bottom - a.top + 1.0)
  }

  lemma OverlapIsInside(w: real, h: real, x: real, y: real)
    requires 0.0 < w <= x && 0.0 < h <= y
    ensures 0.0 < w * h <= x * y
  {
    ProductGrows(w, h, x);
    ProductGrows(h, x, y);
  }

  lemma ProductGrows(w: real, h: real, x: real)
    requires 0.0 < w <= x && 0.0 < h
    ensures 0.0 < w * h <= x * h
  {
    assert (x - w) * h >= 0.0;
  }

  lemma QuotientInUnit(p: real, q: real)
    requires 0.0 <= p <= q && 0.0 < q
    ensures 0.0 <= p / q <= 1.0
  {
  }

  /** The rectangle of a box whose edges are counted as pixels: it reaches to the far side of the last one. */
  function Region(b: Box): R.Rectangle {
    R.Rectangle(b.left, b.top, b.right + 1.0, b.bottom + 1.0)
  }

  lemma AreaOfRegion(a: Box)
    ensures Region(a).Area() == Area(a)
  {
  }

  lemma IouIs(a: Box, b: Box, w: real, h: real)
    requires w == Min(a.right, b.right) - Max(a.left, b.left) + 1.0
    requires h == Min(a.bottom, b.bottom) - Max(a.top, b.top) + 1.0
    ensures w > 0.0 && h > 0.0 ==> w * h > 0.0 && R.IsRatio(Iou(a, b), w * h, Area(a) + Area(b) - w * h)
    ensures !(w > 0.0 && h > 0.0) ==> Iou(a, b) == 0.0
  {
    if w > 0.0 && h > 0.0 {
      OverlapIsInside(w, h, a.right - a.left + 1.0, a.bottom - a.top + 1.0);
      OverlapIsInside(w, h, b.right - b.left + 1.0, b.bottom - b.top + 1.0);
    }
  }

  lemma IouOfShared(a: Box, b: Box)
    ensures var m := R.Shared(Region(a), Region(b));
      R.IsRatio(Iou(a, b), m, Area(a) + Area(b) - m)
  {
    hide Iou, R.Shared, Area;
    var p, q := Region(a), Region(b);
    var w, h := Min(a.right, b.right) - Max(a.left, b.left) + 1.0, Min(a.bottom, b.bottom) - Max(a.top, b.top) + 1.0;
    IouIs(a, b, w, h);
    R.SharedIs(p, q, w, h);
  }

  /** Intersection over union is the common area over the area both cover together. */
  lemma IouMeasures(a: Box, b: Box)
    ensures R.IsIou(Iou(a, b), Region(a), Region(b))
  {
    hide R.Measures, R.Shared, Iou, Region, Area;
    R.SharedMeasures(Region(a), Region(b));
    IouOfShared(a, b);
    AreaOfRegion(a);
    AreaOfRegion(b);
  }

  function Distance(a: Box, b: Box): real {
    1.0 - Iou(a, b)
  }
}
