/** One frame of the tracker as a relation between its states before and after. */
module Frames {
  import opened Tracks
  import opened TrackLists
  import opened Association
  import LA = LinearAssignment
  import PM = PartialMatching

  const TRACK_THRESHOLD: real := 0.5
  const HIGH_THRESHOLD: real := 0.6
  const FIRST_LIMIT: real := 0.8
  const SECOND_LIMIT: real := 0.5
  const UNCONFIRMED_LIMIT: real := 0.7

  /** The tracker between two frames. `count` is the last id handed out. */
  datatype Snapshot = Snapshot(frame: int, tracked: seq<Track>, lost: seq<Track>, removed: seq<Track>, count: int)

  /** What the assignment of tracks (rows) to detections (columns) returned. */
  datatype Assigned = Assigned(matches: seq<(int, int)>, rowsLeft: seq<int>, columnsLeft: seq<int>)

  /** The assignment is a cheapest one for the distances of the boxes, under the limit. */
  ghost predicate Chosen(rows: seq<Box>, columns: seq<Box>, limit: real, a: Assigned) {
    && LA.Partition(|rows|, |columns|, a.matches, a.rowsLeft, a.columnsLeft)
    && exists dists, m :: Pairing(rows, columns, limit, a.matches, dists, m)
  }

  ghost predicate Pairing(
    rows: seq<Box>, columns: seq<Box>, limit: real, matches: seq<(int, int)>, dists: seq<seq<real>>, m: seq<int>)
  {
    && AreDistances(rows, columns, dists)
    && if dists == [] then matches == []
       else PM.Best(dists, |rows|, |columns|, limit, m) && matches == LA.Pairs(m)
  }

  // ---- the steps of a frame that only read -----------------------------------------------------

  ghost function Scored(objects: seq<Detection>, high: bool): seq<Detection> {
    if objects == [] then []
    else
      var d := objects[|objects| - 1];
      Scored(objects[..|objects| - 1], high) + (if (d.score >= TRACK_THRESHOLD) == high then [d] else [])
  }

  ghost function RefBoxes(b: Book, refs: seq<Ref>): seq<Box>
    requires b.HasAll(refs)
  {
    seq(|refs|, k requires 0 <= k < |refs| => b.At(refs[k]).box)
  }

  function DetectionBoxes(dets: seq<Detection>): seq<Box> {
    seq(|dets|, k requires 0 <= k < |dets| => dets[k].box)
  }

  /** The detections the given places name. */
  function Picked(dets: seq<Detection>, places: seq<int>): seq<Detection>
    requires RowsIn(places, |dets|)
  {
    seq(|places|, k requires 0 <= k < |places| => dets[places[k]])
  }

  /** New tracks for the detections left over that score high, under the next ids. */
  ghost function Births(f: Filter, dets: seq<Detection>, left: seq<int>, now: int, count: int): seq<Track>
    requires RowsIn(left, |dets|)
  {
    if left == [] then []
    else
      var born := Births(f, dets, left[..|left| - 1], now, count);
      var d := dets[left[|left| - 1]];
      if d.score < HIGH_THRESHOLD then born else born + [Born(f, d, count + |born| + 1, now)]
  }

  predicate IsOver(t: Track, now: int, max: int) {
    now - t.frame > max
  }

  /** A lost track that has been lost for too long is marked. */
  function Older(t: Track, now: int, max: int): Track {
    if IsOver(t, now, max) then t.Marked(Removed) else t
  }

  ghost function Aged(lost: seq<Track>, now: int, max: int): seq<Track> {
    seq(|lost|, i requires 0 <= i < |lost| => Older(lost[i], now, max))
  }

  ghost function Expired(lost: seq<Track>, now: int, max: int): seq<Track> {
    if lost == [] then []
    else
      var t := lost[|lost| - 1];
      Expired(lost[..|lost| - 1], now, max) + (if IsOver(t, now, max) then [t.Marked(Removed)] else [])
  }

  ghost function OnlyTracked(s: seq<Track>): seq<Track> {
    Keep(s, (t: Track) => t.state != Tracked)
  }

  /** The activated tracks, in order. */
  ghost function Activated(s: seq<Track>): seq<Track> {
    Keep(s, (t: Track) => !t.activated)
  }

  // ---- the frame -------------------------------------------------------------------------------

  /** What the three associations leave behind. */
  datatype Outcome = Outcome(book: Book, activated: seq<Track>, refound: seq<Track>, lostNow: seq<Track>, removedNow: seq<Track>)

  /** The three associations: activated and lost tracks with high-score detections, tracks still
      unmatched with low-score ones, unconfirmed tracks with the high-score detections left over. */
  ghost predicate Associations(
    f: Filter, s: Snapshot, objects: seq<Detection>, a1: Assigned, a2: Assigned, a3: Assigned, leftover: seq<Detection>, o: Outcome)
  {
    var now := s.frame + 1;
    var high, low := Scored(objects, true), Scored(objects, false);
    var b0 := Book(s.tracked, s.lost);
    var pool := Pool(b0, |s.lost|);
    var b1 := PredictedAll(b0, f, pool);
    && Fits(|pool|, |high|, a1)
    && Chosen(RefBoxes(b1, pool), DetectionBoxes(high), FIRST_LIMIT, a1)
    && leftover == Picked(high, a1.columnsLeft)
    && var p1 := Followed(Progress(b1, [], []), f, pool, high, a1.matches, false, now);
    var still := StillTracked(p1.book, pool, a1.rowsLeft);
    && Fits(|still|, |low|, a2)
    && Chosen(RefBoxes(p1.book, still), DetectionBoxes(low), SECOND_LIMIT, a2)
    && var p2 := Followed(p1, f, still, low, a2.matches, false, now);
    var lost := Retired(p2.book, still, a2.rowsLeft, Lost);
    OwnRefsAreIn(b0, false, |s.tracked|);
    var unconfirmed := OwnRefs(s.tracked, false, |s.tracked|);
    && Fits(|unconfirmed|, |leftover|, a3)
    && Chosen(RefBoxes(lost.book, unconfirmed), DetectionBoxes(leftover), UNCONFIRMED_LIMIT, a3)
    && var p3 := Followed(Progress(lost.book, p2.activated, p2.refound), f, unconfirmed, leftover, a3.matches, true, now);
    var gone := Retired(p3.book, unconfirmed, a3.rowsLeft, Removed);
    o == Outcome(gone.book, p3.activated, p3.refound, lost.marked, gone.marked)
  }

  /** The indices of an assignment are in range. */
  ghost predicate Fits(rows: nat, columns: nat, a: Assigned) {
    && MatchesIn(a.matches, rows, columns)
    && RowsIn(a.rowsLeft, rows)
    && RowsIn(a.columnsLeft, columns)
  }

  /** The lists before near duplicates are removed. */
  ghost function NewTracked(o: Outcome, born: seq<Track>): seq<Track> {
    Joint(Joint(OnlyTracked(o.book.tracked), o.activated + born), o.refound)
  }

  ghost function NewLost(o: Outcome, tracked: seq<Track>, removed: seq<Track>, now: int, max: int): seq<Track> {
    Difference(Difference(Aged(o.book.lost, now, max), tracked) + o.lostNow, removed)
  }

  ghost predicate FrameStep(
    f: Filter, max: int, s: Snapshot, objects: seq<Detection>, a1: Assigned, a2: Assigned, a3: Assigned,
    leftover: seq<Detection>, o: Outcome, s': Snapshot)
  {
    && Associations(f, s, objects, a1, a2, a3, leftover, o)
    && RowsIn(a3.columnsLeft, |leftover|)
    && var now := s.frame + 1;
    var born := Births(f, leftover, a3.columnsLeft, now, s.count);
    var tracked := NewTracked(o, born);
    var lost := NewLost(o, tracked, s.removed, now, max);
    s' == Snapshot(
      now, TrackedLeft(tracked, lost), LostLeft(tracked, lost),
      s.removed + o.removedNow + Expired(o.book.lost, now, max), s.count + |born|)
  }
}
