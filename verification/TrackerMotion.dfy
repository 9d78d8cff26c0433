/** Where tracks go: what a frame makes of the box, the motion and the score of every track. */
module TrackerMotion {
  import opened Tracks
  import opened TrackLists
  import opened Association
  import opened Frames
  import opened TrackerInvariant
  import opened TrackerRuns
  import PM = PartialMatching
  import LA = LinearAssignment

  /** t is t0 after it was matched with detection d in frame `now`: the filter is corrected by the
      detection's box, and the track's box is read off the filter. */
  ghost predicate Pursues(f: Filter, t: Track, t0: Track, d: Detection, now: int) {
    && t.id == t0.id && t.start == t0.start && t.category == t0.category
    && t.state == Tracked && t.activated && t.frame == now
    && t.motion == f.correct(t0.motion, d.box) && t.box == f.shape(t.motion) && t.score == d.score
    && t.length == if t0.state == Tracked then t0.length + 1 else 0
  }

  /** t begins with detection d. */
  ghost predicate Begins(f: Filter, t: Track, d: Detection, now: int) {
    && t.state == Tracked && (t.activated <==> now == 1)
    && t.frame == now && t.start == now && t.length == 0
    && t.motion == f.initiate(d.box) && t.box == d.box && t.score == d.score && t.category == d.category
  }

  // ---- one round of matches ------------------------------------------------------------------------

  lemma FollowOnePursues(p: Progress, f: Filter, r: Ref, d: Detection, always: bool, now: int)
    requires p.book.Has(r) && (always ==> p.book.At(r).state == Tracked)
    ensures Pursues(f, FollowOne(p, f, r, d, always, now).book.At(r), p.book.At(r), d, now)
    ensures forall q :: p.book.Has(q) && q != r ==> FollowOne(p, f, r, d, always, now).book.At(q) == p.book.At(q)
  {
  }

  /** Every matched track follows its own detection. */
  lemma {:induction false} MatchPursues(
    p: Progress, f: Filter, refs: seq<Ref>, dets: seq<Detection>, matches: seq<(int, int)>, always: bool, now: int, k: nat)
    requires p.book.HasAll(refs) && MatchesIn(matches, |refs|, |dets|) && DistinctRefs(refs) && DistinctRows(matches)
    requires k < |matches| && (always ==> forall i :: 0 <= i < |refs| ==> p.book.At(refs[i]).state == Tracked)
    ensures var r := refs[matches[k].0];
      Pursues(f, Followed(p, f, refs, dets, matches, always, now).book.At(r), p.book.At(r), dets[matches[k].1], now)
  {
    hide Pursues, FollowOne;
    var m := matches[..|matches| - 1];
    var q := Followed(p, f, refs, dets, m, always, now);
    var (row, column) := matches[|matches| - 1];
    LastIsUntouched(p, f, refs, dets, matches, always, now);
    FollowOnePursues(q, f, refs[row], dets[column], always, now);
    if k < |m| {
      assert m[k] == matches[k];
      assert refs[matches[k].0] != refs[row];
      MatchPursues(p, f, refs, dets, m, always, now, k);
    }
  }

  lemma LastIsUntouched(
    p: Progress, f: Filter, refs: seq<Ref>, dets: seq<Detection>, matches: seq<(int, int)>, always: bool, now: int)
    requires p.book.HasAll(refs) && MatchesIn(matches, |refs|, |dets|) && DistinctRefs(refs) && DistinctRows(matches)
    requires matches != []
    ensures var r := refs[matches[|matches| - 1].0];
      Followed(p, f, refs, dets, matches[..|matches| - 1], always, now).book.At(r) == p.book.At(r)
  {
    hide Followed, CopiesAre, Met;
    LastIsNew(refs, matches, |dets|);
    FollowedEffect(p, f, refs, dets, matches[..|matches| - 1], always, now);
  }

  lemma RowOf(refs: seq<Ref>, columns: nat, a: Assigned, r: Ref) returns (k: nat)
    requires Partitioned(|refs|, columns, a) && r in refs && !Among(refs, a.rowsLeft, r)
    ensures k < |a.matches| && refs[a.matches[k].0] == r
    ensures 0 <= a.matches[k].0 < |refs| && 0 <= a.matches[k].1 < columns
  {
    var i :| 0 <= i < |refs| && refs[i] == r;
    NotLeft(refs, a.rowsLeft, r, i);
    k :| 0 <= k < |a.matches| && a.matches[k].0 == i;
  }

  lemma NotLeft(refs: seq<Ref>, left: seq<int>, r: Ref, i: nat)
    requires i < |refs| && refs[i] == r && !Among(refs, left, r)
    ensures i !in left
  {
  }

  lemma RowsAreDistinct(rows: nat, columns: nat, a: Assigned)
    requires Partitioned(rows, columns, a)
    ensures DistinctRows(a.matches)
  {
  }

  /** Matched boxes are no farther apart than the limit. */
  lemma MatchesAreNear(rows: seq<Box>, columns: seq<Box>, limit: real, a: Assigned, t: nat)
    requires Chosen(rows, columns, limit, a) && Fits(|rows|, |columns|, a) && t < |a.matches|
    ensures Distance(rows[a.matches[t].0], columns[a.matches[t].1]) <= limit
  {
    hide LA.Partition, Distance, PM.Best;
    var dists, m :| Pairing(rows, columns, limit, a.matches, dists, m);
    if dists != [] {
      BestIsPartial(dists, |rows|, |columns|, limit, m);
      PM.BestIsStable(dists, |rows|, |columns|, limit, m);
      LA.PairsAreMatches(m);
    }
  }

  lemma BestIsPartial(dists: seq<seq<real>>, r: nat, c: nat, limit: real, m: seq<int>)
    requires PM.Rectangular(dists, r, c) && PM.Best(dists, r, c, limit, m)
    ensures PM.IsPartial(m, r, c)
  {
  }

  /** A matched track follows a detection of the list that is near enough. */
  lemma RoundPursues(
    f: Filter, p: Progress, refs: seq<Ref>, dets: seq<Detection>, a: Assigned, limit: real, always: bool, now: int, r: Ref)
    returns (d: Detection)
    requires p.book.HasAll(refs) && MatchesIn(a.matches, |refs|, |dets|) && DistinctRefs(refs)
    requires Partitioned(|refs|, |dets|, a) && Chosen(RefBoxes(p.book, refs), DetectionBoxes(dets), limit, a)
    requires r in refs && p.book.Has(r) && !Among(refs, a.rowsLeft, r)
    requires always ==> forall i :: 0 <= i < |refs| ==> p.book.At(refs[i]).state == Tracked
    ensures d in dets && Distance(p.book.At(r).box, d.box) <= limit
    ensures Pursues(f, Followed(p, f, refs, dets, a.matches, always, now).book.At(r), p.book.At(r), d, now)
  {
    hide Pursues, Distance, Chosen, Partitioned, Among;
    var k := RowOf(refs, |dets|, a, r);
    d := dets[a.matches[k].1];
    RowsAreDistinct(|refs|, |dets|, a);
    MatchPursues(p, f, refs, dets, a.matches, always, now, k);
    FitsHere(|refs|, |dets|, a);
    MatchesAreNear(RefBoxes(p.book, refs), DetectionBoxes(dets), limit, a, k);
  }

  lemma FitsHere(rows: nat, columns: nat, a: Assigned)
    requires Partitioned(rows, columns, a)
    ensures Fits(rows, columns, a)
  {
  }

  // ---- one frame -----------------------------------------------------------------------------------

  /** A track as the associations find it: predicted, unless it waits to be confirmed. */
  ghost function Moved(f: Filter, t: Track): Track {
    if t.activated then t.(motion := f.predict(t.motion, t.state == Tracked)) else t
  }

  /** Which detections a track may be matched with: high-score ones at a distance of at most 0.8, low-score
      ones at a distance of at most 0.5 if it is being tracked; at most 0.7 from a high-score one if it
      waits to be confirmed. */
  ghost predicate MayFollow(t: Track, d: Detection) {
    if !t.activated then d.score >= 0.5 && Distance(t.box, d.box) <= 0.7
    else if d.score >= 0.5 then Distance(t.box, d.box) <= 0.8
    else t.state == Tracked && Distance(t.box, d.box) <= 0.5
  }

  ghost predicate FollowsOne(f: Filter, t: Track, t0: Track, objects: seq<Detection>, now: int) {
    exists d :: d in objects && MayFollow(t0, d) && Pursues(f, t, Moved(f, t0), d, now)
  }

  /** t is t0 a frame later, if nothing was seen of it. */
  ghost predicate Drifts(f: Filter, t: Track, t0: Track) {
    t == Moved(f, t0).(state := t.state)
  }

  lemma {:induction false} PredictionMoves(b: Book, f: Filter, refs: seq<Ref>, r: Ref)
    requires b.HasAll(refs) && DistinctRefs(refs) && b.Has(r)
    ensures PredictedAll(b, f, refs).At(r) ==
      if r in refs then b.At(r).(motion := f.predict(b.At(r).motion, b.At(r).state == Tracked)) else b.At(r)
  {
    if refs != [] {
      var m, last := refs[..|refs| - 1], refs[|refs| - 1];
      assert refs == m + [last];
      PredictionMoves(b, f, m, r);
    }
  }

  lemma PredictedIsMoved(b: Book, f: Filter, pool: seq<Ref>, r: Ref)
    requires b.HasAll(pool) && DistinctRefs(pool) && b.Has(r)
    requires r in pool <==> (r.InTracked? ==> b.At(r).activated)
    requires r.InLost? ==> b.At(r).activated
    ensures PredictedAll(b, f, pool).At(r) == Moved(f, b.At(r))
  {
    PredictionMoves(b, f, pool, r);
  }

  lemma FromScored(objects: seq<Detection>, high: bool, d: Detection)
    requires d in Scored(objects, high)
    ensures d in objects && (d.score >= 0.5 <==> high)
  {
    PlacesAreScored(objects, high);
    var k :| 0 <= k < |Scored(objects, high)| && Scored(objects, high)[k] == d;
    assert Scored(objects, high)[k] == objects[Places(objects, high)[k]];
  }

  /** What the stages make of a track: it follows a detection or drifts. */
  ghost predicate IsTrue(f: Filter, t: Track, t0: Track, objects: seq<Detection>, now: int) {
    if t.state == Tracked then FollowsOne(f, t, t0, objects, now) else Drifts(f, t, t0)
  }

  lemma FirstRound(
    f: Filter, s: Snapshot, objects: seq<Detection>, leftover: seq<Detection>, g: Stages, act1: seq<Track>, ref1: seq<Track>,
    act2: seq<Track>, ref2: seq<Track>, r: Ref)
    requires Staged(g, s.frame + 1) && Computed(f, objects, leftover, g, act1, ref1, act2, ref2, s.frame + 1)
    requires g.start.Has(r) && r in g.pool && !Among(g.pool, g.a1.rowsLeft, r)
    requires g.predicted.At(r) == Moved(f, g.start.At(r)) && g.start.At(r).activated
    ensures FollowsOne(f, g.first.At(r), g.start.At(r), objects, s.frame + 1)
  {
    var high := Scored(objects, true);
    hide Staged, Pursues, Distance, Chosen, Partitioned, Among, Scored;
    var d := RoundPursues(f, Progress(g.predicted, [], []), g.pool, high, g.a1, FIRST_LIMIT, false, s.frame + 1, r);
    FromScored(objects, true, d);
  }

  lemma SecondRound(
    f: Filter, s: Snapshot, objects: seq<Detection>, leftover: seq<Detection>, g: Stages, act1: seq<Track>, ref1: seq<Track>,
    act2: seq<Track>, ref2: seq<Track>, r: Ref)
    requires Staged(g, s.frame + 1) && Computed(f, objects, leftover, g, act1, ref1, act2, ref2, s.frame + 1)
    requires g.start.Has(r) && g.first.Has(r) && r in g.still && !Among(g.still, g.a2.rowsLeft, r)
    requires g.first.At(r) == Moved(f, g.start.At(r)) && g.start.At(r).activated && g.start.At(r).state == Tracked
    ensures FollowsOne(f, g.second.At(r), g.start.At(r), objects, s.frame + 1)
  {
    var low := Scored(objects, false);
    hide Staged, Pursues, Distance, Chosen, Partitioned, Among, Scored;
    var d := RoundPursues(f, Progress(g.first, act1, ref1), g.still, low, g.a2, SECOND_LIMIT, false, s.frame + 1, r);
    FromScored(objects, false, d);
  }

  lemma ThirdRound(
    f: Filter, s: Snapshot, objects: seq<Detection>, leftover: seq<Detection>, g: Stages, act1: seq<Track>, ref1: seq<Track>,
    act2: seq<Track>, ref2: seq<Track>, r: Ref)
    requires Staged(g, s.frame + 1) && Computed(f, objects, leftover, g, act1, ref1, act2, ref2, s.frame + 1)
    requires forall d :: d in leftover ==> d in Scored(objects, true)
    requires g.start.Has(r) && g.lost.Has(r) && r in g.unconfirmed && !Among(g.unconfirmed, g.a3.rowsLeft, r)
    requires g.lost.At(r) == g.start.At(r) && !g.start.At(r).activated
    requires forall q :: q in g.unconfirmed ==> g.lost.Has(q) && g.lost.At(q).state == Tracked
    ensures FollowsOne(f, g.third.At(r), g.start.At(r), objects, s.frame + 1)
  {
    hide Staged, Pursues, Distance, Chosen, Partitioned, Among, Scored;
    var d := RoundPursues(f, Progress(g.lost, act2, ref2), g.unconfirmed, leftover, g.a3, UNCONFIRMED_LIMIT, true, s.frame + 1, r);
    FromScored(objects, true, d);
  }

  lemma LeftoversAreHigh(
    f: Filter, s: Snapshot, objects: seq<Detection>, a1: Assigned, a2: Assigned, a3: Assigned, leftover: seq<Detection>, o: Outcome)
    requires Associations(f, s, objects, a1, a2, a3, leftover, o)
    ensures forall d :: d in leftover ==> d in Scored(objects, true)
  {
    hide Followed, Retired, StillTracked, PredictedAll, Scored, OwnRefs, LA.Partition, Pool, Pairing, Chosen;
  }

  lemma OtherRounds(g: Stages, now: int, r: Ref)
    requires Staged(g, now) && g.start.Has(r)
    ensures g.predicted.Has(r) && g.first.Has(r) && g.second.Has(r) && g.lost.Has(r) && g.third.Has(r) && g.end.Has(r)
    ensures r in g.pool <==> (r.InTracked? ==> g.start.At(r).activated)
    ensures r in g.unconfirmed <==> r.InTracked? && !g.start.At(r).activated
    ensures r in g.still ==> r in g.pool && Among(g.pool, g.a1.rowsLeft, r) && g.start.At(r).state == Tracked
    ensures r in g.still ==> g.first.At(r) == g.predicted.At(r)
    ensures r in g.unconfirmed ==> g.lost.At(r) == g.predicted.At(r)
    ensures r in g.pool && Among(g.pool, g.a1.rowsLeft, r) && !(r in g.still && !Among(g.still, g.a2.rowsLeft, r)) ==>
      g.end.At(r) == g.predicted.At(r).(state := g.end.At(r).state) && g.end.At(r).state != Tracked
    ensures r in g.unconfirmed && Among(g.unconfirmed, g.a3.rowsLeft, r) ==>
      g.end.At(r) == g.predicted.At(r).(state := g.end.At(r).state) && g.end.At(r).state != Tracked
  {
    var t := g.start.At(r);
    assert r.InTracked? ==> t in g.start.tracked;
    assert r.InLost? ==> t in g.start.lost;
    assert Still(g.predicted.At(r), t);
  }

  lemma UnconfirmedAreTracked(g: Stages, now: int)
    requires Staged(g, now)
    ensures forall q :: q in g.unconfirmed ==> g.lost.Has(q) && g.lost.At(q).state == Tracked
  {
    hide Staged;
    forall q | q in g.unconfirmed ensures g.lost.Has(q) && g.lost.At(q).state == Tracked {
      NotReachedBefore(g, now, q);
      ShapesAgree(g, now, q);
    }
  }

  lemma ShapesAgree(g: Stages, now: int, r: Ref)
    requires Staged(g, now) && g.start.Has(r)
    ensures g.lost.Has(r)
  {
  }

  /** After the associations every track follows a detection it may follow, or drifts. */
  lemma BookIsTrue(
    f: Filter, s: Snapshot, objects: seq<Detection>, a1: Assigned, a2: Assigned, a3: Assigned, leftover: seq<Detection>,
    o: Outcome, r: Ref)
    requires Startable(Book(s.tracked, s.lost)) && Associations(f, s, objects, a1, a2, a3, leftover, o)
    requires forall t :: t in s.lost ==> t.activated
    requires Book(s.tracked, s.lost).Has(r)
    ensures o.book.Has(r) && IsTrue(f, o.book.At(r), Book(s.tracked, s.lost).At(r), objects, s.frame + 1)
  {
    hide Associations, Startable, FollowsOne, Followed, PredictedAll, Pool, Among, Scored, Computed, Staged, Collected;
    var now := s.frame + 1;
    var b0 := Book(s.tracked, s.lost);
    var g, act1, ref1, act2, ref2 := StagesOf(f, s, objects, a1, a2, a3, leftover, o);
    LeftoversAreHigh(f, s, objects, a1, a2, a3, leftover, o);
    PoolIsSound(b0);
    assert r.InLost? ==> b0.At(r) in s.lost;
    PredictedIsMoved(b0, f, g.pool, r);
    OtherRounds(g, now, r);
    FateOfRef(g, now, r);
    EndIsBook(g, now, act1, ref1, act2, ref2, o);
    if r in g.pool && !Among(g.pool, g.a1.rowsLeft, r) {
      FirstRound(f, s, objects, leftover, g, act1, ref1, act2, ref2, r);
    } else if r in g.still && !Among(g.still, g.a2.rowsLeft, r) {
      SecondRound(f, s, objects, leftover, g, act1, ref1, act2, ref2, r);
    } else if r in g.unconfirmed && !Among(g.unconfirmed, g.a3.rowsLeft, r) {
      UnconfirmedAreTracked(g, now);
      ThirdRound(f, s, objects, leftover, g, act1, ref1, act2, ref2, r);
      FollowerIsTracked(f, g.third.At(r), b0.At(r), objects, now);
    }
  }

  lemma FollowerIsTracked(f: Filter, t: Track, t0: Track, objects: seq<Detection>, now: int)
    requires FollowsOne(f, t, t0, objects, now)
    ensures t.state == Tracked
  {
  }

  lemma PoolIsSound(b: Book)
    requires Startable(b)
    ensures b.HasAll(Pool(b, |b.lost|)) && DistinctRefs(Pool(b, |b.lost|))
    ensures forall r :: r in Pool(b, |b.lost|) <==> b.Has(r) && (r.InTracked? ==> b.At(r).activated)
  {
    WhoTakesPart(b);
  }

  lemma EndIsBook(g: Stages, now: int, act1: seq<Track>, ref1: seq<Track>, act2: seq<Track>, ref2: seq<Track>, o: Outcome)
    requires Staged(g, now) && Collected(g, now, act1, ref1, act2, ref2, o)
    ensures o.book == g.end
  {
  }

  // ---- births --------------------------------------------------------------------------------------

  /** t begins with one of the detections, which scores high. */
  ghost predicate BeginsWithOne(f: Filter, t: Track, dets: seq<Detection>, now: int) {
    exists d :: d in dets && d.score >= 0.6 && Begins(f, t, d, now)
  }

  ghost predicate BeginsOne(f: Filter, born: seq<Track>, d: Detection, now: int) {
    exists t :: t in born && Begins(f, t, d, now)
  }

  /** Exactly the leftover detections scoring at least 0.6 begin tracks. */
  lemma {:induction false} BirthsBegin(f: Filter, dets: seq<Detection>, left: seq<int>, now: int, count: int)
    requires RowsIn(left, |dets|)
    ensures var born := Births(f, dets, left, now, count);
      && (forall t :: t in born ==> BeginsWithOne(f, t, Picked(dets, left), now))
      && forall d :: d in Picked(dets, left) && d.score >= 0.6 ==> BeginsOne(f, born, d, now)
  {
    if left != [] {
      hide Begins, BeginsWithOne, BeginsOne;
      var m, last := left[..|left| - 1], left[|left| - 1];
      BirthsBegin(f, dets, m, now, count);
      var before := Births(f, dets, m, now, count);
      var d := dets[last];
      var b := Born(f, d, count + |before| + 1, now);
      BornBegins(f, d, count + |before| + 1, now);
      assert Picked(dets, left) == Picked(dets, m) + [d];
      BirthAdded(f, before, b, Picked(dets, m), d, now);
    }
  }

  lemma BirthAdded(f: Filter, before: seq<Track>, b: Track, dets: seq<Detection>, d: Detection, now: int)
    requires forall t :: t in before ==> BeginsWithOne(f, t, dets, now)
    requires forall e :: e in dets && e.score >= 0.6 ==> BeginsOne(f, before, e, now)
    requires Begins(f, b, d, now)
    ensures var born := if d.score < 0.6 then before else before + [b];
      && (forall t :: t in born ==> BeginsWithOne(f, t, dets + [d], now))
      && forall e :: e in dets + [d] && e.score >= 0.6 ==> BeginsOne(f, born, e, now)
  {
    hide Begins;
    var born := if d.score < 0.6 then before else before + [b];
    forall t | t in born ensures BeginsWithOne(f, t, dets + [d], now) {
      if t in before {
        var e :| e in dets && e.score >= 0.6 && Begins(f, t, e, now);
        assert e in dets + [d];
      } else {
        assert d in dets + [d];
      }
    }
    forall e | e in dets + [d] && e.score >= 0.6 ensures BeginsOne(f, born, e, now) {
      if e in dets {
        var t :| t in before && Begins(f, t, e, now);
        assert t in born;
      } else {
        assert b in born;
      }
    }
  }

  lemma BornBegins(f: Filter, d: Detection, id: int, now: int)
    ensures Begins(f, Born(f, d, id, now), d, now)
  {
  }

  // ---- what a frame promises -----------------------------------------------------------------------

  /** Every tracked track follows a detection it may follow or begins with one that scores high, and
      every lost track is where it was last seen. */
  ghost predicate TracksAreTrue(f: Filter, s: Snapshot, objects: seq<Detection>, s': Snapshot) {
    && (forall t :: t in s'.tracked ==> IsSeen(f, s, objects, t, s'.frame))
    && (forall t :: t in s'.lost ==> IsUnseen(f, s, t))
  }

  ghost predicate IsSeen(f: Filter, s: Snapshot, objects: seq<Detection>, t: Track, now: int) {
    || (exists t0 :: t0 in s.tracked + s.lost && FollowsOne(f, t, t0, objects, now))
    || (exists d :: d in objects && d.score >= 0.6 && Begins(f, t, d, now))
  }

  ghost predicate IsUnseen(f: Filter, s: Snapshot, t: Track) {
    exists t0 :: t0 in s.tracked + s.lost && Drifts(f, t, t0)
  }

  lemma LostAreActivated(max: int, s: Snapshot)
    requires Inv(max, s)
    ensures forall t :: t in s.lost ==> t.activated
  {
  }

  lemma SeenInBook(
    f: Filter, s: Snapshot, objects: seq<Detection>, a1: Assigned, a2: Assigned, a3: Assigned, leftover: seq<Detection>,
    o: Outcome, t: Track)
    requires Startable(Book(s.tracked, s.lost)) && Associations(f, s, objects, a1, a2, a3, leftover, o)
    requires forall u :: u in s.lost ==> u.activated
    requires |o.book.tracked| == |s.tracked| && |o.book.lost| == |s.lost|
    requires t in o.book.tracked || t in o.book.lost
    ensures exists t0 :: t0 in s.tracked + s.lost && IsTrue(f, t, t0, objects, s.frame + 1)
  {
    hide Associations, Startable, IsTrue;
    var b0 := Book(s.tracked, s.lost);
    var r: Ref;
    if t in o.book.tracked {
      var i :| 0 <= i < |o.book.tracked| && o.book.tracked[i] == t;
      r := InTracked(i);
    } else {
      var i :| 0 <= i < |o.book.lost| && o.book.lost[i] == t;
      r := InLost(i);
    }
    BookIsTrue(f, s, objects, a1, a2, a3, leftover, o, r);
    assert b0.At(r) in s.tracked + s.lost;
  }

  lemma BornIsSeen(
    f: Filter, s: Snapshot, objects: seq<Detection>, a1: Assigned, a2: Assigned, a3: Assigned, leftover: seq<Detection>,
    o: Outcome, t: Track)
    requires Associations(f, s, objects, a1, a2, a3, leftover, o) && RowsIn(a3.columnsLeft, |leftover|)
    requires t in Births(f, leftover, a3.columnsLeft, s.frame + 1, s.count)
    ensures IsSeen(f, s, objects, t, s.frame + 1)
  {
    hide Associations, Scored, Begins, FollowsOne, Births, BeginsOne;
    LeftoversAreHigh(f, s, objects, a1, a2, a3, leftover, o);
    BirthsBegin(f, leftover, a3.columnsLeft, s.frame + 1, s.count);
    var d :| d in Picked(leftover, a3.columnsLeft) && d.score >= 0.6 && Begins(f, t, d, s.frame + 1);
    FromScored(objects, true, d);
  }

  /** A lost track before the near duplicates are taken out. */
  lemma LostIsUnseen(
    f: Filter, max: int, s: Snapshot, objects: seq<Detection>, a1: Assigned, a2: Assigned, a3: Assigned, leftover: seq<Detection>,
    o: Outcome, tracked: seq<Track>, t: Track)
    requires Inv(max, s) && Associations(f, s, objects, a1, a2, a3, leftover, o)
    requires Settled(Book(s.tracked, s.lost), o, s.frame + 1) && Ids(o.refound) <= Ids(tracked)
    requires t in NewLost(o, tracked, s.removed, s.frame + 1, max)
    ensures IsUnseen(f, s, t)
  {
    hide Associations, Startable, Settled, Inv, NewLost, IsTrue;
    InvIsStartable(max, s);
    LostAreActivated(max, s);
    SameSizes(s, o);
    LostSource(max, s, o, tracked, t);
    var u :| (u in o.book.tracked || u in o.book.lost) && u.state != Tracked && t == u.(state := t.state);
    SeenInBook(f, s, objects, a1, a2, a3, leftover, o, u);
    var t0 :| t0 in s.tracked + s.lost && IsTrue(f, u, t0, objects, s.frame + 1);
    StillDrifts(f, u, t0, objects, s.frame + 1, t);
  }

  lemma SameSizes(s: Snapshot, o: Outcome)
    requires Settled(Book(s.tracked, s.lost), o, s.frame + 1)
    ensures |o.book.tracked| == |s.tracked| && |o.book.lost| == |s.lost|
  {
  }

  lemma StillDrifts(f: Filter, u: Track, t0: Track, objects: seq<Detection>, now: int, t: Track)
    requires IsTrue(f, u, t0, objects, now) && u.state != Tracked && t == u.(state := t.state)
    ensures Drifts(f, t, t0)
  {
  }

  lemma LostSource(max: int, s: Snapshot, o: Outcome, tracked: seq<Track>, t: Track)
    requires Inv(max, s) && Settled(Book(s.tracked, s.lost), o, s.frame + 1) && Ids(o.refound) <= Ids(tracked)
    requires t in NewLost(o, tracked, s.removed, s.frame + 1, max)
    ensures exists u :: (u in o.book.tracked || u in o.book.lost) && u.state != Tracked && t == u.(state := t.state)
  {
    hide Startable, Settled, Ids;
    var now := s.frame + 1;
    InvIsStartable(max, s);
    NewLostMembers(o, tracked, s.removed, now, max);
    hide NewLost, Inv;
    Copies(s, o, t);
    if t !in o.lostNow {
      var aged := Aged(o.book.lost, now, max);
      var i :| 0 <= i < |aged| && aged[i] == t;
      var u := o.book.lost[i];
      if u.state == Tracked {
        RefoundIsTracked(s, o, i);
        IdsMember(o.refound, u);
        assert false;
      }
      assert u in o.book.lost;
    }
  }

  lemma RefoundIsTracked(s: Snapshot, o: Outcome, i: nat)
    requires Settled(Book(s.tracked, s.lost), o, s.frame + 1) && i < |o.book.lost| && o.book.lost[i].state == Tracked
    ensures o.book.lost[i] in o.refound
  {
  }

  /** One frame moves the tracks as it should. */
  lemma FrameIsTrue(
    f: Filter, max: int, s: Snapshot, objects: seq<Detection>, a1: Assigned, a2: Assigned, a3: Assigned,
    leftover: seq<Detection>, o: Outcome, s': Snapshot)
    requires Inv(max, s) && FrameStep(f, max, s, objects, a1, a2, a3, leftover, o, s')
    ensures TracksAreTrue(f, s, objects, s')
  {
    hide Inv, Settled, Startable, Associations, NewTracked, NewLost, Births, Expired, GivesWay, IsCovered, Ids, IsSeen, IsUnseen, IsTrue;
    var now := s.frame + 1;
    InvIsStartable(max, s);
    LostAreActivated(max, s);
    AssociationsSettle(f, s, objects, a1, a2, a3, leftover, o);
    SameSizes(s, o);
    var born := Births(f, leftover, a3.columnsLeft, now, s.count);
    var tracked := NewTracked(o, born);
    var lost := NewLost(o, tracked, s.removed, now, max);
    KeepIsSublist(tracked, t => GivesWay(t, lost));
    KeepIsSublist(lost, t => IsCovered(t, tracked));
    NewTrackedOrigin(s, o, born);
    forall t | t in s'.tracked ensures IsSeen(f, s, objects, t, now) {
      Copies(s, o, t);
      if t in born {
        BornIsSeen(f, s, objects, a1, a2, a3, leftover, o, t);
      } else {
        SeenInBook(f, s, objects, a1, a2, a3, leftover, o, t);
        var t0 :| t0 in s.tracked + s.lost && IsTrue(f, t, t0, objects, now);
        TrueIsSeen(f, s, objects, t, t0, now);
      }
    }
    forall t | t in s'.lost ensures IsUnseen(f, s, t) {
      LostIsUnseen(f, max, s, objects, a1, a2, a3, leftover, o, tracked, t);
    }
  }

  lemma TrueIsSeen(f: Filter, s: Snapshot, objects: seq<Detection>, t: Track, t0: Track, now: int)
    requires t0 in s.tracked + s.lost && IsTrue(f, t, t0, objects, now) && t.state == Tracked
    ensures IsSeen(f, s, objects, t, now)
  {
  }

  // ---- no match is missed --------------------------------------------------------------------------

  lemma LeftIsAlone(m: seq<int>, i: nat, j: nat)
    requires i < |m|
    requires forall t :: 0 <= t < |LA.Pairs(m)| ==> LA.Pairs(m)[t].0 != i
    requires forall t :: 0 <= t < |LA.Pairs(m)| ==> LA.Pairs(m)[t].1 != j
    ensures m[i] < 0 && j !in m
  {
    LA.PairsAreMatches(m);
  }

  /** A row and a column that are both left over are at least the limit apart. */
  lemma LeftAreFar(rows: seq<Box>, columns: seq<Box>, limit: real, a: Assigned, i: nat, j: nat)
    requires Chosen(rows, columns, limit, a) && i < |rows| && j < |columns| && i in a.rowsLeft && j in a.columnsLeft
    ensures Distance(rows[i], columns[j]) >= limit
  {
    hide Distance, PM.Best, LA.Pairs;
    var dists, m :| Pairing(rows, columns, limit, a.matches, dists, m);
    BestIsPartial(dists, |rows|, |columns|, limit, m);
    LeftIsAlone(m, i, j);
    PM.BestIsStable(dists, |rows|, |columns|, limit, m);
  }

  lemma LeftOver(refs: seq<Ref>, columns: nat, a: Assigned, r: Ref) returns (i: nat)
    requires Partitioned(|refs|, columns, a) && Among(refs, a.rowsLeft, r)
    ensures i < |refs| && refs[i] == r && i in a.rowsLeft
  {
    var k :| 0 <= k < |a.rowsLeft| && 0 <= a.rowsLeft[k] < |refs| && refs[a.rowsLeft[k]] == r;
    i := a.rowsLeft[k];
  }

  lemma RoundLeavesFar(b: Book, refs: seq<Ref>, dets: seq<Detection>, limit: real, a: Assigned, r: Ref, j: nat)
    requires b.HasAll(refs) && b.Has(r) && Among(refs, a.rowsLeft, r) && j < |dets| && j in a.columnsLeft
    requires Partitioned(|refs|, |dets|, a) && Chosen(RefBoxes(b, refs), DetectionBoxes(dets), limit, a)
    ensures Distance(b.At(r).box, dets[j].box) >= limit
  {
    hide Chosen, Partitioned, Distance;
    var i := LeftOver(refs, |dets|, a, r);
    LeftAreFar(RefBoxes(b, refs), DetectionBoxes(dets), limit, a, i, j);
  }

  lemma LeftoverIs(
    f: Filter, s: Snapshot, objects: seq<Detection>, a1: Assigned, a2: Assigned, a3: Assigned, leftover: seq<Detection>, o: Outcome,
    c: nat) returns (j: nat)
    requires Associations(f, s, objects, a1, a2, a3, leftover, o) && c < |leftover|
    ensures j < |Scored(objects, true)| && j in a1.columnsLeft && leftover[c] == Scored(objects, true)[j]
  {
    hide Followed, Retired, StillTracked, PredictedAll, Scored, OwnRefs, LA.Partition, Pool, Pairing, Chosen;
    j := a1.columnsLeft[c];
  }

  /** A detection nothing was matched with is at least 0.8 away from every track that was not matched
      either, or 0.7 if that track was waiting to be confirmed. */
  lemma LeftoversAreFar(
    f: Filter, s: Snapshot, objects: seq<Detection>, a1: Assigned, a2: Assigned, a3: Assigned, leftover: seq<Detection>,
    o: Outcome, r: Ref, c: nat)
    requires Startable(Book(s.tracked, s.lost)) && Associations(f, s, objects, a1, a2, a3, leftover, o)
    requires Book(s.tracked, s.lost).Has(r) && o.book.Has(r) && o.book.At(r).state != Tracked
    requires forall t :: t in s.lost ==> t.activated
    requires c < |leftover| && c in a3.columnsLeft
    ensures var t := Book(s.tracked, s.lost).At(r);
      Distance(t.box, leftover[c].box) >= if t.activated then 0.8 else 0.7
  {
    hide Associations, Startable, FollowsOne, Followed, PredictedAll, Pool, Among, Scored, Staged, Collected, Chosen, Partitioned, Distance;
    var now := s.frame + 1;
    var b0 := Book(s.tracked, s.lost);
    var g, act1, ref1, act2, ref2 := StagesOf(f, s, objects, a1, a2, a3, leftover, o);
    var j := LeftoverIs(f, s, objects, a1, a2, a3, leftover, o, c);
    PoolIsSound(b0);
    assert r.InLost? ==> b0.At(r) in s.lost;
    PredictedIsMoved(b0, f, g.pool, r);
    OtherRounds(g, now, r);
    FateOfRef(g, now, r);
    EndIsBook(g, now, act1, ref1, act2, ref2, o);
    if b0.At(r).activated {
      assert r in g.pool && Among(g.pool, a1.rowsLeft, r);
      RoundLeavesFar(g.predicted, g.pool, Scored(objects, true), FIRST_LIMIT, a1, r, j);
    } else {
      UnconfirmedFollows(f, s, objects, leftover, g, act1, ref1, act2, ref2, r);
      RoundLeavesFar(g.lost, g.unconfirmed, leftover, UNCONFIRMED_LIMIT, a3, r, c);
    }
  }

  lemma UnconfirmedFollows(
    f: Filter, s: Snapshot, objects: seq<Detection>, leftover: seq<Detection>, g: Stages, act1: seq<Track>, ref1: seq<Track>,
    act2: seq<Track>, ref2: seq<Track>, r: Ref)
    requires Staged(g, s.frame + 1) && g.start.Has(r) && r in g.unconfirmed && g.end.Has(r) && g.end.At(r).state != Tracked
    ensures Among(g.unconfirmed, g.a3.rowsLeft, r)
  {
  }
}
