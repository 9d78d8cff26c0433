/** Which removed tracks can come back: exactly those whose box has an extent. */
module TrackerReturn {
  import opened Permutations
  import opened Tracks
  import opened TrackLists
  import opened Association
  import opened Frames
  import opened TrackerInvariant
  import opened TrackerRuns
  import opened TrackerRevival
  import opened TrackerMotion
  import PM = PartialMatching
  import LA = LinearAssignment

  /** With edges counted as pixels the box is at least one pixel wide and high in part. */
  predicate HasExtent(b: Box) {
    b.right - b.left + 1.0 > 0.0 && b.bottom - b.top + 1.0 > 0.0
  }

  lemma FlatIsFar(a: Box, b: Box)
    requires !HasExtent(a)
    ensures Distance(a, b) == 1.0
  {
  }

  lemma FlatIsFarToo(a: Box, b: Box)
    requires !HasExtent(b)
    ensures Distance(a, b) == 1.0
  {
  }

  lemma SameBoxIsNear(b: Box)
    requires HasExtent(b)
    ensures Distance(b, b) == 0.0
  {
    var w, h := b.right - b.left + 1.0, b.bottom - b.top + 1.0;
    OverlapIsInside(w, h, w, h);
    var p := w * h;
    assert Area(b) == p;
    assert Iou(b, b) == p / (p + p - p);
    Whole(p);
  }

  lemma Whole(p: real)
    requires p > 0.0
    ensures p / p == 1.0
  {
  }

  // ---- a flat box is never matched -----------------------------------------------------------------

  lemma FirstOfAssociations(
    f: Filter, s: Snapshot, objects: seq<Detection>, a1: Assigned, a2: Assigned, a3: Assigned, leftover: seq<Detection>, o: Outcome)
    requires Associations(f, s, objects, a1, a2, a3, leftover, o)
    ensures var b0 := Book(s.tracked, s.lost);
      var pool := Pool(b0, |s.lost|);
      var b1 := PredictedAll(b0, f, pool);
      var high := Scored(objects, true);
      && Fits(|pool|, |high|, a1) && Chosen(RefBoxes(b1, pool), DetectionBoxes(high), FIRST_LIMIT, a1)
  {
    hide Chosen, Followed, Retired, StillTracked, PredictedAll, Scored, OwnRefs, Pool;
  }

  lemma FlatIsLeft(b1: Book, pool: seq<Ref>, columns: seq<Box>, a: Assigned, k: nat)
    requires b1.HasAll(pool) && k < |pool| && !HasExtent(b1.At(pool[k]).box)
    requires Fits(|pool|, |columns|, a) && Chosen(RefBoxes(b1, pool), columns, FIRST_LIMIT, a)
    ensures k in a.rowsLeft
  {
    hide HasExtent, Pairing;
    var rows := RefBoxes(b1, pool);
    if k !in a.rowsLeft {
      var t :| 0 <= t < |a.matches| && a.matches[t].0 == k;
      MatchesAreNear(rows, columns, FIRST_LIMIT, a, t);
      FlatIsFar(rows[k], columns[a.matches[t].1]);
      assert false;
    }
  }

  lemma AmongLeft(pool: seq<Ref>, left: seq<int>, k: nat)
    requires k < |pool| && k in left
    ensures Among(pool, left, pool[k])
  {
    var i :| 0 <= i < |left| && left[i] == k;
    assert pool[left[i]] == pool[k];
  }

  /** A lost track with a flat box stays as it is in the associations. */
  lemma FlatStaysLost(
    f: Filter, s: Snapshot, objects: seq<Detection>, a1: Assigned, a2: Assigned, a3: Assigned, leftover: seq<Detection>,
    o: Outcome, i: nat)
    requires Startable(Book(s.tracked, s.lost)) && Associations(f, s, objects, a1, a2, a3, leftover, o)
    requires i < |s.lost| && !HasExtent(s.lost[i].box)
    ensures i < |o.book.lost| && o.book.lost[i].state == s.lost[i].state
  {
    hide Associations, Startable, PredictedAll, Pool, Chosen, HasExtent, Scored;
    var b0, r := Book(s.tracked, s.lost), InLost(i);
    FirstOfAssociations(f, s, objects, a1, a2, a3, leftover, o);
    WhoTakesPart(b0);
    var pool := Pool(b0, |s.lost|);
    PredictionOnlyMoves(b0, f, pool);
    var b1 := PredictedAll(b0, f, pool);
    assert b0.Has(r);
    var k :| 0 <= k < |pool| && pool[k] == r;
    FlatIsLeft(b1, pool, DetectionBoxes(Scored(objects, true)), a1, k);
    AmongLeft(pool, a1.rowsLeft, k);
    var g, act1, ref1, act2, ref2 := StagesOf(f, s, objects, a1, a2, a3, leftover, o);
    hide Among, RefBoxes, DetectionBoxes;
    LeftInFirst(g, s.frame + 1, act1, ref1, act2, ref2, o, r);
  }

  lemma LeftInFirst(
    g: Stages, now: int, act1: seq<Track>, ref1: seq<Track>, act2: seq<Track>, ref2: seq<Track>, o: Outcome, r: Ref)
    requires Staged(g, now) && Collected(g, now, act1, ref1, act2, ref2, o)
    requires r.InLost? && g.start.Has(r) && Among(g.pool, g.a1.rowsLeft, r)
    ensures o.book.Has(r) && o.book.At(r).state == g.start.At(r).state
  {
    FateOfRef(g, now, r);
    assert Still(g.predicted.At(r), g.start.At(r));
  }

  lemma NotFoundAgain(
    f: Filter, max: int, s: Snapshot, objects: seq<Detection>, a1: Assigned, a2: Assigned, a3: Assigned,
    leftover: seq<Detection>, o: Outcome, s': Snapshot, u: Track)
    requires Inv(max, s) && FrameStep(f, max, s, objects, a1, a2, a3, leftover, o, s')
    requires u in s.lost && !HasExtent(u.box)
    ensures u.id !in Ids(s'.tracked)
  {
    hide Inv, Settled, Startable, Associations, NewTracked, NewLost, Births, Expired, GivesWay, IsCovered, Ids, HasExtent;
    var now := s.frame + 1;
    InvIsStartable(max, s);
    AssociationsSettle(f, s, objects, a1, a2, a3, leftover, o);
    var born := Births(f, leftover, a3.columnsLeft, now, s.count);
    BirthsAreNew(f, leftover, a3.columnsLeft, now, s.count);
    var tracked := NewTracked(o, born);
    KeepIsSublist(tracked, t => GivesWay(t, NewLost(o, tracked, s.removed, now, max)));
    NewTrackedOrigin(s, o, born);
    var i :| 0 <= i < |s.lost| && s.lost[i] == u;
    FlatStaysLost(f, s, objects, a1, a2, a3, leftover, o, i);
    if u.id in Ids(s'.tracked) {
      var t := TrackWithId(s'.tracked, u.id);
      Copies(s, o, t);
      if t in born {
        LostIdIsOld(max, s, u);
      } else {
        StaysUntracked(max, s, o, i, t);
      }
      assert false;
    }
  }

  lemma LostIdIsOld(max: int, s: Snapshot, u: Track)
    requires Inv(max, s) && u in s.lost
    ensures u.id <= s.count && (u.state == Lost || u.state == Removed)
  {
  }

  lemma StaysUntracked(max: int, s: Snapshot, o: Outcome, i: nat, t: Track)
    requires Inv(max, s) && Settled(Book(s.tracked, s.lost), o, s.frame + 1)
    requires i < |s.lost| && i < |o.book.lost| && o.book.lost[i].state == s.lost[i].state
    requires t.state == Tracked && (t in o.book.tracked || t in o.book.lost)
    ensures t.id != s.lost[i].id
  {
    hide Inv, Settled, Startable;
    InvIsStartable(max, s);
    BookKeepsIds(s, o);
    LostIdIsOld(max, s, s.lost[i]);
    var j, own := PlaceInBook(s, o, t);
    IdsDiffer(s, i, j, false, own);
  }

  // ---- a box with an extent can be found -----------------------------------------------------------

  const FLAT := Box(0.0, 0.0, -1.0, -1.0)

  /** A filter under which every matched track shrinks to nothing, so that it is near no other. */
  function Shrinking(): Filter {
    Filter(b => Motion([], []), (m, tracked) => m, (m, b) => m, m => FLAT)
  }

  function SeenAt(b: Box): Detection {
    Detection(b, 1.0, 0)
  }

  /** 0, .., n - 1 */
  function UpTo(n: nat): (r: seq<int>)
    ensures |r| == n && forall k :: 0 <= k < n ==> r[k] == k
  {
    seq(n, k => k)
  }

  /** 0, .., n - 1 without k */
  function Without(n: nat, k: nat): (r: seq<int>)
    requires k < n
    ensures |r| == n - 1 && forall j :: 0 <= j < n - 1 ==> r[j] == if j < k then j else j + 1
  {
    seq(n - 1, j => if j < k then j else j + 1)
  }

  lemma WithoutIs(n: nat, k: nat)
    requires k < n
    ensures forall i :: 0 <= i < n ==> (i in Without(n, k) <==> i != k)
  {
    forall i | 0 <= i < n && i != k ensures i in Without(n, k) {
      assert Without(n, k)[if i < k then i else i - 1] == i;
    }
  }

  lemma NoColumns(rows: seq<Box>, limit: real, a: Assigned)
    requires a == Assigned([], UpTo(|rows|), [])
    ensures Chosen(rows, [], limit, a) && Fits(|rows|, 0, a)
  {
    forall i | 0 <= i < |rows| ensures i in a.rowsLeft {
      assert a.rowsLeft[i] == i;
    }
    assert Pairing(rows, [], limit, [], [], []);
  }

  // One column, and the row that is to have it.

  function OnlyRow(n: nat, k: nat): (m: seq<int>)
    ensures |m| == n
  {
    seq(n, i => if i == k then 0 else -1)
  }

  lemma {:induction false} PairsOfOnly(n: nat, k: nat)
    ensures LA.Pairs(OnlyRow(n, k)) == if k < n then [(k, 0)] else []
  {
    if n > 0 {
      PairsOfOnly(n - 1, k);
      assert OnlyRow(n, k)[..n - 1] == OnlyRow(n - 1, k);
    }
  }

  lemma {:induction false} SumOfOnly(s: seq<real>, k: nat)
    requires forall i :: 0 <= i < |s| && i != k ==> s[i] == 0.0
    ensures Sum(s) == if k < |s| then s[k] else 0.0
  {
    if s != [] {
      SumOfOnly(s[..|s| - 1], k);
    }
  }

  lemma NearestIsBest(dists: seq<seq<real>>, n: nat, k: nat)
    requires PM.Rectangular(dists, n, 1) && k < n && dists[k][0] == 0.0
    requires forall i :: 0 <= i < n ==> dists[i][0] >= 0.0
    ensures PM.Best(dists, n, 1, FIRST_LIMIT, OnlyRow(n, k))
  {
    var m := OnlyRow(n, k);
    SumOfOnly(PM.Excess(dists, 1, FIRST_LIMIT, m), k);
    forall j | PM.IsPartial(j, n, 1)
      ensures PM.Value(dists, 1, FIRST_LIMIT, m) <= PM.Value(dists, 1, FIRST_LIMIT, j)
    {
      var e := PM.Excess(dists, 1, FIRST_LIMIT, j);
      if i :| 0 <= i < n && j[i] >= 0 {
        SumOfOnly(e, i);
      } else {
        SumOfOnly(e, n);
      }
    }
  }

  lemma DistanceIsNotNegative(a: Box, b: Box)
    ensures Distance(a, b) >= 0.0
  {
  }

  lemma OnePartition(n: nat, k: nat, a: Assigned)
    requires k < n && a == Assigned([(k, 0)], Without(n, k), [])
    ensures LA.Partition(n, 1, a.matches, a.rowsLeft, a.columnsLeft) && Fits(n, 1, a)
  {
    WithoutIs(n, k);
    assert a.matches[0].0 == k && a.matches[0].1 == 0;
  }

  lemma OneColumn(rows: seq<Box>, b: Box, k: nat, a: Assigned)
    requires k < |rows| && rows[k] == b && HasExtent(b)
    requires a == Assigned([(k, 0)], Without(|rows|, k), [])
    ensures Chosen(rows, [b], FIRST_LIMIT, a) && Fits(|rows|, 1, a)
  {
    var n := |rows|;
    var dists := seq(n, i requires 0 <= i < n => [Distance(rows[i], b)]);
    hide Distance, HasExtent, PM.Best, LA.Partition;
    SameBoxIsNear(b);
    forall i | 0 <= i < n ensures dists[i][0] >= 0.0 {
      DistanceIsNotNegative(rows[i], b);
    }
    NearestIsBest(dists, n, k);
    PairsOfOnly(n, k);
    OnePartition(n, k, a);
    assert AreDistances(rows, [b], dists);
    assert Pairing(rows, [b], FIRST_LIMIT, a.matches, dists, OnlyRow(n, k));
  }

  lemma OneScore(b: Box)
    ensures Scored([SeenAt(b)], true) == [SeenAt(b)] && Scored([SeenAt(b)], false) == []
    ensures DetectionBoxes([SeenAt(b)]) == [b] && DetectionBoxes([]) == []
    ensures Picked([SeenAt(b)], []) == []
  {
    var s := [SeenAt(b)];
    assert s[..0] == [];
    assert Scored(s[..0], true) == [] && Scored(s[..0], false) == [];
  }

  /** The associations in which the detection at u's box goes to u, found again. */
  lemma AssociationsFind(s: Snapshot, u: Track) returns (
    a1: Assigned, a2: Assigned, a3: Assigned, o: Outcome, t: Track)
    requires Startable(Book(s.tracked, s.lost)) && u in s.lost && u.state != Tracked && HasExtent(u.box)
    ensures Associations(Shrinking(), s, [SeenAt(u.box)], a1, a2, a3, [], o)
    ensures a3.columnsLeft == [] && o.activated == [] && o.refound == [t]
    ensures t.id == u.id && t.box == FLAT
  {
    hide Chosen, Startable, Followed, Retired, StillTracked, PredictedAll, Scored, OwnRefs, Pool, HasExtent, DistinctRefs;
    var f, now := Shrinking(), s.frame + 1;
    var d := SeenAt(u.box);
    OneScore(u.box);
    var b0 := Book(s.tracked, s.lost);
    var i :| 0 <= i < |s.lost| && s.lost[i] == u;
    WhoTakesPart(b0);
    var pool := Pool(b0, |s.lost|);
    assert b0.Has(InLost(i));
    var k :| 0 <= k < |pool| && pool[k] == InLost(i);
    PredictionOnlyMoves(b0, f, pool);
    var b1 := PredictedAll(b0, f, pool);
    assert b1.At(pool[k]).box == u.box && b1.At(pool[k]).id == u.id && b1.At(pool[k]).state != Tracked;
    a1 := Assigned([(k, 0)], Without(|pool|, k), []);
    OneColumn(RefBoxes(b1, pool), u.box, k, a1);
    var p1 := FollowsOne(b1, f, pool, d, k, now);
    t := b1.At(pool[k]).ReActivate(f, d, now);
    var still := StillTracked(p1.book, pool, a1.rowsLeft);
    a2 := Assigned([], UpTo(|still|), []);
    NoColumns(RefBoxes(p1.book, still), SECOND_LIMIT, a2);
    NoneFollowed(p1, f, still, false, now);
    var lost := Retired(p1.book, still, a2.rowsLeft, Lost);
    OwnRefsAreIn(b0, false, |s.tracked|);
    var unconfirmed := OwnRefs(s.tracked, false, |s.tracked|);
    a3 := Assigned([], UpTo(|unconfirmed|), []);
    NoColumns(RefBoxes(lost.book, unconfirmed), UNCONFIRMED_LIMIT, a3);
    var p2 := Progress(lost.book, p1.activated, p1.refound);
    NoneFollowed(p2, f, unconfirmed, true, now);
    var gone := Retired(lost.book, unconfirmed, a3.rowsLeft, Removed);
    o := Outcome(gone.book, p2.activated, p2.refound, lost.marked, gone.marked);
  }

  lemma FollowsOne(b: Book, f: Filter, pool: seq<Ref>, d: Detection, k: nat, now: int) returns (p: Progress)
    requires b.HasAll(pool) && k < |pool| && b.At(pool[k]).state != Tracked
    ensures p == Followed(Progress(b, [], []), f, pool, [d], [(k, 0)], false, now)
    ensures p.book.SameShape(b) && p.activated == [] && p.refound == [b.At(pool[k]).ReActivate(f, d, now)]
  {
    var m := [(k, 0)];
    assert m[..0] == [];
    assert Followed(Progress(b, [], []), f, pool, [d], m[..0], false, now) == Progress(b, [], []);
    p := Followed(Progress(b, [], []), f, pool, [d], m, false, now);
  }

  lemma NoneFollowed(p: Progress, f: Filter, refs: seq<Ref>, always: bool, now: int)
    requires p.book.HasAll(refs)
    ensures Followed(p, f, refs, [], [], always, now) == p
  {
  }

  /** A lost track that is tracked again would be on the list of removed ones. */
  predicate WouldMeet(max: int, u: Track) {
    u.state == Removed || max < 0
  }

  /** A lost track whose box has an extent can be found again. */
  lemma CanBeFoundAgain(max: int, s: Snapshot, u: Track) returns (
    f: Filter, objects: seq<Detection>, a1: Assigned, a2: Assigned, a3: Assigned, leftover: seq<Detection>, o: Outcome, s': Snapshot)
    requires Inv(max, s) && u in s.lost && HasExtent(u.box)
    ensures FrameStep(f, max, s, objects, a1, a2, a3, leftover, o, s')
    ensures u.id in Ids(s'.tracked)
  {
    hide Inv, Startable, Settled, Associations, HasExtent, NewTracked, NewLost, Expired, TrackedLeft, LostLeft, Ids, DistinctIds;
    InvIsStartable(max, s);
    LostIdIsOld(max, s, u);
    var t: Track;
    f, objects, leftover := Shrinking(), [SeenAt(u.box)], [];
    a1, a2, a3, o, t := AssociationsFind(s, u);
    AssociationsSettle(f, s, objects, a1, a2, a3, leftover, o);
    var now := s.frame + 1;
    var tracked := NewTracked(o, []);
    var lost := NewLost(o, tracked, s.removed, now, max);
    assert Births(f, leftover, a3.columnsLeft, now, s.count) == [];
    s' := Snapshot(now, TrackedLeft(tracked, lost), LostLeft(tracked, lost),
      s.removed + o.removedNow + Expired(o.book.lost, now, max), s.count + 0);
    FoundStays(s, o, t, tracked, lost);
  }

  lemma FoundStays(s: Snapshot, o: Outcome, t: Track, tracked: seq<Track>, lost: seq<Track>)
    requires Startable(Book(s.tracked, s.lost)) && Settled(Book(s.tracked, s.lost), o, s.frame + 1)
    requires o.activated == [] && o.refound == [t] && t.box == FLAT && tracked == NewTracked(o, [])
    ensures t.id in Ids(TrackedLeft(tracked, lost))
  {
    hide Settled, Startable, NewTracked, Distance, DistinctIds;
    NewTrackedOrigin(s, o, []);
    assert t in o.refound;
    var w := TrackWithId(tracked, t.id);
    assert w in o.refound;
    forall u | u in lost ensures Distance(t.box, u.box) >= NEAR {
      FlatIsFar(t.box, u.box);
    }
    KeepIsSublist(tracked, t => GivesWay(t, lost));
  }

  lemma MarkedIsListed(max: int, s: Snapshot, u: Track)
    requires Inv(max, s) && u in s.lost && WouldMeet(max, u)
    ensures u.id in Ids(s.removed) || (max < 0 && u.id in Ids(s.lost))
  {
  }

  // ---- when tracked and removed ids can meet -------------------------------------------------------

  /** Some track is tracked under an id on the removed list. */
  ghost predicate Meet(s: Snapshot) {
    exists t :: t in s.tracked && t.id in Ids(s.removed)
  }

  /** There is a next frame after which that is so. */
  ghost predicate CanMeet(max: int, s: Snapshot) {
    exists f, objects, a1, a2, a3, leftover, o, s' ::
      FrameStep(f, max, s, objects, a1, a2, a3, leftover, o, s') && Meet(s')
  }

  lemma Meets(s: Snapshot, t: Track)
    requires t in s.tracked && t.id in Ids(s.removed)
    ensures Meet(s)
  {
  }

  lemma OneReturned(
    f: Filter, max: int, s: Snapshot, objects: seq<Detection>, a1: Assigned, a2: Assigned, a3: Assigned,
    leftover: seq<Detection>, o: Outcome, s': Snapshot) returns (u: Track)
    requires Inv(max, s) && FrameStep(f, max, s, objects, a1, a2, a3, leftover, o, s')
    requires Ids(s.tracked) !! Ids(s.removed) && Meet(s')
    ensures u in s.lost && WouldMeet(max, u) && u.id in Ids(s'.tracked)
  {
    hide FrameStep, Inv, Ids, DistinctIds, FrameGuarantee;
    var t :| t in s'.tracked && t.id in Ids(s'.removed);
    FrameIsSafe(f, max, s, objects, a1, a2, a3, leftover, o, s');
    RemovedWhileTracked(f, max, s, objects, a1, a2, a3, leftover, o, s', t);
    WasLostAndMarked(max, s, objects, s', t);
    IdsMember(s'.tracked, t);
    if w :| w in s.lost && w.state == Removed && w.id == t.id {
      u := w;
    } else {
      u := TrackWithId(s.lost, t.id);
    }
  }

  /** As long as the ids are apart, they stay apart in every next frame, whatever the filter and the
      detections, exactly if no lost track marked removed (with a negative maximum: no lost track at
      all) has a box with an extent. */
  lemma ApartUnlessOneCanReturn(max: int, s: Snapshot)
    requires Inv(max, s) && Ids(s.tracked) !! Ids(s.removed)
    ensures CanMeet(max, s) <==> exists u :: u in s.lost && WouldMeet(max, u) && HasExtent(u.box)
  {
    hide FrameStep, Inv, HasExtent, Ids, WouldMeet, Meet;
    if u :| u in s.lost && WouldMeet(max, u) && HasExtent(u.box) {
      var f, objects, a1, a2, a3, leftover, o, s' := CanBeFoundAgain(max, s, u);
      var t := TrackWithId(s'.tracked, u.id);
      RemovedWhileTracked(f, max, s, objects, a1, a2, a3, leftover, o, s', t);
      MarkedIsListed(max, s, u);
      Meets(s', t);
    }
    if CanMeet(max, s) {
      var f, objects, a1, a2, a3, leftover, o, s' :|
        FrameStep(f, max, s, objects, a1, a2, a3, leftover, o, s') && Meet(s');
      var u := OneReturned(f, max, s, objects, a1, a2, a3, leftover, o, s');
      if !HasExtent(u.box) {
        NotFoundAgain(f, max, s, objects, a1, a2, a3, leftover, o, s', u);
        assert false;
      }
    }
  }
}
