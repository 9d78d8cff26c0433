/** The tracker over whole runs: identities, ages, confirmation and accounting. */
module TrackerRuns {
  import opened Permutations
  import opened Tracks
  import opened TrackLists
  import opened Association
  import opened Frames
  import opened TrackerInvariant

  /** How many frames a track may stay unseen. Even with a smaller setting a track just lost
      is not examined in the frame it was lost in. */
  function Patience(max: int): int {
    if max < 1 then 1 else max
  }

  ghost predicate TrackedOk(t: Track, frame: int) {
    && t.state == Tracked && t.frame == frame
    && 1 <= t.start <= frame
    && (t.activated <==> t.start == 1 || t.start < frame)
  }

  ghost predicate LostOk(t: Track, frame: int, max: int) {
    && t.activated && 1 <= t.start <= t.frame
    && 1 <= frame - t.frame <= Patience(max) + 1
    && t.state == if frame - t.frame == Patience(max) + 1 then Removed else Lost
  }

  ghost predicate IdsUpTo(s: seq<Track>, count: int) {
    forall t :: t in s ==> 1 <= t.id <= count
  }

  /** What holds between any two frames of any run. */
  ghost predicate Inv(max: int, s: Snapshot) {
    && s.frame >= 0 && s.count >= 0
    && DistinctIds(s.tracked) && DistinctIds(s.lost) && Ids(s.tracked) !! Ids(s.lost)
    && IdsUpTo(s.tracked, s.count) && IdsUpTo(s.lost, s.count) && IdsUpTo(s.removed, s.count)
    && (forall t :: t in s.tracked ==> TrackedOk(t, s.frame))
    && (forall t :: t in s.lost ==> LostOk(t, s.frame, max) && (t.state == Removed <==> t.id in Ids(s.removed)))
  }

  lemma InvIsStartable(max: int, s: Snapshot)
    requires Inv(max, s)
    ensures Startable(Book(s.tracked, s.lost))
  {
  }

  // ---- new tracks ------------------------------------------------------------------------------

  lemma {:induction false} BirthsAreNew(f: Filter, dets: seq<Detection>, left: seq<int>, now: int, count: int)
    requires RowsIn(left, |dets|)
    ensures var born := Births(f, dets, left, now, count);
      && |born| <= |left|
      && forall k :: 0 <= k < |born| ==>
           && born[k].id == count + 1 + k && born[k].state == Tracked
           && born[k].frame == born[k].start == now && (born[k].activated <==> now == 1)
  {
    if left != [] {
      BirthsAreNew(f, dets, left[..|left| - 1], now, count);
    }
  }

  // ---- the list of tracked tracks --------------------------------------------------------------

  /** Where a track of the new list comes from. */
  ghost predicate Origin(s: Snapshot, born: seq<Track>, t: Track) {
    || (exists i :: 0 <= i < |s.tracked| && Follows(t, s.tracked[i], s.frame + 1))
    || (exists i :: 0 <= i < |s.lost| && Follows(t, s.lost[i], s.frame + 1))
    || t in born
  }

  lemma IdsMember(s: seq<Track>, t: Track)
    requires t in s
    ensures t.id in Ids(s)
  {
  }

  /** The tracks that went through the associations keep their ids. */
  lemma BookKeepsIds(s: Snapshot, o: Outcome)
    requires Startable(Book(s.tracked, s.lost)) && Settled(Book(s.tracked, s.lost), o, s.frame + 1)
    ensures |o.book.tracked| == |s.tracked| && |o.book.lost| == |s.lost|
    ensures forall i :: 0 <= i < |s.tracked| ==> o.book.tracked[i].id == s.tracked[i].id
    ensures forall i :: 0 <= i < |s.lost| ==> o.book.lost[i].id == s.lost[i].id
    ensures DistinctIds(o.book.tracked) && DistinctIds(o.book.lost)
  {
    var b0 := Book(s.tracked, s.lost);
    forall i | 0 <= i < |s.tracked| ensures o.book.tracked[i].id == s.tracked[i].id {
      assert OwnFate(o.book.tracked[i], b0.tracked[i], s.frame + 1);
    }
    forall i | 0 <= i < |s.lost| ensures o.book.lost[i].id == s.lost[i].id {
      assert LostFate(o.book.lost[i], b0.lost[i], s.frame + 1);
    }
  }

  /** A track that ends the associations in state Tracked was matched in this frame. */
  lemma TrackedWereMatched(s: Snapshot, o: Outcome, t: Track)
    requires Startable(Book(s.tracked, s.lost)) && Settled(Book(s.tracked, s.lost), o, s.frame + 1)
    requires t.state == Tracked
    ensures t in o.book.tracked ==> exists i :: 0 <= i < |s.tracked| && Follows(t, s.tracked[i], s.frame + 1)
    ensures t in o.book.lost ==> exists i :: 0 <= i < |s.lost| && Follows(t, s.lost[i], s.frame + 1)
  {
    var b0 := Book(s.tracked, s.lost);
    if t in o.book.tracked {
      var i :| 0 <= i < |o.book.tracked| && o.book.tracked[i] == t;
      assert OwnFate(o.book.tracked[i], b0.tracked[i], s.frame + 1);
    }
    if t in o.book.lost {
      var i :| 0 <= i < |o.book.lost| && o.book.lost[i] == t;
      assert LostFate(o.book.lost[i], b0.lost[i], s.frame + 1);
      assert s.lost[i] in s.lost;
    }
  }

  lemma TwoJoints(a: seq<Track>, b: seq<Track>, c: seq<Track>)
    requires DistinctIds(a)
    ensures DistinctIds(Joint(Joint(a, b), c))
    ensures forall t :: t in Joint(Joint(a, b), c) ==> t in a || t in b || t in c
    ensures forall t :: t in a ==> t in Joint(Joint(a, b), c)
    ensures Ids(b) <= Ids(Joint(Joint(a, b), c)) && Ids(c) <= Ids(Joint(Joint(a, b), c))
  {
    hide Joint, Ids, DistinctIds;
    JointIsUnion(a, b);
    JointIsUnion(Joint(a, b), c);
  }

  lemma NewTrackedMembers(o: Outcome, born: seq<Track>)
    requires DistinctIds(o.book.tracked)
    ensures var tracked := NewTracked(o, born);
      && DistinctIds(tracked)
      && (forall t :: t in tracked ==> (t in o.book.tracked && t.state == Tracked) || t in o.activated || t in born || t in o.refound)
      && (forall t :: t in o.book.tracked && t.state == Tracked ==> t in tracked)
      && Ids(o.activated + born) <= Ids(tracked) && Ids(o.refound) <= Ids(tracked)
  {
    hide Joint, Ids, DistinctIds;
    KeepIsSublist(o.book.tracked, (t: Track) => t.state != Tracked);
    TwoJoints(OnlyTracked(o.book.tracked), o.activated + born, o.refound);
  }

  lemma NewTrackedOrigin(s: Snapshot, o: Outcome, born: seq<Track>)
    requires Startable(Book(s.tracked, s.lost)) && Settled(Book(s.tracked, s.lost), o, s.frame + 1)
    ensures var tracked := NewTracked(o, born);
      && DistinctIds(tracked)
      && (forall t :: t in tracked ==> Origin(s, born, t))
      && (forall t :: t in tracked ==> t in o.activated || t in born || t in o.refound)
      && (forall t :: t in o.book.tracked && t.state == Tracked ==> t in tracked)
      && Ids(o.refound) <= Ids(tracked)
  {
    hide Settled, Startable, Follows, NewTracked, Ids, DistinctIds;
    BookKeepsIds(s, o);
    NewTrackedMembers(o, born);
    var tracked := NewTracked(o, born);
    forall t | t in tracked ensures Origin(s, born, t) && (t in o.activated || t in born || t in o.refound) {
      Copies(s, o, t);
      if t !in born {
        TrackedWereMatched(s, o, t);
      }
    }
  }

  /** Copies hold what the tracks they copy hold. */
  lemma Copies(s: Snapshot, o: Outcome, t: Track)
    requires Settled(Book(s.tracked, s.lost), o, s.frame + 1)
    ensures t in o.activated ==> t.state == Tracked && t in o.book.tracked
    ensures t in o.refound ==> t.state == Tracked && t in o.book.lost
    ensures t in o.book.tracked && t.state == Tracked ==> t in o.activated
    ensures t in o.lostNow ==> t.state == Lost && t in o.book.tracked
    ensures t in o.removedNow ==> t.state == Removed && t in o.book.tracked
  {
    if t in o.book.tracked {
      var i :| 0 <= i < |o.book.tracked| && o.book.tracked[i] == t;
      assert o.book.tracked[i] in ListFor(o, s.tracked[i], o.book.tracked[i]);
    }
  }

  /** t is a track of s under the same id and with the same first frame; if not `seen` since, also
      with the same last frame. */
  ghost predicate Continues(s: Snapshot, t: Track, seen: bool) {
    exists u :: u in s.tracked + s.lost && u.id == t.id && u.start == t.start && (seen || u.frame == t.frame)
  }

  lemma OriginIsOk(max: int, s: Snapshot, born: seq<Track>, t: Track)
    requires Inv(max, s) && Origin(s, born, t)
    requires forall k :: 0 <= k < |born| ==>
      && born[k].id == s.count + 1 + k && born[k].state == Tracked
      && born[k].frame == born[k].start == s.frame + 1 && (born[k].activated <==> s.frame + 1 == 1)
    ensures TrackedOk(t, s.frame + 1) && 1 <= t.id <= s.count + |born|
    ensures Continues(s, t, true) || (s.count < t.id && t.start == s.frame + 1)
  {
    if i :| 0 <= i < |s.tracked| && Follows(t, s.tracked[i], s.frame + 1) {
      assert s.tracked[i] in s.tracked + s.lost && s.tracked[i] in s.tracked;
    } else if i :| 0 <= i < |s.lost| && Follows(t, s.lost[i], s.frame + 1) {
      assert s.lost[i] in s.tracked + s.lost && s.lost[i] in s.lost;
    }
  }

  // ---- the list of lost tracks -----------------------------------------------------------------

  lemma {:induction false} ExpiredAre(lost: seq<Track>, now: int, max: int)
    ensures forall t :: t in Expired(lost, now, max) <==>
      exists i :: 0 <= i < |lost| && IsOver(lost[i], now, max) && t == lost[i].Marked(Removed)
  {
    if lost != [] {
      var r := lost[..|lost| - 1];
      ExpiredAre(r, now, max);
      forall t | t in Expired(lost, now, max)
        ensures exists i :: 0 <= i < |lost| && IsOver(lost[i], now, max) && t == lost[i].Marked(Removed)
      {
        if t in Expired(r, now, max) {
          var i :| 0 <= i < |r| && IsOver(r[i], now, max) && t == r[i].Marked(Removed);
          assert lost[i] == r[i];
        }
      }
      forall i | 0 <= i < |lost| && IsOver(lost[i], now, max) ensures lost[i].Marked(Removed) in Expired(lost, now, max) {
        if i < |r| {
          assert r[i] == lost[i];
        }
      }
    }
  }

  /** A new lost track is either an old one that nobody found, a frame older, or one just left alone. */
  ghost predicate LostOrigin(max: int, s: Snapshot, o: Outcome, t: Track) {
    || (exists i :: FromLost(max, s, o, t, i))
    || (exists i :: FromTracked(s, t, i))
  }

  ghost predicate FromLost(max: int, s: Snapshot, o: Outcome, t: Track, i: int) {
    && 0 <= i < |s.lost| && i < |o.book.lost|
    && Kept(o.book.lost[i], s.lost[i]) && o.book.lost[i].state == s.lost[i].state
    && t == Older(o.book.lost[i], s.frame + 1, max)
  }

  ghost predicate FromTracked(s: Snapshot, t: Track, i: int) {
    0 <= i < |s.tracked| && Kept(t, s.tracked[i]) && s.tracked[i].activated && t.state == Lost
  }

  lemma NewLostMembers(o: Outcome, tracked: seq<Track>, removed: seq<Track>, now: int, max: int)
    ensures var lost := NewLost(o, tracked, removed, now, max);
      && DistinctIds(lost) && Ids(lost) !! Ids(removed)
      && (forall t :: t in lost ==> (t in Aged(o.book.lost, now, max) && t.id !in Ids(tracked)) || t in o.lostNow)
      && Ids(o.lostNow) - Ids(removed) <= Ids(lost)
      && Ids(Aged(o.book.lost, now, max)) - Ids(tracked) - Ids(removed) <= Ids(lost)
  {
    var aged := Aged(o.book.lost, now, max);
    hide Difference, Aged;
    DifferenceIsDifference(aged, tracked);
    var both := Difference(aged, tracked) + o.lostNow;
    DifferenceIsDifference(both, removed);
    assert Ids(both) == Ids(Difference(aged, tracked)) + Ids(o.lostNow) by {
      forall t | t in both ensures t in Difference(aged, tracked) || t in o.lostNow {}
    }
  }

  lemma NewLostOrigin(max: int, s: Snapshot, o: Outcome, tracked: seq<Track>, t: Track)
    requires Startable(Book(s.tracked, s.lost)) && Settled(Book(s.tracked, s.lost), o, s.frame + 1)
    requires Ids(o.refound) <= Ids(tracked)
    requires t in NewLost(o, tracked, s.removed, s.frame + 1, max)
    ensures LostOrigin(max, s, o, t)
  {
    var now := s.frame + 1;
    NewLostMembers(o, tracked, s.removed, now, max);
    hide NewLost;
    if t in o.lostNow {
      Copies(s, o, t);
      var i :| 0 <= i < |o.book.tracked| && o.book.tracked[i] == t;
      assert OwnFate(o.book.tracked[i], s.tracked[i], now);
      assert FromTracked(s, t, i);
    } else {
      var aged := Aged(o.book.lost, now, max);
      var i :| 0 <= i < |aged| && aged[i] == t;
      assert LostFate(o.book.lost[i], s.lost[i], now);
      assert o.book.lost[i] in o.refound ==> t.id in Ids(o.refound);
      assert FromLost(max, s, o, t, i);
    }
  }

  /** Ages grow by one, and a lost track is marked exactly in the frame its time is up; the frame
      after that it is gone, because its id is on the list of removed ones. */
  lemma LostOriginIsOk(max: int, s: Snapshot, o: Outcome, t: Track)
    requires Inv(max, s) && LostOrigin(max, s, o, t)
    requires t.id !in Ids(s.removed)
    ensures LostOk(t, s.frame + 1, max) && 1 <= t.id <= s.count
    ensures Continues(s, t, false)
  {
    if i :| FromTracked(s, t, i) {
      assert s.tracked[i] in s.tracked && s.tracked[i] in s.tracked + s.lost;
    } else {
      var i :| FromLost(max, s, o, t, i);
      assert s.lost[i] in s.lost && s.lost[i] in s.tracked + s.lost;
      assert LostOk(s.lost[i], s.frame, max);
    }
  }

  /** Among the new lost tracks, those marked are those whose id joins the removed ones. */
  lemma MarkedMeansRemoved(max: int, s: Snapshot, o: Outcome, t: Track)
    requires Inv(max, s) && Settled(Book(s.tracked, s.lost), o, s.frame + 1)
    requires LostOrigin(max, s, o, t) && t.id !in Ids(s.removed)
    ensures t.state == Removed <==> t.id in Ids(s.removed + o.removedNow + Expired(o.book.lost, s.frame + 1, max))
  {
    var now := s.frame + 1;
    var expired := Expired(o.book.lost, now, max);
    InvIsStartable(max, s);
    BookKeepsIds(s, o);
    ExpiredAre(o.book.lost, now, max);
    if t.state == Removed {
      var i :| FromLost(max, s, o, t, i);
      assert s.lost[i] in s.lost;
      assert s.lost[i].state != Removed;
      assert t in expired;
    } else {
      forall u | u in s.removed + o.removedNow + expired ensures u.id != t.id {
        if u in s.removed {
          IdsMember(s.removed, u);
        } else {
          OthersAreMarked(max, s, o, t, u);
        }
      }
    }
  }

  lemma OthersAreMarked(max: int, s: Snapshot, o: Outcome, t: Track, u: Track)
    requires Inv(max, s) && Settled(Book(s.tracked, s.lost), o, s.frame + 1)
    requires LostOrigin(max, s, o, t) && t.state != Removed
    requires u in o.removedNow || u in Expired(o.book.lost, s.frame + 1, max)
    ensures u.id != t.id
  {
    hide Inv, Settled, Startable, DistinctIds, Ids;
    var now := s.frame + 1;
    InvIsStartable(max, s);
    BookKeepsIds(s, o);
    var j, own := PlaceOf(s, o, u, now, max);
    assert u.id == (if own then s.tracked[j] else s.lost[j]).id;
    if i :| FromTracked(s, t, i) {
      ActivatedNotRemoved(s, o, i);
      IdsDiffer(s, i, j, true, own);
    } else {
      var i :| FromLost(max, s, o, t, i);
      IdsDiffer(s, i, j, false, own);
    }
  }

  lemma ActivatedNotRemoved(s: Snapshot, o: Outcome, i: nat)
    requires Settled(Book(s.tracked, s.lost), o, s.frame + 1)
    requires i < |s.tracked| && s.tracked[i].activated
    ensures i < |o.book.tracked| && o.book.tracked[i].state != Removed
  {
    assert OwnFate(o.book.tracked[i], s.tracked[i], s.frame + 1);
  }

  /** Different places in the two lists hold different ids. */
  lemma IdsDiffer(s: Snapshot, i: int, j: int, ownI: bool, ownJ: bool)
    requires Startable(Book(s.tracked, s.lost))
    requires 0 <= i < (if ownI then |s.tracked| else |s.lost|) && 0 <= j < (if ownJ then |s.tracked| else |s.lost|)
    ensures (i != j || ownI != ownJ) ==>
      (if ownI then s.tracked[i] else s.lost[i]).id != (if ownJ then s.tracked[j] else s.lost[j]).id
  {
    if ownI != ownJ {
      var a, b := if ownI then s.tracked[i] else s.tracked[j], if ownI then s.lost[j] else s.lost[i];
      assert a.id in Ids(s.tracked) && b.id in Ids(s.lost);
    }
  }

  lemma PlaceOf(s: Snapshot, o: Outcome, u: Track, now: int, max: int) returns (j: int, own: bool)
    requires Settled(Book(s.tracked, s.lost), o, now)
    requires u in o.removedNow || u in Expired(o.book.lost, now, max)
    ensures own ==> 0 <= j < |s.tracked| && o.book.tracked[j] == u && u.state == Removed
    ensures !own ==> 0 <= j < |s.lost| && IsOver(o.book.lost[j], now, max) && u == o.book.lost[j].Marked(Removed)
  {
    own := u in o.removedNow;
    if own {
      j :| 0 <= j < |o.book.tracked| && o.book.tracked[j] == u;
    } else {
      ExpiredAre(o.book.lost, now, max);
      j :| 0 <= j < |o.book.lost| && IsOver(o.book.lost[j], now, max) && u == o.book.lost[j].Marked(Removed);
    }
  }

  // ---- one frame -------------------------------------------------------------------------------

  ghost predicate RemovedOk(s: Snapshot, o: Outcome, max: int) {
    IdsUpTo(s.removed + o.removedNow + Expired(o.book.lost, s.frame + 1, max), s.count)
  }

  lemma RemovedIds(max: int, s: Snapshot, o: Outcome)
    requires Inv(max, s) && Settled(Book(s.tracked, s.lost), o, s.frame + 1)
    ensures RemovedOk(s, o, max)
  {
    InvIsStartable(max, s);
    BookKeepsIds(s, o);
    forall t | t in s.removed + o.removedNow + Expired(o.book.lost, s.frame + 1, max) ensures 1 <= t.id <= s.count {
      if t !in s.removed {
        var j, own := PlaceOf(s, o, t, s.frame + 1, max);
        assert own ==> s.tracked[j] in s.tracked;
        assert !own ==> s.lost[j] in s.lost;
      }
    }
  }

  /** The lists before near duplicates are taken out are as they should be. */
  ghost predicate Fresh(max: int, s: Snapshot, tracked: seq<Track>, lost: seq<Track>, removed: seq<Track>, count: int) {
    && DistinctIds(tracked) && DistinctIds(lost) && Ids(tracked) !! Ids(lost)
    && (forall t :: t in tracked ==> TrackedOk(t, s.frame + 1) && 1 <= t.id <= count)
    && (forall t :: t in tracked ==> Continues(s, t, true) || (s.count < t.id && t.start == s.frame + 1))
    && (forall t :: t in lost ==> LostOk(t, s.frame + 1, max) && 1 <= t.id <= s.count)
    && (forall t :: t in lost ==> (t.state == Removed <==> t.id in Ids(removed)) && t.id !in Ids(s.removed))
    && (forall t :: t in lost ==> Continues(s, t, false))
  }

  /** A track just left alone is not among the tracked ones. */
  lemma JustLostIsNotTracked(s: Snapshot, o: Outcome, born: seq<Track>, t: Track, u: Track)
    requires Startable(Book(s.tracked, s.lost)) && Settled(Book(s.tracked, s.lost), o, s.frame + 1)
    requires IdsUpTo(s.tracked, s.count)
    requires forall k :: 0 <= k < |born| ==> born[k].id > s.count
    requires t in o.lostNow && u in NewTracked(o, born)
    ensures u.id != t.id
  {
    hide Startable, Settled, NewTracked, DistinctIds, Ids;
    NewTrackedOrigin(s, o, born);
    BookKeepsIds(s, o);
    Copies(s, o, t);
    var i :| 0 <= i < |o.book.tracked| && o.book.tracked[i] == t;
    assert s.tracked[i] in s.tracked;
    if u !in born {
      Copies(s, o, u);
      var own := u in o.book.tracked;
      assert own || u in o.book.lost;
      var j :| 0 <= j < |if own then o.book.tracked else o.book.lost| && (if own then o.book.tracked else o.book.lost)[j] == u;
      assert u.state == Tracked && t.state == Lost;
      IdsDiffer(s, i, j, true, own);
    }
  }

  lemma ListsAreFresh(max: int, s: Snapshot, o: Outcome, born: seq<Track>)
    requires Inv(max, s) && Settled(Book(s.tracked, s.lost), o, s.frame + 1)
    requires forall k :: 0 <= k < |born| ==>
      && born[k].id == s.count + 1 + k && born[k].state == Tracked
      && born[k].frame == born[k].start == s.frame + 1 && (born[k].activated <==> s.frame + 1 == 1)
    ensures var tracked := NewTracked(o, born);
      var lost := NewLost(o, tracked, s.removed, s.frame + 1, max);
      Fresh(max, s, tracked, lost, s.removed + o.removedNow + Expired(o.book.lost, s.frame + 1, max), s.count + |born|)
  {
    hide NewTracked, NewLost, Settled, Inv, Startable, TrackedOk, LostOk, Origin, LostOrigin, Expired, Continues;
    var now := s.frame + 1;
    var tracked := NewTracked(o, born);
    var lost := NewLost(o, tracked, s.removed, now, max);
    InvIsStartable(max, s);
    NewTrackedOrigin(s, o, born);
    NewLostMembers(o, tracked, s.removed, now, max);
    forall t | t in tracked
      ensures TrackedOk(t, now) && 1 <= t.id <= s.count + |born|
      ensures Continues(s, t, true) || (s.count < t.id && t.start == now)
    {
      OriginIsOk(max, s, born, t);
    }
    forall t | t in lost
      ensures LostOk(t, now, max) && 1 <= t.id <= s.count
      ensures t.state == Removed <==> t.id in Ids(s.removed + o.removedNow + Expired(o.book.lost, now, max))
      ensures t.id !in Ids(s.removed) && Continues(s, t, false) && t.id !in Ids(tracked)
    {
      IdsMember(lost, t);
      NewLostOrigin(max, s, o, tracked, t);
      LostOriginIsOk(max, s, o, t);
      MarkedMeansRemoved(max, s, o, t);
      if t in o.lostNow {
        InvBounds(max, s);
        forall u | u in tracked ensures u.id != t.id {
          JustLostIsNotTracked(s, o, born, t, u);
        }
      }
    }
  }

  lemma InvBounds(max: int, s: Snapshot)
    requires Inv(max, s)
    ensures IdsUpTo(s.tracked, s.count) && s.frame >= 0 && s.count >= 0
  {
  }

  /** What one frame promises about the state after it, beyond the invariant. */
  ghost predicate FrameGuarantee(s: Snapshot, objects: seq<Detection>, s': Snapshot) {
    && s'.frame == s.frame + 1 && s.count <= s'.count
    // A tracked track was there before, with the same first frame, or is new under a new id.
    && (forall t :: t in s'.tracked ==> Continues(s, t, true) || (s.count < t.id <= s'.count && t.start == s'.frame))
    // A lost track was there before and was not seen in this frame.
    && (forall t :: t in s'.lost ==> Continues(s, t, false))
    // An id that was ever removed can be tracked again, but not be kept as lost again.
    && Ids(s'.lost) !! Ids(s.removed)
    // Every tracked track stands for a detection of its own.
    && |s'.tracked| <= |objects|
    // No tracked track is near a lost one.
    && (forall t, u :: t in s'.tracked && u in s'.lost ==> Distance(t.box, u.box) >= NEAR)
  }

  lemma TrackedAreFew(s: Snapshot, o: Outcome, born: seq<Track>)
    requires Startable(Book(s.tracked, s.lost)) && Settled(Book(s.tracked, s.lost), o, s.frame + 1)
    ensures |NewTracked(o, born)| <= |o.activated| + |born| + |o.refound|
  {
    hide Startable, Settled, NewTracked;
    NewTrackedOrigin(s, o, born);
    var tracked := NewTracked(o, born);
    var sources := o.activated + born + o.refound;
    assert forall t :: t in tracked ==> t in sources;
    DistinctSize(tracked);
    SubsetSize(Elements(tracked), Elements(sources));
    ElementsAreFew(sources);
  }

  lemma {:induction false} ElementsAreFew<T>(s: seq<T>)
    ensures |Elements(s)| <= |s|
  {
    if s == [] {
      assert Elements(s) == {};
    } else {
      var r := s[..|s| - 1];
      ElementsAreFew(r);
      assert s == r + [s[|s| - 1]];
      assert Elements(s) == Elements(r) + {s[|s| - 1]};
    }
  }

  /** One frame keeps the invariant and its guarantees. */
  lemma FrameIsSafe(
    f: Filter, max: int, s: Snapshot, objects: seq<Detection>, a1: Assigned, a2: Assigned, a3: Assigned,
    leftover: seq<Detection>, o: Outcome, s': Snapshot)
    requires Inv(max, s) && FrameStep(f, max, s, objects, a1, a2, a3, leftover, o, s')
    ensures Inv(max, s') && FrameGuarantee(s, objects, s')
  {
    hide Inv, Settled, Startable, Associations, NewTracked, NewLost, Births, Expired, TrackedLeft, LostLeft, Distance;
    var now := s.frame + 1;
    InvIsStartable(max, s);
    AssociationsSettle(f, s, objects, a1, a2, a3, leftover, o);
    var born := Births(f, leftover, a3.columnsLeft, now, s.count);
    BirthsAreNew(f, leftover, a3.columnsLeft, now, s.count);
    var tracked := NewTracked(o, born);
    var lost := NewLost(o, tracked, s.removed, now, max);
    ListsAreFresh(max, s, o, born);
    RemovedIds(max, s, o);
    TrackedAreFew(s, o, born);
    InvBounds(max, s);
    WithoutDuplicates(max, s, objects, tracked, lost, s'.removed, s'.count);
  }

  /** Taking out near duplicates keeps everything and leaves no tracked track near a lost one. */
  lemma WithoutDuplicates(
    max: int, s: Snapshot, objects: seq<Detection>, tracked: seq<Track>, lost: seq<Track>, removed: seq<Track>, count: int)
    requires 0 <= s.count <= count && s.frame >= 0
    requires Fresh(max, s, tracked, lost, removed, count)
    requires IdsUpTo(removed, s.count)
    requires |tracked| <= |objects|
    ensures var s' := Snapshot(s.frame + 1, TrackedLeft(tracked, lost), LostLeft(tracked, lost), removed, count);
      Inv(max, s') && FrameGuarantee(s, objects, s')
  {
    hide TrackedOk, LostOk, Distance, Keep, Continues;
    KeepIsSublist(tracked, t => GivesWay(t, lost));
    KeepIsSublist(lost, u => IsCovered(u, tracked));
    NoneNear(tracked, lost);
    FewerIds(tracked, TrackedLeft(tracked, lost));
    FewerIds(lost, LostLeft(tracked, lost));
  }

  lemma FewerIds(s: seq<Track>, r: seq<Track>)
    requires forall t :: t in r ==> t in s
    ensures Ids(r) <= Ids(s)
  {
  }

  // ---- nothing vanishes ------------------------------------------------------------------------

  /** Every track of the frame before is afterwards tracked, lost or on the list of removed ones,
      unless it gave way to a near duplicate. */
  lemma NothingVanishes(
    f: Filter, max: int, s: Snapshot, objects: seq<Detection>, a1: Assigned, a2: Assigned, a3: Assigned,
    leftover: seq<Detection>, o: Outcome, s': Snapshot, u: Track)
    requires Inv(max, s) && FrameStep(f, max, s, objects, a1, a2, a3, leftover, o, s')
    requires u in s.tracked + s.lost
    ensures var tracked := NewTracked(o, Births(f, leftover, a3.columnsLeft, s.frame + 1, s.count));
      var lost := NewLost(o, tracked, s.removed, s.frame + 1, max);
      || u.id in Ids(s'.tracked) + Ids(s'.lost) + Ids(s'.removed)
      || (exists t :: t in tracked && t.id == u.id && GivesWay(t, lost))
      || (exists t :: t in lost && t.id == u.id && IsCovered(t, tracked))
  {
    hide Inv, Settled, Startable, Associations, Births, Expired, NewTracked, NewLost, GivesWay, IsCovered;
    var now := s.frame + 1;
    InvIsStartable(max, s);
    AssociationsSettle(f, s, objects, a1, a2, a3, leftover, o);
    var born := Births(f, leftover, a3.columnsLeft, now, s.count);
    var tracked := NewTracked(o, born);
    var lost := NewLost(o, tracked, s.removed, now, max);
    if u.id !in Ids(s'.removed) {
      var t := StillListed(max, s, o, born, u);
      KeepIsSublist(tracked, t => GivesWay(t, lost));
      KeepIsSublist(lost, t => IsCovered(t, tracked));
    }
  }

  /** Whatever gave way is represented: tracks near one another lead from it to one that is still
      tracked or lost and has been followed at least as long. */
  lemma EveryTrackIsRepresented(
    f: Filter, max: int, s: Snapshot, objects: seq<Detection>, a1: Assigned, a2: Assigned, a3: Assigned,
    leftover: seq<Detection>, o: Outcome, s': Snapshot, u: Track) returns (t: Track, w: Track)
    requires Inv(max, s) && FrameStep(f, max, s, objects, a1, a2, a3, leftover, o, s')
    requires u in s.tracked + s.lost && u.id !in Ids(s'.removed)
    ensures t.id == u.id && (w in s'.tracked || w in s'.lost)
    ensures var tracked := NewTracked(o, Births(f, leftover, a3.columnsLeft, s.frame + 1, s.count));
      IsRepresentedBy(t, w, tracked, NewLost(o, tracked, s.removed, s.frame + 1, max))
  {
    hide Inv, Settled, Startable, Associations, Births, Expired, NewTracked, NewLost, IsRepresentedBy, TrackedLeft, LostLeft;
    InvIsStartable(max, s);
    AssociationsSettle(f, s, objects, a1, a2, a3, leftover, o);
    var born := Births(f, leftover, a3.columnsLeft, s.frame + 1, s.count);
    var tracked := NewTracked(o, born);
    t := StillListed(max, s, o, born, u);
    w := IsStillRepresented(tracked, NewLost(o, tracked, s.removed, s.frame + 1, max), t);
  }

  lemma IsStillRepresented(tracked: seq<Track>, lost: seq<Track>, t: Track) returns (w: Track)
    requires t in tracked || t in lost
    ensures w in TrackedLeft(tracked, lost) || w in LostLeft(tracked, lost)
    ensures IsRepresentedBy(t, w, tracked, lost)
  {
    var b := LifetimesAreBounded(tracked + lost);
    w := SurvivorExists(tracked, lost, t, t in tracked, b);
  }

  lemma StillListed(max: int, s: Snapshot, o: Outcome, born: seq<Track>, u: Track) returns (t: Track)
    requires Startable(Book(s.tracked, s.lost)) && Settled(Book(s.tracked, s.lost), o, s.frame + 1)
    requires u in s.tracked + s.lost
    requires u.id !in Ids(s.removed) && u.id !in Ids(o.removedNow)
    ensures t.id == u.id
    ensures var tracked := NewTracked(o, born);
      t in tracked || t in NewLost(o, tracked, s.removed, s.frame + 1, max)
  {
    hide NewTracked, NewLost, Settled, Startable;
    var now := s.frame + 1;
    var tracked := NewTracked(o, born);
    var lost := NewLost(o, tracked, s.removed, now, max);
    NewTrackedOrigin(s, o, born);
    NewLostMembers(o, tracked, s.removed, now, max);
    t := WhereItIs(max, s, o, u);
    if t in o.lostNow {
      IdsMember(o.lostNow, t);
      t := TrackWithId(lost, u.id);
    } else if t in Aged(o.book.lost, now, max) {
      IdsMember(Aged(o.book.lost, now, max), t);
      t := TrackWithId(if u.id in Ids(tracked) then tracked else lost, u.id);
    }
  }

  lemma TrackWithId(s: seq<Track>, id: int) returns (t: Track)
    requires id in Ids(s)
    ensures t in s && t.id == id
  {
    t :| t in s && t.id == id;
  }

  lemma WhereItIs(max: int, s: Snapshot, o: Outcome, u: Track) returns (t: Track)
    requires Startable(Book(s.tracked, s.lost)) && Settled(Book(s.tracked, s.lost), o, s.frame + 1)
    requires u in s.tracked + s.lost
    requires u.id !in Ids(o.removedNow)
    ensures t.id == u.id
    ensures || (t in o.book.tracked && t.state == Tracked)
            || t in o.lostNow || t in Aged(o.book.lost, s.frame + 1, max)
  {
    hide Startable;
    var now := s.frame + 1;
    BookKeepsIds(s, o);
    if u in s.tracked {
      var i :| 0 <= i < |s.tracked| && s.tracked[i] == u;
      t := o.book.tracked[i];
      assert t in ListFor(o, s.tracked[i], t);
      IdIsNot(o.removedNow, t);
    } else {
      var i :| 0 <= i < |s.lost| && s.lost[i] == u;
      var aged := Aged(o.book.lost, now, max);
      t := aged[i];
      assert t == Older(o.book.lost[i], now, max);
    }
  }

  lemma IdIsNot(s: seq<Track>, t: Track)
    requires t.id !in Ids(s)
    ensures t !in s
  {
  }

  // ---- whole runs ------------------------------------------------------------------------------

  ghost predicate Initial(s: Snapshot) {
    s.frame == 0 && s.tracked == [] && s.lost == [] && s.removed == [] && s.count >= 0
  }

  /** A frame, before which other trackers sharing the counter may have handed out ids up to c. */
  ghost predicate Next(f: Filter, max: int, s: Snapshot, objects: seq<Detection>, s': Snapshot) {
    exists c, a1, a2, a3, leftover, o :: c >= s.count && FrameStep(f, max, s.(count := c), objects, a1, a2, a3, leftover, o, s')
  }

  ghost predicate IsRun(f: Filter, max: int, inputs: seq<seq<Detection>>, states: seq<Snapshot>) {
    && |states| == |inputs| + 1
    && Initial(states[0])
    && forall k :: 0 <= k < |inputs| ==> Next(f, max, states[k], inputs[k], states[k + 1])
  }

  lemma NextIsSafe(f: Filter, max: int, s: Snapshot, objects: seq<Detection>, s': Snapshot)
    requires Inv(max, s) && Next(f, max, s, objects, s')
    ensures Inv(max, s') && FrameGuarantee(s, objects, s')
  {
    hide Inv, FrameStep, Continues, Distance;
    var c, a1, a2, a3, leftover, o :| c >= s.count && FrameStep(f, max, s.(count := c), objects, a1, a2, a3, leftover, o, s');
    CounterMayGrow(max, s, c);
    FrameIsSafe(f, max, s.(count := c), objects, a1, a2, a3, leftover, o, s');
  }

  lemma CounterMayGrow(max: int, s: Snapshot, c: int)
    requires Inv(max, s) && c >= s.count
    ensures Inv(max, s.(count := c))
    ensures forall t, seen :: Continues(s.(count := c), t, seen) ==> Continues(s, t, seen)
  {
  }

  lemma InitialIsSound(max: int, s: Snapshot)
    requires Initial(s)
    ensures Inv(max, s)
  {
  }

  lemma GuaranteeCounts(s: Snapshot, objects: seq<Detection>, s': Snapshot)
    ensures FrameGuarantee(s, objects, s') ==> s'.frame == s.frame + 1 && s.count <= s'.count
  {
  }

  /** Ids in use after a frame were in use before it or are new. */
  lemma IdsContinue(max: int, s: Snapshot, objects: seq<Detection>, s': Snapshot, id: int)
    requires FrameGuarantee(s, objects, s')
    requires id in Ids(s'.tracked) + Ids(s'.lost)
    ensures id in Ids(s.tracked) + Ids(s.lost) || s.count < id
  {
    hide Distance;
    var t :| t in s'.tracked + s'.lost && t.id == id;
    if Continues(s, t, true) || Continues(s, t, false) {
      var u :| u in s.tracked + s.lost && u.id == id;
    }
  }

  /** Every state of every run is sound. */
  lemma {:induction false} RunsAreSafe(f: Filter, max: int, inputs: seq<seq<Detection>>, states: seq<Snapshot>, k: nat)
    requires IsRun(f, max, inputs, states) && k < |states|
    ensures Inv(max, states[k]) && states[k].frame == k
    ensures k > 0 ==> FrameGuarantee(states[k - 1], inputs[k - 1], states[k])
  {
    hide Next, Inv, FrameGuarantee;
    if k == 0 {
      InitialIsSound(max, states[0]);
    } else {
      RunsAreSafe(f, max, inputs, states, k - 1);
      GuaranteeCounts(states[k - 1], inputs[k - 1], states[k]);
      NextIsSafe(f, max, states[k - 1], inputs[k - 1], states[k]);
    }
  }

  lemma RunLength(f: Filter, max: int, inputs: seq<seq<Detection>>, states: seq<Snapshot>)
    requires IsRun(f, max, inputs, states)
    ensures |states| == |inputs| + 1 && Initial(states[0])
  {
  }

  /** Once an id that was handed out is neither tracked nor lost, it never is again. */
  lemma {:induction false} GoneForGood(f: Filter, max: int, inputs: seq<seq<Detection>>, states: seq<Snapshot>, i: nat, j: nat, id: int)
    requires IsRun(f, max, inputs, states) && i <= j < |states|
    requires id <= states[i].count && id !in Ids(states[i].tracked) + Ids(states[i].lost)
    ensures id <= states[j].count && id !in Ids(states[j].tracked) + Ids(states[j].lost)
  {
    hide IsRun, FrameGuarantee, Inv, Ids;
    if i < j {
      GoneForGood(f, max, inputs, states, i, j - 1, id);
      RunsAreSafe(f, max, inputs, states, j);
      RunLength(f, max, inputs, states);
      GuaranteeCounts(states[j - 1], inputs[j - 1], states[j]);
      if id in Ids(states[j].tracked) + Ids(states[j].lost) {
        IdsContinue(max, states[j - 1], inputs[j - 1], states[j], id);
      }
    }
  }

  /** The age of a lost track is the truth: that many frames ago it was being tracked. */
  lemma {:induction false} AgeIsTrue(f: Filter, max: int, inputs: seq<seq<Detection>>, states: seq<Snapshot>, k: nat, t: Track)
    requires IsRun(f, max, inputs, states) && k < |states|
    requires t in states[k].lost
    ensures 0 <= t.frame < k && t.id in Ids(states[t.frame].tracked)
    ensures k - t.frame <= Patience(max) + 1
  {
    hide IsRun, FrameGuarantee, Inv, Ids, Distance;
    RunsAreSafe(f, max, inputs, states, k);
    RunLength(f, max, inputs, states);
    SoundTracks(max, states[k], t);
    var s := states[k - 1];
    RunsAreSafe(f, max, inputs, states, k - 1);
    var u := LostContinues(s, inputs[k - 1], states[k], t);
    SoundTracks(max, s, u);
    if u in s.tracked {
      IdsMember(s.tracked, u);
    } else {
      AgeIsTrue(f, max, inputs, states, k - 1, u);
    }
  }

  lemma SoundTracks(max: int, s: Snapshot, t: Track)
    requires Inv(max, s)
    ensures t in s.tracked ==> TrackedOk(t, s.frame)
    ensures t in s.lost ==> LostOk(t, s.frame, max)
  {
  }

  lemma LostContinues(s: Snapshot, objects: seq<Detection>, s': Snapshot, t: Track) returns (u: Track)
    requires FrameGuarantee(s, objects, s') && t in s'.lost
    ensures (u in s.tracked || u in s.lost) && u.id == t.id && u.frame == t.frame
  {
    hide Distance;
    u :| u in s.tracked + s.lost && u.id == t.id && u.start == t.start && u.frame == t.frame;
  }

  /** A track not seen for longer than the tracker's patience is forgotten, forever. */
  lemma UnseenIsForgotten(f: Filter, max: int, inputs: seq<seq<Detection>>, states: seq<Snapshot>, i: nat, j: nat, id: int)
    requires IsRun(f, max, inputs, states) && i + Patience(max) + 2 <= j < |states|
    requires id <= states[i].count
    requires forall k :: i < k <= i + Patience(max) + 2 ==> id !in Ids(states[k].tracked)
    ensures id !in Ids(states[j].tracked) + Ids(states[j].lost)
  {
    hide IsRun;
    var k := i + Patience(max) + 2;
    forall t | t in states[k].lost ensures t.id != id {
      AgeIsTrue(f, max, inputs, states, k, t);
    }
    CountGrows(f, max, inputs, states, i, k);
    GoneForGood(f, max, inputs, states, k, j, id);
  }

  lemma {:induction false} CountGrows(f: Filter, max: int, inputs: seq<seq<Detection>>, states: seq<Snapshot>, i: nat, j: nat)
    requires IsRun(f, max, inputs, states) && i <= j < |states|
    ensures states[i].count <= states[j].count
  {
    hide IsRun, FrameGuarantee, Inv;
    if i < j {
      CountGrows(f, max, inputs, states, i, j - 1);
      RunsAreSafe(f, max, inputs, states, j);
      RunLength(f, max, inputs, states);
      GuaranteeCounts(states[j - 1], inputs[j - 1], states[j]);
    }
  }
}
