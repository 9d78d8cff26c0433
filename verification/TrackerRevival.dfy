/** Tracks that were removed and are tracked again. */
module TrackerRevival {
  import opened Tracks
  import opened TrackLists
  import opened Association
  import opened Frames
  import opened TrackerInvariant
  import opened TrackerRuns

  /** A tracked track's id joins the list of removed ones only with a negative maximum, when the
      track was found again: it is then examined in the frame it was found in. */
  lemma RemovedWhileTracked(
    f: Filter, max: int, s: Snapshot, objects: seq<Detection>, a1: Assigned, a2: Assigned, a3: Assigned,
    leftover: seq<Detection>, o: Outcome, s': Snapshot, t: Track)
    requires Inv(max, s) && FrameStep(f, max, s, objects, a1, a2, a3, leftover, o, s')
    requires t in s'.tracked
    ensures t.id in Ids(s'.removed) <==> t.id in Ids(s.removed) || (max < 0 && t.id in Ids(s.lost))
  {
    hide Inv, Settled, Startable, Associations, NewTracked, NewLost, Births, Expired, GivesWay, IsCovered, Ids;
    var now := s.frame + 1;
    InvIsStartable(max, s);
    AssociationsSettle(f, s, objects, a1, a2, a3, leftover, o);
    var born := Births(f, leftover, a3.columnsLeft, now, s.count);
    BirthsAreNew(f, leftover, a3.columnsLeft, now, s.count);
    var tracked := NewTracked(o, born);
    KeepIsSublist(tracked, t => GivesWay(t, NewLost(o, tracked, s.removed, now, max)));
    NewTrackedOrigin(s, o, born);
    OriginIsOk(max, s, born, t);
    Copies(s, o, t);
    if t in born {
      NewIdsAreUnused(max, s, o, t.id);
    } else {
      JoinsRemoved(max, s, o, t);
    }
  }

  lemma NewIdsAreUnused(max: int, s: Snapshot, o: Outcome, id: int)
    requires Inv(max, s) && Settled(Book(s.tracked, s.lost), o, s.frame + 1) && id > s.count
    ensures id !in Ids(s.removed + o.removedNow + Expired(o.book.lost, s.frame + 1, max))
    ensures id !in Ids(s.removed) && id !in Ids(s.lost)
  {
    hide Settled, Expired, DistinctIds;
    RemovedIds(max, s, o);
  }

  /** Which tracks tracked now join the list of removed ones. */
  lemma JoinsRemoved(max: int, s: Snapshot, o: Outcome, t: Track)
    requires Inv(max, s) && Settled(Book(s.tracked, s.lost), o, s.frame + 1)
    requires t.state == Tracked && t.frame == s.frame + 1 && (t in o.book.tracked || t in o.book.lost)
    ensures t.id in Ids(s.removed + o.removedNow + Expired(o.book.lost, s.frame + 1, max)) <==>
      t.id in Ids(s.removed) || (max < 0 && t.id in Ids(s.lost))
  {
    hide Inv, Settled, Startable, DistinctIds, Expired;
    var now := s.frame + 1;
    var joining := o.removedNow + Expired(o.book.lost, now, max);
    InvIsStartable(max, s);
    BookKeepsIds(s, o);
    var i, own := PlaceInBook(s, o, t);
    IdsOfBoth(s.removed, joining);
    assert s.removed + joining == s.removed + o.removedNow + Expired(o.book.lost, now, max);
    if t.id in Ids(joining) {
      var u := TrackWithId(joining, t.id);
      var j, ownJ := PlaceOf(s, o, u, now, max);
      IdsDiffer(s, i, j, own, ownJ);
      IdsMember(s.lost, s.lost[j]);
    }
    if max < 0 && t.id in Ids(s.lost) {
      var u := TrackWithId(s.lost, t.id);
      var j :| 0 <= j < |s.lost| && s.lost[j] == u;
      IdsDiffer(s, i, j, own, false);
      ExpiredAre(o.book.lost, now, max);
      assert IsOver(o.book.lost[i], now, max);
      assert t.Marked(Removed) in joining;
      IdsMember(joining, t.Marked(Removed));
    }
  }

  lemma PlaceInBook(s: Snapshot, o: Outcome, t: Track) returns (i: int, own: bool)
    requires |o.book.tracked| == |s.tracked| && |o.book.lost| == |s.lost|
    requires t in o.book.tracked || t in o.book.lost
    ensures if own then 0 <= i < |s.tracked| && o.book.tracked[i] == t else 0 <= i < |s.lost| && o.book.lost[i] == t
  {
    own := t in o.book.tracked;
    if own {
      i :| 0 <= i < |o.book.tracked| && o.book.tracked[i] == t;
    } else {
      i :| 0 <= i < |o.book.lost| && o.book.lost[i] == t;
    }
  }

  lemma IdsOfBoth(a: seq<Track>, b: seq<Track>)
    ensures Ids(a + b) == Ids(a) + Ids(b)
  {
  }

  lemma WasLostAndMarked(max: int, s: Snapshot, objects: seq<Detection>, s': Snapshot, t: Track)
    requires Inv(max, s) && FrameGuarantee(s, objects, s') && t in s'.tracked
    requires Ids(s.tracked) !! Ids(s.removed)
    ensures t.id in Ids(s.removed) <==> exists u :: u in s.lost && u.state == Removed && u.id == t.id
  {
    hide Distance, DistinctIds;
    if t.id in Ids(s.removed) {
      var u :| u in s.tracked + s.lost && u.id == t.id;
      IdsMember(s.tracked + s.lost, u);
      assert u in s.tracked ==> u.id in Ids(s.tracked);
    }
  }

  // ---- small settings ------------------------------------------------------------------------------

  lemma {:induction false} ExpiredAgree(lost: seq<Track>, now: int, a: int, b: int)
    requires forall t :: t in lost ==> (IsOver(t, now, a) <==> IsOver(t, now, b))
    ensures Expired(lost, now, a) == Expired(lost, now, b)
  {
    if lost != [] {
      var r := lost[..|lost| - 1];
      assert forall t :: t in r ==> t in lost;
      ExpiredAgree(r, now, a, b);
    }
  }

  /** When lost tracks are examined they have been lost for two frames or have just been found. */
  lemma NoneIsOneFrameOld(s: Snapshot, o: Outcome, t: Track)
    requires Inv(0, s) && Settled(Book(s.tracked, s.lost), o, s.frame + 1) && t in o.book.lost
    ensures s.frame + 1 - t.frame == 0 || s.frame + 1 - t.frame >= 2
  {
    var i :| 0 <= i < |o.book.lost| && o.book.lost[i] == t;
    assert LostFate(t, s.lost[i], s.frame + 1);
    assert s.lost[i] in s.lost && LostOk(s.lost[i], s.frame, 0);
  }

  /** A maximum of 0 and one of 1 are the same: the tracker takes the same steps. */
  lemma ZeroIsOne(
    f: Filter, s: Snapshot, objects: seq<Detection>, a1: Assigned, a2: Assigned, a3: Assigned,
    leftover: seq<Detection>, o: Outcome, s': Snapshot)
    requires Inv(0, s)
    ensures FrameStep(f, 0, s, objects, a1, a2, a3, leftover, o, s') <==> FrameStep(f, 1, s, objects, a1, a2, a3, leftover, o, s')
  {
    hide Inv, Settled, Startable, Associations, NewTracked, Births, Expired, TrackedLeft, LostLeft, Difference;
    if Associations(f, s, objects, a1, a2, a3, leftover, o) {
      InvIsStartable(0, s);
      AssociationsSettle(f, s, objects, a1, a2, a3, leftover, o);
      forall t | t in o.book.lost ensures IsOver(t, s.frame + 1, 0) <==> IsOver(t, s.frame + 1, 1) {
        NoneIsOneFrameOld(s, o, t);
      }
      ExpiredAgree(o.book.lost, s.frame + 1, 0, 1);
      assert Aged(o.book.lost, s.frame + 1, 0) == Aged(o.book.lost, s.frame + 1, 1);
    }
  }
}
