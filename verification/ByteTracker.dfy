/** The tracker as an object: its lists, and the step it takes for every frame. */
module ByteTracking {
  import opened Tracks
  import opened TrackLists
  import opened Association
  import opened Frames
  import TrackerRuns
  import TrackerMotion
  import PM = PartialMatching
  import LA = LinearAssignment

  /** The counter of track ids, shared by all trackers. */
  class IdSource {
    var count: int

    constructor ()
      ensures count == 0
    {
      count := 0;
    }

    method Next() returns (id: int)
      modifies this
      ensures count == old(count) + 1 && id == count
    {
      count := count + 1;
      id := count;
    }
  }

  /** Truncating division, as the conversion to an integer rounds towards zero. */
  function Truncated(p: int, q: int): int
    requires q > 0
  {
    if p >= 0 then p / q else -((-p) / q)
  }

  class ByteTracker {
    const filter: Filter
    const maxTimeLost: int
    const ids: IdSource
    var frameId: int
    var tracked: seq<Track>
    var lost: seq<Track>
    var removed: seq<Track>

    constructor (filter: Filter, ids: IdSource, frameRate: int, trackBuffer: int)
      ensures this.filter == filter && this.ids == ids
      ensures maxTimeLost == Truncated(frameRate * trackBuffer, 30)
      ensures Snap() == Snapshot(0, [], [], [], ids.count)
      ensures ids.count >= 0 ==> TrackerRuns.Inv(maxTimeLost, Snap())
    {
      this.filter := filter;
      this.ids := ids;
      maxTimeLost := Truncated(frameRate * trackBuffer, 30);
      frameId := 0;
      tracked, lost, removed := [], [], [];
    }

    ghost function Snap(): Snapshot
      reads this, ids
    {
      Snapshot(frameId, tracked, lost, removed, ids.count)
    }

    ghost function Book_(): Book
      reads this
    {
      Book(tracked, lost)
    }

    /** Predicts the motion of the tracks in the pool. */
    method Predict(pool: seq<Ref>)
      requires Book_().HasAll(pool)
      modifies this`tracked, this`lost
      ensures Book_() == PredictedAll(old(Book_()), filter, pool)
    {
      ghost var b := Book_();
      for k := 0 to |pool|
        invariant Book_() == PredictedAll(b, filter, pool[..k])
      {
        assert pool[..k + 1][..k] == pool[..k];
        Write(pool[k], Read(pool[k]).Predicted(filter));
      }
      assert pool[..|pool|] == pool;
    }

    function Read(r: Ref): Track
      requires Book_().Has(r)
      reads this
    {
      if r.InTracked? then tracked[r.place] else lost[r.place]
    }

    method Write(r: Ref, t: Track)
      requires Book_().Has(r)
      modifies this`tracked, this`lost
      ensures Book_() == old(Book_()).With(r, t)
    {
      if r.InTracked? {
        tracked := tracked[r.place := t];
      } else {
        lost := lost[r.place := t];
      }
    }

    /** Lets matched tracks follow their detections and collects copies of them. */
    method Follow(refs: seq<Ref>, dets: seq<Detection>, matches: seq<(int, int)>, always: bool,
                  activated0: seq<Track>, refound0: seq<Track>)
      returns (activated: seq<Track>, refound: seq<Track>)
      requires Book_().HasAll(refs) && MatchesIn(matches, |refs|, |dets|)
      modifies this`tracked, this`lost
      ensures Progress(Book_(), activated, refound) ==
        Followed(Progress(old(Book_()), activated0, refound0), filter, refs, dets, matches, always, frameId)
    {
      ghost var p := Progress(Book_(), activated0, refound0);
      activated, refound := activated0, refound0;
      for k := 0 to |matches|
        invariant Book_().SameShape(p.book)
        invariant Progress(Book_(), activated, refound) == Followed(p, filter, refs, dets, matches[..k], always, frameId)
      {
        assert matches[..k + 1][..k] == matches[..k];
        var r, d := refs[matches[k].0], dets[matches[k].1];
        var t := Read(r);
        if always || t.state == Tracked {
          Write(r, t.Update(filter, d, frameId));
          activated := activated + [Read(r)];
        } else {
          Write(r, t.ReActivate(filter, d, frameId));
          refound := refound + [Read(r)];
        }
      }
      assert matches[..|matches|] == matches;
    }

    /** Marks the tracks left over and collects copies of them. */
    method Retire(refs: seq<Ref>, left: seq<int>, mark: TrackState) returns (marked: seq<Track>)
      requires Book_().HasAll(refs) && RowsIn(left, |refs|)
      modifies this`tracked, this`lost
      ensures Retirement(Book_(), marked) == Retired(old(Book_()), refs, left, mark)
    {
      ghost var b := Book_();
      marked := [];
      for k := 0 to |left|
        invariant Book_().SameShape(b)
        invariant Retirement(Book_(), marked) == Retired(b, refs, left[..k], mark)
      {
        assert left[..k + 1][..k] == left[..k];
        var r := refs[left[k]];
        var t := Read(r);
        if mark != Lost || t.state != Lost {
          Write(r, t.Marked(mark));
          marked := marked + [Read(r)];
        }
      }
      assert left[..|left|] == left;
    }

    /** The places of the tracks that are activated (or are not). */
    method Own(activated: bool) returns (refs: seq<Ref>)
      ensures refs == OwnRefs(tracked, activated, |tracked|)
    {
      refs := [];
      for i := 0 to |tracked|
        invariant refs == OwnRefs(tracked, activated, i)
      {
        if tracked[i].activated == activated {
          refs := refs + [InTracked(i)];
        }
      }
    }

    /** Activated tracks and lost ones, no id twice. */
    method MakePool() returns (refs: seq<Ref>)
      ensures refs == Pool(Book_(), |lost|)
    {
      refs := Own(true);
      OwnRefsAreIn(Book_(), true, |tracked|);
      var exists_: map<int, int> := map[];
      for i := 0 to |refs|
        invariant forall id :: id in exists_ <==> exists k :: 0 <= k < i && Book_().At(refs[k]).id == id
        invariant forall id :: id in exists_ ==> exists_[id] == 1
      {
        if Read(refs[i]).id !in exists_ {
          exists_ := exists_[Read(refs[i]).id := 1];
        }
      }
      for i := 0 to |lost|
        invariant refs == Pool(Book_(), i)
        invariant forall id :: id in exists_ && exists_[id] != 0 <==> id in IdsAt(Book_(), refs)
      {
        var id := lost[i].id;
        if id !in exists_ || exists_[id] == 0 {
          exists_ := exists_[id := 1];
          IdsAtExtended(Book_(), refs, InLost(i));
          refs := refs + [InLost(i)];
        }
      }
    }

    /** The tracks left over that are still being tracked. */
    method StillBeingTracked(refs: seq<Ref>, left: seq<int>) returns (still: seq<Ref>)
      requires Book_().HasAll(refs) && RowsIn(left, |refs|)
      ensures still == StillTracked(Book_(), refs, left)
    {
      still := [];
      for k := 0 to |left|
        invariant still == StillTracked(Book_(), refs, left[..k])
      {
        assert left[..k + 1][..k] == left[..k];
        if Read(refs[left[k]]).state == Tracked {
          still := still + [refs[left[k]]];
        }
      }
      assert left[..|left|] == left;
    }

    /** Assigns tracks to detections by the distance of their boxes. */
    method Associate(refs: seq<Ref>, dets: seq<Detection>, limit: real) returns (a: Assigned)
      requires Book_().HasAll(refs)
      requires 0.0 <= limit <= 1.0
      ensures Fits(|refs|, |dets|, a)
      ensures Chosen(RefBoxes(Book_(), refs), DetectionBoxes(dets), limit, a)
    {
      hide Iou, PM.Best, LA.Pairs, LA.Partition, LA.Tractable, AreDistances;
      var rows := seq(|refs|, k requires 0 <= k < |refs| reads this requires Book_().HasAll(refs) => Read(refs[k]).box);
      var columns := DetectionBoxes(dets);
      assert rows == RefBoxes(Book_(), refs);
      var dists := IouDistances(rows, columns);
      DistancesAreTractable(rows, columns, dists, limit);
      var matches, rowsLeft, columnsLeft, m := LA.Assign(dists, |refs|, |dets|, limit, 0.0, 1.0);
      a := Assigned(matches, rowsLeft, columnsLeft);
      PartitionFits(|refs|, |dets|, a);
      assert Pairing(rows, columns, limit, matches, dists, m);
    }

    /** The three associations of a frame. */
    method AssociateAll(objects: seq<Detection>)
      returns (leftover: seq<Detection>, activated: seq<Track>, refound: seq<Track>, lostNow: seq<Track>, removedNow: seq<Track>,
               a3: Assigned, ghost a1: Assigned, ghost a2: Assigned)
      modifies this`tracked, this`lost
      ensures var s := Snapshot(frameId - 1, old(tracked), old(lost), removed, ids.count);
        Associations(filter, s, objects, a1, a2, a3, leftover, Outcome(Book_(), activated, refound, lostNow, removedNow))
      ensures RowsIn(a3.columnsLeft, |leftover|)
    {
      hide Followed, Retired, StillTracked, PredictedAll, Scored, OwnRefs, Pool, Chosen;
      ghost var s := Snapshot(frameId - 1, tracked, lost, removed, ids.count);
      ghost var b0 := Book_();
      var high, low := ByScore(objects);
      OwnRefsAreIn(b0, false, |tracked|);
      var unconfirmed := Own(false);
      var pool := MakePool();
      Predict(pool);
      var first := Associate(pool, high, FIRST_LIMIT);
      activated, refound := Follow(pool, high, first.matches, false, [], []);
      leftover := Picked(high, first.columnsLeft);
      var still := StillBeingTracked(pool, first.rowsLeft);
      var second := Associate(still, low, SECOND_LIMIT);
      activated, refound := Follow(still, low, second.matches, false, activated, refound);
      lostNow := Retire(still, second.rowsLeft, Lost);
      a3 := Associate(unconfirmed, leftover, UNCONFIRMED_LIMIT);
      activated, refound := Follow(unconfirmed, leftover, a3.matches, true, activated, refound);
      removedNow := Retire(unconfirmed, a3.rowsLeft, Removed);
      a1, a2 := first, second;
    }

    static method ByScore(objects: seq<Detection>) returns (high: seq<Detection>, low: seq<Detection>)
      ensures high == Scored(objects, true) && low == Scored(objects, false)
    {
      high, low := [], [];
      for i := 0 to |objects|
        invariant high == Scored(objects[..i], true) && low == Scored(objects[..i], false)
      {
        assert objects[..i + 1][..i] == objects[..i];
        if objects[i].score >= TRACK_THRESHOLD {
          high := high + [objects[i]];
        } else {
          low := low + [objects[i]];
        }
      }
      assert objects[..|objects|] == objects;
    }

    /** Begins a track for every detection left over that scores high. */
    method Begin(dets: seq<Detection>, left: seq<int>) returns (born: seq<Track>)
      requires RowsIn(left, |dets|)
      modifies ids
      ensures born == Births(filter, dets, left, frameId, old(ids.count))
      ensures ids.count == old(ids.count) + |born|
    {
      born := [];
      for k := 0 to |left|
        invariant born == Births(filter, dets, left[..k], frameId, old(ids.count))
        invariant ids.count == old(ids.count) + |born|
      {
        assert left[..k + 1][..k] == left[..k];
        var d := dets[left[k]];
        if d.score < HIGH_THRESHOLD {
          continue;
        }
        var id := ids.Next();
        born := born + [Born(filter, d, id, frameId)];
      }
      assert left[..|left|] == left;
    }

    /** Marks the lost tracks whose time is over and collects copies of them. */
    method Age() returns (over: seq<Track>)
      modifies this`lost
      ensures lost == Aged(old(lost), frameId, maxTimeLost)
      ensures over == Expired(old(lost), frameId, maxTimeLost)
    {
      ghost var l := lost;
      over := [];
      for i := 0 to |lost|
        invariant |lost| == |l|
        invariant forall k :: 0 <= k < |l| ==> lost[k] == if k < i then Older(l[k], frameId, maxTimeLost) else l[k]
        invariant over == Expired(l[..i], frameId, maxTimeLost)
      {
        assert l[..i + 1][..i] == l[..i];
        if frameId - lost[i].frame > maxTimeLost {
          lost := lost[i := lost[i].Marked(Removed)];
          over := over + [lost[i]];
        }
      }
      assert l[..|l|] == l;
    }

    static method Filtered(s: seq<Track>, keep: Track -> bool, ghost dropped: Track -> bool) returns (res: seq<Track>)
      requires forall t :: keep(t) <==> !dropped(t)
      ensures res == Keep(s, dropped)
    {
      res := [];
      for i := 0 to |s|
        invariant res == Keep(s[..i], dropped)
      {
        assert s[..i + 1][..i] == s[..i];
        if keep(s[i]) {
          res := res + [s[i]];
        }
      }
      assert s[..|s|] == s;
    }

    /** One frame. Returns the activated tracks. */
    method Update(objects: seq<Detection>)
      returns (output: seq<Track>, ghost a1: Assigned, ghost a2: Assigned, ghost a3: Assigned, ghost leftover: seq<Detection>, ghost o: Outcome)
      modifies this, ids
      ensures FrameStep(filter, maxTimeLost, old(Snap()), objects, a1, a2, a3, leftover, o, Snap())
      ensures old(TrackerRuns.Inv(maxTimeLost, Snap())) ==>
        TrackerRuns.Inv(maxTimeLost, Snap()) && TrackerRuns.FrameGuarantee(old(Snap()), objects, Snap())
        && TrackerMotion.TracksAreTrue(filter, old(Snap()), objects, Snap())
      ensures IsOutput(output, tracked)
    {
      hide Associations, Joint, Difference, Births, Aged, Expired, Keep, Distance, TrackerRuns.Inv, TrackerRuns.FrameGuarantee,
        TrackerMotion.TracksAreTrue, IsOutput;
      ghost var s := Snap();
      frameId := frameId + 1;
      var left, activated, refound, lostNow, removedNow, third;
      left, activated, refound, lostNow, removedNow, third, a1, a2 := AssociateAll(objects);
      leftover, a3, o := left, third, Outcome(Book_(), activated, refound, lostNow, removedNow);
      var born := Begin(left, third.columnsLeft);
      var over := Age();
      tracked := Filtered(tracked, (t: Track) => t.state == Tracked, (t: Track) => t.state != Tracked);
      tracked := JointTracks(tracked, activated + born);
      tracked := JointTracks(tracked, refound);
      lost := SubTracks(lost, tracked);
      lost := SubTracks(lost + lostNow, removed);
      removed := removed + removedNow + over;
      tracked, lost := RemoveDuplicates(tracked, lost);
      output := Filtered(tracked, (t: Track) => t.activated, (t: Track) => !t.activated);
      ActivatedIsOutput(tracked);
      assert FrameStep(filter, maxTimeLost, s, objects, a1, a2, a3, leftover, o, Snap());
      if TrackerRuns.Inv(maxTimeLost, s) {
        TrackerRuns.FrameIsSafe(filter, maxTimeLost, s, objects, a1, a2, a3, leftover, o, Snap());
        TrackerMotion.FrameIsTrue(filter, maxTimeLost, s, objects, a1, a2, a3, leftover, o, Snap());
      }
    }
  }

  /** The output is the list of tracked tracks without those that are not activated. */
  ghost predicate IsOutput(output: seq<Track>, tracked: seq<Track>) {
    exists at :: IsSublist(output, tracked, at) && forall k :: 0 <= k < |tracked| ==> (k in at <==> tracked[k].activated)
  }

  lemma ActivatedIsOutput(tracked: seq<Track>)
    ensures IsOutput(Activated(tracked), tracked)
  {
    var at := KeepIsInOrder(tracked, (t: Track) => !t.activated);
    assert Activated(tracked) == Keep(tracked, (t: Track) => !t.activated);
  }

  lemma IdsAtExtended(b: Book, refs: seq<Ref>, r: Ref)
    requires b.HasAll(refs) && b.Has(r)
    ensures b.HasAll(refs + [r]) && IdsAt(b, refs + [r]) == IdsAt(b, refs) + {b.At(r).id}
  {
    var s := refs + [r];
    assert s[|refs|] == r;
    assert forall k :: 0 <= k < |refs| ==> s[k] == refs[k];
  }

  /** Distances lie between 0 and 1, far inside what the solver's sentinel allows. */
  lemma DistancesAreTractable(rows: seq<Box>, columns: seq<Box>, dists: seq<seq<real>>, limit: real)
    requires AreDistances(rows, columns, dists) && 0.0 <= limit <= 1.0
    ensures LA.Tractable(dists, limit, 0.0, 1.0)
    ensures |dists| > 0 ==> PM.Rectangular(dists, |rows|, |columns|) && |columns| > 0
    ensures |dists| == 0 <==> |rows| == 0 || |columns| == 0
  {
    hide Iou;
    forall i, j | 0 <= i < |dists| && 0 <= j < |dists[i]| ensures 0.0 <= dists[i][j] <= 1.0 {
      assert dists[i][j] == Distance(rows[i], columns[j]);
    }
  }

  lemma PartitionFits(rows: nat, columns: nat, a: Assigned)
    requires LA.Partition(rows, columns, a.matches, a.rowsLeft, a.columnsLeft)
    ensures Fits(rows, columns, a)
  {
  }
}
