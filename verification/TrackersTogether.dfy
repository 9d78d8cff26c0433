/** Several trackers that take their ids from one counter. */
module TrackersTogether {
  import opened Tracks
  import opened TrackLists
  import opened Frames
  import opened TrackerInvariant
  import opened TrackerRuns

  /** The ids that occur anywhere in a tracker. */
  ghost function Used(s: Snapshot): set<int> {
    Ids(s.tracked) + Ids(s.lost) + Ids(s.removed)
  }

  /** The trackers of a program, and the last id handed out to any of them. */
  datatype Server = Server(trackers: seq<Snapshot>, count: int)

  datatype Setting = Setting(filter: Filter, max: int)

  /** Tracker i takes one frame, with the counter as the others have left it. */
  ghost predicate StepOf(settings: seq<Setting>, i: nat, v: Server, v': Server) {
    && i < |v.trackers| == |settings|
    && exists objects, a1, a2, a3, leftover, o, s' ::
         && FrameStep(settings[i].filter, settings[i].max, v.trackers[i].(count := v.count), objects, a1, a2, a3, leftover, o, s')
         && v' == Server(v.trackers[i := s'], s'.count)
  }

  ghost predicate IsServerRun(settings: seq<Setting>, states: seq<Server>) {
    && |states| >= 1
    && |states[0].trackers| == |settings| && states[0].count >= 0
    && (forall i :: 0 <= i < |settings| ==> Initial(states[0].trackers[i]))
    && forall k :: 0 <= k < |states| - 1 ==> Moves(settings, states[k], states[k + 1])
  }

  ghost predicate Moves(settings: seq<Setting>, v: Server, v': Server) {
    exists i: nat :: StepOf(settings, i, v, v')
  }

  /** Every tracker is sound, seen with the shared counter. */
  ghost predicate AllSound(settings: seq<Setting>, v: Server) {
    && |v.trackers| == |settings|
    && forall i :: 0 <= i < |settings| ==> Inv(settings[i].max, v.trackers[i].(count := v.count))
  }

  /** In one frame a tracker takes up ids the counter hands out in it, and no other. */
  lemma OnlyNewIds(
    f: Filter, max: int, s: Snapshot, objects: seq<Detection>, a1: Assigned, a2: Assigned, a3: Assigned,
    leftover: seq<Detection>, o: Outcome, s': Snapshot)
    requires Inv(max, s) && FrameStep(f, max, s, objects, a1, a2, a3, leftover, o, s')
    ensures s.count <= s'.count
    ensures forall id :: id in Used(s') ==> id in Used(s) || s.count < id <= s'.count
  {
    hide Inv, FrameStep, FrameGuarantee, Ids, Continues;
    FrameIsSafe(f, max, s, objects, a1, a2, a3, leftover, o, s');
    forall id | id in Used(s') ensures id in Used(s) || s.count < id <= s'.count {
      if id in Ids(s'.tracked) {
        var t := TrackWithId(s'.tracked, id);
        TrackedContinues(max, s, objects, s', t);
      } else if id in Ids(s'.lost) {
        var t := TrackWithId(s'.lost, id);
        LostContinues(s, objects, s', t);
      } else {
        var t := TrackWithId(s'.removed, id);
        RemovedWasThere(f, max, s, objects, a1, a2, a3, leftover, o, s', t);
      }
    }
    CounterRises(f, max, s, objects, a1, a2, a3, leftover, o, s');
  }

  lemma CounterRises(
    f: Filter, max: int, s: Snapshot, objects: seq<Detection>, a1: Assigned, a2: Assigned, a3: Assigned,
    leftover: seq<Detection>, o: Outcome, s': Snapshot)
    requires FrameStep(f, max, s, objects, a1, a2, a3, leftover, o, s')
    ensures s.count <= s'.count
  {
    hide Associations, NewTracked, NewLost, TrackedLeft, LostLeft;
  }

  lemma ContinuesIsUsed(s: Snapshot, t: Track, seen: bool)
    requires Continues(s, t, seen)
    ensures t.id in Used(s)
  {
    var u :| u in s.tracked + s.lost && u.id == t.id;
    assert u in s.tracked ==> u.id in Ids(s.tracked);
    assert u in s.lost ==> u.id in Ids(s.lost);
  }

  lemma TrackedContinues(max: int, s: Snapshot, objects: seq<Detection>, s': Snapshot, t: Track)
    requires FrameGuarantee(s, objects, s') && Inv(max, s') && t in s'.tracked
    ensures t.id in Used(s) || s.count < t.id <= s'.count
  {
    hide Continues, Used;
    if Continues(s, t, true) {
      ContinuesIsUsed(s, t, true);
    }
  }

  lemma LostContinues(s: Snapshot, objects: seq<Detection>, s': Snapshot, t: Track)
    requires FrameGuarantee(s, objects, s') && t in s'.lost
    ensures t.id in Used(s)
  {
    hide Continues, Used;
    ContinuesIsUsed(s, t, false);
  }

  lemma RemovedWasThere(
    f: Filter, max: int, s: Snapshot, objects: seq<Detection>, a1: Assigned, a2: Assigned, a3: Assigned,
    leftover: seq<Detection>, o: Outcome, s': Snapshot, t: Track)
    requires Inv(max, s) && FrameStep(f, max, s, objects, a1, a2, a3, leftover, o, s') && t in s'.removed
    ensures t.id in Used(s)
  {
    hide Inv, Settled, Startable, Associations, NewTracked, NewLost, Births, Expired, TrackedLeft, LostLeft, Ids;
    InvIsStartable(max, s);
    AssociationsSettle(f, s, objects, a1, a2, a3, leftover, o);
    if t in s.removed {
      IdsMember(s.removed, t);
    } else {
      BookKeepsIds(s, o);
      var j, own := PlaceOf(s, o, t, s.frame + 1, max);
      if own {
        IdsMember(s.tracked, s.tracked[j]);
      } else {
        IdsMember(s.lost, s.lost[j]);
      }
    }
  }

  // ---- runs ----------------------------------------------------------------------------------------

  /** The ids that occurred in tracker i in any state up to the k-th. */
  ghost function EverUsed(states: seq<Server>, k: nat, i: nat): set<int>
    requires k < |states| && forall j :: 0 <= j < |states| ==> i < |states[j].trackers|
  {
    (if k == 0 then {} else EverUsed(states, k - 1, i)) + Used(states[k].trackers[i])
  }

  lemma UsedIsBounded(max: int, s: Snapshot)
    requires Inv(max, s)
    ensures forall id :: id in Used(s) ==> 1 <= id <= s.count
  {
  }

  /** A step of tracker i takes new ids for it, leaves the others alone, and keeps all trackers sound. */
  lemma StepIsSafe(settings: seq<Setting>, i: nat, v: Server, v': Server)
    requires AllSound(settings, v) && StepOf(settings, i, v, v')
    ensures AllSound(settings, v') && v.count <= v'.count && i < |settings|
    ensures forall j :: 0 <= j < |settings| && j != i ==> v'.trackers[j] == v.trackers[j]
    ensures forall id :: id in Used(v'.trackers[i]) ==> id in Used(v.trackers[i]) || v.count < id <= v'.count
  {
    hide Inv, FrameStep, Used, FrameGuarantee;
    var max, s := settings[i].max, v.trackers[i].(count := v.count);
    var objects, a1, a2, a3, leftover, o, s' :|
      && FrameStep(settings[i].filter, max, s, objects, a1, a2, a3, leftover, o, s')
      && v' == Server(v.trackers[i := s'], s'.count);
    FrameIsSafe(settings[i].filter, max, s, objects, a1, a2, a3, leftover, o, s');
    OnlyNewIds(settings[i].filter, max, s, objects, a1, a2, a3, leftover, o, s');
    CountIsNotUsed(v.trackers[i], v.count);
    forall j | 0 <= j < |settings| ensures Inv(settings[j].max, v'.trackers[j].(count := v'.count)) {
      if j != i {
        CounterMayGrow(settings[j].max, v.trackers[j].(count := v.count), v'.count);
      }
    }
  }

  lemma CountIsNotUsed(s: Snapshot, c: int)
    ensures Used(s.(count := c)) == Used(s)
  {
  }

  lemma InitialAreSound(settings: seq<Setting>, states: seq<Server>)
    requires IsServerRun(settings, states)
    ensures AllSound(settings, states[0])
    ensures forall i :: 0 <= i < |settings| ==> Used(states[0].trackers[i]) == {}
  {
    hide Moves;
    forall i | 0 <= i < |settings|
      ensures Inv(settings[i].max, states[0].trackers[i].(count := states[0].count)) && Used(states[0].trackers[i]) == {}
    {
      InitialIsSound(settings[i].max, states[0].trackers[i].(count := states[0].count));
    }
  }

  lemma {:induction false} SameShape(settings: seq<Setting>, states: seq<Server>, k: nat)
    requires IsServerRun(settings, states) && k < |states|
    ensures |states[k].trackers| == |settings|
  {
    if k > 0 {
      SameShape(settings, states, k - 1);
      assert Moves(settings, states[k - 1], states[k]);
    }
  }

  ghost predicate Apart(settings: seq<Setting>, states: seq<Server>, k: nat)
    requires k < |states| && forall j :: 0 <= j < |states| ==> |states[j].trackers| == |settings|
  {
    && (forall i, id :: 0 <= i < |settings| && id in EverUsed(states, k, i) ==> id <= states[k].count)
    && forall i, j, id :: 0 <= i < |settings| && 0 <= j < |settings| && id in EverUsed(states, k, i) && id in EverUsed(states, k, j)
         ==> i == j
  }

  lemma {:induction false} StatesAreApart(settings: seq<Setting>, states: seq<Server>, k: nat)
    requires IsServerRun(settings, states) && k < |states|
    requires forall j :: 0 <= j < |states| ==> |states[j].trackers| == |settings|
    ensures AllSound(settings, states[k]) && Apart(settings, states, k)
  {
    hide Moves, Used, Inv, StepOf;
    if k == 0 {
      InitialAreSound(settings, states);
    } else {
      StatesAreApart(settings, states, k - 1);
      var v, v' := states[k - 1], states[k];
      assert Moves(settings, v, v');
      var i := Mover(settings, v, v');
      StepIsSafe(settings, i, v, v');
      forall j, id | 0 <= j < |settings| && id in EverUsed(states, k, j)
        ensures id in EverUsed(states, k - 1, j) || (j == i && v.count < id <= v'.count)
      {
        if id in Used(states[k].trackers[j]) && j != i {
          UsedIsEver(states, k - 1, j, id);
        }
        if j == i && id in Used(v.trackers[i]) {
          UsedIsEver(states, k - 1, i, id);
        }
      }
    }
  }

  lemma UsedIsEver(states: seq<Server>, k: nat, i: nat, id: int)
    requires k < |states| && forall j :: 0 <= j < |states| ==> i < |states[j].trackers|
    requires id in Used(states[k].trackers[i])
    ensures id in EverUsed(states, k, i)
  {
  }

  lemma Mover(settings: seq<Setting>, v: Server, v': Server) returns (i: nat)
    requires Moves(settings, v, v')
    ensures StepOf(settings, i, v, v')
  {
    i :| StepOf(settings, i, v, v');
  }

  lemma {:induction false} EverGrows(states: seq<Server>, p: nat, k: nat, i: nat)
    requires p <= k < |states| && forall j :: 0 <= j < |states| ==> i < |states[j].trackers|
    ensures EverUsed(states, p, i) <= EverUsed(states, k, i)
  {
    if p < k {
      EverGrows(states, p, k - 1, i);
    }
  }

  /** Two trackers never use the same id, not even at different times of a run. */
  lemma IdsAreNotShared(settings: seq<Setting>, states: seq<Server>, p: nat, q: nat, i: nat, j: nat)
    requires IsServerRun(settings, states) && p < |states| && q < |states|
    requires i < |settings| && j < |settings| && i != j
    ensures |states[p].trackers| == |states[q].trackers| == |settings|
    ensures forall id :: !(id in Used(states[p].trackers[i]) && id in Used(states[q].trackers[j]))
  {
    hide IsServerRun, Used;
    forall k | 0 <= k < |states| ensures |states[k].trackers| == |settings| {
      SameShape(settings, states, k);
    }
    var k := if p < q then q else p;
    StatesAreApart(settings, states, k);
    EverGrows(states, p, k, i);
    EverGrows(states, q, k, j);
    forall id | id in Used(states[p].trackers[i]) && id in Used(states[q].trackers[j]) ensures false {
      UsedIsEver(states, p, i, id);
      UsedIsEver(states, q, j, id);
    }
  }
}
