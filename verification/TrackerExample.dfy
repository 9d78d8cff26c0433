/** Runs in which a track is removed and tracked again: one object is seen, stays away for as long
    as it takes to be removed, and comes back. */
module TrackerExample {
  import opened Tracks
  import opened TrackLists
  import opened Association
  import opened Frames
  import opened TrackerRuns
  import PM = PartialMatching
  import LA = LinearAssignment
  import Permutations

  const PLACE := Box(0.0, 0.0, 9.0, 9.0)
  const SEEN := Detection(PLACE, 0.9, 0)
  const NOTHING: seq<Detection> := []
  const RESTING := Motion([], [])

  /** A filter under which nothing moves. */
  function Still(): Filter {
    Filter(b => RESTING, (m, tracked) => m, (m, b) => m, m => PLACE)
  }

  function First(): Track {
    Born(Still(), SEEN, 1, 1)
  }

  function Away(): Track {
    First().Marked(Lost)
  }

  function Gone(): Track {
    Away().Marked(Removed)
  }

  function Back(now: int): Track {
    Gone().ReActivate(Still(), SEEN, now)
  }

  const START := Snapshot(0, [], [], [], 0)

  function Seen(): Snapshot {
    Snapshot(1, [First()], [], [], 1)
  }

  function Unseen(k: int): Snapshot {
    Snapshot(k, [], [Away()], [], 1)
  }

  function Expelled(k: int): Snapshot {
    Snapshot(k, [], [Gone()], [Gone()], 1)
  }

  function Returned(k: int): Snapshot {
    Snapshot(k, [Back(k)], [], [Gone()], 1)
  }

  /** Seen in frame 1, away until marked removed, and back in the frame after. */
  function StateAfter(max: int, k: int): Snapshot {
    if k <= 0 then START
    else if k == 1 then Seen()
    else if k <= Patience(max) + 1 then Unseen(k)
    else if k == Patience(max) + 2 then Expelled(k)
    else Returned(k)
  }

  function States(max: int): seq<Snapshot> {
    seq(Patience(max) + 4, k => StateAfter(max, k))
  }

  function Inputs(max: int): seq<seq<Detection>> {
    seq(Patience(max) + 3, k => if k == 0 || k == Patience(max) + 2 then [SEEN] else NOTHING)
  }

  const NONE := Assigned([], [], [])

  // ---- assignments -------------------------------------------------------------------------------

  lemma NothingToAssign(rows: seq<Box>, columns: seq<Box>, limit: real, a: Assigned)
    requires |rows| == 0 || |columns| == 0
    requires |rows| <= 1 && |columns| <= 1
    requires a == Assigned([], if |rows| == 0 then [] else [0], if |columns| == 0 then [] else [0])
    ensures Chosen(rows, columns, limit, a) && Fits(|rows|, |columns|, a)
  {
    assert Pairing(rows, columns, limit, [], [], []);
  }

  lemma SamePlace()
    ensures Distance(PLACE, PLACE) == 0.0
  {
    assert Area(PLACE) == 100.0;
  }

  lemma OneValue(cost: seq<seq<real>>, k: seq<int>)
    requires cost == [[0.0]] && PM.IsPartial(k, 1, 1)
    ensures PM.Value(cost, 1, FIRST_LIMIT, k) == if k == [0] then -FIRST_LIMIT else 0.0
  {
    var e := PM.Excess(cost, 1, FIRST_LIMIT, k);
    assert e == [e[0]] && e[..0] == [];
    assert Permutations.Sum(e) == Permutations.Sum(e[..0]) + e[0];
    assert k == [k[0]];
  }

  lemma OneMatch()
    ensures Chosen([PLACE], [PLACE], FIRST_LIMIT, Assigned([(0, 0)], [], [])) && Fits(1, 1, Assigned([(0, 0)], [], []))
  {
    hide PM.Value, Distance;
    var dists, m := [[0.0]], [0];
    SamePlace();
    forall k | PM.IsPartial(k, 1, 1) ensures PM.Value(dists, 1, FIRST_LIMIT, m) <= PM.Value(dists, 1, FIRST_LIMIT, k) {
      OneValue(dists, m);
      OneValue(dists, k);
    }
    assert LA.Pairs(m) == [(0, 0)] by { assert m[..0] == []; assert LA.Pairs(m[..0]) == []; }
    assert PM.Best(dists, 1, 1, FIRST_LIMIT, m);
    assert AreDistances([PLACE], [PLACE], dists);
    assert Pairing([PLACE], [PLACE], FIRST_LIMIT, [(0, 0)], dists, m);
    OnePartition();
  }

  lemma OnePartition()
    ensures LA.Partition(1, 1, [(0, 0)], [], [])
  {
    var matches := [(0, 0)];
    assert matches[0].0 == 0 && matches[0].1 == 0;
  }

  // ---- lists of at most one track ----------------------------------------------------------------

  lemma Singles(t: Track)
    ensures OnlyTracked([]) == [] && OnlyTracked([t]) == if t.state == Tracked then [t] else []
    ensures Joint([], [t]) == Joint([t], []) == [t] && Joint([], []) == []
  {
    assert [t][..0] == [];
    assert Joint([], [t][..0]) == [];
    assert Ids([]) == {};
    KeepsOne(t, (t: Track) => t.state != Tracked);
  }

  lemma KeepsOne(t: Track, dropped: Track -> bool)
    ensures Keep([], dropped) == [] && Keep([t], dropped) == if dropped(t) then [] else [t]
  {
    assert [t][..0] == [];
    assert Keep([t][..0], dropped) == [];
  }

  lemma NoDifference(b: seq<Track>)
    ensures Difference([], b) == []
  {
    assert ById([]) - Ids(b) == map[];
  }

  lemma OneDifference(t: Track, b: seq<Track>)
    ensures Difference([t], b) == if t.id in Ids(b) then [] else [t]
  {
    assert [t][..0] == [];
    assert ById([t]) == map[t.id := t];
    var m := ById([t]) - Ids(b);
    if t.id in Ids(b) {
      assert m == map[];
    } else {
      assert m == map[t.id := t];
      assert m.Keys == {t.id};
      assert Least(m.Keys) == t.id;
      KeyRemoved(m, t.id);
      assert m - {t.id} == map[];
      assert InOrder(map[]) == [];
    }
  }

  lemma NothingNear(s: seq<Track>)
    ensures TrackedLeft(s, []) == s && LostLeft([], s) == s
    ensures TrackedLeft([], s) == [] && LostLeft(s, []) == []
  {
    NoneDropped(s, t => GivesWay(t, []));
    NoneDropped(s, u => IsCovered(u, []));
  }

  lemma {:induction false} NoneDropped(s: seq<Track>, dropped: Track -> bool)
    requires forall i :: 0 <= i < |s| ==> !dropped(s[i])
    ensures Keep(s, dropped) == s
  {
    if s != [] {
      NoneDropped(s[..|s| - 1], dropped);
      assert s == s[..|s| - 1] + [s[|s| - 1]];
    }
  }

  // ---- the associations of the frames -------------------------------------------------------------

  lemma Scores()
    ensures Scored([SEEN], true) == [SEEN] && Scored([SEEN], false) == []
    ensures Scored([], true) == [] && Scored([], false) == []
  {
    assert [SEEN][..0] == [];
    assert Scored([SEEN][..0], true) == [] && Scored([SEEN][..0], false) == [];
  }

  lemma NoRefs()
    ensures forall b: Book :: RefBoxes(b, []) == []
    ensures DetectionBoxes([SEEN]) == [PLACE] && DetectionBoxes([]) == []
    ensures Picked([SEEN], [0]) == [SEEN] && Picked([SEEN], []) == [] && Picked([], []) == []
  {
  }

  /** Who takes part, with one track at most. */
  lemma Participants(t: Track)
    ensures t.activated ==> OwnRefs([t], true, 1) == [InTracked(0)] && OwnRefs([t], false, 1) == []
    ensures t.activated ==> Pool(Book([t], []), 0) == [InTracked(0)]
    ensures Pool(Book([], [t]), 1) == [InLost(0)] && Pool(Book([], []), 0) == []
    ensures OwnRefs([], false, 0) == []
  {
    assert OwnRefs([t], true, 0) == [] && OwnRefs([t], false, 0) == [];
    assert Pool(Book([], [t]), 0) == [];
    assert IdsAt(Book([], [t]), []) == {};
  }

  lemma Unmoved(b: Book, r: Ref)
    requires b.Has(r)
    ensures PredictedAll(b, Still(), [r]) == b && PredictedAll(b, Still(), []) == b
    ensures RefBoxes(b, [r]) == [b.At(r).box]
  {
    assert [r][..0] == [];
    assert PredictedAll(b, Still(), [r][..0]) == b;
    assert b.At(r).Predicted(Still()) == b.At(r);
    assert b.With(r, b.At(r)) == b;
  }

  lemma OneLeft(b: Book, r: Ref, mark: TrackState)
    requires b.Has(r) && b.At(r).state != mark
    ensures Retired(b, [r], [0], mark) == Retirement(b.With(r, b.At(r).Marked(mark)), [b.At(r).Marked(mark)])
    ensures StillTracked(b, [r], [0]) == if b.At(r).state == Tracked then [r] else []
    ensures StillTracked(b, [r], []) == [] && StillTracked(b, [], []) == []
  {
    assert [0][..0] == [];
    assert Retired(b, [r], [0][..0], mark) == Retirement(b, []);
    assert StillTracked(b, [r], [0][..0]) == [];
  }

  lemma FirstAssociations()
    ensures Associations(Still(), START, [SEEN], Assigned([], [], [0]), NONE, Assigned([], [], [0]), [SEEN],
      Outcome(Book([], []), [], [], [], []))
  {
    hide Chosen;
    Scores();
    NoRefs();
    Participants(First());
    NothingToAssign([], [PLACE], FIRST_LIMIT, Assigned([], [], [0]));
    NothingToAssign([], [], SECOND_LIMIT, NONE);
    NothingToAssign([], [PLACE], UNCONFIRMED_LIMIT, Assigned([], [], [0]));
  }

  lemma SecondAssociations()
    ensures Associations(Still(), Seen(), NOTHING, Assigned([], [0], []), Assigned([], [0], []), NONE, [],
      Outcome(Book([Away()], []), [], [], [Away()], []))
  {
    hide Chosen, OwnRefs, Pool, PredictedAll, Scored, Retired, StillTracked, RefBoxes, DetectionBoxes, Picked;
    var b, r := Book([First()], []), InTracked(0);
    Scores();
    NoRefs();
    Participants(First());
    Unmoved(b, r);
    OneLeft(b, r, Lost);
    NothingToAssign([PLACE], [], FIRST_LIMIT, Assigned([], [0], []));
    NothingToAssign([PLACE], [], SECOND_LIMIT, Assigned([], [0], []));
    NothingToAssign([], [], UNCONFIRMED_LIMIT, NONE);
    assert b.With(r, Away()) == Book([Away()], []);
    NoneRetired(Book([Away()], []), Removed);
  }

  lemma NoneRetired(b: Book, mark: TrackState)
    ensures Retired(b, [], [], mark) == Retirement(b, [])
  {
  }

  lemma ThirdAssociations(k: int)
    ensures Associations(Still(), Unseen(k), NOTHING, Assigned([], [0], []), NONE, NONE, [],
      Outcome(Book([], [Away()]), [], [], [], []))
  {
    hide Chosen, OwnRefs, Pool, PredictedAll, Scored, Retired, StillTracked, RefBoxes, DetectionBoxes, Picked;
    var b, r := Book([], [Away()]), InLost(0);
    Scores();
    NoRefs();
    Participants(Away());
    Unmoved(b, r);
    OneLeft(b, r, Removed);
    NothingToAssign([PLACE], [], FIRST_LIMIT, Assigned([], [0], []));
    NothingToAssign([], [], SECOND_LIMIT, NONE);
    NothingToAssign([], [], UNCONFIRMED_LIMIT, NONE);
    NoneRetired(b, Lost);
    NoneRetired(b, Removed);
  }

  lemma FourthAssociations(k: int)
    ensures Associations(Still(), Expelled(k), [SEEN], Assigned([(0, 0)], [], []), NONE, NONE, [],
      Outcome(Book([], [Back(k + 1)]), [], [Back(k + 1)], [], []))
  {
    hide Chosen, OwnRefs, Pool, PredictedAll, Scored, Retired, StillTracked, RefBoxes, DetectionBoxes, Picked, Followed;
    var b, r := Book([], [Gone()]), InLost(0);
    Scores();
    NoRefs();
    Participants(Gone());
    Unmoved(b, r);
    OneMatch();
    OneFollowed(k + 1);
    OneLeft(Book([], [Back(k + 1)]), r, Removed);
    NothingToAssign([], [], SECOND_LIMIT, NONE);
    NothingToAssign([], [], UNCONFIRMED_LIMIT, NONE);
    NoneFollowed(Progress(Book([], [Back(k + 1)]), [], [Back(k + 1)]), k + 1);
    NoneRetired(Book([], [Back(k + 1)]), Lost);
    NoneRetired(Book([], [Back(k + 1)]), Removed);
  }

  lemma NoneFollowed(p: Progress, now: int)
    ensures forall always: bool :: Followed(p, Still(), [], [], [], always, now) == p
  {
  }

  lemma OneFollowed(now: int)
    ensures Followed(Progress(Book([], [Gone()]), [], []), Still(), [InLost(0)], [SEEN], [(0, 0)], false, now) ==
      Progress(Book([], [Back(now)]), [], [Back(now)])
  {
    assert [(0, 0)][..0] == [];
    assert Followed(Progress(Book([], [Gone()]), [], []), Still(), [InLost(0)], [SEEN], [(0, 0)][..0], false, now) ==
      Progress(Book([], [Gone()]), [], []);
  }

  lemma TrackedAre(o: Outcome, born: seq<Track>)
    requires o.activated == []
    ensures NewTracked(o, born) == Joint(Joint(OnlyTracked(o.book.tracked), born), o.refound)
  {
    assert o.activated + born == born;
  }

  lemma OneAges(t: Track, now: int, max: int)
    ensures Aged([t], now, max) == [Older(t, now, max)]
    ensures Expired([t], now, max) == if IsOver(t, now, max) then [t.Marked(Removed)] else []
  {
    assert [t][..0] == [];
    assert Expired([t][..0], now, max) == [];
  }

  // ---- the frames --------------------------------------------------------------------------------

  /** One track seen for the first time. */
  lemma FirstFrame(max: int)
    ensures FrameStep(Still(), max, START, [SEEN], Assigned([], [], [0]), NONE, Assigned([], [], [0]), [SEEN],
      Outcome(Book([], []), [], [], [], []), Seen())
  {
    hide Associations, TrackedLeft, LostLeft, Difference, Joint, OnlyTracked;
    FirstAssociations();
    assert [0][..0] == [] && Births(Still(), [SEEN], [0][..0], 1, 0) == [];
    assert Births(Still(), [SEEN], [0], 1, 0) == [First()];
    Singles(First());
    assert [] + [First()] == [First()];
    assert Aged([], 1, max) == [];
    NoDifference([First()]);
    NoDifference([]);
    NothingNear([First()]);
    var o := Outcome(Book([], []), [], [], [], []);
    assert NewLost(o, [First()], [], 1, max) == [] by {
      assert Difference(Aged(o.book.lost, 1, max), [First()]) + o.lostNow == [];
    }
    TrackedAre(o, [First()]);
    assert START.removed + o.removedNow + Expired(o.book.lost, 1, max) == [];
  }

  /** It is not seen. */
  lemma SecondFrame(max: int)
    ensures FrameStep(Still(), max, Seen(), NOTHING, Assigned([], [0], []), Assigned([], [0], []), NONE, [],
      Outcome(Book([Away()], []), [], [], [Away()], []), Unseen(2))
  {
    hide Associations, TrackedLeft, LostLeft, Difference, Joint, OnlyTracked;
    SecondAssociations();
    Singles(Away());
    assert Aged([], 2, max) == [];
    NoDifference([]);
    OneDifference(Away(), []);
    NothingNear([Away()]);
    var o := Outcome(Book([Away()], []), [], [], [Away()], []);
    assert NewLost(o, [], [], 2, max) == [Away()] by {
      assert Difference(Aged(o.book.lost, 2, max), []) + o.lostNow == [Away()];
    }
    TrackedAre(o, []);
    assert Seen().removed + o.removedNow + Expired(o.book.lost, 2, max) == [];
  }

  /** It is still not seen, and is marked removed when its time is up. */
  lemma LaterFrame(max: int, k: int)
    requires k >= 2
    ensures FrameStep(Still(), max, Unseen(k), NOTHING, Assigned([], [0], []), NONE, NONE, [],
      Outcome(Book([], [Away()]), [], [], [], []), if k > max then Expelled(k + 1) else Unseen(k + 1))
  {
    hide Associations, TrackedLeft, LostLeft, Difference, Joint, OnlyTracked;
    ThirdAssociations(k);
    hide Aged, Expired, NewTracked;
    var now := k + 1;
    var t := if k > max then Gone() else Away();
    Singles(t);
    Singles(Away());
    OneAges(Away(), now, max);
    assert Older(Away(), now, max) == t;
    OneDifference(t, []);
    NothingNear([t]);
    var o := Outcome(Book([], [Away()]), [], [], [], []);
    assert NewLost(o, [], [], now, max) == [t] by {
      assert Difference(Aged(o.book.lost, now, max), []) + o.lostNow == [t];
    }
    TrackedAre(o, []);
    assert Unseen(k).removed + o.removedNow + Expired(o.book.lost, now, max) == if k > max then [Gone()] else [];
  }

  /** It is seen again, and found. */
  lemma LastFrame(max: int, k: int)
    requires max >= 0
    ensures FrameStep(Still(), max, Expelled(k), [SEEN], Assigned([(0, 0)], [], []), NONE, NONE, [],
      Outcome(Book([], [Back(k + 1)]), [], [Back(k + 1)], [], []), Returned(k + 1))
  {
    hide Associations, TrackedLeft, LostLeft, Difference, Joint, OnlyTracked;
    FourthAssociations(k);
    var now := k + 1;
    var t := Back(now);
    Singles(t);
    hide Aged, Expired, NewTracked;
    OneAges(t, now, max);
    OneDifference(t, [t]);
    assert t in [t] && t.id in Ids([t]);
    NoDifference([Gone()]);
    NothingNear([t]);
    var o := Outcome(Book([], [t]), [], [t], [], []);
    TrackedAre(o, []);
    assert NewLost(o, [t], [Gone()], now, max) == [] by {
      assert Difference(Aged(o.book.lost, now, max), [t]) + o.lostNow == [];
    }
    assert Expelled(k).removed + o.removedNow + Expired(o.book.lost, now, max) == [Gone()];
  }

  lemma Follow(max: int, k: int)
    requires max >= 0 && 0 <= k < Patience(max) + 3
    ensures Next(Still(), max, StateAfter(max, k), Inputs(max)[k], StateAfter(max, k + 1))
  {
    hide FrameStep, First, Away, Gone, Back;
    var s := StateAfter(max, k);
    assert s.(count := s.count) == s;
    if k == 0 {
      FirstFrame(max);
    } else if k == 1 {
      SecondFrame(max);
    } else if k <= Patience(max) + 1 {
      LaterFrame(max, k);
    } else {
      LastFrame(max, k);
    }
  }

  /** Tracked and removed ids can meet, whatever the maximum: in this run the object is tracked in the
      end under an id that is on the list of removed ones. */
  lemma RemovedAndTracked(max: int)
    requires max >= 0
    ensures IsRun(Still(), max, Inputs(max), States(max))
    ensures var last := States(max)[Patience(max) + 3];
      1 in Ids(last.tracked) && 1 in Ids(last.removed)
  {
    hide Next, Patience, StateAfter;
    Ends(max);
    forall k | 0 <= k < |Inputs(max)| ensures Next(Still(), max, States(max)[k], Inputs(max)[k], States(max)[k + 1]) {
      Follow(max, k);
    }
  }

  lemma Ends(max: int)
    ensures Initial(StateAfter(max, 0))
    ensures var last := StateAfter(max, Patience(max) + 3);
      1 in Ids(last.tracked) && 1 in Ids(last.removed)
    ensures Patience(max) >= 1
  {
    var t := Back(Patience(max) + 3);
    assert t in [t] && Gone() in [Gone()] && t.id == 1 && Gone().id == 1;
  }
}
