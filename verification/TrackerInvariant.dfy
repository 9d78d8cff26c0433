/** What every frame of the tracker keeps: identities, ages, confirmation, and how tracks
    relate to detections. */
module TrackerInvariant {
  import opened Permutations
  import opened Tracks
  import opened TrackLists
  import opened Association
  import opened Frames
  import LA = LinearAssignment

  // ---- reading an assignment -------------------------------------------------------------------

  /** A partition touches every row and column at most once and leaves out exactly the others. */
  lemma AssignmentCovers(refs: seq<Ref>, columns: nat, a: Assigned)
    requires LA.Partition(|refs|, columns, a.matches, a.rowsLeft, a.columnsLeft)
    ensures DistinctRows(a.matches)
    ensures forall k, m :: 0 <= k < m < |a.rowsLeft| ==> a.rowsLeft[k] != a.rowsLeft[m]
    ensures DistinctRefs(refs) ==>
      forall r :: r in refs ==> (Met(refs, a.matches, r) <==> !Among(refs, a.rowsLeft, r))
    ensures forall r :: Met(refs, a.matches, r) || Among(refs, a.rowsLeft, r) ==> r in refs
    ensures |a.matches| + |a.columnsLeft| <= columns
  {
    if DistinctRefs(refs) {
      forall r | r in refs ensures Met(refs, a.matches, r) <==> !Among(refs, a.rowsLeft, r) {
        var i :| 0 <= i < |refs| && refs[i] == r;
        RowIsMetOrLeft(refs, columns, a, i);
      }
    }
    ColumnsUsed(|refs|, columns, a);
  }

  lemma RowIsMetOrLeft(refs: seq<Ref>, columns: nat, a: Assigned, i: nat)
    requires LA.Partition(|refs|, columns, a.matches, a.rowsLeft, a.columnsLeft)
    requires DistinctRefs(refs) && i < |refs|
    ensures Met(refs, a.matches, refs[i]) <==> !Among(refs, a.rowsLeft, refs[i])
  {
    if i in a.rowsLeft {
      var k :| 0 <= k < |a.rowsLeft| && a.rowsLeft[k] == i;
      assert Among(refs, a.rowsLeft, refs[i]);
      forall t | 0 <= t < |a.matches| ensures refs[a.matches[t].0] != refs[i] {
        assert a.matches[t].0 != i;
      }
    } else {
      var t :| 0 <= t < |a.matches| && a.matches[t].0 == i;
      assert Met(refs, a.matches, refs[i]);
      forall k | 0 <= k < |a.rowsLeft| ensures refs[a.rowsLeft[k]] != refs[i] {
        assert a.rowsLeft[k] in a.rowsLeft;
      }
    }
  }

  /** Matched and leftover columns together are no more than there are. */
  lemma ColumnsUsed(rows: nat, columns: nat, a: Assigned)
    requires LA.Partition(rows, columns, a.matches, a.rowsLeft, a.columnsLeft)
    ensures |a.matches| + |a.columnsLeft| <= columns
  {
    var used := seq(|a.matches|, t requires 0 <= t < |a.matches| => a.matches[t].1) + a.columnsLeft;
    forall i, j | 0 <= i < j < |used| ensures used[i] != used[j] {
      if i < |a.matches| <= j {
        assert used[j] in a.columnsLeft;
        assert a.matches[i].1 == used[i];
      }
    }
    DistinctSize(used);
    BelowSize(columns);
    SubsetSize(Elements(used), Below(columns));
  }

  // ---- the fate of every track in one frame ----------------------------------------------------

  /** Everything but the state, the box and the motion is as before. */
  ghost predicate Kept(t: Track, t0: Track) {
    t.id == t0.id && t.start == t0.start && t.frame == t0.frame && t.activated == t0.activated
  }

  ghost predicate OwnFate(t: Track, t0: Track, now: int) {
    Follows(t, t0, now) || (Kept(t, t0) && t.state == if t0.activated then Lost else Removed)
  }

  ghost predicate LostFate(t: Track, t0: Track, now: int) {
    Follows(t, t0, now) || (Kept(t, t0) && t.state == t0.state)
  }

  /** After the associations: what became of every track, and which list its copy went to. */
  ghost predicate Settled(b0: Book, o: Outcome, now: int) {
    && o.book.SameShape(b0)
    && (forall i :: 0 <= i < |b0.tracked| ==> OwnFate(o.book.tracked[i], b0.tracked[i], now))
    && (forall i :: 0 <= i < |b0.lost| ==> LostFate(o.book.lost[i], b0.lost[i], now))
    && (forall i :: 0 <= i < |b0.tracked| ==> o.book.tracked[i] in ListFor(o, b0.tracked[i], o.book.tracked[i]))
    && (forall i :: 0 <= i < |b0.lost| && o.book.lost[i].state == Tracked ==> o.book.lost[i] in o.refound)
    && (forall t :: t in o.activated ==> t.state == Tracked && t in o.book.tracked)
    && (forall t :: t in o.refound ==> t.state == Tracked && t in o.book.lost)
    && (forall t :: t in o.lostNow ==> t.state == Lost && t in o.book.tracked)
    && (forall t :: t in o.removedNow ==> t.state == Removed && t in o.book.tracked)
  }

  ghost function ListFor(o: Outcome, t0: Track, t: Track): seq<Track> {
    if t.state == Tracked then o.activated else if t0.activated then o.lostNow else o.removedNow
  }

  /** What a frame starts from. */
  ghost predicate Startable(b: Book) {
    && DistinctIds(b.tracked) && DistinctIds(b.lost) && Ids(b.tracked) !! Ids(b.lost)
    && (forall t :: t in b.tracked ==> t.state == Tracked)
    && (forall t :: t in b.lost ==> t.state == Lost || t.state == Removed)
  }

  /** As before, up to box and motion. */
  ghost predicate Still(t: Track, t0: Track) {
    Kept(t, t0) && t.state == t0.state
  }

  /** What matching the tracks refs, a partition with rows left, makes of the book b0. */
  ghost predicate MatchedFrom(b0: Book, b: Book, refs: seq<Ref>, a: Assigned, now: int)
  {
    && b.SameShape(b0)
    && forall r :: b0.Has(r) ==>
      if r in refs && !Among(refs, a.rowsLeft, r) then Follows(b.At(r), b0.At(r), now) else b.At(r) == b0.At(r)
  }

  /** Copies of the followed tracks, those tracked before in one list and the others in another. */
  ghost predicate Listed(b0: Book, b: Book, refs: seq<Ref>, a: Assigned, before: seq<Track>, after: seq<Track>, tracked: bool)
    requires b.SameShape(b0)
  {
    && (forall t :: t in before ==> t in after)
    && (forall t :: t in after && t !in before ==> exists r ::
         b0.Has(r) && r in refs && !Among(refs, a.rowsLeft, r) && (tracked <==> b0.At(r).state == Tracked) && t == b.At(r))
    && (forall r :: b0.Has(r) && r in refs && !Among(refs, a.rowsLeft, r) && (tracked <==> b0.At(r).state == Tracked)
         ==> b.At(r) in after)
  }

  lemma FollowedSettles(
    p: Progress, f: Filter, refs: seq<Ref>, dets: seq<Detection>, a: Assigned, always: bool, now: int)
    requires p.book.HasAll(refs) && Fits(|refs|, |dets|, a)
    requires DistinctRefs(refs) && LA.Partition(|refs|, |dets|, a.matches, a.rowsLeft, a.columnsLeft)
    requires always ==> forall r :: r in refs ==> p.book.Has(r) && p.book.At(r).state == Tracked
    ensures |a.matches| + |a.columnsLeft| <= |dets|
    ensures var q := Followed(p, f, refs, dets, a.matches, always, now);
      && MatchedFrom(p.book, q.book, refs, a, now)
      && Listed(p.book, q.book, refs, a, p.activated, q.activated, true)
      && Listed(p.book, q.book, refs, a, p.refound, q.refound, false)
      && |q.activated| + |q.refound| == |p.activated| + |p.refound| + |a.matches|
  {
    hide LA.Partition;
    AssignmentCovers(refs, |dets|, a);
    FollowedEffect(p, f, refs, dets, a.matches, always, now);
    var q := Followed(p, f, refs, dets, a.matches, always, now);
    forall r | p.book.Has(r)
      ensures Met(refs, a.matches, r) <==> r in refs && !Among(refs, a.rowsLeft, r)
    {
    }
    ListedFrom(p.book, q.book, refs, a, p.activated, q.activated, always, true);
    ListedFrom(p.book, q.book, refs, a, p.refound, q.refound, always, false);
  }

  lemma ListedFrom(
    b0: Book, b: Book, refs: seq<Ref>, a: Assigned, before: seq<Track>, after: seq<Track>, always: bool, tracked: bool)
    requires b.SameShape(b0)
    requires CopiesAre(b0, b, refs, a.matches, before, after, always, tracked)
    requires forall r :: b0.Has(r) ==> (Met(refs, a.matches, r) <==> r in refs && !Among(refs, a.rowsLeft, r))
    requires always ==> forall r :: r in refs ==> b0.Has(r) && b0.At(r).state == Tracked
    ensures Listed(b0, b, refs, a, before, after, tracked)
  {
    forall t | t in after && t !in before
      ensures exists r ::
        b0.Has(r) && r in refs && !Among(refs, a.rowsLeft, r) && (tracked <==> b0.At(r).state == Tracked) && t == b.At(r)
    {
      var r :| b0.Has(r) && Met(refs, a.matches, r) && (tracked <==> always || b0.At(r).state == Tracked) && t == b.At(r);
      assert r in refs;
    }
  }

  /** The books between the steps of the three associations. */
  datatype Stages = Stages(
    start: Book, predicted: Book, first: Book, second: Book, lost: Book, third: Book, end: Book,
    pool: seq<Ref>, still: seq<Ref>, unconfirmed: seq<Ref>, a1: Assigned, a2: Assigned, a3: Assigned)

  ghost predicate RetiredFrom(b0: Book, b: Book, refs: seq<Ref>, a: Assigned, mark: TrackState) {
    && b.SameShape(b0)
    && forall r :: b0.Has(r) ==>
      b.At(r) == if r in refs && Among(refs, a.rowsLeft, r) then b0.At(r).Marked(mark) else b0.At(r)
  }

  ghost predicate Staged(g: Stages, now: int) {
    && Startable(g.start)
    && g.predicted.SameShape(g.start)
    && (forall r :: g.start.Has(r) ==> Still(g.predicted.At(r), g.start.At(r)))
    && (forall r :: r in g.pool <==> g.start.Has(r) && (r.InTracked? ==> g.start.At(r).activated))
    && MatchedFrom(g.predicted, g.first, g.pool, g.a1, now)
    && (forall r :: r in g.still <==> g.start.Has(r) && r in g.pool && Among(g.pool, g.a1.rowsLeft, r) && g.first.At(r).state == Tracked)
    && MatchedFrom(g.first, g.second, g.still, g.a2, now)
    && RetiredFrom(g.second, g.lost, g.still, g.a2, Lost)
    && (forall r :: r in g.unconfirmed <==> g.start.Has(r) && r.InTracked? && !g.start.At(r).activated)
    && MatchedFrom(g.lost, g.third, g.unconfirmed, g.a3, now)
    && RetiredFrom(g.third, g.end, g.unconfirmed, g.a3, Removed)
  }

  /** The stages leave every track where it belongs, and touch it only once. */
  lemma FateOfRef(g: Stages, now: int, r: Ref)
    requires Staged(g, now) && g.start.Has(r)
    ensures r.InTracked? ==> OwnFate(g.end.At(r), g.start.At(r), now)
    ensures r.InLost? ==> LostFate(g.end.At(r), g.start.At(r), now)
    ensures r.InLost? && Among(g.pool, g.a1.rowsLeft, r) ==> g.end.At(r) == g.predicted.At(r)
    ensures r in g.pool && !Among(g.pool, g.a1.rowsLeft, r) ==> g.end.At(r) == g.first.At(r) && Follows(g.end.At(r), g.start.At(r), now)
    ensures r in g.still && !Among(g.still, g.a2.rowsLeft, r) ==> g.end.At(r) == g.second.At(r) && Follows(g.end.At(r), g.start.At(r), now)
    ensures r in g.still && Among(g.still, g.a2.rowsLeft, r) ==> g.end.At(r) == g.lost.At(r) && g.end.At(r).state == Lost
    ensures r in g.unconfirmed && !Among(g.unconfirmed, g.a3.rowsLeft, r) ==> g.end.At(r) == g.third.At(r)
    ensures r in g.unconfirmed && Among(g.unconfirmed, g.a3.rowsLeft, r) ==> g.end.At(r).state == Removed
    ensures r in g.still || r in g.unconfirmed ==> r.InTracked?
  {
    var t := g.start.At(r);
    assert r.InTracked? ==> t in g.start.tracked;
    assert r.InLost? ==> t in g.start.lost;
    assert Still(g.predicted.At(r), t);
  }

  /** Which copies the stages collected. */
  ghost predicate Collected(g: Stages, now: int, act1: seq<Track>, ref1: seq<Track>, act2: seq<Track>, ref2: seq<Track>, o: Outcome)
    requires Staged(g, now)
  {
    && o.book == g.end
    && Listed(g.predicted, g.first, g.pool, g.a1, [], act1, true)
    && Listed(g.predicted, g.first, g.pool, g.a1, [], ref1, false)
    && Listed(g.first, g.second, g.still, g.a2, act1, act2, true)
    && Listed(g.first, g.second, g.still, g.a2, ref1, ref2, false)
    && Listed(g.lost, g.third, g.unconfirmed, g.a3, act2, o.activated, true)
    && Listed(g.lost, g.third, g.unconfirmed, g.a3, ref2, o.refound, false)
    && MarkedList(g.second, g.lost, g.still, g.a2, o.lostNow)
    && MarkedList(g.third, g.end, g.unconfirmed, g.a3, o.removedNow)
  }

  ghost predicate MarkedList(b0: Book, b: Book, refs: seq<Ref>, a: Assigned, marked: seq<Track>)
    requires b.SameShape(b0)
  {
    && (forall t :: t in marked ==> exists r :: b0.Has(r) && r in refs && Among(refs, a.rowsLeft, r) && t == b.At(r))
    && (forall r :: b0.Has(r) && r in refs && Among(refs, a.rowsLeft, r) ==> b.At(r) in marked)
  }

  /** Only the tracks in the list of tracked ones are in state Tracked when a frame begins. */
  lemma StatesAtStart(g: Stages, now: int)
    requires Staged(g, now)
    ensures forall r :: g.start.Has(r) ==> (g.predicted.At(r).state == Tracked <==> r.InTracked?)
  {
    forall r | g.start.Has(r) ensures g.predicted.At(r).state == Tracked <==> r.InTracked? {
      assert Still(g.predicted.At(r), g.start.At(r));
      assert g.start.At(r) in if r.InTracked? then g.start.tracked else g.start.lost;
    }
  }

  lemma ActivatedAreTracked(
    g: Stages, now: int, act1: seq<Track>, ref1: seq<Track>, act2: seq<Track>, ref2: seq<Track>, o: Outcome, t: Track)
    requires Staged(g, now) && Collected(g, now, act1, ref1, act2, ref2, o)
    requires t in o.activated
    ensures t.state == Tracked && t in o.book.tracked
  {
    hide OwnFate, LostFate, Follows, Startable, Among;
    StatesAtStart(g, now);
    var r: Ref;
    if t in act1 {
      r :| g.predicted.Has(r) && r in g.pool && !Among(g.pool, g.a1.rowsLeft, r) && g.predicted.At(r).state == Tracked && t == g.first.At(r);
    } else if t in act2 {
      r :| g.first.Has(r) && r in g.still && !Among(g.still, g.a2.rowsLeft, r) && t == g.second.At(r);
    } else {
      r :| g.lost.Has(r) && r in g.unconfirmed && !Among(g.unconfirmed, g.a3.rowsLeft, r) && t == g.third.At(r);
    }
    FateOfRef(g, now, r);
    FollowsIsTracked(g, now, r);
    assert t == g.end.tracked[r.place];
  }

  lemma FollowsIsTracked(g: Stages, now: int, r: Ref)
    requires Staged(g, now) && g.start.Has(r)
    ensures r in g.pool && !Among(g.pool, g.a1.rowsLeft, r) ==> g.first.At(r).state == Tracked
    ensures r in g.still && !Among(g.still, g.a2.rowsLeft, r) ==> g.second.At(r).state == Tracked
    ensures r in g.unconfirmed && !Among(g.unconfirmed, g.a3.rowsLeft, r) ==> g.third.At(r).state == Tracked
  {
  }

  /** Only the first association finds lost tracks again. */
  lemma RefoundAtFirst(
    g: Stages, now: int, act1: seq<Track>, ref1: seq<Track>, act2: seq<Track>, ref2: seq<Track>, o: Outcome, t: Track)
    requires Staged(g, now) && Collected(g, now, act1, ref1, act2, ref2, o)
    requires t in o.refound
    ensures t in ref1
  {
    forall r | r in g.unconfirmed ensures g.lost.At(r).state == Tracked {
      NotReachedBefore(g, now, r);
    }
    assert t in ref2;
  }

  lemma RefoundWereLost(
    g: Stages, now: int, act1: seq<Track>, ref1: seq<Track>, act2: seq<Track>, ref2: seq<Track>, o: Outcome, t: Track)
    requires Staged(g, now) && Collected(g, now, act1, ref1, act2, ref2, o)
    requires t in o.refound
    ensures t.state == Tracked && t in o.book.lost
  {
    hide OwnFate, LostFate, Follows, Startable, Among;
    StatesAtStart(g, now);
    RefoundAtFirst(g, now, act1, ref1, act2, ref2, o, t);
    var r :| g.predicted.Has(r) && r in g.pool && !Among(g.pool, g.a1.rowsLeft, r) && g.predicted.At(r).state != Tracked && t == g.first.At(r);
    FateOfRef(g, now, r);
    FollowsIsTracked(g, now, r);
    assert t == g.end.lost[r.place];
  }

  /** An unconfirmed track reaches the last association untouched. */
  lemma NotReachedBefore(g: Stages, now: int, r: Ref)
    requires Staged(g, now) && r in g.unconfirmed
    ensures g.start.Has(r) && g.lost.At(r).state == Tracked
  {
    assert g.start.At(r) in g.start.tracked;
    assert Still(g.predicted.At(r), g.start.At(r));
    assert r !in g.pool && r !in g.still;
  }

  lemma StagesSettle(g: Stages, now: int, act1: seq<Track>, ref1: seq<Track>, act2: seq<Track>, ref2: seq<Track>, o: Outcome)
    requires Staged(g, now) && Collected(g, now, act1, ref1, act2, ref2, o)
    ensures Settled(g.start, o, now)
  {
    forall i | 0 <= i < |g.start.tracked|
      ensures OwnFate(o.book.tracked[i], g.start.tracked[i], now)
      ensures o.book.tracked[i] in ListFor(o, g.start.tracked[i], o.book.tracked[i])
    {
      OwnIsListed(g, now, act1, ref1, act2, ref2, o, i);
    }
    forall i | 0 <= i < |g.start.lost|
      ensures LostFate(o.book.lost[i], g.start.lost[i], now)
      ensures o.book.lost[i].state == Tracked ==> o.book.lost[i] in o.refound
    {
      LostIsListed(g, now, act1, ref1, act2, ref2, o, i);
    }
    forall t | t in o.activated ensures t.state == Tracked && t in o.book.tracked {
      ActivatedAreTracked(g, now, act1, ref1, act2, ref2, o, t);
    }
    forall t | t in o.refound ensures t.state == Tracked && t in o.book.lost {
      RefoundWereLost(g, now, act1, ref1, act2, ref2, o, t);
    }
    forall t | t in o.lostNow ensures t.state == Lost && t in o.book.tracked {
      var r :| g.second.Has(r) && r in g.still && Among(g.still, g.a2.rowsLeft, r) && t == g.lost.At(r);
      FateOfRef(g, now, r);
      assert t == g.end.tracked[r.place];
    }
    forall t | t in o.removedNow ensures t.state == Removed && t in o.book.tracked {
      var r :| g.third.Has(r) && r in g.unconfirmed && Among(g.unconfirmed, g.a3.rowsLeft, r) && t == g.end.At(r);
      FateOfRef(g, now, r);
      assert t == g.end.tracked[r.place];
    }
  }

  lemma OwnIsListed(
    g: Stages, now: int, act1: seq<Track>, ref1: seq<Track>, act2: seq<Track>, ref2: seq<Track>, o: Outcome, i: nat)
    requires Staged(g, now) && Collected(g, now, act1, ref1, act2, ref2, o)
    requires i < |g.start.tracked|
    ensures OwnFate(o.book.tracked[i], g.start.tracked[i], now)
    ensures o.book.tracked[i] in ListFor(o, g.start.tracked[i], o.book.tracked[i])
  {
    var r := InTracked(i);
    FateOfRef(g, now, r);
    var t0 := g.start.At(r);
    assert t0 in g.start.tracked;
    assert Still(g.predicted.At(r), t0);
    if !t0.activated {
      NotReachedBefore(g, now, r);
      assert r in g.unconfirmed;
    } else if Among(g.pool, g.a1.rowsLeft, r) {
      assert r in g.still;
      assert !Among(g.still, g.a2.rowsLeft, r) ==> g.second.At(r) in act2;
    } else {
      assert g.first.At(r) in act1;
    }
  }

  lemma LostIsListed(
    g: Stages, now: int, act1: seq<Track>, ref1: seq<Track>, act2: seq<Track>, ref2: seq<Track>, o: Outcome, i: nat)
    requires Staged(g, now) && Collected(g, now, act1, ref1, act2, ref2, o)
    requires i < |g.start.lost|
    ensures LostFate(o.book.lost[i], g.start.lost[i], now)
    ensures o.book.lost[i].state == Tracked ==> o.book.lost[i] in o.refound
  {
    var r := InLost(i);
    FateOfRef(g, now, r);
    var t0 := g.start.At(r);
    assert t0 in g.start.lost;
    assert Still(g.predicted.At(r), t0);
    assert !Among(g.pool, g.a1.rowsLeft, r) ==> g.first.At(r) in ref1;
  }

  lemma RetiredSettles(b: Book, refs: seq<Ref>, columns: nat, a: Assigned, mark: TrackState)
    requires b.HasAll(refs) && RowsIn(a.rowsLeft, |refs|) && DistinctRefs(refs) && mark != Tracked
    requires LA.Partition(|refs|, columns, a.matches, a.rowsLeft, a.columnsLeft)
    requires forall r :: b.Has(r) && r in refs && Among(refs, a.rowsLeft, r) ==> b.At(r).state == Tracked
    ensures var p := Retired(b, refs, a.rowsLeft, mark);
      RetiredFrom(b, p.book, refs, a, mark) && MarkedList(b, p.book, refs, a, p.marked)
  {
    hide LA.Partition;
    AssignmentCovers(refs, columns, a);
    RetiredEffect(b, refs, a.rowsLeft, mark);
  }

  /** Without repeated ids the pool is what takes part first, and the rest is unconfirmed. */
  lemma WhoTakesPart(b: Book)
    requires Startable(b)
    ensures var pool := Pool(b, |b.lost|);
      && DistinctRefs(pool)
      && forall r :: r in pool <==> b.Has(r) && (r.InTracked? ==> b.At(r).activated)
    ensures var unconfirmed := OwnRefs(b.tracked, false, |b.tracked|);
      && DistinctRefs(unconfirmed) && b.HasAll(unconfirmed)
      && forall r :: r in unconfirmed <==> b.Has(r) && r.InTracked? && !b.At(r).activated
  {
    forall i, j | 0 <= i < |b.tracked| && 0 <= j < |b.lost| ensures b.tracked[i].id != b.lost[j].id {
      assert b.tracked[i].id in Ids(b.tracked) && b.lost[j].id in Ids(b.lost);
    }
    PoolIsComplete(b, |b.lost|);
    OwnRefsAreIn(b, false, |b.tracked|);
  }

  /** Unconfirmed tracks take no part in the first two associations. */
  lemma UnconfirmedWait(
    b0: Book, b1: Book, c1: Book, c2: Book, c3: Book, pool: seq<Ref>, still: seq<Ref>, unconfirmed: seq<Ref>,
    a1: Assigned, a2: Assigned, now: int)
    requires Startable(b0) && b1.SameShape(b0) && forall r :: b0.Has(r) ==> Still(b1.At(r), b0.At(r))
    requires MatchedFrom(b1, c1, pool, a1, now) && MatchedFrom(c1, c2, still, a2, now) && RetiredFrom(c2, c3, still, a2, Lost)
    requires forall r :: r in unconfirmed ==> b0.Has(r) && r.InTracked? && r !in pool && r !in still
    ensures forall r :: r in unconfirmed ==> c3.Has(r) && c3.At(r).state == Tracked
  {
    forall r | r in unconfirmed ensures c3.Has(r) && c3.At(r).state == Tracked {
      assert b0.At(r) in b0.tracked;
      assert Still(b1.At(r), b0.At(r));
    }
  }

  lemma {:induction false} ScoresSplit(objects: seq<Detection>)
    ensures |Scored(objects, true)| + |Scored(objects, false)| == |objects|
  {
    if objects != [] {
      ScoresSplit(objects[..|objects| - 1]);
    }
  }

  /** How the books of the stages come from one another by matches. */
  ghost predicate Computed(
    f: Filter, objects: seq<Detection>, leftover: seq<Detection>, g: Stages, act1: seq<Track>, ref1: seq<Track>,
    act2: seq<Track>, ref2: seq<Track>, now: int)
  {
    var high, low := Scored(objects, true), Scored(objects, false);
    && g.predicted.HasAll(g.pool) && MatchesIn(g.a1.matches, |g.pool|, |high|)
    && g.first == Followed(Progress(g.predicted, [], []), f, g.pool, high, g.a1.matches, false, now).book
    && g.first.HasAll(g.still) && MatchesIn(g.a2.matches, |g.still|, |low|)
    && g.second == Followed(Progress(g.first, act1, ref1), f, g.still, low, g.a2.matches, false, now).book
    && g.lost.HasAll(g.unconfirmed) && MatchesIn(g.a3.matches, |g.unconfirmed|, |leftover|)
    && g.third == Followed(Progress(g.lost, act2, ref2), f, g.unconfirmed, leftover, g.a3.matches, true, now).book
    && DistinctRefs(g.pool) && DistinctRefs(g.still) && DistinctRefs(g.unconfirmed)
    && Partitioned(|g.pool|, |high|, g.a1) && Partitioned(|g.still|, |low|, g.a2) && Partitioned(|g.unconfirmed|, |leftover|, g.a3)
    && Chosen(RefBoxes(g.predicted, g.pool), DetectionBoxes(high), FIRST_LIMIT, g.a1)
    && Chosen(RefBoxes(g.first, g.still), DetectionBoxes(low), SECOND_LIMIT, g.a2)
    && Chosen(RefBoxes(g.lost, g.unconfirmed), DetectionBoxes(leftover), UNCONFIRMED_LIMIT, g.a3)
  }

  ghost predicate Partitioned(rows: nat, columns: nat, a: Assigned) {
    LA.Partition(rows, columns, a.matches, a.rowsLeft, a.columnsLeft) && Fits(rows, columns, a)
  }

  /** The stages the three associations go through, and the copies collected on the way. */
  lemma StagesOf(
    f: Filter, s: Snapshot, objects: seq<Detection>, a1: Assigned, a2: Assigned, a3: Assigned, leftover: seq<Detection>, o: Outcome)
    returns (g: Stages, act1: seq<Track>, ref1: seq<Track>, act2: seq<Track>, ref2: seq<Track>)
    requires Startable(Book(s.tracked, s.lost))
    requires Associations(f, s, objects, a1, a2, a3, leftover, o)
    ensures Staged(g, s.frame + 1) && Collected(g, s.frame + 1, act1, ref1, act2, ref2, o)
    ensures g.start == Book(s.tracked, s.lost) && g.pool == Pool(g.start, |s.lost|) && g.a1 == a1
    ensures g.predicted == PredictedAll(g.start, f, g.pool)
    ensures g.a2 == a2 && g.a3 == a3 && Computed(f, objects, leftover, g, act1, ref1, act2, ref2, s.frame + 1)
    ensures |o.activated| + |o.refound| + |a3.columnsLeft| <= |objects|
    ensures RowsIn(a3.columnsLeft, |leftover|)
  {
    ScoresSplit(objects);
    hide Startable, Followed, Retired, StillTracked, PredictedAll, Scored, OwnRefs, LA.Partition, Among, Pool, Pairing;
    var now := s.frame + 1;
    var high, low := Scored(objects, true), Scored(objects, false);
    var b0 := Book(s.tracked, s.lost);
    WhoTakesPart(b0);
    var pool := Pool(b0, |s.lost|);
    PredictionOnlyMoves(b0, f, pool);
    var b1 := PredictedAll(b0, f, pool);
    FollowedSettles(Progress(b1, [], []), f, pool, high, a1, false, now);
    var p1 := Followed(Progress(b1, [], []), f, pool, high, a1.matches, false, now);
    AssignmentCovers(pool, |high|, a1);
    StillTrackedAre(p1.book, pool, a1.rowsLeft);
    var still := StillTracked(p1.book, pool, a1.rowsLeft);
    FollowedSettles(p1, f, still, low, a2, false, now);
    var p2 := Followed(p1, f, still, low, a2.matches, false, now);
    RetiredSettles(p2.book, still, |low|, a2, Lost);
    var lost := Retired(p2.book, still, a2.rowsLeft, Lost);
    var unconfirmed := OwnRefs(s.tracked, false, |s.tracked|);
    UnconfirmedWait(b0, b1, p1.book, p2.book, lost.book, pool, still, unconfirmed, a1, a2, now);
    FollowedSettles(Progress(lost.book, p2.activated, p2.refound), f, unconfirmed, leftover, a3, true, now);
    var p3 := Followed(Progress(lost.book, p2.activated, p2.refound), f, unconfirmed, leftover, a3.matches, true, now);
    RetiredSettles(p3.book, unconfirmed, |leftover|, a3, Removed);
    var gone := Retired(p3.book, unconfirmed, a3.rowsLeft, Removed);
    g := Stages(b0, b1, p1.book, p2.book, lost.book, p3.book, gone.book, pool, still, unconfirmed, a1, a2, a3);
    act1, ref1, act2, ref2 := p1.activated, p1.refound, p2.activated, p2.refound;
  }

  /** The three associations of a frame settle the fate of every track; the tracks matched and the detections
      left over are no more than the detections. */
  lemma AssociationsSettle(
    f: Filter, s: Snapshot, objects: seq<Detection>, a1: Assigned, a2: Assigned, a3: Assigned, leftover: seq<Detection>, o: Outcome)
    requires Startable(Book(s.tracked, s.lost))
    requires Associations(f, s, objects, a1, a2, a3, leftover, o)
    ensures Settled(Book(s.tracked, s.lost), o, s.frame + 1)
    ensures |o.activated| + |o.refound| + |a3.columnsLeft| <= |objects|
    ensures RowsIn(a3.columnsLeft, |leftover|)
  {
    hide Startable, Associations, Staged, Collected, Settled;
    var g, act1, ref1, act2, ref2 := StagesOf(f, s, objects, a1, a2, a3, leftover, o);
    StagesSettle(g, s.frame + 1, act1, ref1, act2, ref2, o);
  }

  // ---- detections are used once --------------------------------------------------------------------

  /** Where in the input the detections stand that score high (or do not). */
  ghost function Places(objects: seq<Detection>, high: bool): seq<int> {
    if objects == [] then []
    else
      var n := |objects| - 1;
      Places(objects[..n], high) + (if (objects[n].score >= TRACK_THRESHOLD) == high then [n] else [])
  }

  lemma {:induction false} PlacesAreScored(objects: seq<Detection>, high: bool)
    ensures InRange(Places(objects, high), |objects|) && Distinct(Places(objects, high))
    ensures |Places(objects, high)| == |Scored(objects, high)|
    ensures forall k :: 0 <= k < |Places(objects, high)| ==>
      var p := Places(objects, high)[k];
      Scored(objects, high)[k] == objects[p] && ((objects[p].score >= TRACK_THRESHOLD) == high)
  {
    if objects != [] {
      var n := |objects| - 1;
      PlacesAreScored(objects[..n], high);
    }
  }

  ghost function Columns(matches: seq<(int, int)>): seq<int> {
    seq(|matches|, t requires 0 <= t < |matches| => matches[t].1)
  }

  /** The entries of `places` that `at` names. */
  ghost function Through(places: seq<int>, at: seq<int>): (r: seq<int>)
    requires InRange(at, |places|)
    ensures |r| == |at|
  {
    seq(|at|, k requires 0 <= k < |at| => places[at[k]])
  }

  /** The places in the input of the detections matched in the three associations and of those left
      to begin tracks are all different. */
  ghost predicate UsedOnce(objects: seq<Detection>, a1: Assigned, a2: Assigned, a3: Assigned) {
    var high, low := Places(objects, true), Places(objects, false);
    && InRange(Columns(a1.matches), |high|) && InRange(a1.columnsLeft, |high|)
    && InRange(Columns(a2.matches), |low|)
    && InRange(Columns(a3.matches) + a3.columnsLeft, |a1.columnsLeft|)
    && var used := Through(high, Columns(a1.matches)) + Through(low, Columns(a2.matches))
         + Through(Through(high, a1.columnsLeft), Columns(a3.matches) + a3.columnsLeft);
    InRange(used, |objects|) && Distinct(used)
  }

  lemma PartitionColumns(rows: nat, columns: nat, a: Assigned)
    requires LA.Partition(rows, columns, a.matches, a.rowsLeft, a.columnsLeft)
    ensures InRange(Columns(a.matches) + a.columnsLeft, columns) && Distinct(Columns(a.matches) + a.columnsLeft)
  {
    var m := Columns(a.matches);
    forall i, j | 0 <= i < |m| && 0 <= j < |a.columnsLeft| ensures m[i] != a.columnsLeft[j] {
      assert a.columnsLeft[j] in a.columnsLeft;
      assert a.matches[i].1 == m[i];
    }
  }

  lemma ThroughIsDistinct(places: seq<int>, at: seq<int>, n: nat)
    requires InRange(places, n) && Distinct(places) && InRange(at, |places|) && Distinct(at)
    ensures InRange(Through(places, at), n) && Distinct(Through(places, at))
    ensures forall p :: p in Through(places, at) ==> p in places
  {
  }

  lemma ThroughAgain(places: seq<int>, a: seq<int>, b: seq<int>)
    requires InRange(a, |places|) && InRange(b, |a|)
    ensures InRange(Through(a, b), |places|) && Through(Through(places, a), b) == Through(places, Through(a, b))
  {
  }

  lemma ApartIsDistinct(a: seq<int>, b: seq<int>)
    requires Distinct(a) && Distinct(b) && forall p :: p in a ==> p !in b
    ensures Distinct(a + b)
  {
    forall i, j | 0 <= i < |a| && 0 <= j < |b| ensures a[i] != b[j] {
      assert a[i] in a && b[j] in b;
    }
  }

  lemma HighIsNotLow(objects: seq<Detection>)
    ensures forall p :: p in Places(objects, true) ==> p !in Places(objects, false)
  {
    PlacesAreScored(objects, true);
    PlacesAreScored(objects, false);
  }

  /** Matched in the first association, or left over by it: that comes to a distinct list of high places. */
  lemma HighPlacesApart(high: seq<int>, m1: seq<int>, left: seq<int>, later: seq<int>, n: nat)
    requires InRange(high, n) && Distinct(high)
    requires InRange(m1 + left, |high|) && Distinct(m1 + left)
    requires InRange(later, |left|) && Distinct(later)
    ensures InRange(m1, |high|) && InRange(left, |high|)
    ensures var a, c := Through(high, m1), Through(Through(high, left), later);
      && InRange(a, n) && InRange(c, n) && Distinct(a) && Distinct(c)
      && forall p :: p in a ==> p in high && p !in c
    ensures forall p :: p in Through(Through(high, left), later) ==> p in high
  {
    assert forall k :: 0 <= k < |m1| ==> m1[k] == (m1 + left)[k];
    assert forall k :: 0 <= k < |left| ==> left[k] == (m1 + left)[|m1| + k];
    ThroughIsDistinct(left, later, |high|);
    ThroughAgain(high, left, later);
    ThroughIsDistinct(high, Through(left, later), n);
    ThroughIsDistinct(high, m1, n);
    var a, c := Through(high, m1), Through(high, Through(left, later));
    forall i, j | 0 <= i < |a| && 0 <= j < |c| ensures a[i] != c[j] {
      assert (m1 + left)[i] != (m1 + left)[|m1| + later[j]];
    }
  }

  lemma UsedApart(a: seq<int>, b: seq<int>, c: seq<int>, high: seq<int>, low: seq<int>)
    requires Distinct(a) && Distinct(b) && Distinct(c)
    requires forall p :: p in a ==> p in high && p !in c
    requires (forall p :: p in b ==> p in low) && (forall p :: p in c ==> p in high) && (forall p :: p in high ==> p !in low)
    ensures Distinct(a + b + c)
  {
    hide Distinct;
    ApartIsDistinct(a, b);
    ApartIsDistinct(a + b, c);
  }

  lemma PartsUsedOnce(objects: seq<Detection>, a1: Assigned, a2: Assigned, a3: Assigned)
    requires var high, low := Places(objects, true), Places(objects, false);
      && InRange(high, |objects|) && Distinct(high) && InRange(low, |objects|) && Distinct(low)
      && (forall p :: p in high ==> p !in low)
      && InRange(Columns(a1.matches) + a1.columnsLeft, |high|) && Distinct(Columns(a1.matches) + a1.columnsLeft)
      && InRange(Columns(a2.matches), |low|) && Distinct(Columns(a2.matches))
    requires InRange(Columns(a3.matches) + a3.columnsLeft, |a1.columnsLeft|) && Distinct(Columns(a3.matches) + a3.columnsLeft)
    ensures UsedOnce(objects, a1, a2, a3)
  {
    var high, low := Places(objects, true), Places(objects, false);
    hide Places, Through, Distinct, Columns;
    var m1, m2, later := Columns(a1.matches), Columns(a2.matches), Columns(a3.matches) + a3.columnsLeft;
    HighPlacesApart(high, m1, a1.columnsLeft, later, |objects|);
    ThroughIsDistinct(low, m2, |objects|);
    UsedApart(Through(high, m1), Through(low, m2), Through(Through(high, a1.columnsLeft), later), high, low);
  }

  /** No detection is matched twice, or matched and left to begin a track. */
  lemma DetectionsUsedOnce(
    f: Filter, s: Snapshot, objects: seq<Detection>, a1: Assigned, a2: Assigned, a3: Assigned, leftover: seq<Detection>, o: Outcome)
    requires Associations(f, s, objects, a1, a2, a3, leftover, o)
    ensures UsedOnce(objects, a1, a2, a3)
  {
    hide Associations, Places, Scored, LA.Partition, Distinct, Columns, InRange, UsedOnce;
    var rows1, rows2, rows3 := PartitionsOf(f, s, objects, a1, a2, a3, leftover, o);
    PlacesAreScored(objects, true);
    PlacesAreScored(objects, false);
    HighIsNotLow(objects);
    PartitionColumns(rows1, |Places(objects, true)|, a1);
    PartitionColumns(rows2, |Places(objects, false)|, a2);
    PartitionColumns(rows3, |a1.columnsLeft|, a3);
    FirstPart(Columns(a2.matches), a2.columnsLeft, |Places(objects, false)|);
    PartsUsedOnce(objects, a1, a2, a3);
  }

  lemma FirstPart(a: seq<int>, b: seq<int>, n: nat)
    requires InRange(a + b, n) && Distinct(a + b)
    ensures InRange(a, n) && Distinct(a)
  {
    assert forall k :: 0 <= k < |a| ==> a[k] == (a + b)[k];
  }

  lemma PartitionsOf(
    f: Filter, s: Snapshot, objects: seq<Detection>, a1: Assigned, a2: Assigned, a3: Assigned, leftover: seq<Detection>, o: Outcome)
    returns (rows1: nat, rows2: nat, rows3: nat)
    requires Associations(f, s, objects, a1, a2, a3, leftover, o)
    ensures LA.Partition(rows1, |Scored(objects, true)|, a1.matches, a1.rowsLeft, a1.columnsLeft)
    ensures LA.Partition(rows2, |Scored(objects, false)|, a2.matches, a2.rowsLeft, a2.columnsLeft)
    ensures LA.Partition(rows3, |a1.columnsLeft|, a3.matches, a3.rowsLeft, a3.columnsLeft)
  {
    hide Followed, Retired, StillTracked, PredictedAll, Scored, OwnRefs, LA.Partition, Pool, Pairing;
    var b0 := Book(s.tracked, s.lost);
    var pool := Pool(b0, |s.lost|);
    var b1 := PredictedAll(b0, f, pool);
    var p1 := Followed(Progress(b1, [], []), f, pool, Scored(objects, true), a1.matches, false, s.frame + 1);
    rows1, rows2, rows3 := |pool|, |StillTracked(p1.book, pool, a1.rowsLeft)|, |OwnRefs(s.tracked, false, |s.tracked|)|;
  }
}
