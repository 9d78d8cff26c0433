/** How one frame's matches change the tracks they point to. Tracks are pointed to by their place
    in the list of tracked or of lost tracks. */
module Association {
  import opened Tracks

  datatype Ref = InTracked(place: nat) | InLost(place: nat)

  datatype Book = Book(tracked: seq<Track>, lost: seq<Track>) {
    predicate Has(r: Ref) {
      r.place < if r.InTracked? then |tracked| else |lost|
    }

    function At(r: Ref): Track
      requires Has(r)
    {
      if r.InTracked? then tracked[r.place] else lost[r.place]
    }

    function With(r: Ref, t: Track): Book
      requires Has(r)
    {
      if r.InTracked? then Book(tracked[r.place := t], lost) else Book(tracked, lost[r.place := t])
    }

    ghost predicate HasAll(refs: seq<Ref>) {
      forall k :: 0 <= k < |refs| ==> Has(refs[k])
    }

    ghost predicate SameShape(b: Book) {
      |tracked| == |b.tracked| && |lost| == |b.lost|
    }
  }

  ghost predicate DistinctRefs(refs: seq<Ref>) {
    forall k, m :: 0 <= k < m < |refs| ==> refs[k] != refs[m]
  }

  ghost predicate MatchesIn(matches: seq<(int, int)>, rows: nat, columns: nat) {
    forall k :: 0 <= k < |matches| ==> 0 <= matches[k].0 < rows && 0 <= matches[k].1 < columns
  }

  ghost predicate DistinctRows(matches: seq<(int, int)>) {
    forall k, m :: 0 <= k < m < |matches| ==> matches[k].0 != matches[m].0
  }

  // ---- following detections --------------------------------------------------------------------

  datatype Progress = Progress(book: Book, activated: seq<Track>, refound: seq<Track>)

  /** A matched track is updated if it was being tracked (or always), re-activated otherwise;
      a copy goes to the list of activated or of re-found tracks. */
  function FollowOne(p: Progress, f: Filter, r: Ref, d: Detection, always: bool, now: int): Progress
    requires p.book.Has(r)
  {
    var t := p.book.At(r);
    if always || t.state == Tracked then
      var u := t.Update(f, d, now);
      Progress(p.book.With(r, u), p.activated + [u], p.refound)
    else
      var u := t.ReActivate(f, d, now);
      Progress(p.book.With(r, u), p.activated, p.refound + [u])
  }

  ghost function Followed(
    p: Progress, f: Filter, refs: seq<Ref>, dets: seq<Detection>, matches: seq<(int, int)>, always: bool, now: int): (q: Progress)
    requires p.book.HasAll(refs) && MatchesIn(matches, |refs|, |dets|)
    ensures q.book.SameShape(p.book)
  {
    if matches == [] then p
    else
      var (row, column) := matches[|matches| - 1];
      FollowOne(Followed(p, f, refs, dets, matches[..|matches| - 1], always, now), f, refs[row], dets[column], always, now)
  }

  /** t is t0 after it was matched in frame `now`. */
  ghost predicate Follows(t: Track, t0: Track, now: int) {
    t.id == t0.id && t.start == t0.start && t.state == Tracked && t.activated && t.frame == now
  }

  ghost predicate Met(refs: seq<Ref>, matches: seq<(int, int)>, r: Ref) {
    exists k :: 0 <= k < |matches| && 0 <= matches[k].0 < |refs| && refs[matches[k].0] == r
  }

  ghost predicate OnlyMetChange(b0: Book, b: Book, refs: seq<Ref>, matches: seq<(int, int)>, now: int)
    requires b.SameShape(b0)
  {
    forall r :: b0.Has(r) ==>
      if Met(refs, matches, r) then Follows(b.At(r), b0.At(r), now) else b.At(r) == b0.At(r)
  }

  ghost predicate CopiesAre(
    b0: Book, b: Book, refs: seq<Ref>, matches: seq<(int, int)>, before: seq<Track>, copies: seq<Track>, always: bool, tracked: bool)
    requires b.SameShape(b0)
  {
    && (forall t :: t in copies ==> t in before || exists r ::
         b0.Has(r) && Met(refs, matches, r) && (tracked <==> always || b0.At(r).state == Tracked) && t == b.At(r))
    && (forall r :: b0.Has(r) && Met(refs, matches, r) && (tracked <==> always || b0.At(r).state == Tracked) ==> b.At(r) in copies)
    && (forall t :: t in before ==> t in copies)
  }

  lemma MetExtended(refs: seq<Ref>, matches: seq<(int, int)>, r: Ref)
    requires matches != []
    ensures var last := matches[|matches| - 1];
      Met(refs, matches, r) <==> Met(refs, matches[..|matches| - 1], r) || (0 <= last.0 < |refs| && refs[last.0] == r)
  {
    var m := matches[..|matches| - 1];
    if Met(refs, matches, r) {
      var k :| 0 <= k < |matches| && 0 <= matches[k].0 < |refs| && refs[matches[k].0] == r;
      if k < |m| {
        assert m[k] == matches[k];
      }
    }
    if Met(refs, m, r) {
      var k :| 0 <= k < |m| && 0 <= m[k].0 < |refs| && refs[m[k].0] == r;
      assert matches[k] == m[k];
    }
  }

  lemma LastIsNew(refs: seq<Ref>, matches: seq<(int, int)>, columns: nat)
    requires matches != [] && DistinctRefs(refs) && DistinctRows(matches) && MatchesIn(matches, |refs|, columns)
    ensures !Met(refs, matches[..|matches| - 1], refs[matches[|matches| - 1].0])
  {
    var m := matches[..|matches| - 1];
    forall k | 0 <= k < |m| ensures refs[m[k].0] != refs[matches[|matches| - 1].0] {
      assert m[k] == matches[k];
    }
  }

  /** Exactly the matched tracks change, once, and exactly their copies are collected. */
  lemma {:induction false} FollowedEffect(
    p: Progress, f: Filter, refs: seq<Ref>, dets: seq<Detection>, matches: seq<(int, int)>, always: bool, now: int)
    requires p.book.HasAll(refs) && MatchesIn(matches, |refs|, |dets|)
    requires DistinctRefs(refs) && DistinctRows(matches)
    ensures var q := Followed(p, f, refs, dets, matches, always, now);
      && OnlyMetChange(p.book, q.book, refs, matches, now)
      && CopiesAre(p.book, q.book, refs, matches, p.activated, q.activated, always, true)
      && CopiesAre(p.book, q.book, refs, matches, p.refound, q.refound, always, false)
      && |q.activated| + |q.refound| == |p.activated| + |p.refound| + |matches|
  {
    if matches != [] {
      var m := matches[..|matches| - 1];
      FollowedEffect(p, f, refs, dets, m, always, now);
      LastIsNew(refs, matches, |dets|);
      var (row, column) := matches[|matches| - 1];
      FollowOneEffect(p, Followed(p, f, refs, dets, m, always, now), f, refs, matches, dets[column], always, now);
    }
  }

  lemma FollowOneEffect(
    p: Progress, q: Progress, f: Filter, refs: seq<Ref>, matches: seq<(int, int)>, d: Detection, always: bool, now: int)
    requires matches != [] && q.book.SameShape(p.book)
    requires var last := matches[|matches| - 1].0;
      && 0 <= last < |refs| && p.book.Has(refs[last]) && !Met(refs, matches[..|matches| - 1], refs[last])
    requires var m := matches[..|matches| - 1];
      && OnlyMetChange(p.book, q.book, refs, m, now)
      && CopiesAre(p.book, q.book, refs, m, p.activated, q.activated, always, true)
      && CopiesAre(p.book, q.book, refs, m, p.refound, q.refound, always, false)
    ensures var q' := FollowOne(q, f, refs[matches[|matches| - 1].0], d, always, now);
      && q'.book.SameShape(p.book)
      && OnlyMetChange(p.book, q'.book, refs, matches, now)
      && CopiesAre(p.book, q'.book, refs, matches, p.activated, q'.activated, always, true)
      && CopiesAre(p.book, q'.book, refs, matches, p.refound, q'.refound, always, false)
  {
    var m := matches[..|matches| - 1];
    var ref := refs[matches[|matches| - 1].0];
    var q' := FollowOne(q, f, ref, d, always, now);
    assert q.book.At(ref) == p.book.At(ref);
    forall r | p.book.Has(r)
      ensures Met(refs, matches, r) <==> Met(refs, m, r) || r == ref
      ensures r != ref ==> q'.book.At(r) == q.book.At(r)
    {
      MetExtended(refs, matches, r);
    }
    CopiesStep(p.book, q.book, q'.book, refs, matches, p.activated, q.activated, q'.activated, always, true, ref);
    CopiesStep(p.book, q.book, q'.book, refs, matches, p.refound, q.refound, q'.refound, always, false, ref);
  }

  lemma CopiesStep(
    b0: Book, b: Book, b': Book, refs: seq<Ref>, matches: seq<(int, int)>, before: seq<Track>, copies: seq<Track>,
    copies': seq<Track>, always: bool, tracked: bool, ref: Ref)
    requires matches != [] && b.SameShape(b0) && b'.SameShape(b0)
    requires var m := matches[..|matches| - 1];
      && CopiesAre(b0, b, refs, m, before, copies, always, tracked)
      && b0.Has(ref) && !Met(refs, m, ref)
      && forall r :: b0.Has(r) ==> (Met(refs, matches, r) <==> Met(refs, m, r) || r == ref) && (r != ref ==> b'.At(r) == b.At(r))
    requires copies' == if tracked <==> always || b0.At(ref).state == Tracked then copies + [b'.At(ref)] else copies
    ensures CopiesAre(b0, b', refs, matches, before, copies', always, tracked)
  {
    var m := matches[..|matches| - 1];
    forall t | t in copies' && t !in before
      ensures exists r ::
        b0.Has(r) && Met(refs, matches, r) && (tracked <==> always || b0.At(r).state == Tracked) && t == b'.At(r)
    {
      if t in copies {
        var r :| b0.Has(r) && Met(refs, m, r) && (tracked <==> always || b0.At(r).state == Tracked) && t == b.At(r);
        assert r != ref && b'.At(r) == t;
      } else {
        assert t == b'.At(ref);
      }
    }
    forall r | b0.Has(r) && Met(refs, matches, r) && (tracked <==> always || b0.At(r).state == Tracked)
      ensures b'.At(r) in copies'
    {
      if r != ref {
        assert b.At(r) in copies;
      }
    }
  }

  // ---- tracks without a detection --------------------------------------------------------------

  datatype Retirement = Retirement(book: Book, marked: seq<Track>)

  /** A track left without a detection is marked; one that is lost already is not marked lost again. */
  function RetireOne(p: Retirement, r: Ref, mark: TrackState): Retirement
    requires p.book.Has(r)
  {
    var t := p.book.At(r);
    if mark == Lost && t.state == Lost then p
    else Retirement(p.book.With(r, t.Marked(mark)), p.marked + [t.Marked(mark)])
  }

  ghost predicate RowsIn(left: seq<int>, rows: nat) {
    forall k :: 0 <= k < |left| ==> 0 <= left[k] < rows
  }

  ghost function Retired(b: Book, refs: seq<Ref>, left: seq<int>, mark: TrackState): (p: Retirement)
    requires b.HasAll(refs) && RowsIn(left, |refs|)
    ensures p.book.SameShape(b)
  {
    if left == [] then Retirement(b, [])
    else RetireOne(Retired(b, refs, left[..|left| - 1], mark), refs[left[|left| - 1]], mark)
  }

  ghost predicate Among(refs: seq<Ref>, left: seq<int>, r: Ref) {
    exists k :: 0 <= k < |left| && 0 <= left[k] < |refs| && refs[left[k]] == r
  }

  lemma AmongExtended(refs: seq<Ref>, left: seq<int>, r: Ref)
    requires left != []
    ensures var last := left[|left| - 1];
      Among(refs, left, r) <==> Among(refs, left[..|left| - 1], r) || (0 <= last < |refs| && refs[last] == r)
  {
    var m := left[..|left| - 1];
    if Among(refs, left, r) {
      var k :| 0 <= k < |left| && 0 <= left[k] < |refs| && refs[left[k]] == r;
      if k < |m| {
        assert m[k] == left[k];
      }
    }
    if Among(refs, m, r) {
      var k :| 0 <= k < |m| && 0 <= m[k] < |refs| && refs[m[k]] == r;
      assert left[k] == m[k];
    }
  }

  ghost predicate OnlyMarkedChange(b: Book, q: Book, refs: seq<Ref>, left: seq<int>, mark: TrackState)
    requires q.SameShape(b)
  {
    forall r :: b.Has(r) ==> q.At(r) == if Among(refs, left, r) then b.At(r).Marked(mark) else b.At(r)
  }

  ghost predicate ListsMarked(b: Book, q: Book, refs: seq<Ref>, left: seq<int>, marked: seq<Track>)
    requires q.SameShape(b)
  {
    && (forall t :: t in marked ==> exists r :: b.Has(r) && Among(refs, left, r) && t == q.At(r))
    && (forall r :: b.Has(r) && Among(refs, left, r) ==> q.At(r) in marked)
  }

  lemma LastIsNotYetMarked(refs: seq<Ref>, left: seq<int>)
    requires left != [] && DistinctRefs(refs) && RowsIn(left, |refs|)
    requires forall k, m :: 0 <= k < m < |left| ==> left[k] != left[m]
    ensures !Among(refs, left[..|left| - 1], refs[left[|left| - 1]])
  {
    var m := left[..|left| - 1];
    forall k | 0 <= k < |m| ensures refs[m[k]] != refs[left[|left| - 1]] {
      assert m[k] == left[k];
    }
  }

  /** Exactly the tracks left over are marked, and exactly the marked ones are listed. */
  lemma {:induction false} RetiredEffect(b: Book, refs: seq<Ref>, left: seq<int>, mark: TrackState)
    requires b.HasAll(refs) && RowsIn(left, |refs|) && DistinctRefs(refs)
    requires forall k, m :: 0 <= k < m < |left| ==> left[k] != left[m]
    requires forall r :: b.Has(r) && Among(refs, left, r) ==> b.At(r).state == Tracked
    requires mark != Tracked
    ensures var p := Retired(b, refs, left, mark);
      OnlyMarkedChange(b, p.book, refs, left, mark) && ListsMarked(b, p.book, refs, left, p.marked)
  {
    if left != [] {
      hide Among, OnlyMarkedChange, ListsMarked, DistinctRefs;
      var m := left[..|left| - 1];
      var ref := refs[left[|left| - 1]];
      forall r | b.Has(r) ensures Among(refs, left, r) <==> Among(refs, m, r) || r == ref {
        AmongExtended(refs, left, r);
      }
      LastIsNotYetMarked(refs, left);
      RetiredEffect(b, refs, m, mark);
      RetireOneEffect(b, Retired(b, refs, m, mark), refs, left, mark);
    }
  }

  lemma RetireOneEffect(b: Book, p: Retirement, refs: seq<Ref>, left: seq<int>, mark: TrackState)
    requires left != [] && p.book.SameShape(b)
    requires var last := left[|left| - 1];
      && 0 <= last < |refs| && b.Has(refs[last]) && b.At(refs[last]).state == Tracked
      && !Among(refs, left[..|left| - 1], refs[last])
    requires var m := left[..|left| - 1];
      && OnlyMarkedChange(b, p.book, refs, m, mark) && ListsMarked(b, p.book, refs, m, p.marked)
      && forall r :: b.Has(r) ==> (Among(refs, left, r) <==> Among(refs, m, r) || r == refs[left[|left| - 1]])
    ensures var q := RetireOne(p, refs[left[|left| - 1]], mark);
      && q.book.SameShape(b)
      && OnlyMarkedChange(b, q.book, refs, left, mark) && ListsMarked(b, q.book, refs, left, q.marked)
  {
    hide Among;
    var m := left[..|left| - 1];
    var ref := refs[left[|left| - 1]];
    var q := RetireOne(p, ref, mark);
    assert p.book.At(ref) == b.At(ref);
    assert forall r :: b.Has(r) && r != ref ==> q.book.At(r) == p.book.At(r);
    forall t | t in q.marked ensures exists r :: b.Has(r) && Among(refs, left, r) && t == q.book.At(r) {
      if t in p.marked {
        var r :| b.Has(r) && Among(refs, m, r) && t == p.book.At(r);
        assert r != ref;
      } else {
        assert t == q.book.At(ref);
      }
    }
  }

  // ---- who takes part --------------------------------------------------------------------------

  /** The places below k of the tracked tracks that are activated (or are not). */
  ghost function OwnRefs(tracked: seq<Track>, activated: bool, k: nat): seq<Ref>
    requires k <= |tracked|
  {
    if k == 0 then []
    else OwnRefs(tracked, activated, k - 1) + (if tracked[k - 1].activated == activated then [InTracked(k - 1)] else [])
  }

  ghost function IdsAt(b: Book, refs: seq<Ref>): set<int>
    requires b.HasAll(refs)
  {
    set k | 0 <= k < |refs| :: b.At(refs[k]).id
  }

  /** The activated tracks, then the places below k of the lost ones whose id has not occurred yet. */
  ghost function Pool(b: Book, k: nat): (refs: seq<Ref>)
    requires k <= |b.lost|
    ensures b.HasAll(refs)
  {
    if k == 0 then
      OwnRefsAreIn(b, true, |b.tracked|);
      OwnRefs(b.tracked, true, |b.tracked|)
    else
      var p := Pool(b, k - 1);
      if b.lost[k - 1].id in IdsAt(b, p) then p else p + [InLost(k - 1)]
  }

  lemma {:induction false} OwnRefsAreIn(b: Book, activated: bool, k: nat)
    requires k <= |b.tracked|
    ensures b.HasAll(OwnRefs(b.tracked, activated, k)) && DistinctRefs(OwnRefs(b.tracked, activated, k))
    ensures forall r :: r in OwnRefs(b.tracked, activated, k) <==>
      r.InTracked? && r.place < k && b.tracked[r.place].activated == activated
  {
    if k > 0 {
      OwnRefsAreIn(b, activated, k - 1);
    }
  }

  /** If no id occurs twice, the pool holds every activated and every lost track, once. */
  lemma {:induction false} PoolIsComplete(b: Book, k: nat)
    requires k <= |b.lost|
    requires forall i, j :: 0 <= i < j < |b.lost| ==> b.lost[i].id != b.lost[j].id
    requires forall i, j :: 0 <= i < |b.tracked| && 0 <= j < |b.lost| ==> b.tracked[i].id != b.lost[j].id
    ensures DistinctRefs(Pool(b, k))
    ensures forall r :: r in Pool(b, k) <==>
      if r.InTracked? then r.place < |b.tracked| && b.tracked[r.place].activated else r.place < k
  {
    if k == 0 {
      OwnRefsAreIn(b, true, |b.tracked|);
    } else {
      PoolIsComplete(b, k - 1);
      var p := Pool(b, k - 1);
      assert b.lost[k - 1].id !in IdsAt(b, p) by {
        forall m | 0 <= m < |p| ensures b.At(p[m]).id != b.lost[k - 1].id {
          assert p[m] in p;
        }
      }
    }
  }

  /** The motion of every track in the pool is predicted. */
  ghost function PredictedAll(b: Book, f: Filter, refs: seq<Ref>): (q: Book)
    requires b.HasAll(refs)
    ensures q.SameShape(b)
  {
    if refs == [] then b
    else
      var q := PredictedAll(b, f, refs[..|refs| - 1]);
      var r := refs[|refs| - 1];
      q.With(r, q.At(r).Predicted(f))
  }

  lemma {:induction false} PredictionOnlyMoves(b: Book, f: Filter, refs: seq<Ref>)
    requires b.HasAll(refs)
    ensures forall r :: b.Has(r) ==> PredictedAll(b, f, refs).At(r).(motion := b.At(r).motion) == b.At(r)
  {
    if refs != [] {
      PredictionOnlyMoves(b, f, refs[..|refs| - 1]);
    }
  }

  /** The tracks left over that were being tracked. */
  ghost function StillTracked(b: Book, refs: seq<Ref>, left: seq<int>): (s: seq<Ref>)
    requires b.HasAll(refs) && RowsIn(left, |refs|)
    ensures b.HasAll(s)
  {
    if left == [] then []
    else
      var r := refs[left[|left| - 1]];
      StillTracked(b, refs, left[..|left| - 1]) + (if b.At(r).state == Tracked then [r] else [])
  }

  lemma {:induction false} StillTrackedAre(b: Book, refs: seq<Ref>, left: seq<int>)
    requires b.HasAll(refs) && RowsIn(left, |refs|) && DistinctRefs(refs)
    requires forall k, m :: 0 <= k < m < |left| ==> left[k] != left[m]
    ensures DistinctRefs(StillTracked(b, refs, left))
    ensures forall r :: r in StillTracked(b, refs, left) <==> b.Has(r) && Among(refs, left, r) && b.At(r).state == Tracked
  {
    if left != [] {
      var m := left[..|left| - 1];
      var ref := refs[left[|left| - 1]];
      assert RowsIn(m, |refs|) by { assert forall k :: 0 <= k < |m| ==> m[k] == left[k]; }
      StillTrackedAre(b, refs, m);
      forall r | b.Has(r) ensures Among(refs, left, r) <==> Among(refs, m, r) || r == ref {
        AmongExtended(refs, left, r);
      }
      forall k | 0 <= k < |m| ensures refs[m[k]] != ref {
        assert m[k] == left[k];
      }
      var s := StillTracked(b, refs, m);
      forall k | 0 <= k < |s| ensures s[k] != ref {
        assert s[k] in s;
      }
    }
  }
}
