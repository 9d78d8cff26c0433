/** The tracker's operations on lists of tracks: union, difference and the removal of near duplicates. */
module TrackLists {
  import opened Tracks
  import Permutations

  ghost function Ids(s: seq<Track>): set<int> {
    set t | t in s :: t.id
  }

  ghost predicate DistinctIds(s: seq<Track>) {
    forall i, j :: 0 <= i < j < |s| ==> s[i].id != s[j].id
  }

  // ---- union ----------------------------------------------------------------------------------

  /** a, followed by the tracks of b whose id has not occurred before. */
  ghost function Joint(a: seq<Track>, b: seq<Track>): seq<Track> {
    if b == [] then a
    else
      var j := Joint(a, b[..|b| - 1]);
      var t := b[|b| - 1];
      if t.id in Ids(j) then j else j + [t]
  }

  lemma {:induction false} JointIsUnion(a: seq<Track>, b: seq<Track>)
    ensures a <= Joint(a, b)
    ensures Ids(Joint(a, b)) == Ids(a) + Ids(b)
    ensures DistinctIds(a) ==> DistinctIds(Joint(a, b))
    ensures forall t :: t in Joint(a, b) ==> t in a || (t in b && t.id !in Ids(a))
  {
    if b != [] {
      hide Ids, DistinctIds;
      var t, before := b[|b| - 1], b[..|b| - 1];
      assert b == before + [t];
      JointIsUnion(a, before);
      var j := Joint(a, before);
      IdsOfExtended(before, t);
      IdsOfExtended(j, t);
      DistinctIdsExtended(j, t);
    }
  }

  method JointTracks(a: seq<Track>, b: seq<Track>) returns (res: seq<Track>)
    ensures res == Joint(a, b)
  {
    var exists_: map<int, int> := map[];
    res := [];
    for i := 0 to |a|
      invariant res == a[..i]
      invariant forall id :: id in exists_ <==> id in Ids(res)
      invariant forall id :: id in exists_ ==> exists_[id] == 1
    {
      if a[i].id !in exists_ {
        exists_ := exists_[a[i].id := 1];
      }
      IdsOfExtended(res, a[i]);
      res := res + [a[i]];
    }
    for i := 0 to |b|
      invariant res == Joint(a, b[..i])
      invariant forall id :: id in exists_ && exists_[id] != 0 <==> id in Ids(res)
    {
      assert b[..i + 1][..i] == b[..i];
      var id := b[i].id;
      if id !in exists_ || exists_[id] == 0 {
        exists_ := exists_[id := 1];
        IdsOfExtended(res, b[i]);
        res := res + [b[i]];
      }
    }
    assert b[..|b|] == b;
  }

  lemma DistinctIdsExtended(s: seq<Track>, t: Track)
    ensures t.id !in Ids(s) && DistinctIds(s) ==> DistinctIds(s + [t])
  {
    assert forall i :: 0 <= i < |s| ==> s[i] in s;
  }

  lemma IdsOfExtended(s: seq<Track>, t: Track)
    ensures Ids(s + [t]) == Ids(s) + {t.id}
  {
    assert forall u :: u in s + [t] <==> u in s || u == t;
  }

  // ---- difference -----------------------------------------------------------------------------

  /** The first track of every id. */
  ghost function ById(s: seq<Track>): map<int, Track> {
    if s == [] then map[]
    else
      var m := ById(s[..|s| - 1]);
      var t := s[|s| - 1];
      if t.id in m then m else m[t.id := t]
  }

  lemma {:induction false} ByIdIsFirst(s: seq<Track>)
    ensures forall id :: id in ById(s) ==> ById(s)[id].id == id && ById(s)[id] in s
    ensures forall t :: t in s ==> t.id in ById(s)
    ensures forall id :: id in ById(s) ==> IsFirst(s, ById(s)[id])
  {
    if s != [] {
      var r, t := s[..|s| - 1], s[|s| - 1];
      ByIdIsFirst(r);
      assert s == r + [t];
      forall id | id in ById(s) ensures IsFirst(s, ById(s)[id]) {
        if id in ById(r) {
          var i :| IsFirstAt(r, ById(r)[id], i);
          assert IsFirstAt(s, ById(r)[id], i);
        } else {
          forall k | 0 <= k < |r| ensures s[k].id != t.id {
            assert r[k] in r;
          }
          assert IsFirstAt(s, t, |r|);
        }
      }
    }
  }

  ghost predicate IsFirstAt(s: seq<Track>, t: Track, i: int) {
    0 <= i < |s| && s[i] == t && forall k :: 0 <= k < i ==> s[k].id != t.id
  }

  /** t is the first track of its id in s. */
  ghost predicate IsFirst(s: seq<Track>, t: Track) {
    exists i :: IsFirstAt(s, t, i)
  }

  ghost predicate IdsIncrease(s: seq<Track>) {
    forall i, j :: 0 <= i < j < |s| ==> s[i].id < s[j].id
  }

  /** The tracks of a map in the order of their ids. */
  function InOrder(m: map<int, Track>): seq<Track>
    decreases |m|
  {
    if m == map[] then []
    else
      var k := Least(m.Keys);
      KeyRemoved(m, k);
      [m[k]] + InOrder(m - {k})
  }

  lemma KeyRemoved(m: map<int, Track>, k: int)
    requires k in m
    ensures |m - {k}| < |m|
  {
    assert (m - {k}).Keys == m.Keys - {k};
    assert |m.Keys| == |m|;
    assert |(m - {k}).Keys| == |m - {k}|;
  }

  function Least(s: set<int>): (k: int)
    requires s != {}
    ensures k in s && forall j :: j in s ==> k <= j
  {
    LeastExists(s);
    var k :| k in s && forall j :: j in s ==> k <= j;
    k
  }

  lemma {:induction false} LeastExists(s: set<int>)
    requires s != {}
    ensures exists k :: k in s && forall j :: j in s ==> k <= j
    decreases |s|
  {
    var e := Permutations.Pick(s);
    var r := s - {e};
    assert s == r + {e};
    if r == {} {
      assert forall j :: j in s ==> e <= j;
    } else {
      LeastExists(r);
      var k :| k in r && forall j :: j in r ==> k <= j;
      var l := if e < k then e else k;
      assert l in s && forall j :: j in s ==> l <= j;
    }
  }

  /** The tracks of a, first of their id, whose id does not occur in b, by increasing id. */
  ghost function Difference(a: seq<Track>, b: seq<Track>): seq<Track> {
    InOrder(ById(a) - Ids(b))
  }

  lemma {:induction false} InOrderIsSorted(m: map<int, Track>)
    requires forall id :: id in m ==> m[id].id == id
    ensures forall i, j :: 0 <= i < j < |InOrder(m)| ==> InOrder(m)[i].id < InOrder(m)[j].id
    ensures forall t :: t in InOrder(m) <==> t.id in m && m[t.id] == t
    decreases |m|
  {
    if m != map[] {
      var k := Least(m.Keys);
      KeyRemoved(m, k);
      InOrderIsSorted(m - {k});
    }
  }

  lemma DifferenceIsDifference(a: seq<Track>, b: seq<Track>)
    ensures DistinctIds(Difference(a, b))
    ensures Ids(Difference(a, b)) == Ids(a) - Ids(b)
    ensures forall t :: t in Difference(a, b) ==> t in a && t.id !in Ids(b)
    ensures DistinctIds(a) ==> forall t :: t in a && t.id !in Ids(b) ==> t in Difference(a, b)
    ensures IdsIncrease(Difference(a, b))
    ensures forall t :: t in Difference(a, b) ==> IsFirst(a, t)
  {
    var m := ById(a) - Ids(b);
    ByIdIsFirst(a);
    InOrderIsSorted(m);
    forall id | id in Ids(a) - Ids(b) ensures id in Ids(Difference(a, b)) {
      assert m[id] in Difference(a, b);
    }
    if DistinctIds(a) {
      forall t | t in a && t.id !in Ids(b) ensures t in Difference(a, b) {
        assert t.id in ById(a) && ById(a)[t.id] in a;
        assert ById(a)[t.id] == t;
      }
    }
  }

  method SubTracks(a: seq<Track>, b: seq<Track>) returns (res: seq<Track>)
    ensures res == Difference(a, b)
  {
    hide ById, Ids, InOrder;
    var tracks := FirstById(a);
    ghost var all := tracks;
    NoIds();
    assert b[..0] == [];
    for i := 0 to |b|
      invariant tracks == all - Ids(b[..i])
    {
      IdsOfExtended(b[..i], b[i]);
      assert b[..i + 1] == b[..i] + [b[i]];
      if b[i].id in tracks {
        tracks := tracks - {b[i].id};
      }
    }
    assert b[..|b|] == b;
    res := Listed(tracks);
  }

  lemma NoIds()
    ensures Ids([]) == {}
  {
  }

  method FirstById(a: seq<Track>) returns (tracks: map<int, Track>)
    ensures tracks == ById(a)
  {
    tracks := map[];
    for i := 0 to |a|
      invariant tracks == ById(a[..i])
    {
      assert a[..i + 1][..i] == a[..i];
      if a[i].id !in tracks {
        tracks := tracks[a[i].id := a[i]];
      }
    }
    assert a[..|a|] == a;
  }

  method Listed(m: map<int, Track>) returns (res: seq<Track>)
    ensures res == InOrder(m)
  {
    res := [];
    var rest := m;
    while rest != map[]
      invariant res + InOrder(rest) == InOrder(m)
      decreases |rest|
    {
      var k := Least(rest.Keys);
      KeyRemoved(rest, k);
      res := res + [rest[k]];
      rest := rest - {k};
    }
  }

  // ---- near duplicates ------------------------------------------------------------------------

  const NEAR: real := 0.15

  /** A tracked track gives way to a near lost one that has been followed at least as long. */
  ghost predicate GivesWay(t: Track, lost: seq<Track>) {
    exists u :: u in lost && Distance(t.box, u.box) < NEAR && t.Lifetime() <= u.Lifetime()
  }

  /** A lost track gives way to a near tracked one that has been followed longer. */
  ghost predicate IsCovered(u: Track, tracked: seq<Track>) {
    exists t :: t in tracked && Distance(t.box, u.box) < NEAR && t.Lifetime() > u.Lifetime()
  }

  ghost function Keep(s: seq<Track>, dropped: Track -> bool): seq<Track> {
    if s == [] then []
    else Keep(s[..|s| - 1], dropped) + (if dropped(s[|s| - 1]) then [] else [s[|s| - 1]])
  }

  ghost function TrackedLeft(tracked: seq<Track>, lost: seq<Track>): seq<Track> {
    Keep(tracked, t => GivesWay(t, lost))
  }

  ghost function LostLeft(tracked: seq<Track>, lost: seq<Track>): seq<Track> {
    Keep(lost, u => IsCovered(u, tracked))
  }

  lemma {:induction false} KeepIsSublist(s: seq<Track>, dropped: Track -> bool)
    ensures forall t :: t in Keep(s, dropped) <==> t in s && !dropped(t)
    ensures DistinctIds(s) ==> DistinctIds(Keep(s, dropped))
    ensures |Keep(s, dropped)| <= |s|
  {
    if s != [] {
      var r, t := s[..|s| - 1], s[|s| - 1];
      assert s == r + [t];
      KeepIsSublist(r, dropped);
      if DistinctIds(s) {
        forall u | u in Keep(r, dropped) ensures u.id != t.id {
          var i :| 0 <= i < |r| && r[i] == u;
          assert s[i] == u;
        }
      }
    }
  }

  /** r is what is left of s when some tracks are struck out: `at` tells where its tracks stood. */
  ghost predicate IsSublist(r: seq<Track>, s: seq<Track>, at: seq<int>) {
    && |at| == |r|
    && (forall k :: 0 <= k < |r| ==> 0 <= at[k] < |s| && r[k] == s[at[k]])
    && forall k, m :: 0 <= k < m < |r| ==> at[k] < at[m]
  }

  /** What is kept stands in the order it stood in before. */
  lemma {:induction false} KeepIsInOrder(s: seq<Track>, dropped: Track -> bool) returns (at: seq<int>)
    ensures IsSublist(Keep(s, dropped), s, at)
    ensures forall k :: 0 <= k < |s| ==> (k in at <==> !dropped(s[k]))
  {
    at := [];
    if s != [] {
      var n := |s| - 1;
      var before := KeepIsInOrder(s[..n], dropped);
      at := before + if dropped(s[n]) then [] else [n];
      forall k | 0 <= k < |s| ensures k in at <==> !dropped(s[k]) {
        if k < n {
          assert s[..n][k] == s[k];
        } else {
          assert n !in before;
        }
      }
    }
  }

  /** Afterwards no tracked track is near a lost one. */
  lemma NoneNear(tracked: seq<Track>, lost: seq<Track>)
    ensures forall t, u :: t in TrackedLeft(tracked, lost) && u in LostLeft(tracked, lost) ==> Distance(t.box, u.box) >= NEAR
  {
    KeepIsSublist(tracked, t => GivesWay(t, lost));
    KeepIsSublist(lost, u => IsCovered(u, tracked));
  }

  /** t gives way to u, a track of the other list. */
  ghost predicate YieldsTo(t: Track, u: Track, tracked: seq<Track>, lost: seq<Track>) {
    || (t in tracked && u in lost && Distance(t.box, u.box) < NEAR && t.Lifetime() <= u.Lifetime())
    || (t in lost && u in tracked && Distance(u.box, t.box) < NEAR && t.Lifetime() < u.Lifetime())
  }

  /** Tracks each of which gives way to the next one. */
  ghost predicate IsChain(p: seq<Track>, tracked: seq<Track>, lost: seq<Track>) {
    |p| >= 1 && forall i: nat :: i < |p| - 1 ==> YieldsTo(p[i], p[i + 1], tracked, lost)
  }

  /** w survives, has been followed at least as long as t, and is linked to t by near tracks. */
  ghost predicate IsRepresentedBy(t: Track, w: Track, tracked: seq<Track>, lost: seq<Track>) {
    && (w in TrackedLeft(tracked, lost) || w in LostLeft(tracked, lost))
    && w.Lifetime() >= t.Lifetime()
    && exists p :: IsChain(p, tracked, lost) && p[0] == t && p[|p| - 1] == w
  }

  lemma {:induction false} LifetimesAreBounded(s: seq<Track>) returns (b: int)
    ensures forall t :: t in s ==> t.Lifetime() <= b
  {
    if s == [] {
      b := 0;
    } else {
      var c := LifetimesAreBounded(s[1..]);
      b := if c < s[0].Lifetime() then s[0].Lifetime() else c;
      assert s == [s[0]] + s[1..];
    }
  }

  lemma RepresentedOn(t: Track, u: Track, w: Track, tracked: seq<Track>, lost: seq<Track>)
    requires YieldsTo(t, u, tracked, lost) && IsRepresentedBy(u, w, tracked, lost)
    ensures IsRepresentedBy(t, w, tracked, lost)
  {
    hide Distance, TrackedLeft, LostLeft;
    var p :| IsChain(p, tracked, lost) && p[0] == u && p[|p| - 1] == w;
    var q := [t] + p;
    forall i: nat | i < |q| - 1 ensures YieldsTo(q[i], q[i + 1], tracked, lost) {
      assert i > 0 ==> YieldsTo(p[i - 1], p[i], tracked, lost);
    }
    assert IsChain(q, tracked, lost) && q[0] == t && q[|q| - 1] == w;
  }

  /** Every track is represented after near duplicates are taken out: following the tracks it and
      the ones after it give way to, one comes to one that stays. */
  lemma {:induction false} SurvivorExists(tracked: seq<Track>, lost: seq<Track>, t: Track, own: bool, b: int) returns (w: Track)
    requires if own then t in tracked else t in lost
    requires forall u :: u in tracked + lost ==> u.Lifetime() <= b
    ensures IsRepresentedBy(t, w, tracked, lost)
    decreases 2 * (b - t.Lifetime()) + (if own then 1 else 0)
  {
    hide Distance, TrackedLeft, LostLeft, IsRepresentedBy;
    StaysOrYields(tracked, lost, t, own);
    assert t in tracked + lost;
    if own && GivesWay(t, lost) {
      var u :| u in lost && YieldsTo(t, u, tracked, lost) && t.Lifetime() <= u.Lifetime();
      assert u in tracked + lost;
      w := SurvivorExists(tracked, lost, u, false, b);
      RepresentedOn(t, u, w, tracked, lost);
    } else if !own && IsCovered(t, tracked) {
      var u :| u in tracked && YieldsTo(t, u, tracked, lost) && t.Lifetime() < u.Lifetime();
      assert u in tracked + lost;
      w := SurvivorExists(tracked, lost, u, true, b);
      RepresentedOn(t, u, w, tracked, lost);
    } else {
      w := t;
    }
  }

  lemma StaysOrYields(tracked: seq<Track>, lost: seq<Track>, t: Track, own: bool)
    requires if own then t in tracked else t in lost
    ensures own && GivesWay(t, lost) ==> exists u :: u in lost && YieldsTo(t, u, tracked, lost) && t.Lifetime() <= u.Lifetime()
    ensures !own && IsCovered(t, tracked) ==>
      exists u :: u in tracked && YieldsTo(t, u, tracked, lost) && t.Lifetime() < u.Lifetime()
    ensures (if own then !GivesWay(t, lost) else !IsCovered(t, tracked)) ==> IsRepresentedBy(t, t, tracked, lost)
  {
    hide Distance;
    KeepIsSublist(tracked, t => GivesWay(t, lost));
    KeepIsSublist(lost, u => IsCovered(u, tracked));
    var p := [t];
    assert IsChain(p, tracked, lost) && p[0] == t && p[|p| - 1] == t;
  }

  /** The distances of all pairs, or nothing at all when either list is empty. */
  ghost predicate AreDistances(a: seq<Box>, b: seq<Box>, dists: seq<seq<real>>) {
    if |a| == 0 || |b| == 0 then dists == []
    else
      && |dists| == |a|
      && (forall i :: 0 <= i < |a| ==> |dists[i]| == |b|)
      && (forall i, j :: 0 <= i < |a| && 0 <= j < |b| ==> dists[i][j] == Distance(a[i], b[j]))
  }

  method IouDistances(a: seq<Box>, b: seq<Box>) returns (dists: seq<seq<real>>)
    ensures AreDistances(a, b, dists)
  {
    if |a| == 0 || |b| == 0 {
      return [];
    }
    hide Iou;
    dists := seq(|a|, _ => seq(|b|, _ => 0.0));
    for k := 0 to |b|
      invariant |dists| == |a| && forall i :: 0 <= i < |a| ==> |dists[i]| == |b|
      invariant forall i, j :: 0 <= i < |a| && 0 <= j < k ==> dists[i][j] == Distance(a[i], b[j])
    {
      for n := 0 to |a|
        invariant |dists| == |a| && forall i :: 0 <= i < |a| ==> |dists[i]| == |b|
        invariant forall i, j :: 0 <= i < |a| && 0 <= j <= k && (j < k || i < n) ==> dists[i][j] == Distance(a[i], b[j])
      {
        dists := dists[n := dists[n][k := Distance(a[n], b[k])]];
      }
    }
  }

  /** The pairs (i, j), i-th tracked and j-th lost, that are near. */
  ghost predicate AreNear(tracked: seq<Track>, lost: seq<Track>, i: int, j: int) {
    && 0 <= i < |tracked| && 0 <= j < |lost|
    && Distance(tracked[i].box, lost[j].box) < NEAR
  }

  method NearPairs(tracked: seq<Track>, lost: seq<Track>) returns (pairs: seq<(int, int)>)
    ensures forall i, j :: (i, j) in pairs <==> AreNear(tracked, lost, i, j)
  {
    hide Distance;
    var a, b := seq(|tracked|, i requires 0 <= i < |tracked| => tracked[i].box), seq(|lost|, i requires 0 <= i < |lost| => lost[i].box);
    var dists := IouDistances(a, b);
    pairs := [];
    for i := 0 to |dists|
      invariant forall p, q :: (p, q) in pairs <==> AreNear(tracked, lost, p, q) && p < i
    {
      for j := 0 to |dists[i]|
        invariant forall p, q :: (p, q) in pairs <==> AreNear(tracked, lost, p, q) && (p < i || (p == i && q < j))
      {
        assert dists[i][j] == Distance(a[i], b[j]) && a[i] == tracked[i].box && b[j] == lost[j].box;
        assert AreNear(tracked, lost, i, j) <==> dists[i][j] < NEAR;
        if dists[i][j] < NEAR {
          ghost var before := pairs;
          pairs := pairs + [(i, j)];
          assert forall p, q :: (p, q) in pairs <==> (p, q) in before || (p == i && q == j);
        }
      }
    }
  }

  /** In the near pair p, the tracked track gives way (or, if not `first`, the lost one). */
  ghost predicate Gives(tracked: seq<Track>, lost: seq<Track>, p: (int, int), first: bool) {
    && AreNear(tracked, lost, p.0, p.1)
    && (first <==> tracked[p.0].Lifetime() <= lost[p.1].Lifetime())
  }

  ghost predicate HasPair(tracked: seq<Track>, lost: seq<Track>, pairs: seq<(int, int)>, place: int, first: bool) {
    exists p :: p in pairs && (if first then p.0 else p.1) == place && Gives(tracked, lost, p, first)
  }

  lemma HasPairExtended(tracked: seq<Track>, lost: seq<Track>, pairs: seq<(int, int)>, q: (int, int), place: int, first: bool)
    ensures HasPair(tracked, lost, pairs + [q], place, first) <==>
      HasPair(tracked, lost, pairs, place, first) || ((if first then q.0 else q.1) == place && Gives(tracked, lost, q, first))
  {
    assert forall p :: p in pairs + [q] <==> p in pairs || p == q;
  }

  lemma PlacesToDrop(tracked: seq<Track>, lost: seq<Track>, pairs: seq<(int, int)>)
    requires forall i, j :: (i, j) in pairs <==> AreNear(tracked, lost, i, j)
    ensures forall i :: 0 <= i < |tracked| ==> (HasPair(tracked, lost, pairs, i, true) <==> GivesWay(tracked[i], lost))
    ensures forall j :: 0 <= j < |lost| ==> (HasPair(tracked, lost, pairs, j, false) <==> IsCovered(lost[j], tracked))
  {
    hide Distance;
    forall i | 0 <= i < |tracked| ensures HasPair(tracked, lost, pairs, i, true) <==> GivesWay(tracked[i], lost) {
      if GivesWay(tracked[i], lost) {
        var u :| u in lost && Distance(tracked[i].box, u.box) < NEAR && tracked[i].Lifetime() <= u.Lifetime();
        var j :| 0 <= j < |lost| && lost[j] == u;
        assert AreNear(tracked, lost, i, j) && Gives(tracked, lost, (i, j), true);
      }
    }
    forall j | 0 <= j < |lost| ensures HasPair(tracked, lost, pairs, j, false) <==> IsCovered(lost[j], tracked) {
      if IsCovered(lost[j], tracked) {
        var t :| t in tracked && Distance(t.box, lost[j].box) < NEAR && t.Lifetime() > lost[j].Lifetime();
        var i :| 0 <= i < |tracked| && tracked[i] == t;
        assert AreNear(tracked, lost, i, j) && Gives(tracked, lost, (i, j), false);
      }
    }
  }

  method RemoveDuplicates(tracked: seq<Track>, lost: seq<Track>) returns (trackedLeft: seq<Track>, lostLeft: seq<Track>)
    ensures trackedLeft == TrackedLeft(tracked, lost)
    ensures lostLeft == LostLeft(tracked, lost)
  {
    hide Distance, HasPair, GivesWay, IsCovered;
    var pairs := NearPairs(tracked, lost);
    var dupTracked: seq<int>, dupLost: seq<int> := [], [];
    NoPairs(tracked, lost);
    for k := 0 to |pairs|
      invariant forall i :: i in dupTracked <==> HasPair(tracked, lost, pairs[..k], i, true)
      invariant forall j :: j in dupLost <==> HasPair(tracked, lost, pairs[..k], j, false)
    {
      var (i, j) := pairs[k];
      assert (i, j) in pairs && AreNear(tracked, lost, i, j);
      assert pairs[..k + 1] == pairs[..k] + [pairs[k]];
      forall place, first {
        HasPairExtended(tracked, lost, pairs[..k], pairs[k], place, first);
      }
      if tracked[i].Lifetime() > lost[j].Lifetime() {
        dupLost := dupLost + [j];
      } else {
        dupTracked := dupTracked + [i];
      }
    }
    assert pairs[..|pairs|] == pairs;
    PlacesToDrop(tracked, lost, pairs);
    trackedLeft := WithoutPlaces(tracked, dupTracked, t => GivesWay(t, lost));
    lostLeft := WithoutPlaces(lost, dupLost, u => IsCovered(u, tracked));
  }

  lemma NoPairs(tracked: seq<Track>, lost: seq<Track>)
    ensures forall place, first :: !HasPair(tracked, lost, [], place, first)
  {
  }

  method WithoutPlaces(s: seq<Track>, places: seq<int>, ghost dropped: Track -> bool) returns (res: seq<Track>)
    requires forall i :: 0 <= i < |s| ==> (i in places <==> dropped(s[i]))
    ensures res == Keep(s, dropped)
  {
    res := [];
    for i := 0 to |s|
      invariant res == Keep(s[..i], dropped)
    {
      assert s[..i + 1][..i] == s[..i];
      if i !in places {
        res := res + [s[i]];
      }
    }
    assert s[..|s|] == s;
  }
}
