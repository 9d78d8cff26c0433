/** How the elements of an algorithm's pipeline are laid onto threads: a walk over the graph of
    elements that keeps a chain of synchronous elements on one thread, opens a thread for every
    asynchronous one, and branches where an output has several consumers. */
module PipelineThreads {
  import opened Permutations

  datatype Element = Element(inputs: seq<string>, outputs: seq<string>, async: bool)

  type Graph = seq<Element>

  const ENTRY := "entry"

  /** The places below k of the elements that take `val`, in order. */
  function Takers(g: Graph, val: string, k: nat): (s: seq<nat>)
    requires k <= |g|
  {
    if k == 0 then [] else Takers(g, val, k - 1) + (if val in g[k - 1].inputs then [k - 1] else [])
  }

  /** The consumers of the first output of element e. */
  function Next(g: Graph, e: nat): seq<nat>
    requires e < |g|
  {
    if g[e].outputs == [] then [] else Takers(g, g[e].outputs[0], |g|)
  }

  lemma {:induction false} TakersAre(g: Graph, val: string, k: nat)
    requires k <= |g|
    ensures forall v: nat :: v in Takers(g, val, k) <==> v < k && val in g[v].inputs
    ensures forall i, j :: 0 <= i < j < |Takers(g, val, k)| ==> Takers(g, val, k)[i] < Takers(g, val, k)[j]
  {
    if k > 0 {
      TakersAre(g, val, k - 1);
      var s := Takers(g, val, k - 1);
      forall i | 0 <= i < |s| ensures s[i] < k - 1 {
        assert s[i] in s;
      }
    }
  }

  lemma NextAre(g: Graph, e: nat)
    requires e < |g|
    ensures forall v: nat :: v in Next(g, e) <==> v < |g| && g[e].outputs != [] && g[e].outputs[0] in g[v].inputs
    ensures forall i, j :: 0 <= i < j < |Next(g, e)| ==> Next(g, e)[i] != Next(g, e)[j]
  {
    if g[e].outputs != [] {
      TakersAre(g, g[e].outputs[0], |g|);
    }
  }

  ghost predicate IsEdge(g: Graph, e: nat, v: nat) {
    e < |g| && v in Next(g, e)
  }

  /** v is the only consumer of e. */
  ghost predicate IsSole(g: Graph, e: nat, v: nat) {
    e < |g| && Next(g, e) == [v]
  }

  lemma SoleIsEdge(g: Graph, e: nat, v: nat)
    requires IsSole(g, e, v)
    ensures IsEdge(g, e, v)
  {
  }

  /** An acyclic graph: a rank falls along every edge. */
  ghost predicate Ranked(g: Graph, rank: seq<nat>) {
    && |rank| == |g|
    && forall e: nat, v: nat :: IsEdge(g, e, v) ==> v < |g| && rank[v] < rank[e]
  }

  lemma ConsumerRanksLower(g: Graph, rank: seq<nat>, e: nat, i: nat)
    requires Ranked(g, rank) && e < |g| && i < |Next(g, e)|
    ensures IsEdge(g, e, Next(g, e)[i]) && Next(g, e)[i] < |g| && rank[Next(g, e)[i]] < rank[e]
  {
    assert IsEdge(g, e, Next(g, e)[i]);
  }

  // ---- the walk --------------------------------------------------------------------------------

  /** The threads so far, each with the places of its elements in order, and the flags of the
      elements that are on one. */
  datatype Layout = Layout(threads: seq<seq<nat>>, attached: seq<bool>) {
    predicate Fits(g: Graph) {
      |attached| == |g|
    }

    function OnNew(e: nat): Layout
      requires e < |attached|
    {
      Layout(threads + [[e]], attached[e := true])
    }

    function OnLast(e: nat): Layout
      requires e < |attached| && threads != []
    {
      var n := |threads| - 1;
      Layout(threads[n := threads[n] + [e]], attached[e := true])
    }
  }

  /** The only consumer of the element placed last joins its thread unless it is asynchronous. */
  function Joined(g: Graph, s: Layout, v: nat): Layout
    requires v < |g| == |s.attached| && s.threads != []
  {
    if g[v].async then s.OnNew(v) else s.OnLast(v)
  }

  ghost function Attach(g: Graph, rank: seq<nat>, e: nat, s: Layout): (r: Layout)
    requires Ranked(g, rank) && e < |g| && s.Fits(g)
    ensures r.Fits(g) && (s.threads != [] ==> r.threads != [])
    decreases rank[e], 2
  {
    if s.attached[e] then s else Walk(g, rank, e, s.OnNew(e))
  }

  /** From element e, which has just been placed. */
  ghost function Walk(g: Graph, rank: seq<nat>, e: nat, s: Layout): (r: Layout)
    requires Ranked(g, rank) && e < |g| && s.Fits(g) && s.threads != []
    ensures r.Fits(g) && r.threads != []
    decreases rank[e], 1
  {
    var next := Next(g, e);
    if |next| == 0 then s
    else if |next| == 1 then
      ConsumerRanksLower(g, rank, e, 0);
      Walk(g, rank, next[0], Joined(g, s, next[0]))
    else Branches(g, rank, e, |next|, s)
  }

  /** The first k consumers of e, one after the other. */
  ghost function Branches(g: Graph, rank: seq<nat>, e: nat, k: nat, s: Layout): (r: Layout)
    requires Ranked(g, rank) && e < |g| && k <= |Next(g, e)| && s.Fits(g)
    ensures r.Fits(g) && (s.threads != [] ==> r.threads != [])
    decreases rank[e], 0, k
  {
    if k == 0 then s
    else
      ConsumerRanksLower(g, rank, e, k - 1);
      Attach(g, rank, Next(g, e)[k - 1], Branches(g, rank, e, k - 1, s))
  }

  // ---- what it promises ------------------------------------------------------------------------

  ghost predicate IsTrail(g: Graph, p: seq<nat>) {
    && |p| >= 1 && (forall i :: 0 <= i < |p| ==> p[i] < |g|)
    && forall i: nat :: i < |p| - 1 ==> Leads(g, p, i)
  }

  ghost predicate Leads(g: Graph, p: seq<nat>, i: nat)
    requires i < |p| - 1
  {
    IsEdge(g, p[i], p[i + 1])
  }

  ghost predicate Reaches(g: Graph, u: nat, v: nat) {
    exists p :: IsTrail(g, p) && p[0] == u && p[|p| - 1] == v
  }

  lemma ReachesItself(g: Graph, u: nat)
    requires u < |g|
    ensures Reaches(g, u, u)
  {
    assert IsTrail(g, [u]);
  }

  lemma ReachesOn(g: Graph, u: nat, v: nat, w: nat)
    requires Reaches(g, u, v) && w < |g| && IsEdge(g, v, w)
    ensures Reaches(g, u, w)
  {
    var p :| IsTrail(g, p) && p[0] == u && p[|p| - 1] == v;
    forall i: nat | i < |p| ensures Leads(g, p + [w], i) {
      assert i < |p| - 1 ==> Leads(g, p, i);
    }
    assert IsTrail(g, p + [w]);
  }

  /** The elements in the order they are placed. */
  ghost function Order(threads: seq<seq<nat>>): seq<nat> {
    if threads == [] then [] else Order(threads[..|threads| - 1]) + threads[|threads| - 1]
  }

  lemma OrderOnNew(s: Layout, e: nat)
    requires e < |s.attached|
    ensures Order(s.OnNew(e).threads) == Order(s.threads) + [e]
  {
    assert s.OnNew(e).threads[..|s.threads|] == s.threads;
  }

  lemma OrderOnLast(s: Layout, e: nat)
    requires e < |s.attached| && s.threads != []
    ensures Order(s.OnLast(e).threads) == Order(s.threads) + [e]
  {
    var n := |s.threads| - 1;
    assert s.OnLast(e).threads[..n] == s.threads[..n];
    assert Order(s.threads[..n]) + (s.threads[n] + [e]) == Order(s.threads[..n]) + s.threads[n] + [e];
  }

  /** One thread: each element is the only consumer of the one before it, and synchronous. */
  ghost predicate IsChain(g: Graph, t: seq<nat>) {
    && t != [] && (forall i :: 0 <= i < |t| ==> t[i] < |g|)
    && forall i: nat :: i < |t| - 1 ==> Joins(g, t, i)
  }

  ghost predicate Joins(g: Graph, t: seq<nat>, i: nat)
    requires i < |t| - 1 && t[i + 1] < |g|
  {
    IsSole(g, t[i], t[i + 1]) && !g[t[i + 1]].async
  }

  ghost predicate AreChains(g: Graph, threads: seq<seq<nat>>) {
    forall n :: 0 <= n < |threads| ==> IsChain(g, threads[n])
  }

  /** Every placed element that has one consumer is followed by it; only the last may still wait. */
  ghost predicate Followed(g: Graph, order: seq<nat>, k: nat) {
    && k <= |order| && (forall i :: 0 <= i < |order| ==> order[i] < |g|)
    && forall i: nat :: i < k ==> IsFollowed(g, order, i)
  }

  ghost predicate IsFollowed(g: Graph, order: seq<nat>, i: nat)
    requires i < |order| && order[i] < |g|
  {
    |Next(g, order[i])| == 1 ==> i + 1 < |order| && order[i + 1] == Next(g, order[i])[0]
  }

  /** The flags mark exactly the placed elements, all of which the entry reaches. */
  ghost predicate Marked(g: Graph, root: nat, s: Layout) {
    && s.Fits(g)
    && (forall j :: 0 <= j < |g| ==> (s.attached[j] <==> j in Order(s.threads)))
    && forall j :: 0 <= j < |g| && s.attached[j] ==> Reaches(g, root, j)
  }

  /** An element that is the only consumer of a reached element has no other producer among the
      reached elements. */
  ghost predicate SoleConsumersHaveOneProducer(g: Graph, root: nat) {
    forall u: nat, w: nat, v: nat | IsSole(g, u, v) && IsEdge(g, w, v) ::
      Reaches(g, root, u) && Reaches(g, root, w) ==> u == w
  }

  /** c is the first consumer of e, in the order of the elements, that leads to v. */
  ghost predicate IsFirstTo(g: Graph, e: nat, c: nat, v: nat) {
    && IsEdge(g, e, c) && Reaches(g, c, v)
    && forall d: nat :: d < c && IsEdge(g, e, d) ==> !Reaches(g, d, v)
  }

  /** The way to v that always takes the first consumer that leads there. */
  ghost predicate IsRoute(g: Graph, p: seq<nat>, v: nat) {
    && IsTrail(g, p) && p[|p| - 1] == v
    && forall i: nat :: i < |p| - 1 ==> TakesFirst(g, p, i, v)
  }

  ghost predicate TakesFirst(g: Graph, p: seq<nat>, i: nat, v: nat)
    requires i < |p| - 1
  {
    IsFirstTo(g, p[i], p[i + 1], v)
  }

  /** The route from e to v comes to v from u. */
  ghost predicate Arrives(g: Graph, e: nat, u: nat, v: nat) {
    exists p :: IsRoute(g, p, v) && |p| >= 2 && p[0] == e && p[|p| - 2] == u
  }

  /** The route from the entry to the only consumer of a reached element comes through that element. */
  ghost predicate SoleConsumersComeFirst(g: Graph, root: nat) {
    forall u: nat, v: nat | IsSole(g, u, v) && Reaches(g, root, u) :: Arrives(g, root, u, v)
  }

  /** Nothing is placed twice, and no consumer has been placed ahead of its only producer. */
  ghost predicate Once(g: Graph, root: nat, s: Layout, last: int)
    requires s.Fits(g)
  {
    && Distinct(Order(s.threads))
    && forall u: nat, v: nat | IsSole(g, u, v) && v < |g| && Reaches(g, root, u) ::
         !s.attached[u] || u == last ==> !s.attached[v]
  }

  /** All placed elements but the last are on the route to their only consumers. */
  ghost predicate AllArrive(g: Graph, root: nat, s: Layout, last: int)
    requires s.Fits(g)
  {
    forall u: nat, v: nat | IsSole(g, u, v) && s.attached[u] && u != last :: Arrives(g, root, u, v)
  }

  /** Elements are placed once exactly as long as sole consumers come first. */
  ghost predicate Exact(g: Graph, root: nat, s: Layout, last: int)
    requires s.Fits(g)
  {
    && (SoleConsumersComeFirst(g, root) ==> Once(g, root, s, last))
    && (Distinct(Order(s.threads)) ==> AllArrive(g, root, s, last))
  }

  ghost predicate Sound(g: Graph, root: nat, s: Layout) {
    && Marked(g, root, s) && AreChains(g, s.threads)
    && Followed(g, Order(s.threads), |Order(s.threads)|)
    && Exact(g, root, s, -1)
  }

  ghost predicate EndsWith(threads: seq<seq<nat>>, e: nat) {
    threads != [] && var t := threads[|threads| - 1]; t != [] && t[|t| - 1] == e
  }

  /** Element e has just been placed. */
  ghost predicate SoundAt(g: Graph, root: nat, s: Layout, e: nat) {
    && Marked(g, root, s) && AreChains(g, s.threads)
    && EndsWith(s.threads, e)
    && Order(s.threads) != [] && Order(s.threads)[|Order(s.threads)| - 1] == e
    && Followed(g, Order(s.threads), |Order(s.threads)| - 1)
    && Exact(g, root, s, e)
  }

  // ---- single steps ----------------------------------------------------------------------------

  lemma ShorterTrail(g: Graph, p: seq<nat>)
    requires IsTrail(g, p) && |p| > 1
    ensures IsTrail(g, p[..|p| - 1])
    ensures p[|p| - 2] < |g| && p[|p| - 1] < |g| && IsEdge(g, p[|p| - 2], p[|p| - 1])
  {
    assert Leads(g, p, |p| - 2);
    var q := p[..|p| - 1];
    forall i: nat | i < |q| - 1 ensures Leads(g, q, i) {
      assert Leads(g, p, i);
    }
  }

  lemma {:induction false} RankFalls(g: Graph, rank: seq<nat>, p: seq<nat>)
    requires Ranked(g, rank) && IsTrail(g, p)
    ensures rank[p[|p| - 1]] <= rank[p[0]]
  {
    if |p| > 1 {
      hide IsTrail, IsEdge;
      ShorterTrail(g, p);
      RankFalls(g, rank, p[..|p| - 1]);
    }
  }

  /** What is reached from the entry does not lead back to it. */
  lemma NoWayBack(g: Graph, rank: seq<nat>, root: nat, u: nat)
    requires Ranked(g, rank) && root < |g| && u < |g| && Reaches(g, root, u)
    ensures !IsEdge(g, u, root)
  {
    var p :| IsTrail(g, p) && p[0] == root && p[|p| - 1] == u;
    RankFalls(g, rank, p);
  }

  // ---- routes ----------------------------------------------------------------------------------

  lemma LaterTrail(g: Graph, p: seq<nat>)
    requires IsTrail(g, p) && |p| > 1
    ensures IsTrail(g, p[1..]) && p[1] < |g| && IsEdge(g, p[0], p[1])
  {
    assert Leads(g, p, 0);
    var q := p[1..];
    forall i: nat | i < |q| - 1 ensures Leads(g, q, i) {
      assert Leads(g, p, i + 1);
    }
  }

  lemma LaterRoute(g: Graph, p: seq<nat>, v: nat)
    requires IsRoute(g, p, v) && |p| > 1
    ensures IsRoute(g, p[1..], v) && IsFirstTo(g, p[0], p[1], v)
  {
    hide IsFirstTo, IsTrail;
    LaterTrail(g, p);
    assert TakesFirst(g, p, 0, v);
    var q := p[1..];
    forall i: nat | i < |q| - 1 ensures TakesFirst(g, q, i, v) {
      assert TakesFirst(g, p, i + 1, v);
    }
  }

  /** A route ends where it comes to v for the first time. */
  lemma RouteEnds(g: Graph, rank: seq<nat>, p: seq<nat>, v: nat)
    requires Ranked(g, rank) && IsRoute(g, p, v) && p[0] == v
    ensures |p| == 1
  {
    if |p| > 1 {
      LaterTrail(g, p);
      RankFalls(g, rank, p[1..]);
    }
  }

  /** There is one route. */
  lemma {:induction false} RoutesAgree(g: Graph, rank: seq<nat>, p: seq<nat>, q: seq<nat>, v: nat)
    requires Ranked(g, rank) && IsRoute(g, p, v) && IsRoute(g, q, v) && p[0] == q[0]
    ensures p == q
  {
    if p[0] == v {
      RouteEnds(g, rank, p, v);
      RouteEnds(g, rank, q, v);
    } else {
      hide Reaches;
      LaterRoute(g, p, v);
      LaterRoute(g, q, v);
      RoutesAgree(g, rank, p[1..], q[1..], v);
      assert p == [p[0]] + p[1..] && q == [q[0]] + q[1..];
    }
  }

  lemma ArrivesOnce(g: Graph, rank: seq<nat>, e: nat, u: nat, w: nat, v: nat)
    requires Ranked(g, rank) && Arrives(g, e, u, v) && Arrives(g, e, w, v)
    ensures u == w
  {
    hide IsRoute;
    var p :| IsRoute(g, p, v) && |p| >= 2 && p[0] == e && p[|p| - 2] == u;
    var q :| IsRoute(g, q, v) && |q| >= 2 && q[0] == e && q[|q| - 2] == w;
    RoutesAgree(g, rank, p, q, v) by { RouteIsTrail(g, p, v); }
  }

  lemma RouteIsTrail(g: Graph, p: seq<nat>, v: nat)
    requires IsRoute(g, p, v)
    ensures IsTrail(g, p) && |p| >= 1 && p[|p| - 1] == v
  {
  }

  lemma RouteFrom(g: Graph, e: nat, p: seq<nat>, v: nat)
    requires e < |g| && IsRoute(g, p, v) && IsFirstTo(g, e, p[0], v)
    ensures IsRoute(g, [e] + p, v)
  {
    hide Reaches, IsFirstTo;
    var q := [e] + p;
    FirstIsEdge(g, e, p[0], v);
    forall i: nat | i < |q| - 1 ensures Leads(g, q, i) {
      assert i > 0 ==> Leads(g, p, i - 1);
    }
    forall i: nat | i < |q| - 1 ensures TakesFirst(g, q, i, v) {
      assert i > 0 ==> TakesFirst(g, p, i - 1, v);
    }
  }

  lemma FirstIsEdge(g: Graph, e: nat, c: nat, v: nat)
    requires IsFirstTo(g, e, c, v)
    ensures IsEdge(g, e, c)
  {
  }

  lemma ArrivesFrom(g: Graph, e: nat, c: nat, u: nat, v: nat)
    requires e < |g| && IsFirstTo(g, e, c, v) && Arrives(g, c, u, v)
    ensures Arrives(g, e, u, v)
  {
    hide IsFirstTo, IsTrail;
    var p :| IsRoute(g, p, v) && |p| >= 2 && p[0] == c && p[|p| - 2] == u;
    RouteFrom(g, e, p, v);
    var q := [e] + p;
    assert q[0] == e && q[|q| - 2] == u;
  }

  lemma ArrivesAtOnce(g: Graph, e: nat, v: nat)
    requires e < |g| && v < |g| && IsFirstTo(g, e, v, v)
    ensures Arrives(g, e, e, v)
  {
    hide IsFirstTo;
    assert IsRoute(g, [v], v);
    RouteFrom(g, e, [v], v);
    var q := [e] + [v];
    assert q[0] == e && q[|q| - 2] == e;
  }

  lemma ArrivesReaches(g: Graph, e: nat, u: nat, v: nat)
    requires Arrives(g, e, u, v)
    ensures Reaches(g, e, v) && v < |g|
  {
    var p :| IsRoute(g, p, v) && |p| >= 2 && p[0] == e && p[|p| - 2] == u;
    assert IsTrail(g, p);
  }

  lemma MarkedAfter(g: Graph, root: nat, s: Layout, r: Layout, e: nat)
    requires Marked(g, root, s) && e < |g| && Reaches(g, root, e)
    requires r.attached == s.attached[e := true] && Order(r.threads) == Order(s.threads) + [e]
    ensures Marked(g, root, r)
  {
  }

  lemma FollowedAfter(g: Graph, order: seq<nat>, e: nat)
    requires e < |g|
    requires Followed(g, order, |order|)
    ensures Followed(g, order + [e], |order|)
  {
    forall i: nat | i < |order| ensures IsFollowed(g, order + [e], i) {
      assert IsFollowed(g, order, i);
    }
  }

  lemma FollowedByOnly(g: Graph, order: seq<nat>, e: nat, v: nat)
    requires v < |g| && IsSole(g, e, v)
    requires order != [] && order[|order| - 1] == e && Followed(g, order, |order| - 1)
    ensures Followed(g, order + [v], |order|)
  {
    forall i: nat | i < |order| ensures IsFollowed(g, order + [v], i) {
      assert i < |order| - 1 ==> IsFollowed(g, order, i);
    }
  }

  /** Placing an element that was not placed, from the producer on its route. */
  lemma OnceAfter(g: Graph, rank: seq<nat>, root: nat, s: Layout, r: Layout, last: int, e: nat, p: nat)
    requires Ranked(g, rank) && SoleConsumersComeFirst(g, root) && root < |g|
    requires Marked(g, root, s) && Once(g, root, s, last) && r.Fits(g)
    requires e < |g| && !s.attached[e] && Reaches(g, root, e)
    requires e == root || (p < |g| && s.attached[p] && Arrives(g, root, p, e))
    requires r.attached == s.attached[e := true] && Order(r.threads) == Order(s.threads) + [e]
    ensures Once(g, root, r, e)
  {
    hide Reaches, IsEdge, Next, Arrives, Ranked;
    forall u: nat, v: nat | IsSole(g, u, v) && v < |g| && Reaches(g, root, u) && (!r.attached[u] || u == e)
      ensures !r.attached[v]
    {
      SoleIsEdge(g, u, v);
      NoWayBack(g, rank, root, u);
      assert !s.attached[v];
      if v == e && e != root {
        ArrivesOnce(g, rank, root, u, p, e);
      }
    }
  }

  lemma DistinctBefore(s: seq<nat>, e: nat)
    requires Distinct(s + [e])
    ensures Distinct(s) && e !in s
  {
    var t := s + [e];
    assert forall i :: 0 <= i < |s| ==> t[i] == s[i] && t[|s|] == e;
  }

  lemma ExactAfterOpening(g: Graph, rank: seq<nat>, root: nat, s: Layout, r: Layout, e: nat, p: nat)
    requires Ranked(g, rank) && root < |g|
    requires s.Fits(g) && Marked(g, root, s) && Exact(g, root, s, -1) && r.Fits(g)
    requires e < |g| && !s.attached[e] && Reaches(g, root, e)
    requires e == root || (p < |g| && s.attached[p] && Arrives(g, root, p, e))
    requires r.attached == s.attached[e := true] && Order(r.threads) == Order(s.threads) + [e]
    ensures Exact(g, root, r, e)
  {
    hide Marked, Once, Order, Reaches, Arrives, SoleConsumersComeFirst, Distinct, Ranked, Next;
    if SoleConsumersComeFirst(g, root) {
      OnceAfter(g, rank, root, s, r, -1, e, p);
    }
    if Distinct(Order(r.threads)) {
      DistinctBefore(Order(s.threads), e);
    }
  }

  lemma ExactAfterJoining(g: Graph, rank: seq<nat>, root: nat, s: Layout, r: Layout, e: nat, v: nat)
    requires Ranked(g, rank) && root < |g|
    requires Marked(g, root, s) && Exact(g, root, s, e) && r.Fits(g)
    requires e < |g| && v < |g| && s.attached[e] && Reaches(g, root, e) && Reaches(g, root, v) && IsSole(g, e, v)
    requires !s.attached[v] ==> Arrives(g, root, e, v)
    requires r.attached == s.attached[v := true] && Order(r.threads) == Order(s.threads) + [v]
    ensures Exact(g, root, r, v)
  {
    hide Once, Order, Reaches, Arrives, SoleConsumersComeFirst, Distinct, Ranked;
    if SoleConsumersComeFirst(g, root) {
      SoleConsumerWaits(g, root, s, e, v);
      OnceAfter(g, rank, root, s, r, e, v, e);
    }
    if Distinct(Order(r.threads)) {
      DistinctBefore(Order(s.threads), v);
      assert !s.attached[v];
      forall u: nat, x: nat | IsSole(g, u, x) && r.attached[u] && u != v ensures Arrives(g, root, u, x) {
        assert u == e ==> x == v;
      }
    }
  }

  lemma ChainsAfterNew(g: Graph, s: Layout, e: nat)
    requires AreChains(g, s.threads) && e < |g| && s.Fits(g)
    ensures AreChains(g, s.OnNew(e).threads) && EndsWith(s.OnNew(e).threads, e)
  {
    assert IsChain(g, [e]);
  }

  lemma ChainsAfterLast(g: Graph, s: Layout, e: nat, v: nat)
    requires AreChains(g, s.threads) && s.Fits(g) && EndsWith(s.threads, e)
    requires v < |g| && IsSole(g, e, v) && !g[v].async
    ensures AreChains(g, s.OnLast(v).threads) && EndsWith(s.OnLast(v).threads, v)
  {
    var n := |s.threads| - 1;
    var t := s.threads[n] + [v];
    assert IsChain(g, s.threads[n]);
    forall i: nat | i < |t| - 1 ensures Joins(g, t, i) {
      assert i < |t| - 2 ==> Joins(g, s.threads[n], i);
    }
    assert IsChain(g, t);
    var threads := s.OnLast(v).threads;
    forall m | 0 <= m < |threads| ensures IsChain(g, threads[m]) {
      assert m < n ==> threads[m] == s.threads[m];
    }
  }

  /** A thread is opened for the entry, or for a consumer of an output that has several. */
  lemma OpeningIsSound(g: Graph, rank: seq<nat>, root: nat, s: Layout, e: nat, p: nat)
    requires Ranked(g, rank) && root < |g| && s.Fits(g) && Sound(g, root, s)
    requires e < |g| && !s.attached[e] && Reaches(g, root, e)
    requires e == root || (p < |g| && s.attached[p] && Arrives(g, root, p, e))
    ensures SoundAt(g, root, s.OnNew(e), e)
  {
    hide Marked, Followed, AreChains, Order, Exact, Reaches, EndsWith, Arrives, Ranked;
    var r := s.OnNew(e);
    OrderOnNew(s, e);
    MarkedAfter(g, root, s, r, e);
    ChainsAfterNew(g, s, e);
    FollowedAfter(g, Order(s.threads), e);
    ExactAfterOpening(g, rank, root, s, r, e, p);
  }

  /** The only consumer of the element placed last is placed. */
  lemma JoiningIsSound(g: Graph, rank: seq<nat>, root: nat, s: Layout, e: nat, v: nat)
    requires Ranked(g, rank) && root < |g| && s.Fits(g) && s.threads != []
    requires SoundAt(g, root, s, e) && e < |g| && v < |g| && IsSole(g, e, v)
    requires !s.attached[v] ==> Arrives(g, root, e, v)
    ensures SoundAt(g, root, Joined(g, s, v), v)
  {
    hide Marked, Exact, Followed, AreChains, Order, Reaches, EndsWith, Arrives, IsSole, IsEdge, Ranked;
    var r := Joined(g, s, v);
    SoleIsEdge(g, e, v);
    LastIsMarked(g, root, s, e);
    ReachesOn(g, root, e, v);
    JoinedExtends(g, s, e, v);
    MarkedAfter(g, root, s, r, v);
    FollowedByOnly(g, Order(s.threads), e, v);
    ExactAfterJoining(g, rank, root, s, r, e, v);
  }

  lemma JoinedExtends(g: Graph, s: Layout, e: nat, v: nat)
    requires AreChains(g, s.threads) && s.Fits(g) && EndsWith(s.threads, e)
    requires v < |g| && IsSole(g, e, v)
    ensures var r := Joined(g, s, v);
      && r.attached == s.attached[v := true] && Order(r.threads) == Order(s.threads) + [v]
      && AreChains(g, r.threads) && EndsWith(r.threads, v)
  {
    hide AreChains, Order, IsSole;
    if g[v].async {
      OrderOnNew(s, v);
      ChainsAfterNew(g, s, v);
    } else {
      OrderOnLast(s, v);
      ChainsAfterLast(g, s, e, v);
    }
  }

  lemma SoleConsumerWaits(g: Graph, root: nat, s: Layout, e: nat, v: nat)
    requires s.Fits(g) && Once(g, root, s, e) && v < |g| && IsSole(g, e, v) && Reaches(g, root, e)
    ensures !s.attached[v]
  {
  }

  /** An element without an only consumer needs no more than its place. */
  lemma RestIsSound(g: Graph, root: nat, s: Layout, e: nat)
    requires SoundAt(g, root, s, e) && e < |g| && |Next(g, e)| != 1
    ensures Sound(g, root, s)
  {
    hide Marked, AreChains, Order, Reaches, Arrives;
  }

  // ---- the whole walk --------------------------------------------------------------------------

  ghost predicate IsServed(g: Graph, s: Layout, u: nat)
    requires s.Fits(g) && u < |g|
  {
    forall v: nat :: IsEdge(g, u, v) && v < |g| ==> s.attached[v]
  }

  /** Nothing is taken off, and every element placed in between has all its consumers placed. */
  ghost predicate Serves(g: Graph, s: Layout, r: Layout) {
    && s.Fits(g) && r.Fits(g)
    && forall u: nat :: u < |g| ==> (s.attached[u] ==> r.attached[u]) && (r.attached[u] && !s.attached[u] ==> IsServed(g, r, u))
  }

  lemma ServesOn(g: Graph, s: Layout, m: Layout, r: Layout)
    requires Serves(g, s, m) && Serves(g, m, r)
    ensures Serves(g, s, r)
  {
    forall u: nat | u < |g| && r.attached[u] && !s.attached[u] ensures IsServed(g, r, u) {
      assert m.attached[u] ==> IsServed(g, m, u);
    }
  }

  /** One more element is placed, and served later. */
  lemma ServesAfter(g: Graph, s: Layout, m: Layout, r: Layout, e: nat)
    requires s.Fits(g) && e < |g| && m.attached == s.attached[e := true]
    requires Serves(g, m, r) && IsServed(g, r, e)
    ensures Serves(g, s, r) && r.attached[e]
  {
  }

  /** Elements of a rank below k have all their consumers placed if they are placed themselves. */
  ghost predicate Closed(g: Graph, rank: seq<nat>, s: Layout, k: nat)
    requires |rank| == |g|
  {
    s.Fits(g) && forall u: nat :: u < |g| && s.attached[u] && rank[u] < k ==> IsServed(g, s, u)
  }

  lemma ClosedOn(g: Graph, rank: seq<nat>, s: Layout, r: Layout, k: nat, m: nat)
    requires |rank| == |g| && Closed(g, rank, s, k) && Serves(g, s, r) && m <= k
    ensures Closed(g, rank, r, m)
  {
    forall u: nat | u < |g| && r.attached[u] && rank[u] < m ensures IsServed(g, r, u) {
      assert s.attached[u] ==> IsServed(g, s, u);
    }
  }

  lemma ClosedAfter(g: Graph, rank: seq<nat>, s: Layout, r: Layout, k: nat, e: nat)
    requires |rank| == |g| && Closed(g, rank, s, k) && e < |g| && rank[e] <= k
    requires r.attached == s.attached[e := true]
    ensures Closed(g, rank, r, rank[e])
  {
    forall u: nat | u < |g| && r.attached[u] && rank[u] < rank[e] ensures IsServed(g, r, u) {
      assert s.attached[u] && IsServed(g, s, u);
    }
  }

  /** A placed element below that rank is placed with everything it reaches. */
  lemma {:induction false} ClosedReaches(g: Graph, rank: seq<nat>, s: Layout, k: nat, p: seq<nat>)
    requires Ranked(g, rank) && Closed(g, rank, s, k) && IsTrail(g, p) && s.attached[p[0]] && rank[p[0]] < k
    ensures s.attached[p[|p| - 1]]
  {
    if |p| > 1 {
      hide IsTrail, IsEdge, IsServed;
      ShorterTrail(g, p);
      var q := p[..|p| - 1];
      assert q[0] == p[0] && q[|q| - 1] == p[|p| - 2];
      ClosedReaches(g, rank, s, k, q);
      RankFalls(g, rank, q);
      ServedEdge(g, s, p[|p| - 2], p[|p| - 1]);
    }
  }

  /** The route to an element that waits and that e leads to goes on from e. */
  ghost predicate OnTheWay(g: Graph, root: nat, e: nat, s: Layout) {
    s.Fits(g) && forall u: nat, v: nat :: v < |g| && !s.attached[v] && Arrives(g, e, u, v) ==> Arrives(g, root, u, v)
  }

  lemma OnTheWayLater(g: Graph, root: nat, e: nat, s: Layout, r: Layout)
    requires OnTheWay(g, root, e, s) && r.Fits(g)
    requires forall v :: 0 <= v < |g| && s.attached[v] ==> r.attached[v]
    ensures OnTheWay(g, root, e, r)
  {
  }

  /** All consumers of e listed before c are placed with everything they reach. */
  ghost predicate EarlierDone(g: Graph, e: nat, c: nat, s: Layout) {
    s.Fits(g) && forall d: nat, v: nat :: d < c && IsEdge(g, e, d) && v < |g| && Reaches(g, d, v) ==> s.attached[v]
  }

  /** Then the route goes on from c. */
  lemma OnTheWayToConsumer(g: Graph, root: nat, e: nat, c: nat, s: Layout)
    requires OnTheWay(g, root, e, s) && EarlierDone(g, e, c, s) && e < |g| && c < |g| && IsEdge(g, e, c)
    ensures OnTheWay(g, root, c, s)
    ensures !s.attached[c] ==> Arrives(g, root, e, c)
  {
    hide Arrives, Reaches, IsEdge;
    forall u: nat, v: nat | v < |g| && !s.attached[v] && Arrives(g, c, u, v) ensures Arrives(g, root, u, v) {
      ArrivesReaches(g, c, u, v);
      assert IsFirstTo(g, e, c, v);
      ArrivesFrom(g, e, c, u, v);
    }
    if !s.attached[c] {
      ReachesItself(g, c);
      assert IsFirstTo(g, e, c, c);
      ArrivesAtOnce(g, e, c);
    }
  }

  lemma BranchedIsDone(g: Graph, rank: seq<nat>, e: nat, k: nat, s: Layout)
    requires Ranked(g, rank) && e < |g| && k < |Next(g, e)| && s.Fits(g)
    requires Branched(g, e, k, s) && Closed(g, rank, s, rank[e])
    ensures EarlierDone(g, e, Next(g, e)[k], s)
  {
    hide Closed, IsEdge, Leads;
    var next := Next(g, e);
    forall d: nat, v: nat | d < next[k] && IsEdge(g, e, d) && v < |g| && Reaches(g, d, v) ensures s.attached[v] {
      var i := EdgeIndex(g, e, d);
      NextIncreases(g, e, k, i);
      var p :| IsTrail(g, p) && p[0] == d && p[|p| - 1] == v;
      ConsumerRanksLower(g, rank, e, i);
      ClosedReaches(g, rank, s, rank[e], p);
    }
  }

  lemma EdgeIndex(g: Graph, e: nat, d: nat) returns (i: nat)
    requires IsEdge(g, e, d)
    ensures e < |g| && i < |Next(g, e)| && Next(g, e)[i] == d
  {
    i :| i < |Next(g, e)| && Next(g, e)[i] == d;
  }

  lemma NextIncreases(g: Graph, e: nat, k: nat, i: nat)
    requires e < |g| && k < |Next(g, e)| && i < |Next(g, e)| && Next(g, e)[i] < Next(g, e)[k]
    ensures i < k
  {
    TakersAre(g, g[e].outputs[0], |g|);
  }

  lemma SoleIsDone(g: Graph, e: nat, v: nat, s: Layout)
    requires IsSole(g, e, v) && s.Fits(g)
    ensures EarlierDone(g, e, v, s)
  {
  }

  lemma {:induction false} AttachIsSound(g: Graph, rank: seq<nat>, root: nat, e: nat, p: nat, s: Layout)
    requires Ranked(g, rank) && root < |g| && s.Fits(g) && Sound(g, root, s) && e < |g| && Reaches(g, root, e)
    requires OnTheWay(g, root, e, s) && Closed(g, rank, s, rank[e])
    requires s.attached[e] || e == root || (p < |g| && s.attached[p] && Arrives(g, root, p, e))
    ensures var r := Attach(g, rank, e, s);
      Sound(g, root, r) && Serves(g, s, r) && r.attached[e]
    decreases rank[e], 2
  {
    hide Sound, SoundAt, Serves, Reaches, Walk, IsEdge, OnTheWay, Closed, Arrives;
    if s.attached[e] {
      assert Serves(g, s, s) by { ServesItself(g, s); }
    } else {
      OpeningIsSound(g, rank, root, s, e, p);
      OnTheWayLater(g, root, e, s, s.OnNew(e));
      ClosedAfter(g, rank, s, s.OnNew(e), rank[e], e);
      WalkIsSound(g, rank, root, e, s.OnNew(e));
      ServesAfter(g, s, s.OnNew(e), Attach(g, rank, e, s), e);
    }
  }

  lemma ServesKeeps(g: Graph, s: Layout, r: Layout, e: nat)
    requires Serves(g, s, r) && e < |g| && s.attached[e]
    ensures r.attached[e]
  {
  }

  lemma ServesGrows(g: Graph, s: Layout, r: Layout)
    requires Serves(g, s, r)
    ensures forall v :: 0 <= v < |g| && s.attached[v] ==> r.attached[v]
  {
  }

  lemma ServesItself(g: Graph, s: Layout)
    requires s.Fits(g)
    ensures Serves(g, s, s)
  {
  }

  lemma {:induction false} WalkIsSound(g: Graph, rank: seq<nat>, root: nat, e: nat, s: Layout)
    requires Ranked(g, rank) && root < |g| && e < |g| && s.Fits(g) && s.threads != [] && SoundAt(g, root, s, e)
    requires OnTheWay(g, root, e, s) && Closed(g, rank, s, rank[e])
    ensures var r := Walk(g, rank, e, s);
      Sound(g, root, r) && Serves(g, s, r) && IsServed(g, r, e)
    decreases rank[e], 1
  {
    hide Sound, SoundAt, Serves, Reaches, Attach, Branches, Joined, OnTheWay, Closed, Arrives, EarlierDone;
    var next, r := Next(g, e), Walk(g, rank, e, s);
    if |next| == 0 {
      RestIsSound(g, root, s, e);
      ServesItself(g, s);
    } else if |next| == 1 {
      var v := next[0];
      assert next == [v];
      ConsumerRanksLower(g, rank, e, 0);
      assert IsSole(g, e, v);
      SoleIsDone(g, e, v, s);
      OnTheWayToConsumer(g, root, e, v, s);
      JoiningIsSound(g, rank, root, s, e, v);
      var m := Joined(g, s, v);
      JoinedAttaches(g, s, v);
      OnTheWayLater(g, root, v, s, m);
      ClosedAfter(g, rank, s, m, rank[e], v);
      WalkIsSound(g, rank, root, v, m);
      ServesAfter(g, s, m, r, v);
    } else {
      RestIsSound(g, root, s, e);
      LastIsMarked(g, root, s, e);
      BranchesAreSound(g, rank, root, e, |next|, s);
      forall v: nat | IsEdge(g, e, v) && v < |g| ensures r.attached[v] {
        var i :| 0 <= i < |next| && next[i] == v;
      }
    }
  }

  lemma JoinedAttaches(g: Graph, s: Layout, v: nat)
    requires v < |g| == |s.attached| && s.threads != []
    ensures Joined(g, s, v).attached == s.attached[v := true] && Joined(g, s, v).threads != []
  {
  }

  lemma LastIsMarked(g: Graph, root: nat, s: Layout, e: nat)
    requires s.Fits(g) && SoundAt(g, root, s, e) && e < |g|
    ensures s.attached[e] && Reaches(g, root, e)
  {
    assert Order(s.threads)[|Order(s.threads)| - 1] in Order(s.threads);
  }

  /** The first k consumers of e are placed. */
  ghost predicate Branched(g: Graph, e: nat, k: nat, s: Layout)
    requires s.Fits(g) && e < |g| && k <= |Next(g, e)|
  {
    forall i :: 0 <= i < k ==> Next(g, e)[i] < |g| && s.attached[Next(g, e)[i]]
  }

  lemma BranchedStep(g: Graph, e: nat, k: nat, m: Layout, r: Layout)
    requires m.Fits(g) && r.Fits(g) && e < |g| && k <= |Next(g, e)|
    requires k > 0 ==> Next(g, e)[k - 1] < |g| && r.attached[Next(g, e)[k - 1]] && Branched(g, e, k - 1, m) && Serves(g, m, r)
    ensures Branched(g, e, k, r)
  {
  }

  lemma {:induction false} BranchesAreSound(g: Graph, rank: seq<nat>, root: nat, e: nat, k: nat, s: Layout)
    requires Ranked(g, rank) && root < |g| && s.Fits(g) && Sound(g, root, s)
    requires e < |g| && k <= |Next(g, e)| && Reaches(g, root, e) && s.attached[e]
    requires OnTheWay(g, root, e, s) && Closed(g, rank, s, rank[e])
    ensures var r := Branches(g, rank, e, k, s);
      Sound(g, root, r) && Serves(g, s, r) && Branched(g, e, k, r)
    decreases rank[e], 0, k
  {
    hide Sound, Reaches, Attach, Serves, Next, Branched, OnTheWay, Closed, Arrives, EarlierDone;
    if k == 0 {
      BranchedStep(g, e, k, s, s);
      ServesItself(g, s);
    } else {
      var v, m := Next(g, e)[k - 1], Branches(g, rank, e, k - 1, s);
      ConsumerRanksLower(g, rank, e, k - 1);
      BranchesAreSound(g, rank, root, e, k - 1, s);
      ReachesOn(g, root, e, v);
      ServesKeeps(g, s, m, e);
      ServesGrows(g, s, m);
      OnTheWayLater(g, root, e, s, m);
      ClosedOn(g, rank, s, m, rank[e], rank[e]);
      BranchedIsDone(g, rank, e, k - 1, m);
      OnTheWayToConsumer(g, root, e, v, m);
      ServesItself(g, m);
      ClosedOn(g, rank, m, m, rank[e], rank[v]);
      AttachIsSound(g, rank, root, v, e, m);
      ServesOn(g, s, m, Branches(g, rank, e, k, s));
      BranchedStep(g, e, k, m, Branches(g, rank, e, k, s));
    }
  }

  // ---- threads end only where they must ----------------------------------------------------------

  /** Behind the last element of the thread there is not one only consumer that is synchronous. */
  ghost predicate EndsRightly(g: Graph, t: seq<nat>) {
    && t != [] && t[|t| - 1] < |g|
    && forall v: nat :: IsSole(g, t[|t| - 1], v) ==> v < |g| && g[v].async
  }

  ghost predicate EndRightly(g: Graph, threads: seq<seq<nat>>) {
    forall n :: 0 <= n < |threads| ==> EndsRightly(g, threads[n])
  }

  /** The last thread, which ends with e, may still go on; the others end rightly. */
  ghost predicate GoesOn(g: Graph, threads: seq<seq<nat>>, e: nat) {
    threads != [] && EndsWith(threads, e) && EndRightly(g, threads[..|threads| - 1])
  }

  lemma NewGoesOn(g: Graph, s: Layout, e: nat)
    requires s.Fits(g) && EndRightly(g, s.threads) && e < |g|
    ensures GoesOn(g, s.OnNew(e).threads, e)
  {
    assert s.OnNew(e).threads[..|s.threads|] == s.threads;
  }

  lemma RestEndsRightly(g: Graph, s: Layout, e: nat)
    requires GoesOn(g, s.threads, e) && e < |g|
    requires forall v: nat :: IsSole(g, e, v) ==> v < |g| && g[v].async
    ensures EndRightly(g, s.threads)
  {
    var n := |s.threads| - 1;
    forall k | 0 <= k < |s.threads| ensures EndsRightly(g, s.threads[k]) {
      assert k < n ==> s.threads[..n][k] == s.threads[k];
    }
  }

  lemma JoinedGoesOn(g: Graph, s: Layout, e: nat, v: nat)
    requires s.Fits(g) && GoesOn(g, s.threads, e) && e < |g| && v < |g| && IsSole(g, e, v)
    ensures GoesOn(g, Joined(g, s, v).threads, v)
  {
    hide EndRightly, IsSole;
    if g[v].async {
      OnlyOne(g, e, v);
      RestEndsRightly(g, s, e);
      NewGoesOn(g, s, v);
    } else {
      var n := |s.threads| - 1;
      assert s.OnLast(v).threads[..n] == s.threads[..n];
    }
  }

  lemma OnlyOne(g: Graph, e: nat, v: nat)
    requires IsSole(g, e, v)
    ensures forall w: nat :: IsSole(g, e, w) ==> w == v
  {
  }

  lemma NoOnlyConsumer(g: Graph, e: nat)
    requires e < |g| && |Next(g, e)| != 1
    ensures forall w: nat :: !IsSole(g, e, w)
  {
  }

  lemma {:induction false} AttachEndsRightly(g: Graph, rank: seq<nat>, e: nat, s: Layout)
    requires Ranked(g, rank) && e < |g| && s.Fits(g) && EndRightly(g, s.threads)
    ensures EndRightly(g, Attach(g, rank, e, s).threads)
    decreases rank[e], 2
  {
    if !s.attached[e] {
      hide EndRightly, GoesOn, Walk, Ranked;
      NewGoesOn(g, s, e);
      WalkEndsRightly(g, rank, e, s.OnNew(e));
    }
  }

  lemma {:induction false} WalkEndsRightly(g: Graph, rank: seq<nat>, e: nat, s: Layout)
    requires Ranked(g, rank) && e < |g| && s.Fits(g) && s.threads != [] && GoesOn(g, s.threads, e)
    ensures EndRightly(g, Walk(g, rank, e, s).threads)
    decreases rank[e], 1
  {
    hide EndRightly, GoesOn, Branches;
    var next := Next(g, e);
    if |next| == 1 {
      ConsumerRanksLower(g, rank, e, 0);
      assert next == [next[0]];
      JoinedGoesOn(g, s, e, next[0]);
      WalkEndsRightly(g, rank, next[0], Joined(g, s, next[0]));
    } else {
      NoOnlyConsumer(g, e);
      RestEndsRightly(g, s, e);
      if |next| > 1 {
        BranchesEndRightly(g, rank, e, |next|, s);
      }
    }
  }

  lemma {:induction false} BranchesEndRightly(g: Graph, rank: seq<nat>, e: nat, k: nat, s: Layout)
    requires Ranked(g, rank) && e < |g| && k <= |Next(g, e)| && s.Fits(g) && EndRightly(g, s.threads)
    ensures EndRightly(g, Branches(g, rank, e, k, s).threads)
    decreases rank[e], 0, k
  {
    if k > 0 {
      hide EndRightly, Attach, Ranked, Next;
      ConsumerRanksLower(g, rank, e, k - 1);
      BranchesEndRightly(g, rank, e, k - 1, s);
      AttachEndsRightly(g, rank, Next(g, e)[k - 1], Branches(g, rank, e, k - 1, s));
    }
  }

  // ---- what a layout promises --------------------------------------------------------------------

  lemma ServedEdge(g: Graph, s: Layout, u: nat, v: nat)
    requires s.Fits(g) && u < |g| && v < |g| && IsServed(g, s, u) && IsEdge(g, u, v)
    ensures s.attached[v]
  {
  }

  function Blank(g: Graph): Layout {
    Layout([], seq(|g|, _ => false))
  }

  lemma BlankIsSound(g: Graph, rank: seq<nat>, root: nat)
    requires Ranked(g, rank) && root < |g|
    ensures Sound(g, root, Blank(g))
  {
    assert Order([]) == [];
  }

  /** The threads of a pipeline hold exactly the elements the entry reaches. */
  ghost predicate HoldsReached(g: Graph, root: nat, r: Layout) {
    && r.Fits(g)
    && forall j: nat :: j < |g| ==> (r.attached[j] <==> Reaches(g, root, j)) && (j in Order(r.threads) <==> Reaches(g, root, j))
  }

  /** An acyclic pipeline is laid onto threads completely: exactly the elements the entry reaches
      are placed; every thread is a chain of synchronous elements behind its first one, and ends only
      where no synchronous only consumer follows. Every
      element is placed once exactly if each sole consumer is first come to through its producer. */
  lemma LayoutIsComplete(g: Graph, rank: seq<nat>, root: nat)
    requires Ranked(g, rank) && root < |g|
    ensures var r := Attach(g, rank, root, Blank(g));
      && HoldsReached(g, root, r) && AreChains(g, r.threads) && EndRightly(g, r.threads)
      && Followed(g, Order(r.threads), |Order(r.threads)|)
      && (Distinct(Order(r.threads)) <==> SoleConsumersComeFirst(g, root))
  {
    hide Walk, Attach, Order, AreChains, Followed, Reaches, SoleConsumersComeFirst, Distinct, IsServed, Arrives, Exact;
    var s := Blank(g);
    BlankIsSound(g, rank, root);
    ReachesItself(g, root);
    AttachIsSound(g, rank, root, root, root, s);
    AttachEndsRightly(g, rank, root, s);
    var r := Attach(g, rank, root, s);
    forall j: nat | j < |g| && Reaches(g, root, j) ensures r.attached[j] {
      ReachedIsPlaced(g, rank, root, r, j);
    }
    ExactAtTheEnd(g, root, r);
  }

  lemma ExactAtTheEnd(g: Graph, root: nat, r: Layout)
    requires r.Fits(g) && Exact(g, root, r, -1)
    requires forall j: nat :: j < |g| && Reaches(g, root, j) ==> r.attached[j]
    ensures Distinct(Order(r.threads)) <==> SoleConsumersComeFirst(g, root)
  {
    hide Order, Reaches, Arrives, Distinct, Next;
  }

  lemma ReachedIsPlaced(g: Graph, rank: seq<nat>, root: nat, r: Layout, j: nat)
    requires Ranked(g, rank) && root < |g| && j < |g| && Reaches(g, root, j)
    requires Serves(g, Blank(g), r) && r.attached[root]
    ensures r.attached[j]
  {
    var p :| IsTrail(g, p) && p[0] == root && p[|p| - 1] == j;
    assert Closed(g, rank, r, rank[root] + 1);
    ClosedReaches(g, rank, r, rank[root] + 1, p);
  }

  /** If two elements that are reached share their only consumer, it is placed twice. */
  lemma SharedConsumerIsPlacedTwice(g: Graph, rank: seq<nat>, root: nat, u: nat, w: nat, v: nat)
    requires Ranked(g, rank) && root < |g| && u < |g| && w < |g| && u != w
    requires Reaches(g, root, u) && Reaches(g, root, w) && IsSole(g, u, v) && IsSole(g, w, v)
    ensures var order := Order(Attach(g, rank, root, Blank(g)).threads);
      exists i, j :: 0 <= i < j < |order| && order[i] == order[j] == v
  {
    hide Attach, Order, Reaches, AreChains, IsSole, SoleConsumersComeFirst, Distinct;
    LayoutIsComplete(g, rank, root);
    var order := Order(Attach(g, rank, root, Blank(g)).threads);
    var i := BehindProducer(g, order, u, v);
    var j := BehindProducer(g, order, w, v);
    if i < j {
      assert order[i] == order[j] == v;
    } else {
      assert order[j] == order[i] == v;
    }
  }

  lemma BehindProducer(g: Graph, order: seq<nat>, u: nat, v: nat) returns (i: nat)
    requires Followed(g, order, |order|) && u in order && IsSole(g, u, v)
    ensures 0 < i < |order| && order[i - 1] == u && order[i] == v
  {
    hide Next;
    var k: nat :| k < |order| && order[k] == u;
    assert IsFollowed(g, order, k);
    i := k + 1;
  }

  /** Some route leads to everything that is reached, and comes to it from a producer. */
  lemma {:induction false} RouteExists(g: Graph, rank: seq<nat>, e: nat, v: nat) returns (u: nat)
    requires Ranked(g, rank) && e < |g| && e != v && Reaches(g, e, v)
    ensures Arrives(g, e, u, v) && Reaches(g, e, u) && IsEdge(g, u, v) && u < |g|
    decreases rank[e]
  {
    hide IsEdge, IsTrail, IsFirstTo, Arrives;
    var c := FirstConsumer(g, e, v);
    FirstLeads(g, e, c, v);
    if c == v {
      u := e;
      ArrivesAtOnce(g, e, v);
      ReachesItself(g, e);
    } else {
      u := RouteExists(g, rank, c, v);
      ArrivesFrom(g, e, c, u, v);
      ReachesFrom(g, e, c, u);
    }
  }

  lemma FirstLeads(g: Graph, e: nat, c: nat, v: nat)
    requires IsFirstTo(g, e, c, v)
    ensures IsEdge(g, e, c) && Reaches(g, c, v)
  {
  }

  lemma ReachesFrom(g: Graph, e: nat, c: nat, v: nat)
    requires e < |g| && IsEdge(g, e, c) && Reaches(g, c, v)
    ensures Reaches(g, e, v)
  {
    var p :| IsTrail(g, p) && p[0] == c && p[|p| - 1] == v;
    var q := [e] + p;
    forall i: nat | i < |q| - 1 ensures Leads(g, q, i) {
      assert i > 0 ==> Leads(g, p, i - 1);
    }
  }

  /** The least consumer of e that leads to v. */
  lemma FirstConsumer(g: Graph, e: nat, v: nat) returns (c: nat)
    requires e < |g| && e != v && Reaches(g, e, v)
    ensures IsFirstTo(g, e, c, v) && c < |g| && v < |g|
  {
    hide IsEdge;
    var p :| IsTrail(g, p) && p[0] == e && p[|p| - 1] == v;
    LaterTrail(g, p);
    assert Reaches(g, p[1], v) by {
      var q := p[1..];
      assert q[0] == p[1] && q[|q| - 1] == v;
    }
    c := LeastLeading(g, e, v, p[1]);
  }

  lemma {:induction false} LeastLeading(g: Graph, e: nat, v: nat, d: nat) returns (c: nat)
    requires IsEdge(g, e, d) && Reaches(g, d, v)
    ensures IsFirstTo(g, e, c, v) && c <= d
  {
    hide IsEdge, Reaches;
    if b: nat :| b < d && IsEdge(g, e, b) && Reaches(g, b, v) {
      c := LeastLeading(g, e, v, b);
    } else {
      c := d;
    }
  }

  /** Where no sole consumer has a second producer, sole consumers come first in whatever order the
      elements are listed. */
  lemma OneProducerComesFirst(g: Graph, rank: seq<nat>, root: nat)
    requires Ranked(g, rank) && root < |g| && SoleConsumersHaveOneProducer(g, root)
    ensures SoleConsumersComeFirst(g, root)
  {
    hide Reaches, Arrives, IsEdge, Next;
    forall u: nat, v: nat | IsSole(g, u, v) && Reaches(g, root, u) ensures Arrives(g, root, u, v) {
      SoleIsEdge(g, u, v);
      NoWayBack(g, rank, root, u);
      assert v < |g|;
      ReachesOn(g, root, u, v);
      var w := RouteExists(g, rank, root, v);
    }
  }

  /** One producer for every element is more than enough. */
  lemma OneProducerEach(g: Graph, root: nat)
    requires forall u: nat, w: nat, v: nat | IsEdge(g, u, v) && IsEdge(g, w, v) :: u == w
    ensures SoleConsumersHaveOneProducer(g, root)
  {
    forall u: nat, w: nat, v: nat | IsSole(g, u, v) && IsEdge(g, w, v) ensures u == w {
      SoleIsEdge(g, u, v);
    }
  }
}
