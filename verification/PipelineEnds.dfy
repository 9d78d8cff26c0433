/** When laying a pipeline onto threads comes to an end: exactly if from no element that the entry
    reaches one can follow only consumers for ever. */
module PipelineEnds {
  import opened Options
  import opened Permutations
  import opened PipelineThreads

  // ---- the walk, for a number of steps -------------------------------------------------------------

  /** As Attach, on any pipeline, given up after n steps in depth. */
  function AttachFor(g: Graph, e: nat, s: Layout, n: nat): (r: Option<Layout>)
    requires e < |g| && s.Fits(g)
    ensures r.Some? ==> r.value.Fits(g) && (s.threads != [] ==> r.value.threads != [])
    decreases n, 1, 0
  {
    if s.attached[e] then Some(s) else WalkFor(g, e, s.OnNew(e), n)
  }

  function WalkFor(g: Graph, e: nat, s: Layout, n: nat): (r: Option<Layout>)
    requires e < |g| && s.Fits(g) && s.threads != []
    ensures r.Some? ==> r.value.Fits(g) && r.value.threads != []
    decreases n, 0, 0
  {
    if n == 0 then None
    else
      var next := Next(g, e);
      if |next| == 0 then Some(s)
      else if |next| == 1 then
        ConsumerExists(g, e, 0);
        WalkFor(g, next[0], Joined(g, s, next[0]), n - 1)
      else BranchesFor(g, e, |next|, s, n - 1)
  }

  function BranchesFor(g: Graph, e: nat, k: nat, s: Layout, n: nat): (r: Option<Layout>)
    requires e < |g| && k <= |Next(g, e)| && s.Fits(g)
    ensures r.Some? ==> r.value.Fits(g) && (s.threads != [] ==> r.value.threads != [])
    decreases n, 2, k
  {
    if k == 0 then Some(s)
    else
      match BranchesFor(g, e, k - 1, s, n)
      case None => None
      case Some(t) =>
        ConsumerExists(g, e, k - 1);
        AttachFor(g, Next(g, e)[k - 1], t, n)
  }

  lemma ConsumerExists(g: Graph, e: nat, i: nat)
    requires e < |g| && i < |Next(g, e)|
    ensures Next(g, e)[i] < |g| && IsEdge(g, e, Next(g, e)[i])
  {
    NextAre(g, e);
    assert Next(g, e)[i] in Next(g, e);
  }

  /** More steps do not change an outcome. */
  lemma {:induction false} MoreSteps(g: Graph, e: nat, s: Layout, n: nat, m: nat)
    requires e < |g| && s.Fits(g) && n <= m && AttachFor(g, e, s, n).Some?
    ensures AttachFor(g, e, s, m) == AttachFor(g, e, s, n)
    decreases n, 1, 0
  {
    if !s.attached[e] {
      MoreWalk(g, e, s.OnNew(e), n, m);
    }
  }

  lemma {:induction false} MoreWalk(g: Graph, e: nat, s: Layout, n: nat, m: nat)
    requires e < |g| && s.Fits(g) && s.threads != [] && n <= m && WalkFor(g, e, s, n).Some?
    ensures WalkFor(g, e, s, m) == WalkFor(g, e, s, n)
    decreases n, 0, 0
  {
    hide Next, AttachFor;
    var next := Next(g, e);
    if |next| == 1 {
      ConsumerExists(g, e, 0);
      MoreWalk(g, next[0], Joined(g, s, next[0]), n - 1, m - 1);
    } else if |next| > 1 {
      MoreBranches(g, e, |next|, s, n - 1, m - 1);
    }
  }

  lemma {:induction false} MoreBranches(g: Graph, e: nat, k: nat, s: Layout, n: nat, m: nat)
    requires e < |g| && k <= |Next(g, e)| && s.Fits(g) && n <= m && BranchesFor(g, e, k, s, n).Some?
    ensures BranchesFor(g, e, k, s, m) == BranchesFor(g, e, k, s, n)
    decreases n, 2, k
  {
    hide Next, AttachFor;
    if k > 0 {
      MoreBranches(g, e, k - 1, s, n, m);
      ConsumerExists(g, e, k - 1);
      MoreSteps(g, Next(g, e)[k - 1], BranchesFor(g, e, k - 1, s, n).value, n, m);
    }
  }

  // ---- on an acyclic pipeline ----------------------------------------------------------------------

  lemma {:induction false} AttachAgrees(g: Graph, rank: seq<nat>, e: nat, s: Layout, n: nat)
    requires Ranked(g, rank) && e < |g| && s.Fits(g) && AttachFor(g, e, s, n).Some?
    ensures AttachFor(g, e, s, n) == Some(Attach(g, rank, e, s))
    decreases n, 1, 0
  {
    hide Ranked;
    if !s.attached[e] {
      WalkAgrees(g, rank, e, s.OnNew(e), n);
    }
  }

  lemma {:induction false} WalkAgrees(g: Graph, rank: seq<nat>, e: nat, s: Layout, n: nat)
    requires Ranked(g, rank) && e < |g| && s.Fits(g) && s.threads != [] && WalkFor(g, e, s, n).Some?
    ensures WalkFor(g, e, s, n) == Some(Walk(g, rank, e, s))
    decreases n, 0, 0
  {
    hide Ranked, Next, Attach, AttachFor;
    var next := Next(g, e);
    if |next| == 1 {
      ConsumerExists(g, e, 0);
      WalkAgrees(g, rank, next[0], Joined(g, s, next[0]), n - 1);
    } else if |next| > 1 {
      BranchesAgree(g, rank, e, |next|, s, n - 1);
    }
  }

  lemma {:induction false} BranchesAgree(g: Graph, rank: seq<nat>, e: nat, k: nat, s: Layout, n: nat)
    requires Ranked(g, rank) && e < |g| && k <= |Next(g, e)| && s.Fits(g) && BranchesFor(g, e, k, s, n).Some?
    ensures BranchesFor(g, e, k, s, n) == Some(Branches(g, rank, e, k, s))
    decreases n, 2, k
  {
    hide Ranked, Next, Attach, AttachFor;
    if k > 0 {
      BranchesAgree(g, rank, e, k - 1, s, n);
      ConsumerExists(g, e, k - 1);
      AttachAgrees(g, rank, Next(g, e)[k - 1], BranchesFor(g, e, k - 1, s, n).value, n);
    }
  }

  // ---- following only consumers --------------------------------------------------------------------

  /** From e at most k only consumers follow one another. */
  ghost predicate StopsWithin(g: Graph, e: nat, k: nat)
    requires e < |g|
    decreases k
  {
    |Next(g, e)| == 1 ==>
      k > 0 && (ConsumerExists(g, e, 0); StopsWithin(g, Next(g, e)[0], k - 1))
  }

  ghost predicate Stops(g: Graph, e: nat)
    requires e < |g|
  {
    exists k: nat :: StopsWithin(g, e, k)
  }

  lemma StopsOn(g: Graph, e: nat, v: nat, k: nat)
    requires IsSole(g, e, v) && v < |g| && StopsWithin(g, v, k)
    ensures StopsWithin(g, e, k + 1)
  {
  }

  // ---- a run that ends -----------------------------------------------------------------------------

  /** From x one does not follow only consumers for ever, and its consumers are placed. */
  ghost predicate IsSettled(g: Graph, r: Layout, x: nat)
    requires r.Fits(g) && x < |g|
  {
    Stops(g, x) && forall v: nat :: v < |g| && IsEdge(g, x, v) ==> r.attached[v]
  }

  /** What was placed stays placed, and what is newly placed is reached and settled. */
  ghost predicate Settles(g: Graph, root: nat, s: Layout, r: Layout) {
    && s.Fits(g) && r.Fits(g)
    && (forall x :: 0 <= x < |g| && s.attached[x] ==> r.attached[x])
    && (forall x: nat :: x < |g| && r.attached[x] && !s.attached[x] ==> IsSettled(g, r, x) && Reaches(g, root, x))
  }

  /** The flags mark the placed elements. */
  ghost predicate IsListed(g: Graph, s: Layout) {
    s.Fits(g) && forall x: nat :: x < |g| ==> (s.attached[x] <==> x in Order(s.threads))
  }

  lemma SettlesOn(g: Graph, root: nat, s: Layout, t: Layout, r: Layout)
    requires Settles(g, root, s, t) && Settles(g, root, t, r)
    ensures Settles(g, root, s, r)
  {
    hide Reaches, IsEdge, Stops;
  }

  lemma SettlesPlaced(g: Graph, root: nat, s: Layout, t: Layout, r: Layout, e: nat)
    requires s.Fits(g) && e < |g| && t.attached == s.attached[e := true]
    requires Settles(g, root, t, r) && IsSettled(g, r, e) && Reaches(g, root, e)
    ensures Settles(g, root, s, r) && r.attached[e]
  {
    hide Reaches, IsEdge, Stops, IsSettled;
    assert t.attached[e];
  }

  lemma ListedOnNew(g: Graph, s: Layout, e: nat)
    requires IsListed(g, s) && e < |g|
    ensures IsListed(g, s.OnNew(e))
  {
    OrderOnNew(s, e);
  }

  lemma ListedJoined(g: Graph, s: Layout, e: nat)
    requires IsListed(g, s) && e < |g| && s.threads != []
    ensures IsListed(g, Joined(g, s, e)) && Joined(g, s, e).attached == s.attached[e := true]
  {
    OrderOnNew(s, e);
    OrderOnLast(s, e);
  }

  lemma {:induction false} AttachSettles(g: Graph, root: nat, e: nat, s: Layout, n: nat)
    requires e < |g| && IsListed(g, s) && Reaches(g, root, e) && AttachFor(g, e, s, n).Some?
    ensures var r := AttachFor(g, e, s, n).value;
      Settles(g, root, s, r) && IsListed(g, r) && r.attached[e]
    decreases n, 1, 0
  {
    hide Reaches, IsSettled, Order;
    if !s.attached[e] {
      ListedOnNew(g, s, e);
      WalkSettles(g, root, e, s.OnNew(e), n);
      SettlesPlaced(g, root, s, s.OnNew(e), AttachFor(g, e, s, n).value, e);
    }
  }

  lemma {:induction false} WalkSettles(g: Graph, root: nat, e: nat, s: Layout, n: nat)
    requires e < |g| && IsListed(g, s) && s.threads != [] && Reaches(g, root, e) && WalkFor(g, e, s, n).Some?
    ensures var r := WalkFor(g, e, s, n).value;
      Settles(g, root, s, r) && IsListed(g, r) && IsSettled(g, r, e)
    decreases n, 0, 0
  {
    hide Reaches, IsListed, Next, AttachFor;
    var next := Next(g, e);
    if |next| == 0 {
      assert StopsWithin(g, e, 0);
    } else if |next| == 1 {
      var v := next[0];
      ListedFits(g, s);
      ConsumerExists(g, e, 0);
      ReachesOn(g, root, e, v);
      ListedJoined(g, s, v);
      var t := Joined(g, s, v);
      WalkSettles(g, root, v, t, n - 1);
      SettlesPlaced(g, root, s, t, WalkFor(g, v, t, n - 1).value, v);
      SoleSettles(g, WalkFor(g, v, t, n - 1).value, e, v);
    } else {
      BranchesSettle(g, root, e, |next|, s, n - 1);
      assert StopsWithin(g, e, 0);
      EdgesAreNext(g, e);
    }
  }

  lemma EdgesAreNext(g: Graph, e: nat)
    requires e < |g|
    ensures forall v: nat :: IsEdge(g, e, v) ==> exists i :: 0 <= i < |Next(g, e)| && Next(g, e)[i] == v
  {
  }

  lemma SoleSettles(g: Graph, r: Layout, e: nat, v: nat)
    requires r.Fits(g) && e < |g| && v < |g| && Next(g, e) == [v] && r.attached[v] && IsSettled(g, r, v)
    ensures IsSettled(g, r, e)
  {
    var k: nat :| StopsWithin(g, v, k);
    StopsOn(g, e, v, k);
  }

  lemma {:induction false} BranchesSettle(g: Graph, root: nat, e: nat, k: nat, s: Layout, n: nat)
    requires e < |g| && k <= |Next(g, e)| && IsListed(g, s) && Reaches(g, root, e) && BranchesFor(g, e, k, s, n).Some?
    ensures var r := BranchesFor(g, e, k, s, n).value;
      Settles(g, root, s, r) && IsListed(g, r) && forall i :: 0 <= i < k ==> Next(g, e)[i] < |g| && r.attached[Next(g, e)[i]]
    decreases n, 2, k
  {
    hide Reaches, IsSettled, IsListed, Next, AttachFor;
    if k == 0 {
      ListedFits(g, s);
    } else {
      BranchesSettle(g, root, e, k - 1, s, n);
      var t := BranchesFor(g, e, k - 1, s, n).value;
      var v := Next(g, e)[k - 1];
      ConsumerExists(g, e, k - 1);
      ReachesOn(g, root, e, v);
      AttachSettles(g, root, v, t, n);
      SettlesOn(g, root, s, t, AttachFor(g, v, t, n).value);
    }
  }

  lemma ListedFits(g: Graph, s: Layout)
    requires IsListed(g, s)
    ensures s.Fits(g)
  {
  }

  /** Every reached element stops. */
  ghost predicate AllStop(g: Graph, root: nat) {
    forall u: nat :: u < |g| && Reaches(g, root, u) ==> Stops(g, u)
  }

  lemma {:induction false} SettledReaches(g: Graph, root: nat, r: Layout, p: seq<nat>)
    requires r.Fits(g) && IsTrail(g, p) && r.attached[p[0]]
    requires forall x: nat :: x < |g| && r.attached[x] ==> IsSettled(g, r, x)
    ensures r.attached[p[|p| - 1]]
  {
    if |p| > 1 {
      hide Stops, IsEdge;
      ShorterTrail(g, p);
      var q := p[..|p| - 1];
      SettledReaches(g, root, r, q);
      assert IsSettled(g, r, p[|p| - 2]);
      assert Leads(g, p, |p| - 2);
    }
  }

  /** A run that ends has placed exactly what the entry reaches, and each of that stops. */
  lemma EndedIsWhole(g: Graph, root: nat, n: nat)
    requires root < |g| && AttachFor(g, root, Blank(g), n).Some?
    ensures AllStop(g, root) && HoldsReached(g, root, AttachFor(g, root, Blank(g), n).value)
  {
    hide AttachFor, IsEdge, Stops;
    ReachesItself(g, root);
    assert IsListed(g, Blank(g)) by { assert Order([]) == []; }
    AttachSettles(g, root, root, Blank(g), n);
    var r := AttachFor(g, root, Blank(g), n).value;
    forall u: nat | u < |g| && Reaches(g, root, u) ensures r.attached[u] && Stops(g, u) {
      var p :| IsTrail(g, p) && p[0] == root && p[|p| - 1] == u;
      SettledReaches(g, root, r, p);
      assert IsSettled(g, r, u);
    }
  }

  // ---- what the threads of a run look like -------------------------------------------------------

  /** Chains that end only where they must, and every only consumer behind its producer. */
  ghost predicate WellFormed(g: Graph, threads: seq<seq<nat>>) {
    AreChains(g, threads) && EndRightly(g, threads) && Followed(g, Order(threads), |Order(threads)|)
  }

  /** Element e has just been placed; what follows it may still join. */
  ghost predicate Unfinished(g: Graph, threads: seq<seq<nat>>, e: nat) {
    && AreChains(g, threads) && GoesOn(g, threads, e)
    && Order(threads) != [] && Order(threads)[|Order(threads)| - 1] == e
    && Followed(g, Order(threads), |Order(threads)| - 1)
  }

  lemma NewIsUnfinished(g: Graph, s: Layout, e: nat)
    requires s.Fits(g) && e < |g| && WellFormed(g, s.threads)
    ensures Unfinished(g, s.OnNew(e).threads, e)
  {
    hide AreChains, EndRightly, Followed, Order;
    ChainsAfterNew(g, s, e);
    NewGoesOn(g, s, e);
    OrderOnNew(s, e);
    FollowedAfter(g, Order(s.threads), e);
  }

  lemma JoinedIsUnfinished(g: Graph, s: Layout, e: nat, v: nat)
    requires s.Fits(g) && s.threads != [] && e < |g| && v < |g| && Unfinished(g, s.threads, e) && IsSole(g, e, v)
    ensures Unfinished(g, Joined(g, s, v).threads, v)
  {
    hide AreChains, EndRightly, Followed, Order, IsSole;
    JoinedExtends(g, s, e, v);
    JoinedGoesOn(g, s, e, v);
    FollowedByOnly(g, Order(s.threads), e, v);
  }

  lemma RestIsWellFormed(g: Graph, s: Layout, e: nat)
    requires e < |g| && Unfinished(g, s.threads, e) && |Next(g, e)| != 1
    ensures WellFormed(g, s.threads)
  {
    hide AreChains, EndRightly, Order, Next;
    NoOnlyConsumer(g, e);
    RestEndsRightly(g, s, e);
  }

  lemma {:induction false} AttachForms(g: Graph, e: nat, s: Layout, n: nat)
    requires e < |g| && s.Fits(g) && AttachFor(g, e, s, n).Some? && WellFormed(g, s.threads)
    ensures WellFormed(g, AttachFor(g, e, s, n).value.threads)
    decreases n, 1, 0
  {
    if !s.attached[e] {
      hide WellFormed, Unfinished;
      NewIsUnfinished(g, s, e);
      WalkForms(g, e, s.OnNew(e), n);
    }
  }

  lemma {:induction false} WalkForms(g: Graph, e: nat, s: Layout, n: nat)
    requires e < |g| && s.Fits(g) && s.threads != [] && WalkFor(g, e, s, n).Some? && Unfinished(g, s.threads, e)
    ensures WellFormed(g, WalkFor(g, e, s, n).value.threads)
    decreases n, 0, 0
  {
    hide AttachFor, WellFormed, Unfinished;
    var next := Next(g, e);
    if |next| == 1 {
      ConsumerExists(g, e, 0);
      assert next == [next[0]];
      JoinedIsUnfinished(g, s, e, next[0]);
      WalkForms(g, next[0], Joined(g, s, next[0]), n - 1);
    } else {
      RestIsWellFormed(g, s, e);
      if |next| > 1 {
        BranchesForm(g, e, |next|, s, n - 1);
      }
    }
  }

  lemma {:induction false} BranchesForm(g: Graph, e: nat, k: nat, s: Layout, n: nat)
    requires e < |g| && k <= |Next(g, e)| && s.Fits(g) && BranchesFor(g, e, k, s, n).Some? && WellFormed(g, s.threads)
    ensures WellFormed(g, BranchesFor(g, e, k, s, n).value.threads)
    decreases n, 2, k
  {
    hide Next, AttachFor, WellFormed;
    if k > 0 {
      BranchesForm(g, e, k - 1, s, n);
      ConsumerExists(g, e, k - 1);
      AttachForms(g, Next(g, e)[k - 1], BranchesFor(g, e, k - 1, s, n).value, n);
    }
  }

  /** On whatever pipeline the walk ends, its threads are chains that end only where they must. */
  lemma EndedIsWellFormed(g: Graph, root: nat, n: nat)
    requires root < |g| && AttachFor(g, root, Blank(g), n).Some?
    ensures WellFormed(g, AttachFor(g, root, Blank(g), n).value.threads)
  {
    hide AttachFor;
    assert Order([]) == [];
    AttachForms(g, root, Blank(g), n);
  }

  // ---- a run that must end -------------------------------------------------------------------------

  ghost function Free(s: Layout): set<nat> {
    set x: nat | x < |s.attached| && !s.attached[x]
  }

  lemma PlacingFrees(s: Layout, t: Layout, e: nat)
    requires e < |s.attached| && t.attached == s.attached[e := true]
    ensures |Free(t)| <= |Free(s)|
    ensures !s.attached[e] ==> |Free(t)| < |Free(s)|
  {
    assert Free(t) == Free(s) - {e};
    if !s.attached[e] {
      assert e in Free(s);
    }
  }

  lemma GrowingFrees(g: Graph, s: Layout, r: Layout)
    requires s.Fits(g) && r.Fits(g) && forall x :: 0 <= x < |g| && s.attached[x] ==> r.attached[x]
    ensures |Free(r)| <= |Free(s)|
  {
    assert Free(r) <= Free(s);
    SubsetSize(Free(r), Free(s));
  }

  lemma {:induction false} AttachGrows(g: Graph, e: nat, s: Layout, n: nat)
    requires e < |g| && s.Fits(g) && AttachFor(g, e, s, n).Some?
    ensures forall x :: 0 <= x < |g| && s.attached[x] ==> AttachFor(g, e, s, n).value.attached[x]
    decreases n, 1, 0
  {
    if !s.attached[e] {
      WalkGrows(g, e, s.OnNew(e), n);
    }
  }

  lemma {:induction false} WalkGrows(g: Graph, e: nat, s: Layout, n: nat)
    requires e < |g| && s.Fits(g) && s.threads != [] && WalkFor(g, e, s, n).Some?
    ensures forall x :: 0 <= x < |g| && s.attached[x] ==> WalkFor(g, e, s, n).value.attached[x]
    decreases n, 0, 0
  {
    hide Next, AttachFor;
    var next := Next(g, e);
    if |next| == 1 {
      ConsumerExists(g, e, 0);
      WalkGrows(g, next[0], Joined(g, s, next[0]), n - 1);
    } else if |next| > 1 {
      BranchesGrow(g, e, |next|, s, n - 1);
    }
  }

  lemma {:induction false} BranchesGrow(g: Graph, e: nat, k: nat, s: Layout, n: nat)
    requires e < |g| && k <= |Next(g, e)| && s.Fits(g) && BranchesFor(g, e, k, s, n).Some?
    ensures forall x :: 0 <= x < |g| && s.attached[x] ==> BranchesFor(g, e, k, s, n).value.attached[x]
    decreases n, 2, k
  {
    hide Next, AttachFor;
    if k > 0 {
      BranchesGrow(g, e, k - 1, s, n);
      ConsumerExists(g, e, k - 1);
      AttachGrows(g, Next(g, e)[k - 1], BranchesFor(g, e, k - 1, s, n).value, n);
    }
  }

  /** Placing a new element takes it from the free ones; following a consumer shortens the way to a stop. */
  lemma {:induction false} AttachEnds(g: Graph, root: nat, e: nat, s: Layout) returns (n: nat)
    requires e < |g| && s.Fits(g) && AllStop(g, root) && Reaches(g, root, e)
    ensures AttachFor(g, e, s, n).Some?
    decreases |Free(s)|, 0, 0
  {
    n := 0;
    if !s.attached[e] {
      hide Reaches, StopsWithin, WalkFor, Free;
      PlacingFrees(s, s.OnNew(e), e);
      assert Stops(g, e);
      var k: nat :| StopsWithin(g, e, k);
      n := WalkEnds(g, root, e, s.OnNew(e), k);
    }
  }

  lemma {:induction false} WalkEnds(g: Graph, root: nat, e: nat, s: Layout, k: nat) returns (n: nat)
    requires e < |g| && s.Fits(g) && s.threads != [] && AllStop(g, root) && Reaches(g, root, e) && StopsWithin(g, e, k)
    ensures WalkFor(g, e, s, n).Some?
    decreases |Free(s)|, k + 1, 0
  {
    hide Reaches, Next, AllStop, AttachFor, BranchesFor, Free;
    var next := Next(g, e);
    if |next| == 0 {
      n := 1;
    } else if |next| == 1 {
      var v := next[0];
      ConsumerExists(g, e, 0);
      ReachesOn(g, root, e, v);
      PlacingFrees(s, Joined(g, s, v), v);
      var m := WalkEnds(g, root, v, Joined(g, s, v), k - 1);
      n := m + 1;
    } else {
      var m := BranchesEnd(g, root, e, |next|, s);
      n := m + 1;
    }
  }

  lemma {:induction false} BranchesEnd(g: Graph, root: nat, e: nat, k: nat, s: Layout) returns (n: nat)
    requires e < |g| && k <= |Next(g, e)| && s.Fits(g) && AllStop(g, root) && Reaches(g, root, e)
    ensures BranchesFor(g, e, k, s, n).Some?
    decreases |Free(s)|, 0, k
  {
    hide Reaches, Next, AllStop, AttachFor, Free;
    if k == 0 {
      n := 0;
    } else {
      var a := BranchesEnd(g, root, e, k - 1, s);
      var t := BranchesFor(g, e, k - 1, s, a).value;
      BranchesGrow(g, e, k - 1, s, a);
      GrowingFrees(g, s, t);
      ConsumerExists(g, e, k - 1);
      var v := Next(g, e)[k - 1];
      ReachesOn(g, root, e, v);
      var b := AttachEnds(g, root, v, t);
      n := if a < b then b else a;
      MoreBranches(g, e, k - 1, s, a, n);
      MoreSteps(g, v, t, b, n);
    }
  }

  // ---- cycles of only consumers --------------------------------------------------------------------

  /** Each element of p is the only consumer of the one before it, and the last is the first again. */
  ghost predicate IsSoleCycle(g: Graph, p: seq<nat>) {
    && |p| >= 2 && p[0] == p[|p| - 1]
    && forall i: nat :: i < |p| - 1 ==> SoleAt(g, p, i)
  }

  ghost predicate SoleAt(g: Graph, p: seq<nat>, i: nat)
    requires i < |p| - 1
  {
    IsSole(g, p[i], p[i + 1])
  }

  /** The entry reaches no cycle of only consumers. */
  ghost predicate NoSoleCycle(g: Graph, root: nat) {
    forall p :: IsSoleCycle(g, p) ==> !Reaches(g, root, p[0])
  }

  lemma {:induction false} CycleNeverStops(g: Graph, p: seq<nat>, i: nat, k: nat)
    requires IsSoleCycle(g, p) && i < |p| - 1
    ensures p[i] < |g| && !StopsWithin(g, p[i], k)
    decreases k
  {
    assert SoleAt(g, p, i);
    if k > 0 {
      CycleNeverStops(g, p, if i + 1 == |p| - 1 then 0 else i + 1, k - 1);
    }
  }

  /** The first k + 1 elements met when only consumers are followed from e. */
  ghost function Chain(g: Graph, e: nat, k: nat): (p: seq<nat>)
    requires e < |g| && !StopsWithin(g, e, k)
    ensures |p| == k + 1 && p[0] == e
    decreases k
  {
    if k == 0 then [e]
    else
      ConsumerExists(g, e, 0);
      [e] + Chain(g, Next(g, e)[0], k - 1)
  }

  ghost predicate IsSoleTrail(g: Graph, p: seq<nat>) {
    && (forall i :: 0 <= i < |p| ==> p[i] < |g|)
    && forall i: nat :: i < |p| - 1 ==> SoleAt(g, p, i)
  }

  lemma SoleExtended(g: Graph, e: nat, q: seq<nat>)
    requires IsSoleTrail(g, q) && q != [] && e < |g| && Next(g, e) == [q[0]]
    ensures IsSoleTrail(g, [e] + q)
  {
    var p := [e] + q;
    forall i: nat | i < |p| - 1 ensures SoleAt(g, p, i) {
      if i > 0 {
        assert SoleAt(g, q, i - 1);
      }
    }
  }

  lemma {:induction false} ChainIsSole(g: Graph, e: nat, k: nat)
    requires e < |g| && !StopsWithin(g, e, k)
    ensures IsSoleTrail(g, Chain(g, e, k))
    decreases k
  {
    if k > 0 {
      hide IsSoleTrail, Next;
      ConsumerExists(g, e, 0);
      var v := Next(g, e)[0];
      ChainIsSole(g, v, k - 1);
      SoleExtended(g, e, Chain(g, v, k - 1));
    }
  }

  lemma Repeats(p: seq<nat>, n: nat) returns (i: nat, j: nat)
    requires |p| > n && forall k :: 0 <= k < |p| ==> p[k] < n
    ensures i < j < |p| && p[i] == p[j]
  {
    if Distinct(p) {
      DistinctSize(p);
      BelowSize(n);
      InBelow(p, n);
      assert false;
    }
    i, j :| 0 <= i < j < |p| && p[i] == p[j];
  }

  lemma InBelow(p: seq<nat>, n: nat)
    requires forall k :: 0 <= k < |p| ==> p[k] < n
    ensures |Elements(p)| <= n
  {
    var e: set<int> := set x | x in p;
    forall x | x in e ensures x in Below(n) {
      var k :| 0 <= k < |p| && p[k] == x;
    }
    SubsetSize(e, Below(n));
    BelowSize(n);
    assert e == Elements(p);
  }

  lemma {:induction false} SoleTrailReaches(g: Graph, root: nat, p: seq<nat>, i: nat)
    requires i < |p| && IsSoleTrail(g, p)
    requires Reaches(g, root, p[0])
    ensures Reaches(g, root, p[i])
  {
    if i > 0 {
      hide Reaches;
      SoleTrailReaches(g, root, p, i - 1);
      assert SoleAt(g, p, i - 1);
      SoleIsEdge(g, p[i - 1], p[i]);
      ReachesOn(g, root, p[i - 1], p[i]);
    }
  }

  /** Where no cycle of only consumers is reached, following them comes to a stop, and conversely. */
  lemma StopsIffNoCycle(g: Graph, root: nat)
    ensures AllStop(g, root) <==> NoSoleCycle(g, root)
  {
    hide Reaches, IsSole, StopsWithin;
    if AllStop(g, root) {
      forall p | IsSoleCycle(g, p) ensures !Reaches(g, root, p[0]) {
        CycleNeverStops(g, p, 0, 0);
        if Stops(g, p[0]) {
          var k: nat :| StopsWithin(g, p[0], k);
          CycleNeverStops(g, p, 0, k);
          assert false;
        }
      }
    }
    if NoSoleCycle(g, root) {
      forall u: nat | u < |g| && Reaches(g, root, u) ensures Stops(g, u) {
        if !StopsWithin(g, u, |g|) {
          CycleFrom(g, root, u);
          assert false;
        }
      }
    }
  }

  lemma CycleFrom(g: Graph, root: nat, u: nat)
    requires u < |g| && Reaches(g, root, u) && !StopsWithin(g, u, |g|)
    ensures !NoSoleCycle(g, root)
  {
    hide Reaches, IsSole, StopsWithin, Chain;
    ChainIsSole(g, u, |g|);
    var p := Chain(g, u, |g|);
    var i, j := Repeats(p, |g|);
    SoleTrailReaches(g, root, p, i);
    var c := p[i..j + 1];
    forall k: nat | k < |c| - 1 ensures SoleAt(g, c, k) {
      assert SoleAt(g, p, i + k);
    }
    assert IsSoleCycle(g, c);
  }

  /** The walk comes to an end exactly if the entry reaches no cycle of only consumers. */
  lemma EndsIffNoCycle(g: Graph, root: nat)
    requires root < |g|
    ensures (exists n: nat :: AttachFor(g, root, Blank(g), n).Some?) <==> NoSoleCycle(g, root)
  {
    hide AttachFor, AllStop, NoSoleCycle;
    StopsIffNoCycle(g, root);
    if NoSoleCycle(g, root) {
      ReachesItself(g, root);
      var n := AttachEnds(g, root, root, Blank(g));
    }
    if n: nat :| AttachFor(g, root, Blank(g), n).Some? {
      EndedIsWhole(g, root, n);
    }
  }

  lemma {:induction false} RankStops(g: Graph, rank: seq<nat>, e: nat)
    requires Ranked(g, rank) && e < |g|
    ensures StopsWithin(g, e, rank[e])
    decreases rank[e]
  {
    if |Next(g, e)| == 1 {
      ConsumerRanksLower(g, rank, e, 0);
      var v := Next(g, e)[0];
      RankStops(g, rank, v);
      MoreStops(g, v, rank[v], rank[e] - 1);
    }
  }

  lemma {:induction false} MoreStops(g: Graph, e: nat, k: nat, m: nat)
    requires e < |g| && k <= m && StopsWithin(g, e, k)
    ensures StopsWithin(g, e, m)
    decreases k
  {
    if |Next(g, e)| == 1 {
      ConsumerExists(g, e, 0);
      MoreStops(g, Next(g, e)[0], k - 1, m - 1);
    }
  }

  lemma AcyclicStops(g: Graph, rank: seq<nat>, e: nat)
    requires Ranked(g, rank) && e < |g|
    ensures Stops(g, e)
  {
    RankStops(g, rank, e);
  }

  /** On an acyclic pipeline the walk ends, with the layout specified for it. */
  lemma AcyclicEnds(g: Graph, rank: seq<nat>, root: nat)
    requires Ranked(g, rank) && root < |g|
    ensures NoSoleCycle(g, root)
    ensures forall n: nat :: AttachFor(g, root, Blank(g), n).Some? ==>
      AttachFor(g, root, Blank(g), n) == Some(Attach(g, rank, root, Blank(g)))
  {
    hide Ranked, AttachFor, Attach, NoSoleCycle;
    forall u: nat | u < |g| && Reaches(g, root, u) ensures Stops(g, u) {
      AcyclicStops(g, rank, u);
    }
    StopsIffNoCycle(g, root);
    forall n: nat | AttachFor(g, root, Blank(g), n).Some?
      ensures AttachFor(g, root, Blank(g), n) == Some(Attach(g, rank, root, Blank(g)))
    {
      AttachAgrees(g, rank, root, Blank(g), n);
    }
  }

  // ---- beginnings of a run that ends ---------------------------------------------------------------

  lemma {:induction false} EarlierBranches(g: Graph, e: nat, i: nat, k: nat, s: Layout, n: nat)
    requires e < |g| && i <= k <= |Next(g, e)| && s.Fits(g) && BranchesFor(g, e, k, s, n).Some?
    ensures BranchesFor(g, e, i, s, n).Some?
    decreases k
  {
    if i < k {
      hide AttachFor, Next;
      EarlierBranches(g, e, i, k - 1, s, n);
    }
  }
}
