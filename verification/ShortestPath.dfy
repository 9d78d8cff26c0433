/** The third phase of the solver: from a free row, a shortest alternating path to an unassigned
    column, where a step from row i to column j costs what j costs above i's own column.
    `cols` lists the columns in three runs: ready (final distance, below the current minimum),
    scan (at the minimum) and todo. */
module ShortestPath {
  import opened Permutations
  import opened Assignment

  /** The question: the start row, and the matching and prices it is asked under. */
  datatype Problem = Problem(cost: Matrix, n: nat, start: int, y: seq<int>, v: seq<real>) {
    ghost predicate Valid() {
      && n >= 1 && Square(cost, n) && |v| == |y| == n && 0 <= start < n
      && (forall j :: 0 <= j < n ==> -1 <= y[j] < n)
    }

    /** What column j costs row i above the cost of the row's own column c. */
    function Step(i: int, c: int, j: int): real
      requires Square(cost, n) && |v| == n
      requires 0 <= i < n && 0 <= c < n && 0 <= j < n
    {
      Reduced(cost, v, i, j) - Reduced(cost, v, i, c)
    }

    /** p reads from its last column back to its first: every column but p[0] is assigned, and is
        left through its row. */
    ghost predicate IsWalk(p: seq<int>) {
      && |p| >= 1 && InRange(p, n) && |y| == n
      && forall t :: 1 <= t < |p| ==> 0 <= y[p[t]] < n
    }

    ghost function Length(p: seq<int>): real
      requires Valid() && IsWalk(p)
    {
      if |p| == 1 then Reduced(cost, v, start, p[0])
      else
        assert IsWalk(p[1..]) by { TailIsWalk(p); }
        Length(p[1..]) + Step(y[p[1]], p[1], p[0])
    }

    lemma TailIsWalk(p: seq<int>)
      requires IsWalk(p) && |p| >= 2
      ensures IsWalk(p[1..]) && 0 <= y[p[1]] < n
    {
      forall t | 1 <= t < |p[1..]| ensures 0 <= y[p[1..][t]] < n {
        assert p[1..][t] == p[t + 1];
      }
    }
  }

  /** The labels of a search: distances d, predecessor rows pred, the order cols of the columns,
      and for every column the place in cols of the column it was reached through (or -1). */
  datatype Search = Search(cols: seq<int>, d: seq<real>, pred: seq<int>, from: seq<int>)

  ghost predicate Shape(q: Problem, s: Search) {
    && q.Valid()
    && IsPermutation(s.cols, q.n)
    && |s.d| == |s.pred| == |s.from| == q.n
  }

  /** The column at place k was reached from the start row, or through a column at an earlier
      place, one of the first h. */
  ghost predicate Branch(q: Problem, s: Search, h: nat, k: int)
    requires Shape(q, s) && 0 <= k < q.n
  {
    var j := s.cols[k];
    && -1 <= s.from[j] < k && s.from[j] < h
    && if s.from[j] < 0 then s.pred[j] == q.start && s.d[j] == Reduced(q.cost, q.v, q.start, j)
       else
         var c := s.cols[s.from[j]];
         q.y[c] >= 0 && s.pred[j] == q.y[c] && s.d[j] == s.d[c] + q.Step(q.y[c], c, j)
  }

  ghost predicate Tree(q: Problem, s: Search, h: nat)
    requires Shape(q, s)
  {
    forall k :: 0 <= k < q.n ==> Branch(q, s, h, k)
  }

  /** No column is farther than a direct step from the start row. */
  ghost predicate StartRelaxed(q: Problem, s: Search)
    requires Shape(q, s)
  {
    forall j :: 0 <= j < q.n ==> s.d[j] <= Reduced(q.cost, q.v, q.start, j)
  }

  /** Column j is no farther than through the assigned column c. */
  ghost predicate Relaxed(q: Problem, s: Search, c: int, j: int)
    requires Shape(q, s) && 0 <= c < q.n && 0 <= j < q.n
  {
    q.y[c] >= 0 && s.d[j] <= s.d[c] + q.Step(q.y[c], c, j)
  }

  ghost predicate AllRelaxed(q: Problem, s: Search, c: int)
    requires Shape(q, s) && 0 <= c < q.n
  {
    forall j :: 0 <= j < q.n ==> Relaxed(q, s, c, j)
  }

  /** The three runs of cols: ready up to `ready`, scan up to `hi`, todo from there. */
  ghost predicate Runs(q: Problem, s: Search, ready: nat, hi: nat, mind: real)
    requires Shape(q, s)
  {
    && ready < hi <= q.n
    && (forall k :: 0 <= k < ready ==> s.d[s.cols[k]] <= mind)
    && (forall k :: ready <= k < hi ==> s.d[s.cols[k]] == mind)
    && (forall k :: hi <= k < q.n ==> s.d[s.cols[k]] >= mind)
  }

  /** The columns before place `lo` have been scanned: they are assigned and everything is relaxed from them. */
  ghost predicate Scanned(q: Problem, s: Search, lo: nat)
    requires Shape(q, s)
  {
    forall k :: 0 <= k < lo && k < q.n ==> AllRelaxed(q, s, s.cols[k])
  }

  /** What holds once the ready and scan runs are set apart. */
  ghost predicate Base(q: Problem, s: Search, ready: nat, hi: nat, mind: real) {
    && Shape(q, s)
    && Tree(q, s, hi)
    && StartRelaxed(q, s)
    && Runs(q, s, ready, hi, mind)
    && Scanned(q, s, ready)
  }

  /** While the scan run holds only assigned columns, scanned up to place `lo`. */
  ghost predicate Frontier(q: Problem, s: Search, ready: nat, lo: nat, hi: nat, mind: real) {
    && Base(q, s, ready, hi, mind)
    && ready <= lo <= hi
    && Scanned(q, s, lo)
    && (forall k :: 0 <= k < hi ==> q.y[s.cols[k]] >= 0)
  }

  /** When the scan run is used up: the first lo columns are final. */
  ghost predicate Settled(q: Problem, s: Search, lo: nat) {
    && Shape(q, s) && lo <= q.n
    && Tree(q, s, lo)
    && StartRelaxed(q, s)
    && Scanned(q, s, lo)
    && (forall k, m :: 0 <= k < lo <= m < q.n ==> s.d[s.cols[k]] <= s.d[s.cols[m]])
    && (forall k :: 0 <= k < lo ==> q.y[s.cols[k]] >= 0)
  }

  // ---- finding the next minimum --------------------------------------------------------------

  /** The places from `lo` on are split at `hi`: equal to the minimum before it, above it behind. */
  ghost predicate Split(cols: seq<int>, d: seq<real>, lo: nat, hi: nat, k: nat, mind: real) {
    && lo < hi <= k <= |cols|
    && InRange(cols, |d|)
    && (forall m :: lo <= m < hi ==> d[cols[m]] == mind)
    && (forall m :: hi <= m < k ==> d[cols[m]] > mind)
  }

  ghost function Swap(cols: seq<int>, a: int, b: int): seq<int>
    requires 0 <= a < |cols| && 0 <= b < |cols|
  {
    cols[a := cols[b]][b := cols[a]]
  }

  lemma SwapIsPermutation(cols: seq<int>, n: nat, a: int, b: int)
    requires IsPermutation(cols, n) && 0 <= a < n && 0 <= b < n
    ensures IsPermutation(Swap(cols, a, b), n)
  {
    var t := Swap(cols, a, b);
    forall i, j | 0 <= i < j < n ensures t[i] != t[j] {
      assert t[i] == cols[if i == a then b else if i == b then a else i];
      assert t[j] == cols[if j == a then b else if j == b then a else j];
    }
  }

  lemma SplitStep(cols: seq<int>, d: seq<real>, lo: nat, hi: nat, k: nat, mind: real)
    requires Split(cols, d, lo, hi, k, mind) && k < |cols|
    ensures d[cols[k]] > mind ==> Split(cols, d, lo, hi, k + 1, mind)
    ensures d[cols[k]] == mind ==> Split(Swap(cols, k, hi), d, lo, hi + 1, k + 1, mind)
    ensures d[cols[k]] < mind ==> Split(Swap(cols, k, lo), d, lo, lo + 1, k + 1, d[cols[k]])
  {
  }

  method FindMinima(n: nat, lo: nat, d: array<real>, cols: array<int>) returns (hi: nat)
    requires d.Length == cols.Length == n && lo < n
    requires IsPermutation(cols[..], n)
    modifies cols
    ensures IsPermutation(cols[..], n)
    ensures cols[..lo] == old(cols[..lo])
    ensures lo < hi <= n && Split(cols[..], d[..], lo, hi, n, d[cols[lo]])
  {
    hide Split, IsPermutation;
    ghost var before := cols[..];
    ghost var cs, ds := cols[..], d[..];
    InPlace(cs, n, lo);
    hi := lo + 1;
    var mind := d[cols[lo]];
    SplitStart(cs, ds, lo, mind);
    for k := hi to n
      invariant lo < hi <= k
      invariant cols[..] == cs && d[..] == ds && IsPermutation(cs, n)
      invariant cs[..lo] == before[..lo]
      invariant Split(cs, ds, lo, hi, k, mind)
    {
      InPlace(cs, n, k);
      SplitStep(cs, ds, lo, hi, k, mind);
      var j := cols[k];
      if d[j] <= mind {
        if d[j] < mind {
          hi := lo;
          mind := d[j];
        }
        SwapIsPermutation(cs, n, k, hi);
        cs := Swap(cs, k, hi);
        cols[k] := cols[hi];
        cols[hi] := j;
        hi := hi + 1;
      }
    }
    SplitHead(cs, ds, lo, hi, n, mind);
    InPlace(cs, n, lo);
  }

  lemma InPlace(cols: seq<int>, n: nat, k: nat)
    requires IsPermutation(cols, n) && k < n
    ensures |cols| == n && 0 <= cols[k] < n
  {
  }

  lemma SplitStart(cols: seq<int>, d: seq<real>, lo: nat, mind: real)
    requires IsPermutation(cols, |d|) && lo < |d| && mind == d[cols[lo]]
    ensures Split(cols, d, lo, lo + 1, lo + 1, mind)
  {
  }

  lemma SplitHead(cols: seq<int>, d: seq<real>, lo: nat, hi: nat, k: nat, mind: real)
    requires Split(cols, d, lo, hi, k, mind)
    ensures 0 <= cols[lo] < |d| && d[cols[lo]] == mind
  {
  }

  /** Splitting off the next minima only permutes columns that no label refers to. */
  lemma MinimaBecomeScan(q: Problem, s: Search, cols: seq<int>, lo: nat, hi: nat, mind: real)
    requires Settled(q, s, lo) && lo < q.n
    requires IsPermutation(cols, q.n) && cols[..lo] == s.cols[..lo]
    requires Split(cols, s.d, lo, hi, q.n, mind)
    ensures Base(q, s.(cols := cols), lo, hi, mind)
    ensures (forall k :: lo <= k < hi ==> q.y[cols[k]] >= 0) ==> Frontier(q, s.(cols := cols), lo, lo, hi, mind)
  {
    var t := s.(cols := cols);
    assert forall k :: 0 <= k < lo ==> cols[k] == cols[..lo][k] == s.cols[..lo][k] == s.cols[k];
    forall k | 0 <= k < q.n ensures Branch(q, t, hi, k) {
      SamePlaces(q.n, s.cols, cols, lo, k);
      var m :| 0 <= m < q.n && s.cols[m] == cols[k] && (m < lo ==> m == k) && (k < lo ==> m == k);
      assert Branch(q, s, lo, m);
    }
    forall k | 0 <= k < lo ensures AllRelaxed(q, t, cols[k]) {
      assert AllRelaxed(q, s, s.cols[k]);
      forall j | 0 <= j < q.n ensures Relaxed(q, t, cols[k], j) {
        assert Relaxed(q, s, s.cols[k], j);
      }
    }
    forall k | 0 <= k < lo ensures t.d[cols[k]] <= mind {
      SamePlaces(q.n, s.cols, cols, lo, lo);
      var m :| 0 <= m < q.n && s.cols[m] == cols[lo] && (m < lo ==> m == lo);
      assert s.d[s.cols[k]] <= s.d[s.cols[m]];
    }
  }

  /** Where the column at place k stood before the places from lo on were permuted. */
  lemma SamePlaces(n: nat, before: seq<int>, after: seq<int>, lo: nat, k: nat)
    requires IsPermutation(before, n) && IsPermutation(after, n)
    requires lo <= n && before[..lo] == after[..lo] && k < n
    ensures exists m :: 0 <= m < n && before[m] == after[k] && (m < lo ==> m == k) && (k < lo ==> m == k)
  {
    PermutationIsOnto(before, n, after[k]);
    var m :| 0 <= m < n && before[m] == after[k];
    if m < lo {
      assert after[..lo][m] == before[..lo][m];
    }
    if k < lo {
      assert after[..lo][k] == before[..lo][k];
    }
  }

  // ---- scanning ------------------------------------------------------------------------------

  /** While the column c = cols[lo] is scanned: the todo places before k are relaxed from it. */
  ghost predicate Partial(q: Problem, s: Search, ready: nat, lo: nat, hi: nat, mind: real, k: nat) {
    && Frontier(q, s, ready, lo, hi, mind)
    && lo < hi <= k <= q.n
    && forall m :: hi <= m < k ==> Relaxed(q, s, s.cols[lo], s.cols[m])
  }

  /** The labels after column j has been reached through the column at place lo. */
  ghost function Reach(q: Problem, s: Search, lo: nat, j: int): Search
    requires Shape(q, s) && lo < q.n && 0 <= j < q.n && q.y[s.cols[lo]] >= 0
  {
    var c := s.cols[lo];
    var i := q.y[c];
    Search(s.cols, s.d[j := s.d[c] + q.Step(i, c, j)], s.pred[j := i], s.from[j := lo])
  }

  lemma ReachKeepsFrontier(q: Problem, s: Search, ready: nat, lo: nat, hi: nat, mind: real, k: nat)
    requires q.Valid() && Slack(q.cost, q.n, q.y, q.v)
    requires Partial(q, s, ready, lo, hi, mind, k) && k < q.n
    requires !Relaxed(q, s, s.cols[lo], s.cols[k])
    ensures Frontier(q, Reach(q, s, lo, s.cols[k]), ready, lo, hi, mind)
    ensures Partial(q, Reach(q, s, lo, s.cols[k]), ready, lo, hi, mind, k + 1)
  {
    var j, c := s.cols[k], s.cols[lo];
    var i := q.y[c];
    var t := Reach(q, s, lo, j);
    assert Cheapest(q.cost, q.n, q.v, i, c);
    assert q.Step(i, c, j) >= 0.0;
    forall m | 0 <= m < q.n ensures Branch(q, t, hi, m) {
      assert Branch(q, s, hi, m);
      if m != k {
        assert s.cols[m] != j;
        if s.from[s.cols[m]] >= 0 {
          assert s.cols[s.from[s.cols[m]]] != j;
        }
      }
    }
    forall m | 0 <= m < lo ensures AllRelaxed(q, t, s.cols[m]) {
      assert AllRelaxed(q, s, s.cols[m]);
      assert s.cols[m] != j;
      forall e | 0 <= e < q.n ensures Relaxed(q, t, s.cols[m], e) {
        assert Relaxed(q, s, s.cols[m], e);
      }
    }
    forall e | 0 <= e < q.n ensures t.d[e] <= Reduced(q.cost, q.v, q.start, e) {
      assert t.d[e] <= s.d[e];
    }
    assert Runs(q, t, ready, hi, mind) by {
      assert t.d[j] >= mind;
      assert forall m :: 0 <= m < q.n && m != k ==> t.d[s.cols[m]] == s.d[s.cols[m]];
    }
    forall m | hi <= m < k + 1 ensures Relaxed(q, t, c, s.cols[m]) {
      if m < k {
        assert Relaxed(q, s, c, s.cols[m]);
        assert s.cols[m] != j;
      }
    }
  }

  /** Places from hi on may be swapped: no label refers to them. */
  lemma SwapKeepsTree(q: Problem, s: Search, hi: nat, k: nat)
    requires Shape(q, s) && Tree(q, s, hi) && hi <= k < q.n
    ensures IsPermutation(Swap(s.cols, k, hi), q.n)
    ensures Tree(q, s.(cols := Swap(s.cols, k, hi)), hi + 1)
  {
    var t, h := s.(cols := Swap(s.cols, k, hi)), hi + 1;
    SwapIsPermutation(s.cols, q.n, k, hi);
    forall m | 0 <= m < q.n ensures Branch(q, t, h, m) {
      assert Branch(q, s, hi, if m == k then hi else if m == hi then k else m);
    }
  }

  /** A todo column that has come down to the minimum joins the scan run. */
  lemma JoinScan(q: Problem, s: Search, ready: nat, lo: nat, hi: nat, mind: real, k: nat)
    requires Partial(q, s, ready, lo, hi, mind, k + 1)
    requires hi <= k && s.d[s.cols[k]] == mind && q.y[s.cols[k]] >= 0
    ensures Partial(q, s.(cols := Swap(s.cols, k, hi)), ready, lo, hi + 1, mind, k + 1)
  {
    hide Branch, Tree;
    var t := s.(cols := Swap(s.cols, k, hi));
    SwapKeepsTree(q, s, hi, k);
    var cols := t.cols;
    forall m | 0 <= m < lo ensures AllRelaxed(q, t, cols[m]) {
      assert AllRelaxed(q, s, s.cols[m]);
      forall e | 0 <= e < q.n ensures Relaxed(q, t, cols[m], e) {
        assert Relaxed(q, s, s.cols[m], e);
      }
    }
    forall m | hi + 1 <= m < k + 1 ensures Relaxed(q, t, cols[lo], cols[m]) {
      assert Relaxed(q, s, s.cols[lo], s.cols[if m == k then hi else m]);
    }
  }

  lemma PassOver(q: Problem, s: Search, ready: nat, lo: nat, hi: nat, mind: real, k: nat)
    requires Partial(q, s, ready, lo, hi, mind, k) && k < q.n
    requires Relaxed(q, s, s.cols[lo], s.cols[k])
    ensures Partial(q, s, ready, lo, hi, mind, k + 1)
  {
  }

  lemma ColumnScanned(q: Problem, s: Search, ready: nat, lo: nat, hi: nat, mind: real)
    requires q.Valid() && Slack(q.cost, q.n, q.y, q.v)
    requires Partial(q, s, ready, lo, hi, mind, q.n)
    ensures Frontier(q, s, ready, lo + 1, hi, mind)
  {
    var c := s.cols[lo];
    assert Cheapest(q.cost, q.n, q.v, q.y[c], c);
    forall j | 0 <= j < q.n ensures Relaxed(q, s, c, j) {
      PermutationIsOnto(s.cols, q.n, j);
      var k :| 0 <= k < q.n && s.cols[k] == j;
      assert q.Step(q.y[c], c, j) >= 0.0;
    }
  }

  lemma ScanStart(q: Problem, s: Search, ready: nat, lo: nat, hi: nat, mind: real)
    requires Frontier(q, s, ready, lo, hi, mind) && lo < hi
    ensures Partial(q, s, ready, lo, hi, mind, hi)
    ensures q.Valid() && |s.cols| == q.n && 0 <= s.cols[lo] < q.n
    ensures 0 <= q.y[s.cols[lo]] < q.n && s.d[s.cols[lo]] == mind
  {
  }

  lemma PartialAt(q: Problem, s: Search, ready: nat, lo: nat, hi: nat, mind: real, k: nat)
    requires Partial(q, s, ready, lo, hi, mind, k) && k < q.n
    ensures lo < hi <= k && Shape(q, s)
    ensures |s.cols| == |s.d| == |s.pred| == |s.from| == q.n && 0 <= s.cols[k] < q.n
    ensures 0 <= s.cols[lo] < q.n && 0 <= q.y[s.cols[lo]] < q.n && s.d[s.cols[lo]] == mind
    ensures Base(q, s, ready, hi, mind)
  {
  }

  /** Relaxes the todo columns from the one at place lo. Returns an unassigned column that came
      down to the minimum, or -1. */
  method ScanColumn(
    ghost q: Problem, cost: Matrix, n: nat, lo: nat, hi: nat, d: array<real>, cols: array<int>, pred: array<int>,
    y: array<int>, v: array<real>, ghost from: seq<int>, ghost ready: nat, ghost mind: real)
    returns (found: int, hi': nat, ghost from': seq<int>)
    requires q == Problem(cost, n, q.start, y[..], v[..])
    requires d != v && cols != pred && cols != y && pred != y
    requires d.Length == cols.Length == pred.Length == y.Length == v.Length == n
    requires q.Valid() && Slack(cost, n, q.y, q.v)
    requires Frontier(q, Search(cols[..], d[..], pred[..], from), ready, lo, hi, mind) && lo < hi
    modifies d, cols, pred
    ensures found == -1 || (0 <= found < n && y[found] < 0 && d[found] == mind)
    ensures found != -1 ==> Base(q, Search(cols[..], d[..], pred[..], from'), ready, hi', mind)
    ensures found == -1 ==> Frontier(q, Search(cols[..], d[..], pred[..], from'), ready, lo + 1, hi', mind)
  {
    hide Partial, Frontier, Base, Slack, Shape;
    ghost var s := Search(cols[..], d[..], pred[..], from);
    hi', from' := hi, from;
    ScanStart(q, s, ready, lo, hi, mind);
    var c := cols[lo];
    var i := y[c];
    var least := d[c];
    var h := cost[i][c] - v[c] - least;
    for k := hi to n
      invariant hi' <= k
      invariant s == Search(cols[..], d[..], pred[..], from')
      invariant Partial(q, s, ready, lo, hi', mind, k)
      invariant s.cols[lo] == c
    {
      PartialAt(q, s, ready, lo, hi', mind, k);
      var j := cols[k];
      var reduced := cost[i][j] - v[j] - h;
      if reduced < d[j] {
        d[j] := reduced;
        pred[j] := i;
        from' := from'[j := lo];
        ReachKeepsFrontier(q, s, ready, lo, hi', mind, k);
        s := Reach(q, s, lo, j);
        if reduced == least {
          if y[j] < 0 {
            return j, hi', from';
          }
          JoinScan(q, s, ready, lo, hi', mind, k);
          s := s.(cols := Swap(s.cols, k, hi'));
          cols[k] := cols[hi'];
          cols[hi'] := j;
          hi' := hi' + 1;
        }
      } else {
        PassOver(q, s, ready, lo, hi', mind, k);
      }
    }
    ColumnScanned(q, s, ready, lo, hi', mind);
    found := -1;
  }

  lemma ScanEnds(q: Problem, s: Search, ready: nat, hi: nat, mind: real)
    requires Frontier(q, s, ready, hi, hi, mind)
    ensures Settled(q, s, hi)
  {
  }

  /** Scans until the scan run is used up or an unassigned column comes down to the minimum. In the
      latter case `lo` and `hi` keep the values the scan began with, whatever it did meanwhile;
      `reached` is where the scan run really ends. */
  method Scan(
    ghost q: Problem, cost: Matrix, n: nat, lo: nat, hi: nat, d: array<real>, cols: array<int>, pred: array<int>,
    y: array<int>, v: array<real>, ghost from: seq<int>, ghost mind: real)
    returns (found: int, lo': nat, hi': nat, ghost from': seq<int>, ghost reached: nat)
    requires q == Problem(cost, n, q.start, y[..], v[..])
    requires d != v && cols != pred && cols != y && pred != y
    requires d.Length == cols.Length == pred.Length == y.Length == v.Length == n
    requires q.Valid() && Slack(cost, n, q.y, q.v)
    requires Frontier(q, Search(cols[..], d[..], pred[..], from), lo, lo, hi, mind)
    modifies d, cols, pred
    ensures found == -1 || (0 <= found < n && y[found] < 0 && d[found] == mind)
    ensures found != -1 ==> lo' == lo && hi' == hi
    ensures found != -1 ==> Base(q, Search(cols[..], d[..], pred[..], from'), lo, reached, mind)
    ensures found == -1 ==> lo < lo' == hi' <= n && Settled(q, Search(cols[..], d[..], pred[..], from'), lo')
  {
    hide Frontier, Settled, Slack, Base;
    lo', hi', from', reached := lo, hi, from, hi;
    found := -1;
    FrontierBounds(q, Search(cols[..], d[..], pred[..], from), lo, lo, hi, mind);
    while lo' != hi'
      invariant lo <= lo' <= hi' <= n && lo < hi'
      invariant Frontier(q, Search(cols[..], d[..], pred[..], from'), lo, lo', hi', mind)
      decreases n - lo'
    {
      found, hi', from' := ScanColumn(q, cost, n, lo', hi', d, cols, pred, y, v, from', lo, mind);
      if found != -1 {
        return found, lo, hi, from', hi';
      }
      lo' := lo' + 1;
      FrontierBounds(q, Search(cols[..], d[..], pred[..], from'), lo, lo', hi', mind);
    }
    ScanEnds(q, Search(cols[..], d[..], pred[..], from'), lo, lo', mind);
  }

  lemma FrontierBounds(q: Problem, s: Search, ready: nat, lo: nat, hi: nat, mind: real)
    requires Frontier(q, s, ready, lo, hi, mind)
    ensures ready <= lo <= hi <= q.n && ready < hi
  {
  }

  // ---- what the labels mean at the end --------------------------------------------------------

  /** The columns from place k back to the start row. */
  ghost function Trail(q: Problem, s: Search, h: nat, k: int): (p: seq<int>)
    requires Shape(q, s) && Tree(q, s, h) && 0 <= k < q.n
    ensures |p| >= 1 && p[0] == s.cols[k]
    decreases k
  {
    assert Branch(q, s, h, k);
    [s.cols[k]] + if s.from[s.cols[k]] < 0 then [] else Trail(q, s, h, s.from[s.cols[k]])
  }

  /** p is what the predecessor links spell, from p[0] back to the start row, with no column twice. */
  ghost predicate IsPath(n: nat, start: int, y: seq<int>, pred: seq<int>, p: seq<int>) {
    && |p| >= 1 && |y| == |pred| == n && InRange(p, n) && Distinct(p)
    && pred[p[|p| - 1]] == start
    && forall t :: 1 <= t < |p| ==> 0 <= y[p[t]] < n && pred[p[t - 1]] == y[p[t]]
  }

  lemma {:induction false} TrailIsPath(q: Problem, s: Search, h: nat, k: int)
    requires Shape(q, s) && Tree(q, s, h) && 0 <= k < q.n
    ensures var p := Trail(q, s, h, k);
      && IsPath(q.n, q.start, q.y, s.pred, p)
      && (forall t :: 0 <= t < |p| ==> exists m :: 0 <= m <= k && p[t] == s.cols[m])
    decreases k
  {
    hide Tree, IsPath;
    assert Branch(q, s, h, k) by { BranchAt(q, s, h, k); }
    var m := s.from[s.cols[k]];
    if m >= 0 {
      TrailIsPath(q, s, h, m);
      var r := Trail(q, s, h, m);
      assert Trail(q, s, h, k) == [s.cols[k]] + r;
      forall t | 0 <= t < |r| ensures r[t] != s.cols[k] && exists m :: 0 <= m <= k && r[t] == s.cols[m] {
        var m' :| 0 <= m' <= m && r[t] == s.cols[m'];
      }
      PathExtends(q.n, q.start, q.y, s.pred, r, s.cols[k]);
    } else {
      assert Trail(q, s, h, k) == [s.cols[k]];
      PathOfOne(q.n, q.start, q.y, s.pred, s.cols[k]);
    }
  }

  lemma BranchAt(q: Problem, s: Search, h: nat, k: int)
    requires Shape(q, s) && Tree(q, s, h) && 0 <= k < q.n
    ensures Branch(q, s, h, k)
  {
  }

  lemma PathOfOne(n: nat, start: int, y: seq<int>, pred: seq<int>, j: int)
    requires |y| == |pred| == n && 0 <= j < n && pred[j] == start
    ensures IsPath(n, start, y, pred, [j])
  {
  }

  /** A path stays one when a column whose predecessor holds its first column is put before it. */
  lemma PathExtends(n: nat, start: int, y: seq<int>, pred: seq<int>, r: seq<int>, j: int)
    requires IsPath(n, start, y, pred, r) && 0 <= j < n && j !in r
    requires 0 <= y[r[0]] < n && pred[j] == y[r[0]]
    ensures IsPath(n, start, y, pred, [j] + r)
  {
    var p := [j] + r;
    forall t | 1 <= t < |p| ensures p[0] != p[t] && 0 <= y[p[t]] < n && pred[p[t - 1]] == y[p[t]] {
      assert p[t] == r[t - 1];
      assert t > 1 ==> p[t - 1] == r[t - 2];
    }
    assert forall t, u :: 1 <= t < u < |p| ==> p[t] == r[t - 1] && p[u] == r[u - 1];
  }

  lemma {:induction false} TrailLength(q: Problem, s: Search, h: nat, k: int)
    requires Shape(q, s) && Tree(q, s, h) && 0 <= k < q.n
    ensures q.IsWalk(Trail(q, s, h, k)) && q.Length(Trail(q, s, h, k)) == s.d[s.cols[k]]
    decreases k
  {
    TrailIsPath(q, s, h, k);
    assert Branch(q, s, h, k);
    var p := Trail(q, s, h, k);
    var m := s.from[s.cols[k]];
    if m >= 0 {
      TrailLength(q, s, h, m);
      assert p[1..] == Trail(q, s, h, m);
    }
  }

  /** Final labels: a column nearer than the minimum is assigned and everything is relaxed from it. */
  ghost predicate Final(q: Problem, s: Search, mind: real)
    requires Shape(q, s)
  {
    forall c :: 0 <= c < q.n && s.d[c] < mind ==> AllRelaxed(q, s, c)
  }

  lemma BaseIsFinal(q: Problem, s: Search, ready: nat, hi: nat, mind: real)
    requires Base(q, s, ready, hi, mind)
    ensures Final(q, s, mind)
  {
    forall c | 0 <= c < q.n && s.d[c] < mind ensures AllRelaxed(q, s, c) {
      PermutationIsOnto(s.cols, q.n, c);
      var k :| 0 <= k < q.n && s.cols[k] == c;
      assert k < ready;
    }
  }

  /** No walk from the start row to any column j is shorter than min(d[j], mind). */
  lemma {:induction false} NoShorterWalk(q: Problem, s: Search, mind: real, p: seq<int>)
    requires Shape(q, s) && StartRelaxed(q, s) && Final(q, s, mind)
    requires Slack(q.cost, q.n, q.y, q.v)
    requires q.IsWalk(p)
    ensures q.Length(p) >= mind || q.Length(p) >= s.d[p[0]]
  {
    if |p| > 1 {
      q.TailIsWalk(p);
      NoShorterWalk(q, s, mind, p[1..]);
      var c, j := p[1], p[0];
      assert Cheapest(q.cost, q.n, q.v, q.y[c], c);
      assert q.Step(q.y[c], c, j) >= 0.0;
      if s.d[c] < mind {
        assert AllRelaxed(q, s, c) && Relaxed(q, s, c, j);
      }
    }
  }

  /** The new prices: ready columns become cheaper by how much nearer than the minimum they are. */
  ghost predicate Repriced(q: Problem, s: Search, mind: real, w: seq<real>)
    requires Shape(q, s)
  {
    && |w| == q.n
    && forall j :: 0 <= j < q.n ==> w[j] == q.v[j] + (if s.d[j] < mind then s.d[j] - mind else 0.0)
  }

  /** Under the new prices every assigned column is still a cheapest one for its row. */
  lemma RepricingKeepsSlack(q: Problem, s: Search, mind: real, w: seq<real>)
    requires Shape(q, s) && StartRelaxed(q, s) && Final(q, s, mind) && Repriced(q, s, mind, w)
    requires Slack(q.cost, q.n, q.y, q.v)
    ensures Slack(q.cost, q.n, q.y, w)
  {
    forall c | 0 <= c < q.n && q.y[c] >= 0 ensures Cheapest(q.cost, q.n, w, q.y[c], c) {
      var i := q.y[c];
      assert Cheapest(q.cost, q.n, q.v, i, c);
      forall j | 0 <= j < q.n ensures Reduced(q.cost, w, i, c) <= Reduced(q.cost, w, i, j) {
        assert Reduced(q.cost, q.v, i, c) <= Reduced(q.cost, q.v, i, j);
        assert w[c] == q.v[c] + (if s.d[c] < mind then s.d[c] - mind else 0.0);
        assert w[j] == q.v[j] + (if s.d[j] < mind then s.d[j] - mind else 0.0);
        if s.d[c] < mind {
          assert AllRelaxed(q, s, c) && Relaxed(q, s, c, j);
        }
      }
    }
  }

  /** Under the new prices every column no farther than the minimum is a cheapest one for its predecessor. */
  lemma PredecessorsAreTight(q: Problem, s: Search, h: nat, mind: real, w: seq<real>, k: int)
    requires Shape(q, s) && StartRelaxed(q, s) && Final(q, s, mind) && Repriced(q, s, mind, w)
    requires Tree(q, s, h)
    requires Slack(q.cost, q.n, q.y, q.v)
    requires 0 <= k < q.n && s.d[s.cols[k]] <= mind
    ensures Cheapest(q.cost, q.n, w, s.pred[s.cols[k]], s.cols[k])
    ensures s.from[s.cols[k]] >= 0 ==> s.from[s.cols[k]] < k && s.d[s.cols[s.from[s.cols[k]]]] <= mind
  {
    assert Branch(q, s, h, k);
    var j := s.cols[k];
    if s.from[j] < 0 {
      forall e | 0 <= e < q.n ensures Reduced(q.cost, w, q.start, j) <= Reduced(q.cost, w, q.start, e) {
        assert w[e] == q.v[e] + (if s.d[e] < mind then s.d[e] - mind else 0.0);
        assert w[j] == q.v[j] + (if s.d[j] < mind then s.d[j] - mind else 0.0);
        assert s.d[e] <= Reduced(q.cost, q.v, q.start, e);
      }
    } else {
      var c := s.cols[s.from[j]];
      var i := q.y[c];
      assert Cheapest(q.cost, q.n, q.v, i, c);
      assert q.Step(i, c, j) >= 0.0;
      RepricingKeepsSlack(q, s, mind, w);
      assert Cheapest(q.cost, q.n, w, i, c);
      assert w[c] == q.v[c] + (if s.d[c] < mind then s.d[c] - mind else 0.0);
      assert w[j] == q.v[j] + (if s.d[j] < mind then s.d[j] - mind else 0.0);
      assert Reduced(q.cost, w, i, j) == Reduced(q.cost, w, i, c);
      forall e | 0 <= e < q.n ensures Reduced(q.cost, w, i, j) <= Reduced(q.cost, w, i, e) {
        assert Reduced(q.cost, w, i, c) <= Reduced(q.cost, w, i, e);
      }
    }
  }

  /** Every column of p is a cheapest one, at the prices w, for the row it is to be given to. */
  ghost predicate TightAlong(cost: Matrix, n: nat, w: seq<real>, pred: seq<int>, p: seq<int>)
    requires Square(cost, n) && |w| == |pred| == n && InRange(p, n)
  {
    forall t :: 0 <= t < |p| ==> Cheapest(cost, n, w, pred[p[t]], p[t])
  }

  lemma {:induction false} TrailIsTight(q: Problem, s: Search, h: nat, mind: real, w: seq<real>, k: int)
    requires Shape(q, s) && StartRelaxed(q, s) && Final(q, s, mind) && Repriced(q, s, mind, w)
    requires Tree(q, s, h)
    requires Slack(q.cost, q.n, q.y, q.v)
    requires 0 <= k < q.n && s.d[s.cols[k]] <= mind
    ensures InRange(Trail(q, s, h, k), q.n) && TightAlong(q.cost, q.n, w, s.pred, Trail(q, s, h, k))
    decreases k
  {
    assert Branch(q, s, h, k);
    PredecessorsAreTight(q, s, h, mind, w, k);
    var m := s.from[s.cols[k]];
    if m >= 0 {
      TrailIsTight(q, s, h, mind, w, m);
    }
  }

  /** What the search promises: `path` leads from the unassigned column p[0] back to the start row
      along pred, is tight at the new prices w, which keep slackness and touch no unassigned
      column, and no walk to an unassigned column is shorter. */
  ghost predicate Answer(q: Problem, pred: seq<int>, w: seq<real>, path: seq<int>) {
    && q.Valid() && |w| == q.n
    && IsPath(q.n, q.start, q.y, pred, path) && q.y[path[0]] < 0
    && TightAlong(q.cost, q.n, w, pred, path)
    && Slack(q.cost, q.n, q.y, w)
    && (forall j :: 0 <= j < q.n ==> w[j] <= q.v[j] && (q.y[j] < 0 ==> w[j] == q.v[j]))
    && q.IsWalk(path)
    && (forall p :: q.IsWalk(p) && q.y[p[0]] < 0 ==> q.Length(path) <= q.Length(p))
  }

  lemma SearchAnswers(q: Problem, s: Search, ready: nat, hi: nat, mind: real, final: int, w: seq<real>) returns (path: seq<int>)
    requires Base(q, s, ready, hi, mind) && Slack(q.cost, q.n, q.y, q.v)
    requires 0 <= final < q.n && q.y[final] < 0 && s.d[final] == mind
    requires forall j :: 0 <= j < q.n && q.y[j] < 0 ==> s.d[j] >= mind
    requires Repriced(q, s, mind, w)
    ensures Answer(q, s.pred, w, path) && path[0] == final
  {
    hide Slack, Tree, Scanned, Runs, TightAlong, IsPath, Trail;
    BaseIsFinal(q, s, ready, hi, mind);
    PermutationIsOnto(s.cols, q.n, final);
    var k :| 0 <= k < q.n && s.cols[k] == final;
    path := Trail(q, s, hi, k);
    TrailIsPath(q, s, hi, k);
    TrailLength(q, s, hi, k);
    TrailIsTight(q, s, hi, mind, w, k);
    RepricingKeepsSlack(q, s, mind, w);
    forall p | q.IsWalk(p) && q.y[p[0]] < 0 ensures q.Length(path) <= q.Length(p) {
      NoShorterWalk(q, s, mind, p);
    }
  }

  /** Prices changed on the first k columns of the search give, at the end of the ready run, the new prices. */
  lemma RepricedByRuns(q: Problem, s: Search, ready: nat, hi: nat, mind: real, w: seq<real>)
    requires Base(q, s, ready, hi, mind) && |w| == q.n
    requires forall m :: 0 <= m < q.n ==>
      w[s.cols[m]] == q.v[s.cols[m]] + (if m < ready then s.d[s.cols[m]] - mind else 0.0)
    ensures Repriced(q, s, mind, w)
    ensures forall j :: 0 <= j < q.n && q.y[j] < 0 ==> s.d[j] >= mind
  {
    forall j | 0 <= j < q.n
      ensures w[j] == q.v[j] + (if s.d[j] < mind then s.d[j] - mind else 0.0)
      ensures q.y[j] < 0 ==> s.d[j] >= mind
    {
      PermutationIsOnto(s.cols, q.n, j);
      var m :| 0 <= m < q.n && s.cols[m] == j;
      if m < ready {
        assert AllRelaxed(q, s, j);
        assert Relaxed(q, s, j, j);
      }
    }
  }

  lemma SearchStarts(q: Problem, s: Search)
    requires q.Valid() && |s.cols| == |s.d| == |s.pred| == |s.from| == q.n
    requires forall k :: 0 <= k < q.n ==>
      s.cols[k] == k && s.pred[k] == q.start && s.from[k] == -1 && s.d[k] == Reduced(q.cost, q.v, q.start, k)
    ensures Settled(q, s, 0)
  {
    forall k | 0 <= k < q.n ensures Branch(q, s, 0, k) {
      assert s.cols[k] == k;
    }
  }

  /** As long as an unassigned column exists, the search is not over. */
  lemma ColumnsAreLeft(q: Problem, s: Search, lo: nat, j: int)
    requires Settled(q, s, lo) && 0 <= j < q.n && q.y[j] < 0
    ensures lo < q.n
    ensures Shape(q, s)
  {
    PermutationIsOnto(s.cols, q.n, j);
    var k :| 0 <= k < q.n && s.cols[k] == j;
  }

  method FindPath(cost: Matrix, n: nat, start: int, y: array<int>, v: array<real>, pred: array<int>)
    returns (final: int, ghost path: seq<int>)
    requires y.Length == v.Length == pred.Length == n && pred != y
    requires Problem(cost, n, start, y[..], v[..]).Valid()
    requires Slack(cost, n, y[..], v[..])
    requires exists j :: 0 <= j < n && y[j] < 0
    modifies v, pred
    ensures Answer(Problem(cost, n, start, y[..], old(v[..])), pred[..], v[..], path)
    ensures final == path[0]
  {
    hide Slack, Settled, Base, Frontier, Split, Shape, Repriced, Answer, IsPermutation;
    ghost var q := Problem(cost, n, start, y[..], v[..]);
    ghost var unassigned :| 0 <= unassigned < n && y[unassigned] < 0;
    var cols := new int[n];
    var d := new real[n];
    for i := 0 to n
      invariant v[..] == q.v
      invariant forall k :: 0 <= k < i ==> cols[k] == k && pred[k] == start && d[k] == cost[start][k] - v[k]
    {
      cols[i] := i;
      pred[i] := start;
      d[i] := cost[start][i] - v[i];
    }
    ghost var from := seq(n, _ => -1);
    SearchStarts(q, Search(cols[..], d[..], pred[..], from));
    var lo, hi, nReady := 0, 0, 0;
    ghost var reached, least := 0, 0.0;
    final := -1;
    while final == -1
      invariant v[..] == q.v
      invariant final == -1 ==> lo == hi && Settled(q, Search(cols[..], d[..], pred[..], from), lo)
      invariant final != -1 ==> 0 <= final < n && y[final] < 0 && d[final] == least && nReady == lo
      invariant final != -1 ==> Base(q, Search(cols[..], d[..], pred[..], from), lo, reached, least)
      decreases if final == -1 then n + 1 - lo else 0
    {
      ColumnsAreLeft(q, Search(cols[..], d[..], pred[..], from), lo, unassigned);
      if lo == hi {
        nReady := lo;
        hi, final, least := NextMinima(q, n, lo, d, cols, pred, y, from);
        reached := hi;
      }
      if final == -1 {
        final, lo, hi, from, reached := Scan(q, cost, n, lo, hi, d, cols, pred, y, v, from, least);
      }
    }
    Reprice(q, n, nReady, d, cols, v, pred, from, reached, least);
    path := SearchAnswers(q, Search(cols[..], d[..], pred[..], from), nReady, reached, least, final, v[..]);
  }

  /** Splits off the next scan run and looks for an unassigned column in it. */
  method NextMinima(
    ghost q: Problem, n: nat, lo: nat, d: array<real>, cols: array<int>, pred: array<int>, y: array<int>, ghost from: seq<int>)
    returns (hi: nat, final: int, ghost least: real)
    requires n == q.n && q.y == y[..] && cols != y && cols != pred
    requires d.Length == cols.Length == pred.Length == y.Length == n && lo < n
    requires Settled(q, Search(cols[..], d[..], pred[..], from), lo)
    modifies cols
    ensures lo < hi <= n
    ensures final == -1 || (0 <= final < n && y[final] < 0 && d[final] == least)
    ensures Base(q, Search(cols[..], d[..], pred[..], from), lo, hi, least)
    ensures final == -1 ==> Frontier(q, Search(cols[..], d[..], pred[..], from), lo, lo, hi, least)
  {
    hide Settled, Base, Frontier;
    ghost var s := Search(cols[..], d[..], pred[..], from);
    SettledShape(q, s, lo);
    hi := FindMinima(n, lo, d, cols);
    least := d[cols[lo]];
    final := -1;
    for k := lo to hi
      invariant final == -1 ==> forall m :: lo <= m < k ==> y[cols[m]] >= 0
      invariant final == -1 || (0 <= final < n && y[final] < 0 && d[final] == least)
    {
      var j := cols[k];
      if y[j] < 0 {
        final := j;
      }
    }
    MinimaBecomeScan(q, s, cols[..], lo, hi, least);
    assert s.(cols := cols[..]) == Search(cols[..], d[..], pred[..], from);
  }

  lemma SettledShape(q: Problem, s: Search, lo: nat)
    requires Settled(q, s, lo)
    ensures Shape(q, s)
  {
  }

  /** Raises or lowers nothing but the ready columns. */
  method Reprice(
    ghost q: Problem, n: nat, nReady: nat, d: array<real>, cols: array<int>, v: array<real>,
    ghost pred: array<int>, ghost from: seq<int>, ghost reached: nat, ghost least: real)
    requires n == q.n && q.v == v[..] && v != d
    requires d.Length == cols.Length == pred.Length == v.Length == n
    requires Base(q, Search(cols[..], d[..], pred[..], from), nReady, reached, least)
    modifies v
    ensures Repriced(q, Search(cols[..], d[..], pred[..], from), least, v[..])
    ensures forall j :: 0 <= j < n && q.y[j] < 0 ==> d[j] >= least
  {
    hide Base, Repriced;
    ghost var s := Search(cols[..], d[..], pred[..], from);
    BaseRuns(q, s, nReady, reached, least);
    var mind := d[cols[nReady]];
    for k := 0 to nReady
      invariant d[..] == s.d && cols[..] == s.cols
      invariant forall m :: 0 <= m < n ==>
        v[s.cols[m]] == q.v[s.cols[m]] + (if m < k then s.d[s.cols[m]] - mind else 0.0)
    {
      var j := cols[k];
      v[j] := v[j] + (d[j] - mind);
    }
    RepricedByRuns(q, s, nReady, reached, least, v[..]);
  }

  lemma BaseRuns(q: Problem, s: Search, ready: nat, hi: nat, mind: real)
    requires Base(q, s, ready, hi, mind)
    ensures Shape(q, s) && ready < q.n && s.d[s.cols[ready]] == mind
  {
  }
}
