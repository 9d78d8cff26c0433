/** The last phase of the solver, which turns matched pairs along a shortest path, and the solver as a whole. */
module Solver {
  import opened Permutations
  import opened Assignment
  import opened ShortestPath
  import ColumnReduction
  import RowReduction

  /** The matching (x, y) after the first m columns of p have been given to their predecessors. */
  ghost predicate Turned(n: nat, x0: seq<int>, y0: seq<int>, pred: seq<int>, p: seq<int>, m: nat, x: seq<int>, y: seq<int>) {
    && |x0| == |y0| == |pred| == |x| == |y| == n && m <= |p| && InRange(p, n)
    && (forall t :: 0 <= t < |p| ==> 0 <= pred[p[t]] < n)
    && (forall t :: 0 <= t < m ==> y[p[t]] == pred[p[t]] && x[pred[p[t]]] == p[t])
    && (forall j :: 0 <= j < n && j !in p[..m] ==> y[j] == y0[j])
    && (forall i :: 0 <= i < n && (forall t :: 0 <= t < m ==> pred[p[t]] != i) ==> x[i] == x0[i])
  }

  /** The rows met along a path are pairwise different, and only the last one is the start row. */
  lemma RowsOnPath(n: nat, x: seq<int>, y: seq<int>, free: set<int>, start: int, pred: seq<int>, p: seq<int>)
    requires Matched(n, x, y, free) && start in free
    requires IsPath(n, start, y, pred, p)
    ensures forall t :: 0 <= t < |p| ==> 0 <= pred[p[t]] < n
    ensures forall t :: 0 <= t < |p| - 1 ==> pred[p[t]] != start && x[pred[p[t]]] == p[t + 1]
    ensures forall t, u :: 0 <= t < u < |p| ==> pred[p[t]] != pred[p[u]]
  {
    forall t | 0 <= t < |p| - 1
      ensures 0 <= pred[p[t]] < n && pred[p[t]] != start && x[pred[p[t]]] == p[t + 1]
    {
      assert 0 <= y[p[t + 1]] < n && pred[p[t + 1 - 1]] == y[p[t + 1]];
    }
    forall t, u | 0 <= t < u < |p| ensures pred[p[t]] != pred[p[u]] {
      if u < |p| - 1 {
        assert x[pred[p[t]]] == p[t + 1] && x[pred[p[u]]] == p[u + 1];
      }
    }
  }

  lemma TurnedStart(n: nat, x: seq<int>, y: seq<int>, free: set<int>, start: int, pred: seq<int>, p: seq<int>)
    requires Matched(n, x, y, free) && start in free
    requires IsPath(n, start, y, pred, p)
    ensures Turned(n, x, y, pred, p, 0, x, y)
  {
    RowsOnPath(n, x, y, free, start, pred, p);
  }

  lemma TurnStep(
    n: nat, x0: seq<int>, y0: seq<int>, free: set<int>, start: int, pred: seq<int>, p: seq<int>, m: nat, x: seq<int>, y: seq<int>)
    requires Matched(n, x0, y0, free) && start in free
    requires IsPath(n, start, y0, pred, p)
    requires Turned(n, x0, y0, pred, p, m, x, y) && m < |p|
    ensures 0 <= p[m] < n && 0 <= pred[p[m]] < n
    ensures pred[p[m]] == start <==> m == |p| - 1
    ensures m < |p| - 1 ==> x[pred[p[m]]] == p[m + 1]
    ensures Turned(n, x0, y0, pred, p, m + 1, x[pred[p[m]] := p[m]], y[p[m] := pred[p[m]]])
  {
    RowsOnPath(n, x0, y0, free, start, pred, p);
    var x', y' := x[pred[p[m]] := p[m]], y[p[m] := pred[p[m]]];
    assert p[..m + 1] == p[..m] + [p[m]];
    forall i | 0 <= i < n && (forall t :: 0 <= t < m + 1 ==> pred[p[t]] != i) ensures x'[i] == x0[i] {
      assert pred[p[m]] != i;
      assert forall t :: 0 <= t < m ==> pred[p[t]] != i;
    }
  }

  /** Turning the whole path frees no row, takes `start` off the free ones, and keeps slackness. */
  lemma TurnedPathKeepsState(
    cost: Matrix, n: nat, x0: seq<int>, y0: seq<int>, v: seq<real>, free: set<int>, start: int,
    pred: seq<int>, p: seq<int>, x: seq<int>, y: seq<int>)
    requires Square(cost, n)
    requires State(cost, n, x0, y0, v, free) && start in free
    requires IsPath(n, start, y0, pred, p) && y0[p[0]] < 0
    requires TightAlong(cost, n, v, pred, p)
    requires Turned(n, x0, y0, pred, p, |p|, x, y)
    ensures State(cost, n, x, y, v, free - {start})
    ensures forall j :: 0 <= j < n && y0[j] >= 0 ==> y[j] >= 0
  {
    RowsOnPath(n, x0, y0, free, start, pred, p);
    assert p[..|p|] == p;
    forall i | 0 <= i < n && i !in free - {start} ensures 0 <= x[i] < n && y[x[i]] == i {
      if t :| 0 <= t < |p| && pred[p[t]] == i {
        assert x[i] == p[t];
      } else {
        assert i != start by { assert pred[p[|p| - 1]] == start; }
        assert x[i] == x0[i] && y0[x0[i]] == i;
        OffPath(n, x0, y0, free, start, pred, p, i);
      }
    }
    forall j | 0 <= j < n ensures -1 <= y[j] < n && (y[j] >= 0 ==> y[j] !in free - {start} && x[y[j]] == j) {
      if t :| 0 <= t < |p| && p[t] == j {
        assert t < |p| - 1 ==> pred[p[t]] == y0[p[t + 1]];
      } else {
        assert y[j] == y0[j];
        if y[j] >= 0 {
          assert x0[y0[j]] == j;
          forall t | 0 <= t < |p| ensures pred[p[t]] != y[j] {
            assert t < |p| - 1 ==> x0[pred[p[t]]] == p[t + 1];
          }
        }
      }
    }
    assert Slack(cost, n, y, v) by {
      forall j | 0 <= j < n && y[j] >= 0 ensures Cheapest(cost, n, v, y[j], j) {
        if t :| 0 <= t < |p| && p[t] == j {
          assert Cheapest(cost, n, v, pred[p[t]], p[t]);
        } else {
          assert y[j] == y0[j];
        }
      }
    }
    forall j | 0 <= j < n && y[j] < 0 ensures exists i :: 0 <= i < n && cost[i][j] == v[j] {
      assert j !in p;
      assert y0[j] < 0;
    }
  }

  /** The column of a row that the path does not meet is not on the path. */
  lemma OffPath(n: nat, x: seq<int>, y: seq<int>, free: set<int>, start: int, pred: seq<int>, p: seq<int>, i: int)
    requires Matched(n, x, y, free) && start in free
    requires IsPath(n, start, y, pred, p) && y[p[0]] < 0
    requires 0 <= i < n && i !in free
    requires forall t :: 0 <= t < |p| ==> pred[p[t]] != i
    ensures x[i] !in p
  {
    forall t | 0 <= t < |p| ensures p[t] != x[i] {
      if t > 0 {
        assert pred[p[t - 1]] == y[p[t]];
      }
    }
  }

  /** A path has at most n columns. */
  lemma PathIsShort(n: nat, start: int, y: seq<int>, pred: seq<int>, p: seq<int>)
    requires IsPath(n, start, y, pred, p)
    ensures |p| <= n
  {
    DistinctSize(p);
    BelowSize(n);
    SubsetSize(Elements(p), Below(n));
  }

  lemma AnswerKeepsState(
    cost: Matrix, n: nat, x: seq<int>, y: seq<int>, v: seq<real>, free: set<int>, start: int,
    pred: seq<int>, w: seq<real>, path: seq<int>)
    requires Square(cost, n)
    requires State(cost, n, x, y, v, free)
    requires Answer(Problem(cost, n, start, y, v), pred, w, path)
    ensures State(cost, n, x, y, w, free)
    ensures IsPath(n, start, y, pred, path) && y[path[0]] < 0 && TightAlong(cost, n, w, pred, path)
  {
    forall i, j | 0 <= i < n && 0 <= j < n ensures w[j] <= cost[i][j] {
      assert w[j] <= v[j] <= cost[i][j];
    }
    forall j | 0 <= j < n && y[j] < 0 ensures exists i :: 0 <= i < n && cost[i][j] == w[j] {
      assert w[j] == v[j];
    }
  }

  /** Gives every column of the path to its predecessor, beginning at `final`: at each step the
      column the row held before is the next one to give away. */
  method TurnPath(
    n: nat, start: int, final: int, pred: array<int>, x: array<int>, y: array<int>,
    ghost free: set<int>, ghost path: seq<int>)
    returns (steps: nat)
    requires x != y && pred != x && pred != y
    requires x.Length == y.Length == pred.Length == n
    requires Matched(n, x[..], y[..], free) && start in free
    requires IsPath(n, start, y[..], pred[..], path) && final == path[0]
    modifies x, y
    ensures Turned(n, old(x[..]), old(y[..]), pred[..], path, |path|, x[..], y[..])
    ensures steps == |path| <= n
  {
    hide Matched, IsPath, Turned, InRange, Distinct;
    ghost var x0, y0, pr := x[..], y[..], pred[..];
    var i, j := -1, final;
    steps := 0;
    TurnedStart(n, x0, y0, free, start, pr, path);
    PathEnds(n, x0, y0, free, start, pr, path);
    while i != start
      invariant steps <= |path| && pred[..] == pr
      invariant Turned(n, x0, y0, pr, path, steps, x[..], y[..])
      invariant steps < |path| ==> j == path[steps]
      invariant i != start <==> steps < |path|
      decreases |path| - steps
    {
      ghost var xs, ys := x[..], y[..];
      TurnStep(n, x0, y0, free, start, pr, path, steps, xs, ys);
      i := pred[j];
      y[j] := i;
      var held := x[i];
      x[i] := j;
      j := held;
      steps := steps + 1;
      assert x[..] == xs[i := path[steps - 1]] && y[..] == ys[path[steps - 1] := i];
    }
    PathIsShort(n, start, y0, pr, path);
  }

  lemma PathEnds(n: nat, x: seq<int>, y: seq<int>, free: set<int>, start: int, pred: seq<int>, p: seq<int>)
    requires Matched(n, x, y, free) && start in free
    requires IsPath(n, start, y, pred, p)
    ensures |p| >= 1 && start >= 0
  {
  }

  method AugmentAll(
    cost: Matrix, n: nat, count: nat, freeRows: array<int>, x: array<int>, y: array<int>, v: array<real>)
    requires n >= 1 && Square(cost, n)
    requires freeRows != x && freeRows != y && x != y
    requires freeRows.Length == x.Length == y.Length == v.Length == n
    requires count <= n && Distinct(freeRows[..count])
    requires State(cost, n, x[..], y[..], v[..], Elements(freeRows[..count]))
    modifies x, y, v
    ensures State(cost, n, x[..], y[..], v[..], {})
  {
    hide State, Answer, Turned, IsPath, TightAlong, Slack;
    var pred := new int[n];
    ghost var rows := freeRows[..count];
    assert rows[0..] == rows;
    for p := 0 to count
      invariant freeRows[..count] == rows
      invariant State(cost, n, x[..], y[..], v[..], Elements(rows[p..]))
    {
      var start := freeRows[p];
      ghost var free := Elements(rows[p..]);
      ghost var xs, ys, vs := x[..], y[..], v[..];
      FirstIsFree(cost, n, xs, ys, vs, rows, p);
      var final, path := FindPath(cost, n, start, y, v, pred);
      AnswerKeepsState(cost, n, xs, ys, vs, free, start, pred[..], v[..], path);
      StateParts(cost, n, xs, ys, v[..], free);
      var steps := TurnPath(n, start, final, pred, x, y, free, path);
      TurnedPathKeepsState(cost, n, xs, ys, v[..], free, start, pred[..], path, x[..], y[..]);
    }
    assert Elements(rows[count..]) == {};
  }

  lemma StateParts(cost: Matrix, n: nat, x: seq<int>, y: seq<int>, v: seq<real>, free: set<int>)
    requires Square(cost, n) && State(cost, n, x, y, v, free)
    ensures Matched(n, x, y, free) && Slack(cost, n, y, v)
  {
  }

  lemma FirstIsFree(cost: Matrix, n: nat, x: seq<int>, y: seq<int>, v: seq<real>, rows: seq<int>, p: nat)
    requires n >= 1 && Square(cost, n) && p < |rows| && Distinct(rows)
    requires State(cost, n, x, y, v, Elements(rows[p..]))
    ensures rows[p] in Elements(rows[p..])
    ensures Elements(rows[p + 1..]) == Elements(rows[p..]) - {rows[p]}
    ensures Problem(cost, n, rows[p], y, v).Valid()
    ensures Slack(cost, n, y, v)
    ensures exists j :: 0 <= j < n && y[j] < 0
  {
    var rest := rows[p..];
    assert rest[0] == rows[p];
    assert rows[p..] == [rows[p]] + rows[p + 1..];
    assert rows[p] in Elements(rest);
    var j := FreeColumnExists(n, x, y, Elements(rest));
  }

  /** The solver. x and y may hold anything before; afterwards they are inverse permutations,
      and no other assignment of rows to columns is cheaper. The window [lo, hi] around the costs
      is what the sentinel allows. */
  method Solve(cost: Matrix, n: nat, x: array<int>, y: array<int>, ghost lo: real, ghost hi: real) returns (ret: int)
    requires n >= 1 && Square(cost, n) && Within(cost, lo, hi)
    requires x != y && x.Length == y.Length == n
    modifies x, y
    ensures ret == 0
    ensures IsPermutation(x[..], n) && IsPermutation(y[..], n)
    ensures forall i :: 0 <= i < n ==> y[x[i]] == i && x[y[i]] == i
    ensures Optimal(cost, n, x[..])
  {
    hide State, Slack, Matched, Optimal;
    var freeRows := new int[n];
    var v := new real[n];
    var count: nat := ColumnReduction.Reduce(cost, n, freeRows, x, y, v);
    var i := 0;
    while count > 0 && i < 2
      invariant count <= n && Distinct(freeRows[..count])
      invariant State(cost, n, x[..], y[..], v[..], Elements(freeRows[..count]))
      decreases 2 - i
    {
      ghost var tries;
      count, tries := RowReduction.ReduceRows(cost, n, count, freeRows, x, y, v, lo, hi);
      i := i + 1;
    }
    if count > 0 {
      AugmentAll(cost, n, count, freeRows, x, y, v);
      ret := 0;
    } else {
      assert Elements(freeRows[..count]) == {};
      ret := count;
    }
    StateParts(cost, n, x[..], y[..], v[..], {});
    CompleteMatching(n, x[..], y[..]);
    SlackIsOptimal(cost, n, x[..], y[..], v[..]);
  }

  lemma CompleteMatching(n: nat, x: seq<int>, y: seq<int>)
    requires Matched(n, x, y, {})
    ensures IsPermutation(x, n) && IsPermutation(y, n)
    ensures forall i :: 0 <= i < n ==> y[x[i]] == i && x[y[i]] == i
  {
    forall i, j | 0 <= i < j < n ensures x[i] != x[j] {
      assert y[x[i]] == i && y[x[j]] == j;
    }
    forall j | 0 <= j < n ensures y[j] >= 0 {
      PermutationIsOnto(x, n, j);
      var i :| 0 <= i < n && x[i] == j;
      assert y[x[i]] == i;
    }
    forall i, j | 0 <= i < j < n ensures y[i] != y[j] {
      assert x[y[i]] == i && x[y[j]] == j;
    }
  }
}
