/** The assignment problem: a complete matching of the rows of a square cost matrix with its
    columns, a price v[j] for every column, and what makes a matching optimal.
    The state predicates are those the solver keeps between its phases. */
module Assignment {
  import opened Permutations

  type Matrix = seq<seq<real>>

  /** The sentinel the solver starts its minima from. */
  const LARGE: real := 1000000.0

  predicate Square(cost: Matrix, n: nat) {
    && |cost| == n
    && forall i :: 0 <= i < n ==> |cost[i]| == n
  }

  /** All costs lie in a window [lo, hi] whose width the sentinel exceeds twice over. */
  ghost predicate Within(cost: Matrix, lo: real, hi: real) {
    && hi < LARGE
    && 2.0 * (hi - lo) < LARGE
    && forall i, j :: 0 <= i < |cost| && 0 <= j < |cost[i]| ==> lo <= cost[i][j] <= hi
  }

  /** The reduced cost of row i in column j. */
  function Reduced(cost: Matrix, v: seq<real>, i: int, j: int): real
    requires 0 <= i < |cost| && 0 <= j < |cost[i]| && j < |v|
  {
    cost[i][j] - v[j]
  }

  /** The costs that the matching p pays, row by row. */
  ghost function Paid(cost: Matrix, p: seq<int>): (paid: seq<real>)
    requires Square(cost, |p|) && InRange(p, |p|)
    ensures |paid| == |p|
  {
    seq(|p|, i requires 0 <= i < |p| => cost[i][p[i]])
  }

  ghost function Total(cost: Matrix, p: seq<int>): real
    requires Square(cost, |p|) && InRange(p, |p|)
  {
    Sum(Paid(cost, p))
  }

  ghost predicate Optimal(cost: Matrix, n: nat, p: seq<int>)
    requires Square(cost, n)
  {
    && IsPermutation(p, n)
    && forall q :: IsPermutation(q, n) ==> Total(cost, p) <= Total(cost, q)
  }

  /** Column j is a cheapest one for row i at the prices v. */
  ghost predicate Cheapest(cost: Matrix, n: nat, v: seq<real>, i: int, j: int)
    requires Square(cost, n) && |v| == n
  {
    && 0 <= i < n && 0 <= j < n
    && forall k :: 0 <= k < n ==> Reduced(cost, v, i, j) <= Reduced(cost, v, i, k)
  }

  /** x and y are inverse on every row outside `free`; no column points to a row in `free`.
      The entry x[i] of a free row is stale and says nothing. */
  ghost predicate Matched(n: nat, x: seq<int>, y: seq<int>, free: set<int>) {
    && |x| == n && |y| == n
    && free <= Below(n)
    && (forall i :: 0 <= i < n && i !in free ==> 0 <= x[i] < n && y[x[i]] == i)
    && (forall j :: 0 <= j < n ==> -1 <= y[j] < n)
    && (forall j :: 0 <= j < n && y[j] >= 0 ==> y[j] !in free && x[y[j]] == j)
  }

  /** Complementary slackness: an assigned column is a cheapest one for its row. */
  ghost predicate Slack(cost: Matrix, n: nat, y: seq<int>, v: seq<real>)
    requires Square(cost, n)
  {
    && |y| == n && |v| == n
    && forall j :: 0 <= j < n && y[j] >= 0 ==> Cheapest(cost, n, v, y[j], j)
  }

  /** Prices never exceed the costs of their column, and an unassigned column
      is still priced at its minimum. */
  ghost predicate Priced(cost: Matrix, n: nat, y: seq<int>, v: seq<real>)
    requires Square(cost, n)
  {
    && |y| == n && |v| == n
    && (forall i, j :: 0 <= i < n && 0 <= j < n ==> v[j] <= cost[i][j])
    && (forall j :: 0 <= j < n && y[j] < 0 ==> exists i :: 0 <= i < n && cost[i][j] == v[j])
  }

  /** What every phase of the solver keeps. */
  ghost predicate State(cost: Matrix, n: nat, x: seq<int>, y: seq<int>, v: seq<real>, free: set<int>)
    requires Square(cost, n)
  {
    && Matched(n, x, y, free)
    && Slack(cost, n, y, v)
    && Priced(cost, n, y, v)
  }

  /** As long as a row is free, some column is unassigned. */
  lemma FreeColumnExists(n: nat, x: seq<int>, y: seq<int>, free: set<int>) returns (j: int)
    requires Matched(n, x, y, free)
    requires free != {}
    ensures 0 <= j < n && y[j] < 0
  {
    if c :| 0 <= c < n && y[c] < 0 {
      j := c;
    } else {
      var i :| i in free;
      assert IsPermutation(y, n) by {
        forall j, k | 0 <= j < k < n ensures y[j] != y[k] {
          assert x[y[j]] == j && x[y[k]] == k;
        }
      }
      PermutationIsOnto(y, n, i);
      assert false;
    }
  }

  ghost function FreeColumns(y: seq<int>): set<int> {
    set j | 0 <= j < |y| && y[j] < 0
  }

  /** There are exactly as many unassigned columns as free rows. */
  lemma FreeRowsAreAsManyAsFreeColumns(n: nat, x: seq<int>, y: seq<int>, free: set<int>)
    requires Matched(n, x, y, free)
    ensures |free| == |FreeColumns(y)|
  {
    var rows := Below(n) - free;
    var columns := Below(n) - FreeColumns(y);
    BelowSize(n);
    Injection(rows, columns, x);
    Injection(columns, rows, y);
  }

  /** The bound that makes the sentinel safe: while a row is free, no price leaves
      [lo - (hi - lo), hi] and no reduced cost exceeds twice the width of the window. */
  lemma ReducedCostsStayBelowSentinel(
    cost: Matrix, n: nat, x: seq<int>, y: seq<int>, v: seq<real>, free: set<int>, lo: real, hi: real)
    requires Square(cost, n) && Within(cost, lo, hi)
    requires State(cost, n, x, y, v, free) && free != {}
    ensures forall j :: 0 <= j < n ==> lo - (hi - lo) <= v[j] <= hi
    ensures forall i, j :: 0 <= i < n && 0 <= j < n ==> 0.0 <= Reduced(cost, v, i, j) <= 2.0 * (hi - lo) < LARGE
  {
    var c := FreeColumnExists(n, x, y, free);
    var m :| 0 <= m < n && cost[m][c] == v[c];
    forall j | 0 <= j < n ensures lo - (hi - lo) <= v[j] <= hi {
      assert v[j] <= cost[m][j];
      if y[j] >= 0 {
        assert Reduced(cost, v, y[j], j) <= Reduced(cost, v, y[j], c);
      } else {
        var k :| 0 <= k < n && cost[k][j] == v[j];
      }
    }
  }

  /** Giving the free row i one of its cheapest columns j, whose price may fall from v[j] to w,
      frees the row that held j and nothing else. */
  lemma AssignKeepsState(
    cost: Matrix, n: nat, x: seq<int>, y: seq<int>, v: seq<real>, free: set<int>, i: int, j: int, w: real)
    requires Square(cost, n)
    requires State(cost, n, x, y, v, free)
    requires i in free && 0 <= j < n
    requires w <= v[j]
    requires Cheapest(cost, n, v[j := w], i, j)
    ensures State(cost, n, x[i := j], y[j := i], v[j := w], free - {i} + (if y[j] >= 0 then {y[j]} else {}))
  {
    var x', y', v' := x[i := j], y[j := i], v[j := w];
    var free' := free - {i} + (if y[j] >= 0 then {y[j]} else {});
    forall r | 0 <= r < n && r !in free' ensures 0 <= x'[r] < n && y'[x'[r]] == r {
      if r != i {
        assert r !in free;
        assert x[r] != j;
      }
    }
    forall k | 0 <= k < n && y'[k] >= 0 ensures y'[k] !in free' && x'[y'[k]] == k {
      if k != j {
        assert y[k] != i;
        assert x[y[k]] == k;
        assert y[j] >= 0 ==> x[y[j]] == j;
      }
    }
    forall k | 0 <= k < n && y'[k] >= 0 ensures Cheapest(cost, n, v', y'[k], k) {
      if k != j {
        assert Cheapest(cost, n, v, y[k], k);
        forall m | 0 <= m < n ensures Reduced(cost, v', y[k], k) <= Reduced(cost, v', y[k], m) {
          assert Reduced(cost, v, y[k], k) <= Reduced(cost, v, y[k], m);
        }
      }
    }
    forall k | 0 <= k < n && y'[k] < 0 ensures exists r :: 0 <= r < n && cost[r][k] == v'[k] {
      assert y[k] < 0;
      var r :| 0 <= r < n && cost[r][k] == v[k];
      assert cost[r][k] == v'[k];
    }
  }

  /** Lowering the price of an assigned column keeps the state as long as the column
      remains a cheapest one for its row. */
  lemma LowerPriceKeepsState(
    cost: Matrix, n: nat, x: seq<int>, y: seq<int>, v: seq<real>, free: set<int>, j: int, w: real)
    requires Square(cost, n)
    requires State(cost, n, x, y, v, free)
    requires 0 <= j < n && y[j] >= 0
    requires w <= v[j]
    requires Cheapest(cost, n, v[j := w], y[j], j)
    ensures State(cost, n, x, y, v[j := w], free)
  {
    var v' := v[j := w];
    forall k | 0 <= k < n && y[k] >= 0 ensures Cheapest(cost, n, v', y[k], k) {
      if k != j {
        assert Cheapest(cost, n, v, y[k], k);
        forall m | 0 <= m < n ensures Reduced(cost, v', y[k], k) <= Reduced(cost, v', y[k], m) {
          assert Reduced(cost, v, y[k], k) <= Reduced(cost, v, y[k], m);
        }
      }
    }
    forall k | 0 <= k < n && y[k] < 0 ensures exists r :: 0 <= r < n && cost[r][k] == v'[k] {
      var r :| 0 <= r < n && cost[r][k] == v[k];
      assert cost[r][k] == v'[k];
    }
  }

  /** Weak duality: whatever the prices, they bound the cost of every matching from below
      by what the cheapest columns pay. */
  lemma SlackIsOptimal(cost: Matrix, n: nat, x: seq<int>, y: seq<int>, v: seq<real>)
    requires Square(cost, n)
    requires Matched(n, x, y, {})
    requires Slack(cost, n, y, v)
    ensures Optimal(cost, n, x)
  {
    assert IsPermutation(x, n) by {
      forall i, j | 0 <= i < j < n ensures x[i] != x[j] {
        assert y[x[i]] == i && y[x[j]] == j;
      }
    }
    forall q | IsPermutation(q, n) ensures Total(cost, x) <= Total(cost, q) {
      var px, pq := Paid(cost, x), Paid(cost, q);
      var vx, vq := Along(v, x), Along(v, q);
      var rx := seq(n, i requires 0 <= i < n => px[i] - vx[i]);
      var rq := seq(n, i requires 0 <= i < n => pq[i] - vq[i]);
      forall i | 0 <= i < n ensures rx[i] <= rq[i] {
        assert Cheapest(cost, n, v, y[x[i]], x[i]);
        assert Reduced(cost, v, i, x[i]) <= Reduced(cost, v, i, q[i]);
      }
      SumMonotone(rx, rq);
      SumDifference(px, vx, rx);
      SumDifference(pq, vq, rq);
      SumAlongPermutation(v, x);
      SumAlongPermutation(v, q);
    }
  }
}
