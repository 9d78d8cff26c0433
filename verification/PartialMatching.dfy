/** Matching some rows of a rectangular cost matrix with some of its columns, where leaving a
    pair out costs as much as a limit, and the square problem it is turned into. */
module PartialMatching {
  import opened Permutations
  import opened Assignment

  predicate Rectangular(cost: Matrix, r: nat, c: nat) {
    && |cost| == r
    && forall i :: 0 <= i < r ==> |cost[i]| == c
  }

  /** m gives every row a column below c or -1, and no column twice. */
  ghost predicate IsPartial(m: seq<int>, r: nat, c: nat) {
    && |m| == r
    && (forall i :: 0 <= i < r ==> -1 <= m[i] < c)
    && (forall i, k :: 0 <= i < k < r && m[i] >= 0 ==> m[i] != m[k])
  }

  /** What each row contributes: its cost above the limit, if it is matched. */
  ghost function Excess(cost: Matrix, c: nat, limit: real, m: seq<int>): (excess: seq<real>)
    requires Rectangular(cost, |m|, c) && IsPartial(m, |m|, c)
    ensures |excess| == |m|
  {
    seq(|m|, i requires 0 <= i < |m| => if m[i] >= 0 then cost[i][m[i]] - limit else 0.0)
  }

  ghost function Value(cost: Matrix, c: nat, limit: real, m: seq<int>): real
    requires Rectangular(cost, |m|, c) && IsPartial(m, |m|, c)
  {
    Sum(Excess(cost, c, limit, m))
  }

  ghost predicate Best(cost: Matrix, r: nat, c: nat, limit: real, m: seq<int>)
    requires Rectangular(cost, r, c)
  {
    && IsPartial(m, r, c)
    && forall k :: IsPartial(k, r, c) ==> Value(cost, c, limit, m) <= Value(cost, c, limit, k)
  }

  /** An entry of the square problem: the given costs, half the limit for leaving a row or a
      column alone, and nothing between two additional lines. */
  function Entry(cost: Matrix, r: nat, c: nat, limit: real, i: nat, j: nat): real
    requires Rectangular(cost, r, c) && i < r + c && j < r + c
  {
    if i < r && j < c then cost[i][j] else if i >= r && j >= c then 0.0 else limit / 2.0
  }

  ghost predicate Extends(cost: Matrix, r: nat, c: nat, limit: real, square: Matrix)
    requires Rectangular(cost, r, c)
  {
    && Square(square, r + c)
    && forall i, j :: 0 <= i < r + c && 0 <= j < r + c ==> square[i][j] == Entry(cost, r, c, limit, i, j)
  }

  /** The partial matching inside an assignment of the square problem. */
  function Inside(p: seq<int>, r: nat, c: nat): (m: seq<int>)
    requires r <= |p|
  {
    seq(r, i requires 0 <= i < r => if p[i] < c then p[i] else -1)
  }

  lemma InsideIsPartial(p: seq<int>, r: nat, c: nat)
    requires IsPermutation(p, r + c)
    ensures IsPartial(Inside(p, r, c), r, c)
  {
    var m := Inside(p, r, c);
    forall i, k | 0 <= i < k < r && m[i] >= 0 ensures m[i] != m[k] {
      assert p[i] != p[k];
    }
  }

  /** w on the first k of n places, nothing behind. */
  ghost function Leading(n: nat, k: nat, w: real): seq<real> {
    seq(n, i => if i < k then w else 0.0)
  }

  /** A row of the square problem pays its excess and half a limit, if it is a real row, and
      another half if the column it takes is real. */
  lemma PaidByRow(cost: Matrix, r: nat, c: nat, limit: real, square: Matrix, p: seq<int>, i: nat)
    requires Rectangular(cost, r, c) && Extends(cost, r, c, limit, square)
    requires IsPermutation(p, r + c) && i < r + c
    requires IsPartial(Inside(p, r, c), r, c)
    ensures Paid(square, p)[i] ==
      (if i < r then Excess(cost, c, limit, Inside(p, r, c))[i] + limit / 2.0 else 0.0)
      + (if p[i] < c then limit / 2.0 else 0.0)
  {
    assert square[i][p[i]] == Entry(cost, r, c, limit, i, p[i]);
  }

  /** Sums such payments: the halves paid for columns come to c of them, because p is a permutation. */
  lemma SumOfPayments(paid: seq<real>, e: seq<real>, p: seq<int>, r: nat, c: nat, half: real)
    requires |paid| == r + c && |e| == r && IsPermutation(p, r + c)
    requires forall i :: 0 <= i < r + c ==>
      paid[i] == (if i < r then e[i] + half else 0.0) + (if p[i] < c then half else 0.0)
    ensures Sum(paid) == Sum(e) + Times(r + c, half)
  {
    hide Times;
    var n := r + c;
    var worth := e + Leading(c, 0, 0.0);
    var rows, columns := Leading(n, r, half), Leading(n, c, half);
    var taken := Along(columns, p);
    var both := seq(n, i requires 0 <= i < n => rows[i] + taken[i]);
    SumPadded(worth, r);
    assert worth[..r] == e;
    SumLeading(rows, r, half);
    SumLeading(columns, c, half);
    SumAlongPermutation(columns, p);
    SumAdd(rows, taken, both);
    SumAdd(worth, both, paid);
    TimesAdd(r, c, half);
  }

  /** An assignment of the square problem pays what its inside is worth, up to a constant:
      as many additional rows take real columns as real columns are left alone. */
  lemma SquareCost(cost: Matrix, r: nat, c: nat, limit: real, square: Matrix, p: seq<int>)
    requires Rectangular(cost, r, c) && Extends(cost, r, c, limit, square)
    requires IsPermutation(p, r + c)
    ensures IsPartial(Inside(p, r, c), r, c)
    ensures Total(square, p) == Value(cost, c, limit, Inside(p, r, c)) + Times(r + c, limit / 2.0)
  {
    hide Paid, Excess, Times, Distinct;
    InsideIsPartial(p, r, c);
    var paid, e := Paid(square, p), Excess(cost, c, limit, Inside(p, r, c));
    forall i | 0 <= i < r + c
      ensures paid[i] == (if i < r then e[i] + limit / 2.0 else 0.0) + (if p[i] < c then limit / 2.0 else 0.0)
    {
      PaidByRow(cost, r, c, limit, square, p, i);
    }
    SumOfPayments(paid, e, p, r, c, limit / 2.0);
  }

  /** The row matched with column j, or -1. */
  ghost function Holder(m: seq<int>, j: int): (i: int)
    requires j >= 0
    ensures -1 <= i < |m|
    ensures i >= 0 ==> m[i] == j
    ensures i < 0 ==> j !in m
  {
    if m == [] then -1
    else if m[|m| - 1] == j then |m| - 1
    else Holder(m[..|m| - 1], j)
  }

  /** Completes a partial matching: an unmatched row i takes the additional column c + i, the
      additional row r + j takes column j if that is unmatched, and the column its holder left otherwise. */
  ghost function Complement(m: seq<int>, r: nat, c: nat, i: nat): int
    requires |m| == r && i < r + c
  {
    if i < r then (if m[i] >= 0 then m[i] else c + i)
    else if Holder(m, i - r) >= 0 then c + Holder(m, i - r) else i - r
  }

  ghost function Completed(m: seq<int>, r: nat, c: nat): seq<int>
    requires |m| == r
  {
    seq(r + c, i requires 0 <= i < r + c => Complement(m, r, c, i))
  }

  lemma ComplementIsInjective(m: seq<int>, r: nat, c: nat, i: nat, k: nat)
    requires IsPartial(m, r, c) && i < k < r + c
    ensures Complement(m, r, c, i) != Complement(m, r, c, k)
  {
    if k >= r {
      var b := Holder(m, k - r);
      assert b >= 0 ==> m[b] == k - r;
      if i >= r {
        var a := Holder(m, i - r);
        assert a >= 0 ==> m[a] == i - r;
      } else {
        assert b < 0 ==> m[i] != k - r;
      }
    }
  }

  lemma CompletedIsPermutation(m: seq<int>, r: nat, c: nat)
    requires IsPartial(m, r, c)
    ensures IsPermutation(Completed(m, r, c), r + c)
  {
    hide Complement, Holder;
    var p := Completed(m, r, c);
    forall i | 0 <= i < r + c ensures 0 <= p[i] < r + c {
      ComplementInRange(m, r, c, i);
    }
    forall i, k | 0 <= i < k < r + c ensures p[i] != p[k] {
      ComplementIsInjective(m, r, c, i, k);
    }
  }

  lemma ComplementInRange(m: seq<int>, r: nat, c: nat, i: nat)
    requires IsPartial(m, r, c) && i < r + c
    ensures 0 <= Complement(m, r, c, i) < r + c
  {
  }

  lemma InsideOfCompleted(m: seq<int>, r: nat, c: nat)
    requires IsPartial(m, r, c)
    ensures Inside(Completed(m, r, c), r, c) == m
  {
    assert forall i :: 0 <= i < r ==> Completed(m, r, c)[i] == Complement(m, r, c, i);
  }

  /** An optimal assignment of the square problem has a best partial matching inside. */
  lemma InsideOfOptimalIsBest(cost: Matrix, r: nat, c: nat, limit: real, square: Matrix, p: seq<int>)
    requires Rectangular(cost, r, c) && Extends(cost, r, c, limit, square)
    requires Optimal(square, r + c, p)
    ensures Best(cost, r, c, limit, Inside(p, r, c))
  {
    SquareCost(cost, r, c, limit, square, p);
    var m := Inside(p, r, c);
    forall k | IsPartial(k, r, c) ensures Value(cost, c, limit, m) <= Value(cost, c, limit, k) {
      var q := Completed(k, r, c);
      CompletedIsPermutation(k, r, c);
      InsideOfCompleted(k, r, c);
      SquareCost(cost, r, c, limit, square, q);
      assert Total(square, p) <= Total(square, q);
    }
  }

  lemma ValueOfChange(cost: Matrix, r: nat, c: nat, limit: real, m: seq<int>, i: int, j: int)
    requires Rectangular(cost, r, c) && IsPartial(m, r, c) && 0 <= i < r && -1 <= j < c
    requires IsPartial(m[i := j], r, c)
    ensures Value(cost, c, limit, m[i := j]) == Value(cost, c, limit, m)
      - (if m[i] >= 0 then cost[i][m[i]] - limit else 0.0) + (if j >= 0 then cost[i][j] - limit else 0.0)
  {
    var e := Excess(cost, c, limit, m);
    var w := if j >= 0 then cost[i][j] - limit else 0.0;
    SumUpdate(e, i, w);
    assert Excess(cost, c, limit, m[i := j]) == e[i := w];
  }

  /** In a best matching no pair costs more than the limit, no row left alone could have had a free
      column for less, and no row could do better with another free column. */
  lemma BestIsStable(cost: Matrix, r: nat, c: nat, limit: real, m: seq<int>)
    requires Rectangular(cost, r, c) && IsPartial(m, r, c) && Best(cost, r, c, limit, m)
    ensures forall i :: 0 <= i < r && m[i] >= 0 ==> cost[i][m[i]] <= limit
    ensures forall i, j :: 0 <= i < r && 0 <= j < c && m[i] < 0 && j !in m ==> cost[i][j] >= limit
    ensures forall i, j :: 0 <= i < r && 0 <= j < c && m[i] >= 0 && j !in m ==> cost[i][j] >= cost[i][m[i]]
  {
    forall i | 0 <= i < r && m[i] >= 0 ensures cost[i][m[i]] <= limit {
      assert IsPartial(m[i := -1], r, c);
      ValueOfChange(cost, r, c, limit, m, i, -1);
    }
    forall i, j | 0 <= i < r && 0 <= j < c && j !in m
      ensures cost[i][j] >= if m[i] < 0 then limit else cost[i][m[i]]
    {
      assert IsPartial(m[i := j], r, c);
      ValueOfChange(cost, r, c, limit, m, i, j);
    }
  }
}
