/** The tracker's callers of the solver: building the square problem, reading the partial matching
    back out of it, and sorting rows and columns into matches and leftovers. */
module LinearAssignment {
  import opened Permutations
  import opened Assignment
  import opened PartialMatching
  import Solver

  /** The square problem: filled with half the limit, then cleared where two additional lines
      meet, then given the real costs. */
  method ExtendCost(cost: Matrix, r: nat, c: nat, limit: real) returns (square: Matrix)
    requires Rectangular(cost, r, c)
    ensures Extends(cost, r, c, limit, square)
  {
    var n := r + c;
    square := seq(n, _ => seq(n, _ => 0.0));
    for i := 0 to n
      invariant Square(square, n)
      invariant forall a, b :: 0 <= a < i && 0 <= b < n ==> square[a][b] == limit / 2.0
    {
      for j := 0 to n
        invariant Square(square, n)
        invariant forall a, b :: 0 <= a <= i && 0 <= b < n && (a < i || b < j) ==> square[a][b] == limit / 2.0
      {
        square := square[i := square[i][j := limit / 2.0]];
      }
    }
    for i := r to n
      invariant Square(square, n)
      invariant forall a, b :: 0 <= a < n && 0 <= b < n ==>
        square[a][b] == if r <= a < i && b >= c then 0.0 else limit / 2.0
    {
      for j := c to n
        invariant Square(square, n)
        invariant forall a, b :: 0 <= a < n && 0 <= b < n ==>
          square[a][b] == if r <= a && b >= c && (a < i || (a == i && b < j)) then 0.0 else limit / 2.0
      {
        square := square[i := square[i][j := 0.0]];
      }
    }
    for i := 0 to r
      invariant Square(square, n)
      invariant forall a, b :: 0 <= a < n && 0 <= b < n && !(a < r && b < c) ==> square[a][b] == Entry(cost, r, c, limit, a, b)
      invariant forall a, b :: 0 <= a < i && 0 <= b < c ==> square[a][b] == cost[a][b]
    {
      for j := 0 to c
        invariant Square(square, n)
        invariant forall a, b :: 0 <= a < n && 0 <= b < n && !(a < r && b < c) ==> square[a][b] == Entry(cost, r, c, limit, a, b)
        invariant forall a, b :: 0 <= a <= i && 0 <= b < c && (a < i || b < j) ==> square[a][b] == cost[a][b]
      {
        square := square[i := square[i][j := cost[i][j]]];
      }
    }
  }

  /** The window the solver's sentinel allows, around everything the square problem contains. */
  ghost predicate Tractable(cost: Matrix, limit: real, lo: real, hi: real) {
    && hi < LARGE && 2.0 * (hi - lo) < LARGE
    && lo <= 0.0 <= hi && lo <= limit / 2.0 <= hi
    && forall i, j :: 0 <= i < |cost| && 0 <= j < |cost[i]| ==> lo <= cost[i][j] <= hi
  }

  lemma SquareIsWithin(cost: Matrix, r: nat, c: nat, limit: real, square: Matrix, lo: real, hi: real)
    requires Rectangular(cost, r, c) && Extends(cost, r, c, limit, square)
    requires Tractable(cost, limit, lo, hi)
    ensures Square(square, r + c) && Within(square, lo, hi)
  {
    forall i, j | 0 <= i < r + c && 0 <= j < r + c ensures lo <= square[i][j] <= hi {
      assert square[i][j] == Entry(cost, r, c, limit, i, j);
    }
  }

  /** colsol says for every column which row has it. */
  ghost predicate Inverse(rowsol: seq<int>, colsol: seq<int>, r: nat, c: nat) {
    && |rowsol| == r && |colsol| == c
    && forall j :: 0 <= j < c ==>
      if colsol[j] == -1 then j !in rowsol else 0 <= colsol[j] < r && rowsol[colsol[j]] == j
  }

  /** What the matched pairs cost together. */
  ghost function Charges(cost: Matrix, c: nat, m: seq<int>): seq<real>
    requires Rectangular(cost, |m|, c) && forall i :: 0 <= i < |m| ==> -1 <= m[i] < c
  {
    seq(|m|, i requires 0 <= i < |m| => if m[i] >= 0 then cost[i][m[i]] else 0.0)
  }

  /** Inverse permutations, cut down to the real rows and columns, are inverse on these. */
  lemma CutIsInverse(x: seq<int>, y: seq<int>, r: nat, c: nat, colsol: seq<int>)
    requires |x| == |y| == r + c && IsPermutation(x, r + c) && IsPermutation(y, r + c)
    requires forall i :: 0 <= i < r + c ==> y[x[i]] == i && x[y[i]] == i
    requires |colsol| == c && forall j :: 0 <= j < c ==> colsol[j] == if y[j] < r then y[j] else -1
    ensures Inverse(Inside(x, r, c), colsol, r, c)
  {
    var m := Inside(x, r, c);
    forall j | 0 <= j < c
      ensures if colsol[j] == -1 then j !in m else 0 <= colsol[j] < r && m[colsol[j]] == j
    {
      if j in m {
        var i :| 0 <= i < r && m[i] == j;
        assert x[i] == j && y[x[i]] == i;
      }
    }
  }

  /** Solves the square problem and reads the partial matching out of it. A matrix with rows but
      no columns is not recognised: every row is then reported in column 0. */
  method Lapjv(cost: Matrix, limit: real, ghost lo: real, ghost hi: real)
    returns (rowsol: seq<int>, colsol: seq<int>, opt: real)
    requires |cost| >= 1 && Rectangular(cost, |cost|, |cost[0]|)
    requires Tractable(cost, limit, lo, hi)
    ensures |cost[0]| > 0 ==> Best(cost, |cost|, |cost[0]|, limit, rowsol)
    ensures |cost[0]| > 0 ==> Inverse(rowsol, colsol, |cost|, |cost[0]|)
    ensures |cost[0]| > 0 ==> opt == Sum(Charges(cost, |cost[0]|, rowsol))
    ensures |cost[0]| == 0 ==> rowsol == seq(|cost|, _ => 0) && colsol == []
    ensures |cost[0]| == 0 ==> opt == Times(|cost|, limit / 2.0)
  {
    hide Extends, Within, Optimal, Best, Inverse, Tractable;
    var r, c := |cost|, |cost[0]|;
    var n := r + c;
    rowsol, colsol := seq(r, _ => 0), seq(c, _ => 0);
    var square := ExtendCost(cost, r, c, limit);
    SquareIsWithin(cost, r, c, limit, square, lo, hi);
    var x, y := new int[n], new int[n];
    var ret := Solver.Solve(square, n, x, y, lo, hi);
    opt := 0.0;
    if n != r {
      ghost var xs, ys := x[..], y[..];
      CutOff(n, r, c, x, y);
      rowsol, colsol := x[..r], y[..c];
      assert rowsol == Inside(xs, r, c);
      InsideOfOptimalIsBest(cost, r, c, limit, square, xs);
      CutIsInverse(xs, ys, r, c, colsol);
      InsideIsPartial(xs, r, c);
      opt := TotalOf(cost, r, c, limit, square, rowsol);
    } else {
      ghost var charges := Leading(r, r, limit / 2.0);
      for i := 0 to r
        invariant opt == Sum(charges[..i])
      {
        assert charges[..i + 1][..i] == charges[..i];
        InsideCost(cost, r, c, limit, square, i, 0);
        opt := opt + square[i][rowsol[i]];
      }
      assert charges[..r] == charges;
      SumLeading(charges, r, limit / 2.0);
    }
  }

  /** The cost of the matches. */
  method TotalOf(cost: Matrix, r: nat, c: nat, limit: real, square: Matrix, rowsol: seq<int>) returns (opt: real)
    requires Rectangular(cost, r, c) && Extends(cost, r, c, limit, square) && IsPartial(rowsol, r, c)
    ensures opt == Sum(Charges(cost, c, rowsol))
  {
    hide Extends;
    opt := 0.0;
    ghost var charges := Charges(cost, c, rowsol);
    for i := 0 to r
      invariant opt == Sum(charges[..i])
    {
      assert charges[..i + 1][..i] == charges[..i];
      if rowsol[i] != -1 {
        InsideCost(cost, r, c, limit, square, i, rowsol[i]);
        opt := opt + square[i][rowsol[i]];
      }
    }
    assert charges[..r] == charges;
  }

  lemma InsideCost(cost: Matrix, r: nat, c: nat, limit: real, square: Matrix, i: nat, j: nat)
    requires Rectangular(cost, r, c) && Extends(cost, r, c, limit, square)
    requires i < r && j < r + c
    ensures |square| == r + c && |square[i]| == r + c
    ensures square[i][j] == if j < c then cost[i][j] else limit / 2.0
  {
    assert square[i][j] == Entry(cost, r, c, limit, i, j);
  }

  /** Rows and columns beyond the real ones are replaced by -1. */
  method CutOff(n: nat, r: nat, c: nat, x: array<int>, y: array<int>)
    requires x != y && x.Length == y.Length == n && r <= n && c <= n
    modifies x, y
    ensures forall i :: 0 <= i < n ==> x[i] == if old(x[i]) >= c then -1 else old(x[i])
    ensures forall i :: 0 <= i < n ==> y[i] == if old(y[i]) >= r then -1 else old(y[i])
  {
    for i := 0 to n
      invariant forall k :: 0 <= k < n ==> x[k] == if old(x[k]) >= c && k < i then -1 else old(x[k])
      invariant forall k :: 0 <= k < n ==> y[k] == if old(y[k]) >= r && k < i then -1 else old(y[k])
    {
      if x[i] >= c {
        x[i] := -1;
      }
      if y[i] >= r {
        y[i] := -1;
      }
    }
  }

  ghost predicate Increasing(s: seq<int>) {
    forall i, j :: 0 <= i < j < |s| ==> s[i] < s[j]
  }

  /** Every row below r and every column below c is either in exactly one match or left over. */
  ghost predicate Partition(r: nat, c: nat, matches: seq<(int, int)>, rowsLeft: seq<int>, columnsLeft: seq<int>) {
    && (forall t :: 0 <= t < |matches| ==> 0 <= matches[t].0 < r && 0 <= matches[t].1 < c)
    && (forall t, u :: 0 <= t < u < |matches| ==> matches[t].0 < matches[u].0 && matches[t].1 != matches[u].1)
    && Increasing(rowsLeft) && InRange(rowsLeft, r)
    && Increasing(columnsLeft) && InRange(columnsLeft, c)
    && (forall i :: 0 <= i < r ==> (i in rowsLeft <==> forall t :: 0 <= t < |matches| ==> matches[t].0 != i))
    && (forall j :: 0 <= j < c ==> (j in columnsLeft <==> forall t :: 0 <= t < |matches| ==> matches[t].1 != j))
  }

  /** The matched pairs of m, by increasing row. */
  ghost function Pairs(m: seq<int>): seq<(int, int)> {
    if m == [] then []
    else Pairs(m[..|m| - 1]) + (if m[|m| - 1] >= 0 then [(|m| - 1, m[|m| - 1])] else [])
  }

  /** The places of m without a partner, in increasing order. */
  ghost function Alone(m: seq<int>): seq<int> {
    if m == [] then []
    else Alone(m[..|m| - 1]) + (if m[|m| - 1] < 0 then [|m| - 1] else [])
  }

  lemma {:induction false} PairsAreMatches(m: seq<int>)
    ensures forall t :: 0 <= t < |Pairs(m)| ==> 0 <= Pairs(m)[t].0 < |m| && 0 <= m[Pairs(m)[t].0] == Pairs(m)[t].1
    ensures forall t, u :: 0 <= t < u < |Pairs(m)| ==> Pairs(m)[t].0 < Pairs(m)[u].0
    ensures forall i :: 0 <= i < |m| && m[i] >= 0 ==> (i, m[i]) in Pairs(m)
  {
    if m != [] {
      var n := |m| - 1;
      PairsAreMatches(m[..n]);
      forall i | 0 <= i < |m| && m[i] >= 0 ensures (i, m[i]) in Pairs(m) {
        if i < n {
          assert m[..n][i] == m[i];
          assert (i, m[i]) in Pairs(m[..n]);
        }
      }
    }
  }

  lemma {:induction false} AloneAreUnmatched(m: seq<int>)
    ensures Increasing(Alone(m)) && InRange(Alone(m), |m|)
    ensures forall i :: 0 <= i < |m| ==> (i in Alone(m) <==> m[i] < 0)
  {
    if m != [] {
      AloneAreUnmatched(m[..|m| - 1]);
    }
  }

  lemma PairsPartition(r: nat, c: nat, m: seq<int>, colsol: seq<int>)
    requires IsPartial(m, r, c) && Inverse(m, colsol, r, c)
    ensures Partition(r, c, Pairs(m), Alone(m), Alone(colsol))
  {
    var matches := Pairs(m);
    PairsAreMatches(m);
    AloneAreUnmatched(m);
    AloneAreUnmatched(colsol);
    forall i | 0 <= i < r
      ensures i in Alone(m) <==> forall t :: 0 <= t < |matches| ==> matches[t].0 != i
    {
      if m[i] >= 0 {
        assert (i, m[i]) in matches;
      }
    }
    forall j | 0 <= j < c
      ensures j in Alone(colsol) <==> forall t :: 0 <= t < |matches| ==> matches[t].1 != j
    {
      if colsol[j] >= 0 {
        assert (colsol[j], m[colsol[j]]) in matches;
      } else {
        assert j !in m;
      }
    }
  }

  /** Sorts rows and columns into matches and leftovers. Without a matrix nothing is matched.
      The result is a partition exactly when a matrix that has rows also has columns. */
  method Assign(cost: Matrix, rows: nat, columns: nat, thresh: real, ghost lo: real, ghost hi: real)
    returns (matches: seq<(int, int)>, rowsLeft: seq<int>, columnsLeft: seq<int>, ghost m: seq<int>)
    requires |cost| > 0 ==> Rectangular(cost, rows, columns)
    requires Tractable(cost, thresh, lo, hi)
    ensures |cost| == 0 ==> matches == []
    ensures |cost| > 0 && columns > 0 ==> Best(cost, rows, columns, thresh, m) && matches == Pairs(m)
    ensures Partition(rows, columns, matches, rowsLeft, columnsLeft) <==> |cost| == 0 || columns > 0
  {
    hide Best, Inverse, Pairs, Alone, Partition, IsPartial;
    matches, rowsLeft, columnsLeft, m := [], [], [], [];
    if |cost| == 0 {
      rowsLeft := UpTo(rows);
      columnsLeft := UpTo(columns);
      NothingMatched(rows, columns, rowsLeft, columnsLeft);
      return;
    }
    var rowsol, colsol, opt := Lapjv(cost, thresh, lo, hi);
    SplitStart();
    for i := 0 to |rowsol|
      invariant matches == Pairs(rowsol[..i])
      invariant rowsLeft == Alone(rowsol[..i])
    {
      SplitOne(rowsol, i);
      if rowsol[i] >= 0 {
        matches := matches + [(i, rowsol[i])];
      } else {
        rowsLeft := rowsLeft + [i];
      }
    }
    for i := 0 to |colsol|
      invariant columnsLeft == Alone(colsol[..i])
    {
      SplitOne(colsol, i);
      if colsol[i] < 0 {
        columnsLeft := columnsLeft + [i];
      }
    }
    assert rowsol[..|rowsol|] == rowsol && colsol[..|colsol|] == colsol;
    m := rowsol;
    if columns > 0 {
      BestIsPartial(cost, rows, columns, thresh, rowsol);
      PairsPartition(rows, columns, rowsol, colsol);
    } else {
      BogusMatches(rowsol, rows, columns, rowsLeft, columnsLeft);
    }
  }

  method UpTo(n: nat) returns (s: seq<int>)
    ensures |s| == n && forall i :: 0 <= i < n ==> s[i] == i
  {
    s := [];
    for i := 0 to n
      invariant |s| == i && forall k :: 0 <= k < i ==> s[k] == k
    {
      s := s + [i];
    }
  }

  lemma NothingMatched(r: nat, c: nat, a: seq<int>, b: seq<int>)
    requires |a| == r && forall i :: 0 <= i < r ==> a[i] == i
    requires |b| == c && forall j :: 0 <= j < c ==> b[j] == j
    ensures Partition(r, c, [], a, b)
  {
    forall i | 0 <= i < r ensures i in a {
      assert a[i] == i;
    }
    forall j | 0 <= j < c ensures j in b {
      assert b[j] == j;
    }
  }

  lemma SplitStart()
    ensures Pairs([]) == [] && Alone([]) == []
  {
  }

  lemma SplitOne(m: seq<int>, i: nat)
    requires i < |m|
    ensures Pairs(m[..i + 1]) == Pairs(m[..i]) + (if m[i] >= 0 then [(i as int, m[i])] else [])
    ensures Alone(m[..i + 1]) == Alone(m[..i]) + (if m[i] < 0 then [i as int] else [])
  {
    assert m[..i + 1][..i] == m[..i];
  }

  lemma BestIsPartial(cost: Matrix, r: nat, c: nat, limit: real, m: seq<int>)
    requires Rectangular(cost, r, c) && Best(cost, r, c, limit, m)
    ensures IsPartial(m, r, c)
  {
  }

  /** With no column at all, matching row 0 with column 0 is out of range. */
  lemma BogusMatches(m: seq<int>, r: nat, c: nat, rowsLeft: seq<int>, columnsLeft: seq<int>)
    requires r >= 1 && c == 0 && m == seq(r, _ => 0)
    ensures !Partition(r, c, Pairs(m), rowsLeft, columnsLeft)
  {
    PairsAreMatches(m);
    assert m[0] == 0;
    assert (0, 0) in Pairs(m);
  }
}
