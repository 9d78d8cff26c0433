/** The first phase of the solver: every column is priced at its minimum and offered to the row
    that attains it, then rows that won a single column pass their slack on to its price. */
module ColumnReduction {
  import opened Permutations
  import opened Assignment

  /** The rows below k that hold no column, in increasing order. */
  ghost function Unassigned(x: seq<int>, k: nat): (rows: seq<int>)
    requires k <= |x|
  {
    if k == 0 then [] else Unassigned(x, k - 1) + (if x[k - 1] < 0 then [k - 1] else [])
  }

  lemma {:induction false} UnassignedRows(x: seq<int>, k: nat)
    requires k <= |x|
    ensures |Unassigned(x, k)| <= k
    ensures Distinct(Unassigned(x, k))
    ensures forall i :: i in Unassigned(x, k) <==> 0 <= i < k && x[i] < 0
  {
    if k > 0 {
      UnassignedRows(x, k - 1);
    }
  }

  /** How many of the columns from `from` on attain their minimum in row i. */
  ghost function Wins(winner: seq<int>, i: int, from: nat): nat
    requires from <= |winner|
    decreases |winner| - from
  {
    if from == |winner| then 0 else (if winner[from] == i then 1 else 0) + Wins(winner, i, from + 1)
  }

  /** x gives every row the last column it wins; y keeps exactly those columns. */
  ghost predicate Claimed(n: nat, winner: seq<int>, x: seq<int>, y: seq<int>, from: nat)
    requires |winner| == |x| == |y| == n
  {
    && (forall i :: 0 <= i < n && x[i] >= 0 ==> from <= x[i] < n && winner[x[i]] == i)
    && (forall i :: 0 <= i < n ==> x[i] >= -1)
    && (forall j :: from <= j < n && 0 <= winner[j] < n ==> x[winner[j]] >= j)
    && (forall j :: from <= j < n && 0 <= winner[j] < n ==> y[j] == if x[winner[j]] == j then winner[j] else -1)
    && (forall j :: 0 <= j < from && j < n ==> y[j] == winner[j])
  }

  /** Every column is priced at its minimum, which its winner attains. */
  ghost predicate AtMinima(cost: Matrix, n: nat, winner: seq<int>, v: seq<real>)
    requires Square(cost, n)
  {
    && |winner| == |v| == n && InRange(winner, n)
    && (forall j :: 0 <= j < n ==> cost[winner[j]][j] == v[j])
    && (forall i, j :: 0 <= i < n && 0 <= j < n ==> v[j] <= cost[i][j])
  }

  method ColumnMinima(cost: Matrix, n: nat, x: array<int>, y: array<int>, v: array<real>)
    requires n >= 1 && Square(cost, n)
    requires forall i, j :: 0 <= i < n && 0 <= j < n ==> cost[i][j] < LARGE
    requires x != y && x.Length == y.Length == v.Length == n
    modifies x, y, v
    ensures forall i :: 0 <= i < n ==> x[i] == -1
    ensures AtMinima(cost, n, y[..], v[..])
  {
    for i := 0 to n
      invariant forall k :: 0 <= k < i ==> x[k] == -1 && v[k] == LARGE && y[k] == 0
    {
      x[i] := -1;
      v[i] := LARGE;
      y[i] := 0;
    }
    for i := 0 to n
      invariant forall k :: 0 <= k < n ==> x[k] == -1
      invariant forall k :: 0 <= k < n ==> 0 <= y[k] < n
      invariant forall k :: 0 <= k < n ==> if i == 0 then v[k] == LARGE else cost[y[k]][k] == v[k]
      invariant forall r, k :: 0 <= r < i && 0 <= k < n ==> v[k] <= cost[r][k]
    {
      for j := 0 to n
        invariant forall k :: 0 <= k < n ==> x[k] == -1
        invariant forall k :: 0 <= k < n ==> 0 <= y[k] < n
        invariant forall k :: 0 <= k < n ==> if i == 0 && k >= j then v[k] == LARGE else cost[y[k]][k] == v[k]
        invariant forall r, k :: 0 <= r < i && 0 <= k < n ==> v[k] <= cost[r][k]
        invariant forall k :: 0 <= k < j ==> v[k] <= cost[i][k]
      {
        var c := cost[i][j];
        if c < v[j] {
          v[j] := c;
          y[j] := i;
        }
      }
    }
  }

  /** Offering column j to the row that won it. */
  lemma ClaimStep(n: nat, winner: seq<int>, x: seq<int>, y: seq<int>, j: nat)
    requires |winner| == |x| == |y| == n && j < n
    requires InRange(winner, n)
    requires Claimed(n, winner, x, y, j + 1)
    ensures y[j] == winner[j]
    ensures x[winner[j]] < 0 ==> Claimed(n, winner, x[winner[j] := j], y, j)
    ensures x[winner[j]] >= 0 ==> Claimed(n, winner, x, y[j := -1], j)
  {
  }

  lemma ClaimStart(n: nat, x: seq<int>, winner: seq<int>)
    requires |x| == |winner| == n && forall i :: 0 <= i < n ==> x[i] == -1
    ensures Claimed(n, winner, x, winner, n)
  {
  }

  /** Columns are visited from the last to the first; a row keeps the first one it meets. */
  method ClaimColumns(n: nat, x: array<int>, y: array<int>, unique: array<bool>)
    requires n >= 1
    requires x != y && x.Length == y.Length == unique.Length == n
    requires forall i :: 0 <= i < n ==> x[i] == -1 && unique[i]
    requires InRange(y[..], n)
    modifies x, y, unique
    ensures Claimed(n, old(y[..]), x[..], y[..], 0)
    ensures forall i :: 0 <= i < n ==> (unique[i] <==> Wins(old(y[..]), i, 0) <= 1)
  {
    hide Claimed;
    ghost var winner := y[..];
    ghost var xs, ys := x[..], y[..];
    ClaimStart(n, xs, ys);
    var j := n;
    while j > 0
      invariant 0 <= j <= n
      invariant x[..] == xs && y[..] == ys
      invariant Claimed(n, winner, xs, ys, j)
      invariant forall i :: 0 <= i < n ==> (xs[i] >= 0 <==> Wins(winner, i, j) >= 1)
      invariant forall i :: 0 <= i < n ==> (unique[i] <==> Wins(winner, i, j) <= 1)
    {
      j := j - 1;
      ClaimStep(n, winner, xs, ys, j);
      var i := y[j];
      assert i == winner[j];
      if x[i] < 0 {
        x[i] := j;
        xs := xs[i := j];
      } else {
        unique[i] := false;
        y[j] := -1;
        ys := ys[j := -1];
      }
    }
  }

  /** The least reduced cost of row i among the columns below k other than j, or LARGE. */
  function LeastOther(cost: Matrix, n: nat, v: seq<real>, i: int, j: int, k: nat): real
    requires Square(cost, n) && |v| == n && 0 <= i < n && k <= n
  {
    if k == 0 then LARGE
    else
      var least := LeastOther(cost, n, v, i, j, k - 1);
      if k - 1 != j && Reduced(cost, v, i, k - 1) < least then Reduced(cost, v, i, k - 1) else least
  }

  lemma {:induction false} LeastOtherIsLeast(cost: Matrix, n: nat, v: seq<real>, i: int, j: int, k: nat)
    requires Square(cost, n) && |v| == n && 0 <= i < n && k <= n
    ensures forall c :: 0 <= c < k && c != j ==> LeastOther(cost, n, v, i, j, k) <= Reduced(cost, v, i, c)
    ensures LeastOther(cost, n, v, i, j, k) == LARGE ||
            exists c :: 0 <= c < k && c != j && LeastOther(cost, n, v, i, j, k) == Reduced(cost, v, i, c)
  {
    if k > 0 {
      LeastOtherIsLeast(cost, n, v, i, j, k - 1);
    }
  }

  /** The prices after the rows below k have passed on their slack: an assigned row that won a
      single column lowers that column's price by its least reduced cost elsewhere. */
  ghost function Transferred(cost: Matrix, n: nat, x: seq<int>, unique: seq<bool>, v: seq<real>, k: nat): (w: seq<real>)
    requires Square(cost, n) && |x| == |unique| == |v| == n && k <= n
    requires forall i :: 0 <= i < n ==> x[i] < n
    ensures |w| == n
  {
    if k == 0 then v
    else
      var w := Transferred(cost, n, x, unique, v, k - 1);
      if x[k - 1] >= 0 && unique[k - 1]
      then w[x[k - 1] := w[x[k - 1]] - LeastOther(cost, n, w, k - 1, x[k - 1], n)]
      else w
  }

  method TransferReduction(cost: Matrix, n: nat, freeRows: array<int>, x: array<int>, v: array<real>, unique: array<bool>)
    returns (count: nat)
    requires Square(cost, n) && freeRows != x
    requires freeRows.Length == x.Length == v.Length == unique.Length == n
    requires forall i :: 0 <= i < n ==> x[i] < n
    modifies freeRows, v
    ensures count <= n
    ensures freeRows[..count] == Unassigned(x[..], n)
    ensures v[..] == Transferred(cost, n, x[..], unique[..], old(v[..]), n)
  {
    ghost var xs, us, v0 := x[..], unique[..], v[..];
    count := 0;
    for i := 0 to n
      invariant count <= i
      invariant x[..] == xs && unique[..] == us
      invariant freeRows[..count] == Unassigned(xs, i)
      invariant v[..] == Transferred(cost, n, xs, us, v0, i)
    {
      ghost var w := v[..];
      if x[i] < 0 {
        freeRows[count] := i;
        count := count + 1;
      } else if unique[i] {
        var j := x[i];
        var min := LARGE;
        for j2 := 0 to n
          invariant min == LeastOther(cost, n, w, i, j, j2)
        {
          if j2 == j {
            continue;
          }
          var c := cost[i][j2] - v[j2];
          if c < min {
            min := c;
          }
        }
        v[j] := v[j] - min;
        assert v[..] == w[j := w[j] - min];
      }
    }
  }

  /** Assigned rows pay exactly the price of their column. */
  ghost predicate PaysPrice(cost: Matrix, n: nat, x: seq<int>, v: seq<real>, from: nat)
    requires Square(cost, n) && |x| == |v| == n
  {
    forall i :: from <= i < n && 0 <= x[i] < n ==> v[x[i]] == cost[i][x[i]]
  }

  lemma ClaimedIsMatched(n: nat, winner: seq<int>, x: seq<int>, y: seq<int>)
    requires |winner| == |x| == |y| == n && InRange(winner, n)
    requires Claimed(n, winner, x, y, 0)
    ensures Matched(n, x, y, Elements(Unassigned(x, n)))
  {
    UnassignedRows(x, n);
  }

  lemma MinimaAreState(cost: Matrix, n: nat, winner: seq<int>, x: seq<int>, y: seq<int>, v: seq<real>)
    requires Square(cost, n) && AtMinima(cost, n, winner, v)
    requires |x| == |y| == n && Claimed(n, winner, x, y, 0)
    ensures State(cost, n, x, y, v, Elements(Unassigned(x, n)))
    ensures forall i :: 0 <= i < n ==> x[i] < n && (x[i] >= 0 ==> i !in Elements(Unassigned(x, n)))
    ensures PaysPrice(cost, n, x, v, 0)
  {
    UnassignedRows(x, n);
    ClaimedIsMatched(n, winner, x, y);
    forall j | 0 <= j < n && y[j] >= 0 ensures Cheapest(cost, n, v, y[j], j) {
      assert y[j] == winner[j];
      forall k | 0 <= k < n ensures Reduced(cost, v, y[j], j) <= Reduced(cost, v, y[j], k) {
        assert v[k] <= cost[y[j]][k];
      }
    }
    forall j | 0 <= j < n && y[j] < 0 ensures exists i :: 0 <= i < n && cost[i][j] == v[j] {
      assert cost[winner[j]][j] == v[j];
    }
  }

  /** Passing on slack keeps the state: the price of a row's column falls exactly until some
      other column is as cheap for the row. */
  lemma {:induction false} TransferredKeepsState(
    cost: Matrix, n: nat, x: seq<int>, y: seq<int>, unique: seq<bool>, v: seq<real>, free: set<int>, k: nat)
    requires Square(cost, n) && |unique| == n && k <= n
    requires State(cost, n, x, y, v, free)
    requires forall i :: 0 <= i < n ==> x[i] < n && (x[i] >= 0 ==> i !in free)
    requires PaysPrice(cost, n, x, v, 0)
    ensures State(cost, n, x, y, Transferred(cost, n, x, unique, v, k), free)
    ensures PaysPrice(cost, n, x, Transferred(cost, n, x, unique, v, k), k)
  {
    if k > 0 {
      TransferredKeepsState(cost, n, x, y, unique, v, free, k - 1);
      var w := Transferred(cost, n, x, unique, v, k - 1);
      var i := k - 1;
      if x[i] >= 0 && unique[i] {
        TransferStep(cost, n, x, y, w, free, i);
      }
    }
  }

  lemma TransferStep(cost: Matrix, n: nat, x: seq<int>, y: seq<int>, w: seq<real>, free: set<int>, i: nat)
    requires Square(cost, n) && i < n
    requires State(cost, n, x, y, w, free)
    requires forall r :: 0 <= r < n ==> x[r] < n && (x[r] >= 0 ==> r !in free)
    requires x[i] >= 0
    requires PaysPrice(cost, n, x, w, i)
    ensures var w' := w[x[i] := w[x[i]] - LeastOther(cost, n, w, i, x[i], n)];
      State(cost, n, x, y, w', free) && PaysPrice(cost, n, x, w', i + 1)
  {
    var j := x[i];
    var least := LeastOther(cost, n, w, i, j, n);
    var w' := w[j := w[j] - least];
    LeastOtherIsLeast(cost, n, w, i, j, n);
    assert least >= 0.0;
    forall c | 0 <= c < n ensures Reduced(cost, w', i, j) <= Reduced(cost, w', i, c) {
      assert c != j ==> least <= Reduced(cost, w, i, c);
    }
    assert y[j] == i;
    LowerPriceKeepsState(cost, n, x, y, w, free, j, w[j] - least);
    forall r | i + 1 <= r < n && 0 <= x[r] < n ensures w'[x[r]] == cost[r][x[r]] {
      assert w[x[r]] == cost[r][x[r]];
      assert y[x[r]] == r;
    }
  }

  /** The outcome of the whole phase, written through what its three passes compute. */
  ghost predicate Outcome(
    cost: Matrix, n: nat, winner: seq<int>, minima: seq<real>, unique: seq<bool>, x: seq<int>, y: seq<int>, v: seq<real>)
    requires Square(cost, n)
  {
    && AtMinima(cost, n, winner, minima)
    && |x| == |y| == |unique| == n && Claimed(n, winner, x, y, 0)
    && (forall i :: 0 <= i < n ==> x[i] < n)
    && (forall i :: 0 <= i < n ==> (unique[i] <==> Wins(winner, i, 0) <= 1))
    && v == Transferred(cost, n, x, unique, minima, n)
  }

  method Reduce(cost: Matrix, n: nat, freeRows: array<int>, x: array<int>, y: array<int>, v: array<real>)
    returns (count: nat)
    requires n >= 1 && Square(cost, n)
    requires forall i, j :: 0 <= i < n && 0 <= j < n ==> cost[i][j] < LARGE
    requires freeRows != x && freeRows != y && x != y
    requires freeRows.Length == x.Length == y.Length == v.Length == n
    modifies freeRows, x, y, v
    ensures count <= n
    ensures freeRows[..count] == Unassigned(x[..], n)
    ensures Distinct(freeRows[..count])
    ensures State(cost, n, x[..], y[..], v[..], Elements(freeRows[..count]))
    ensures exists winner, minima, unique :: Outcome(cost, n, winner, minima, unique, x[..], y[..], v[..])
  {
    hide State, Claimed, AtMinima, PaysPrice, Transferred, Unassigned;
    ColumnMinima(cost, n, x, y, v);
    ghost var winner := y[..];
    var unique := new bool[n](_ => true);
    ClaimColumns(n, x, y, unique);
    ghost var xs, ys, w := x[..], y[..], v[..];
    MinimaAreState(cost, n, winner, xs, ys, w);
    count := TransferReduction(cost, n, freeRows, x, v, unique);
    UnassignedRows(xs, n);
    TransferredKeepsState(cost, n, xs, ys, unique[..], w, Elements(Unassigned(xs, n)), n);
    assert Outcome(cost, n, winner, w, unique[..], x[..], y[..], v[..]);
  }
}
