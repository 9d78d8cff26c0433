/** The second phase of the solver: every free row takes its cheapest column, lowering the price
    until the second cheapest is as cheap, and whoever held that column becomes free instead.
    The free rows live in one array: rows settled for a later phase are written to its front
    while the rest is still read, and a row whose column was taken may be put back for
    another try at the place just read. */
module RowReduction {
  import opened Permutations
  import opened Assignment

  /** The cheapest column j1 met so far, at reduced cost v1, and the runner-up j2 (or -1) at v2. */
  datatype Best = Best(j1: int, v1: real, j2: int, v2: real)

  /** The two best columns of row i below k. */
  function TwoBest(cost: Matrix, n: nat, v: seq<real>, i: int, k: nat): (b: Best)
    requires Square(cost, n) && |v| == n && 0 <= i < n && 1 <= k <= n
    ensures 0 <= b.j1 < k && -1 <= b.j2 < k
  {
    if k == 1 then Best(0, Reduced(cost, v, i, 0), -1, LARGE)
    else Improve(TwoBest(cost, n, v, i, k - 1), k - 1, Reduced(cost, v, i, k - 1))
  }

  function Improve(b: Best, j: int, c: real): Best {
    if c >= b.v2 then b
    else if c >= b.v1 then b.(j2 := j, v2 := c)
    else Best(j, c, b.j1, b.v1)
  }

  lemma {:induction false} TwoBestAreBest(cost: Matrix, n: nat, v: seq<real>, i: int, k: nat)
    requires Square(cost, n) && |v| == n && 0 <= i < n && 1 <= k <= n
    requires forall j :: 0 <= j < n ==> Reduced(cost, v, i, j) < LARGE
    ensures var b := TwoBest(cost, n, v, i, k);
      && 0 <= b.j1 < k && b.v1 == Reduced(cost, v, i, b.j1) && b.v1 <= b.v2
      && (forall j :: 0 <= j < k ==> b.v1 <= Reduced(cost, v, i, j))
      && (forall j :: 0 <= j < k && j != b.j1 ==> b.v2 <= Reduced(cost, v, i, j))
      && (if k == 1 then b.j2 == -1 && b.v2 == LARGE
          else 0 <= b.j2 < k && b.j2 != b.j1 && b.v2 == Reduced(cost, v, i, b.j2))
  {
    if k > 1 {
      TwoBestAreBest(cost, n, v, i, k - 1);
    }
  }

  /** The solver's state inside this phase. `rows` is the array of free rows: rows[..kept] are
      settled, rows[current..] are still to be tried; `tries` counts the attempts so far. */
  datatype Work = Work(x: seq<int>, y: seq<int>, v: seq<real>, rows: seq<int>, current: nat, kept: nat, tries: nat)
  {
    ghost predicate Valid(n: nat) {
      && |x| == |y| == |v| == n
      && kept <= current <= |rows|
      && (forall k :: 0 <= k < |rows| ==> 0 <= rows[k] < n)
      && (forall j :: 0 <= j < n ==> -1 <= y[j] < n)
    }

    /** Every free row, once. */
    ghost function Pending(): seq<int>
      requires kept <= current <= |rows|
    {
      rows[..kept] + rows[current..]
    }
  }

  /** While fewer attempts than n for every row read have been made, a row may be put back. */
  ghost function Allowed(read: nat, n: nat): nat {
    if read == 0 then 0 else Allowed(read - 1, n) + n
  }

  lemma {:induction false} AllowedIsProduct(read: nat, n: nat)
    ensures Allowed(read, n) == read * n && Allowed(read, n) + read == read * (n + 1)
  {
    if read > 0 {
      AllowedIsProduct(read - 1, n);
      assert (read - 1) * n + n == read * n;
    }
  }

  lemma {:induction false} AllowedGrows(a: nat, b: nat, n: nat)
    requires a <= b
    ensures Allowed(a, n) <= Allowed(b, n)
  {
    if a < b {
      AllowedGrows(a, b - 1, n);
    }
  }

  /** One attempt: the row at `current` is tried. */
  ghost function Try(cost: Matrix, n: nat, w: Work): (r: Work)
    requires Square(cost, n) && n >= 1 && w.Valid(n) && w.current < |w.rows|
    ensures r.Valid(n) && |r.rows| == |w.rows| && r.tries == w.tries + 1
    ensures r.current == w.current + 1 || (r.current == w.current && r.tries < Allowed(w.current + 1, n))
  {
    var i := w.rows[w.current];
    var b := TwoBest(cost, n, w.v, i, n);
    var lowered := w.v[b.j1] - (b.v2 - b.v1);
    var lowers := lowered < w.v[b.j1];
    if w.tries + 1 < Allowed(w.current + 1, n) then
      var j := if !lowers && w.y[b.j1] >= 0 && b.j2 >= 0 then b.j2 else b.j1;
      var held := w.y[j];
      Work(w.x[i := j], w.y[j := i], if lowers then w.v[b.j1 := lowered] else w.v,
           if held < 0 then w.rows else if lowers then w.rows[w.current := held] else w.rows[w.kept := held],
           if held >= 0 && lowers then w.current else w.current + 1,
           if held >= 0 && !lowers then w.kept + 1 else w.kept,
           w.tries + 1)
    else
      var held := w.y[b.j1];
      Work(w.x[i := b.j1], w.y[b.j1 := i], w.v,
           if held < 0 then w.rows else w.rows[w.kept := held],
           w.current + 1,
           if held >= 0 then w.kept + 1 else w.kept,
           w.tries + 1)
  }

  /** Attempts until no row is left to be tried. A row may be put back, but only while the number
      of attempts is below n times the rows read, so the measure falls. */
  ghost function Run(cost: Matrix, n: nat, w: Work): (r: Work)
    requires Square(cost, n) && n >= 1 && w.Valid(n)
    ensures r.Valid(n) && |r.rows| == |w.rows| && r.current == |r.rows|
    decreases if Allowed(|w.rows|, n) > w.tries then Allowed(|w.rows|, n) - w.tries else 0, |w.rows| - w.current
  {
    if w.current == |w.rows| then w
    else
      AllowedGrows(w.current + 1, |w.rows|, n);
      Run(cost, n, Try(cost, n, w))
  }

  /** At most n + 1 attempts are made for every row the phase is given. */
  lemma {:induction false} AttemptsAreBounded(cost: Matrix, n: nat, w: Work)
    requires Square(cost, n) && n >= 1 && w.Valid(n)
    requires w.tries <= Allowed(|w.rows|, n) + w.current
    ensures Run(cost, n, w).tries <= Allowed(|w.rows|, n) + |w.rows|
    decreases if Allowed(|w.rows|, n) > w.tries then Allowed(|w.rows|, n) - w.tries else 0, |w.rows| - w.current
  {
    if w.current < |w.rows| {
      AllowedGrows(w.current + 1, |w.rows|, n);
      AttemptsAreBounded(cost, n, Try(cost, n, w));
    }
  }

  /** The solver's invariant, with the pending rows as the free ones. */
  ghost predicate Sound(cost: Matrix, n: nat, w: Work)
    requires Square(cost, n)
  {
    && w.Valid(n)
    && Distinct(w.Pending())
    && State(cost, n, w.x, w.y, w.v, Elements(w.Pending()))
  }

  /** Replacing the element at k keeps a sequence duplicate-free and changes its elements accordingly. */
  lemma ReplaceElement(s: seq<int>, k: nat, e: int)
    requires k < |s| && Distinct(s) && e !in s
    ensures Distinct(s[k := e])
    ensures Elements(s[k := e]) == Elements(s) - {s[k]} + {e}
  {
    var t := s[k := e];
    forall a | a in Elements(s) - {s[k]} + {e} ensures a in Elements(t) {
      if a == e {
        assert t[k] == e;
      } else {
        var m :| 0 <= m < |s| && s[m] == a;
        assert t[m] == a;
      }
    }
  }

  lemma RemoveElement(s: seq<int>, k: nat)
    requires k < |s| && Distinct(s)
    ensures Distinct(s[..k] + s[k + 1..])
    ensures Elements(s[..k] + s[k + 1..]) == Elements(s) - {s[k]}
  {
    var t := s[..k] + s[k + 1..];
    assert forall m :: 0 <= m < |t| ==> t[m] == s[if m < k then m else m + 1];
    forall a | a in Elements(s) - {s[k]} ensures a in Elements(t) {
      var m :| 0 <= m < |s| && s[m] == a;
      assert t[if m < k then m else m - 1] == a;
    }
  }

  /** Taking the row at `current` and writing back the displaced one at either place
      neither loses nor duplicates a pending row. */
  lemma PendingAfterTry(w: Work, n: nat, held: int, r: Work)
    requires w.Valid(n) && w.current < |w.rows| && r.Valid(n)
    requires held >= 0 ==> held !in w.Pending()
    requires Distinct(w.Pending())
    requires if held < 0 then r.rows == w.rows && r.current == w.current + 1 && r.kept == w.kept
             else || (r.rows == w.rows[w.current := held] && r.current == w.current && r.kept == w.kept)
                  || (r.rows == w.rows[w.kept := held] && r.current == w.current + 1 && r.kept == w.kept + 1)
    ensures Distinct(r.Pending())
    ensures Elements(r.Pending()) ==
      Elements(w.Pending()) - {w.rows[w.current]} + (if held >= 0 then {held} else {})
  {
    var p := w.Pending();
    assert p[w.kept] == w.rows[w.current];
    if held < 0 {
      RemoveElement(p, w.kept);
      assert r.Pending() == p[..w.kept] + p[w.kept + 1..];
    } else {
      ReplaceElement(p, w.kept, held);
      assert r.Pending() == p[w.kept := held];
    }
  }

  /** Whichever of the two best columns is taken, at the price that goes with it, it is a cheapest one. */
  lemma ChosenIsCheapest(cost: Matrix, n: nat, v: seq<real>, i: int, j: int, price: real)
    requires Square(cost, n) && |v| == n && 0 <= i < n && n >= 1
    requires forall k :: 0 <= k < n ==> Reduced(cost, v, i, k) < LARGE
    requires var b := TwoBest(cost, n, v, i, n);
      || (j == b.j1 && (price == v[j] || price == v[j] - (b.v2 - b.v1)))
      || (j == b.j2 && b.j2 >= 0 && price == v[j] && b.v2 == b.v1)
    ensures price <= v[j] && Cheapest(cost, n, v[j := price], i, j)
  {
    TwoBestAreBest(cost, n, v, i, n);
    var b := TwoBest(cost, n, v, i, n);
    var v' := v[j := price];
    forall k | 0 <= k < n ensures Reduced(cost, v', i, j) <= Reduced(cost, v', i, k) {
      assert b.v1 <= Reduced(cost, v, i, k);
    }
  }

  lemma TryIsSound(cost: Matrix, n: nat, w: Work, lo: real, hi: real)
    requires Square(cost, n) && Within(cost, lo, hi) && n >= 1
    requires Sound(cost, n, w) && w.current < |w.rows|
    ensures Sound(cost, n, Try(cost, n, w))
  {
    hide Slack, Priced, Cheapest, Within;
    var free := Elements(w.Pending());
    var i := w.rows[w.current];
    assert w.Pending()[w.kept] == i && i in free;
    ReducedCostsStayBelowSentinel(cost, n, w.x, w.y, w.v, free, lo, hi);
    TwoBestAreBest(cost, n, w.v, i, n);
    var b := TwoBest(cost, n, w.v, i, n);
    var r := Try(cost, n, w);
    var early := w.tries + 1 < Allowed(w.current + 1, n);
    var lowered := w.v[b.j1] - (b.v2 - b.v1);
    var lowers := early && lowered < w.v[b.j1];
    var j := if early && !lowers && w.y[b.j1] >= 0 && b.j2 >= 0 then b.j2 else b.j1;
    var price := if lowers then lowered else w.v[j];
    ChosenIsCheapest(cost, n, w.v, i, j, price);
    AssignKeepsState(cost, n, w.x, w.y, w.v, free, i, j, price);
    assert r.v == w.v[j := price];
    PendingAfterTry(w, n, w.y[j], r);
  }

  /** The whole phase keeps the solver's invariant. */
  lemma {:induction false} RunIsSound(cost: Matrix, n: nat, w: Work, lo: real, hi: real)
    requires Square(cost, n) && Within(cost, lo, hi) && n >= 1
    requires Sound(cost, n, w)
    ensures Sound(cost, n, Run(cost, n, w))
    decreases if Allowed(|w.rows|, n) > w.tries then Allowed(|w.rows|, n) - w.tries else 0, |w.rows| - w.current
  {
    if w.current < |w.rows| {
      AllowedGrows(w.current + 1, |w.rows|, n);
      TryIsSound(cost, n, w, lo, hi);
      RunIsSound(cost, n, Try(cost, n, w), lo, hi);
    }
  }

  /** No column loses its row altogether, and prices only fall. */
  lemma {:induction false} RunOnlyImproves(cost: Matrix, n: nat, w: Work)
    requires Square(cost, n) && n >= 1 && w.Valid(n)
    ensures forall j :: 0 <= j < n && w.y[j] >= 0 ==> Run(cost, n, w).y[j] >= 0
    ensures forall j :: 0 <= j < n ==> Run(cost, n, w).v[j] <= w.v[j]
    decreases if Allowed(|w.rows|, n) > w.tries then Allowed(|w.rows|, n) - w.tries else 0, |w.rows| - w.current
  {
    if w.current < |w.rows| {
      AllowedGrows(w.current + 1, |w.rows|, n);
      RunOnlyImproves(cost, n, Try(cost, n, w));
    }
  }

  lemma StartIsSound(cost: Matrix, n: nat, x: seq<int>, y: seq<int>, v: seq<real>, rows: seq<int>)
    requires Square(cost, n) && Distinct(rows)
    requires State(cost, n, x, y, v, Elements(rows))
    ensures Sound(cost, n, Work(x, y, v, rows, 0, 0, 0))
  {
    var w := Work(x, y, v, rows, 0, 0, 0);
    assert w.Pending() == rows;
    assert forall k :: 0 <= k < |rows| ==> rows[k] in Elements(rows);
  }

  lemma RunStep(cost: Matrix, n: nat, w: Work)
    requires Square(cost, n) && n >= 1 && w.Valid(n)
    ensures w.current < |w.rows| ==> Run(cost, n, Try(cost, n, w)) == Run(cost, n, w)
    ensures w.current == |w.rows| ==> Run(cost, n, w) == w
  {
  }

  lemma RunEnds(cost: Matrix, n: nat, w: Work, lo: real, hi: real)
    requires Square(cost, n) && Within(cost, lo, hi) && n >= 1
    requires Sound(cost, n, w) && w.current == w.kept == w.tries == 0
    ensures var r := Run(cost, n, w);
      && r.Valid(n) && r.kept <= |w.rows|
      && Distinct(r.rows[..r.kept])
      && State(cost, n, r.x, r.y, r.v, Elements(r.rows[..r.kept]))
  {
    hide State, Within, Square, Distinct, Elements, Run;
    RunIsSound(cost, n, w, lo, hi);
    var r := Run(cost, n, w);
    assert r.Pending() == r.rows[..r.kept];
  }

  method TwoCheapest(cost: Matrix, n: nat, v: array<real>, i: int) returns (j1: int, v1: real, j2: int, v2: real)
    requires Square(cost, n) && v.Length == n && 0 <= i < n
    ensures Best(j1, v1, j2, v2) == TwoBest(cost, n, v[..], i, n)
  {
    j1, v1, j2, v2 := 0, cost[i][0] - v[0], -1, LARGE;
    for j := 1 to n
      invariant Best(j1, v1, j2, v2) == TwoBest(cost, n, v[..], i, j)
    {
      var c := cost[i][j] - v[j];
      if c < v2 {
        if c >= v1 {
          v2 := c;
          j2 := j;
        } else {
          v2 := v1;
          v1 := c;
          j2 := j1;
          j1 := j;
        }
      }
    }
  }

  /** The body of the phase's loop. */
  method TryRow(
    cost: Matrix, n: nat, count: nat, freeRows: array<int>, x: array<int>, y: array<int>, v: array<real>,
    current: nat, kept: nat, tries: nat)
    returns (current': nat, kept': nat, tries': nat)
    requires n >= 1 && Square(cost, n)
    requires freeRows != x && freeRows != y && x != y
    requires freeRows.Length == x.Length == y.Length == v.Length == n
    requires kept <= current < count <= n
    requires Work(x[..], y[..], v[..], freeRows[..count], current, kept, tries).Valid(n)
    modifies freeRows, x, y, v
    ensures kept' <= current' <= count
    ensures Work(x[..], y[..], v[..], freeRows[..count], current', kept', tries') ==
      Try(cost, n, old(Work(x[..], y[..], v[..], freeRows[..count], current, kept, tries)))
  {
    hide TwoBest, Square, Allowed;
    ghost var w := Work(x[..], y[..], v[..], freeRows[..count], current, kept, tries);
    ghost var r := Try(cost, n, w);
    current', kept', tries' := current, kept, tries + 1;
    var i := freeRows[current'];
    current' := current' + 1;
    var j1, v1, j2, v2 := TwoCheapest(cost, n, v, i);
    ghost var b := TwoBest(cost, n, w.v, i, n);
    assert b == Best(j1, v1, j2, v2);
    AllowedIsProduct(current', n);
    var i0 := y[j1];
    var lowered := v[j1] - (v2 - v1);
    var lowers := lowered < v[j1];
    if tries' < current' * n {
      if lowers {
        v[j1] := lowered;
      } else if i0 >= 0 && j2 >= 0 {
        j1 := j2;
        i0 := y[j2];
      }
      if i0 >= 0 {
        if lowers {
          current' := current' - 1;
          freeRows[current'] := i0;
        } else {
          freeRows[kept'] := i0;
          kept' := kept' + 1;
        }
      }
    } else if i0 >= 0 {
      freeRows[kept'] := i0;
      kept' := kept' + 1;
    }
    assert freeRows[..count] == r.rows && v[..] == r.v;
    x[i] := j1;
    y[j1] := i;
  }

  method ReduceRows(
    cost: Matrix, n: nat, count: nat, freeRows: array<int>, x: array<int>, y: array<int>, v: array<real>,
    ghost lo: real, ghost hi: real)
    returns (kept: nat, ghost tries: nat)
    requires n >= 1 && Square(cost, n) && Within(cost, lo, hi)
    requires freeRows != x && freeRows != y && x != y
    requires freeRows.Length == x.Length == y.Length == v.Length == n
    requires count <= n && Distinct(freeRows[..count])
    requires State(cost, n, x[..], y[..], v[..], Elements(freeRows[..count]))
    modifies freeRows, x, y, v
    ensures kept <= count
    ensures Distinct(freeRows[..kept])
    ensures State(cost, n, x[..], y[..], v[..], Elements(freeRows[..kept]))
    ensures var w := Work(old(x[..]), old(y[..]), old(v[..]), old(freeRows[..count]), 0, 0, 0);
      w.Valid(n) && Run(cost, n, w) == Work(x[..], y[..], v[..], freeRows[..count], count, kept, tries)
    ensures tries <= count * (n + 1)
  {
    hide State, Run, Try, Within, Distinct, Elements, Allowed;
    var current, rrCount := 0, 0;
    kept := 0;
    ghost var start := Work(x[..], y[..], v[..], freeRows[..count], 0, 0, 0);
    StartIsSound(cost, n, x[..], y[..], v[..], freeRows[..count]);
    ghost var w := start;
    while current < count
      invariant 0 <= kept <= current <= count
      invariant w.Valid(n) && w == Work(x[..], y[..], v[..], freeRows[..count], current, kept, rrCount)
      invariant Run(cost, n, w) == Run(cost, n, start)
      decreases if Allowed(count, n) > rrCount then Allowed(count, n) - rrCount else 0, count - current
    {
      RunStep(cost, n, w);
      AllowedGrows(current + 1, count, n);
      w := Try(cost, n, w);
      current, kept, rrCount := TryRow(cost, n, count, freeRows, x, y, v, current, kept, rrCount);
    }
    RunStep(cost, n, w);
    RunEnds(cost, n, start, lo, hi);
    AttemptsAreBounded(cost, n, start);
    AllowedIsProduct(count, n);
    assert freeRows[..count][..kept] == freeRows[..kept];
    tries := rrCount;
  }
}
