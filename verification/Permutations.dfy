/** Permutations of the first n naturals, written as the sequence of their images,
    and sums taken along them. */
module Permutations {

  ghost predicate InRange(p: seq<int>, n: nat) {
    forall i :: 0 <= i < |p| ==> 0 <= p[i] < n
  }

  ghost predicate Distinct<T>(p: seq<T>) {
    forall i, j :: 0 <= i < j < |p| ==> p[i] != p[j]
  }

  ghost predicate IsPermutation(p: seq<int>, n: nat) {
    |p| == n && InRange(p, n) && Distinct(p)
  }

  ghost function Elements<T>(s: seq<T>): set<T> {
    set e | e in s
  }

  /** The set {0, .., n-1}. */
  ghost function Below(n: nat): (s: set<int>)
    ensures forall k :: k in s <==> 0 <= k < n
  {
    if n == 0 then {} else Below(n - 1) + {n - 1}
  }

  ghost function Sum(s: seq<real>): real {
    if s == [] then 0.0 else Sum(s[..|s| - 1]) + s[|s| - 1]
  }

  /** The values of f at the elements of p, in order. */
  ghost function Along(f: seq<real>, p: seq<int>): seq<real>
    requires InRange(p, |f|)
  {
    seq(|p|, i requires 0 <= i < |p| => f[p[i]])
  }

  lemma {:induction false} BelowSize(n: nat)
    ensures |Below(n)| == n
  {
    if n > 0 {
      var s := Below(n - 1);
      BelowSize(n - 1);
      assert n - 1 !in s;
      assert |s + {n - 1}| == |s| + 1;
    }
  }

  lemma {:induction false} DistinctSize<T>(s: seq<T>)
    requires Distinct(s)
    ensures |Elements(s)| == |s|
  {
    if s == [] {
      assert Elements(s) == {};
    } else {
      var t := s[..|s| - 1];
      DistinctSize(t);
      assert s == t + [s[|s| - 1]];
      assert Elements(s) == Elements(t) + {s[|s| - 1]};
    }
  }

  /** Pigeonhole: a permutation reaches every value. */
  lemma PermutationIsOnto(p: seq<int>, n: nat, v: int)
    requires IsPermutation(p, n) && 0 <= v < n
    ensures v in p
  {
    if v !in p {
      DistinctSize(p);
      BelowSize(n);
      assert v in Below(n) && v !in Elements(p);
      assert Elements(p) <= Below(n) - {v};
      SubsetSize(Elements(p), Below(n) - {v});
    }
  }

  lemma {:induction false} SubsetSize<T>(a: set<T>, b: set<T>)
    requires a <= b
    ensures |a| <= |b|
  {
    if a != {} {
      var e :| e in a;
      SubsetSize(a - {e}, b - {e});
    }
  }

  lemma Pick<T>(a: set<T>) returns (e: T)
    requires a != {}
    ensures e in a
  {
    e :| e in a;
  }

  /** A set that f maps injectively into another is no larger. */
  lemma {:induction false} Injection(a: set<int>, b: set<int>, f: seq<int>)
    requires forall i :: i in a ==> 0 <= i < |f| && f[i] in b
    requires forall i, j :: i in a && j in a && i != j ==> f[i] != f[j]
    ensures |a| <= |b|
  {
    if a != {} {
      var i := Pick(a);
      Injection(a - {i}, b - {f[i]}, f);
    }
  }

  /** Overwriting one term changes a sum by the difference. */
  lemma {:induction false} SumUpdate(s: seq<real>, k: nat, w: real)
    requires k < |s|
    ensures Sum(s[k := w]) == Sum(s) - s[k] + w
  {
    var m := |s| - 1;
    if k == m {
      assert s[k := w][..m] == s[..m];
    } else {
      SumUpdate(s[..m], k, w);
      assert s[k := w][..m] == s[..m][k := w];
    }
  }

  /** The sum of f along a permutation does not depend on the permutation. */
  lemma {:induction false} SumAlongPermutation(f: seq<real>, p: seq<int>)
    requires IsPermutation(p, |f|)
    ensures Sum(Along(f, p)) == Sum(f)
  {
    var n := |f|;
    if n == 0 {
      assert Along(f, p) == f;
      return;
    }
    var last := n - 1;
    PermutationIsOnto(p, n, last);
    var k :| 0 <= k < n && p[k] == last;
    var q := Closed(p, k);
    ClosedIsPermutation(p, k);
    SumAlongPermutation(f[..last], q);
    var a := Along(f, p);
    var b := a[k := f[p[last]]];
    SumUpdate(a, k, f[p[last]]);
    assert b[..last] == Along(f[..last], q);
    assert Sum(b) == Sum(b[..last]) + f[p[last]] by {
      assert b[last] == f[p[last]];
    }
  }

  /** p without its greatest value, which stands in place k: the last value moves there. */
  function Closed(p: seq<int>, k: nat): seq<int>
    requires k < |p|
  {
    p[k := p[|p| - 1]][..|p| - 1]
  }

  lemma ClosedIsPermutation(p: seq<int>, k: nat)
    requires k < |p| && IsPermutation(p, |p|) && p[k] == |p| - 1
    ensures IsPermutation(Closed(p, k), |p| - 1)
  {
    var last, q := |p| - 1, Closed(p, k);
    forall i | 0 <= i < last ensures 0 <= q[i] < last {
      assert q[i] == if i == k then p[last] else p[i];
    }
    forall i, j | 0 <= i < j < last ensures q[i] != q[j] {
      assert q[i] == if i == k then p[last] else p[i];
      assert q[j] == if j == k then p[last] else p[j];
    }
  }

  lemma {:induction false} SumMonotone(a: seq<real>, b: seq<real>)
    requires |a| == |b|
    requires forall i :: 0 <= i < |a| ==> a[i] <= b[i]
    ensures Sum(a) <= Sum(b)
  {
    if a != [] {
      SumMonotone(a[..|a| - 1], b[..|b| - 1]);
    }
  }

  lemma {:induction false} SumDifference(a: seq<real>, b: seq<real>, c: seq<real>)
    requires |a| == |b| == |c|
    requires forall i :: 0 <= i < |a| ==> c[i] == a[i] - b[i]
    ensures Sum(c) == Sum(a) - Sum(b)
  {
    if a != [] {
      var m := |a| - 1;
      SumDifference(a[..m], b[..m], c[..m]);
    }
  }

  lemma {:induction false} SumAdd(a: seq<real>, b: seq<real>, c: seq<real>)
    requires |a| == |b| == |c|
    requires forall i :: 0 <= i < |a| ==> c[i] == a[i] + b[i]
    ensures Sum(c) == Sum(a) + Sum(b)
  {
    if a != [] {
      var m := |a| - 1;
      SumAdd(a[..m], b[..m], c[..m]);
    }
  }

  ghost function Times(k: nat, w: real): real {
    (k as real) * w
  }

  lemma TimesAdd(a: nat, b: nat, w: real)
    ensures Times(a, w) + Times(b, w) == Times(a + b, w)
  {
  }

  /** k terms w among zeros. */
  lemma {:induction false} SumLeading(s: seq<real>, k: nat, w: real)
    requires k <= |s|
    requires forall i :: 0 <= i < |s| ==> s[i] == if i < k then w else 0.0
    ensures Sum(s) == Times(k, w)
  {
    if s != [] {
      var m := |s| - 1;
      SumLeading(s[..m], if k == |s| then k - 1 else k, w);
    }
  }

  /** Trailing zeros add nothing. */
  lemma {:induction false} SumPadded(s: seq<real>, k: nat)
    requires k <= |s|
    requires forall i :: k <= i < |s| ==> s[i] == 0.0
    ensures Sum(s) == Sum(s[..k])
  {
    if k == |s| {
      assert s[..k] == s;
    } else {
      SumPadded(s[..|s| - 1], k);
      assert s[..|s| - 1][..k] == s[..k];
    }
  }
}
