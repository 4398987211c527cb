/** Totals over tables and the least index with a property. */
module Sums {

  ghost function Sum<T>(f: T -> nat, s: seq<T>): nat {
    if s == [] then 0 else Sum(f, s[..|s| - 1]) + f(s[|s| - 1])
  }

  lemma {:induction false} SumUpdate<T>(f: T -> nat, s: seq<T>, k: nat, x: T)
    requires k < |s|
    ensures Sum(f, s[k := x]) == Sum(f, s) - f(s[k]) + f(x)
  {
    var n := |s| - 1;
    if k == n {
      assert s[k := x][..n] == s[..n];
    } else {
      assert s[k := x][..n] == s[..n][k := x];
      SumUpdate(f, s[..n], k, x);
    }
  }

  /** One element contributes no more than the total. */
  lemma {:induction false} SumAtLeast<T>(f: T -> nat, s: seq<T>, k: nat)
    requires k < |s|
    ensures f(s[k]) <= Sum(f, s)
  {
    if k < |s| - 1 {
      SumAtLeast(f, s[..|s| - 1], k);
    }
  }

  /** A table that is nowhere larger has no larger total, and a smaller one if it is smaller at `k`. */
  lemma {:induction false} SumLess<T>(f: T -> nat, a: seq<T>, b: seq<T>, k: nat)
    requires |a| == |b| && forall i | 0 <= i < |a| :: f(a[i]) <= f(b[i])
    ensures Sum(f, a) <= Sum(f, b)
    ensures k < |a| && f(a[k]) < f(b[k]) ==> Sum(f, a) < Sum(f, b)
  {
    if a != [] {
      var n := |a| - 1;
      SumLess(f, a[..n], b[..n], k);
    }
  }

  /** A table of flags: the total is at most its length, and equal to it only when all are set. */
  lemma {:induction false} SumOfFlags<T>(f: T -> nat, s: seq<T>)
    requires forall x :: f(x) <= 1
    ensures Sum(f, s) <= |s|
    ensures Sum(f, s) == |s| <==> forall k | 0 <= k < |s| :: f(s[k]) == 1
  {
    if s != [] {
      SumOfFlags(f, s[..|s| - 1]);
    }
  }

  /** The least index whose element has property `p`, or -1 when there is none. */
  function Least<T>(p: T -> bool, s: seq<T>): (r: int)
    ensures -1 <= r < |s|
    ensures r >= 0 ==> p(s[r]) && forall k | 0 <= k < r :: !p(s[k])
    ensures r == -1 <==> forall k | 0 <= k < |s| :: !p(s[k])
  {
    LeastFrom(p, s, 0)
  }

  function LeastFrom<T>(p: T -> bool, s: seq<T>, from: nat): (r: int)
    requires from <= |s|
    ensures -1 <= r < |s|
    ensures r >= 0 ==> from <= r && p(s[r]) && forall k | from <= k < r :: !p(s[k])
    ensures r == -1 <==> forall k | from <= k < |s| :: !p(s[k])
    decreases |s| - from
  {
    if from == |s| then -1 else if p(s[from]) then from else LeastFrom(p, s, from + 1)
  }
}
