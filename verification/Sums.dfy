/** Finite sums of integer-valued measures over sequences of rows. */
module Sums {

  function SumOf<T>(s: seq<T>, f: T -> int): int {
    if s == [] then 0 else SumOf(s[..|s| - 1], f) + f(s[|s| - 1])
  }

  lemma SumAppend<T>(s: seq<T>, x: T, f: T -> int)
    ensures SumOf(s + [x], f) == SumOf(s, f) + f(x)
  {
    assert (s + [x])[..|s|] == s;
  }

  lemma {:induction false} SumConcat<T>(s: seq<T>, t: seq<T>, f: T -> int)
    ensures SumOf(s + t, f) == SumOf(s, f) + SumOf(t, f)
  {
    if t == [] {
      assert s + t == s;
    } else {
      var k := |t| - 1;
      assert s + t == (s + t[..k]) + [t[k]];
      SumConcat(s, t[..k], f);
      SumAppend(s + t[..k], t[k], f);
    }
  }

  lemma {:induction false} SumUpdate<T>(s: seq<T>, i: nat, x: T, f: T -> int)
    requires i < |s|
    ensures SumOf(s[i := x], f) == SumOf(s, f) - f(s[i]) + f(x)
  {
    var k := |s| - 1;
    if i == k {
      assert s[i := x][..k] == s[..k];
    } else {
      assert s[i := x][..k] == s[..k][i := x];
      SumUpdate(s[..k], i, x, f);
    }
  }

  /** Rows that the measure does not see add nothing. */
  lemma {:induction false} SumZero<T>(s: seq<T>, f: T -> int)
    requires forall i :: 0 <= i < |s| ==> f(s[i]) == 0
    ensures SumOf(s, f) == 0
  {
    if s != [] {
      SumZero(s[..|s| - 1], f);
    }
  }

  /** Two measures that agree on every row (of two tables of one length) have one sum. */
  lemma {:induction false} SumAgree<T>(s: seq<T>, t: seq<T>, f: T -> int, g: T -> int)
    requires |s| == |t|
    requires forall i :: 0 <= i < |s| ==> f(s[i]) == g(t[i])
    ensures SumOf(s, f) == SumOf(t, g)
  {
    if s != [] {
      SumAgree(s[..|s| - 1], t[..|s| - 1], f, g);
    }
  }

  lemma {:induction false} SumNonNegative<T>(s: seq<T>, f: T -> int)
    requires forall i :: 0 <= i < |s| ==> f(s[i]) >= 0
    ensures SumOf(s, f) >= 0
    ensures forall i :: 0 <= i < |s| ==> f(s[i]) <= SumOf(s, f)
  {
    if s != [] {
      SumNonNegative(s[..|s| - 1], f);
    }
  }

  lemma {:induction false} SumAtMost<T>(s: seq<T>, f: T -> int, g: T -> int)
    requires forall i :: 0 <= i < |s| ==> f(s[i]) <= g(s[i])
    ensures SumOf(s, f) <= SumOf(s, g)
  {
    if s != [] {
      SumAtMost(s[..|s| - 1], f, g);
    }
  }

  lemma {:induction false} SumConst<T>(s: seq<T>, f: T -> int, c: int)
    requires forall i :: 0 <= i < |s| ==> f(s[i]) == c
    ensures SumOf(s, f) == |s| * c
  {
    if s != [] {
      SumConst(s[..|s| - 1], f, c);
    }
  }

  /** Exactly one row carries the whole sum. */
  lemma {:induction false} SumSingle<T>(s: seq<T>, f: T -> int, k: nat)
    requires k < |s|
    requires forall i :: 0 <= i < |s| && i != k ==> f(s[i]) == 0
    ensures SumOf(s, f) == f(s[k])
  {
    var n := |s| - 1;
    if k == n {
      SumZero(s[..n], f);
    } else {
      SumSingle(s[..n], f, k);
    }
  }

  /** Sum of f(0) .. f(n-1). */
  function SumTo(n: nat, f: nat -> int): int {
    if n == 0 then 0 else SumTo(n - 1, f) + f(n - 1)
  }

  lemma {:induction false} SumToAgree(n: nat, f: nat -> int, g: nat -> int)
    requires forall i: nat :: i < n ==> f(i) == g(i)
    ensures SumTo(n, f) == SumTo(n, g)
  {
    if n > 0 {
      SumToAgree(n - 1, f, g);
    }
  }

  lemma {:induction false} SumToAtMost(n: nat, f: nat -> int, g: nat -> int)
    requires forall i: nat :: i < n ==> f(i) <= g(i)
    ensures SumTo(n, f) <= SumTo(n, g)
  {
    if n > 0 {
      SumToAtMost(n - 1, f, g);
    }
  }

  lemma {:induction false} SumToAdd(n: nat, f: nat -> int, g: nat -> int, h: nat -> int)
    requires forall i: nat :: i < n ==> h(i) == f(i) + g(i)
    ensures SumTo(n, h) == SumTo(n, f) + SumTo(n, g)
  {
    if n > 0 {
      SumToAdd(n - 1, f, g, h);
    }
  }

  lemma {:induction false} SumToNonNegative(n: nat, f: nat -> int)
    requires forall i: nat :: i < n ==> f(i) >= 0
    ensures SumTo(n, f) >= 0
    ensures forall i: nat :: i < n ==> f(i) <= SumTo(n, f)
  {
    if n > 0 {
      SumToNonNegative(n - 1, f);
    }
  }

  lemma {:induction false} SumToSingle(n: nat, f: nat -> int, k: nat)
    requires k < n && forall i: nat :: i < n && i != k ==> f(i) == 0
    ensures SumTo(n, f) == f(k)
  {
    if k < n - 1 {
      SumToSingle(n - 1, f, k);
    } else {
      SumToZero(n - 1, f);
    }
  }

  lemma {:induction false} SumToZero(n: nat, f: nat -> int)
    requires forall i: nat :: i < n ==> f(i) == 0
    ensures SumTo(n, f) == 0
  {
    if n > 0 {
      SumToZero(n - 1, f);
    }
  }

  /** Of two measures, one below the other, the sums are equal exactly when the measures agree everywhere. */
  lemma {:induction false} SumEqualExactly<T>(s: seq<T>, f: T -> int, g: T -> int)
    requires forall i :: 0 <= i < |s| ==> f(s[i]) <= g(s[i])
    ensures SumOf(s, f) <= SumOf(s, g)
    ensures SumOf(s, f) == SumOf(s, g) <==> forall i :: 0 <= i < |s| ==> f(s[i]) == g(s[i])
  {
    if s != [] {
      SumEqualExactly(s[..|s| - 1], f, g);
    }
  }

  lemma {:induction false} SumToEqualExactly(n: nat, f: nat -> int, g: nat -> int)
    requires forall i: nat :: i < n ==> f(i) <= g(i)
    ensures SumTo(n, f) <= SumTo(n, g)
    ensures SumTo(n, f) == SumTo(n, g) <==> forall i: nat :: i < n ==> f(i) == g(i)
  {
    if n > 0 {
      SumToEqualExactly(n - 1, f, g);
    }
  }

  function ByIndex<T>(s: seq<T>, f: T -> int): nat -> int {
    (i: nat) => if i < |s| then f(s[i]) else 0
  }

  /** A sum over rows is a sum over row numbers. */
  lemma {:induction false} SumByIndex<T>(s: seq<T>, f: T -> int)
    ensures SumOf(s, f) == SumTo(|s|, ByIndex(s, f))
  {
    if s != [] {
      var n := |s| - 1;
      SumByIndex(s[..n], f);
      SumToAgree(n, ByIndex(s[..n], f), ByIndex(s, f));
    }
  }

  function Scaled(c: int, f: nat -> int): nat -> int {
    (i: nat) => c * f(i)
  }

  lemma {:induction false} SumToScaled(n: nat, c: int, f: nat -> int)
    ensures SumTo(n, Scaled(c, f)) == c * SumTo(n, f)
  {
    if n > 0 {
      SumToScaled(n - 1, c, f);
      assert c * (SumTo(n - 1, f) + f(n - 1)) == c * SumTo(n - 1, f) + c * f(n - 1);
    }
  }

  lemma {:induction false} SumToShifted(n: nat, f: nat -> int, h: nat -> int, c: int)
    requires forall i: nat :: i < n ==> h(i) == f(i) - c
    ensures SumTo(n, h) == SumTo(n, f) - n * c
  {
    if n > 0 {
      SumToShifted(n - 1, f, h, c);
    }
  }
}
