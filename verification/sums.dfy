/** Weighted sums over sequences: every counter in the models below is compared with one. */
module Sums {

  function Sum<T>(s: seq<T>, w: T -> nat): nat {
    if s == [] then 0 else w(s[0]) + Sum(s[1..], w)
  }

  lemma {:induction false} SumUpdate<T>(s: seq<T>, i: nat, x: T, w: T -> nat)
    requires i < |s|
    ensures Sum(s[i := x], w) + w(s[i]) == Sum(s, w) + w(x)
  {
    if i == 0 {
      assert s[0 := x][1..] == s[1..];
    } else {
      assert s[i := x][1..] == s[1..][i - 1 := x];
      SumUpdate(s[1..], i - 1, x, w);
    }
  }

  lemma {:induction false} SumAppend<T>(s: seq<T>, x: T, w: T -> nat)
    ensures Sum(s + [x], w) == Sum(s, w) + w(x)
  {
    if s == [] {
      assert s + [x] == [x];
    } else {
      assert (s + [x])[1..] == s[1..] + [x];
      SumAppend(s[1..], x, w);
    }
  }

  lemma {:induction false} SumAtLeast<T>(s: seq<T>, i: nat, w: T -> nat)
    requires i < |s|
    ensures w(s[i]) <= Sum(s, w)
  {
    if i > 0 {
      SumAtLeast(s[1..], i - 1, w);
    }
  }

  /** Two different places contribute separately. */
  lemma {:induction false} SumAtLeastTwo<T>(s: seq<T>, i: nat, j: nat, w: T -> nat)
    requires i < j < |s|
    ensures w(s[i]) + w(s[j]) <= Sum(s, w)
  {
    if i == 0 {
      SumAtLeast(s[1..], j - 1, w);
    } else {
      SumAtLeastTwo(s[1..], i - 1, j - 1, w);
    }
  }

  /** A positive sum has a positive place. */
  lemma {:induction false} SumPositive<T>(s: seq<T>, w: T -> nat) returns (i: nat)
    requires Sum(s, w) > 0
    ensures i < |s| && w(s[i]) > 0
  {
    if w(s[0]) > 0 {
      i := 0;
    } else {
      i := SumPositive(s[1..], w);
      i := i + 1;
    }
  }

  lemma {:induction false} SumConstant<T>(s: seq<T>, k: nat, w: T -> nat)
    requires forall i | 0 <= i < |s| :: w(s[i]) == k
    ensures Sum(s, w) == |s| * k
  {
    if s == [] {
    } else {
      SumConstant(s[1..], k, w);
    }
  }

  lemma {:induction false} SumMonotone<T>(s: seq<T>, v: T -> nat, w: T -> nat)
    requires forall i | 0 <= i < |s| :: v(s[i]) <= w(s[i])
    ensures Sum(s, v) <= Sum(s, w)
  {
    if s == [] {
    } else {
      SumMonotone(s[1..], v, w);
    }
  }

  lemma {:induction false} SumBounded<T>(s: seq<T>, w: T -> nat)
    requires forall i | 0 <= i < |s| :: w(s[i]) <= 1
    ensures Sum(s, w) <= |s|
  {
    if s == [] {
    } else {
      SumBounded(s[1..], w);
    }
  }
}
