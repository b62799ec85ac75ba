/**
 Totals over a table of threads.  Every protocol of this project keeps one record
 per thread, and its counters are compared with sums over those records.
 */
module Sums {

  function Sum<T>(s: seq<T>, f: T -> nat): nat {
    if s == [] then 0 else f(s[0]) + Sum(s[1..], f)
  }

  /** Replacing one record moves a total by exactly the difference of the two records. */
  lemma {:induction false} SumUpdate<T>(s: seq<T>, i: nat, x: T, f: T -> nat)
    requires i < |s|
    ensures Sum(s[i := x], f) + f(s[i]) == Sum(s, f) + f(x)
  {
    if i == 0 {
      assert s[0 := x][1..] == s[1..];
    } else {
      SumUpdate(s[1..], i - 1, x, f);
      assert s[i := x][1..] == s[1..][i - 1 := x];
    }
  }

  lemma {:induction false} SumAtLeast<T>(s: seq<T>, i: nat, f: T -> nat)
    requires i < |s|
    ensures f(s[i]) <= Sum(s, f)
  {
    if i > 0 {
      SumAtLeast(s[1..], i - 1, f);
    }
  }

  /** Two records contribute together. */
  lemma {:induction false} SumAtLeastTwo<T>(s: seq<T>, i: nat, j: nat, f: T -> nat)
    requires i < j < |s|
    ensures f(s[i]) + f(s[j]) <= Sum(s, f)
  {
    if i > 0 {
      SumAtLeastTwo(s[1..], i - 1, j - 1, f);
    } else {
      SumAtLeast(s[1..], j - 1, f);
    }
  }

  lemma {:induction false} SumConst<T>(s: seq<T>, f: T -> nat, k: nat)
    requires forall i :: 0 <= i < |s| ==> f(s[i]) == k
    ensures Sum(s, f) == |s| * k
  {
    if s != [] {
      SumConst(s[1..], f, k);
      assert |s| * k == k + (|s| - 1) * k;
    }
  }

  lemma {:induction false} SumBounded<T>(s: seq<T>, f: T -> nat, k: nat)
    requires forall i :: 0 <= i < |s| ==> f(s[i]) <= k
    ensures Sum(s, f) <= |s| * k
  {
    if s != [] {
      SumBounded(s[1..], f, k);
      assert |s| * k == k + (|s| - 1) * k;
    }
  }

  lemma {:induction false} SumAppend<T>(s: seq<T>, x: T, f: T -> nat)
    ensures Sum(s + [x], f) == Sum(s, f) + f(x)
  {
    if s != [] {
      SumAppend(s[1..], x, f);
      assert (s + [x])[1..] == s[1..] + [x];
    }
  }

  /** Two tables that agree record by record have the same total. */
  lemma {:induction false} SumSame<T>(s: seq<T>, t: seq<T>, f: T -> nat)
    requires |s| == |t|
    requires forall i :: 0 <= i < |s| ==> f(s[i]) == f(t[i])
    ensures Sum(s, f) == Sum(t, f)
  {
    if s != [] {
      assert forall i :: 0 <= i < |s| - 1 ==> s[1..][i] == s[i + 1] && t[1..][i] == t[i + 1];
      SumSame(s[1..], t[1..], f);
    }
  }

  /** A positive total has a record that contributes to it. */
  lemma {:induction false} SumWitness<T>(s: seq<T>, f: T -> nat) returns (i: nat)
    requires Sum(s, f) > 0
    ensures i < |s| && f(s[i]) > 0
  {
    if f(s[0]) > 0 {
      i := 0;
    } else {
      var j := SumWitness(s[1..], f);
      i := j + 1;
    }
  }

  /** A lexicographic drop, as a drop of one number; `n` bounds the lower component. */
  lemma LexicographicDrop(hi: nat, hi': nat, lo: nat, lo': nat, n: nat)
    requires hi' < hi || (hi' == hi && lo' < lo)
    requires lo' <= n
    ensures hi' * (n + 1) + lo' < hi * (n + 1) + lo
  {
    if hi' < hi {
      assert hi' * (n + 1) + (n + 1) == (hi' + 1) * (n + 1) <= hi * (n + 1);
    }
  }
}
