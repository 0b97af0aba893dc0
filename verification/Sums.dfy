/** Sums of a natural-valued measure over the entries of a sequence. The concurrent
    models keep one entry per thread, so a step changes one entry and the sums
    below by the difference at that entry. */
module Sums {

  function Sum<T>(f: T -> nat, s: seq<T>): (total: nat)
  {
    if s == [] then 0 else f(s[0]) + Sum(f, s[1..])
  }

  lemma {:induction false} SumUpdate<T>(f: T -> nat, s: seq<T>, i: nat, x: T)
    requires i < |s|
    ensures Sum(f, s[i := x]) + f(s[i]) == Sum(f, s) + f(x)
  {
    if i == 0 {
      assert s[i := x][1..] == s[1..];
    } else {
      assert s[i := x][1..] == s[1..][i - 1 := x];
      SumUpdate(f, s[1..], i - 1, x);
    }
  }

  lemma {:induction false} SumEntry<T>(f: T -> nat, s: seq<T>, i: nat)
    requires i < |s|
    ensures f(s[i]) <= Sum(f, s)
  {
    if i != 0 {
      SumEntry(f, s[1..], i - 1);
    }
  }

  lemma {:induction false} SumZero<T>(f: T -> nat, s: seq<T>)
    requires forall i | 0 <= i < |s| :: f(s[i]) == 0
    ensures Sum(f, s) == 0
  {
    if s != [] {
      SumZero(f, s[1..]);
    }
  }

  /** A positive total has an entry that contributes to it. */
  lemma {:induction false} SumPositive<T>(f: T -> nat, s: seq<T>) returns (i: nat)
    requires Sum(f, s) > 0
    ensures i < |s| && f(s[i]) > 0
  {
    if f(s[0]) > 0 {
      i := 0;
    } else {
      var j := SumPositive(f, s[1..]);
      i := j + 1;
    }
  }

  /** If every entry weighs at most one, the total is at most the number of entries. */
  lemma {:induction false} SumAtMostLength<T>(f: T -> nat, s: seq<T>)
    requires forall i | 0 <= i < |s| :: f(s[i]) <= 1
    ensures Sum(f, s) <= |s|
  {
    if s != [] {
      SumAtMostLength(f, s[1..]);
    }
  }
}
