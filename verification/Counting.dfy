/** Counting the threads whose program counter is at a given place: the vocabulary of
    the semaphore invariants. */
module Counting {

  function Ind(b: bool): nat {
    if b then 1 else 0
  }

  /** The number of positions of `s` whose element satisfies `k`. */
  function Count<T>(s: seq<T>, k: T -> bool): nat {
    if s == [] then 0 else Ind(k(s[0])) + Count(s[1..], k)
  }

  function Sum(s: seq<nat>): nat {
    if s == [] then 0 else s[0] + Sum(s[1..])
  }

  /** The sum of a rank over all threads. */
  function Total<T>(s: seq<T>, rank: T -> nat): nat {
    if s == [] then 0 else rank(s[0]) + Total(s[1..], rank)
  }

  lemma {:induction false} TotalUpdate<T>(s: seq<T>, i: nat, x: T, rank: T -> nat)
    requires i < |s|
    ensures Total(s[i := x], rank) == Total(s, rank) - rank(s[i]) + rank(x)
  {
    if i == 0 {
      assert s[0 := x][1..] == s[1..];
    } else {
      TotalUpdate(s[1..], i - 1, x, rank);
      assert s[i := x][1..] == s[1..][i - 1 := x];
    }
  }

  lemma {:induction false} TotalEqual<T>(n: nat, x: T, rank: T -> nat)
    ensures Total(seq(n, _ => x), rank) == n * rank(x)
  {
    if n > 0 {
      assert seq(n, _ => x)[1..] == seq(n - 1, _ => x);
      TotalEqual(n - 1, x, rank);
    }
  }

  /** Moving one thread changes a count by exactly the two memberships involved. */
  lemma {:induction false} CountUpdate<T>(s: seq<T>, i: nat, x: T, k: T -> bool)
    requires i < |s|
    ensures Ind(k(s[i])) <= Count(s, k)
    ensures Count(s[i := x], k) == Count(s, k) - Ind(k(s[i])) + Ind(k(x))
  {
    if i == 0 {
      assert s[0 := x][1..] == s[1..];
    } else {
      CountUpdate(s[1..], i - 1, x, k);
      assert s[i := x][1..] == s[1..][i - 1 := x];
    }
  }

  lemma {:induction false} SumUpdate(s: seq<nat>, i: nat, x: nat)
    requires i < |s|
    ensures s[i] <= Sum(s)
    ensures Sum(s[i := x]) == Sum(s) - s[i] + x
  {
    if i == 0 {
      assert s[0 := x][1..] == s[1..];
    } else {
      SumUpdate(s[1..], i - 1, x);
      assert s[i := x][1..] == s[1..][i - 1 := x];
    }
  }

  /** A count is zero exactly when no thread is in the set. */
  lemma {:induction false} CountZero<T>(s: seq<T>, k: T -> bool)
    ensures Count(s, k) == 0 <==> forall i :: 0 <= i < |s| ==> !k(s[i])
  {
    if s != [] {
      CountZero(s[1..], k);
      assert forall i :: 1 <= i < |s| ==> s[i] == s[1..][i - 1];
    }
  }

  lemma {:induction false} CountBound<T>(s: seq<T>, k: T -> bool)
    ensures Count(s, k) <= |s|
    ensures (forall i :: 0 <= i < |s| ==> k(s[i])) ==> Count(s, k) == |s|
  {
    if s != [] {
      CountBound(s[1..], k);
    }
  }

  /** If thread `i` is in the set and the count is one, it is the only thread in the set. */
  lemma {:induction false} CountOne<T>(s: seq<T>, i: nat, k: T -> bool)
    requires i < |s| && k(s[i]) && Count(s, k) <= 1
    ensures forall j :: 0 <= j < |s| && k(s[j]) ==> j == i
  {
    if i == 0 {
      CountZero(s[1..], k);
      assert forall j :: 1 <= j < |s| ==> s[j] == s[1..][j - 1];
    } else {
      CountUpdate(s[1..], i - 1, s[i], k);
      CountOne(s[1..], i - 1, k);
      assert forall j :: 1 <= j < |s| ==> s[j] == s[1..][j - 1];
    }
  }

  lemma {:induction false} CountMonotone<T(!new)>(s: seq<T>, k: T -> bool, l: T -> bool)
    requires forall x: T :: k(x) ==> l(x)
    ensures Count(s, k) <= Count(s, l)
  {
    if s != [] {
      CountMonotone(s[1..], k, l);
    }
  }

  /** All-zero counters sum to zero. */
  lemma {:induction false} SumZeros(n: nat)
    ensures Sum(seq(n, _ => 0)) == 0
  {
    if n > 0 {
      assert seq(n, _ => 0)[1..] == seq(n - 1, _ => 0);
      SumZeros(n - 1);
    }
  }

  /** 0, 1, ..., n - 1. */
  function Upto(n: nat): seq<int> {
    seq(n, k => k)
  }

  lemma GotAll(got: seq<int>)
    requires forall k :: 0 <= k < |got| ==> got[k] == k
    ensures got == Upto(|got|)
  {}

  lemma MultipleOf(n: nat, d: int)
    ensures d <= 0 ==> n * d <= 0
    ensures d >= 1 ==> n * d >= n
  {}

  /** Two positions less than `n` apart fall in different slots of a ring of `n`. */
  lemma SlotsDiffer(n: nat, a: nat, b: nat)
    requires a < b < a + n
    ensures a % n != b % n
  {
    var qa, qb := a / n, b / n;
    assert a == n * qa + a % n && b == n * qb + b % n;
    assert n * (qb - qa) == n * qb - n * qa;
    MultipleOf(n, qb - qa);
  }
}
