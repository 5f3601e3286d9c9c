/** Sums of a function over the first natural numbers. */
module Sums {
  function Sum(f: nat -> int, n: nat): int {
    if n == 0 then 0 else Sum(f, n - 1) + f(n - 1)
  }

  lemma {:induction false} SumSame(f: nat -> int, g: nat -> int, n: nat)
    requires forall i: nat :: i < n ==> f(i) == g(i)
    ensures Sum(f, n) == Sum(g, n)
  {
    if n > 0 {
      SumSame(f, g, n - 1);
    }
  }

  /** Changing one term changes the sum by as much. */
  lemma {:induction false} SumUpdate(f: nat -> int, g: nat -> int, n: nat, k: nat)
    requires k < n && forall i: nat :: i < n && i != k ==> f(i) == g(i)
    ensures Sum(g, n) == Sum(f, n) + g(k) - f(k)
  {
    if k == n - 1 {
      SumSame(f, g, n - 1);
    } else {
      SumUpdate(f, g, n - 1, k);
    }
  }

  lemma {:induction false} SumAtMost(f: nat -> int, g: nat -> int, n: nat)
    requires forall i: nat :: i < n ==> f(i) <= g(i)
    ensures Sum(f, n) <= Sum(g, n)
  {
    if n > 0 {
      SumAtMost(f, g, n - 1);
    }
  }

  lemma {:induction false} SumLess(f: nat -> int, g: nat -> int, n: nat, k: nat)
    requires k < n && f(k) < g(k) && forall i: nat :: i < n ==> f(i) <= g(i)
    ensures Sum(f, n) < Sum(g, n)
  {
    if k == n - 1 {
      SumAtMost(f, g, n - 1);
    } else {
      SumLess(f, g, n - 1, k);
    }
  }

  lemma {:induction false} SumAdd(f: nat -> int, g: nat -> int, h: nat -> int, n: nat)
    requires forall i: nat :: i < n ==> h(i) == f(i) + g(i)
    ensures Sum(h, n) == Sum(f, n) + Sum(g, n)
  {
    if n > 0 {
      SumAdd(f, g, h, n - 1);
    }
  }

  lemma {:induction false} SumConstant(f: nat -> int, n: nat, c: int)
    requires forall i: nat :: i < n ==> f(i) == c
    ensures Sum(f, n) == n * c
  {
    if n > 0 {
      SumConstant(f, n - 1, c);
    }
  }

  lemma {:induction false} SumNegate(f: nat -> int, g: nat -> int, n: nat)
    requires forall i: nat :: i < n ==> g(i) == -f(i)
    ensures Sum(g, n) == -Sum(f, n)
  {
    if n > 0 {
      SumNegate(f, g, n - 1);
    }
  }

  /** A smaller sum has a smaller term. */
  lemma {:induction false} SumWitness(f: nat -> int, g: nat -> int, n: nat) returns (i: nat)
    requires Sum(f, n) < Sum(g, n)
    ensures i < n && f(i) < g(i)
  {
    if f(n - 1) < g(n - 1) {
      i := n - 1;
    } else {
      i := SumWitness(f, g, n - 1);
    }
  }

  /** Two ones among zeros and ones make two. */
  lemma SumTwo(f: nat -> int, n: nat, j: nat, k: nat)
    requires j < n && k < n && j != k && f(j) >= 1 && f(k) >= 1
    requires forall i: nat :: i < n ==> f(i) >= 0
    ensures Sum(f, n) >= 2
  {
    var g := (i: nat) => if i == k then 0 else f(i);
    var z := (i: nat) => 0;
    SumUpdate(f, g, n, k);
    SumConstant(z, n, 0);
    SumLess(z, g, n, j);
  }

  function Member(q: seq<nat>): nat -> int {
    (i: nat) => if i in q then 1 else 0
  }

  /** A queue without repetitions is as long as it has members. */
  lemma {:induction false} SumMembers(q: seq<nat>, n: nat)
    requires forall t :: t in q ==> t < n
    requires forall i, j :: 0 <= i < j < |q| ==> q[i] != q[j]
    ensures Sum(Member(q), n) == |q|
  {
    if q == [] {
      SumConstant(Member(q), n, 0);
    } else {
      var r, t := q[..|q| - 1], q[|q| - 1];
      assert q == r + [t];
      assert t in q && forall x :: x in q <==> x in r || x == t;
      SumMembers(r, n);
      SumUpdate(Member(r), Member(q), n, t);
    }
  }
}
