/** The smaller of two numbers, lists without repetition, counting in a list, and what holds all along it. */
module Basics {
  function Min(a: int, b: int): int {
    if a < b then a else b
  }

  ghost predicate Distinct(s: seq<nat>) {
    forall i, j :: 0 <= i < j < |s| ==> s[i] != s[j]
  }

  /** How many elements of the list `p` holds of. */
  function Count<T>(s: seq<T>, p: T -> bool): nat {
    if s == [] then 0 else (if p(s[0]) then 1 else 0) + Count(s[1..], p)
  }

  lemma {:induction false} SameCount<T, U>(s: seq<T>, p: T -> bool, t: seq<U>, q: U -> bool)
    requires |s| == |t| && forall i :: 0 <= i < |s| ==> p(s[i]) == q(t[i])
    ensures Count(s, p) == Count(t, q)
  {
    if s != [] {
      SameCount(s[1..], p, t[1..], q);
    }
  }

  /** What every step keeps holds all along. */
  lemma {:induction false} Persists<T>(keeps: T -> bool, tr: seq<T>, j: nat)
    requires j < |tr| && keeps(tr[0]) && forall k :: 0 <= k < |tr| - 1 && keeps(tr[k]) ==> keeps(tr[k + 1])
    ensures keeps(tr[j])
  {
    if j > 0 {
      Persists(keeps, tr, j - 1);
      var k := j - 1;
      assert keeps(tr[k]) && tr[k + 1] == tr[j];
    }
  }
}
