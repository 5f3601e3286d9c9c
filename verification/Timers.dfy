/**
 Sleeping tasks and the timer queue (os/src/timer.rs, os/src/syscall/sync.rs). The binary heap
 is a sequence in no particular order; what it guarantees is that the element it offers is a
 greatest one in the order of `TimerCondVar`.
 */
module Timers {
  const WORD := 0x1_0000_0000_0000_0000
  const HALF := 0x8000_0000_0000_0000

  newtype usize = x: int | 0 <= x < 0x1_0000_0000_0000_0000

  /**
   The latest time `get_time_ms` can show: a 64-bit counter divided by its ticks per millisecond,
   6500 on the slower board and 12500 on the other.
   */
  const LATEST: nat := 2837960626724546

  /** What the clock can show. */
  type Time = t: nat | t <= LATEST

  datatype Timer = Timer(expire: usize, task: nat)

  /** A word read as a signed number. */
  function AsSigned(x: int): int {
    if x < HALF then x else x - WORD
  }

  /** The two's complement word of a number. */
  function Wrap(x: int): (r: int)
    ensures 0 <= r < WORD
  {
    x % WORD
  }

  /** The key timers are compared by: the negated deadline, in 64-bit arithmetic. */
  function Key(x: Timer): int {
    AsSigned(Wrap(-AsSigned(x.expire as int)))
  }

  /** Later than half the range of a word. */
  predicate Far(x: Timer) {
    x.expire as int > HALF
  }

  lemma KeyValue(x: Timer)
    ensures Key(x) == if Far(x) then WORD - x.expire as int else -(x.expire as int)
  {
    var e := x.expire as int;
    if e > HALF {
      assert (-(e - WORD)) % WORD == WORD - e;
    } else if 0 < e < HALF {
      assert (-e) % WORD == WORD - e;
    } else if e == HALF {
      assert HALF % WORD == HALF;
    }
  }

  /**
   The order is by deadline exactly when both deadlines are in the same half of the range;
   otherwise the far one comes first.
   */
  lemma ComparesDeadlines(x: Timer, y: Timer)
    ensures (Far(x) == Far(y)) <==> (Key(x) > Key(y) <==> x.expire < y.expire)
    ensures Far(x) && !Far(y) ==> Key(x) > Key(y)
  {
    KeyValue(x);
    KeyValue(y);
  }

  ghost predicate IsTop(ts: seq<Timer>, x: Timer) {
    x in ts && forall y :: y in ts ==> Key(y) <= Key(x)
  }

  function Without(ts: seq<Timer>, x: Timer): (r: seq<Timer>)
    requires x in ts
    ensures multiset(ts) == multiset(r) + multiset{x}
    ensures |r| == |ts| - 1
  {
    if ts[0] == x then
      assert ts == [x] + ts[1..];
      ts[1..]
    else
      assert ts == [ts[0]] + ts[1..];
      [ts[0]] + Without(ts[1..], x)
  }

  /** A sleeper is due at `now`. */
  predicate Due(x: Timer, now: int) {
    x.expire as int <= now
  }

  /** The timers due, in the order they are listed. */
  function AllDue(ts: seq<Timer>, now: int): seq<Timer> {
    if ts == [] then [] else (if Due(ts[0], now) then [ts[0]] else []) + AllDue(ts[1..], now)
  }

  /** `check_timer` at `now` can take `woken` off the heap `ts`, in this order, and leave `left`. */
  ghost predicate Pops(ts: seq<Timer>, now: int, woken: seq<Timer>, left: seq<Timer>)
    decreases |woken|
  {
    if woken == [] then
      left == ts && (ts == [] || exists x :: IsTop(ts, x) && !Due(x, now))
    else
      IsTop(ts, woken[0]) && Due(woken[0], now) && Pops(Without(ts, woken[0]), now, woken[1..], left)
  }

  lemma {:induction false} AllDueCount(ts: seq<Timer>, now: int, x: Timer)
    ensures multiset(AllDue(ts, now))[x] == if Due(x, now) then multiset(ts)[x] else 0
  {
    if ts != [] {
      assert ts == [ts[0]] + ts[1..];
      AllDueCount(ts[1..], now, x);
    }
  }

  /** What is woken was due, and nothing is lost or duplicated. */
  lemma {:induction false} PopsPartition(ts: seq<Timer>, now: int, woken: seq<Timer>, left: seq<Timer>)
    requires Pops(ts, now, woken, left)
    ensures multiset(ts) == multiset(woken) + multiset(left)
    ensures forall x :: x in woken ==> Due(x, now)
    ensures left == [] || exists x :: IsTop(left, x) && !Due(x, now)
    decreases |woken|
  {
    if woken != [] {
      PopsPartition(Without(ts, woken[0]), now, woken[1..], left);
      assert woken == [woken[0]] + woken[1..];
    }
  }

  lemma InEither(ts: seq<Timer>, a: seq<Timer>, b: seq<Timer>, x: Timer)
    requires multiset(ts) == multiset(a) + multiset(b)
    ensures x in ts <==> x in a || x in b
  {
    assert x in ts <==> x in multiset(ts);
    assert x in a <==> x in multiset(a);
    assert x in b <==> x in multiset(b);
  }

  /** No time of the clock reaches a far deadline, and with one in the heap nobody is woken at all. */
  lemma FarBlocksAll(ts: seq<Timer>, now: Time, woken: seq<Timer>, left: seq<Timer>, b: Timer)
    requires Pops(ts, now, woken, left) && b in ts && Far(b)
    ensures woken == [] && left == ts
  {
    if woken != [] {
      ComparesDeadlines(b, woken[0]);
    }
  }

  ghost predicate NoneFar(ts: seq<Timer>) {
    forall b :: b in ts ==> !Far(b)
  }

  /** Some sleeper's deadline is far while another sleeper's is due. */
  ghost predicate FarHidesDue(ts: seq<Timer>, now: Time) {
    !NoneFar(ts) && exists x :: x in ts && Due(x, now)
  }

  /** If no deadline is far, nothing due stays behind. */
  lemma NothingDueLeft(left: seq<Timer>, now: Time)
    requires left == [] || exists x :: IsTop(left, x) && !Due(x, now)
    requires NoneFar(left)
    ensures forall x :: x in left ==> !Due(x, now)
  {
    if left != [] {
      var x :| IsTop(left, x) && !Due(x, now);
      forall y | y in left ensures !Due(y, now) {
        KeyValue(x);
        KeyValue(y);
      }
    }
  }

  lemma SameCounts(ts: seq<Timer>, now: int, woken: seq<Timer>, left: seq<Timer>)
    requires multiset(ts) == multiset(woken) + multiset(left)
    requires forall x :: x in woken ==> Due(x, now)
    ensures multiset(woken) == multiset(AllDue(ts, now)) <==> forall x :: x in left ==> !Due(x, now)
  {
    var all := AllDue(ts, now);
    forall x ensures multiset(all)[x] == if Due(x, now) then multiset(woken)[x] + multiset(left)[x] else 0 {
      AllDueCount(ts, now, x);
    }
    forall x ensures x in left <==> multiset(left)[x] > 0 {
      assert x in left <==> x in multiset(left);
    }
    forall x ensures Due(x, now) || multiset(woken)[x] == 0 {
      assert x in woken <==> x in multiset(woken);
    }
    if forall x :: x in left ==> !Due(x, now) {
      assert multiset(woken) == multiset(all);
    } else {
      var x :| x in left && Due(x, now);
      assert multiset(woken)[x] != multiset(all)[x];
    }
  }

  /**
   One `check_timer` moves exactly the sleepers whose deadline has passed, except when some deadline
   is far: then nobody is woken, due or not.
   */
  lemma WakesExactlyTheDue(ts: seq<Timer>, now: Time, woken: seq<Timer>, left: seq<Timer>)
    requires Pops(ts, now, woken, left)
    ensures multiset(woken) == multiset(AllDue(ts, now)) <==> !FarHidesDue(ts, now)
    ensures !NoneFar(ts) ==> woken == [] && left == ts
  {
    PopsPartition(ts, now, woken, left);
    SameCounts(ts, now, woken, left);
    if b :| b in ts && Far(b) {
      FarBlocksAll(ts, now, woken, left, b);
    } else {
      forall x ensures x in ts <==> x in woken || x in left { InEither(ts, woken, left, x); }
      NothingDueLeft(left, now);
    }
  }

  /** A sleeper that is due at the time of the check is woken if no deadline is far. */
  lemma DueIsWoken(ts: seq<Timer>, now: Time, woken: seq<Timer>, left: seq<Timer>, x: Timer)
    requires Pops(ts, now, woken, left) && NoneFar(ts) && x in ts && Due(x, now)
    ensures x in woken
  {
    PopsPartition(ts, now, woken, left);
    forall y ensures y in ts <==> y in woken || y in left { InEither(ts, woken, left, y); }
    NothingDueLeft(left, now);
  }

  /** The heap has a top. */
  lemma {:induction false} TopExists(ts: seq<Timer>) returns (x: Timer)
    requires ts != []
    ensures IsTop(ts, x)
  {
    var n := |ts| - 1;
    if n == 0 {
      x := ts[0];
    } else {
      x := TopExists(ts[..n]);
      assert forall y :: y in ts <==> y in ts[..n] || y == ts[n];
      if Key(x) < Key(ts[n]) { x := ts[n]; }
    }
  }

  /** `check_timer` always comes to an end. */
  lemma {:induction false} CheckEnds(ts: seq<Timer>, now: Time) returns (woken: seq<Timer>, left: seq<Timer>)
    ensures Pops(ts, now, woken, left)
    decreases |ts|
  {
    woken, left := [], ts;
    if ts != [] {
      var x := TopExists(ts);
      if Due(x, now) {
        var rest;
        rest, left := CheckEnds(Without(ts, x), now);
        woken := [x] + rest;
        assert woken[1..] == rest;
      }
    }
  }

  /** A check at `now` wakes `x`. */
  ghost predicate WokenAt(ts: seq<Timer>, x: Timer, now: Time) {
    exists woken, left :: Pops(ts, now, woken, left) && x in woken
  }

  /**
   Some check at some time wakes a sleeper exactly when the clock can reach its deadline and no
   deadline in the heap is far. Deadlines the clock does not reach but that are not far do no harm.
   */
  lemma WokenSometime(ts: seq<Timer>, x: Timer)
    requires x in ts
    ensures (exists now: Time :: WokenAt(ts, x, now)) <==> x.expire as int <= LATEST && NoneFar(ts)
  {
    if x.expire as int <= LATEST && NoneFar(ts) {
      var woken, left := CheckEnds(ts, LATEST);
      DueIsWoken(ts, LATEST, woken, left, x);
      assert WokenAt(ts, x, LATEST);
    }
    forall now: Time | WokenAt(ts, x, now) ensures x.expire as int <= LATEST && NoneFar(ts) {
      var woken, left :| Pops(ts, now, woken, left) && x in woken;
      PopsPartition(ts, now, woken, left);
      WakesExactlyTheDue(ts, now, woken, left);
    }
  }

  /** One far deadline keeps a sleeper asleep that is due. */
  lemma DueNotWoken()
    ensures var ts := [Timer(0x8000_0000_0000_0001, 1), Timer(5, 2)];
            Pops(ts, 10, [], ts) && Due(ts[1], 10) && multiset(AllDue(ts, 10)) != multiset([])
  {
    var far, near := Timer(0x8000_0000_0000_0001, 1), Timer(5, 2);
    var ts := [far, near];
    ComparesDeadlines(far, near);
    assert IsTop(ts, far) && !Due(far, 10);
    AllDueCount(ts, 10, near);
    assert near in multiset(ts) by { assert ts[1] == near; }
  }

  /** Sleepers come off the heap in the order of their keys. */
  lemma {:induction false} KeysDescend(ts: seq<Timer>, now: int, woken: seq<Timer>, left: seq<Timer>, i: nat, j: nat)
    requires Pops(ts, now, woken, left) && i <= j < |woken|
    ensures Key(woken[j]) <= Key(woken[i])
    decreases |woken|
  {
    if i > 0 {
      KeysDescend(Without(ts, woken[0]), now, woken[1..], left, i - 1, j - 1);
    } else {
      PopsPartition(ts, now, woken, left);
      InEither(ts, woken, left, woken[j]);
    }
  }

  ghost predicate ByDeadline(woken: seq<Timer>) {
    forall i, j :: 0 <= i <= j < |woken| ==> woken[i].expire <= woken[j].expire
  }

  /** One `check_timer` wakes sleepers in the order of their deadlines. */
  lemma WakesInOrder(ts: seq<Timer>, now: Time, woken: seq<Timer>, left: seq<Timer>)
    requires Pops(ts, now, woken, left)
    ensures ByDeadline(woken)
  {
    PopsPartition(ts, now, woken, left);
    forall i, j | 0 <= i <= j < |woken| ensures woken[i].expire <= woken[j].expire {
      KeysDescend(ts, now, woken, left, i, j);
      assert woken[i] in woken && woken[j] in woken;
      ComparesDeadlines(woken[j], woken[i]);
    }
  }
}
