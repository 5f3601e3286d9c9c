/**
 When the dinner of user/src/bin/phil_din_mutex.rs is lost. A sleeper whose deadline the clock
 cannot reach sleeps for ever, and one far deadline, whoever's, keeps all sleepers asleep. With
 another task awake this is all that can go wrong: the dinner can be finished exactly when no
 philosopher has to wait for such a nap to end.
 */
module DinnerLost {
  import opened Basics
  import opened Options
  import opened Timers
  import opened Scheduler
  import opened SchedulerSafety
  import opened Turns
  import opened Philosophers
  import opened DinnerProgress

  /** A timer that no check takes off the heap. */
  ghost predicate Stays(ts: seq<Timer>, x: Timer) {
    x in ts && (x.expire as int > LATEST || !NoneFar(ts))
  }

  lemma StaysAfterCheck(ts: seq<Timer>, now: Time, woken: seq<Timer>, left: seq<Timer>, x: Timer)
    requires Pops(ts, now, woken, left) && Stays(ts, x)
    ensures Stays(left, x)
  {
    PopsPartition(ts, now, woken, left);
    InEither(ts, woken, left, x);
    WakesExactlyTheDue(ts, now, woken, left);
  }

  lemma StaysStep(k: Kernel, e: Event, x: Timer)
    requires Enabled(k, e) && Stays(k.timers, x)
    ensures Stays(Step(k, e).timers, x)
  {
    if e.Tick? {
      StaysAfterCheck(k.timers, e.now, e.woken, e.left, x);
    } else if e.Sleep? {
      assert forall y :: y in k.timers ==> y in Step(k, e).timers;
    } else {
      assert Step(k, e).timers == k.timers;
    }
  }

  ghost predicate DiningOpened(q: int) { true }

  ghost predicate Dining(tr: seq<Table>, rounds: nat, es: seq<Event>) {
    |tr| == |es| + 1 && forall q :: DiningOpened(q) ==> Dinner(tr, rounds, es)
  }

  /** A sleeping philosopher makes no call. */
  lemma SleeperIdle(s: Table, tasks: set<Tid>, rounds: nat, e: Event, s': Table, x: Timer)
    requires Inv(s.k, tasks) && Next(s, rounds, e, s') && x in s.k.timers && x.task < |s.stage|
    ensures |s'.stage| == |s.stage| && s'.stage[x.task] == s.stage[x.task]
  {
    if IsSyscall(e) {
      OnlyRunning(s.k, tasks, e.t);
    }
  }

  /** Philosopher `x.task` sleeps, for ever, after `c` calls. */
  ghost predicate Asleep(s: Table, tasks: set<Tid>, rounds: nat, n: nat, x: Timer, c: nat) {
    InOrder(s, tasks, rounds, n) && x.task < n == |s.stage| && Stays(s.k.timers, x) && s.stage[x.task] == c
  }

  lemma AsleepNext(tr: seq<Table>, tasks: set<Tid>, rounds: nat, n: nat, es: seq<Event>, x: Timer, c: nat, j: nat)
    requires Dining(tr, rounds, es) && j < |es| && Asleep(tr[j], tasks, rounds, n, x, c)
    ensures Asleep(tr[j + 1], tasks, rounds, n, x, c)
  {
    assert DiningOpened(0);
    var s, e, s' := tr[j], es[j], tr[j + 1];
    SleepStep(s, tasks, rounds, n, e, s', x);
  }

  lemma SleepsOn(tr: seq<Table>, tasks: set<Tid>, rounds: nat, n: nat, es: seq<Event>, x: Timer, c: nat)
    requires Dining(tr, rounds, es) && Asleep(tr[0], tasks, rounds, n, x, c)
    ensures Asleep(tr[|es|], tasks, rounds, n, x, c)
  {
    var keeps := s => Asleep(s, tasks, rounds, n, x, c);
    forall k | 0 <= k < |es| && keeps(tr[k]) ensures keeps(tr[k + 1]) {
      AsleepNext(tr, tasks, rounds, n, es, x, c, k);
    }
    Persists(keeps, tr, |es|);
  }

  lemma SleepStep(s: Table, tasks: set<Tid>, rounds: nat, n: nat, e: Event, s': Table, x: Timer)
    requires InOrder(s, tasks, rounds, n) && |s.stage| == n && Next(s, rounds, e, s') && Stays(s.k.timers, x) && x.task < n
    ensures InOrder(s', tasks, rounds, n) && |s'.stage| == n && Stays(s'.k.timers, x) && s'.stage[x.task] == s.stage[x.task]
  {
    TableStep(s, tasks, rounds, n, e, s');
    StaysStep(s.k, e, x);
    assert Inv(s.k, tasks) by { assert OrderOpened(0); }
    SleeperIdle(s, tasks, rounds, e, s', x);
  }

  /** A nap that never ends is one philosopher `i` takes or has to take. */
  ghost predicate Lost(s: Table, rounds: nat, i: nat)
    requires i < |s.stage|
  {
    || (s.stage[i] < 6 * rounds && exists x :: Stays(s.k.timers, x) && x.task == i)
    || (s.stage[i] + 3 <= 6 * rounds && !NoneFar(s.k.timers))
  }

  /** The call after which no nap is left is the last nap. */
  lemma LastNapTaken(s: Table, rounds: nat, e: Event, s': Table, i: nat)
    requires Next(s, rounds, e, s') && i < |s.stage| == |s'.stage| && s'.stage[i] != s.stage[i] && s.stage[i] + 3 <= 6 * rounds
    ensures s'.stage[i] + 3 <= 6 * rounds || (s'.stage[i] < 6 * rounds && e.Sleep? && Timer(e.expire, i) in s'.k.timers)
  {
    if s.stage[i] + 3 == 6 * rounds {
      ThirdLast(s.stage[i], rounds);
    }
  }

  lemma ThirdLast(c: nat, rounds: nat)
    requires c + 3 == 6 * rounds
    ensures c % 6 == 3
  {
    assert c == 6 * (rounds - 1) + 3;
  }

  lemma LostStep(s: Table, tasks: set<Tid>, rounds: nat, n: nat, e: Event, s': Table, i: nat)
    requires InOrder(s, tasks, rounds, n) && |s.stage| == n && Next(s, rounds, e, s') && i < n && Lost(s, rounds, i)
    ensures InOrder(s', tasks, rounds, n) && |s'.stage| == n && Lost(s', rounds, i)
  {
    TableStep(s, tasks, rounds, n, e, s');
    if x :| Stays(s.k.timers, x) && x.task == i {
      SleepStep(s, tasks, rounds, n, e, s', x);
    } else {
      var b :| b in s.k.timers && Far(b);
      StaysStep(s.k, e, b);
      if s'.stage[i] != s.stage[i] {
        LastNapTaken(s, rounds, e, s', i);
      }
    }
  }

  ghost predicate LostOpened(q: int) { true }

  ghost predicate StillLost(s: Table, tasks: set<Tid>, rounds: nat, n: nat, i: nat) {
    forall q :: LostOpened(q) ==> InOrder(s, tasks, rounds, n) && i < n == |s.stage| && Lost(s, rounds, i)
  }

  lemma LostNext(tr: seq<Table>, tasks: set<Tid>, rounds: nat, n: nat, es: seq<Event>, i: nat, j: nat)
    requires Dining(tr, rounds, es) && j < |es| && StillLost(tr[j], tasks, rounds, n, i)
    ensures StillLost(tr[j + 1], tasks, rounds, n, i)
  {
    var s, e, s' := tr[j], es[j], tr[j + 1];
    assert LostOpened(0) && DiningOpened(0);
    LostStep(s, tasks, rounds, n, e, s', i);
  }

  lemma LostForGood(tr: seq<Table>, tasks: set<Tid>, rounds: nat, n: nat, es: seq<Event>, i: nat)
    requires Dining(tr, rounds, es) && StillLost(tr[0], tasks, rounds, n, i)
    ensures !AllDone(tr[|es|], rounds)
  {
    var keeps := s => StillLost(s, tasks, rounds, n, i);
    forall k | 0 <= k < |es| && keeps(tr[k]) ensures keeps(tr[k + 1]) {
      LostNext(tr, tasks, rounds, n, es, i, k);
    }
    Persists(keeps, tr, |es|);
    assert keeps(tr[|es|]);
    NotDone(tr[|es|], tasks, rounds, n, i);
  }

  /** Whoever sleeps has not finished. */
  lemma SleeperUnfinished(s: Table, tasks: set<Tid>, rounds: nat, n: nat, x: Timer)
    requires InOrder(s, tasks, rounds, n) && |s.stage| == n && x in s.k.timers && x.task < n
    ensures s.stage[x.task] < 6 * rounds
  {
    assert OrderOpened(0);
    assert SoundOpened(0);
    assert PhilOk(s.k, x.task, s.stage[x.task] % 6, n);
  }

  /** Where there is no hope somebody is lost. */
  lemma SomebodyLost(s: Table, tasks: set<Tid>, rounds: nat, n: nat) returns (i: nat)
    requires InOrder(s, tasks, rounds, n) && |s.stage| == n && !Hopeful(s, rounds, LATEST)
    ensures i < n && Lost(s, rounds, i)
  {
    if x :| x in s.k.timers && x.task < n && !Due(x, LATEST) {
      SleeperUnfinished(s, tasks, rounds, n, x);
      assert Stays(s.k.timers, x);
      i := x.task;
    } else {
      i :| Unfinished(s, rounds, i) && !Rested(s, rounds, i);
      if i in Tasks(s.k.timers) {
        var x := SleeperAt(s.k.timers, i);
        assert Stays(s.k.timers, x);
      }
    }
  }

  lemma NotDone(s: Table, tasks: set<Tid>, rounds: nat, n: nat, i: nat)
    requires StillLost(s, tasks, rounds, n, i)
    ensures !AllDone(s, rounds)
  {
    assert LostOpened(0);
  }

  /** A continuation from `s` in which everybody finishes. */
  ghost predicate Finishes(s: Table, rounds: nat, tr: seq<Table>, es: seq<Event>) {
    Dinner(tr, rounds, es) && tr[0] == s && AllDone(tr[|es|], rounds)
  }

  /**
   At any point of any dinner with some task besides the philosophers awake, there is a continuation
   in which everybody finishes if and only if the clock can reach the deadlines of the philosophers
   that sleep, and no deadline in the heap is far or nobody has a nap to end or to take.
   */
  lemma CanFinish(tr: seq<Table>, tasks: set<Tid>, rounds: nat, es: seq<Event>, j: nat, z: Tid)
    requires Dinner(tr, rounds, es) && Start(tr[0], tasks) && j < |tr| && |tr[0].stage| <= z && Awake(tr[j].k, z)
    ensures (exists tr', es' :: Finishes(tr[j], rounds, tr', es')) <==> Hopeful(tr[j], rounds, LATEST)
  {
    var n := |tr[0].stage|;
    DinnerOk(tr, tasks, rounds, es, j);
    assert |tr[j].stage| == n by { assert OrderOpened(0); }
    if Hopeful(tr[j], rounds, LATEST) {
      NoSpan(Remaining(tr[j].stage, rounds));
      var tr', es', _ := NoDeadlock(tr, tasks, rounds, es, j, z, (i, c) => 0, 0, LATEST, LATEST);
      assert Finishes(tr[j], rounds, tr', es');
    } else {
      var i := SomebodyLost(tr[j], tasks, rounds, n);
      assert StillLost(tr[j], tasks, rounds, n, i);
      forall tr', es' ensures !Finishes(tr[j], rounds, tr', es') {
        if Finishes(tr[j], rounds, tr', es') {
          assert Dining(tr', rounds, es');
          LostForGood(tr', tasks, rounds, n, es', i);
        }
      }
    }
  }

  lemma {:induction false} NoSpan(calls: nat)
    ensures Span(calls, 0) == 0
  {
    if calls > 0 { NoSpan(calls - 1); }
  }

  // ---- With everyone asleep

  /** Two philosophers and nobody else; the forks lie on the table. */
  function Pair(current: Option<Tid>, ready: seq<Tid>, timers: seq<Timer>, p: Pc, q: Pc, stage: seq<nat>): Table {
    Table(Kernel(current, ready, [Mutex(true, false, []), Mutex(true, false, [])], timers, map[0 := p, 1 := q], {},
                 [Log(0, 0, [], []), Log(0, 0, [], [])]), stage)
  }

  /** Two forks on the table, and everyone in its own code. */
  lemma TableLaid(s: Table, tasks: set<Tid>)
    requires s.k.current.None? && multiset(s.k.ready) == multiset(tasks) && s.k.timers == [] && s.k.held == {}
    requires s.k.pc.Keys == tasks && forall t :: t in s.k.pc ==> s.k.pc[t] == User
    requires s.k.objs == [Mutex(true, false, []), Mutex(true, false, [])] && s.k.logs == [Log(0, 0, [], []), Log(0, 0, [], [])]
    requires s.stage == [0, 0] && 0 in tasks && 1 in tasks
    ensures Start(s, tasks)
  {
    forall i | 0 <= i < 2 ensures Fresh(s.k.objs[i], s.k.logs[i]) {
      assert i == 0 || i == 1;
    }
    assert Init(s.k, tasks);
  }

  lemma PairStart()
    ensures Start(Pair(None, [0, 1], [], User, User, [0, 0]), {0, 1})
  {
    var s := Pair(None, [0, 1], [], User, User, [0, 0]);
    assert multiset([0, 1]) == multiset({0, 1});
    assert s.k.pc.Keys == {0, 1};
    TableLaid(s, {0, 1});
  }

  lemma FirstNap(rounds: nat)
    requires rounds > 0
    ensures Next(Pair(None, [0, 1], [], User, User, [0, 0]), rounds, Dispatch, Pair(Some(0), [1], [], User, User, [0, 0]))
    ensures Next(Pair(Some(0), [1], [], User, User, [0, 0]), rounds, Sleep(0, 10),
                 Pair(None, [1], [Timer(10, 0)], InSleep, User, [1, 0]))
  {
    assert [0, 1][1..] == [1];
  }

  lemma SecondNap(rounds: nat)
    requires rounds > 0
    ensures Next(Pair(None, [1], [Timer(10, 0)], InSleep, User, [1, 0]), rounds, Dispatch,
                 Pair(Some(1), [], [Timer(10, 0)], InSleep, User, [1, 0]))
    ensures Next(Pair(Some(1), [], [Timer(10, 0)], InSleep, User, [1, 0]), rounds, Sleep(1, 20),
                 Pair(None, [], [Timer(10, 0), Timer(20, 1)], InSleep, InSleep, [1, 1]))
  {
    assert [1][1..] == [];
  }

  lemma BothNap(rounds: nat)
    requires rounds > 0
    ensures var s := Pair(None, [], [Timer(10, 0), Timer(20, 1)], InSleep, InSleep, [1, 1]);
            Unfinished(s, rounds, 0) && Free(s.k, 0) && forall e :: !Enabled(s.k, e)
  {
    var s := Pair(None, [], [Timer(10, 0), Timer(20, 1)], InSleep, InSleep, [1, 1]);
    assert Tasks(s.k.timers)[0] == 0;
  }

  lemma OneMoreTable(tr: seq<Table>, rounds: nat, es: seq<Event>, e: Event, s: Table)
    requires Dinner(tr, rounds, es) && Next(tr[|es|], rounds, e, s)
    ensures Dinner(tr + [s], rounds, es + [e])
  {
  }

  lemma FiveTables(s0: Table, s1: Table, s2: Table, s3: Table, s4: Table, rounds: nat, a: Event, b: Event, c: Event, d: Event)
    requires Next(s0, rounds, a, s1) && Next(s1, rounds, b, s2) && Next(s2, rounds, c, s3) && Next(s3, rounds, d, s4)
    ensures Dinner([s0, s1, s2, s3, s4], rounds, [a, b, c, d])
  {
    OneMoreTable([s0], rounds, [], a, s1);
    OneMoreTable([s0] + [s1], rounds, [] + [a], b, s2);
    OneMoreTable([s0] + [s1] + [s2], rounds, [] + [a] + [b], c, s3);
    OneMoreTable([s0] + [s1] + [s2] + [s3], rounds, [] + [a] + [b] + [c], d, s4);
    assert [s0] + [s1] + [s2] + [s3] + [s4] == [s0, s1, s2, s3, s4] && [] + [a] + [b] + [c] + [d] == [a, b, c, d];
  }

  /** The other task is needed: when both philosophers take their first nap, nothing can happen any more. */
  lemma AllAsleep(rounds: nat) returns (tr: seq<Table>, es: seq<Event>)
    requires rounds > 0
    ensures Dinner(tr, rounds, es) && Start(tr[0], {0, 1})
    ensures Unfinished(tr[|es|], rounds, 0) && Free(tr[|es|].k, 0)
    ensures forall e :: !Enabled(tr[|es|].k, e)
  {
    var s0, s1 := Pair(None, [0, 1], [], User, User, [0, 0]), Pair(Some(0), [1], [], User, User, [0, 0]);
    var s2 := Pair(None, [1], [Timer(10, 0)], InSleep, User, [1, 0]);
    var s3 := Pair(Some(1), [], [Timer(10, 0)], InSleep, User, [1, 0]);
    var s4 := Pair(None, [], [Timer(10, 0), Timer(20, 1)], InSleep, InSleep, [1, 1]);
    es := [Dispatch, Sleep(0, 10), Dispatch, Sleep(1, 20)];
    tr := [s0, s1, s2, s3, s4];
    PairStart();
    FirstNap(rounds);
    SecondNap(rounds);
    FiveTables(s0, s1, s2, s3, s4, rounds, es[0], es[1], es[2], es[3]);
    BothNap(rounds);
  }

  // ---- With a far deadline in the heap

  const FAR: usize := 0x8000_0000_0000_0001

  /** Two philosophers, a main task 2 and a task 3 that leaves the forks alone. */
  function Four(current: Option<Tid>, ready: seq<Tid>, timers: seq<Timer>, p: Pc, q: Pc, stage: seq<nat>): Table {
    Table(Kernel(current, ready, [Mutex(true, false, []), Mutex(true, false, [])], timers, map[0 := p, 1 := User, 2 := User, 3 := q],
                 {}, [Log(0, 0, [], []), Log(0, 0, [], [])]), stage)
  }

  lemma FourIds()
    ensures multiset([3, 0, 1, 2]) == multiset({0, 1, 2, 3})
  {
    assert multiset({0, 1, 2, 3}) == multiset{0, 1, 2, 3};
  }

  lemma FourStart()
    ensures Start(Four(None, [3, 0, 1, 2], [], User, User, [0, 0]), {0, 1, 2, 3})
  {
    var s := Four(None, [3, 0, 1, 2], [], User, User, [0, 0]);
    FourIds();
    assert s.k.pc.Keys == {0, 1, 2, 3};
    TableLaid(s, {0, 1, 2, 3});
  }

  lemma FarNap(rounds: nat)
    requires rounds > 0
    ensures Next(Four(None, [3, 0, 1, 2], [], User, User, [0, 0]), rounds, Dispatch, Four(Some(3), [0, 1, 2], [], User, User, [0, 0]))
    ensures Next(Four(Some(3), [0, 1, 2], [], User, User, [0, 0]), rounds, Sleep(3, FAR),
                 Four(None, [0, 1, 2], [Timer(FAR, 3)], User, InSleep, [0, 0]))
  {
    assert [3, 0, 1, 2][1..] == [0, 1, 2];
  }

  lemma NearNap(rounds: nat)
    requires rounds > 0
    ensures Next(Four(None, [0, 1, 2], [Timer(FAR, 3)], User, InSleep, [0, 0]), rounds, Dispatch,
                 Four(Some(0), [1, 2], [Timer(FAR, 3)], User, InSleep, [0, 0]))
    ensures Next(Four(Some(0), [1, 2], [Timer(FAR, 3)], User, InSleep, [0, 0]), rounds, Sleep(0, 10),
                 Four(None, [1, 2], [Timer(FAR, 3), Timer(10, 0)], InSleep, InSleep, [1, 0]))
  {
    assert [0, 1, 2][1..] == [1, 2];
  }

  /**
   Hope is needed: here a task that has nothing to do with the dinner sleeps for long, and the first
   philosopher, whose nap is short, is never woken, though the main task is awake.
   */
  lemma NeverWoken(rounds: nat) returns (tr: seq<Table>, es: seq<Event>)
    requires rounds > 0
    ensures Dinner(tr, rounds, es) && Start(tr[0], {0, 1, 2, 3}) && Awake(tr[|es|].k, 2) && |tr[0].stage| == 2
    ensures Timer(10, 0) in tr[|es|].k.timers && !Hopeful(tr[|es|], rounds, LATEST)
    ensures forall tr': seq<Table>, es' :: Dinner(tr', rounds, es') && tr'[0] == tr[|es|] ==> |tr'[|es'|].stage| == 2 && tr'[|es'|].stage[0] == 1
  {
    var s0, s1 := Four(None, [3, 0, 1, 2], [], User, User, [0, 0]), Four(Some(3), [0, 1, 2], [], User, User, [0, 0]);
    var s2 := Four(None, [0, 1, 2], [Timer(FAR, 3)], User, InSleep, [0, 0]);
    var s3 := Four(Some(0), [1, 2], [Timer(FAR, 3)], User, InSleep, [0, 0]);
    var s4 := Four(None, [1, 2], [Timer(FAR, 3), Timer(10, 0)], InSleep, InSleep, [1, 0]);
    es := [Dispatch, Sleep(3, FAR), Dispatch, Sleep(0, 10)];
    tr := [s0, s1, s2, s3, s4];
    FourStart();
    FarNap(rounds);
    NearNap(rounds);
    FiveTables(s0, s1, s2, s3, s4, rounds, es[0], es[1], es[2], es[3]);
    FarAhead(s4, rounds);
    DinnerOk(tr, {0, 1, 2, 3}, rounds, es, 4);
    forall tr': seq<Table>, es' | Dinner(tr', rounds, es') && tr'[0] == s4 ensures |tr'[|es'|].stage| == 2 && tr'[|es'|].stage[0] == 1 {
      assert Dining(tr', rounds, es');
      SleepsOn(tr', {0, 1, 2, 3}, rounds, 2, es', Timer(10, 0), 1);
    }
  }

  lemma FarAhead(s: Table, rounds: nat)
    requires rounds > 0 && s == Four(None, [1, 2], [Timer(FAR, 3), Timer(10, 0)], InSleep, InSleep, [1, 0])
    ensures Awake(s.k, 2) && Timer(10, 0) in s.k.timers && Stays(s.k.timers, Timer(10, 0)) && !Hopeful(s, rounds, LATEST)
  {
    assert s.k.timers[0] == Timer(FAR, 3) && s.k.timers[1] == Timer(10, 0);
    assert Far(Timer(FAR, 3));
    assert s.k.ready[1] == 2;
    assert Unfinished(s, rounds, 0);
    InHeap(s.k.timers, Timer(10, 0));
  }
}
