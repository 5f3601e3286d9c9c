/**
 The dinner of user/src/bin/phil_din_mutex.rs goes on. Sleepers are woken by an interrupt of a
 running task, so with everyone asleep nothing happens any more; the program has its main task
 wait in a loop that gives way. As long as such a task is awake, no sleeper's deadline is far, and
 the clock has the time for the naps to come, the dinner can be brought to its end.
 */
module DinnerProgress {
  import opened Options
  import opened Timers
  import opened Scheduler
  import opened SchedulerSafety
  import opened Turns
  import opened Philosophers

  /** The lengths of the naps: that of philosopher `i` when it has made `c` calls. */
  type Naps = (nat, nat) -> nat

  /** The table after an event. */
  ghost function After(s: Table, e: Event): Table {
    Table(if Enabled(s.k, e) then Step(s.k, e) else s.k,
          if IsSyscall(e) && e.t < |s.stage| then s.stage[e.t := s.stage[e.t] + 1] else s.stage)
  }

  /** The clock after an event: interrupts tell the time, calls take none. */
  function Clock(now: Time, e: Event): Time {
    if e.Tick? then e.now else now
  }

  ghost predicate AllowedOpened(q: int) { true }

  /** The event can happen and is as the program has it; time does not run backwards, and a nap ends its length from now. */
  ghost predicate Allowed(s: Table, rounds: nat, naps: Naps, now: Time, e: Event) {
    forall q :: AllowedOpened(q) ==>
      && Enabled(s.k, e) && Next(s, rounds, e, After(s, e))
      && now <= Clock(now, e)
      && (e.Sleep? && e.t < |s.stage| ==> e.expire as int == now + naps(e.t, s.stage[e.t]))
  }

  /** The events `es`, each allowed in its turn, take the table and the clock from `s` and `now` to `s'` and `now'`. */
  ghost predicate Course(s: Table, rounds: nat, naps: Naps, now: Time, es: seq<Event>, s': Table, now': Time)
    decreases |es|
  {
    if es == [] then s == s' && now == now'
    else Allowed(s, rounds, naps, now, es[0]) && Course(After(s, es[0]), rounds, naps, Clock(now, es[0]), es[1..], s', now')
  }

  lemma {:induction false} CourseAppend(s: Table, rounds: nat, naps: Naps, now: Time, es: seq<Event>, s1: Table, now1: Time,
                                        fs: seq<Event>, s2: Table, now2: Time)
    requires Course(s, rounds, naps, now, es, s1, now1) && Course(s1, rounds, naps, now1, fs, s2, now2)
    ensures Course(s, rounds, naps, now, es + fs, s2, now2)
    decreases |es|
  {
    if es == [] {
      assert es + fs == fs;
    } else {
      CourseAppend(After(s, es[0]), rounds, naps, Clock(now, es[0]), es[1..], s1, now1, fs, s2, now2);
      assert (es + fs)[1..] == es[1..] + fs;
    }
  }

  lemma AllowedKeeps(s: Table, tasks: set<Tid>, rounds: nat, n: nat, naps: Naps, now: Time, e: Event)
    requires InOrder(s, tasks, rounds, n) && Allowed(s, rounds, naps, now, e)
    ensures InOrder(After(s, e), tasks, rounds, n)
  {
    assert AllowedOpened(0);
    TableStep(s, tasks, rounds, n, e, After(s, e));
  }

  lemma {:induction false} CourseKeeps(s: Table, tasks: set<Tid>, rounds: nat, n: nat, naps: Naps, now: Time, es: seq<Event>,
                                       s': Table, now': Time)
    requires InOrder(s, tasks, rounds, n) && Course(s, rounds, naps, now, es, s', now')
    ensures InOrder(s', tasks, rounds, n)
    decreases |es|
  {
    if es != [] {
      AllowedKeeps(s, tasks, rounds, n, naps, now, es[0]);
      CourseKeeps(After(s, es[0]), tasks, rounds, n, naps, Clock(now, es[0]), es[1..], s', now');
    }
  }

  lemma QuietAllowed(s: Table, rounds: nat, naps: Naps, now: Time, e: Event, at: Time)
    requires Enabled(s.k, e) && Quiet(e, at) && now <= at
    ensures Allowed(s, rounds, naps, now, e) && After(s, e) == Table(Step(s.k, e), s.stage) && Clock(now, e) <= at
  {
  }

  /** The scheduler's own events are allowed at any time and leave the stages as they are. */
  lemma {:induction false} QuietCourse(s: Table, rounds: nat, naps: Naps, now: Time, es: seq<Event>, k': Kernel, at: Time) returns (now': Time)
    requires QuietRun(s.k, es, k', at) && now <= at
    ensures Course(s, rounds, naps, now, es, Table(k', s.stage), now') && now <= now' <= at
    decreases |es|
  {
    now' := now;
    if es != [] {
      var e := es[0];
      assert Quiet(e, at);
      assert QuietRun(Step(s.k, e), es[1..], k', at);
      QuietAllowed(s, rounds, naps, now, e, at);
      now' := QuietCourse(After(s, e), rounds, naps, Clock(now, e), es[1..], k', at);
    }
  }

  lemma QuietKeeps(s: Table, tasks: set<Tid>, rounds: nat, n: nat, es: seq<Event>, k': Kernel, at: Time)
    requires InOrder(s, tasks, rounds, n) && QuietRun(s.k, es, k', at)
    ensures InOrder(Table(k', s.stage), tasks, rounds, n)
  {
    var now := QuietCourse(s, rounds, (i, c) => 0, at, es, k', at);
    CourseKeeps(s, tasks, rounds, n, (i, c) => 0, at, es, Table(k', s.stage), now);
  }

  /** A philosopher that has the processor comes back to its own code. */
  lemma PhilosopherReturns(s: Table, tasks: set<Tid>, rounds: nat, n: nat, j: nat, z: Tid, at: Time) returns (es: seq<Event>, k': Kernel)
    requires InOrder(s, tasks, rounds, n) && j < n && s.k.current == Some(j) && Awake(s.k, z) && z != j
    ensures QuietRun(s.k, es, k', at) && k'.Runs(j) && z in k'.ready && Awake(k', z) && k'.timers == s.k.timers
  {
    assert OrderOpened(0);
    assert PhilOk(s.k, j, s.stage[j] % 6, n);
    es, k' := [], s.k;
    if s.k.pc[j] != User {
      es, k' := QuietStep(s.k, [], s.k, Resume(j), at);
    }
  }

  /** Call number `c` of a round; a nap ends at `expire`. */
  function Call(i: nat, c: nat, n: nat, expire: usize): (e: Event)
    ensures IsCall(e, i, c, n) && IsSyscall(e) && e.t == i && (e.Sleep? ==> e.expire == expire && (c == 0 || c == 3))
  {
    match c
    case 0 => Sleep(i, expire)
    case 1 => Lock(i, Min(i, n))
    case 2 => Lock(i, Max(i, n))
    case 3 => Sleep(i, expire)
    case 4 => Unlock(i, Max(i, n))
    case _ => Unlock(i, Min(i, n))
  }

  /** An unfinished philosopher that runs can make its next call; in particular what it unlocks is locked. */
  lemma NextCallEnabled(s: Table, tasks: set<Tid>, rounds: nat, n: nat, j: nat, expire: usize)
    requires InOrder(s, tasks, rounds, n) && Unfinished(s, rounds, j) && s.k.Runs(j)
    ensures Enabled(s.k, Call(j, s.stage[j] % 6, n, expire))
  {
    assert OrderOpened(0);
    var c := s.stage[j] % 6;
    var e := Call(j, c, n, expire);
    assert PhilOk(s.k, j, c, n);
    ForksDiffer(j, n);
    if c != 0 && c != 3 {
      assert ForkOk(s.k, e.m, n);
      OnlyRunning(s.k, tasks, j);
      SoundAt(s.k, e.m);
      assert ObjOpened(0);
      assert e.Unlock? ==> Holds(s.k, j, e.m);
    }
  }

  lemma StillAwake(k: Kernel, e: Event, z: Tid)
    requires Enabled(k, e) && IsSyscall(e) && e.t != z && Awake(k, z) && z in k.ready
    ensures Awake(Step(k, e), z)
  {
    ReadyQueueStep(k, e);
  }

  // ---- What the clock has to do with it

  /** Philosopher `i` is past its last nap and awake. */
  ghost predicate Rested(s: Table, rounds: nat, i: nat)
    requires i < |s.stage|
  {
    s.stage[i] + 2 >= 6 * rounds && i !in Tasks(s.k.timers)
  }

  /**
   The philosophers that sleep are due by `late`, and no deadline in the heap is far, unless nobody
   who has not finished has a nap to end or to take.
   */
  ghost predicate Hopeful(s: Table, rounds: nat, late: Time) {
    && (forall x :: x in s.k.timers && x.task < |s.stage| ==> Due(x, late))
    && (NoneFar(s.k.timers) || forall i :: Unfinished(s, rounds, i) ==> Rested(s, rounds, i))
  }

  lemma HopefulWakes(s: Table, rounds: nat, late: Time, j: nat)
    requires Hopeful(s, rounds, late) && Unfinished(s, rounds, j)
    ensures Wakeable(s.k.timers, j, late)
  {
    if x :| x in s.k.timers && x.task == j {
      InHeap(s.k.timers, x);
    }
  }

  /** Fewer sleepers are no worse. */
  lemma HopefulFewer(s: Table, rounds: nat, late: Time, k': Kernel)
    requires Hopeful(s, rounds, late) && forall x :: x in k'.timers ==> x in s.k.timers
    ensures Hopeful(Table(k', s.stage), rounds, late)
  {
    var s' := Table(k', s.stage);
    forall i | Unfinished(s', rounds, i) && Rested(s, rounds, i) ensures Rested(s', rounds, i) {
      if i in Tasks(k'.timers) {
        var x := SleeperAt(k'.timers, i);
        InHeap(s.k.timers, x);
      }
    }
  }

  /** Past its last nap a philosopher takes none, and before it a nap that ends in time does no harm. */
  lemma HopefulCall(s: Table, rounds: nat, late: Time, j: nat, expire: usize, late': Time)
    requires Hopeful(s, rounds, late) && Unfinished(s, rounds, j) && late <= late' && expire as int <= late'
    requires var e := Call(j, s.stage[j] % 6, |s.stage|, expire); Enabled(s.k, e)
    ensures Hopeful(After(s, Call(j, s.stage[j] % 6, |s.stage|, expire)), rounds, late')
  {
    var e := Call(j, s.stage[j] % 6, |s.stage|, expire);
    var s' := After(s, e);
    if e.Sleep? {
      LastNap(s.stage[j], rounds);
      assert !Rested(s, rounds, j);
      assert forall x :: x in s'.k.timers <==> x in s.k.timers || x == Timer(expire, j);
    } else {
      assert s'.k.timers == s.k.timers;
      forall i | Unfinished(s', rounds, i) && Rested(s, rounds, i) ensures Rested(s', rounds, i) {
      }
    }
  }

  lemma LastNap(c: nat, rounds: nat)
    requires c < 6 * rounds && (c % 6 == 0 || c % 6 == 3)
    ensures c + 3 <= 6 * rounds
  {
  }

  ghost predicate UnderwayOpened(q: int) { true }

  /** A dinner of `n` with task `z` besides the philosophers awake, and hopeful for the time `late`. */
  ghost predicate Underway(s: Table, tasks: set<Tid>, rounds: nat, n: nat, z: Tid, late: Time) {
    forall q :: UnderwayOpened(q) ==> InOrder(s, tasks, rounds, n) && n <= z && Awake(s.k, z) && Hopeful(s, rounds, late)
  }

  // ---- One more call

  /**
   With a task besides the philosophers awake, and whoever sleeps due by `late`, some continuation
   with all interrupts at `late` has a philosopher make its next call.
   */
  lemma OneMoreCall(s: Table, tasks: set<Tid>, rounds: nat, n: nat, z: Tid, naps: Naps, now: Time, late: Time, late': Time)
    returns (es: seq<Event>, s': Table, now': Time, j: nat)
    requires Underway(s, tasks, rounds, n, z, late) && exists i :: Unfinished(s, rounds, i)
    requires now <= late <= late' && forall i, c :: late + naps(i, c) <= late'
    ensures Course(s, rounds, naps, now, es, s', now') && now' <= late && Underway(s', tasks, rounds, n, z, late')
    ensures Unfinished(s, rounds, j) && s'.stage == s.stage[j := s.stage[j] + 1]
  {
    var es1, s1, e;
    es1, s1, now', j := TakeTurn(s, tasks, rounds, n, z, naps, now, late);
    e, s' := MakeCall(s1, tasks, rounds, n, j, z, naps, now', late, late');
    CourseAppend(s, rounds, naps, now, es1, s1, now', [e], s', now');
    es := es1 + [e];
  }

  /** An unfinished philosopher comes to run. */
  lemma TakeTurn(s: Table, tasks: set<Tid>, rounds: nat, n: nat, z: Tid, naps: Naps, now: Time, late: Time)
    returns (es: seq<Event>, s': Table, now': Time, j: nat)
    requires Underway(s, tasks, rounds, n, z, late) && (exists i :: Unfinished(s, rounds, i)) && now <= late
    ensures Course(s, rounds, naps, now, es, s', now') && now' <= late && Underway(s', tasks, rounds, n, z, late)
    ensures Unfinished(s, rounds, j) && j < n && s'.stage == s.stage && s'.k.Runs(j) && z in s'.k.ready
  {
    assert UnderwayOpened(0);
    j := FreePhilosopher(s, tasks, rounds, n);
    var k';
    es, k' := RunPhilosopher(s, tasks, rounds, n, j, z, late);
    s' := Table(k', s.stage);
    now' := QuietCourse(s, rounds, naps, now, es, k', late);
    QuietKeeps(s, tasks, rounds, n, es, k', late);
    HopefulFewer(s, rounds, late, k');
  }

  /** A philosopher that runs makes its next call. */
  lemma MakeCall(s: Table, tasks: set<Tid>, rounds: nat, n: nat, j: nat, z: Tid, naps: Naps, now: Time, late: Time, late': Time)
    returns (e: Event, s': Table)
    requires Underway(s, tasks, rounds, n, z, late) && Unfinished(s, rounds, j) && j < n && s.k.Runs(j) && z in s.k.ready
    requires now <= late <= late' && late + naps(j, s.stage[j]) <= late'
    ensures Course(s, rounds, naps, now, [e], s', now) && Underway(s', tasks, rounds, n, z, late')
    ensures s'.stage == s.stage[j := s.stage[j] + 1]
  {
    assert UnderwayOpened(0);
    assert |s.stage| == n by { assert OrderOpened(0); }
    var expire := (now + naps(j, s.stage[j])) as usize;
    NextCallEnabled(s, tasks, rounds, n, j, expire);
    e := Call(j, s.stage[j] % 6, n, expire);
    s' := After(s, e);
    HopefulCall(s, rounds, late, j, expire, late');
    StillAwake(s.k, e, z);
    assert Allowed(s, rounds, naps, now, e);
    AllowedKeeps(s, tasks, rounds, n, naps, now, e);
    assert [e][1..] == [] && Course(s', rounds, naps, now, [], s', now);
  }

  lemma FreePhilosopher(s: Table, tasks: set<Tid>, rounds: nat, n: nat) returns (j: nat)
    requires InOrder(s, tasks, rounds, n) && exists i :: Unfinished(s, rounds, i)
    ensures Unfinished(s, rounds, j) && Free(s.k, j) && j < n
  {
    assert OrderOpened(0);
    j := SomeoneFree(s, tasks, rounds);
  }

  lemma RunPhilosopher(s: Table, tasks: set<Tid>, rounds: nat, n: nat, j: nat, z: Tid, late: Time) returns (es: seq<Event>, k': Kernel)
    requires InOrder(s, tasks, rounds, n) && j < n <= z && Unfinished(s, rounds, j) && Free(s.k, j) && Awake(s.k, z)
    requires Hopeful(s, rounds, late)
    ensures QuietRun(s.k, es, k', late) && k'.Runs(j) && z in k'.ready && Awake(k', z)
    ensures forall x :: x in k'.timers ==> x in s.k.timers
  {
    assert Inv(s.k, tasks) by { assert OrderOpened(0); }
    HopefulWakes(s, rounds, late, j);
    var es1, k1 := LetRun(s.k, tasks, j, z, late);
    var s1 := Table(k1, s.stage);
    QuietKeeps(s, tasks, rounds, n, es1, k1, late);
    var es2;
    es2, k' := PhilosopherReturns(s1, tasks, rounds, n, j, z, late);
    QuietAppend(s.k, es1, k1, es2, k', late);
    es := es1 + es2;
  }

  // ---- To the end

  /** How many calls are still to be made. */
  function Remaining(stage: seq<nat>, rounds: nat): nat {
    if stage == [] then 0
    else
      var n := |stage| - 1;
      Remaining(stage[..n], rounds) + if stage[n] < 6 * rounds then 6 * rounds - stage[n] else 0
  }

  lemma {:induction false} RemainingDrops(stage: seq<nat>, rounds: nat, j: nat)
    requires j < |stage| && stage[j] < 6 * rounds
    ensures Remaining(stage[j := stage[j] + 1], rounds) == Remaining(stage, rounds) - 1
  {
    var n := |stage| - 1;
    if j < n {
      RemainingDrops(stage[..n], rounds, j);
      assert stage[j := stage[j] + 1][..n] == stage[..n][j := stage[j] + 1];
    } else {
      assert stage[j := stage[j] + 1][..n] == stage[..n];
    }
  }

  /** The time `calls` calls take at most when no nap is longer than `longest`. */
  function Span(calls: nat, longest: nat): nat {
    if calls == 0 then 0 else longest + Span(calls - 1, longest)
  }

  /** With a call still to be made there is time for its nap, and for the rest after it. */
  lemma TimeForOne(stage: seq<nat>, rounds: nat, i: nat, longest: nat, late: Time) returns (late': Time)
    requires i < |stage| && stage[i] < 6 * rounds && late + Span(Remaining(stage, rounds), longest) <= LATEST
    ensures Remaining(stage, rounds) > 0
    ensures late' == late + longest && late' + Span(Remaining(stage, rounds) - 1, longest) <= LATEST
  {
    RemainingDrops(stage, rounds, i);
    late' := late + longest;
  }

  lemma {:induction false} ToTheEnd(s: Table, tasks: set<Tid>, rounds: nat, n: nat, z: Tid, naps: Naps, longest: nat, now: Time, late: Time)
    returns (es: seq<Event>, s': Table, now': Time)
    requires Underway(s, tasks, rounds, n, z, late) && forall i, c :: naps(i, c) <= longest
    requires now <= late && late + Span(Remaining(s.stage, rounds), longest) <= LATEST
    ensures Course(s, rounds, naps, now, es, s', now') && InOrder(s', tasks, rounds, n) && forall i :: !Unfinished(s', rounds, i)
    decreases Remaining(s.stage, rounds)
  {
    if i :| Unfinished(s, rounds, i) {
      var late' := TimeForOne(s.stage, rounds, i, longest, late);
      var es1, s1, now1, j := OneMoreCall(s, tasks, rounds, n, z, naps, now, late, late');
      RemainingDrops(s.stage, rounds, j);
      var es2;
      es2, s', now' := ToTheEnd(s1, tasks, rounds, n, z, naps, longest, now1, late');
      CourseAppend(s, rounds, naps, now, es1, s1, now1, es2, s', now');
      es := es1 + es2;
    } else {
      assert UnderwayOpened(0);
      es, s', now' := [], s, now;
    }
  }

  /** The tables along a course. */
  lemma {:induction false} Tables(s: Table, rounds: nat, naps: Naps, now: Time, es: seq<Event>, s': Table, now': Time) returns (tr: seq<Table>)
    requires Course(s, rounds, naps, now, es, s', now')
    ensures Dinner(tr, rounds, es) && tr[0] == s && tr[|es|] == s'
    decreases |es|
  {
    tr := [s];
    if es != [] {
      var rest := Tables(After(s, es[0]), rounds, naps, Clock(now, es[0]), es[1..], s', now');
      tr := tr + rest;
      assert AllowedOpened(0);
      forall j | 0 <= j < |es| ensures Next(tr[j], rounds, es[j], tr[j + 1]) {
        assert j > 0 ==> Next(rest[j - 1], rounds, es[1..][j - 1], rest[j]);
      }
    }
  }

  /** Everybody has finished all rounds. */
  ghost predicate AllDone(s: Table, rounds: nat) {
    forall i :: 0 <= i < |s.stage| ==> s.stage[i] == 6 * rounds
  }

  lemma NoneUnfinished(s: Table, tasks: set<Tid>, rounds: nat, n: nat)
    requires InOrder(s, tasks, rounds, n) && forall i :: !Unfinished(s, rounds, i)
    ensures AllDone(s, rounds)
  {
    assert OrderOpened(0);
    forall i | 0 <= i < |s.stage| ensures s.stage[i] == 6 * rounds {
      assert !Unfinished(s, rounds, i);
    }
  }

  /**
   At any point of any dinner, at time `now`: if some task besides the philosophers is awake, the
   table is hopeful for a time `late`, and the clock has room for the naps to come, then there is a
   continuation, with naps of exactly the given lengths, in which everybody finishes all rounds.
   */
  lemma NoDeadlock(tr: seq<Table>, tasks: set<Tid>, rounds: nat, es: seq<Event>, j: nat, z: Tid,
                   naps: Naps, longest: nat, now: Time, late: Time)
    returns (tr': seq<Table>, es': seq<Event>, now': Time)
    requires Dinner(tr, rounds, es) && Start(tr[0], tasks) && j < |tr|
    requires |tr[0].stage| <= z && Awake(tr[j].k, z) && (forall i, c :: naps(i, c) <= longest)
    requires Hopeful(tr[j], rounds, late) && now <= late && late + Span(Remaining(tr[j].stage, rounds), longest) <= LATEST
    ensures Dinner(tr', rounds, es') && tr'[0] == tr[j] && AllDone(tr'[|es'|], rounds)
    ensures Course(tr[j], rounds, naps, now, es', tr'[|es'|], now')
  {
    DinnerOk(tr, tasks, rounds, es, j);
    assert Underway(tr[j], tasks, rounds, |tr[0].stage|, z, late);
    var end;
    es', end, now' := ToTheEnd(tr[j], tasks, rounds, |tr[0].stage|, z, naps, longest, now, late);
    tr' := Tables(tr[j], rounds, naps, now, es', end, now');
    NoneUnfinished(end, tasks, rounds, |tr[0].stage|);
  }
}
