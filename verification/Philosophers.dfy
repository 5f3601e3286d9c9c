/**
 The dining philosophers of user/src/bin/phil_din_mutex.rs, for any number of them, running on
 the scheduler with its blocking mutexes: task `i` is philosopher `i`, mutex `i` is fork `i`.
 Other tasks may run beside them as long as they leave the forks alone.
 */
module Philosophers {
  import opened Basics
  import opened Options
  import opened Scheduler
  import opened SchedulerSafety

  /** `stage[i]` counts the system calls philosopher `i` has made, six a round. */
  datatype Table = Table(k: Kernel, stage: seq<nat>)

  function Left(i: nat, n: nat): nat { i }

  function Right(i: nat, n: nat): nat { if i == n - 1 then 0 else i + 1 }

  function Min(i: nat, n: nat): nat {
    if Left(i, n) < Right(i, n) then Left(i, n) else Right(i, n)
  }

  function Max(i: nat, n: nat): nat {
    Left(i, n) + Right(i, n) - Min(i, n)
  }

  lemma ForksDiffer(i: nat, n: nat)
    requires i < n && 2 <= n
    ensures Min(i, n) < Max(i, n) < n
  {
  }

  /** The event is philosopher `i`'s call number `c` of a round. */
  predicate IsCall(e: Event, i: nat, c: nat, n: nat) {
    match c
    case 0 => e.Sleep?
    case 1 => e == Lock(i, Min(i, n))
    case 2 => e == Lock(i, Max(i, n))
    case 3 => e.Sleep?
    case 4 => e == Unlock(i, Max(i, n))
    case _ => e == Unlock(i, Min(i, n))
  }

  predicate LeavesForks(e: Event, n: nat) {
    e.Lock? || e.Unlock? || e.Wait? ==> e.m >= n
  }

  /** One event: a philosopher makes the next call of the program, or nothing happens to the forks. */
  ghost predicate Next(s: Table, rounds: nat, e: Event, s': Table) {
    && Enabled(s.k, e) && s'.k == Step(s.k, e)
    && if IsSyscall(e) && e.t < |s.stage| then
         s.stage[e.t] < 6 * rounds && IsCall(e, e.t, s.stage[e.t] % 6, |s.stage|) && s'.stage == s.stage[e.t := s.stage[e.t] + 1]
       else
         LeavesForks(e, |s.stage|) && s'.stage == s.stage
  }

  // ---- Where a philosopher stands

  /** Philosopher `i` is in the queue for fork `m`. */
  predicate Queues(k: Kernel, i: nat, m: nat) {
    m < |k.objs| && i in k.objs[m].queue
  }

  predicate Holds(k: Kernel, i: nat, m: nat) {
    (i, m) in k.held
  }

  /** What philosopher `i` is doing after `c` calls of a round. */
  predicate Doing(p: Pc, i: nat, c: nat, n: nat) {
    match c
    case 0 => p == User
    case 1 => p == User || p == InSleep
    case 2 => p == User || p == InLock(Min(i, n))
    case 3 => p == User || p == InLock(Max(i, n))
    case 4 => p == User || p == InSleep
    case _ => p == User
  }

  /** The philosopher has asked for fork `m` and not given it back. */
  predicate Wants(i: nat, c: nat, n: nat, m: nat) {
    (m == Min(i, n) && 2 <= c <= 5) || (m == Max(i, n) && 3 <= c <= 4)
  }

  /** What a philosopher has asked for it holds, or waits for. */
  ghost predicate PhilOk(k: Kernel, i: nat, c: nat, n: nat) {
    && i in k.pc && Doing(k.pc[i], i, c, n)
    && forall m :: 0 <= m < n ==> (Holds(k, i, m) <==> Wants(i, c, n, m) && !Queues(k, i, m))
  }

  /** The forks are blocking mutexes nobody else holds or waits for. */
  ghost predicate ForkOk(k: Kernel, m: nat, n: nat) {
    && k.IsMutex(m) && k.objs[m].blocking
    && (forall t: Tid :: Holds(k, t, m) || Queues(k, t, m) ==> t < n)
    && (forall t :: t in k.pc ==> k.pc[t] != Spinning(m) && !(k.pc[t].InWait? && k.pc[t].m == m))
  }

  ghost predicate ForksOk(k: Kernel, n: nat) {
    forall m :: 0 <= m < n ==> ForkOk(k, m, n)
  }

  ghost predicate TableOk(s: Table, rounds: nat) {
    var n := |s.stage|;
    && 2 <= n
    && ForksOk(s.k, n)
    && (forall i :: 0 <= i < n ==> s.stage[i] <= 6 * rounds && PhilOk(s.k, i, s.stage[i] % 6, n))
  }

  // ---- How an event changes what is seen of a fork

  ghost predicate SameView(k: Kernel, k': Kernel, t: Tid, m: nat) {
    (Holds(k', t, m) <==> Holds(k, t, m)) && (Queues(k', t, m) <==> Queues(k, t, m))
  }

  /** Only the current task changes its call. */
  lemma OthersStay(k: Kernel, e: Event, i: nat)
    requires Enabled(k, e) && i in k.pc && (e.Dispatch? || e.t != i)
    ensures i in Step(k, e).pc && Step(k, e).pc[i] == k.pc[i]
  {
  }

  /** Mutexes stay what they are. */
  lemma MutexStays(k: Kernel, e: Event, m: nat)
    requires Enabled(k, e) && k.IsMutex(m)
    ensures Step(k, e).IsMutex(m) && Step(k, e).objs[m].blocking == k.objs[m].blocking
  {
  }

  /** An event that does not lock or unlock fork `m` leaves its holder and its queue alone. */
  lemma ForkUntouched(k: Kernel, e: Event, m: nat, t: Tid)
    requires Enabled(k, e) && k.IsMutex(m)
    requires (e.Lock? || e.Unlock? || e.Wait?) ==> e.m != m
    requires e.Resume? && e.t in k.pc ==> !(k.pc[e.t].InWait? && k.pc[e.t].m == m) && k.pc[e.t] != Spinning(m)
    ensures SameView(k, Step(k, e), t, m)
  {
  }

  lemma ForkLocked(k: Kernel, i: nat, m: nat, t: Tid)
    requires Enabled(k, Lock(i, m)) && k.objs[m].blocking && !Holds(k, i, m) && !Queues(k, i, m)
    ensures var k' := Step(k, Lock(i, m));
            if t == i then Holds(k', i, m) <==> !Queues(k', i, m) else SameView(k, k', t, m)
  {
  }

  lemma HeadOnce(q: seq<Tid>)
    requires q != [] && forall i, j :: 0 <= i < j < |q| ==> q[i] != q[j]
    ensures q[0] !in q[1..]
  {
  }

  lemma PopFrontIn(q: seq<Tid>, t: Tid)
    requires q != []
    ensures t in q <==> t == q[0] || t in q[1..]
  {
    assert q == [q[0]] + q[1..];
  }

  lemma ForkUnlocked(k: Kernel, tasks: set<Tid>, i: nat, m: nat, t: Tid)
    requires Inv(k, tasks) && Enabled(k, Unlock(i, m)) && k.objs[m].blocking && Holds(k, i, m)
    ensures var k' := Step(k, Unlock(i, m)); !Holds(k', i, m) && !Queues(k', i, m)
    ensures var k' := Step(k, Unlock(i, m)); t != i ==>
            (Holds(k', t, m) || Queues(k', t, m) <==> Holds(k, t, m) || Queues(k, t, m)) && !(Holds(k', t, m) && Queues(k', t, m))
  {
    OnlyRunning(k, tasks, i);
    var q := k.objs[m].queue;
    if q != [] {
      QueuedOnce(k, tasks, m);
      HeadOnce(q);
      PopFrontIn(q, t);
    }
    SoundAt(k, m);
    assert ObjOpened(0);
  }

  // ---- Every event keeps the table in order

  /** A philosopher waits only for a fork it has asked for. */
  lemma QueuedWants(k: Kernel, tasks: set<Tid>, i: nat, c: nat, n: nat, m: nat)
    requires Inv(k, tasks) && k.IsMutex(m) && c < 6 && PhilOk(k, i, c, n) && Queues(k, i, m)
    ensures Wants(i, c, n, m)
  {
    SoundAt(k, m);
    assert ObjOpened(0);
  }

  /** Whatever `t` had or waited for among the forks, it has or waits for. */
  ghost predicate Keeps(k: Kernel, k': Kernel, t: Tid, n: nat) {
    forall m :: 0 <= m < n ==>
      && (Holds(k', t, m) || Queues(k', t, m) <==> Holds(k, t, m) || Queues(k, t, m))
      && (Holds(k', t, m) && Queues(k', t, m) ==> Holds(k, t, m) && Queues(k, t, m))
  }

  lemma PhilUndisturbed(k: Kernel, tasks: set<Tid>, k': Kernel, i: nat, c: nat, n: nat)
    requires Inv(k, tasks) && c < 6 && PhilOk(k, i, c, n) && Keeps(k, k', i, n)
    requires ForksOk(k, n)
    requires i in k'.pc && Doing(k'.pc[i], i, c, n)
    ensures PhilOk(k', i, c, n)
  {
    forall m | 0 <= m < n ensures Holds(k', i, m) <==> Wants(i, c, n, m) && !Queues(k', i, m) {
      assert ForkOk(k, m, n);
      if Queues(k, i, m) {
        QueuedWants(k, tasks, i, c, n, m);
      }
    }
  }

  /** The event locks or unlocks no fork. */
  ghost predicate Bystander(k: Kernel, e: Event, n: nat) {
    && LeavesForks(e, n)
    && (e.Resume? && e.t in k.pc ==> (k.pc[e.t].InWait? || k.pc[e.t].Spinning? ==> k.pc[e.t].m >= n))
  }

  lemma BystanderKeeps(k: Kernel, e: Event, n: nat, t: Tid)
    requires Enabled(k, e) && Bystander(k, e, n) && ForksOk(k, n)
    ensures Keeps(k, Step(k, e), t, n)
  {
    var k' := Step(k, e);
    forall m | 0 <= m < n ensures (Holds(k', t, m) <==> Holds(k, t, m)) && (Queues(k', t, m) <==> Queues(k, t, m)) {
      assert ForkOk(k, m, n);
      ForkUntouched(k, e, m, t);
    }
  }

  /** Locking a fork changes nothing for the others, and neither does unlocking one, but for the one who gets it. */
  lemma OthersKeep(k: Kernel, tasks: set<Tid>, e: Event, n: nat, t: Tid)
    requires Inv(k, tasks) && Enabled(k, e) && (e.Lock? || e.Unlock?) && e.t != t && e.m < n
    requires ForksOk(k, n)
    requires if e.Lock? then !Holds(k, e.t, e.m) && !Queues(k, e.t, e.m) else Holds(k, e.t, e.m)
    ensures Keeps(k, Step(k, e), t, n)
  {
    var k' := Step(k, e);
    assert ForkOk(k, e.m, n);
    forall m | 0 <= m < n
      ensures (Holds(k', t, m) || Queues(k', t, m) <==> Holds(k, t, m) || Queues(k, t, m))
      ensures (Holds(k', t, m) && Queues(k', t, m) ==> Holds(k, t, m) && Queues(k, t, m))
    {
      assert ForkOk(k, m, n);
      if m != e.m {
        ForkUntouched(k, e, m, t);
      } else if e.Lock? {
        ForkLocked(k, e.t, m, t);
      } else {
        ForkUnlocked(k, tasks, e.t, m, t);
      }
    }
  }

  /** A philosopher's own call takes it to the next point of its program. */
  lemma OwnSleep(k: Kernel, tasks: set<Tid>, e: Event, i: nat, c: nat, n: nat)
    requires Inv(k, tasks) && Enabled(k, e) && e.Sleep? && e.t == i && (c == 0 || c == 3) && PhilOk(k, i, c, n)
    requires ForksOk(k, n)
    ensures PhilOk(Step(k, e), i, c + 1, n)
  {
    OnlyRunning(k, tasks, i);
    BystanderKeeps(k, e, n, i);
  }

  lemma OwnLock(k: Kernel, tasks: set<Tid>, e: Event, i: nat, c: nat, n: nat)
    requires Inv(k, tasks) && Enabled(k, e) && (c == 1 || c == 2) && IsCall(e, i, c, n) && PhilOk(k, i, c, n)
    requires i < n && 2 <= n && ForksOk(k, n)
    ensures e.m < n && !Holds(k, i, e.m) && !Queues(k, i, e.m) && PhilOk(Step(k, e), i, c + 1, n)
  {
    ForksDiffer(i, n);
    OnlyRunning(k, tasks, i);
    var k' := Step(k, e);
    forall m | 0 <= m < n ensures Holds(k', i, m) <==> Wants(i, c + 1, n, m) && !Queues(k', i, m) {
      assert ForkOk(k, m, n);
      if m == e.m {
        ForkLocked(k, i, m, i);
      } else {
        ForkUntouched(k, e, m, i);
      }
    }
    assert ForkOk(k, e.m, n);
  }

  lemma OwnUnlock(k: Kernel, tasks: set<Tid>, e: Event, i: nat, c: nat, n: nat)
    requires Inv(k, tasks) && Enabled(k, e) && (c == 4 || c == 5) && IsCall(e, i, c, n) && PhilOk(k, i, c, n)
    requires i < n && 2 <= n && ForksOk(k, n)
    ensures e.m < n && Holds(k, i, e.m) && PhilOk(Step(k, e), i, (c + 1) % 6, n)
  {
    ForksDiffer(i, n);
    OnlyRunning(k, tasks, i);
    var k' := Step(k, e);
    forall m | 0 <= m < n ensures Holds(k', i, m) <==> Wants(i, (c + 1) % 6, n, m) && !Queues(k', i, m) {
      assert ForkOk(k, m, n);
      if m == e.m {
        ForkUnlocked(k, tasks, i, m, i);
      } else {
        ForkUntouched(k, e, m, i);
      }
    }
  }

  /** The acting philosopher's call finds the forks as its program expects them. */
  lemma CallFits(k: Kernel, tasks: set<Tid>, e: Event, i: nat, c: nat, n: nat)
    requires Inv(k, tasks) && Enabled(k, e) && c < 6 && IsSyscall(e) && e.t == i && IsCall(e, i, c, n) && PhilOk(k, i, c, n)
    requires i < n && 2 <= n && ForksOk(k, n)
    ensures e.Lock? ==> e.m < n && !Holds(k, i, e.m) && !Queues(k, i, e.m)
    ensures e.Unlock? ==> e.m < n && Holds(k, i, e.m)
    ensures e.Sleep? || e.Lock? || e.Unlock?
    ensures PhilOk(Step(k, e), i, (c + 1) % 6, n)
  {
    if c == 0 || c == 3 {
      OwnSleep(k, tasks, e, i, c, n);
    } else if c == 1 || c == 2 {
      OwnLock(k, tasks, e, i, c, n);
    } else {
      OwnUnlock(k, tasks, e, i, c, n);
    }
  }

  /** The acting philosopher aside, everyone keeps what they had of the forks. */
  lemma EveryoneElseKeeps(s: Table, tasks: set<Tid>, rounds: nat, e: Event, s': Table, t: Tid)
    requires Inv(s.k, tasks) && TableOk(s, rounds) && Next(s, rounds, e, s')
    requires !(IsSyscall(e) && e.t < |s.stage| && e.t == t)
    ensures Keeps(s.k, s'.k, t, |s.stage|)
  {
    var n := |s.stage|;
    if IsSyscall(e) && e.t < n {
      CallFits(s.k, tasks, e, e.t, s.stage[e.t] % 6, n);
      if e.Sleep? {
        BystanderKeeps(s.k, e, n, t);
      } else {
        OthersKeep(s.k, tasks, e, n, t);
      }
    } else {
      ResumesElsewhere(s, rounds, e);
      BystanderKeeps(s.k, e, n, t);
    }
  }

  /** Nobody resumes into locking a fork. */
  lemma ResumesElsewhere(s: Table, rounds: nat, e: Event)
    requires TableOk(s, rounds) && LeavesForks(e, |s.stage|)
    ensures Bystander(s.k, e, |s.stage|)
  {
    if e.Resume? && e.t in s.k.pc && (s.k.pc[e.t].InWait? || s.k.pc[e.t].Spinning?) {
      var m := s.k.pc[e.t].m;
      assert m < |s.stage| ==> ForkOk(s.k, m, |s.stage|);
    }
  }

  lemma NextCall(c: nat)
    ensures (c + 1) % 6 == (c % 6 + 1) % 6
  {
  }

  lemma PhilStep(s: Table, tasks: set<Tid>, rounds: nat, e: Event, s': Table, i: nat)
    requires Inv(s.k, tasks) && TableOk(s, rounds) && Next(s, rounds, e, s') && i < |s.stage|
    ensures s'.stage[i] <= 6 * rounds && PhilOk(s'.k, i, s'.stage[i] % 6, |s.stage|)
  {
    var n, c := |s.stage|, s.stage[i] % 6;
    assert PhilOk(s.k, i, c, n);
    if IsSyscall(e) && e.t == i {
      CallFits(s.k, tasks, e, i, c, n);
      NextCall(s.stage[i]);
    } else {
      EveryoneElseKeeps(s, tasks, rounds, e, s', i);
      if !e.Dispatch? && e.t == i {
        ResumesElsewhere(s, rounds, e);
      } else {
        OthersStay(s.k, e, i);
      }
      PhilUndisturbed(s.k, tasks, s'.k, i, c, n);
    }
  }

  lemma ForkStep(s: Table, tasks: set<Tid>, rounds: nat, e: Event, s': Table, m: nat)
    requires Inv(s.k, tasks) && TableOk(s, rounds) && Next(s, rounds, e, s') && m < |s.stage|
    ensures ForkOk(s'.k, m, |s.stage|)
  {
    var n := |s.stage|;
    assert ForkOk(s.k, m, n);
    MutexStays(s.k, e, m);
    forall t: Tid | Holds(s'.k, t, m) || Queues(s'.k, t, m) ensures t < n {
      if t >= n {
        EveryoneElseKeeps(s, tasks, rounds, e, s', t);
      }
    }
    forall t | t in s'.k.pc ensures s'.k.pc[t] != Spinning(m) && !(s'.k.pc[t].InWait? && s'.k.pc[t].m == m) {
      ForkWaitStep(s, tasks, rounds, e, s', m, t);
    }
  }

  /** Nobody spins on a fork or waits to take one back. */
  lemma ForkWaitStep(s: Table, tasks: set<Tid>, rounds: nat, e: Event, s': Table, m: nat, t: Tid)
    requires Inv(s.k, tasks) && TableOk(s, rounds) && Next(s, rounds, e, s') && m < |s.stage| && t in s'.k.pc
    ensures s'.k.pc[t] != Spinning(m) && !(s'.k.pc[t].InWait? && s'.k.pc[t].m == m)
  {
    assert ForkOk(s.k, m, |s.stage|);
    if t in s.k.pc && (e.Dispatch? || e.t != t) {
      OthersStay(s.k, e, t);
    } else if IsSyscall(e) && e.t < |s.stage| {
      CallFits(s.k, tasks, e, e.t, s.stage[e.t] % 6, |s.stage|);
    } else {
      ResumesElsewhere(s, rounds, e);
    }
  }

  ghost predicate OrderOpened(q: int) { true }

  /** The kernel's invariant and the philosophers' own. */
  ghost predicate InOrder(s: Table, tasks: set<Tid>, rounds: nat, n: nat) {
    forall q :: OrderOpened(q) ==> Inv(s.k, tasks) && TableOk(s, rounds) && |s.stage| == n
  }

  lemma TableStep(s: Table, tasks: set<Tid>, rounds: nat, n: nat, e: Event, s': Table)
    requires InOrder(s, tasks, rounds, n) && Next(s, rounds, e, s')
    ensures InOrder(s', tasks, rounds, n)
  {
    assert OrderOpened(0);
    StepKeeps(s.k, tasks, e);
    forall i | 0 <= i < |s.stage| ensures s'.stage[i] <= 6 * rounds && PhilOk(s'.k, i, s'.stage[i] % 6, |s.stage|) {
      PhilStep(s, tasks, rounds, e, s', i);
    }
    forall m | 0 <= m < |s.stage| ensures ForkOk(s'.k, m, |s.stage|) {
      ForkStep(s, tasks, rounds, e, s', m);
    }
  }

  // ---- Whole dinners

  /** Everyone thinks, every fork lies on the table. */
  ghost predicate Start(s: Table, tasks: set<Tid>) {
    && Init(s.k, tasks) && 2 <= |s.stage|
    && (forall i :: 0 <= i < |s.stage| ==> s.stage[i] == 0 && i in tasks)
    && (forall m :: 0 <= m < |s.stage| ==> s.k.IsMutex(m) && s.k.objs[m].blocking)
  }

  lemma StartOk(s: Table, tasks: set<Tid>, rounds: nat)
    requires Start(s, tasks)
    ensures InOrder(s, tasks, rounds, |s.stage|)
  {
    InitInv(s.k, tasks);
    forall m | 0 <= m < |s.stage| ensures ForkOk(s.k, m, |s.stage|) {
      assert s.k.IsMutex(m);
      assert Fresh(s.k.objs[m], s.k.logs[m]);
    }
  }

  /** The tables `tr` follow one another by the events `es`. */
  ghost predicate Dinner(tr: seq<Table>, rounds: nat, es: seq<Event>) {
    |tr| == |es| + 1 && forall j :: 0 <= j < |es| ==> Next(tr[j], rounds, es[j], tr[j + 1])
  }

  lemma DinnerNext(tr: seq<Table>, tasks: set<Tid>, rounds: nat, es: seq<Event>, n: nat, j: nat)
    requires Dinner(tr, rounds, es) && j < |es| && InOrder(tr[j], tasks, rounds, n)
    ensures InOrder(tr[j + 1], tasks, rounds, n)
  {
    TableStep(tr[j], tasks, rounds, n, es[j], tr[j + 1]);
  }

  lemma DinnerOk(tr: seq<Table>, tasks: set<Tid>, rounds: nat, es: seq<Event>, j: nat)
    requires Dinner(tr, rounds, es) && Start(tr[0], tasks) && j < |tr|
    ensures InOrder(tr[j], tasks, rounds, |tr[0].stage|)
  {
    var n := |tr[0].stage|;
    var keeps := s => InOrder(s, tasks, rounds, n);
    StartOk(tr[0], tasks, rounds);
    forall k | 0 <= k < |es| && keeps(tr[k]) ensures keeps(tr[k + 1]) {
      DinnerNext(tr, tasks, rounds, es, n, k);
    }
    Persists(keeps, tr, j);
  }

  /** Between the return of the second lock and the first unlock. */
  predicate Eating(s: Table, i: nat)
    requires i < |s.stage| && i in s.k.pc
  {
    s.stage[i] % 6 == 4 || (s.stage[i] % 6 == 3 && s.k.pc[i] == User)
  }

  lemma EatingHoldsBoth(s: Table, tasks: set<Tid>, rounds: nat, i: nat)
    requires Inv(s.k, tasks) && TableOk(s, rounds) && i < |s.stage| && i in s.k.pc && Eating(s, i)
    ensures var n := |s.stage|; Holds(s.k, i, Min(i, n)) && Holds(s.k, i, Max(i, n))
  {
    var n := |s.stage|;
    assert PhilOk(s.k, i, s.stage[i] % 6, n);
    ForksDiffer(i, n);
    forall m | m == Min(i, n) || m == Max(i, n) ensures Holds(s.k, i, m) {
      assert ForkOk(s.k, m, n);
      SoundAt(s.k, m);
      assert ObjOpened(0);
    }
  }

  /** The next philosopher's left fork is the right one of this. */
  lemma NextSeat(a: nat, b: nat, n: nat)
    requires a < n && 2 <= n && b == (a + 1) % n
    ensures a != b && Right(a, n) == b == Left(b, n)
  {
    if a + 1 < n {
      assert (a + 1) % n == a + 1;
    }
  }

  /** Whoever eats has both forks, so a fork has one eater. */
  lemma OneEater(s: Table, tasks: set<Tid>, rounds: nat, a: nat, b: nat, m: nat)
    requires Inv(s.k, tasks) && TableOk(s, rounds) && a < |s.stage| && b < |s.stage| && a in s.k.pc && b in s.k.pc
    requires Eating(s, a) && Eating(s, b) && m < |s.stage|
    requires m == Min(a, |s.stage|) || m == Max(a, |s.stage|)
    requires m == Min(b, |s.stage|) || m == Max(b, |s.stage|)
    ensures a == b
  {
    EatingHoldsBoth(s, tasks, rounds, a);
    EatingHoldsBoth(s, tasks, rounds, b);
    assert ForkOk(s.k, m, |s.stage|);
    MutualExclusion(s.k, tasks, m);
  }

  /** Philosophers that sit next to each other never eat at the same time. */
  lemma NeighboursNeverEatTogether(tr: seq<Table>, tasks: set<Tid>, rounds: nat, es: seq<Event>, j: nat, a: nat, b: nat)
    requires Dinner(tr, rounds, es) && Start(tr[0], tasks) && j < |tr|
    requires a < |tr[j].stage| && b < |tr[j].stage| && b == (a + 1) % |tr[j].stage| && a in tr[j].k.pc && b in tr[j].k.pc
    ensures !(Eating(tr[j], a) && Eating(tr[j], b))
  {
    DinnerOk(tr, tasks, rounds, es, j);
    assert OrderOpened(0);
    var n := |tr[j].stage|;
    ForksDiffer(a, n);
    NextSeat(a, b, n);
    if Eating(tr[j], a) && Eating(tr[j], b) {
      OneEater(tr[j], tasks, rounds, a, b, b);
    }
  }

  predicate Unfinished(s: Table, rounds: nat, i: nat) {
    i < |s.stage| && s.stage[i] < 6 * rounds
  }

  /** The philosopher waits for no mutex: it runs, is ready to run, or sleeps. */
  predicate Free(k: Kernel, i: nat) {
    k.current == Some(i) || i in k.ready || i in Tasks(k.timers)
  }

  /** A philosopher that is not free waits for a fork. */
  lemma FreeOrQueued(s: Table, tasks: set<Tid>, rounds: nat, i: nat) returns (m: nat)
    requires Inv(s.k, tasks) && TableOk(s, rounds) && i < |s.stage| && !Free(s.k, i)
    ensures m < |s.stage| && Queues(s.k, i, m) && i in s.k.pc && s.k.pc[i] == InLock(m)
  {
    assert PhilOk(s.k, i, s.stage[i] % 6, |s.stage|);
    ForksDiffer(i, |s.stage|);
    assert PlacedOpened(0);
    assert i in Everyone(s.k);
    assert i in Queued(s.k.objs);
    m := QueuedIn(s.k.objs, i);
    SoundAt(s.k, m);
    assert ObjOpened(0);
  }

  /** From a philosopher waiting for fork `m`, following holders upwards leads to one that waits for nothing. */
  lemma {:induction false} FollowHolders(s: Table, tasks: set<Tid>, rounds: nat, i: nat, m: nat) returns (j: nat)
    requires Inv(s.k, tasks) && TableOk(s, rounds) && i < |s.stage| && m < |s.stage| && Queues(s.k, i, m)
    ensures Unfinished(s, rounds, j) && Free(s.k, j)
    decreases |s.stage| - m
  {
    var n := |s.stage|;
    assert ForkOk(s.k, m, n);
    SomeoneHolds(s.k, tasks, i, m);
    j :| Holds(s.k, j, m);
    var c := s.stage[j] % 6;
    assert PhilOk(s.k, j, c, n);
    assert Wants(j, c, n, m) && !Queues(s.k, j, m);
    if !Free(s.k, j) {
      var m' := FreeOrQueued(s, tasks, rounds, j);
      ForksDiffer(j, n);
      assert m < m';
      j := FollowHolders(s, tasks, rounds, j, m');
    }
  }

  lemma SomeoneHolds(k: Kernel, tasks: set<Tid>, i: nat, m: nat)
    requires Inv(k, tasks) && k.IsMutex(m) && Queues(k, i, m)
    ensures exists t: Tid :: Holds(k, t, m)
  {
    MutualExclusion(k, tasks, m);
    var t :| (t, m) in k.held;
    assert Holds(k, t, m);
  }

  /** Somebody who has not finished waits for no fork. */
  lemma SomeoneFree(s: Table, tasks: set<Tid>, rounds: nat) returns (j: nat)
    requires Inv(s.k, tasks) && TableOk(s, rounds) && exists i :: Unfinished(s, rounds, i)
    ensures Unfinished(s, rounds, j) && Free(s.k, j)
  {
    j :| Unfinished(s, rounds, j);
    if !Free(s.k, j) {
      var m := FreeOrQueued(s, tasks, rounds, j);
      j := FollowHolders(s, tasks, rounds, j, m);
    }
  }

  /** The forks never tie everyone up: as long as somebody has not finished, somebody who has not waits for no fork. */
  lemma NoCircularWait(tr: seq<Table>, tasks: set<Tid>, rounds: nat, es: seq<Event>, j: nat)
    requires Dinner(tr, rounds, es) && Start(tr[0], tasks) && j < |tr|
    requires exists i :: Unfinished(tr[j], rounds, i)
    ensures exists i :: Unfinished(tr[j], rounds, i) && Free(tr[j].k, i)
  {
    DinnerOk(tr, tasks, rounds, es, j);
    assert OrderOpened(0);
    var i := SomeoneFree(tr[j], tasks, rounds);
  }
}
