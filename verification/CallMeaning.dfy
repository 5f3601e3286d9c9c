/**
 What the synchronisation calls mean to their callers, in every state a run can reach
 (os/src/sync, os/src/syscall/sync.rs): who comes back with what, who is woken, who waits.
 */
module CallMeaning {
  import opened Options
  import opened Timers
  import opened Scheduler
  import opened SchedulerSafety

  /** The state of a kernel that was started with `tasks` and has gone through the events `trace`. */
  ghost predicate Reached(k: Kernel, initial: Kernel, trace: seq<Event>, tasks: set<Tid>) {
    forall q :: ReachedOpened(q) ==> Init(initial, tasks) && Run(initial, trace, k)
  }

  ghost predicate ReachedOpened(q: int) { true }

  lemma ReachedStep(k: Kernel, initial: Kernel, trace: seq<Event>, tasks: set<Tid>, e: Event)
    requires Reached(k, initial, trace, tasks) && Enabled(k, e)
    ensures Reached(Step(k, e), initial, trace + [e], tasks)
  {
    assert ReachedOpened(0);
    var _, _ := RunStep(initial, trace, k, e);
  }

  lemma ReachedInv(k: Kernel, initial: Kernel, trace: seq<Event>, tasks: set<Tid>)
    requires Reached(k, initial, trace, tasks)
    ensures Inv(k, tasks)
  {
    assert ReachedOpened(0);
    EveryRun(initial, tasks, trace, k);
  }

  lemma LogsMatch(k: Kernel, initial: Kernel, trace: seq<Event>, tasks: set<Tid>)
    requires Reached(k, initial, trace, tasks)
    ensures |k.logs| == |k.objs|
  {
    ReachedInv(k, initial, trace, tasks);
    assert SoundOpened(0);
  }

  /** Nobody but `t` is counted as the holder of `m`. */
  ghost predicate OnlyHolder(k: Kernel, t: Tid, m: nat) {
    forall u: Tid :: (u, m) in k.held <==> u == t
  }

  ghost predicate Unheld(k: Kernel, m: nat) {
    forall u: Tid :: (u, m) !in k.held
  }

  /** `lock` returns exactly when the mutex was free, and then the caller alone has it; otherwise somebody else has, and it waits. */
  ghost predicate LockDone(k: Kernel, k': Kernel, t: Tid, m: nat)
    requires k.IsMutex(m)
  {
    && (k'.current == Some(t) <==> Unheld(k, m))
    && (k'.current == Some(t) ==> OnlyHolder(k', t, m))
    && (k'.current != Some(t) ==> k'.current.None? && k'.held == k.held)
    && (k'.current != Some(t) && k.objs[m].blocking ==> k'.IsMutex(m) && k'.objs[m].queue == k.objs[m].queue + [t] && t !in k'.ready)
    && (k'.current != Some(t) && !k.objs[m].blocking ==> k'.ready == k.ready + [t])
  }

  lemma LockMeans(k: Kernel, tasks: set<Tid>, t: Tid, m: nat)
    requires Inv(k, tasks) && Enabled(k, Lock(t, m))
    ensures LockDone(k, Step(k, Lock(t, m)), t, m)
  {
    OnlyRunning(k, tasks, t);
    MutualExclusion(k, tasks, m);
  }

  /** `unlock` gives a mutex with waiters to the first of them, who becomes ready, and frees one without. */
  ghost predicate UnlockDone(k: Kernel, k': Kernel, m: nat)
    requires k.IsMutex(m)
  {
    var q := k.objs[m].queue;
    && k'.current == k.current && k'.IsMutex(m)
    && (q == [] ==> Unheld(k', m) && !k'.objs[m].locked && k'.ready == k.ready)
    && (q != [] ==> OnlyHolder(k', q[0], m) && k'.objs[m].locked && k'.ready == k.ready + [q[0]])
    && (q != [] ==> q == [q[0]] + k'.objs[m].queue && q[0] !in k'.objs[m].queue)
  }

  lemma UnlockMeans(k: Kernel, tasks: set<Tid>, t: Tid, m: nat)
    requires Inv(k, tasks) && Enabled(k, Unlock(t, m))
    ensures UnlockDone(k, Step(k, Unlock(t, m)), m)
  {
    SoundAt(k, m);
    FirstIn(k.objs[m].queue);
    QueuedOnce(k, tasks, m);
    assert ObjOpened(0);
  }

  /** `down` returns exactly when fewer tasks have asked than there are permits; otherwise the caller waits. */
  ghost predicate DownDone(k: Kernel, k': Kernel, t: Tid, s: nat)
    requires k.IsSem(s)
  {
    var l := k.logs[s];
    && (k'.current == Some(t) <==> |l.asked| < l.initial + l.ups)
    && (k'.current != Some(t) ==> k'.current.None? && k'.IsSem(s) && k'.objs[s].queue == k.objs[s].queue + [t] && t !in k'.ready)
  }

  lemma DownMeans(k: Kernel, tasks: set<Tid>, t: Tid, s: nat)
    requires Inv(k, tasks) && Enabled(k, Down(t, s))
    ensures DownDone(k, Step(k, Down(t, s)), t, s)
  {
    OnlyRunning(k, tasks, t);
    SoundAt(k, s);
    assert ObjOpened(0);
  }

  /** `up` wakes the first waiter exactly when there is one; otherwise a permit stays behind. */
  ghost predicate UpDone(k: Kernel, k': Kernel, s: nat)
    requires k.IsSem(s)
  {
    var q := k.objs[s].queue;
    && k'.current == k.current && k'.IsSem(s)
    && (q == [] ==> k'.ready == k.ready && k'.objs[s].count > 0)
    && (q != [] ==> k'.ready == k.ready + [q[0]] && q == [q[0]] + k'.objs[s].queue && q[0] !in k'.objs[s].queue && k'.objs[s].count <= 0)
  }

  lemma UpMeans(k: Kernel, tasks: set<Tid>, t: Tid, s: nat)
    requires Inv(k, tasks) && Enabled(k, Up(t, s))
    ensures UpDone(k, Step(k, Up(t, s)), s)
  {
    SoundAt(k, s);
    QueuedOnce(k, tasks, s);
    assert ObjOpened(0);
  }

  /** `signal` wakes the first waiter; without one it leaves no trace. */
  ghost predicate SignalDone(k: Kernel, k': Kernel, c: nat)
    requires k.IsCond(c)
  {
    var q := k.objs[c].queue;
    && k'.current == k.current && k'.IsCond(c)
    && (q == [] ==> k' == k)
    && (q != [] ==> k'.ready == k.ready + [q[0]] && q == [q[0]] + k'.objs[c].queue && q[0] !in k'.objs[c].queue)
  }

  lemma SignalMeans(k: Kernel, tasks: set<Tid>, t: Tid, c: nat)
    requires Inv(k, tasks) && Enabled(k, Signal(t, c))
    ensures SignalDone(k, Step(k, Signal(t, c)), c)
  {
    QueuedOnce(k, tasks, c);
  }

  /** `wait` gives the mutex up, to its first waiter if it has one, and the caller waits for a signal. */
  ghost predicate WaitDone(k: Kernel, k': Kernel, t: Tid, c: nat, m: nat)
    requires k.IsMutex(m) && k.IsCond(c)
  {
    var q := k.objs[m].queue;
    && k'.current.None? && k'.IsCond(c) && k'.objs[c].queue == k.objs[c].queue + [t] && t !in k'.ready && (t, m) !in k'.held
    && (q == [] ==> Unheld(k', m) && k'.ready == k.ready)
    && (q != [] ==> OnlyHolder(k', q[0], m) && k'.ready == k.ready + [q[0]])
  }

  lemma WaitMeans(k: Kernel, tasks: set<Tid>, t: Tid, c: nat, m: nat)
    requires Inv(k, tasks) && Enabled(k, Wait(t, c, m))
    ensures WaitDone(k, Step(k, Wait(t, c, m)), t, c, m)
  {
    OnlyRunning(k, tasks, t);
    FirstIn(k.objs[m].queue);
    UnlockMeans(k, tasks, t, m);
  }

  /** A task that goes to sleep is in the timer queue, once and with this deadline, and not ready. */
  ghost predicate SleepDone(k': Kernel, t: Tid, expire: usize) {
    && k'.current.None? && t !in k'.ready && multiset(Tasks(k'.timers))[t] == 1 && Timer(expire, t) in k'.timers
    && forall x :: x in k'.timers && x.task == t ==> x.expire == expire
  }

  lemma OneTimerMore(ts: seq<Timer>, x: Timer)
    requires x.task !in Tasks(ts)
    ensures multiset(Tasks(ts + [x]))[x.task] == 1
  {
    TasksAppend(ts, x);
    assert multiset(Tasks(ts) + [x.task])[x.task] == multiset(Tasks(ts))[x.task] + 1;
  }

  lemma SleepMeans(k: Kernel, tasks: set<Tid>, t: Tid, expire: usize)
    requires Inv(k, tasks) && Enabled(k, Event.Sleep(t, expire))
    ensures SleepDone(Step(k, Event.Sleep(t, expire)), t, expire)
  {
    OnlyRunning(k, tasks, t);
    OneTimerMore(k.timers, Timer(expire, t));
  }

  /** A timer interrupt wakes exactly the sleepers that are due, in the order of their deadlines, unless a far deadline hides them. */
  ghost predicate TickDone(k: Kernel, k': Kernel, t: Tid, now: Time, woken: seq<Timer>) {
    && k'.current.None? && t in k'.ready && k'.ready == k.ready + Tasks(woken) + [t]
    && (multiset(woken) == multiset(AllDue(k.timers, now)) <==> !FarHidesDue(k.timers, now))
    && multiset(k.timers) == multiset(woken) + multiset(k'.timers) && ByDeadline(woken)
  }

  /** What a check takes off the heap is due; with a far deadline it takes nothing, and without one it leaves nothing due. */
  lemma CheckedAt(ts: seq<Timer>, now: Time, woken: seq<Timer>, left: seq<Timer>)
    requires Pops(ts, now, woken, left)
    ensures forall x :: x in woken ==> x in ts && x.expire as int <= now
    ensures (exists b :: b in ts && b.expire as int > 0x8000_0000_0000_0000) ==> woken == [] && left == ts
    ensures (forall b :: b in ts ==> b.expire as int <= 0x8000_0000_0000_0000) ==> forall x :: x in left ==> x.expire as int > now
  {
    PopsPartition(ts, now, woken, left);
    forall x ensures x in ts <==> x in woken || x in left { InEither(ts, woken, left, x); }
    if b :| b in ts && Far(b) {
      FarBlocksAll(ts, now, woken, left, b);
    } else {
      NothingDueLeft(left, now);
    }
  }

  lemma TickMeans(k: Kernel, t: Tid, now: Time, woken: seq<Timer>, left: seq<Timer>)
    requires Enabled(k, Tick(t, now, woken, left))
    ensures TickDone(k, Step(k, Tick(t, now, woken, left)), t, now, woken)
  {
    WakesExactlyTheDue(k.timers, now, woken, left);
    WakesInOrder(k.timers, now, woken, left);
    PopsPartition(k.timers, now, woken, left);
  }

  /**
   A task that is resumed gets back to its own code, unless it has to take a mutex first: after a
   spin or a wakeup it goes on as `lock` does.
   */
  ghost predicate ResumeDone(k: Kernel, k': Kernel, t: Tid)
    requires t in k.pc
  {
    var p := k.pc[t];
    if p.InWait? || p.Spinning? then k.IsMutex(p.m) && LockDone(k, k', t, p.m)
    else k'.Runs(t) && k'.ready == k.ready && k'.objs == k.objs
  }

  lemma ResumeMeans(k: Kernel, tasks: set<Tid>, t: Tid)
    requires Inv(k, tasks) && Enabled(k, Resume(t))
    ensures ResumeDone(k, Step(k, Resume(t)), t)
  {
    var p := k.pc[t];
    assert SoundOpened(0);
    assert CallOk(k.objs, p);
    if p.InWait? || p.Spinning? {
      OnlyRunning(k, tasks, t);
      MutualExclusion(k, tasks, p.m);
    }
  }
}
