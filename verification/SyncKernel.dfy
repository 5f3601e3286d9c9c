/**
 The kernel side of the synchronisation system calls (os/src/sync, os/src/syscall/sync.rs,
 os/src/task, os/src/timer.rs), as it changes the scheduler's state: each method is a call up to
 the point where it switches away from the current task. What a call means to its caller rests on
 the invariant of the scheduler, so the object keeps the events it has gone through as history.
 */
module SyncKernel {
  import opened Basics
  import opened Options
  import opened Timers
  import opened Scheduler
  import opened SchedulerSafety
  import opened Turns
  import opened CallMeaning

  /** What can be asked of the kernel next. */
  datatype Request =
    | RunNext
    | Continue
    | GiveWay
    | Acquire(m: nat)
    | Release(m: nat)
    | Take(s: nat)
    | Give(s: nat)
    | Await(c: nat, m: nat)
    | Notify(c: nat)
    | Nap(now: Time, ms: usize)
    | Interrupt(at: Time)

  /** The deadline of a nap, which wraps around like any word. */
  function Deadline(now: Time, ms: usize): (r: usize)
    ensures r as int == if now + ms as int < 0x1_0000_0000_0000_0000 then now + ms as int else now + ms as int - 0x1_0000_0000_0000_0000
  {
    ((now + ms as int) % WORD) as usize
  }

  /** The event a request stands for. */
  predicate Asks(r: Request, e: Event) {
    match r
    case RunNext => e.Dispatch?
    case Continue => e.Resume?
    case GiveWay => e.Yield?
    case Acquire(m) => e.Lock? && e.m == m
    case Release(m) => e.Unlock? && e.m == m
    case Take(s) => e.Down? && e.s == s
    case Give(s) => e.Up? && e.s == s
    case Await(c, m) => e.Wait? && e.c == c && e.m == m
    case Notify(c) => e.Signal? && e.c == c
    case Nap(now, ms) => e.Sleep? && e.expire == Deadline(now, ms)
    case Interrupt(at) => e.Tick? && e.now == at
  }

  class Processor {
    var current: Option<Tid>
    var ready: seq<Tid>
    var objs: seq<Obj>
    var timers: seq<Timer>
    /** Where a task goes on when it gets the processor. */
    var pc: map<Tid, Pc>
    ghost var held: set<(Tid, nat)>
    ghost var logs: seq<Log>
    ghost var initial: Kernel
    ghost var trace: seq<Event>
    ghost var tasks: set<Tid>

    ghost function State(): Kernel
      reads this
    {
      Kernel(current, ready, objs, timers, pc, held, logs)
    }

    /** The object has gone from an initial state through the events in `trace`. */
    ghost predicate Valid()
      reads this
    {
      Reached(State(), initial, trace, tasks)
    }

    /** The object has gone through one more event. */
    twostate predicate Did(e: Event)
      reads this
    {
      Valid() && trace == old(trace) + [e] && initial == old(initial) && tasks == old(tasks)
    }

    /** A kernel with the tasks `ids` ready and the objects as their constructors make them. */
    constructor (ids: seq<Tid>, objs: seq<Obj>)
      requires forall i, j :: 0 <= i < j < |ids| ==> ids[i] != ids[j]
      requires forall i :: 0 <= i < |objs| ==> objs[i].queue == [] && (objs[i].Mutex? ==> !objs[i].locked) && (objs[i].Sem? ==> objs[i].count >= 0)
      ensures Valid() && trace == [] && tasks == (set t | t in ids) && ready == ids && this.objs == objs && current.None? && initial == State() && |logs| == |objs|
    {
      current, ready, timers := None, ids, [];
      this.objs := objs;
      pc := map t | t in ids :: User;
      held, trace := {}, [];
      logs := seq(|objs|, i requires 0 <= i < |objs| => FreshLog(objs[i]));
      tasks := set t | t in ids;
      new;
      initial := State();
      Starts(State(), ids);
    }

    // ---- The pieces the calls are made of

    /** `add_task`. */
    method AddTask(t: Tid)
      modifies `ready
      ensures ready == old(ready) + [t]
    {
      ready := ready + [t];
    }

    /** `suspend_current_and_run_next`, up to the switch. */
    method SuspendCurrent()
      requires current.Some?
      modifies `current, `ready
      ensures State() == Suspend(old(State()), old(current.value))
    {
      var task := current.value;
      current := None;
      AddTask(task);
    }

    /** `Mutex::lock`, and what is left of it after a spin or of `Condvar::wait` after the wakeup. */
    method LockMutex(m: nat)
      requires current.Some? && State().IsMutex(m)
      modifies `current, `ready, `objs, `pc, `held, `logs
      ensures State() == LockBy(old(State()), old(current.value), m)
    {
      var task, o := current.value, objs[m];
      if o.locked {
        if o.blocking {
          objs := objs[m := Mutex(true, true, o.queue + [task])];
          logs := logs[m := logs[m].(asked := logs[m].asked + [task])];
          pc := pc[task := InLock(m)];
          current := None;
        } else {
          pc := pc[task := Spinning(m)];
          SuspendCurrent();
        }
      } else {
        objs := objs[m := o.(locked := true)];
        logs := logs[m := if o.blocking then logs[m].(asked := logs[m].asked + [task], granted := logs[m].granted + [task]) else logs[m]];
        pc, held := pc[task := User], held + {(task, m)};
      }
    }

    /** `Mutex::unlock`. */
    method UnlockMutex(m: nat)
      requires State().IsMutex(m) && CanUnlock(objs[m])
      modifies `ready, `objs, `held, `logs
      ensures State() == UnlockBy(old(State()), m)
    {
      var o := objs[m];
      held := Forget(held, m);
      if o.blocking && o.queue != [] {
        var waking := o.queue[0];
        objs := objs[m := Mutex(true, o.locked, o.queue[1..])];
        logs := logs[m := logs[m].(granted := logs[m].granted + [waking])];
        held := held + {(waking, m)};
        AddTask(waking);
      } else {
        objs := objs[m := o.(locked := false)];
      }
    }

    /** The heap's `peek`: some greatest timer. */
    method Peek() returns (top: Option<Timer>)
      ensures top.None? <==> timers == []
      ensures top.Some? ==> IsTop(timers, top.value)
    {
      if timers == [] { return None; }
      var best, i := timers[0], 1;
      while i < |timers|
        invariant 1 <= i <= |timers|
        invariant IsTop(timers[..i], best)
      {
        assert timers[..i + 1] == timers[..i] + [timers[i]];
        if Key(timers[i]) > Key(best) { best := timers[i]; }
        i := i + 1;
      }
      assert timers[..i] == timers;
      return Some(best);
    }

    /** `check_timer` at time `now`: wakes whoever is due and leaves nobody behind who is, unless a far deadline keeps it from waking anybody. */
    method CheckTimer(now: Time) returns (ghost woken: seq<Timer>)
      modifies `timers, `ready
      ensures Pops(old(timers), now, woken, timers)
      ensures ready == old(ready) + Tasks(woken)
      ensures forall x :: x in woken ==> x in old(timers) && x.expire as int <= now
      ensures (exists b :: b in old(timers) && b.expire as int > 0x8000_0000_0000_0000) ==> woken == [] && timers == old(timers)
      ensures (forall b :: b in old(timers) ==> b.expire as int <= 0x8000_0000_0000_0000) ==> forall x :: x in timers ==> x.expire as int > now
    {
      woken := [];
      var top := Peek();
      while top.Some? && top.value.expire as int <= now
        invariant top.None? <==> timers == []
        invariant top.Some? ==> IsTop(timers, top.value)
        invariant ready == old(ready) + Tasks(woken)
        invariant Popped(old(timers), now, woken, timers)
        decreases |timers|
      {
        PoppedStep(old(timers), now, woken, timers, top.value);
        TasksAppend(woken, top.value);
        AddTask(top.value.task);
        timers := Without(timers, top.value);
        woken := woken + [top.value];
        top := Peek();
      }
      PoppedDone(old(timers), now, woken, timers);
      CheckedAt(old(timers), now, woken, timers);
    }

    // ---- The calls

    /** One turn of `run_tasks`: it finds a task exactly when anything can happen at all, and the one that has been ready longest. */
    method RunTask() returns (found: bool)
      requires Valid() && current.None?
      modifies this
      ensures found <==> exists e :: Enabled(old(State()), e)
      ensures found ==> Did(Dispatch) && current.Some? && old(ready) == [current.value] + ready
      ensures !found ==> Valid() && State() == old(State()) && trace == old(trace)
    {
      ghost var k := State();
      ReachedInv(k, initial, trace, tasks);
      CanHappen(k, tasks);
      found := ready != [];
      if found {
        ReachedStep(k, initial, trace, tasks, Dispatch);
        trace := trace + [Dispatch];
        current, ready := Some(ready[0]), ready[1..];
      }
    }

    /** The current task goes on inside the call it is in. */
    method Resume() returns (returned: bool)
      requires Valid() && current.Some? && Enabled(State(), Event.Resume(current.value))
      modifies this
      ensures Did(Event.Resume(old(current.value))) && returned == (current == old(current))
      ensures ResumeDone(old(State()), State(), old(current.value))
    {
      ghost var k := State();
      var task := current.value;
      var p := pc[task];
      ghost var e := Event.Resume(task);
      ReachedInv(k, initial, trace, tasks);
      ResumeMeans(k, tasks, task);
      ReachedStep(k, initial, trace, tasks, e);
      trace := trace + [e];
      if p.InWait? || p.Spinning? {
        LockMutex(p.m);
      } else {
        pc := pc[task := User];
      }
      returned := current.Some?;
    }

    /** `sys_yield`: the task is ready again, behind the others. */
    method Yield()
      requires Valid() && current.Some? && State().Runs(current.value)
      modifies this
      ensures Did(Event.Yield(old(current.value))) && current.None? && ready == old(ready) + [old(current.value)]
    {
      ghost var e := Event.Yield(current.value);
      ReachedStep(State(), initial, trace, tasks, e);
      trace := trace + [e];
      SuspendCurrent();
    }

    /** `sys_mutex_lock`. */
    method MutexLock(m: nat) returns (returned: bool)
      requires Valid() && current.Some? && Enabled(State(), Lock(current.value, m))
      modifies this
      ensures Did(Lock(old(current.value), m)) && returned == (current == old(current))
      ensures LockDone(old(State()), State(), old(current.value), m)
    {
      ghost var k, e := State(), Lock(current.value, m);
      ReachedInv(k, initial, trace, tasks);
      LockMeans(k, tasks, current.value, m);
      ReachedStep(k, initial, trace, tasks, e);
      trace := trace + [e];
      LockMutex(m);
      returned := current.Some?;
    }

    /** `sys_mutex_unlock`; on a blocking mutex that is not locked it panics. */
    method MutexUnlock(m: nat)
      requires Valid() && current.Some? && Enabled(State(), Unlock(current.value, m))
      modifies this
      ensures Did(Unlock(old(current.value), m)) && UnlockDone(old(State()), State(), m)
    {
      ghost var k, e := State(), Unlock(current.value, m);
      ReachedInv(k, initial, trace, tasks);
      UnlockMeans(k, tasks, current.value, m);
      ReachedStep(k, initial, trace, tasks, e);
      trace := trace + [e];
      UnlockMutex(m);
    }

    /** `sys_semaphore_down`. */
    method SemaphoreDown(s: nat) returns (returned: bool)
      requires Valid() && current.Some? && Enabled(State(), Down(current.value, s))
      modifies this
      ensures Did(Down(old(current.value), s)) && returned == (current == old(current))
      ensures DownDone(old(State()), State(), old(current.value), s)
    {
      ghost var k, e := State(), Down(current.value, s);
      ReachedInv(k, initial, trace, tasks);
      DownMeans(k, tasks, current.value, s);
      ReachedStep(k, initial, trace, tasks, e);
      trace := trace + [e];
      var task, count, queue := current.value, objs[s].count - 1, objs[s].queue;
      if count < 0 {
        objs := objs[s := Sem(count, queue + [task])];
        logs := logs[s := logs[s].(asked := logs[s].asked + [task])];
        pc := pc[task := InDown(s)];
        current := None;
      } else {
        objs := objs[s := Sem(count, queue)];
        logs := logs[s := logs[s].(asked := logs[s].asked + [task], granted := logs[s].granted + [task])];
      }
      returned := count >= 0;
    }

    /** `sys_semaphore_up`. */
    method SemaphoreUp(s: nat)
      requires Valid() && current.Some? && Enabled(State(), Up(current.value, s))
      modifies this
      ensures Did(Up(old(current.value), s)) && UpDone(old(State()), State(), s)
    {
      ghost var k, e := State(), Up(current.value, s);
      ReachedInv(k, initial, trace, tasks);
      UpMeans(k, tasks, current.value, s);
      ReachedStep(k, initial, trace, tasks, e);
      trace := trace + [e];
      var o := objs[s];
      ghost var l := logs[s];
      if o.count + 1 <= 0 && o.queue != [] {
        objs := objs[s := Sem(o.count + 1, o.queue[1..])];
        logs := logs[s := l.(ups := l.ups + 1, granted := l.granted + [o.queue[0]])];
        AddTask(o.queue[0]);
      } else {
        objs := objs[s := o.(count := o.count + 1)];
        logs := logs[s := l.(ups := l.ups + 1)];
      }
    }

    /** `sys_condvar_signal`. */
    method CondvarSignal(c: nat)
      requires Valid() && current.Some? && Enabled(State(), Signal(current.value, c))
      modifies this
      ensures Did(Signal(old(current.value), c)) && SignalDone(old(State()), State(), c)
    {
      ghost var k, e := State(), Signal(current.value, c);
      ReachedInv(k, initial, trace, tasks);
      SignalMeans(k, tasks, current.value, c);
      ReachedStep(k, initial, trace, tasks, e);
      trace := trace + [e];
      var queue := objs[c].queue;
      if queue != [] {
        objs := objs[c := Cond(queue[1..])];
        logs := logs[c := logs[c].(granted := logs[c].granted + [queue[0]])];
        AddTask(queue[0]);
      }
    }

    /** `sys_condvar_wait` up to the switch; `Resume` is what is left of it. */
    method CondvarWait(c: nat, m: nat)
      requires Valid() && current.Some? && Enabled(State(), Wait(current.value, c, m))
      modifies this
      ensures Did(Wait(old(current.value), c, m)) && WaitDone(old(State()), State(), old(current.value), c, m)
    {
      ghost var k, e := State(), Wait(current.value, c, m);
      ReachedInv(k, initial, trace, tasks);
      WaitMeans(k, tasks, current.value, c, m);
      ReachedStep(k, initial, trace, tasks, e);
      trace := trace + [e];
      UnlockMutex(m);
      var task := current.value;
      objs := objs[c := Cond(objs[c].queue + [task])];
      logs := logs[c := logs[c].(asked := logs[c].asked + [task])];
      pc := pc[task := InWait(c, m)];
      current := None;
    }

    /** `sys_sleep` at time `now`: the caller's one deadline is `ms` later, as far as a word goes. */
    method Sleep(now: Time, ms: usize)
      requires Valid() && current.Some? && State().Runs(current.value)
      modifies this
      ensures Did(Event.Sleep(old(current.value), Deadline(now, ms)))
      ensures SleepDone(State(), old(current.value), Deadline(now, ms))
      ensures forall x :: x in timers && x.task == old(current.value) ==>
                x.expire as int == if now + ms as int < 0x1_0000_0000_0000_0000 then now + ms as int else now + ms as int - 0x1_0000_0000_0000_0000
    {
      var expire, task := Deadline(now, ms), current.value;
      ghost var k, e := State(), Event.Sleep(task, expire);
      ReachedInv(k, initial, trace, tasks);
      SleepMeans(k, tasks, task, expire);
      ReachedStep(k, initial, trace, tasks, e);
      trace := trace + [e];
      timers := timers + [Timer(expire, task)];
      pc := pc[task := InSleep];
      current := None;
    }

    /** A timer interrupt from user mode: wake the sleepers, then give up the processor. */
    method TimerInterrupt(now: Time) returns (ghost woken: seq<Timer>)
      requires Valid() && current.Some? && State().Runs(current.value)
      modifies this
      ensures Did(Tick(old(current.value), now, woken, timers))
      ensures TickDone(old(State()), State(), old(current.value), now, woken)
    {
      ghost var k, task := State(), current.value;
      woken := CheckTimer(now);
      ghost var e := Tick(task, now, woken, timers);
      TickMeans(k, task, now, woken, timers);
      ReachedStep(k, initial, trace, tasks, e);
      trace := trace + [e];
      assert Step(k, e) == Suspend(State(), task);
      SuspendCurrent();
    }

    // ---- Any sequence of requests

    predicate InUser()
      reads this
    {
      current.Some? && current.value in pc && pc[current.value] == User
    }

    /** The request can be served now. */
    predicate Legal(r: Request)
      reads this
    {
      match r
      case RunNext => current.None? && ready != []
      case Continue => current.Some? && current.value in pc && pc[current.value] != User
      case Acquire(m) => InUser() && m < |objs| && objs[m].Mutex?
      case Release(m) => InUser() && m < |objs| && objs[m].Mutex? && CanUnlock(objs[m])
      case Take(s) => InUser() && s < |objs| && objs[s].Sem?
      case Give(s) => InUser() && s < |objs| && objs[s].Sem?
      case Await(c, m) => InUser() && c < |objs| && objs[c].Cond? && m < |objs| && objs[m].Mutex? && CanUnlock(objs[m])
      case Notify(c) => InUser() && c < |objs| && objs[c].Cond?
      case _ => InUser()
    }

    /** A request is legal exactly when one of its events can happen. */
    lemma LegalExact(r: Request)
      requires Valid()
      ensures Legal(r) <==> exists e :: Asks(r, e) && Enabled(State(), e)
    {
      LogsMatch(State(), initial, trace, tasks);
      if Legal(r) {
        var e := EventOf(r);
      }
    }

    lemma EventOf(r: Request) returns (e: Event)
      requires Valid() && Legal(r) && |logs| == |objs|
      ensures Asks(r, e) && Enabled(State(), e)
    {
      var t := if current.Some? then current.value else 0;
      match r
      case RunNext => e := Dispatch;
      case Continue => e := Event.Resume(t);
      case GiveWay => e := Event.Yield(t);
      case Acquire(m) => e := Lock(t, m);
      case Release(m) => e := Unlock(t, m);
      case Take(s) => e := Down(t, s);
      case Give(s) => e := Up(t, s);
      case Await(c, m) => e := Wait(t, c, m);
      case Notify(c) => e := Signal(t, c);
      case Nap(now, ms) => e := Event.Sleep(t, Deadline(now, ms));
      case Interrupt(at) =>
        var woken, left := CheckEnds(timers, at);
        e := Tick(t, at, woken, left);
    }

    /** Serving a legal request is one of its events. */
    method Handle(r: Request) returns (ghost e: Event)
      requires Valid() && Legal(r)
      modifies this
      ensures Asks(r, e) && Did(e)
    {
      LogsMatch(State(), initial, trace, tasks);
      ghost var t := if current.Some? then current.value else 0;
      match r
      case RunNext =>
        assert Enabled(State(), Dispatch);
        var _ := RunTask();
        e := Dispatch;
      case Continue =>
        var _ := Resume();
        e := Event.Resume(t);
      case GiveWay =>
        Yield();
        e := Event.Yield(t);
      case Acquire(m) =>
        var _ := MutexLock(m);
        e := Lock(t, m);
      case Release(m) =>
        MutexUnlock(m);
        e := Unlock(t, m);
      case Take(s) =>
        var _ := SemaphoreDown(s);
        e := Down(t, s);
      case Give(s) =>
        SemaphoreUp(s);
        e := Up(t, s);
      case Await(c, m) =>
        CondvarWait(c, m);
        e := Wait(t, c, m);
      case Notify(c) =>
        CondvarSignal(c);
        e := Signal(t, c);
      case Nap(now, ms) =>
        Sleep(now, ms);
        e := Event.Sleep(t, Deadline(now, ms));
      case Interrupt(at) =>
        ghost var woken := TimerInterrupt(at);
        e := Tick(t, at, woken, timers);
    }

    /**
     Whatever is asked, in whatever order, is served up to the first request that cannot be, and
     what the kernel goes through is a run of the scheduler with one event per request.
     */
    method Drive(script: seq<Request>) returns (done: nat)
      requires Valid()
      modifies this
      ensures Valid() && tasks == old(tasks) && initial == old(initial)
      ensures done <= |script| && (done < |script| ==> !Legal(script[done]))
      ensures |trace| == |old(trace)| + done && old(trace) <= trace
      ensures forall j :: 0 <= j < done ==> Asks(script[j], trace[|old(trace)| + j])
    {
      done := 0;
      while done < |script| && Legal(script[done])
        invariant Valid() && tasks == old(tasks) && initial == old(initial)
        invariant done <= |script| && |trace| == |old(trace)| + done && old(trace) <= trace
        invariant forall j :: 0 <= j < done ==> Asks(script[j], trace[|old(trace)| + j])
      {
        ghost var before := trace;
        ghost var e := Handle(script[done]);
        assert trace == before + [e];
        done := done + 1;
      }
    }
  }

  /** From the start, whatever is asked: no task is ever lost or in two places. */
  method Boot(ids: seq<Tid>, objs: seq<Obj>, script: seq<Request>) returns (p: Processor, done: nat)
    requires forall i, j :: 0 <= i < j < |ids| ==> ids[i] != ids[j]
    requires forall i :: 0 <= i < |objs| ==> objs[i].queue == [] && (objs[i].Mutex? ==> !objs[i].locked) && (objs[i].Sem? ==> objs[i].count >= 0)
    ensures p.Valid() && done <= |script| && (done < |script| ==> !p.Legal(script[done]))
    ensures |p.trace| == done && forall j :: 0 <= j < done ==> Asks(script[j], p.trace[j])
    ensures forall t: Tid :: Places(p.State(), t) == if t in ids then 1 else 0
    ensures |p.objs| == |objs| && forall s :: 0 <= s < |objs| && objs[s].Sem? ==>
              && p.objs[s].Sem?
              && p.objs[s].count == objs[s].count + Count(script[..done], r => r == Give(s)) - Count(script[..done], r => r == Take(s))
  {
    p := new Processor(ids, objs);
    done := p.Drive(script);
    EveryTaskOnce(p.State(), p.initial, p.trace, ids);
    assert |p.objs| == |objs| by { ReachedKinds(p.State(), p.initial, p.trace, p.tasks); }
    forall s | 0 <= s < |objs| && objs[s].Sem?
      ensures p.objs[s].Sem?
      ensures p.objs[s].count == objs[s].count + Count(script[..done], r => r == Give(s)) - Count(script[..done], r => r == Take(s))
    {
      Permits(p.State(), p.initial, p.trace, p.tasks, script[..done], s);
    }
  }

  lemma ReachedKinds(k: Kernel, initial: Kernel, trace: seq<Event>, tasks: set<Tid>)
    requires Reached(k, initial, trace, tasks)
    ensures |k.objs| == |initial.objs| == |initial.logs|
  {
    assert ReachedOpened(0);
    RunKinds(initial, trace, k);
  }

  lemma {:induction false} RunKinds(k: Kernel, es: seq<Event>, k': Kernel)
    requires Run(k, es, k')
    ensures |k'.objs| == |k.objs|
    decreases |es|
  {
    if es != [] {
      RunKinds(Step(k, es[0]), es[1..], k');
    }
  }

  function Ups(s: nat): Event -> bool { (e: Event) => e.Up? && e.s == s }

  function Downs(s: nat): Event -> bool { (e: Event) => e.Down? && e.s == s }

  /** A semaphore's count goes up by one with each `up` and down by one with each `down`, and changes with nothing else. */
  lemma {:induction false} CountsUpAndDown(k: Kernel, es: seq<Event>, k': Kernel, s: nat)
    requires Run(k, es, k') && k.IsSem(s)
    ensures k'.IsSem(s)
    ensures k'.objs[s].count == k.objs[s].count + Count(es, Ups(s)) - Count(es, Downs(s))
    decreases |es|
  {
    if es != [] {
      CountStep(k, es[0], s);
      CountsUpAndDown(Step(k, es[0]), es[1..], k', s);
    }
  }

  lemma CountStep(k: Kernel, e: Event, s: nat)
    requires Enabled(k, e) && k.IsSem(s)
    ensures var k' := Step(k, e);
            k'.IsSem(s) && k'.objs[s].count == k.objs[s].count + (if e.Up? && e.s == s then 1 else 0) - (if e.Down? && e.s == s then 1 else 0)
  {
  }

  lemma AskedFor(trace: seq<Event>, served: seq<Request>, s: nat)
    requires |trace| == |served| && forall j :: 0 <= j < |served| ==> Asks(served[j], trace[j])
    ensures Count(trace, Ups(s)) == Count(served, r => r == Give(s)) && Count(trace, Downs(s)) == Count(served, r => r == Take(s))
  {
    SameCount(trace, Ups(s), served, r => r == Give(s));
    SameCount(trace, Downs(s), served, r => r == Take(s));
  }

  lemma Permits(k: Kernel, initial: Kernel, trace: seq<Event>, tasks: set<Tid>, served: seq<Request>, s: nat)
    requires Reached(k, initial, trace, tasks) && initial.IsSem(s)
    requires |trace| == |served| && forall j :: 0 <= j < |served| ==> Asks(served[j], trace[j])
    ensures k.IsSem(s) && k.objs[s].count == initial.objs[s].count + Count(served, r => r == Give(s)) - Count(served, r => r == Take(s))
  {
    AskedFor(trace, served, s);
    assert Run(initial, trace, k) by { assert ReachedOpened(0); }
    CountsUpAndDown(initial, trace, k, s);
  }

  lemma EveryTaskOnce(k: Kernel, initial: Kernel, trace: seq<Event>, ids: seq<Tid>)
    requires Reached(k, initial, trace, set t | t in ids)
    ensures forall t: Tid :: Places(k, t) == if t in ids then 1 else 0
  {
    var tasks := set t | t in ids;
    ReachedInv(k, initial, trace, tasks);
    forall t: Tid ensures Places(k, t) == if t in ids then 1 else 0 {
      ExactlyOnePlace(k, tasks, t);
    }
  }

  function FreshLog(o: Obj): Log {
    Log(if o.Sem? then o.count else 0, 0, [], [])
  }

  lemma Starts(k: Kernel, ids: seq<Tid>)
    requires forall i, j :: 0 <= i < j < |ids| ==> ids[i] != ids[j]
    requires k.current.None? && k.ready == ids && k.timers == [] && k.held == {} && k.pc == map t | t in ids :: User
    requires |k.logs| == |k.objs|
    requires forall i :: 0 <= i < |k.objs| ==>
      && k.objs[i].queue == [] && (k.objs[i].Mutex? ==> !k.objs[i].locked) && (k.objs[i].Sem? ==> k.objs[i].count >= 0)
      && k.logs[i] == FreshLog(k.objs[i])
    ensures Reached(k, k, [], set t | t in ids)
  {
    OnceEach(ids);
  }

  lemma {:induction false} OnceEach(ids: seq<Tid>)
    requires forall i, j :: 0 <= i < j < |ids| ==> ids[i] != ids[j]
    ensures multiset(ids) == multiset(set t | t in ids)
  {
    if ids != [] {
      var n := |ids| - 1;
      OnceEach(ids[..n]);
      assert ids == ids[..n] + [ids[n]];
      assert (set t | t in ids) == (set t | t in ids[..n]) + {ids[n]};
    }
  }

  /** The task sleeps, until `expire`. */
  ghost predicate Sleeping(k: Kernel, tasks: set<Tid>, x: Timer) {
    Inv(k, tasks) && x in k.timers
  }

  lemma SleepingStep(k: Kernel, tasks: set<Tid>, x: Timer, e: Event)
    requires Sleeping(k, tasks, x) && Enabled(k, e) && (e.Tick? ==> e.now < x.expire as int)
    ensures Sleeping(Step(k, e), tasks, x)
  {
    StepKeeps(k, tasks, e);
    if e.Tick? {
      PopsPartition(k.timers, e.now, e.woken, e.left);
      InEither(k.timers, e.woken, e.left, x);
    } else if e.Sleep? {
      assert Step(k, e).timers == k.timers + [Timer(e.expire, e.t)];
    } else {
      assert Step(k, e).timers == k.timers;
    }
  }

  lemma {:induction false} SleepsUntil(k: Kernel, tasks: set<Tid>, x: Timer, es: seq<Event>, k': Kernel)
    requires Sleeping(k, tasks, x) && Run(k, es, k')
    requires forall j :: 0 <= j < |es| && es[j].Tick? ==> es[j].now < x.expire as int
    ensures Sleeping(k', tasks, x)
    decreases |es|
  {
    if es != [] {
      SleepingStep(k, tasks, x, es[0]);
      SleepsUntil(Step(k, es[0]), tasks, x, es[1..], k');
    }
  }

  lemma TickOrSleep(k: Kernel, tasks: set<Tid>, x: Timer, w: Event)
    requires Sleeping(k, tasks, x) && w.Tick? && Enabled(k, w)
    ensures x.task in Step(k, w).ready <==> x.expire as int <= w.now && NoneFar(k.timers)
  {
    assert x.task !in k.ready && k.current != Some(x.task) by {
      InHeap(k.timers, x);
      ExactlyOnePlace(k, tasks, x.task);
    }
    PopsPartition(k.timers, w.now, w.woken, w.left);
    if x.expire as int <= w.now && NoneFar(k.timers) {
      DueIsWoken(k.timers, w.now, w.woken, w.left, x);
      InHeap(w.woken, x);
    } else if x.task in Tasks(w.woken) {
      var y := SleeperAt(w.woken, x.task);
      InEither(k.timers, w.woken, w.left, y);
      OneSleeper(k, tasks, x, y);
      WakesExactlyTheDue(k.timers, w.now, w.woken, w.left);
    }
  }

  /** A task has at most one timer. */
  lemma OneSleeper(k: Kernel, tasks: set<Tid>, x: Timer, y: Timer)
    requires Inv(k, tasks) && x in k.timers && y in k.timers && x.task == y.task
    ensures x == y
  {
    ExactlyOnePlace(k, tasks, x.task);
    var i :| 0 <= i < |k.timers| && k.timers[i] == x;
    var j :| 0 <= j < |k.timers| && k.timers[j] == y;
    if i < j {
      Twice(Tasks(k.timers), i, j);
    } else if j < i {
      Twice(Tasks(k.timers), j, i);
    }
  }

  /**
   A nap of `ms` begun at `now` ends at `now + ms`, as far as a word goes: whatever happens in
   between, as long as no interrupt comes from then on the task neither runs nor is ready, and the
   first one that does makes it ready, unless a far deadline is in the heap.
   */
  lemma NapLasts(k: Kernel, tasks: set<Tid>, now: Time, ms: usize, e: Event, es: seq<Event>, k': Kernel, w: Event, end: int)
    requires Inv(k, tasks) && Asks(Nap(now, ms), e) && Enabled(k, e) && Run(Step(k, e), es, k')
    requires end == if now + ms as int < 0x1_0000_0000_0000_0000 then now + ms as int else now + ms as int - 0x1_0000_0000_0000_0000
    requires forall j :: 0 <= j < |es| && es[j].Tick? ==> es[j].now < end
    requires w.Tick? && Enabled(k', w)
    ensures k'.current != Some(e.t) && e.t !in k'.ready
    ensures e.t in Step(k', w).ready <==> w.now >= end && forall b :: b in k'.timers ==> b.expire as int <= 0x8000_0000_0000_0000
  {
    var x, k1 := Timer(e.expire, e.t), Step(k, e);
    StepKeeps(k, tasks, e);
    assert k1.timers == k.timers + [x];
    SleepsUntil(k1, tasks, x, es, k');
    InHeap(k'.timers, x);
    ExactlyOnePlace(k', tasks, e.t);
    TickOrSleep(k', tasks, x, w);
    assert NoneFar(k'.timers) <==> forall b :: b in k'.timers ==> b.expire as int <= 0x8000_0000_0000_0000;
  }

  /** `check_timer` has taken `woken` off `ts` so far and is at `now`'s heap `left`. */
  ghost predicate Popped(ts: seq<Timer>, now: int, woken: seq<Timer>, left: seq<Timer>)
    decreases |woken|
  {
    if woken == [] then left == ts
    else IsTop(ts, woken[0]) && Due(woken[0], now) && Popped(Without(ts, woken[0]), now, woken[1..], left)
  }

  lemma {:induction false} PoppedStep(ts: seq<Timer>, now: int, woken: seq<Timer>, left: seq<Timer>, x: Timer)
    requires Popped(ts, now, woken, left) && IsTop(left, x) && Due(x, now)
    ensures Popped(ts, now, woken + [x], Without(left, x))
    decreases |woken|
  {
    if woken == [] {
      assert (woken + [x])[1..] == [];
    } else {
      PoppedStep(Without(ts, woken[0]), now, woken[1..], left, x);
      assert (woken + [x])[1..] == woken[1..] + [x];
    }
  }

  lemma {:induction false} PoppedDone(ts: seq<Timer>, now: int, woken: seq<Timer>, left: seq<Timer>)
    requires Popped(ts, now, woken, left)
    requires left == [] || exists x :: IsTop(left, x) && !Due(x, now)
    ensures Pops(ts, now, woken, left)
    decreases |woken|
  {
    if woken != [] {
      PoppedDone(Without(ts, woken[0]), now, woken[1..], left);
    }
  }
}
