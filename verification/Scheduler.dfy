/**
 The uniprocessor scheduler with its blocking primitives (os/src/task,
 os/src/sync, os/src/timer.rs) as a step system. The kernel is not preempted, so a system
 call is one step up to the point where it gives up the processor, and what is left of it
 runs as another step when the task is dispatched again.

 A task that waits to be resumed inside a system call carries a `Pc` telling where; `held` and
 the logs are history: to whom a mutex was given last and not taken away since, by an `unlock` of
 whichever task, and in which order tasks asked for and were granted an object.
 */
module Scheduler {
  import opened Options
  import opened Timers

  type Tid = nat

  datatype Obj =
    | Mutex(blocking: bool, locked: bool, queue: seq<Tid>)
    | Sem(count: int, queue: seq<Tid>)
    | Cond(queue: seq<Tid>)

  datatype Pc =
    | User
    | InLock(m: nat)
    | Spinning(m: nat)
    | InWait(c: nat, m: nat)
    | InDown(s: nat)
    | InSleep

  /** Requests for an object and grants of it, or wakeups, in order; for a semaphore also its initial count and the number of `up`s. */
  datatype Log = Log(initial: int, ups: nat, asked: seq<Tid>, granted: seq<Tid>)

  datatype Kernel = Kernel(current: Option<Tid>, ready: seq<Tid>, objs: seq<Obj>, timers: seq<Timer>,
                           pc: map<Tid, Pc>, held: set<(Tid, nat)>, logs: seq<Log>)
  {
    /** `t` runs user code. */
    predicate Runs(t: Tid) {
      current == Some(t) && t in pc && pc[t] == User
    }

    predicate IsMutex(i: nat) { i < |objs| == |logs| && objs[i].Mutex? }
    predicate IsSem(i: nat) { i < |objs| == |logs| && objs[i].Sem? }
    predicate IsCond(i: nat) { i < |objs| == |logs| && objs[i].Cond? }
  }

  datatype Event =
    | Dispatch
    | Resume(t: Tid)
    | Yield(t: Tid)
    | Lock(t: Tid, m: nat)
    | Unlock(t: Tid, m: nat)
    | Down(t: Tid, s: nat)
    | Up(t: Tid, s: nat)
    | Wait(t: Tid, c: nat, m: nat)
    | Signal(t: Tid, c: nat)
    | Sleep(t: Tid, expire: usize)
    | Tick(t: Tid, now: Time, woken: seq<Timer>, left: seq<Timer>)

  /** `mutex.lock()` by the current task `t`. */
  function LockBy(k: Kernel, t: Tid, i: nat): Kernel
    requires k.IsMutex(i)
  {
    var o, l := k.objs[i], k.logs[i];
    if o.locked && o.blocking then
      k.(current := None, pc := k.pc[t := InLock(i)], objs := k.objs[i := Mutex(true, true, o.queue + [t])],
         logs := k.logs[i := l.(asked := l.asked + [t])])
    else if o.locked then
      k.(current := None, pc := k.pc[t := Spinning(i)], ready := k.ready + [t])
    else
      k.(pc := k.pc[t := User], held := k.held + {(t, i)}, objs := k.objs[i := o.(locked := true)],
         logs := k.logs[i := if o.blocking then l.(asked := l.asked + [t], granted := l.granted + [t]) else l])
  }

  /** Nobody has mutex `i` any more. */
  function Forget(held: set<(Tid, nat)>, i: nat): set<(Tid, nat)> {
    set h | h in held && h.1 != i
  }

  /** `mutex.unlock()`, by whoever: a blocking mutex goes to the first waiter, who need not ask again. */
  function UnlockBy(k: Kernel, i: nat): Kernel
    requires k.IsMutex(i)
  {
    var o, l := k.objs[i], k.logs[i];
    if o.blocking && o.queue != [] then
      var w := o.queue[0];
      k.(ready := k.ready + [w], held := Forget(k.held, i) + {(w, i)}, objs := k.objs[i := Mutex(true, o.locked, o.queue[1..])],
         logs := k.logs[i := l.(granted := l.granted + [w])])
    else
      k.(held := Forget(k.held, i), objs := k.objs[i := o.(locked := false)])
  }

  function DownBy(k: Kernel, t: Tid, i: nat): Kernel
    requires k.IsSem(i)
  {
    var o, l := k.objs[i], k.logs[i];
    if o.count - 1 < 0 then
      k.(current := None, pc := k.pc[t := InDown(i)], objs := k.objs[i := Sem(o.count - 1, o.queue + [t])],
         logs := k.logs[i := l.(asked := l.asked + [t])])
    else
      k.(objs := k.objs[i := o.(count := o.count - 1)],
         logs := k.logs[i := l.(asked := l.asked + [t], granted := l.granted + [t])])
  }

  function UpBy(k: Kernel, i: nat): Kernel
    requires k.IsSem(i)
  {
    var o, l := k.objs[i], k.logs[i];
    if o.count + 1 <= 0 && o.queue != [] then
      var w := o.queue[0];
      k.(ready := k.ready + [w], objs := k.objs[i := Sem(o.count + 1, o.queue[1..])],
         logs := k.logs[i := l.(ups := l.ups + 1, granted := l.granted + [w])])
    else
      k.(objs := k.objs[i := o.(count := o.count + 1)], logs := k.logs[i := l.(ups := l.ups + 1)])
  }

  /** `condvar.wait(mutex)` up to the switch: unlock, enqueue, block. */
  function WaitBy(k: Kernel, t: Tid, c: nat, m: nat): Kernel
    requires k.IsMutex(m) && k.IsCond(c)
  {
    var k1 := UnlockBy(k, m);
    var l := k1.logs[c];
    k1.(current := None, pc := k1.pc[t := InWait(c, m)], objs := k1.objs[c := Cond(k1.objs[c].queue + [t])],
        logs := k1.logs[c := l.(asked := l.asked + [t])])
  }

  function SignalBy(k: Kernel, c: nat): Kernel
    requires k.IsCond(c)
  {
    var q, l := k.objs[c].queue, k.logs[c];
    if q == [] then k
    else k.(ready := k.ready + [q[0]], objs := k.objs[c := Cond(q[1..])], logs := k.logs[c := l.(granted := l.granted + [q[0]])])
  }

  function Suspend(k: Kernel, t: Tid): Kernel {
    k.(current := None, ready := k.ready + [t])
  }

  function Tasks(ts: seq<Timer>): (r: seq<Tid>)
    ensures |r| == |ts| && forall i :: 0 <= i < |ts| ==> r[i] == ts[i].task
  {
    if ts == [] then [] else [ts[0].task] + Tasks(ts[1..])
  }

  /** The event is a system call made in user mode, other than giving up the processor. */
  predicate IsSyscall(e: Event) {
    !e.Dispatch? && !e.Resume? && !e.Yield? && !e.Tick?
  }

  /** Unlocking a blocking mutex that is not locked panics. */
  predicate CanUnlock(o: Obj)
    requires o.Mutex?
  {
    o.blocking ==> o.locked
  }

  /** When an event can happen: the task has to be in the right place and the kernel must not panic. */
  ghost predicate Enabled(k: Kernel, e: Event) {
    match e
    case Dispatch => k.current.None? && k.ready != []
    case Resume(t) => k.current == Some(t) && t in k.pc && k.pc[t] != User
    case Yield(t) => k.Runs(t)
    case Lock(t, m) => k.Runs(t) && k.IsMutex(m)
    case Unlock(t, m) => k.Runs(t) && k.IsMutex(m) && CanUnlock(k.objs[m])
    case Down(t, s) => k.Runs(t) && k.IsSem(s)
    case Up(t, s) => k.Runs(t) && k.IsSem(s)
    case Wait(t, c, m) => k.Runs(t) && k.IsCond(c) && k.IsMutex(m) && CanUnlock(k.objs[m])
    case Signal(t, c) => k.Runs(t) && k.IsCond(c)
    case Sleep(t, expire) => k.Runs(t)
    case Tick(t, now, woken, left) => k.Runs(t) && Pops(k.timers, now, woken, left)
  }

  /** The state after an event. A resumed task goes on inside its system call. */
  ghost function Step(k: Kernel, e: Event): Kernel
    requires Enabled(k, e)
  {
    match e
    case Dispatch => k.(current := Some(k.ready[0]), ready := k.ready[1..])
    case Resume(t) =>
      var p := k.pc[t];
      if p.InWait? && k.IsMutex(p.m) then LockBy(k, t, p.m)
      else if p.Spinning? && k.IsMutex(p.m) then LockBy(k, t, p.m)
      else k.(pc := k.pc[t := User])
    case Yield(t) => Suspend(k, t)
    case Lock(t, m) => LockBy(k, t, m)
    case Unlock(t, m) => UnlockBy(k, m)
    case Down(t, s) => DownBy(k, t, s)
    case Up(t, s) => UpBy(k, s)
    case Wait(t, c, m) => WaitBy(k, t, c, m)
    case Signal(t, c) => SignalBy(k, c)
    case Sleep(t, expire) => k.(current := None, pc := k.pc[t := InSleep], timers := k.timers + [Timer(expire, t)])
    case Tick(t, now, woken, left) => Suspend(k.(ready := k.ready + Tasks(woken), timers := left), t)
  }

  /** The state after the events `es`, each of which can happen in turn. */
  ghost predicate Run(k: Kernel, es: seq<Event>, k': Kernel)
    decreases |es|
  {
    if es == [] then k == k' else Enabled(k, es[0]) && Run(Step(k, es[0]), es[1..], k')
  }
}
