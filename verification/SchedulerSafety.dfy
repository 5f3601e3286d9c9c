/**
 What every step of the scheduler keeps, and what follows for every run: each task is in exactly
 one place, a locked mutex belongs to one task, grants follow the order of requests, semaphore counts are
 exact, and no wakeup is lost.
 */
module SchedulerSafety {
  import opened Options
  import opened Timers
  import opened Scheduler

  /** All the tasks blocked on some object. */
  function Queued(objs: seq<Obj>): multiset<Tid> {
    if objs == [] then multiset{} else Queued(objs[..|objs| - 1]) + multiset(objs[|objs| - 1].queue)
  }

  function Running(k: Kernel): multiset<Tid> {
    if k.current.Some? then multiset{k.current.value} else multiset{}
  }

  /** Everyone there is: running, ready, blocked or asleep. */
  function Everyone(k: Kernel): multiset<Tid> {
    Running(k) + multiset(k.ready) + Queued(k.objs) + multiset(Tasks(k.timers))
  }

  ghost predicate PlacedOpened(n: int) { true }

  /** Every task is in exactly one place. */
  ghost predicate Placed(k: Kernel, tasks: set<Tid>) {
    forall n :: PlacedOpened(n) ==> Everyone(k) == multiset(tasks) && k.pc.Keys == tasks
  }

  /** A task queued at object `i`, which is `o`, is inside the call that queued it. */
  predicate WaitsFor(o: Obj, i: nat, p: Pc) {
    match o
    case Mutex(blocking, locked, queue) => blocking && locked && p == InLock(i)
    case Sem(count, queue) => p == InDown(i)
    case Cond(queue) => p.InWait? && p.c == i
  }

  /** The requests at an object: those granted, then those queued; and what its state says about them. */
  ghost predicate LogOk(o: Obj, l: Log, i: nat, held: set<(Tid, nat)>) {
    match o
    case Mutex(blocking, locked, queue) =>
      if blocking then
        && l.asked == l.granted + queue
        && (locked ==> l.granted != [] && (l.granted[|l.granted| - 1], i) in held)
      else
        queue == [] && (locked ==> exists t :: (t, i) in held)
    case Sem(count, queue) =>
      && l.asked == l.granted + queue
      && count == l.initial + l.ups - |l.asked|
      && |queue| == if count < 0 then -count else 0
    case Cond(queue) => l.asked == l.granted + queue
  }

  ghost predicate ObjOpened(k: int) { true }

  /**
   What holds of object `i`: its queue, its history and, for a mutex, its holder.
   */
  ghost predicate ObjOk(o: Obj, l: Log, i: nat, pc: map<Tid, Pc>, held: set<(Tid, nat)>) {
    forall k :: ObjOpened(k) ==>
      && LogOk(o, l, i, held)
      && (forall t :: t in o.queue ==> t in pc && WaitsFor(o, i, pc[t]))
      && (forall t :: (t, i) in held ==> t in pc && o.Mutex? && o.locked)
      && (forall t, u :: (t, i) in held && (u, i) in held ==> t == u)
  }

  /** The call a task is inside of refers to objects of the right kinds. */
  predicate CallOk(objs: seq<Obj>, p: Pc) {
    match p
    case InLock(m) => m < |objs| && objs[m].Mutex?
    case Spinning(m) => m < |objs| && objs[m].Mutex?
    case InWait(c, m) => c < |objs| && objs[c].Cond? && m < |objs| && objs[m].Mutex?
    case InDown(s) => s < |objs| && objs[s].Sem?
    case _ => true
  }

  ghost predicate SoundOpened(k: int) { true }

  ghost predicate Sound(objs: seq<Obj>, timers: seq<Timer>, pc: map<Tid, Pc>, held: set<(Tid, nat)>, logs: seq<Log>) {
    forall k :: SoundOpened(k) ==>
      && |objs| == |logs|
      && (forall i :: 0 <= i < |objs| ==> ObjOk(objs[i], logs[i], i, pc, held))
      && (forall t :: t in pc ==> CallOk(objs, pc[t]))
      && (forall x :: x in timers ==> x.task in pc && pc[x.task] == InSleep)
      && (forall h :: h in held ==> h.1 < |objs|)
  }

  ghost predicate Inv(k: Kernel, tasks: set<Tid>) {
    Placed(k, tasks) && Sound(k.objs, k.timers, k.pc, k.held, k.logs)
  }

  // ---- Counting

  lemma TasksAppend(ts: seq<Timer>, x: Timer)
    ensures Tasks(ts + [x]) == Tasks(ts) + [x.task]
  {
  }

  lemma AddToBoth(a: multiset<Tid>, b: multiset<Tid>, c: multiset<Tid>, d: multiset<Tid>, e: multiset<Tid>)
    requires a + b == c + d
    ensures a + e + b == c + e + d
  {
    assert forall t :: (a + b)[t] == a[t] + b[t] && (c + d)[t] == c[t] + d[t];
  }

  lemma {:induction false} QueuedUpdate(objs: seq<Obj>, i: nat, o: Obj)
    requires i < |objs|
    ensures Queued(objs[i := o]) + multiset(objs[i].queue) == Queued(objs) + multiset(o.queue)
  {
    var n := |objs| - 1;
    if i < n {
      QueuedUpdate(objs[..n], i, o);
      assert objs[i := o][..n] == objs[..n][i := o];
      AddToBoth(Queued(objs[..n][i := o]), multiset(objs[i].queue), Queued(objs[..n]), multiset(o.queue), multiset(objs[n].queue));
    } else {
      assert objs[i := o][..n] == objs[..n];
    }
  }

  lemma {:induction false} InQueued(objs: seq<Obj>, i: nat, t: Tid)
    requires i < |objs| && t in objs[i].queue
    ensures t in Queued(objs)
  {
    if i < |objs| - 1 {
      InQueued(objs[..|objs| - 1], i, t);
    }
  }

  lemma {:induction false} QueuedIn(objs: seq<Obj>, t: Tid) returns (i: nat)
    requires t in Queued(objs)
    ensures i < |objs| && t in objs[i].queue
  {
    if t in objs[|objs| - 1].queue {
      i := |objs| - 1;
    } else {
      i := QueuedIn(objs[..|objs| - 1], t);
    }
  }

  lemma {:induction false} QueueWithin(objs: seq<Obj>, i: nat, t: Tid)
    requires i < |objs|
    ensures multiset(objs[i].queue)[t] <= Queued(objs)[t]
  {
    if i < |objs| - 1 {
      QueueWithin(objs[..|objs| - 1], i, t);
    }
  }

  lemma Twice(q: seq<Tid>, i: nat, j: nat)
    requires i < j < |q| && q[i] == q[j]
    ensures multiset(q)[q[i]] >= 2
  {
    assert q == q[..j] + q[j..];
    assert multiset(q) == multiset(q[..j]) + multiset(q[j..]);
    assert q[i] in q[..j] && q[i] in q[j..];
  }

  /** The queue of an object holds nobody twice. */
  lemma QueuedOnce(k: Kernel, tasks: set<Tid>, x: nat)
    requires Placed(k, tasks) && x < |k.objs|
    ensures var q := k.objs[x].queue; forall i, j :: 0 <= i < j < |q| ==> q[i] != q[j]
  {
    var q := k.objs[x].queue;
    assert PlacedOpened(0);
    forall i, j | 0 <= i < j < |q| ensures q[i] != q[j] {
      QueueWithin(k.objs, x, q[i]);
      assert Everyone(k)[q[i]] <= 1;
      if q[i] == q[j] { Twice(q, i, j); }
    }
  }

  lemma PopFront(q: seq<Tid>)
    requires q != []
    ensures multiset(q) == multiset{q[0]} + multiset(q[1..])
  {
    assert q == [q[0]] + q[1..];
  }

  /** The current task is nowhere else. */
  lemma OnlyRunning(k: Kernel, tasks: set<Tid>, t: Tid)
    requires Placed(k, tasks) && k.current == Some(t)
    ensures t in k.pc && t !in k.ready && t !in Queued(k.objs) && t !in Tasks(k.timers)
    ensures forall i :: 0 <= i < |k.objs| ==> t !in k.objs[i].queue
    ensures forall x :: x in k.timers ==> x.task != t
  {
    assert PlacedOpened(0);
    assert Everyone(k)[t] == multiset(tasks)[t] <= 1;
    assert t in Everyone(k);
    assert t in multiset(tasks);
    assert multiset(k.ready)[t] == 0;
    forall i | 0 <= i < |k.objs| ensures t !in k.objs[i].queue {
      if t in k.objs[i].queue { InQueued(k.objs, i, t); }
    }
    forall x | x in k.timers ensures x.task != t {
      var j :| 0 <= j < |k.timers| && k.timers[j] == x;
      assert Tasks(k.timers)[j] == x.task;
    }
  }

  lemma Enqueue(objs: seq<Obj>, i: nat, o: Obj, t: Tid)
    requires i < |objs| && o.queue == objs[i].queue + [t]
    ensures Queued(objs[i := o]) == Queued(objs) + multiset{t}
  {
    QueuedUpdate(objs, i, o);
    var a, b, q := Queued(objs[i := o]), Queued(objs), multiset(objs[i].queue);
    assert a + q == b + (q + multiset{t});
    forall u ensures a[u] == (b + multiset{t})[u] {
      assert (a + q)[u] == a[u] + q[u];
    }
  }

  lemma Dequeue(objs: seq<Obj>, i: nat, o: Obj)
    requires i < |objs| && objs[i].queue != [] && o.queue == objs[i].queue[1..]
    ensures Queued(objs) == Queued(objs[i := o]) + multiset{objs[i].queue[0]}
  {
    QueuedUpdate(objs, i, o);
    PopFront(objs[i].queue);
    var a, b, q, t := Queued(objs[i := o]), Queued(objs), multiset(o.queue), objs[i].queue[0];
    assert a + (multiset{t} + q) == b + q;
    forall u ensures b[u] == (a + multiset{t})[u] {
      assert (b + q)[u] == b[u] + q[u];
    }
  }

  lemma Requeue(objs: seq<Obj>, i: nat, o: Obj)
    requires i < |objs| && o.queue == objs[i].queue
    ensures Queued(objs) == Queued(objs[i := o])
  {
    QueuedUpdate(objs, i, o);
    var a, b, q := Queued(objs[i := o]), Queued(objs), multiset(o.queue);
    forall u ensures b[u] == a[u] {
      assert (b + q)[u] == b[u] + q[u];
    }
  }

  // ---- Moves from one place to another

  /** The current task joins the queue of object `i`. */
  lemma PlacedBlock(k: Kernel, tasks: set<Tid>, t: Tid, i: nat, k': Kernel)
    requires Placed(k, tasks) && k.current == Some(t) && i < |k.objs| == |k'.objs|
    requires k'.current.None? && k'.ready == k.ready && k'.timers == k.timers && k'.pc.Keys == k.pc.Keys
    requires k'.objs == k.objs[i := k'.objs[i]] && k'.objs[i].queue == k.objs[i].queue + [t]
    ensures Placed(k', tasks)
  {
    assert PlacedOpened(0);
    Enqueue(k.objs, i, k'.objs[i], t);
    assert Everyone(k') == Everyone(k);
  }

  /** The first task in the queue of object `i` becomes ready. */
  lemma PlacedWake(k: Kernel, tasks: set<Tid>, i: nat, k': Kernel)
    requires Placed(k, tasks) && i < |k.objs| == |k'.objs| && k.objs[i].queue != []
    requires k'.current == k.current && k'.ready == k.ready + [k.objs[i].queue[0]] && k'.timers == k.timers && k'.pc.Keys == k.pc.Keys
    requires k'.objs == k.objs[i := k'.objs[i]] && k'.objs[i].queue == k.objs[i].queue[1..]
    ensures Placed(k', tasks)
  {
    assert PlacedOpened(0);
    Dequeue(k.objs, i, k'.objs[i]);
    assert Everyone(k') == Everyone(k);
  }

  /** Object `i` keeps its queue. */
  lemma PlacedRequeue(k: Kernel, tasks: set<Tid>, i: nat, k': Kernel)
    requires Placed(k, tasks) && i < |k.objs| == |k'.objs|
    requires k'.current == k.current && k'.ready == k.ready && k'.timers == k.timers && k'.pc.Keys == k.pc.Keys
    requires k'.objs == k.objs[i := k'.objs[i]] && k'.objs[i].queue == k.objs[i].queue
    ensures Placed(k', tasks)
  {
    assert PlacedOpened(0);
    Requeue(k.objs, i, k'.objs[i]);
  }

  /** Tasks move between the processor and the ready queue. */
  lemma PlacedSwitch(k: Kernel, tasks: set<Tid>, k': Kernel)
    requires Placed(k, tasks)
    requires k'.objs == k.objs && k'.timers == k.timers && k'.pc.Keys == k.pc.Keys
    requires Running(k') + multiset(k'.ready) == Running(k) + multiset(k.ready)
    ensures Placed(k', tasks)
  {
    assert PlacedOpened(0);
  }

  lemma MoveSleeper(r: multiset<Tid>, q: multiset<Tid>, s: multiset<Tid>, t: Tid)
    ensures multiset{} + r + q + (s + multiset{t}) == multiset{t} + r + q + s
  {
  }

  /** The current task falls asleep. */
  lemma PlacedSleep(k: Kernel, tasks: set<Tid>, x: Timer, k': Kernel)
    requires Placed(k, tasks) && k.current == Some(x.task)
    requires k'.current.None? && k'.ready == k.ready && k'.objs == k.objs && k'.pc.Keys == k.pc.Keys
    requires k'.timers == k.timers + [x]
    ensures Placed(k', tasks)
  {
    assert PlacedOpened(0);
    assert Tasks(k'.timers) == Tasks(k.timers) + [x.task];
    MoveSleeper(multiset(k.ready), Queued(k.objs), multiset(Tasks(k.timers)), x.task);
  }

  lemma {:induction false} TasksWithout(ts: seq<Timer>, x: Timer)
    requires x in ts
    ensures multiset(Tasks(ts)) == multiset{x.task} + multiset(Tasks(Without(ts, x)))
  {
    assert Tasks(ts) == [ts[0].task] + Tasks(ts[1..]);
    if ts[0] != x {
      TasksWithout(ts[1..], x);
      assert Tasks(Without(ts, x)) == [ts[0].task] + Tasks(Without(ts[1..], x));
    }
  }

  lemma {:induction false} PopsTasks(ts: seq<Timer>, now: Time, woken: seq<Timer>, left: seq<Timer>)
    requires Pops(ts, now, woken, left)
    ensures multiset(Tasks(ts)) == multiset(Tasks(woken)) + multiset(Tasks(left))
    decreases |woken|
  {
    if woken != [] {
      TasksWithout(ts, woken[0]);
      PopsTasks(Without(ts, woken[0]), now, woken[1..], left);
      assert Tasks(woken) == [woken[0].task] + Tasks(woken[1..]);
    }
  }

  lemma MoveWoken(c: multiset<Tid>, r: multiset<Tid>, q: multiset<Tid>, woken: multiset<Tid>, left: multiset<Tid>)
    ensures c + (r + woken) + q + left == c + r + q + (woken + left)
  {
  }

  /** The sleepers taken off the heap become ready. */
  lemma PlacedTick(k: Kernel, tasks: set<Tid>, now: Time, woken: seq<Timer>, k': Kernel)
    requires Placed(k, tasks) && Pops(k.timers, now, woken, k'.timers)
    requires k'.current == k.current && k'.ready == k.ready + Tasks(woken) && k'.objs == k.objs && k'.pc.Keys == k.pc.Keys
    ensures Placed(k', tasks)
  {
    assert PlacedOpened(0);
    PopsTasks(k.timers, now, woken, k'.timers);
    MoveWoken(Running(k), multiset(k.ready), Queued(k.objs), multiset(Tasks(woken)), multiset(Tasks(k'.timers)));
  }

  // ---- A change at one object leaves the others sound

  predicate SameKind(a: Obj, b: Obj) {
    (a.Mutex? <==> b.Mutex?) && (a.Sem? <==> b.Sem?)
  }

  /** Task `t`, which is in no queue, may change its call without disturbing object `i`. */
  lemma ObjOkPc(o: Obj, l: Log, i: nat, pc: map<Tid, Pc>, held: set<(Tid, nat)>, t: Tid, p: Pc, held': set<(Tid, nat)>)
    requires ObjOk(o, l, i, pc, held) && t in pc && t !in o.queue
    requires forall u :: (u, i) in held <==> (u, i) in held'
    ensures ObjOk(o, l, i, pc[t := p], held')
  {
  }

  /** The current task `t` acts on object `i` only: it becomes `o`, and `t` is then inside the call `p`. */
  lemma SoundUpdate(k: Kernel, i: nat, o: Obj, l: Log, t: Tid, p: Pc, held: set<(Tid, nat)>)
    requires Sound(k.objs, k.timers, k.pc, k.held, k.logs)
    requires i < |k.objs| == |k.logs| && SameKind(k.objs[i], o)
    requires t in k.pc && forall j :: 0 <= j < |k.objs| ==> t !in k.objs[j].queue
    requires forall x :: x in k.timers ==> x.task != t
    requires CallOk(k.objs, p)
    requires forall h: (Tid, nat) :: h.1 != i ==> (h in k.held <==> h in held)
    requires ObjOk(o, l, i, k.pc[t := p], held)
    ensures Sound(k.objs[i := o], k.timers, k.pc[t := p], held, k.logs[i := l])
  {
    assert SoundOpened(0);
    var objs, logs := k.objs[i := o], k.logs[i := l];
    forall j | 0 <= j < |objs| ensures ObjOk(objs[j], logs[j], j, k.pc[t := p], held) {
      if j != i {
        ObjOkPc(objs[j], logs[j], j, k.pc, k.held, t, p, held);
      }
    }
  }

  /** The current task `t` changes its call, and perhaps becomes a sleeper. */
  lemma SoundReturn(k: Kernel, t: Tid, p: Pc, timers: seq<Timer>)
    requires Sound(k.objs, k.timers, k.pc, k.held, k.logs)
    requires t in k.pc && forall j :: 0 <= j < |k.objs| ==> t !in k.objs[j].queue
    requires forall x :: x in k.timers ==> x.task != t
    requires CallOk(k.objs, p)
    requires forall x :: x in timers ==> x in k.timers || (x.task == t && p == InSleep)
    ensures Sound(k.objs, timers, k.pc[t := p], k.held, k.logs)
  {
    assert SoundOpened(0);
    forall j | 0 <= j < |k.objs| ensures ObjOk(k.objs[j], k.logs[j], j, k.pc[t := p], k.held) {
      ObjOkPc(k.objs[j], k.logs[j], j, k.pc, k.held, t, p, k.held);
    }
  }

  lemma SoundAt(k: Kernel, i: nat)
    requires Sound(k.objs, k.timers, k.pc, k.held, k.logs) && i < |k.objs|
    ensures |k.logs| == |k.objs| && ObjOk(k.objs[i], k.logs[i], i, k.pc, k.held)
  {
    assert SoundOpened(0);
  }

  // ---- What a call does to its object

  lemma QueueAtMutex(o: Obj, l: Log, i: nat, pc: map<Tid, Pc>, held: set<(Tid, nat)>, t: Tid)
    requires ObjOk(o, l, i, pc, held) && o.Mutex? && o.blocking && o.locked && t in pc && t !in o.queue
    ensures ObjOk(Mutex(true, true, o.queue + [t]), l.(asked := l.asked + [t]), i, pc[t := InLock(i)], held)
  {
    assert ObjOpened(0);
  }

  lemma FirstIn(q: seq<Tid>)
    ensures q != [] ==> q[0] in q
  {
  }

  lemma TakeMutex(o: Obj, l: Log, i: nat, pc: map<Tid, Pc>, held: set<(Tid, nat)>, t: Tid)
    requires ObjOk(o, l, i, pc, held) && o.Mutex? && !o.locked && t in pc
    ensures ObjOk(o.(locked := true), if o.blocking then l.(asked := l.asked + [t], granted := l.granted + [t]) else l,
                  i, pc[t := User], held + {(t, i)})
  {
    FirstIn(o.queue);
    assert ObjOpened(0);
  }

  lemma PassMutex(o: Obj, l: Log, i: nat, pc: map<Tid, Pc>, held: set<(Tid, nat)>)
    requires ObjOk(o, l, i, pc, held) && o.Mutex? && o.blocking && o.queue != []
    ensures ObjOk(Mutex(true, o.locked, o.queue[1..]), l.(granted := l.granted + [o.queue[0]]), i, pc, Forget(held, i) + {(o.queue[0], i)})
  {
    FirstIn(o.queue);
    assert ObjOpened(0);
    assert o.queue == [o.queue[0]] + o.queue[1..];
    assert l.granted + o.queue == l.granted + [o.queue[0]] + o.queue[1..];
  }

  lemma ReleaseMutex(o: Obj, l: Log, i: nat, pc: map<Tid, Pc>, held: set<(Tid, nat)>)
    requires ObjOk(o, l, i, pc, held) && o.Mutex? && !(o.blocking && o.queue != [])
    ensures ObjOk(o.(locked := false), l, i, pc, Forget(held, i))
  {
    assert ObjOpened(0);
  }

  lemma QueueAtSem(o: Obj, l: Log, i: nat, pc: map<Tid, Pc>, held: set<(Tid, nat)>, t: Tid)
    requires ObjOk(o, l, i, pc, held) && o.Sem? && t in pc && t !in o.queue && o.count <= 0
    ensures ObjOk(Sem(o.count - 1, o.queue + [t]), l.(asked := l.asked + [t]), i, pc[t := InDown(i)], held)
  {
    assert ObjOpened(0);
  }

  lemma TakeSem(o: Obj, l: Log, i: nat, pc: map<Tid, Pc>, held: set<(Tid, nat)>, t: Tid)
    requires ObjOk(o, l, i, pc, held) && o.Sem? && o.count > 0
    ensures ObjOk(o.(count := o.count - 1), l.(asked := l.asked + [t], granted := l.granted + [t]), i, pc, held)
  {
    assert ObjOpened(0);
  }

  lemma ReleaseSem(o: Obj, l: Log, i: nat, pc: map<Tid, Pc>, held: set<(Tid, nat)>)
    requires ObjOk(o, l, i, pc, held) && o.Sem?
    ensures o.count + 1 <= 0 <==> o.queue != []
    ensures o.queue != [] ==>
      ObjOk(Sem(o.count + 1, o.queue[1..]), l.(ups := l.ups + 1, granted := l.granted + [o.queue[0]]), i, pc, held)
    ensures o.queue == [] ==> ObjOk(o.(count := o.count + 1), l.(ups := l.ups + 1), i, pc, held)
  {
    assert ObjOpened(0);
    if o.queue != [] {
      assert o.queue == [o.queue[0]] + o.queue[1..];
      assert l.granted + o.queue == l.granted + [o.queue[0]] + o.queue[1..];
    }
  }

  lemma QueueAtCond(o: Obj, l: Log, i: nat, pc: map<Tid, Pc>, held: set<(Tid, nat)>, t: Tid, m: nat)
    requires ObjOk(o, l, i, pc, held) && o.Cond? && t in pc && t !in o.queue
    ensures ObjOk(Cond(o.queue + [t]), l.(asked := l.asked + [t]), i, pc[t := InWait(i, m)], held)
  {
    assert ObjOpened(0);
  }

  lemma SignalCond(o: Obj, l: Log, i: nat, pc: map<Tid, Pc>, held: set<(Tid, nat)>)
    requires ObjOk(o, l, i, pc, held) && o.Cond? && o.queue != []
    ensures ObjOk(Cond(o.queue[1..]), l.(granted := l.granted + [o.queue[0]]), i, pc, held)
  {
    assert ObjOpened(0);
    assert o.queue == [o.queue[0]] + o.queue[1..];
    assert l.granted + o.queue == l.granted + [o.queue[0]] + o.queue[1..];
  }

  // ---- Each step keeps the invariant

  lemma LockKeeps(k: Kernel, tasks: set<Tid>, t: Tid, i: nat)
    requires Inv(k, tasks) && k.IsMutex(i) && k.current == Some(t)
    ensures Inv(LockBy(k, t, i), tasks)
  {
    OnlyRunning(k, tasks, t);
    SoundAt(k, i);
    var o, l, k' := k.objs[i], k.logs[i], LockBy(k, t, i);
    if o.locked && o.blocking {
      QueueAtMutex(o, l, i, k.pc, k.held, t);
      PlacedBlock(k, tasks, t, i, k');
      SoundUpdate(k, i, k'.objs[i], k'.logs[i], t, InLock(i), k.held);
    } else if o.locked {
      PlacedSwitch(k, tasks, k');
      SoundReturn(k, t, Spinning(i), k.timers);
    } else {
      TakeMutex(o, l, i, k.pc, k.held, t);
      PlacedRequeue(k, tasks, i, k');
      SoundUpdate(k, i, k'.objs[i], k'.logs[i], t, User, k'.held);
    }
  }

  lemma UnlockKeeps(k: Kernel, tasks: set<Tid>, t: Tid, i: nat)
    requires Inv(k, tasks) && k.IsMutex(i) && k.Runs(t)
    ensures Inv(UnlockBy(k, i), tasks)
  {
    OnlyRunning(k, tasks, t);
    SoundAt(k, i);
    var o, l, k' := k.objs[i], k.logs[i], UnlockBy(k, i);
    assert k.pc[t := User] == k.pc;
    if o.blocking && o.queue != [] {
      PassMutex(o, l, i, k.pc, k.held);
      PlacedWake(k, tasks, i, k');
      SoundUpdate(k, i, k'.objs[i], k'.logs[i], t, User, k'.held);
    } else {
      ReleaseMutex(o, l, i, k.pc, k.held);
      PlacedRequeue(k, tasks, i, k');
      assert k.logs[i := l] == k.logs;
      SoundUpdate(k, i, k'.objs[i], l, t, User, k'.held);
    }
  }

  lemma DownKeeps(k: Kernel, tasks: set<Tid>, t: Tid, i: nat)
    requires Inv(k, tasks) && k.IsSem(i) && k.Runs(t)
    ensures Inv(DownBy(k, t, i), tasks)
  {
    OnlyRunning(k, tasks, t);
    SoundAt(k, i);
    var o, l, k' := k.objs[i], k.logs[i], DownBy(k, t, i);
    if o.count - 1 < 0 {
      QueueAtSem(o, l, i, k.pc, k.held, t);
      PlacedBlock(k, tasks, t, i, k');
      SoundUpdate(k, i, k'.objs[i], k'.logs[i], t, InDown(i), k.held);
    } else {
      assert k.pc[t := User] == k.pc;
      TakeSem(o, l, i, k.pc, k.held, t);
      PlacedRequeue(k, tasks, i, k');
      SoundUpdate(k, i, k'.objs[i], k'.logs[i], t, User, k.held);
    }
  }

  lemma UpKeeps(k: Kernel, tasks: set<Tid>, t: Tid, i: nat)
    requires Inv(k, tasks) && k.IsSem(i) && k.Runs(t)
    ensures Inv(UpBy(k, i), tasks)
  {
    OnlyRunning(k, tasks, t);
    SoundAt(k, i);
    var o, l, k' := k.objs[i], k.logs[i], UpBy(k, i);
    ReleaseSem(o, l, i, k.pc, k.held);
    assert k.pc[t := User] == k.pc;
    if o.queue != [] {
      PlacedWake(k, tasks, i, k');
    } else {
      PlacedRequeue(k, tasks, i, k');
    }
    SoundUpdate(k, i, k'.objs[i], k'.logs[i], t, User, k.held);
  }

  lemma SignalKeeps(k: Kernel, tasks: set<Tid>, t: Tid, i: nat)
    requires Inv(k, tasks) && k.IsCond(i) && k.Runs(t)
    ensures Inv(SignalBy(k, i), tasks)
  {
    OnlyRunning(k, tasks, t);
    SoundAt(k, i);
    var o, l, k' := k.objs[i], k.logs[i], SignalBy(k, i);
    if o.queue != [] {
      assert k.pc[t := User] == k.pc;
      SignalCond(o, l, i, k.pc, k.held);
      PlacedWake(k, tasks, i, k');
      SoundUpdate(k, i, k'.objs[i], k'.logs[i], t, User, k.held);
    }
  }

  lemma WaitKeeps(k: Kernel, tasks: set<Tid>, t: Tid, c: nat, m: nat)
    requires Inv(k, tasks) && k.IsMutex(m) && k.IsCond(c) && k.Runs(t)
    ensures Inv(WaitBy(k, t, c, m), tasks)
  {
    UnlockKeeps(k, tasks, t, m);
    var k1, k' := UnlockBy(k, m), WaitBy(k, t, c, m);
    OnlyRunning(k1, tasks, t);
    SoundAt(k1, c);
    QueueAtCond(k1.objs[c], k1.logs[c], c, k1.pc, k1.held, t, m);
    PlacedBlock(k1, tasks, t, c, k');
    SoundUpdate(k1, c, k'.objs[c], k'.logs[c], t, InWait(c, m), k1.held);
  }

  lemma SleepKeeps(k: Kernel, tasks: set<Tid>, t: Tid, x: Timer)
    requires Inv(k, tasks) && k.current == Some(t) && x.task == t
    ensures Inv(k.(current := None, pc := k.pc[t := InSleep], timers := k.timers + [x]), tasks)
  {
    OnlyRunning(k, tasks, t);
    PlacedSleep(k, tasks, x, k.(current := None, pc := k.pc[t := InSleep], timers := k.timers + [x]));
    SoundReturn(k, t, InSleep, k.timers + [x]);
  }

  lemma TickKeeps(k: Kernel, tasks: set<Tid>, now: Time, woken: seq<Timer>, left: seq<Timer>)
    requires Inv(k, tasks) && Pops(k.timers, now, woken, left)
    ensures Inv(k.(ready := k.ready + Tasks(woken), timers := left), tasks)
  {
    PlacedTick(k, tasks, now, woken, k.(ready := k.ready + Tasks(woken), timers := left));
    PopsPartition(k.timers, now, woken, left);
    forall x | x in left ensures x in k.timers { InEither(k.timers, woken, left, x); }
    assert Sound(k.objs, left, k.pc, k.held, k.logs) by { assert SoundOpened(0); }
  }

  lemma ResumeKeeps(k: Kernel, tasks: set<Tid>, t: Tid)
    requires Inv(k, tasks) && Enabled(k, Resume(t))
    ensures Inv(Step(k, Resume(t)), tasks)
  {
    var p := k.pc[t];
    if (p.InWait? || p.Spinning?) && k.IsMutex(p.m) {
      LockKeeps(k, tasks, t, p.m);
    } else {
      OnlyRunning(k, tasks, t);
      PlacedSwitch(k, tasks, Step(k, Resume(t)));
      SoundReturn(k, t, User, k.timers);
    }
  }

  /** Every step keeps the invariant. */
  lemma StepKeeps(k: Kernel, tasks: set<Tid>, e: Event)
    requires Inv(k, tasks) && Enabled(k, e)
    ensures Inv(Step(k, e), tasks)
  {
    match e
    case Dispatch =>
      PopFront(k.ready);
      PlacedSwitch(k, tasks, Step(k, e));
    case Resume(t) => ResumeKeeps(k, tasks, t);
    case Yield(t) => PlacedSwitch(k, tasks, Step(k, e));
    case Lock(t, m) => LockKeeps(k, tasks, t, m);
    case Unlock(t, m) => UnlockKeeps(k, tasks, t, m);
    case Down(t, s) => DownKeeps(k, tasks, t, s);
    case Up(t, s) => UpKeeps(k, tasks, t, s);
    case Wait(t, c, m) => WaitKeeps(k, tasks, t, c, m);
    case Signal(t, c) => SignalKeeps(k, tasks, t, c);
    case Sleep(t, expire) => SleepKeeps(k, tasks, t, Timer(expire, t));
    case Tick(t, now, woken, left) =>
      TickKeeps(k, tasks, now, woken, left);
      PlacedSwitch(k.(ready := k.ready + Tasks(woken), timers := left), tasks, Step(k, e));
  }

  // ---- Over every run

  /** All tasks ready, no object in use. */
  ghost predicate Init(k: Kernel, tasks: set<Tid>) {
    && k.current.None? && multiset(k.ready) == multiset(tasks) && k.timers == [] && k.held == {}
    && k.pc.Keys == tasks && (forall t :: t in k.pc ==> k.pc[t] == User)
    && |k.logs| == |k.objs|
    && forall i :: 0 <= i < |k.objs| ==> Fresh(k.objs[i], k.logs[i])
  }

  /** An object as its constructor makes it. */
  ghost predicate Fresh(o: Obj, l: Log) {
    && l == Log(l.initial, 0, [], [])
    && o.queue == [] && (o.Mutex? ==> !o.locked) && (o.Sem? ==> o.count == l.initial >= 0)
  }

  lemma {:induction false} NoneQueued(objs: seq<Obj>)
    requires forall i :: 0 <= i < |objs| ==> objs[i].queue == []
    ensures Queued(objs) == multiset{}
  {
    if objs != [] {
      NoneQueued(objs[..|objs| - 1]);
    }
  }

  lemma InitInv(k: Kernel, tasks: set<Tid>)
    requires Init(k, tasks)
    ensures Inv(k, tasks)
  {
    NoneQueued(k.objs);
    assert Placed(k, tasks);
    forall i | 0 <= i < |k.objs| ensures ObjOk(k.objs[i], k.logs[i], i, k.pc, k.held) {
      assert Fresh(k.objs[i], k.logs[i]);
    }
  }

  lemma {:induction false} RunKeeps(k: Kernel, tasks: set<Tid>, es: seq<Event>, k': Kernel)
    requires Inv(k, tasks) && Run(k, es, k')
    ensures Inv(k', tasks)
    decreases |es|
  {
    if es != [] {
      StepKeeps(k, tasks, es[0]);
      RunKeeps(Step(k, es[0]), tasks, es[1..], k');
    }
  }

  lemma {:induction false} RunAppend(k: Kernel, es: seq<Event>, k1: Kernel, fs: seq<Event>, k2: Kernel)
    requires Run(k, es, k1) && Run(k1, fs, k2)
    ensures Run(k, es + fs, k2)
    decreases |es|
  {
    if es == [] {
      assert es + fs == fs;
    } else {
      RunAppend(Step(k, es[0]), es[1..], k1, fs, k2);
      assert (es + fs)[1..] == es[1..] + fs;
    }
  }

  lemma RunStep(k: Kernel, es: seq<Event>, k1: Kernel, e: Event) returns (fs: seq<Event>, k2: Kernel)
    requires Run(k, es, k1) && Enabled(k1, e)
    ensures fs == es + [e] && k2 == Step(k1, e) && Run(k, fs, k2)
  {
    fs, k2 := es + [e], Step(k1, e);
    assert [e][1..] == [] && Run(k2, [], k2);
    RunAppend(k, es, k1, [e], k2);
  }

  /** Whatever happened, the invariant holds. */
  lemma EveryRun(k: Kernel, tasks: set<Tid>, es: seq<Event>, k': Kernel)
    requires Init(k, tasks) && Run(k, es, k')
    ensures Inv(k', tasks)
  {
    InitInv(k, tasks);
    RunKeeps(k, tasks, es, k');
  }

  // ---- What it means

  /** The number of places a task is in. */
  function Places(k: Kernel, t: Tid): nat {
    (if k.current == Some(t) then 1 else 0) + multiset(k.ready)[t] + Queued(k.objs)[t] + multiset(Tasks(k.timers))[t]
  }

  /** No task is ever in two queues, twice in one, or nowhere. */
  lemma ExactlyOnePlace(k: Kernel, tasks: set<Tid>, t: Tid)
    requires Inv(k, tasks)
    ensures Places(k, t) == if t in tasks then 1 else 0
  {
    assert PlacedOpened(0);
    assert Everyone(k)[t] == Places(k, t);
  }

  /**
   The kernel counts one task as the holder of a locked mutex and none for a free one, and tasks
   wait only for a locked one. Who is between `lock` and `unlock` is another matter, see `MutexInside`.
   */
  lemma MutualExclusion(k: Kernel, tasks: set<Tid>, i: nat)
    requires Inv(k, tasks) && k.IsMutex(i)
    ensures k.objs[i].locked <==> exists t :: (t, i) in k.held
    ensures forall t, u :: (t, i) in k.held && (u, i) in k.held ==> t == u
    ensures k.objs[i].queue != [] ==> k.objs[i].locked
  {
    SoundAt(k, i);
    FirstIn(k.objs[i].queue);
    assert ObjOpened(0);
  }

  /** A blocking mutex and a semaphore are granted, and waiters of a condition woken, in the order they came. */
  lemma FirstComeFirstServed(k: Kernel, tasks: set<Tid>, i: nat)
    requires Inv(k, tasks) && i < |k.objs| == |k.logs|
    requires k.objs[i].Mutex? ==> k.objs[i].blocking
    ensures k.logs[i].granted <= k.logs[i].asked
    ensures k.logs[i].asked[|k.logs[i].granted|..] == k.objs[i].queue
  {
    SoundAt(k, i);
    assert ObjOpened(0);
  }

  /** A semaphore has let through as many `down`s as there were permits, or all of them. */
  lemma PermitsConserved(k: Kernel, tasks: set<Tid>, i: nat)
    requires Inv(k, tasks) && k.IsSem(i)
    ensures var l := k.logs[i]; var permits := l.initial + l.ups;
            |l.granted| == if permits < |l.asked| then permits else |l.asked|
    ensures k.objs[i].count == k.logs[i].initial + k.logs[i].ups - |k.logs[i].asked|
    ensures |k.objs[i].queue| == if k.objs[i].count < 0 then -k.objs[i].count else 0
  {
    SoundAt(k, i);
    assert ObjOpened(0);
  }

  /** A task inside `wait` is in the queue it waits in, or has been woken and will run. */
  lemma NoLostWakeup(k: Kernel, tasks: set<Tid>, t: Tid)
    requires Inv(k, tasks) && t in tasks && t in k.pc && k.pc[t].InWait?
    ensures var c := k.pc[t].c; k.IsCond(c) && (t in k.objs[c].queue || t in k.ready || k.current == Some(t))
  {
    assert PlacedOpened(0);
    assert SoundOpened(0);
    assert CallOk(k.objs, k.pc[t]);
    assert t in Everyone(k);
    if t in Queued(k.objs) {
      var i := QueuedIn(k.objs, t);
      assert ObjOk(k.objs[i], k.logs[i], i, k.pc, k.held);
      assert ObjOpened(0);
    } else {
      NotAsleep(k, t);
      assert t in multiset(k.ready) || t in Running(k);
    }
  }

  lemma NotAsleep(k: Kernel, t: Tid)
    requires Sound(k.objs, k.timers, k.pc, k.held, k.logs) && t in k.pc && k.pc[t] != InSleep
    ensures t !in Tasks(k.timers)
  {
    assert SoundOpened(0);
    forall j | 0 <= j < |k.timers| ensures Tasks(k.timers)[j] != t {
      assert k.timers[j] in k.timers;
    }
  }

  // ---- The ready queue

  /** Whatever happens, the ready queue only grows at its end, except for a dispatch, which takes its first task. */
  lemma ReadyQueueStep(k: Kernel, e: Event)
    requires Enabled(k, e)
    ensures e.Dispatch? ==> k.ready == [Step(k, e).current.value] + Step(k, e).ready
    ensures !e.Dispatch? ==> k.ready <= Step(k, e).ready
  {
  }

  /** The tasks a run dispatches, in order. */
  ghost function Dispatched(k: Kernel, es: seq<Event>, k': Kernel): seq<Tid>
    requires Run(k, es, k')
    decreases |es|
  {
    if es == [] then []
    else (if es[0].Dispatch? then [k.ready[0]] else []) + Dispatched(Step(k, es[0]), es[1..], k')
  }

  /** The tasks a run makes ready, in order. */
  ghost function MadeReady(k: Kernel, es: seq<Event>, k': Kernel): seq<Tid>
    requires Run(k, es, k')
    decreases |es|
  {
    if es == [] then []
    else
      var k1 := Step(k, es[0]);
      ReadyQueueStep(k, es[0]);
      (if es[0].Dispatch? then [] else k1.ready[|k.ready|..]) + MadeReady(k1, es[1..], k')
  }

  /** Over every run tasks get the processor in the order they became ready, each time they did. */
  lemma {:induction false} ReadyFirstInFirstOut(k: Kernel, es: seq<Event>, k': Kernel)
    requires Run(k, es, k')
    ensures k.ready + MadeReady(k, es, k') == Dispatched(k, es, k') + k'.ready
    decreases |es|
  {
    if es != [] {
      var k1 := Step(k, es[0]);
      ReadyQueueStep(k, es[0]);
      ReadyFirstInFirstOut(k1, es[1..], k');
      var more, out := MadeReady(k1, es[1..], k'), Dispatched(k1, es[1..], k');
      if es[0].Dispatch? {
        TakeFirst(k.ready, k1.ready, more, out, k'.ready);
      } else {
        AddLast(k.ready, k1.ready, more, out, k'.ready);
      }
    }
  }

  lemma TakeFirst(ready: seq<Tid>, rest: seq<Tid>, more: seq<Tid>, out: seq<Tid>, left: seq<Tid>)
    requires ready != [] && ready == [ready[0]] + rest && rest + more == out + left
    ensures ready + ([] + more) == [ready[0]] + out + left
  {
    assert ready + ([] + more) == [ready[0]] + (rest + more);
    assert [ready[0]] + out + left == [ready[0]] + (out + left);
  }

  lemma AddLast(ready: seq<Tid>, longer: seq<Tid>, more: seq<Tid>, out: seq<Tid>, left: seq<Tid>)
    requires ready <= longer && longer + more == out + left
    ensures ready + (longer[|ready|..] + more) == [] + out + left
  {
    assert ready + (longer[|ready|..] + more) == longer + more;
    assert [] + out == out;
  }
}
