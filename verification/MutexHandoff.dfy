/**
 When `lock` and `wait` come back with the mutex. `unlock` does not ask who calls it, so this
 depends on the callers: it holds in every run where tasks unlock only what they are inside of,
 and fails as soon as somebody else unlocks under a task that was handed the mutex and has not
 run yet.
 */
module MutexHandoff {
  import opened Options
  import opened Scheduler
  import opened SchedulerSafety
  import opened MutexInside

  /** A queued lock call is still queued or has been given the mutex. */
  ghost predicate Granted(k: Kernel) {
    forall t :: t in k.pc && k.pc[t].InLock? && k.IsMutex(k.pc[t].m) ==> Secured(k, t, k.pc[t].m)
  }

  predicate Secured(k: Kernel, t: Tid, m: nat)
    requires k.IsMutex(m)
  {
    (t, m) in k.held || t in k.objs[m].queue
  }

  /** The event unlocks a mutex under a task that was given it and has not yet returned from `lock`. */
  ghost predicate Robs(k: Kernel, e: Event) {
    && (e.Unlock? || e.Wait?) && k.IsMutex(e.m)
    && exists u :: u in k.pc && k.pc[u] == InLock(e.m) && (u, e.m) in k.held && u !in k.objs[e.m].queue
  }

  /** Only a task that holds a mutex unlocks it or waits with it. */
  ghost predicate Disciplined(k: Kernel, e: Event) {
    e.Unlock? || e.Wait? ==> (e.t, e.m) in k.held
  }

  lemma DisciplinedNeverRobs(k: Kernel, tasks: set<Tid>, e: Event)
    requires Inv(k, tasks) && Enabled(k, e) && Disciplined(k, e)
    ensures !Robs(k, e)
  {
    if e.Unlock? || e.Wait? {
      SoundAt(k, e.m);
      assert ObjOpened(0);
    }
  }

  /** Unlocking leaves everyone secured but a task it robs. */
  lemma UnlockSecured(k: Kernel, m: nat, t: Tid, i: nat)
    requires k.IsMutex(m) && k.IsMutex(i) && Secured(k, t, i)
    ensures Secured(UnlockBy(k, m), t, i) <==> !(i == m && (t, m) in k.held && t !in k.objs[m].queue)
  {
    if i == m {
      PopFrontIn(k.objs[m].queue, t);
    }
  }

  lemma UnlockedSame(k: Kernel, e: Event, t: Tid, i: nat)
    requires Enabled(k, e) && (e.Unlock? || e.Wait?) && k.IsMutex(i)
    ensures Step(k, e).IsMutex(i) && Secured(Step(k, e), t, i) == Secured(UnlockBy(k, e.m), t, i)
  {
  }

  /** `Granted` survives an unlock exactly when it robs nobody. */
  lemma UnlockGranted(k: Kernel, tasks: set<Tid>, e: Event)
    requires Inv(k, tasks) && Granted(k) && Enabled(k, e) && (e.Unlock? || e.Wait?)
    ensures Granted(Step(k, e)) <==> !Robs(k, e)
  {
    var k', m := Step(k, e), e.m;
    assert forall t :: t in k.pc && t != e.t ==> k'.pc[t] == k.pc[t];
    assert k'.pc.Keys == k.pc.Keys && !k'.pc[e.t].InLock?;
    forall t | t in k.pc && t != e.t && k.pc[t].InLock? && k.IsMutex(k.pc[t].m)
      ensures var i := k.pc[t].m; Secured(k', t, i) <==> !(i == m && (t, m) in k.held && t !in k.objs[m].queue)
    {
      assert Secured(k, t, k.pc[t].m);
      UnlockSecured(k, m, t, k.pc[t].m);
      UnlockedSame(k, e, t, k.pc[t].m);
    }
  }

  lemma StepGranted(k: Kernel, tasks: set<Tid>, e: Event)
    requires Inv(k, tasks) && Granted(k) && Enabled(k, e)
    ensures Granted(Step(k, e)) <==> !Robs(k, e)
  {
    if e.Unlock? || e.Wait? {
      UnlockGranted(k, tasks, e);
    } else {
      var k' := Step(k, e);
      forall t | t in k'.pc && k'.pc[t].InLock? && k'.IsMutex(k'.pc[t].m) ensures Secured(k', t, k'.pc[t].m) {
        if t in k.pc && k.pc[t] == k'.pc[t] {
          assert Secured(k, t, k.pc[t].m);
        }
      }
    }
  }

  /** Every event of the run is disciplined. */
  ghost predicate DisciplinedRun(k: Kernel, es: seq<Event>)
    decreases |es|
  {
    es != [] ==> Enabled(k, es[0]) && Disciplined(k, es[0]) && DisciplinedRun(Step(k, es[0]), es[1..])
  }

  lemma {:induction false} RunGranted(k: Kernel, tasks: set<Tid>, es: seq<Event>, k': Kernel)
    requires Inv(k, tasks) && Granted(k) && Run(k, es, k') && DisciplinedRun(k, es)
    ensures Granted(k')
    decreases |es|
  {
    if es != [] {
      DisciplinedNeverRobs(k, tasks, es[0]);
      StepKeeps(k, tasks, es[0]);
      StepGranted(k, tasks, es[0]);
      RunGranted(Step(k, es[0]), tasks, es[1..], k');
    }
  }

  /** The mutex a call comes back with. */
  predicate Acquiring(p: Pc, m: nat) {
    p == InLock(m) || p == Spinning(m) || (p.InWait? && p.m == m)
  }

  /** A task that returns from `lock` or `wait` holds the mutex. */
  lemma ReturnHolds(k: Kernel, tasks: set<Tid>, e: Event, t: Tid, m: nat)
    requires Inv(k, tasks) && Granted(k) && Enabled(k, e) && t in k.pc && Acquiring(k.pc[t], m)
    requires t in Step(k, e).pc && Step(k, e).pc[t] == User
    ensures e == Resume(t) && (t, m) in Step(k, e).held
  {
    assert SoundOpened(0);
    assert CallOk(k.objs, k.pc[t]);
    assert e == Resume(t);
    if k.pc[t].InLock? {
      OnlyRunning(k, tasks, t);
      assert Secured(k, t, m);
    }
  }

  /** A task that is inside holds the mutex, so tasks that unlock only what they are inside of are disciplined. */
  lemma {:induction false} OwnIsDisciplined(k: Kernel, tasks: set<Tid>, inside: set<(Tid, nat)>, es: seq<Event>)
    requires Inv(k, tasks) && Agrees(k, inside) && OwnUnlocks(k, inside, es)
    ensures DisciplinedRun(k, es)
    decreases |es|
  {
    if es != [] {
      var e := es[0];
      StepKeeps(k, tasks, e);
      StepAgrees(k, tasks, inside, e);
      if e.Unlock? || e.Wait? { assert AgreesAt(k, inside, e.t, e.m); }
      OwnIsDisciplined(Step(k, e), tasks, Track(k, inside, e), es[1..]);
    }
  }

  /** In a run where tasks unlock only what they are inside of, `lock` and `wait` return with the mutex held, by nobody else. */
  lemma ReturnsHolding(k: Kernel, tasks: set<Tid>, es: seq<Event>, k1: Kernel, e: Event, t: Tid, m: nat)
    requires Init(k, tasks) && Run(k, es, k1) && OwnUnlocks(k, {}, es)
    requires Enabled(k1, e) && t in k1.pc && Acquiring(k1.pc[t], m)
    requires t in Step(k1, e).pc && Step(k1, e).pc[t] == User
    ensures (t, m) in Step(k1, e).held
    ensures forall u :: (u, m) in Step(k1, e).held ==> u == t
  {
    InitInv(k, tasks);
    assert Agrees(k, {});
    OwnIsDisciplined(k, tasks, {}, es);
    RunKeeps(k, tasks, es, k1);
    RunGranted(k, tasks, es, k1);
    ReturnHolds(k1, tasks, e, t, m);
    StepKeeps(k1, tasks, e);
    assert SoundOpened(0);
    SoundAt(Step(k1, e), m);
    assert ObjOpened(0);
  }

  /** Three tasks around one blocking mutex; `p` is where task 1 is. */
  function Scene(current: Option<Tid>, ready: seq<Tid>, locked: bool, queue: seq<Tid>, p: Pc, held: set<(Tid, nat)>, l: Log): Kernel {
    Kernel(current, ready, [Mutex(true, locked, queue)], [], map[0 := User, 1 := p, 2 := User], held, [l])
  }

  lemma IsScene(k: Kernel, current: Option<Tid>, ready: seq<Tid>, locked: bool, queue: seq<Tid>, p: Pc, held: set<(Tid, nat)>, l: Log)
    requires k.current == current && k.ready == ready && k.timers == [] && k.held == held
    requires |k.objs| == 1 && k.objs[0].Mutex? && k.objs[0].blocking && k.objs[0].locked == locked && k.objs[0].queue == queue
    requires k.pc == map[0 := User, 1 := p, 2 := User]
    requires |k.logs| == 1 && k.logs[0].initial == l.initial && k.logs[0].ups == l.ups
    requires k.logs[0].asked == l.asked && k.logs[0].granted == l.granted
    ensures k == Scene(current, ready, locked, queue, p, held, l)
  {
  }

  // Each part of the story: what happens, and who is inside the mutex before and after it.

  lemma FirstLocks(k: Kernel) returns (es: seq<Event>, k': Kernel)
    requires k == Scene(None, [0, 1, 2], false, [], User, {}, Log(0, 0, [], []))
    ensures TrackedRun(k, {}, es, k', {(0, 0)})
    ensures k' == Scene(None, [1, 2, 0], true, [], User, {(0, 0)}, Log(0, 0, [0], [0]))
  {
    es, k' := TrackedStep(k, {}, [], k, {}, Dispatch, {});
    IsScene(k', Some(0), [1, 2], false, [], User, {}, Log(0, 0, [], []));
    es, k' := TrackedStep(k, {}, es, k', {}, Lock(0, 0), {(0, 0)});
    IsScene(k', Some(0), [1, 2], true, [], User, {(0, 0)}, Log(0, 0, [0], [0]));
    es, k' := TrackedStep(k, {}, es, k', {(0, 0)}, Yield(0), {(0, 0)});
    IsScene(k', None, [1, 2, 0], true, [], User, {(0, 0)}, Log(0, 0, [0], [0]));
  }

  lemma SecondQueues(k: Kernel) returns (es: seq<Event>, k': Kernel)
    requires k == Scene(None, [1, 2, 0], true, [], User, {(0, 0)}, Log(0, 0, [0], [0]))
    ensures TrackedRun(k, {(0, 0)}, es, k', {(0, 0)})
    ensures k' == Scene(None, [2, 0], true, [1], InLock(0), {(0, 0)}, Log(0, 0, [0, 1], [0]))
  {
    es, k' := TrackedStep(k, {(0, 0)}, [], k, {(0, 0)}, Dispatch, {(0, 0)});
    IsScene(k', Some(1), [2, 0], true, [], User, {(0, 0)}, Log(0, 0, [0], [0]));
    es, k' := TrackedStep(k, {(0, 0)}, es, k', {(0, 0)}, Lock(1, 0), {(0, 0)});
    IsScene(k', None, [2, 0], true, [1], InLock(0), {(0, 0)}, Log(0, 0, [0, 1], [0]));
  }

  lemma ThirdUnlocks(k: Kernel) returns (es: seq<Event>, k': Kernel)
    requires k == Scene(None, [2, 0], true, [1], InLock(0), {(0, 0)}, Log(0, 0, [0, 1], [0]))
    ensures TrackedRun(k, {(0, 0)}, es, k', {(0, 0)})
    ensures k' == Scene(Some(2), [0, 1], true, [], InLock(0), {(1, 0)}, Log(0, 0, [0, 1], [0, 1]))
  {
    es, k' := TrackedStep(k, {(0, 0)}, [], k, {(0, 0)}, Dispatch, {(0, 0)});
    IsScene(k', Some(2), [0], true, [1], InLock(0), {(0, 0)}, Log(0, 0, [0, 1], [0]));
    es, k' := TrackedStep(k, {(0, 0)}, es, k', {(0, 0)}, Unlock(2, 0), {(0, 0)});
    IsScene(k', Some(2), [0, 1], true, [], InLock(0), {(1, 0)}, Log(0, 0, [0, 1], [0, 1]));
  }

  lemma ThirdUnlocksAgain(k: Kernel) returns (es: seq<Event>, k': Kernel)
    requires k == Scene(Some(2), [0, 1], true, [], InLock(0), {(1, 0)}, Log(0, 0, [0, 1], [0, 1]))
    ensures TrackedRun(k, {(0, 0)}, es, k', {(0, 0)})
    ensures k' == Scene(Some(2), [0, 1], false, [], InLock(0), {}, Log(0, 0, [0, 1], [0, 1]))
  {
    es, k' := TrackedStep(k, {(0, 0)}, [], k, {(0, 0)}, Unlock(2, 0), {(0, 0)});
    IsScene(k', Some(2), [0, 1], false, [], InLock(0), {}, Log(0, 0, [0, 1], [0, 1]));
  }

  /** Tasks 2 and 0 give way, and task 1 gets the processor inside its call to `lock`. */
  lemma SecondRuns(k: Kernel, locked: bool, held: set<(Tid, nat)>) returns (es: seq<Event>, k': Kernel)
    requires k == Scene(Some(2), [0, 1], locked, [], InLock(0), held, Log(0, 0, [0, 1], [0, 1]))
    ensures TrackedRun(k, {(0, 0)}, es, k', {(0, 0)})
    ensures k' == Scene(Some(1), [2, 0], locked, [], InLock(0), held, Log(0, 0, [0, 1], [0, 1]))
  {
    es, k' := TrackedStep(k, {(0, 0)}, [], k, {(0, 0)}, Yield(2), {(0, 0)});
    IsScene(k', None, [0, 1, 2], locked, [], InLock(0), held, Log(0, 0, [0, 1], [0, 1]));
    es, k' := TrackedStep(k, {(0, 0)}, es, k', {(0, 0)}, Dispatch, {(0, 0)});
    IsScene(k', Some(0), [1, 2], locked, [], InLock(0), held, Log(0, 0, [0, 1], [0, 1]));
    es, k' := TrackedStep(k, {(0, 0)}, es, k', {(0, 0)}, Yield(0), {(0, 0)});
    IsScene(k', None, [1, 2, 0], locked, [], InLock(0), held, Log(0, 0, [0, 1], [0, 1]));
    es, k' := TrackedStep(k, {(0, 0)}, es, k', {(0, 0)}, Dispatch, {(0, 0)});
    IsScene(k', Some(1), [2, 0], locked, [], InLock(0), held, Log(0, 0, [0, 1], [0, 1]));
  }

  lemma SceneInit()
    ensures Init(Scene(None, [0, 1, 2], false, [], User, {}, Log(0, 0, [], [])), {0, 1, 2})
  {
    assert multiset([0, 1, 2]) == multiset({0, 1, 2});
  }

  /** Task 0 is inside, task 1 has been handed the mutex by task 2, which was not. */
  lemma HandedOver() returns (k: Kernel, es: seq<Event>, k': Kernel)
    ensures Init(k, {0, 1, 2}) && TrackedRun(k, {}, es, k', {(0, 0)})
    ensures k' == Scene(Some(2), [0, 1], true, [], InLock(0), {(1, 0)}, Log(0, 0, [0, 1], [0, 1]))
  {
    SceneInit();
    k := Scene(None, [0, 1, 2], false, [], User, {}, Log(0, 0, [], []));
    var es1, k1 := FirstLocks(k);
    var es2, k2 := SecondQueues(k1);
    var es3;
    es3, k' := ThirdUnlocks(k2);
    TrackedAppend(k1, {(0, 0)}, es2, k2, {(0, 0)}, es3, k', {(0, 0)});
    TrackedAppend(k, {}, es1, k1, {(0, 0)}, es2 + es3, k', {(0, 0)});
    es := es1 + (es2 + es3);
  }

  /**
   Discipline is needed: here task 2 unlocks a mutex it never had, twice, and task 1 comes back
   from `lock` without it.
   */
  lemma RobbedOfTheMutex() returns (k: Kernel, es: seq<Event>, k': Kernel)
    ensures Init(k, {0, 1, 2}) && Run(k, es, k') && Enabled(k', Resume(1)) && k'.pc[1] == InLock(0)
    ensures Step(k', Resume(1)).pc[1] == User && (1, 0) !in Step(k', Resume(1)).held
  {
    var es1, k1, es2, k2, es3;
    k, es1, k1 := HandedOver();
    es2, k2 := ThirdUnlocksAgain(k1);
    es3, k' := SecondRuns(k2, false, {});
    TrackedAppend(k1, {(0, 0)}, es2, k2, {(0, 0)}, es3, k', {(0, 0)});
    es := es1 + (es2 + es3);
    TrackedAppend(k, {}, es1, k1, {(0, 0)}, es2 + es3, k', {(0, 0)});
    TrackedIsRun(k, {}, es, k', {(0, 0)});
  }

  /**
   One such unlock is enough for two tasks to be inside at once: tasks 0 and 1 have both come back
   from `lock` and neither has called `unlock`.
   */
  lemma TwoInside() returns (k: Kernel, es: seq<Event>, k': Kernel, inside: set<(Tid, nat)>)
    ensures Init(k, {0, 1, 2}) && TrackedRun(k, {}, es, k', inside) && k'.IsMutex(0)
    ensures (0, 0) in inside && (1, 0) in inside
  {
    var es1, k1, es2, k2;
    k, es1, k1 := HandedOver();
    es2, k2 := SecondRuns(k1, true, {(1, 0)});
    inside := {(0, 0), (1, 0)};
    es2, k' := TrackedStep(k1, {(0, 0)}, es2, k2, {(0, 0)}, Resume(1), inside);
    TrackedAppend(k, {}, es1, k1, {(0, 0)}, es2, k', inside);
    es := es1 + es2;
  }
}
