/**
 How a task that can run gets to run: when anything can happen at all, and the turns the
 scheduler has to give to others first. Only the scheduler acts here: tasks are dispatched,
 resumed inside the calls they are in, give way and are interrupted, but make no new calls.
 */
module Turns {
  import opened Options
  import opened Timers
  import opened Scheduler
  import opened SchedulerSafety

  /** Something can happen exactly when a task has the processor or is ready; with all of them waiting, nothing ever will. */
  lemma CanHappen(k: Kernel, tasks: set<Tid>)
    requires Inv(k, tasks)
    ensures (exists e :: Enabled(k, e)) <==> k.current.Some? || k.ready != []
  {
    if k.current.Some? {
      var t := k.current.value;
      OnlyRunning(k, tasks, t);
      assert Enabled(k, Yield(t)) || Enabled(k, Resume(t));
    } else if k.ready != [] {
      assert Enabled(k, Dispatch);
    }
  }

  /** A run of the scheduler alone, with all its interrupts at the time `at`. */
  ghost predicate QuietRun(k: Kernel, es: seq<Event>, k': Kernel, at: Time) {
    Run(k, es, k') && forall j :: 0 <= j < |es| ==> Quiet(es[j], at)
  }

  predicate Quiet(e: Event, at: Time) {
    !IsSyscall(e) && (e.Tick? ==> e.now == at)
  }

  lemma QuietStep(k: Kernel, es: seq<Event>, k1: Kernel, e: Event, at: Time) returns (fs: seq<Event>, k2: Kernel)
    requires QuietRun(k, es, k1, at) && Enabled(k1, e) && Quiet(e, at)
    ensures k2 == Step(k1, e) && QuietRun(k, fs, k2, at)
  {
    fs, k2 := RunStep(k, es, k1, e);
  }

  lemma QuietAppend(k: Kernel, es: seq<Event>, k1: Kernel, fs: seq<Event>, k2: Kernel, at: Time)
    requires QuietRun(k, es, k1, at) && QuietRun(k1, fs, k2, at)
    ensures QuietRun(k, es + fs, k2, at)
  {
    RunAppend(k, es, k1, fs, k2);
  }

  /** The task runs or is ready, and needs no mutex to get back to its own code. */
  predicate Awake(k: Kernel, z: Tid) {
    && z in k.pc && !k.pc[z].InWait? && !k.pc[z].Spinning?
    && (k.current == Some(z) || z in k.ready)
  }

  /** Tasks that do not have the processor keep their place inside their calls. */
  ghost predicate SamePc(k: Kernel, k': Kernel, x: Tid) {
    x in k.pc ==> x in k'.pc && k'.pc[x] == k.pc[x]
  }

  /** What a turn leaves alone. */
  ghost predicate TurnOk(k: Kernel, k': Kernel, z: Tid) {
    && k.ready <= k'.ready && k'.timers == k.timers && Awake(k', z)
    && forall x: Tid :: k.current != Some(x) ==> SamePc(k, k', x)
  }

  lemma ResumeTurn(k: Kernel, t: Tid, z: Tid)
    requires Enabled(k, Resume(t)) && Awake(k, z)
    ensures var k' := Step(k, Resume(t)); TurnOk(k, k', z) && (k'.current.None? || k'.Runs(t))
  {
  }

  lemma YieldTurn(k: Kernel, k1: Kernel, t: Tid, z: Tid)
    requires TurnOk(k, k1, z) && k.current == Some(t) && Enabled(k1, Yield(t))
    ensures TurnOk(k, Step(k1, Yield(t)), z)
  {
  }

  /** Whoever has the processor goes on with its call and gives way. */
  lemma ClearCpu(k: Kernel, tasks: set<Tid>, z: Tid, at: Time) returns (es: seq<Event>, k': Kernel)
    requires Inv(k, tasks) && Awake(k, z)
    ensures QuietRun(k, es, k', at) && Inv(k', tasks) && k'.current.None? && TurnOk(k, k', z)
  {
    es, k' := [], k;
    if k.current.Some? {
      var t := k.current.value;
      OnlyRunning(k, tasks, t);
      if k.pc[t] != User {
        ResumeTurn(k, t, z);
        StepKeeps(k, tasks, Resume(t));
        es, k' := QuietStep(k, es, k', Resume(t), at);
      }
      if k'.current.Some? {
        YieldTurn(k, k', t, z);
        StepKeeps(k', tasks, Yield(t));
        es, k' := QuietStep(k, es, k', Yield(t), at);
      }
    }
  }

  lemma ReadyOnce(k: Kernel, tasks: set<Tid>, i: nat, j: nat)
    requires Inv(k, tasks) && i < j < |k.ready|
    ensures k.ready[i] != k.ready[j]
  {
    ExactlyOnePlace(k, tasks, k.ready[i]);
    if k.ready[i] == k.ready[j] {
      Twice(k.ready, i, j);
    }
  }

  /** A ready task gets the processor once those before it have had their turn. */
  lemma {:induction false} BringUp(k: Kernel, tasks: set<Tid>, i: nat, z: Tid, at: Time) returns (es: seq<Event>, k': Kernel)
    requires Inv(k, tasks) && k.current.None? && i < |k.ready| && Awake(k, z)
    ensures QuietRun(k, es, k', at) && Inv(k', tasks) && k'.current == Some(k.ready[i]) && k'.timers == k.timers
    ensures Awake(k', z) && SamePc(k, k', k.ready[i])
    decreases i
  {
    StepKeeps(k, tasks, Dispatch);
    var k1;
    es, k1 := QuietStep(k, [], k, Dispatch, at);
    if i == 0 {
      k' := k1;
    } else {
      ReadyOnce(k, tasks, 0, i);
      var es1, k2 := ClearCpu(k1, tasks, z, at);
      assert k2.ready[i - 1] == k1.ready[i - 1] == k.ready[i];
      QuietAppend(k, es, k1, es1, k2, at);
      var es2;
      es2, k' := BringUp(k2, tasks, i - 1, z, at);
      QuietAppend(k, es + es1, k2, es2, k', at);
      es := es + es1 + es2;
    }
  }

  /** A task that runs or is ready can be given the processor. */
  lemma GiveTurn(k: Kernel, tasks: set<Tid>, x: Tid, z: Tid, at: Time) returns (es: seq<Event>, k': Kernel)
    requires Inv(k, tasks) && (k.current == Some(x) || x in k.ready) && Awake(k, z)
    ensures QuietRun(k, es, k', at) && Inv(k', tasks) && k'.current == Some(x) && k'.timers == k.timers
    ensures Awake(k', z) && SamePc(k, k', x)
  {
    if k.current == Some(x) {
      es, k' := [], k;
    } else {
      var i :| 0 <= i < |k.ready| && k.ready[i] == x;
      var es1, k1 := ClearCpu(k, tasks, z, at);
      assert k.current != Some(x) by { ExactlyOnePlace(k, tasks, x); }
      assert k1.ready[i] == x;
      var es2;
      es2, k' := BringUp(k1, tasks, i, z, at);
      QuietAppend(k, es1, k1, es2, k', at);
      es := es1 + es2;
    }
  }

  /** The state in which `z`, having the processor, is back in its own code. */
  lemma BackInUser(k: Kernel, tasks: set<Tid>, z: Tid, at: Time) returns (es: seq<Event>, k': Kernel)
    requires Inv(k, tasks) && k.current == Some(z) && Awake(k, z)
    ensures QuietRun(k, es, k', at) && Inv(k', tasks) && k'.Runs(z) && k'.timers == k.timers
  {
    es, k' := [], k;
    if k.pc[z] != User {
      StepKeeps(k, tasks, Resume(z));
      es, k' := QuietStep(k, es, k', Resume(z), at);
    }
  }

  /** A task in the heap and its timer. */
  lemma SleeperAt(ts: seq<Timer>, j: Tid) returns (x: Timer)
    requires j in Tasks(ts)
    ensures x in ts && x.task == j
  {
    var i :| 0 <= i < |ts| && Tasks(ts)[i] == j;
    x := ts[i];
  }

  lemma InHeap(ts: seq<Timer>, x: Timer)
    requires x in ts
    ensures x.task in Tasks(ts)
  {
    var i :| 0 <= i < |ts| && ts[i] == x;
    assert Tasks(ts)[i] == x.task;
  }

  /** A check at `at` wakes the task, if it sleeps: its deadline has come and no deadline is far. */
  ghost predicate Wakeable(ts: seq<Timer>, j: Tid, at: Time) {
    (exists x :: x in ts && x.task == j) ==> NoneFar(ts) && forall x :: x in ts && x.task == j ==> Due(x, at)
  }

  /** A sleeper becomes ready: a task that runs is interrupted late enough. */
  lemma WakeUp(k: Kernel, tasks: set<Tid>, j: Tid, z: Tid, at: Time) returns (es: seq<Event>, k': Kernel)
    requires Inv(k, tasks) && j in Tasks(k.timers) && Wakeable(k.timers, j, at) && Awake(k, z)
    ensures QuietRun(k, es, k', at) && Inv(k', tasks) && j in k'.ready && Awake(k', z)
    ensures forall x :: x in k'.timers ==> x in k.timers
  {
    var es1, k1 := GiveTurn(k, tasks, z, z, at);
    var es2, k2 := BackInUser(k1, tasks, z, at);
    QuietAppend(k, es1, k1, es2, k2, at);
    var x := SleeperAt(k.timers, j);
    var woken, left := CheckEnds(k2.timers, at);
    DueIsWoken(k2.timers, at, woken, left, x);
    PopsPartition(k2.timers, at, woken, left);
    forall y | y in left ensures y in k.timers { InEither(k2.timers, woken, left, y); }
    StepKeeps(k2, tasks, Tick(z, at, woken, left));
    es, k' := QuietStep(k, es1 + es2, k2, Tick(z, at, woken, left), at);
    ReadyAfterTick(k2, z, at, woken, left, x, k');
  }

  lemma ReadyAfterTick(k: Kernel, z: Tid, at: Time, woken: seq<Timer>, left: seq<Timer>, x: Timer, k': Kernel)
    requires Enabled(k, Tick(z, at, woken, left)) && k' == Step(k, Tick(z, at, woken, left)) && x in woken
    ensures z in k'.ready && k'.pc == k.pc && x.task in k'.ready && k'.timers == left
  {
    assert k'.ready == k.ready + Tasks(woken) + [z];
    InHeap(woken, x);
  }

  /**
   A task that runs or is ready can get the processor, with the help of one that is awake, and so
   can a sleeper once its deadline has come, if no deadline in the heap is far.
   */
  lemma LetRun(k: Kernel, tasks: set<Tid>, j: Tid, z: Tid, at: Time) returns (es: seq<Event>, k': Kernel)
    requires Inv(k, tasks) && (k.current == Some(j) || j in k.ready || j in Tasks(k.timers)) && Awake(k, z)
    requires Wakeable(k.timers, j, at)
    ensures QuietRun(k, es, k', at) && Inv(k', tasks) && k'.current == Some(j) && Awake(k', z)
    ensures forall x :: x in k'.timers ==> x in k.timers
  {
    var es1, k1 := [], k;
    if k.current != Some(j) && j !in k.ready {
      es1, k1 := WakeUp(k, tasks, j, z, at);
    }
    var es2;
    es2, k' := GiveTurn(k1, tasks, j, z, at);
    QuietAppend(k, es1, k1, es2, k', at);
    es := es1 + es2;
  }
}
