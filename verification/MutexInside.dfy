/**
 Who is between its own `lock` and its own `unlock` of a mutex. This is the callers' view: a
 task comes in when its call to `lock` or `wait` returns and goes out when it calls `unlock` or
 `wait` itself. Since `unlock` does not ask who calls it, the kernel's own idea of the holder
 can come apart from that; here is exactly when, and that otherwise at most one task is inside.
 */
module MutexInside {
  import opened Scheduler
  import opened SchedulerSafety

  /** Who is inside after an event; only the calls of a task itself move it. */
  ghost function Track(k: Kernel, inside: set<(Tid, nat)>, e: Event): set<(Tid, nat)>
    requires Enabled(k, e)
  {
    match e
    case Lock(t, m) => if t in Step(k, e).pc && Step(k, e).pc[t] == User then inside + {(t, m)} else inside
    case Resume(t) =>
      var p := k.pc[t];
      if (p.InLock? || p.Spinning? || p.InWait?) && t in Step(k, e).pc && Step(k, e).pc[t] == User
      then inside + {(t, p.m)} else inside
    case Unlock(t, m) => inside - {(t, m)}
    case Wait(t, _, m) => inside - {(t, m)}
    case _ => inside
  }

  /** A run together with who is inside at its beginning and its end. */
  ghost predicate TrackedRun(k: Kernel, inside: set<(Tid, nat)>, es: seq<Event>, k': Kernel, inside': set<(Tid, nat)>)
    decreases |es|
  {
    if es == [] then k == k' && inside == inside'
    else Enabled(k, es[0]) && TrackedRun(Step(k, es[0]), Track(k, inside, es[0]), es[1..], k', inside')
  }

  /** The mutex has been handed to `t`, which has not run since. */
  predicate Handed(k: Kernel, t: Tid, m: nat)
    requires k.IsMutex(m)
  {
    t in k.pc && k.pc[t] == InLock(m) && t !in k.objs[m].queue
  }

  ghost predicate AgreesAt(k: Kernel, inside: set<(Tid, nat)>, t: Tid, m: nat)
    requires k.IsMutex(m)
  {
    (t, m) in k.held <==> (t, m) in inside || Handed(k, t, m)
  }

  /** Whom the kernel takes for the holder of a mutex is inside, or has been handed the mutex and will be. */
  ghost predicate Agrees(k: Kernel, inside: set<(Tid, nat)>) {
    forall t, m :: k.IsMutex(m) ==> AgreesAt(k, inside, t, m)
  }

  /**
   The call unlocks a locked mutex its caller is not inside of. It does no harm only when the mutex
   goes straight back to the same holder, who has called `lock` again and waits for itself.
   */
  ghost predicate Breaks(k: Kernel, inside: set<(Tid, nat)>, e: Event) {
    && (e.Unlock? || e.Wait?) && k.IsMutex(e.m) && k.objs[e.m].locked && (e.t, e.m) !in inside
    && !(k.objs[e.m].queue != [] && (k.objs[e.m].queue[0], e.m) in k.held)
  }

  /** At most one task is inside a mutex, as long as the kernel agrees with the callers. */
  lemma AgreesOneInside(k: Kernel, tasks: set<Tid>, inside: set<(Tid, nat)>, m: nat, t: Tid, u: Tid)
    requires Inv(k, tasks) && Agrees(k, inside) && k.IsMutex(m) && (t, m) in inside && (u, m) in inside
    ensures t == u && k.objs[m].locked
  {
    SoundAt(k, m);
    assert ObjOpened(0);
    assert AgreesAt(k, inside, t, m) && AgreesAt(k, inside, u, m);
  }

  lemma OthersAgree(k: Kernel, inside: set<(Tid, nat)>, e: Event, t: Tid, i: nat)
    requires Enabled(k, e) && (e.Unlock? || e.Wait?) && k.IsMutex(i) && i != e.m && AgreesAt(k, inside, t, i)
    ensures Step(k, e).IsMutex(i) && AgreesAt(Step(k, e), Track(k, inside, e), t, i)
  {
  }

  /** The queue of a mutex and who is in it. */
  lemma QueueFacts(k: Kernel, tasks: set<Tid>, m: nat)
    requires Inv(k, tasks) && k.IsMutex(m)
    ensures var q := k.objs[m].queue;
            q != [] ==> k.objs[m].blocking && q[0] in k.pc && k.pc[q[0]] == InLock(m) && q[0] !in q[1..]
  {
    SoundAt(k, m);
    FirstIn(k.objs[m].queue);
    QueuedOnce(k, tasks, m);
    assert ObjOpened(0);
  }

  /** `unlock` and `wait` as far as the mutex is concerned. */
  lemma UnlocksOnly(k: Kernel, e: Event, t: Tid)
    requires Enabled(k, e) && (e.Unlock? || e.Wait?)
    ensures var k', k1 := Step(k, e), UnlockBy(k, e.m);
            && k'.IsMutex(e.m) && k'.held == k1.held && k'.objs[e.m].queue == k1.objs[e.m].queue
            && (t in k'.pc <==> t in k.pc) && (t in k.pc && t != e.t ==> k'.pc[t] == k.pc[t])
            && e.t in k'.pc && !k'.pc[e.t].InLock?
  {
  }

  /** What an unlock does to the agreement about one task. */
  lemma UnlockAgrees(k: Kernel, tasks: set<Tid>, inside: set<(Tid, nat)>, e: Event, t: Tid)
    requires Inv(k, tasks) && Enabled(k, e) && (e.Unlock? || e.Wait?) && Agrees(k, inside)
    ensures Step(k, e).IsMutex(e.m)
    ensures AgreesAt(Step(k, e), Track(k, inside, e), t, e.m) <==>
            !((t, e.m) in k.held && t != e.t && !(k.objs[e.m].queue != [] && t == k.objs[e.m].queue[0]))
  {
    var m, q := e.m, k.objs[e.m].queue;
    assert AgreesAt(k, inside, t, m);
    PopFrontIn(q, t);
    UnlocksOnly(k, e, t);
    assert q != [] ==> k.objs[m].blocking && q[0] in k.pc && k.pc[q[0]] == InLock(m) && q[0] !in q[1..] by { QueueFacts(k, tasks, m); }
    assert e.t !in q by { OnlyRunning(k, tasks, e.t); }
    assert Track(k, inside, e) == inside - {(e.t, m)};
  }

  lemma PopFrontIn(q: seq<Tid>, t: Tid)
    ensures t in q <==> q != [] && (t == q[0] || t in q[1..])
  {
    if q != [] {
      assert q == [q[0]] + q[1..];
    }
  }

  lemma UnlockStep(k: Kernel, tasks: set<Tid>, inside: set<(Tid, nat)>, e: Event)
    requires Inv(k, tasks) && Enabled(k, e) && (e.Unlock? || e.Wait?) && Agrees(k, inside)
    ensures Agrees(Step(k, e), Track(k, inside, e)) <==> !Breaks(k, inside, e)
  {
    var m, q, k', inside' := e.m, k.objs[e.m].queue, Step(k, e), Track(k, inside, e);
    forall t, i | k.IsMutex(i) && i != m ensures AgreesAt(k', inside', t, i) {
      assert AgreesAt(k, inside, t, i);
      OthersAgree(k, inside, e, t, i);
    }
    forall t ensures AgreesAt(k', inside', t, m) <==> !((t, m) in k.held && t != e.t && !(q != [] && t == q[0])) {
      UnlockAgrees(k, tasks, inside, e, t);
    }
    MutualExclusion(k, tasks, m);
    assert AgreesAt(k, inside, e.t, m);
    if k.objs[m].locked {
      var h :| (h, m) in k.held;
      assert AgreesAt(k', inside', h, m) <==> !(h != e.t && !(q != [] && h == q[0]));
    }
  }

  lemma LockAgrees(k: Kernel, tasks: set<Tid>, inside: set<(Tid, nat)>, e: Event, x: nat, t: Tid, m: nat)
    requires Inv(k, tasks) && Enabled(k, e) && k.IsMutex(x) && k.IsMutex(m) && AgreesAt(k, inside, t, m)
    requires (e.Lock? && e.m == x) || (e.Resume? && (k.pc[e.t] == Spinning(x) || (k.pc[e.t].InWait? && k.pc[e.t].m == x)))
    ensures Step(k, e).IsMutex(m) && AgreesAt(Step(k, e), Track(k, inside, e), t, m)
  {
    assert Step(k, e) == LockBy(k, e.t, x);
    OnlyRunning(k, tasks, e.t);
  }

  /** Whatever a task does, callers and kernel go on agreeing, except when a call breaks it. */
  lemma StepAgrees(k: Kernel, tasks: set<Tid>, inside: set<(Tid, nat)>, e: Event)
    requires Inv(k, tasks) && Agrees(k, inside) && Enabled(k, e)
    ensures Agrees(Step(k, e), Track(k, inside, e)) <==> !Breaks(k, inside, e)
  {
    if e.Unlock? || e.Wait? {
      UnlockStep(k, tasks, inside, e);
    } else {
      var k', inside' := Step(k, e), Track(k, inside, e);
      forall t, m | k'.IsMutex(m) ensures AgreesAt(k', inside', t, m) {
        assert k.IsMutex(m);
        assert AgreesAt(k, inside, t, m);
        OtherStepAgrees(k, tasks, inside, e, t, m);
      }
    }
  }

  lemma OtherStepAgrees(k: Kernel, tasks: set<Tid>, inside: set<(Tid, nat)>, e: Event, t: Tid, m: nat)
    requires Inv(k, tasks) && Enabled(k, e) && !e.Unlock? && !e.Wait? && k.IsMutex(m) && AgreesAt(k, inside, t, m)
    ensures Step(k, e).IsMutex(m) && AgreesAt(Step(k, e), Track(k, inside, e), t, m)
  {
    if e.Lock? {
      LockAgrees(k, tasks, inside, e, e.m, t, m);
    } else if e.Resume? {
      assert SoundOpened(0);
      assert CallOk(k.objs, k.pc[e.t]);
      if k.pc[e.t].Spinning? || k.pc[e.t].InWait? {
        LockAgrees(k, tasks, inside, e, k.pc[e.t].m, t, m);
      } else {
        OnlyRunning(k, tasks, e.t);
      }
    }
  }

  /** In every event of the run it is a task inside a mutex that unlocks it or waits with it. */
  ghost predicate OwnUnlocks(k: Kernel, inside: set<(Tid, nat)>, es: seq<Event>)
    decreases |es|
  {
    es != [] ==>
      && Enabled(k, es[0])
      && (es[0].Unlock? || es[0].Wait? ==> (es[0].t, es[0].m) in inside)
      && OwnUnlocks(Step(k, es[0]), Track(k, inside, es[0]), es[1..])
  }

  lemma {:induction false} RunAgrees(k: Kernel, tasks: set<Tid>, inside: set<(Tid, nat)>, es: seq<Event>, k': Kernel, inside': set<(Tid, nat)>)
    requires Inv(k, tasks) && Agrees(k, inside) && TrackedRun(k, inside, es, k', inside') && OwnUnlocks(k, inside, es)
    ensures Inv(k', tasks) && Agrees(k', inside')
    decreases |es|
  {
    if es != [] {
      StepKeeps(k, tasks, es[0]);
      StepAgrees(k, tasks, inside, es[0]);
      RunAgrees(Step(k, es[0]), tasks, Track(k, inside, es[0]), es[1..], k', inside');
    }
  }

  /**
   Over every run in which tasks unlock only what they are inside of, at most one task is between
   its `lock` and its `unlock` of a mutex, and the mutex is locked meanwhile.
   */
  lemma OneInside(k: Kernel, tasks: set<Tid>, es: seq<Event>, k': Kernel, inside: set<(Tid, nat)>, m: nat, t: Tid, u: Tid)
    requires Init(k, tasks) && TrackedRun(k, {}, es, k', inside) && OwnUnlocks(k, {}, es)
    requires k'.IsMutex(m) && (t, m) in inside && (u, m) in inside
    ensures t == u && k'.objs[m].locked
  {
    InitInv(k, tasks);
    assert Agrees(k, {});
    RunAgrees(k, tasks, {}, es, k', inside);
    AgreesOneInside(k', tasks, inside, m, t, u);
  }

  // ---- Putting runs together

  lemma {:induction false} TrackedIsRun(k: Kernel, inside: set<(Tid, nat)>, es: seq<Event>, k': Kernel, inside': set<(Tid, nat)>)
    requires TrackedRun(k, inside, es, k', inside')
    ensures Run(k, es, k')
    decreases |es|
  {
    if es != [] {
      TrackedIsRun(Step(k, es[0]), Track(k, inside, es[0]), es[1..], k', inside');
    }
  }

  lemma TrackedStep(k: Kernel, i: set<(Tid, nat)>, es: seq<Event>, k1: Kernel, i1: set<(Tid, nat)>, e: Event, i2: set<(Tid, nat)>)
    returns (fs: seq<Event>, k2: Kernel)
    requires TrackedRun(k, i, es, k1, i1) && Enabled(k1, e) && Track(k1, i1, e) == i2
    ensures fs == es + [e] && k2 == Step(k1, e) && TrackedRun(k, i, fs, k2, i2)
  {
    fs, k2 := es + [e], Step(k1, e);
    assert [e][1..] == [] && TrackedRun(k2, i2, [], k2, i2);
    TrackedAppend(k, i, es, k1, i1, [e], k2, i2);
  }

  lemma {:induction false} TrackedAppend(k: Kernel, i: set<(Tid, nat)>, es: seq<Event>, k1: Kernel, i1: set<(Tid, nat)>,
                                         fs: seq<Event>, k2: Kernel, i2: set<(Tid, nat)>)
    requires TrackedRun(k, i, es, k1, i1) && TrackedRun(k1, i1, fs, k2, i2)
    ensures TrackedRun(k, i, es + fs, k2, i2)
    decreases |es|
  {
    if es == [] {
      assert es + fs == fs;
    } else {
      TrackedAppend(Step(k, es[0]), Track(k, i, es[0]), es[1..], k1, i1, fs, k2, i2);
      assert (es + fs)[1..] == es[1..] + fs;
    }
  }
}
