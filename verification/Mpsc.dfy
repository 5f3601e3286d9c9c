/**
 The producers and the consumer of user/src/bin/mpsc_sem.rs, for any number of producers, any
 buffer size and any number of items, running on the scheduler with its semaphores: tasks below
 `p` are producers, task `p` is the consumer. The buffer is touched between system calls, where
 a timer interrupt may switch tasks, so each of its two accesses is a step of its own.
 */
module Mpsc {
  import opened Options
  import opened Scheduler
  import opened SchedulerSafety
  import opened Sums

  const MUTEX: nat := 0
  const EMPTY: nat := 1
  const EXISTED: nat := 2

  /** A task is past `items` items and `step` of the six steps of the next one. */
  datatype Progress = Progress(items: nat, step: Stage)

  type Stage = x: nat | x < 6

  function Onward(g: Progress): Progress {
    if g.step >= 5 then Progress(g.items + 1, 0) else Progress(g.items, g.step + 1)
  }

  /**
   `stage[i]` is how far task `i` is. `deposited` and `consumed` are history: the items put into
   the buffer and those printed, in order.
   */
  datatype Shop = Shop(k: Kernel, stage: seq<Progress>, buffer: seq<nat>, front: nat, tail: nat,
                       deposited: seq<nat>, consumed: seq<nat>)
  {
    function P(): nat
      requires stage != []
    {
      |stage| - 1
    }
  }

  datatype Act =
    | Sys(e: Event)
    | Touch(t: Tid)
    | Advance(t: Tid)

  /** How many items a task has to do in all. */
  function Quota(i: nat, p: nat, per: nat): nat {
    if i < p then per else p * per
  }

  /** The system call task `i` makes as step `c` of an item; 2 and 3 are the accesses to the buffer. */
  predicate IsCall(e: Event, i: nat, c: nat, p: nat) {
    match c
    case 0 => e == Down(i, if i < p then EMPTY else EXISTED)
    case 1 => e == Down(i, MUTEX)
    case 4 => e == Up(i, MUTEX)
    case 5 => e == Up(i, if i < p then EXISTED else EMPTY)
    case _ => false
  }

  predicate LeavesSemaphores(e: Event) {
    (e.Down? || e.Up?) ==> e.s > EXISTED
  }

  ghost predicate Next(s: Shop, per: nat, a: Act, s': Shop) {
    && s.stage != []
    && match a
       case Sys(e) =>
         && Enabled(s.k, e)
         && if IsSyscall(e) && e.t < |s.stage| then
              && s.stage[e.t].items < Quota(e.t, s.P(), per) && IsCall(e, e.t, s.stage[e.t].step, s.P())
              && s' == s.(k := Step(s.k, e), stage := s.stage[e.t := Onward(s.stage[e.t])])
            else
              LeavesSemaphores(e) && s' == s.(k := Step(s.k, e))
       case Touch(t) =>
         && s.k.Runs(t) && t < |s.stage| && s.stage[t].items < Quota(t, s.P(), per) && s.stage[t].step == 2
         && s.front < |s.buffer| && s.tail < |s.buffer|
         && var stage := s.stage[t := Onward(s.stage[t])];
            if t < s.P() then
              s' == s.(stage := stage, buffer := s.buffer[s.front := t])
            else
              s' == s.(stage := stage, consumed := s.consumed + [s.buffer[s.tail]])
       case Advance(t) =>
         && s.k.Runs(t) && t < |s.stage| && s.stage[t].items < Quota(t, s.P(), per) && s.stage[t].step == 3
         && |s.buffer| > 0
         && var stage := s.stage[t := Onward(s.stage[t])];
            if t < s.P() then
              s' == s.(stage := stage, front := (s.front + 1) % |s.buffer|, deposited := s.deposited + [t])
            else
              s' == s.(stage := stage, tail := (s.tail + 1) % |s.buffer|)
  }

  // ---- Counting what the tasks have done

  /** Of the items a task has begun, those it is past step `5 - d` of. */
  function Done(g: Progress, d: nat): int {
    g.items + if g.step + d >= 6 then 1 else 0
  }

  lemma DoneStep(g: Progress, d: nat)
    requires d < 6
    ensures Done(Onward(g), d) == Done(g, d) + if g.step + d == 5 then 1 else 0
  {
  }

  /** How often task `i` has called `down` on semaphore `x`. */
  function DownsOf(stage: seq<Progress>, x: nat, i: nat): int {
    if i >= |stage| then 0
    else if x == MUTEX then Done(stage[i], 4)
    else if (x == EMPTY) == (i < |stage| - 1) then Done(stage[i], 5)
    else 0
  }

  function Downs(stage: seq<Progress>, x: nat): nat -> int {
    (i: nat) => DownsOf(stage, x, i)
  }

  /** How often task `i` has called `up` on semaphore `x`. */
  function UpsOf(stage: seq<Progress>, x: nat, i: nat): int {
    if i >= |stage| then 0
    else if x == MUTEX then Done(stage[i], 1)
    else if (x == EMPTY) == (i == |stage| - 1) then Done(stage[i], 0)
    else 0
  }

  function Ups(stage: seq<Progress>, x: nat): nat -> int {
    (i: nat) => UpsOf(stage, x, i)
  }

  /** How many items producer `i` has put into the buffer. */
  function PutsOf(stage: seq<Progress>, i: nat): int {
    if i < |stage| - 1 then Done(stage[i], 2) else 0
  }

  function Puts(stage: seq<Progress>): nat -> int {
    (i: nat) => PutsOf(stage, i)
  }

  function Permits(x: nat, size: nat): nat {
    if x == MUTEX then 1 else if x == EMPTY then size else 0
  }

  // ---- The invariant

  /** Where task `i` can be after `c` steps of an item. */
  predicate Doing(pc: Pc, i: nat, c: nat, p: nat) {
    || pc == User
    || (c == 1 && pc == InDown(if i < p then EMPTY else EXISTED))
    || (c == 2 && pc == InDown(MUTEX))
  }

  /** Semaphore `x` has been used by these tasks only, as often as their programs say. */
  ghost predicate SemOk(s: Shop, x: nat) {
    forall q :: SemOpened(q) ==>
      && s.k.IsSem(x)
      && s.k.logs[x].initial == Permits(x, |s.buffer|)
      && |s.k.logs[x].asked| == Sum(Downs(s.stage, x), |s.stage|)
      && s.k.logs[x].ups == Sum(Ups(s.stage, x), |s.stage|)
      && (forall t :: t in s.k.objs[x].queue ==> t < |s.stage|)
  }

  ghost predicate SemOpened(q: int) { true }

  /** Still working on an item, or done with all. */
  predicate OnCourse(g: Progress, quota: nat) {
    g.items <= quota && (g.items == quota ==> g.step == 0)
  }

  ghost predicate TasksOk(s: Shop, per: nat) {
    && s.stage != []
    && forall i :: 0 <= i < |s.stage| ==>
         i in s.k.pc && OnCourse(s.stage[i], Quota(i, s.P(), per)) && Doing(s.k.pc[i], i, s.stage[i].step, s.P())
  }

  // ---- Every step keeps the counts

  /** A step of task `i` is a `down` on `x`, or leaves the number of them alone. */
  lemma DownsStep(stage: seq<Progress>, i: nat, x: nat)
    requires i < |stage| && x <= EXISTED
    ensures var p := |stage| - 1; var c := stage[i].step;
            Sum(Downs(stage[i := Onward(stage[i])], x), |stage|) ==
            Sum(Downs(stage, x), |stage|) + if IsCall(Down(i, x), i, c, p) then 1 else 0
  {
    DoneStep(stage[i], 4);
    DoneStep(stage[i], 5);
    SumUpdate(Downs(stage, x), Downs(stage[i := Onward(stage[i])], x), |stage|, i);
  }

  lemma UpsStep(stage: seq<Progress>, i: nat, x: nat)
    requires i < |stage| && x <= EXISTED
    ensures var p := |stage| - 1; var c := stage[i].step;
            Sum(Ups(stage[i := Onward(stage[i])], x), |stage|) ==
            Sum(Ups(stage, x), |stage|) + if IsCall(Up(i, x), i, c, p) then 1 else 0
  {
    DoneStep(stage[i], 0);
    DoneStep(stage[i], 1);
    SumUpdate(Ups(stage, x), Ups(stage[i := Onward(stage[i])], x), |stage|, i);
  }

  /** How an event shows in the history of semaphore `x`. */
  lemma LogStep(k: Kernel, e: Event, x: nat)
    requires Enabled(k, e) && k.IsSem(x)
    ensures var k' := Step(k, e);
            && k'.IsSem(x) && k'.logs[x].initial == k.logs[x].initial
            && |k'.logs[x].asked| == |k.logs[x].asked| + (if e.Down? && e.s == x then 1 else 0)
            && k'.logs[x].ups == k.logs[x].ups + (if e.Up? && e.s == x then 1 else 0)
  {
  }

  lemma QueueStep(k: Kernel, e: Event, x: nat, t: Tid)
    requires Enabled(k, e) && k.IsSem(x) && Step(k, e).IsSem(x) && t in Step(k, e).objs[x].queue
    ensures t in k.objs[x].queue || e == Down(t, x)
  {
  }

  /** A call is the `down` or `up` on `x` it is by its number. */
  lemma CallShows(e: Event, i: nat, c: nat, p: nat, x: nat)
    requires IsCall(e, i, c, p)
    ensures IsCall(Down(i, x), i, c, p) <==> e.Down? && e.s == x
    ensures IsCall(Up(i, x), i, c, p) <==> e.Up? && e.s == x
  {
  }

  lemma SemCall(s: Shop, e: Event, x: nat)
    requires SemOk(s, x) && x <= EXISTED && Enabled(s.k, e) && !e.Dispatch? && e.t < |s.stage|
    requires IsCall(e, e.t, s.stage[e.t].step, |s.stage| - 1)
    ensures SemOk(s.(k := Step(s.k, e), stage := s.stage[e.t := Onward(s.stage[e.t])]), x)
  {
    assert SemOpened(0);
    LogStep(s.k, e, x);
    CallShows(e, e.t, s.stage[e.t].step, |s.stage| - 1, x);
    DownsStep(s.stage, e.t, x);
    UpsStep(s.stage, e.t, x);
    forall t | t in Step(s.k, e).objs[x].queue ensures t < |s.stage| {
      QueueStep(s.k, e, x, t);
    }
  }

  lemma SemOther(s: Shop, e: Event, x: nat)
    requires SemOk(s, x) && x <= EXISTED && Enabled(s.k, e) && LeavesSemaphores(e)
    ensures SemOk(s.(k := Step(s.k, e)), x)
  {
    assert SemOpened(0);
    LogStep(s.k, e, x);
    forall t | t in Step(s.k, e).objs[x].queue ensures t < |s.stage| {
      QueueStep(s.k, e, x, t);
    }
  }

  lemma SemTouch(s: Shop, t: Tid, x: nat, s': Shop)
    requires SemOk(s, x) && x <= EXISTED && t < |s.stage| && 2 <= s.stage[t].step <= 3
    requires s'.k == s.k && s'.stage == s.stage[t := Onward(s.stage[t])] && |s'.buffer| == |s.buffer|
    ensures SemOk(s', x)
  {
    assert SemOpened(0);
    DownsStep(s.stage, t, x);
    UpsStep(s.stage, t, x);
  }

  lemma SemStep(s: Shop, per: nat, a: Act, s': Shop, x: nat)
    requires SemOk(s, x) && x <= EXISTED && Next(s, per, a, s')
    ensures SemOk(s', x)
  {
    if a.Sys? {
      if IsSyscall(a.e) && a.e.t < |s.stage| {
        SemCall(s, a.e, x);
      } else {
        SemOther(s, a.e, x);
      }
    } else {
      SemTouch(s, a.t, x, s');
    }
  }

  /** Only the acting task changes its call. */
  lemma PcStep(k: Kernel, e: Event, i: nat)
    requires Enabled(k, e) && i in k.pc
    ensures i in Step(k, e).pc
    ensures e.Dispatch? || e.t != i ==> Step(k, e).pc[i] == k.pc[i]
    ensures e == Resume(i) && (k.pc[i].InDown? || k.pc[i].User?) ==> Step(k, e).pc[i] == User
    ensures e.Down? && e.t == i ==> Step(k, e).pc[i] == User || Step(k, e).pc[i] == InDown(e.s)
    ensures (e.Up? || e.Yield? || e.Tick?) && e.t == i ==> Step(k, e).pc[i] == User
  {
  }

  lemma TaskStep(s: Shop, per: nat, a: Act, s': Shop, i: nat)
    requires TasksOk(s, per) && Next(s, per, a, s') && i < |s.stage|
    ensures i in s'.k.pc && OnCourse(s'.stage[i], Quota(i, s.P(), per)) && Doing(s'.k.pc[i], i, s'.stage[i].step, s.P())
  {
    if a.Sys? {
      PcStep(s.k, a.e, i);
    }
  }

  // ---- What the semaphores guarantee

  /** The permits of semaphore `x` task `i` has taken and not given back. */
  function NetOf(s: Shop, x: nat, i: nat): int
    requires x < |s.k.objs|
  {
    DownsOf(s.stage, x, i) - Member(s.k.objs[x].queue)(i) - UpsOf(s.stage, x, i)
  }

  function Net(s: Shop, x: nat): nat -> int
    requires x < |s.k.objs|
  {
    (i: nat) => NetOf(s, x, i)
  }

  lemma Balance(s: Shop, tasks: set<Tid>, x: nat)
    requires Inv(s.k, tasks) && SemOk(s, x)
    ensures s.k.IsSem(x)
    ensures var count := s.k.objs[x].count;
            Sum(Net(s, x), |s.stage|) == Permits(x, |s.buffer|) - if count > 0 then count else 0
  {
    assert SemOpened(0);
    var q, n := s.k.objs[x].queue, |s.stage|;
    QueuedOnce(s.k, tasks, x);
    SumMembers(q, n);
    PermitsConserved(s.k, tasks, x);
    var taken := (i: nat) => Downs(s.stage, x)(i) - Member(q)(i);
    SumAdd(taken, Member(q), Downs(s.stage, x), n);
    SumAdd(Net(s, x), Ups(s.stage, x), taken, n);
  }

  /** A task in the queue of `x` has just asked for it. */
  lemma QueuedStage(s: Shop, tasks: set<Tid>, per: nat, i: nat, x: nat)
    requires Inv(s.k, tasks) && TasksOk(s, per) && i < |s.stage| && s.k.IsSem(x) && i in s.k.objs[x].queue
    ensures s.k.pc[i] == InDown(x)
    ensures if x == MUTEX then s.stage[i].step == 2 else s.stage[i].step == 1 && x == if i < s.P() then EMPTY else EXISTED
  {
    SoundAt(s.k, x);
    assert ObjOpened(0);
  }

  /** Task `i` is between its `down` and its `up` on the mutex. */
  predicate Inside(s: Shop, i: nat)
    requires s.k.IsSem(MUTEX)
  {
    i < |s.stage| && 2 <= s.stage[i].step <= 4 && i !in s.k.objs[MUTEX].queue
  }

  lemma MutexNet(s: Shop, tasks: set<Tid>, per: nat, i: nat)
    requires Inv(s.k, tasks) && TasksOk(s, per) && s.k.IsSem(MUTEX) && i < |s.stage|
    ensures NetOf(s, MUTEX, i) == if Inside(s, i) then 1 else 0
  {
    if i in s.k.objs[MUTEX].queue {
      QueuedStage(s, tasks, per, i, MUTEX);
    }
  }

  /** The mutex keeps out everyone but one. */
  lemma OneInside(s: Shop, tasks: set<Tid>, per: nat, i: nat, j: nat)
    requires Inv(s.k, tasks) && TasksOk(s, per) && SemOk(s, MUTEX) && s.k.IsSem(MUTEX) && Inside(s, i) && Inside(s, j)
    ensures i == j
  {
    Balance(s, tasks, MUTEX);
    forall t: nat | t < |s.stage| ensures NetOf(s, MUTEX, t) == if Inside(s, t) then 1 else 0 {
      MutexNet(s, tasks, per, t);
    }
    if i != j {
      SumTwo(Net(s, MUTEX), |s.stage|, i, j);
    }
  }

  /** What producer `i` has put into the buffer it had a permit for, and one more while it is putting. */
  lemma EmptyNet(s: Shop, tasks: set<Tid>, per: nat, i: nat)
    requires Inv(s.k, tasks) && TasksOk(s, per) && s.k.IsSem(EMPTY) && i < |s.stage|
    ensures i < s.P() ==> PutsOf(s.stage, i) <= NetOf(s, EMPTY, i)
    ensures i < s.P() && 2 <= s.stage[i].step <= 3 ==> PutsOf(s.stage, i) < NetOf(s, EMPTY, i)
    ensures i == s.P() ==> NetOf(s, EMPTY, i) == -(Done(s.stage[i], 0))
  {
    if i in s.k.objs[EMPTY].queue {
      QueuedStage(s, tasks, per, i, EMPTY);
    }
  }

  lemma ExistedNet(s: Shop, tasks: set<Tid>, per: nat, i: nat)
    requires Inv(s.k, tasks) && TasksOk(s, per) && s.k.IsSem(EXISTED) && i < |s.stage|
    ensures i < s.P() ==> -PutsOf(s.stage, i) <= NetOf(s, EXISTED, i)
    ensures i == s.P() ==> NetOf(s, EXISTED, i) >= Done(s.stage[i], 0)
    ensures i == s.P() && 2 <= s.stage[i].step <= 3 ==> NetOf(s, EXISTED, i) == Done(s.stage[i], 0) + 1
  {
    if i in s.k.objs[EXISTED].queue {
      QueuedStage(s, tasks, per, i, EXISTED);
    }
  }

  /** A producer about to put an item finds room for it. */
  lemma Room(s: Shop, tasks: set<Tid>, per: nat, i: nat)
    requires Inv(s.k, tasks) && TasksOk(s, per) && SemOk(s, EMPTY) && i < s.P() && 2 <= s.stage[i].step <= 3
    ensures Sum(Puts(s.stage), |s.stage|) < |s.buffer| + Done(s.stage[s.P()], 0)
  {
    Balance(s, tasks, EMPTY);
    var n, p := |s.stage|, s.P();
    var low := (t: nat) => if t == p then -(Done(s.stage[p], 0)) else PutsOf(s.stage, t);
    forall t: nat | t < n ensures low(t) <= NetOf(s, EMPTY, t) && (t == i ==> low(t) < NetOf(s, EMPTY, t)) {
      EmptyNet(s, tasks, per, t);
    }
    SumLess(low, Net(s, EMPTY), n, i);
    SumUpdate(Puts(s.stage), low, n, p);
  }

  /** The consumer about to take an item finds one. */
  lemma Stock(s: Shop, tasks: set<Tid>, per: nat)
    requires Inv(s.k, tasks) && TasksOk(s, per) && SemOk(s, EXISTED) && 2 <= s.stage[s.P()].step <= 3
    ensures Done(s.stage[s.P()], 0) < Sum(Puts(s.stage), |s.stage|)
  {
    Balance(s, tasks, EXISTED);
    var n, p := |s.stage|, s.P();
    var neg := (t: nat) => -PutsOf(s.stage, t);
    var low := (t: nat) => if t == p then Done(s.stage[p], 0) + 1 else -PutsOf(s.stage, t);
    forall t: nat | t < n ensures low(t) <= NetOf(s, EXISTED, t) {
      ExistedNet(s, tasks, per, t);
    }
    SumAtMost(low, Net(s, EXISTED), n);
    SumNegate(Puts(s.stage), neg, n);
    SumUpdate(neg, low, n, p);
  }

  // ---- The buffer

  /** Where item number `j` lies: `j` modulo the size of the buffer. */
  function Cell(j: nat, size: nat): (r: nat)
    requires size > 0
    ensures r < size
  {
    if j < size then j else Cell(j - size, size)
  }

  lemma {:induction false} CellsDiffer(j: nat, k: nat, size: nat)
    requires j < k < j + size
    ensures Cell(j, size) != Cell(k, size)
  {
    if j >= size {
      CellsDiffer(j - size, k - size, size);
    }
  }

  lemma {:induction false} NextCell(k: nat, size: nat)
    requires size > 0
    ensures Cell(k + 1, size) == (Cell(k, size) + 1) % size
  {
    if k >= size {
      NextCell(k - size, size);
    } else if k + 1 < size {
      assert (k + 1) % size == k + 1;
    }
  }

  ghost predicate RingOpened(q: int) { true }

  /**
   The buffer holds the items put and not yet taken, at the places from `tail` to `front`, and
   the first `seen` of the items put have been printed.
   */
  ghost predicate Ring(buffer: seq<nat>, front: nat, tail: nat, deposited: seq<nat>, consumed: seq<nat>, taken: int, seen: int) {
    forall q :: RingOpened(q) ==>
      && |buffer| > 0 && 0 <= taken <= |deposited| <= taken + |buffer|
      && front == Cell(|deposited|, |buffer|) && tail == Cell(taken, |buffer|)
      && |consumed| == seen && consumed <= deposited
      && (forall j :: taken <= j < |deposited| ==> buffer[Cell(j, |buffer|)] == deposited[j])
  }

  lemma RingPut(buffer: seq<nat>, front: nat, tail: nat, deposited: seq<nat>, consumed: seq<nat>, taken: int, seen: int, x: nat)
    requires Ring(buffer, front, tail, deposited, consumed, taken, seen) && |deposited| < taken + |buffer|
    ensures front < |buffer| && Ring(buffer[front := x], front, tail, deposited, consumed, taken, seen)
  {
    assert RingOpened(0);
    forall j | taken <= j < |deposited| ensures Cell(j, |buffer|) != front {
      CellsDiffer(j, |deposited|, |buffer|);
    }
  }

  lemma RingFront(buffer: seq<nat>, front: nat, tail: nat, deposited: seq<nat>, consumed: seq<nat>, taken: int, seen: int, x: nat)
    requires Ring(buffer, front, tail, deposited, consumed, taken, seen) && |deposited| < taken + |buffer|
    requires front < |buffer| && buffer[front] == x
    ensures Ring(buffer, (front + 1) % |buffer|, tail, deposited + [x], consumed, taken, seen)
  {
    assert RingOpened(0);
    NextCell(|deposited|, |buffer|);
  }

  lemma RingTake(buffer: seq<nat>, front: nat, tail: nat, deposited: seq<nat>, consumed: seq<nat>, taken: int)
    requires Ring(buffer, front, tail, deposited, consumed, taken, taken) && taken < |deposited|
    ensures tail < |buffer| && Ring(buffer, front, tail, deposited, consumed + [buffer[tail]], taken, taken + 1)
  {
    assert RingOpened(0);
  }

  lemma RingTail(buffer: seq<nat>, front: nat, tail: nat, deposited: seq<nat>, consumed: seq<nat>, taken: int, seen: int)
    requires Ring(buffer, front, tail, deposited, consumed, taken, seen) && taken < |deposited|
    ensures |buffer| > 0 && Ring(buffer, front, (tail + 1) % |buffer|, deposited, consumed, taken + 1, seen)
  {
    assert RingOpened(0);
    NextCell(taken, |buffer|);
  }

  ghost predicate TallyOpened(q: int) { true }

  /** Every producer has put as many items as it says. */
  ghost predicate Tally(stage: seq<Progress>, deposited: seq<nat>) {
    forall q :: TallyOpened(q) ==>
      && |deposited| == Sum(Puts(stage), |stage|)
      && (forall i :: 0 <= i < |stage| - 1 ==> multiset(deposited)[i] == PutsOf(stage, i))
      && (forall x :: x in deposited ==> x < |stage| - 1)
  }

  /** Task `i` takes a step: it puts an item or it does not. */
  lemma TallyStep(stage: seq<Progress>, deposited: seq<nat>, i: nat)
    requires Tally(stage, deposited) && i < |stage|
    ensures Tally(stage[i := Onward(stage[i])], if i < |stage| - 1 && stage[i].step == 3 then deposited + [i] else deposited)
  {
    assert TallyOpened(0);
    DoneStep(stage[i], 2);
    SumUpdate(Puts(stage), Puts(stage[i := Onward(stage[i])]), |stage|, i);
  }

  /** A producer that has written its item and not advanced `front` finds the item there. */
  ghost predicate Pending(stage: seq<Progress>, buffer: seq<nat>, front: nat) {
    forall i :: 0 <= i < |stage| - 1 && stage[i].step == 3 ==> front < |buffer| && buffer[front] == i
  }

  /** Alone at the buffer, a producer writes its item or moves on. */
  lemma PendingStep(stage: seq<Progress>, buffer: seq<nat>, front: nat, i: nat)
    requires i < |stage| && forall j :: 0 <= j < |stage| && j != i ==> stage[j].step != 3
    requires stage[i].step == 3 || (stage[i].step == 2 && front < |buffer| && buffer[front] == i)
    ensures Pending(stage[i := Onward(stage[i])], buffer, front)
  {
  }

  ghost predicate BufferOpened(q: int) { true }

  ghost predicate BufferOk(s: Shop)
    requires s.stage != []
  {
    forall q :: BufferOpened(q) ==>
      && Ring(s.buffer, s.front, s.tail, s.deposited, s.consumed, Done(s.stage[s.P()], 2), Done(s.stage[s.P()], 3))
      && Tally(s.stage, s.deposited) && Pending(s.stage, s.buffer, s.front)
  }

  lemma PutSoFar(s: Shop)
    requires s.stage != [] && BufferOk(s)
    ensures |s.deposited| == Sum(Puts(s.stage), |s.stage|)
  {
    assert BufferOpened(0);
    assert TallyOpened(0);
  }

  /** While task `i` uses the buffer nobody else has begun to. */
  lemma NobodyElseInside(s: Shop, tasks: set<Tid>, per: nat, i: nat)
    requires Inv(s.k, tasks) && TasksOk(s, per) && SemOk(s, MUTEX)
    requires i < |s.stage| && 2 <= s.stage[i].step <= 3 && s.k.Runs(i)
    ensures forall j :: 0 <= j < |s.stage| && j != i ==> s.stage[j].step != 3
  {
    assert s.k.IsSem(MUTEX) by { assert SemOpened(0); }
    OnlyRunning(s.k, tasks, i);
    forall j | 0 <= j < |s.stage| && j != i ensures s.stage[j].step != 3 {
      if s.stage[j].step == 3 {
        if j in s.k.objs[MUTEX].queue {
          QueuedStage(s, tasks, per, j, MUTEX);
        }
        OneInside(s, tasks, per, i, j);
      }
    }
  }

  /** A system call changes nothing about the buffer. */
  lemma BufferCall(s: Shop, i: nat, k: Kernel)
    requires s.stage != [] && BufferOk(s) && i < |s.stage| && s.stage[i].step != 2 && s.stage[i].step != 3
    ensures BufferOk(s.(k := k, stage := s.stage[i := Onward(s.stage[i])]))
  {
    assert BufferOpened(0);
    TallyStep(s.stage, s.deposited, i);
    DoneStep(s.stage[i], 2);
    DoneStep(s.stage[i], 3);
  }

  /** A producer writes its item into a cell that holds nothing unread. */
  lemma BufferPut(s: Shop, tasks: set<Tid>, per: nat, i: nat)
    requires Inv(s.k, tasks) && TasksOk(s, per) && SemOk(s, EMPTY) && SemOk(s, MUTEX) && BufferOk(s)
    requires i < s.P() && s.stage[i].step == 2 && s.k.Runs(i)
    ensures s.front < |s.buffer| && BufferOk(s.(stage := s.stage[i := Onward(s.stage[i])], buffer := s.buffer[s.front := i]))
  {
    assert BufferOpened(0);
    Room(s, tasks, per, i);
    PutSoFar(s);
    RingPut(s.buffer, s.front, s.tail, s.deposited, s.consumed, Done(s.stage[s.P()], 2), Done(s.stage[s.P()], 3), i);
    TallyStep(s.stage, s.deposited, i);
    NobodyElseInside(s, tasks, per, i);
    PendingStep(s.stage, s.buffer[s.front := i], s.front, i);
  }

  lemma BufferFrontAdvance(s: Shop, tasks: set<Tid>, per: nat, i: nat)
    requires Inv(s.k, tasks) && TasksOk(s, per) && SemOk(s, EMPTY) && SemOk(s, MUTEX) && BufferOk(s)
    requires i < s.P() && s.stage[i].step == 3 && s.k.Runs(i) && |s.buffer| > 0
    ensures BufferOk(s.(stage := s.stage[i := Onward(s.stage[i])], front := (s.front + 1) % |s.buffer|, deposited := s.deposited + [i]))
  {
    assert BufferOpened(0);
    Room(s, tasks, per, i);
    PutSoFar(s);
    RingFront(s.buffer, s.front, s.tail, s.deposited, s.consumed, Done(s.stage[s.P()], 2), Done(s.stage[s.P()], 3), i);
    TallyStep(s.stage, s.deposited, i);
    NobodyElseInside(s, tasks, per, i);
    PendingStep(s.stage, s.buffer, (s.front + 1) % |s.buffer|, i);
  }

  /** The consumer prints the oldest unread item. */
  lemma BufferTake(s: Shop, tasks: set<Tid>, per: nat)
    requires Inv(s.k, tasks) && TasksOk(s, per) && SemOk(s, EXISTED) && BufferOk(s) && s.stage[s.P()].step == 2
    ensures s.tail < |s.buffer|
    ensures BufferOk(s.(stage := s.stage[s.P() := Onward(s.stage[s.P()])], consumed := s.consumed + [s.buffer[s.tail]]))
  {
    assert BufferOpened(0);
    var p := s.P();
    Stock(s, tasks, per);
    PutSoFar(s);
    DoneStep(s.stage[p], 2);
    DoneStep(s.stage[p], 3);
    RingTake(s.buffer, s.front, s.tail, s.deposited, s.consumed, Done(s.stage[p], 2));
    TallyStep(s.stage, s.deposited, p);
  }

  lemma BufferTailAdvance(s: Shop, tasks: set<Tid>, per: nat)
    requires Inv(s.k, tasks) && TasksOk(s, per) && SemOk(s, EXISTED) && BufferOk(s) && s.stage[s.P()].step == 3 && |s.buffer| > 0
    ensures BufferOk(s.(stage := s.stage[s.P() := Onward(s.stage[s.P()])], tail := (s.tail + 1) % |s.buffer|))
  {
    assert BufferOpened(0);
    var p := s.P();
    Stock(s, tasks, per);
    PutSoFar(s);
    DoneStep(s.stage[p], 2);
    DoneStep(s.stage[p], 3);
    RingTail(s.buffer, s.front, s.tail, s.deposited, s.consumed, Done(s.stage[p], 2), Done(s.stage[p], 3));
    TallyStep(s.stage, s.deposited, p);
  }

  // ---- Whole runs

  ghost predicate ShopOpened(q: int) { true }

  ghost predicate ShopOk(s: Shop, tasks: set<Tid>, per: nat) {
    forall q :: ShopOpened(q) ==>
      Inv(s.k, tasks) && TasksOk(s, per) && SemOk(s, MUTEX) && SemOk(s, EMPTY) && SemOk(s, EXISTED) && BufferOk(s)
  }

  lemma TasksStep(s: Shop, per: nat, a: Act, s': Shop)
    requires TasksOk(s, per) && Next(s, per, a, s')
    ensures TasksOk(s', per)
  {
    forall i | 0 <= i < |s'.stage|
      ensures i in s'.k.pc && OnCourse(s'.stage[i], Quota(i, s'.P(), per)) && Doing(s'.k.pc[i], i, s'.stage[i].step, s'.P())
    {
      TaskStep(s, per, a, s', i);
    }
  }

  lemma BufferTouch(s: Shop, tasks: set<Tid>, per: nat, t: Tid, s': Shop)
    requires Inv(s.k, tasks) && TasksOk(s, per) && SemOk(s, MUTEX) && SemOk(s, EMPTY) && SemOk(s, EXISTED) && BufferOk(s)
    requires Next(s, per, Touch(t), s')
    ensures s'.stage != [] && BufferOk(s')
  {
    if t < s.P() {
      BufferPut(s, tasks, per, t);
    } else {
      BufferTake(s, tasks, per);
    }
  }

  lemma BufferAdvance(s: Shop, tasks: set<Tid>, per: nat, t: Tid, s': Shop)
    requires Inv(s.k, tasks) && TasksOk(s, per) && SemOk(s, MUTEX) && SemOk(s, EMPTY) && SemOk(s, EXISTED) && BufferOk(s)
    requires Next(s, per, Advance(t), s')
    ensures s'.stage != [] && BufferOk(s')
  {
    if t < s.P() {
      BufferFrontAdvance(s, tasks, per, t);
    } else {
      BufferTailAdvance(s, tasks, per);
    }
  }

  lemma BufferSys(s: Shop, per: nat, e: Event, s': Shop)
    requires s.stage != [] && BufferOk(s) && Next(s, per, Sys(e), s')
    ensures s'.stage != [] && BufferOk(s')
  {
    if IsSyscall(e) && e.t < |s.stage| {
      BufferCall(s, e.t, s'.k);
    }
  }

  lemma ShopStep(s: Shop, tasks: set<Tid>, per: nat, a: Act, s': Shop)
    requires ShopOk(s, tasks, per) && Next(s, per, a, s')
    ensures ShopOk(s', tasks, per)
  {
    assert ShopOpened(0);
    if a.Sys? {
      StepKeeps(s.k, tasks, a.e);
    }
    TasksStep(s, per, a, s');
    SemStep(s, per, a, s', MUTEX);
    SemStep(s, per, a, s', EMPTY);
    SemStep(s, per, a, s', EXISTED);
    match a
    case Sys(e) => BufferSys(s, per, e, s');
    case Touch(t) => BufferTouch(s, tasks, per, t, s');
    case Advance(t) => BufferAdvance(s, tasks, per, t, s');
  }

  /** Nothing done yet; the semaphores are made with 1, the size of the buffer and 0. */
  ghost predicate Start(s: Shop, tasks: set<Tid>) {
    && Init(s.k, tasks) && s.stage != [] && |s.buffer| > 0
    && (forall i :: 0 <= i < |s.stage| ==> s.stage[i] == Progress(0, 0) && i in tasks)
    && (forall x :: 0 <= x <= EXISTED ==> s.k.IsSem(x) && s.k.logs[x].initial == Permits(x, |s.buffer|))
    && s.front == 0 && s.tail == 0 && s.deposited == [] && s.consumed == []
  }

  lemma StartSem(s: Shop, tasks: set<Tid>, x: nat)
    requires Start(s, tasks) && x <= EXISTED
    ensures SemOk(s, x)
  {
    SumConstant(Downs(s.stage, x), |s.stage|, 0);
    SumConstant(Ups(s.stage, x), |s.stage|, 0);
    assert s.k.IsSem(x);
    assert Fresh(s.k.objs[x], s.k.logs[x]);
  }

  lemma StartOk(s: Shop, tasks: set<Tid>, per: nat)
    requires Start(s, tasks)
    ensures ShopOk(s, tasks, per)
  {
    InitInv(s.k, tasks);
    StartSem(s, tasks, MUTEX);
    StartSem(s, tasks, EMPTY);
    StartSem(s, tasks, EXISTED);
    SumConstant(Puts(s.stage), |s.stage|, 0);
    assert TasksOk(s, per);
    assert Tally(s.stage, s.deposited);
    assert BufferOk(s);
  }

  /** The states `tr` follow one another by the acts `acts`. */
  ghost predicate Trading(tr: seq<Shop>, per: nat, acts: seq<Act>) {
    |tr| == |acts| + 1 && forall j :: 0 <= j < |acts| ==> Next(tr[j], per, acts[j], tr[j + 1])
  }

  lemma {:induction false} TradingOk(tr: seq<Shop>, tasks: set<Tid>, per: nat, acts: seq<Act>, j: nat)
    requires Trading(tr, per, acts) && Start(tr[0], tasks) && j < |tr|
    ensures ShopOk(tr[j], tasks, per)
  {
    if j == 0 {
      StartOk(tr[0], tasks, per);
    } else {
      TradingOk(tr, tasks, per, acts, j - 1);
      ShopStep(tr[j - 1], tasks, per, acts[j - 1], tr[j]);
    }
  }

  // ---- What it means

  /** Whatever the interleaving, the consumer prints the items in the order they were put, and the buffer never overflows. */
  lemma FirstInFirstOut(tr: seq<Shop>, tasks: set<Tid>, per: nat, acts: seq<Act>, j: nat)
    requires Trading(tr, per, acts) && Start(tr[0], tasks) && j < |tr|
    ensures var s := tr[j]; s.consumed <= s.deposited && |s.deposited| <= |s.consumed| + |s.buffer|
    ensures tr[j].front < |tr[j].buffer| && tr[j].tail < |tr[j].buffer|
  {
    TradingOk(tr, tasks, per, acts, j);
    assert ShopOpened(0);
    assert BufferOpened(0);
    assert RingOpened(0);
  }

  ghost predicate Finished(s: Shop, per: nat) {
    s.stage != [] && forall i :: 0 <= i < |s.stage| ==> s.stage[i] == Progress(Quota(i, s.P(), per), 0)
  }

  /** At the end everything put has been printed, and every producer's number has been printed as often as it was to be put. */
  lemma EverythingDelivered(tr: seq<Shop>, tasks: set<Tid>, per: nat, acts: seq<Act>, j: nat, i: nat)
    requires Trading(tr, per, acts) && Start(tr[0], tasks) && j < |tr| && Finished(tr[j], per)
    ensures tr[j].consumed == tr[j].deposited && |tr[j].consumed| == tr[j].P() * per
    ensures multiset(tr[j].consumed)[i] == if i < tr[j].P() then per else 0
  {
    var s := tr[j];
    TradingOk(tr, tasks, per, acts, j);
    assert ShopOpened(0);
    assert BufferOpened(0);
    assert RingOpened(0);
    assert TallyOpened(0);
    var p := s.P();
    SumConstant(Puts(s.stage), p, per);
    assert Sum(Puts(s.stage), |s.stage|) == Sum(Puts(s.stage), p) + PutsOf(s.stage, p);
    assert multiset(s.deposited)[i] > 0 ==> i in s.deposited;
  }

  predicate Unfinished(s: Shop, per: nat, i: nat) {
    i < |s.stage| && s.stage[i].items < Quota(i, s.P(), per)
  }

  /** The task waits for no semaphore: it runs or is ready to run. */
  predicate Free(k: Kernel, i: nat) {
    k.current == Some(i) || i in k.ready
  }

  /** A task that is not free waits for the mutex, or for its other semaphore. */
  lemma FreeOrQueued(s: Shop, tasks: set<Tid>, per: nat, i: nat)
    requires Inv(s.k, tasks) && TasksOk(s, per) && i < |s.stage| && s.k.IsSem(MUTEX) && s.k.IsSem(EMPTY) && s.k.IsSem(EXISTED)
    ensures || Free(s.k, i)
            || (s.stage[i].step == 2 && i in s.k.objs[MUTEX].queue)
            || (s.stage[i].step == 1 && i in s.k.objs[if i < s.P() then EMPTY else EXISTED].queue)
  {
    if !Free(s.k, i) {
      NotAsleep(s.k, i);
      assert PlacedOpened(0);
      assert i in Everyone(s.k);
      assert i in Queued(s.k.objs);
      var x := QueuedIn(s.k.objs, i);
      SoundAt(s.k, x);
      assert ObjOpened(0);
    }
  }

  /** When somebody waits for the mutex, the one inside can go on. */
  lemma InsideIsFree(s: Shop, tasks: set<Tid>, per: nat) returns (j: nat)
    requires Inv(s.k, tasks) && TasksOk(s, per) && SemOk(s, MUTEX) && SemOk(s, EMPTY) && SemOk(s, EXISTED)
    requires s.k.IsSem(MUTEX) && s.k.objs[MUTEX].queue != []
    ensures Unfinished(s, per, j) && Free(s.k, j)
  {
    assert s.k.IsSem(EMPTY) && s.k.IsSem(EXISTED) by { assert SemOpened(0); }
    Balance(s, tasks, MUTEX);
    PermitsConserved(s.k, tasks, MUTEX);
    var none := (i: nat) => 0;
    SumConstant(none, |s.stage|, 0);
    j := SumWitness(none, Net(s, MUTEX), |s.stage|);
    MutexNet(s, tasks, per, j);
    FreeOrQueued(s, tasks, per, j);
  }

  /** Nobody waits for the mutex, the consumer waits for an item, a producer waits for room: some producer is on its way. */
  lemma ProducerIsFree(s: Shop, tasks: set<Tid>, per: nat) returns (j: nat)
    requires Inv(s.k, tasks) && TasksOk(s, per) && SemOk(s, MUTEX) && SemOk(s, EMPTY) && SemOk(s, EXISTED)
    requires s.k.IsSem(MUTEX) && s.k.IsSem(EMPTY) && s.k.IsSem(EXISTED) && |s.buffer| > 0
    requires s.k.objs[MUTEX].queue == [] && s.k.objs[EMPTY].queue != [] && s.P() in s.k.objs[EXISTED].queue
    ensures Unfinished(s, per, j) && Free(s.k, j)
  {
    var n, p := |s.stage|, s.P();
    Balance(s, tasks, EMPTY);
    PermitsConserved(s.k, tasks, EMPTY);
    var begun := (i: nat) => if i < n then -NetOf(s, EXISTED, i) else 0;
    ConsumerWaits(s, tasks, per);
    SumNegate(Net(s, EXISTED), begun, n);
    j := SumWitness(begun, Net(s, EMPTY), n);
    QueuedStage(s, tasks, per, p, EXISTED);
    EmptyNet(s, tasks, per, j);
    ProducerNets(s, tasks, per, j);
    FreeOrQueued(s, tasks, per, j);
  }

  /** While the consumer waits for an item every permit to take one has been used. */
  lemma ConsumerWaits(s: Shop, tasks: set<Tid>, per: nat)
    requires Inv(s.k, tasks) && TasksOk(s, per) && SemOk(s, EXISTED) && s.k.IsSem(EXISTED) && s.k.objs[EXISTED].queue != []
    ensures Sum(Net(s, EXISTED), |s.stage|) == 0
  {
    Balance(s, tasks, EXISTED);
    PermitsConserved(s.k, tasks, EXISTED);
  }

  lemma ProducerNets(s: Shop, tasks: set<Tid>, per: nat, j: nat)
    requires Inv(s.k, tasks) && TasksOk(s, per) && s.k.IsSem(EMPTY) && s.k.IsSem(EXISTED) && j < |s.stage|
    requires s.P() in s.k.objs[EXISTED].queue
    ensures -NetOf(s, EXISTED, j) < NetOf(s, EMPTY, j) ==>
            j < s.P() && s.stage[j].step != 0 && j !in s.k.objs[EMPTY].queue
  {
    QueuedStage(s, tasks, per, s.P(), EXISTED);
    if j in s.k.objs[EMPTY].queue {
      QueuedStage(s, tasks, per, j, EMPTY);
    }
    if j in s.k.objs[EXISTED].queue {
      QueuedStage(s, tasks, per, j, EXISTED);
    }
  }

  /** While the consumer waits for an item some producer has not finished. */
  lemma SomeProducerUnfinished(s: Shop, tasks: set<Tid>, per: nat) returns (i: nat)
    requires Inv(s.k, tasks) && TasksOk(s, per) && SemOk(s, EXISTED) && s.k.IsSem(EXISTED)
    requires Unfinished(s, per, s.P()) && s.P() in s.k.objs[EXISTED].queue
    ensures i < s.P() && Unfinished(s, per, i)
  {
    var n, p := |s.stage|, s.P();
    ConsumerWaits(s, tasks, per);
    QueuedStage(s, tasks, per, p, EXISTED);
    var begun := (t: nat) => if t < n then -NetOf(s, EXISTED, t) else 0;
    var due := (t: nat) => per;
    SumNegate(Net(s, EXISTED), begun, n);
    SumConstant(due, p, per);
    assert Sum(begun, n) == Sum(begun, p) + begun(p);
    i := SumWitness(begun, due, p);
    if i in s.k.objs[EXISTED].queue {
      QueuedStage(s, tasks, per, i, EXISTED);
    }
  }

  /** Once the consumer has finished no producer waits for room. */
  lemma NoneWaitsForRoom(s: Shop, tasks: set<Tid>, per: nat, i: nat)
    requires Inv(s.k, tasks) && TasksOk(s, per) && s.k.IsSem(EMPTY) && BufferOk(s)
    requires i < s.P() && Unfinished(s, per, i) && !Unfinished(s, per, s.P())
    ensures i !in s.k.objs[EMPTY].queue
  {
    var n, p := |s.stage|, s.P();
    assert BufferOpened(0);
    assert RingOpened(0);
    PutSoFar(s);
    if i in s.k.objs[EMPTY].queue {
      QueuedStage(s, tasks, per, i, EMPTY);
      var due := (t: nat) => per;
      SumConstant(due, p, per);
      assert Sum(Puts(s.stage), n) == Sum(Puts(s.stage), p) + PutsOf(s.stage, p);
      SumLess(Puts(s.stage), due, p, i);
    }
  }

  lemma SomebodyFree(s: Shop, tasks: set<Tid>, per: nat, i: nat) returns (j: nat)
    requires ShopOk(s, tasks, per) && Unfinished(s, per, i)
    ensures Unfinished(s, per, j) && Free(s.k, j)
  {
    assert ShopOpened(0);
    assert s.k.IsSem(MUTEX) && s.k.IsSem(EMPTY) && s.k.IsSem(EXISTED) by { assert SemOpened(0); }
    assert |s.buffer| > 0 by { assert BufferOpened(0); assert RingOpened(0); }
    var p := s.P();
    FreeOrQueued(s, tasks, per, i);
    FreeOrQueued(s, tasks, per, p);
    if s.k.objs[MUTEX].queue != [] {
      j := InsideIsFree(s, tasks, per);
    } else if Free(s.k, i) {
      j := i;
    } else if !Unfinished(s, per, p) {
      NoneWaitsForRoom(s, tasks, per, i);
      j := i;
    } else if Free(s.k, p) {
      j := p;
    } else {
      j := SomeProducerUnfinished(s, tasks, per);
      FreeOrQueued(s, tasks, per, j);
      if !Free(s.k, j) {
        j := ProducerIsFree(s, tasks, per);
      }
    }
  }

  /** No run ever gets stuck: as long as somebody has not finished, somebody who has not can go on. */
  lemma NoDeadlock(tr: seq<Shop>, tasks: set<Tid>, per: nat, acts: seq<Act>, j: nat)
    requires Trading(tr, per, acts) && Start(tr[0], tasks) && j < |tr|
    requires exists i :: Unfinished(tr[j], per, i)
    ensures exists i :: Unfinished(tr[j], per, i) && Free(tr[j].k, i)
  {
    TradingOk(tr, tasks, per, acts, j);
    var i :| Unfinished(tr[j], per, i);
    var h := SomebodyFree(tr[j], tasks, per, i);
  }
}
