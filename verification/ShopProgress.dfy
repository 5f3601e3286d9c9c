/**
 The producers and the consumer of user/src/bin/mpsc_sem.rs can always finish: from every state a
 run can reach there is a continuation at whose end every item has been put and printed.
 */
module ShopProgress {
  import opened Basics
  import opened Scheduler
  import opened Turns
  import opened Mpsc

  ghost predicate LeadsOpened(q: int) { true }

  /** The states `tr` lead from `s` to `s'` by the acts `acts`. */
  ghost predicate Leads(s: Shop, per: nat, tr: seq<Shop>, acts: seq<Act>, s': Shop) {
    |tr| == |acts| + 1 && tr[0] == s && tr[|acts|] == s' && forall q :: LeadsOpened(q) ==> Trading(tr, per, acts)
  }

  lemma LeadsNowhere(s: Shop, per: nat)
    ensures Leads(s, per, [s], [], s)
  {
  }

  lemma LeadsOne(s: Shop, per: nat, a: Act, s': Shop)
    requires Next(s, per, a, s')
    ensures Leads(s, per, [s, s'], [a], s')
  {
  }

  lemma LeadsOn(s: Shop, per: nat, tr: seq<Shop>, acts: seq<Act>, s1: Shop, tr1: seq<Shop>, acts1: seq<Act>, s2: Shop)
    requires Leads(s, per, tr, acts, s1) && Leads(s1, per, tr1, acts1, s2)
    ensures Leads(s, per, tr + tr1[1..], acts + acts1, s2)
  {
    assert LeadsOpened(0);
    var all, ops := tr + tr1[1..], acts + acts1;
    forall j | 0 <= j < |ops| ensures Next(all[j], per, ops[j], all[j + 1]) {
      if j >= |acts| {
        assert all[j] == tr1[j - |acts|] && all[j + 1] == tr1[j - |acts| + 1];
        assert Next(tr1[j - |acts|], per, acts1[j - |acts|], tr1[j - |acts| + 1]);
      } else {
        assert Next(tr[j], per, acts[j], tr[j + 1]);
      }
    }
  }

  lemma LeadsStep(s: Shop, tasks: set<Tid>, per: nat, tr: seq<Shop>, acts: seq<Act>, s': Shop, j: nat)
    requires Leads(s, per, tr, acts, s') && j < |acts| && ShopOk(tr[j], tasks, per)
    ensures ShopOk(tr[j + 1], tasks, per)
  {
    assert Trading(tr, per, acts) by { assert LeadsOpened(0); }
    var a, b, e := tr[j], tr[j + 1], acts[j];
    assert Next(a, per, e, b);
    ShopStep(a, tasks, per, e, b);
  }

  lemma LeadsKeeps(s: Shop, tasks: set<Tid>, per: nat, tr: seq<Shop>, acts: seq<Act>, s': Shop)
    requires Leads(s, per, tr, acts, s') && ShopOk(s, tasks, per)
    ensures ShopOk(s', tasks, per)
  {
    var keeps := x => ShopOk(x, tasks, per);
    forall k | 0 <= k < |acts| && keeps(tr[k]) ensures keeps(tr[k + 1]) {
      LeadsStep(s, tasks, per, tr, acts, s', k);
    }
    Persists(keeps, tr, |acts|);
    assert keeps(tr[|acts|]);
  }

  /** The scheduler's own events are always allowed. */
  lemma {:induction false} QuietTrade(s: Shop, per: nat, es: seq<Event>, k': Kernel) returns (tr: seq<Shop>, acts: seq<Act>)
    requires QuietRun(s.k, es, k', 0) && s.stage != []
    ensures Leads(s, per, tr, acts, s.(k := k'))
    decreases |es|
  {
    if es == [] {
      tr, acts := [s], [];
      LeadsNowhere(s, per);
    } else {
      var e := es[0];
      assert Quiet(e, 0);
      var s1 := s.(k := Step(s.k, e));
      assert QuietRun(s1.k, es[1..], k', 0);
      LeadsOne(s, per, Sys(e), s1);
      var tr1, acts1 := QuietTrade(s1, per, es[1..], k');
      LeadsOn(s, per, [s, s1], [Sys(e)], s1, tr1, acts1, s.(k := k'));
      tr, acts := [s, s1] + tr1[1..], [Sys(e)] + acts1;
    }
  }

  /** A task that waits for no semaphore gets the processor and is back in its own code. */
  lemma RunTrader(s: Shop, tasks: set<Tid>, per: nat, j: nat) returns (es: seq<Event>, k': Kernel)
    requires ShopOk(s, tasks, per) && j < |s.stage| && Free(s.k, j)
    ensures QuietRun(s.k, es, k', 0) && k'.Runs(j)
  {
    assert ShopOpened(0);
    assert Doing(s.k.pc[j], j, s.stage[j].step, s.P());
    var es1, k1 := GiveTurn(s.k, tasks, j, j, 0);
    var es2;
    es2, k' := BackInUser(k1, tasks, j, 0);
    QuietAppend(s.k, es1, k1, es2, k', 0);
    es := es1 + es2;
  }

  /** What a task does next. */
  function NextAct(i: nat, c: Stage, p: nat): Act {
    match c
    case 0 => Sys(Down(i, if i < p then EMPTY else EXISTED))
    case 1 => Sys(Down(i, MUTEX))
    case 2 => Touch(i)
    case 3 => Advance(i)
    case 4 => Sys(Up(i, MUTEX))
    case _ => Sys(Up(i, if i < p then EXISTED else EMPTY))
  }

  /** An unfinished task that runs can do what comes next. */
  lemma NextActPossible(s: Shop, tasks: set<Tid>, per: nat, j: nat) returns (s': Shop)
    requires ShopOk(s, tasks, per) && Unfinished(s, per, j) && s.k.Runs(j)
    ensures s.stage != [] && Next(s, per, NextAct(j, s.stage[j].step, s.P()), s')
    ensures s'.stage == s.stage[j := Onward(s.stage[j])]
  {
    assert ShopOpened(0);
    assert s.k.IsSem(MUTEX) && s.k.IsSem(EMPTY) && s.k.IsSem(EXISTED) by { assert SemOpened(0); }
    assert |s.buffer| > 0 && s.front < |s.buffer| && s.tail < |s.buffer| by { assert BufferOpened(0); assert RingOpened(0); }
    var a, stage := NextAct(j, s.stage[j].step, s.P()), s.stage[j := Onward(s.stage[j])];
    if a.Sys? {
      s' := s.(k := Step(s.k, a.e), stage := stage);
    } else if a.Touch? && j < s.P() {
      s' := s.(stage := stage, buffer := s.buffer[s.front := j]);
    } else if a.Touch? {
      s' := s.(stage := stage, consumed := s.consumed + [s.buffer[s.tail]]);
    } else if j < s.P() {
      s' := s.(stage := stage, front := (s.front + 1) % |s.buffer|, deposited := s.deposited + [j]);
    } else {
      s' := s.(stage := stage, tail := (s.tail + 1) % |s.buffer|);
    }
  }

  /** Some continuation has an unfinished task take its next step. */
  lemma OneMoreStep(s: Shop, tasks: set<Tid>, per: nat, i: nat) returns (tr: seq<Shop>, acts: seq<Act>, s': Shop, j: nat)
    requires ShopOk(s, tasks, per) && Unfinished(s, per, i)
    ensures Leads(s, per, tr, acts, s') && ShopOk(s', tasks, per)
    ensures Unfinished(s, per, j) && s'.stage == s.stage[j := Onward(s.stage[j])]
  {
    j := SomebodyFree(s, tasks, per, i);
    var es, k1 := RunTrader(s, tasks, per, j);
    var s1 := s.(k := k1);
    var tr1, acts1 := QuietTrade(s, per, es, k1);
    LeadsKeeps(s, tasks, per, tr1, acts1, s1);
    s' := NextActPossible(s1, tasks, per, j);
    var a := NextAct(j, s1.stage[j].step, s1.P());
    LeadsOne(s1, per, a, s');
    LeadsOn(s, per, tr1, acts1, s1, [s1, s'], [a], s');
    tr, acts := tr1 + [s1, s'][1..], acts1 + [a];
    LeadsKeeps(s, tasks, per, tr, acts, s');
  }

  // ---- To the end

  function LeftOf(g: Progress, quota: nat): nat {
    if g.items < quota then 6 * (quota - g.items) - g.step else 0
  }

  /** How many steps are still to be taken, by the first tasks of a shop with `p` producers. */
  function Remaining(stage: seq<Progress>, p: nat, per: nat): nat {
    if stage == [] then 0
    else
      var n := |stage| - 1;
      Remaining(stage[..n], p, per) + LeftOf(stage[n], Quota(n, p, per))
  }

  lemma {:induction false} RemainingDrops(stage: seq<Progress>, p: nat, per: nat, j: nat)
    requires j < |stage| && stage[j].items < Quota(j, p, per)
    ensures Remaining(stage[j := Onward(stage[j])], p, per) < Remaining(stage, p, per)
  {
    var n := |stage| - 1;
    var stage' := stage[j := Onward(stage[j])];
    if j < n {
      RemainingDrops(stage[..n], p, per, j);
      assert stage'[..n] == stage[..n][j := Onward(stage[j])];
    } else {
      assert stage'[..n] == stage[..n];
    }
  }

  lemma {:induction false} ToTheEnd(s: Shop, tasks: set<Tid>, per: nat) returns (tr: seq<Shop>, acts: seq<Act>, s': Shop)
    requires ShopOk(s, tasks, per) && s.stage != []
    ensures Leads(s, per, tr, acts, s') && ShopOk(s', tasks, per)
    ensures |s'.stage| == |s.stage| && forall i :: !Unfinished(s', per, i)
    decreases Remaining(s.stage, s.P(), per)
  {
    if i :| Unfinished(s, per, i) {
      var tr1, acts1, s1, j := OneMoreStep(s, tasks, per, i);
      RemainingDrops(s.stage, s.P(), per, j);
      var tr2, acts2;
      tr2, acts2, s' := ToTheEnd(s1, tasks, per);
      LeadsOn(s, per, tr1, acts1, s1, tr2, acts2, s');
      tr, acts := tr1 + tr2[1..], acts1 + acts2;
    } else {
      tr, acts, s' := [s], [], s;
      LeadsNowhere(s, per);
    }
  }

  /** No run is ever lost: it can be continued until all is put and printed. */
  lemma CanFinish(tr: seq<Shop>, tasks: set<Tid>, per: nat, acts: seq<Act>, j: nat)
    returns (tr': seq<Shop>, acts': seq<Act>)
    requires Trading(tr, per, acts) && Start(tr[0], tasks) && j < |tr|
    ensures Trading(tr', per, acts') && tr'[0] == tr[j] && Finished(tr'[|acts'|], per)
  {
    TradingOk(tr, tasks, per, acts, j);
    assert tr[j].stage != [] by { assert ShopOpened(0); }
    var end;
    tr', acts', end := ToTheEnd(tr[j], tasks, per);
    assert LeadsOpened(0) && ShopOpened(0);
    forall i | 0 <= i < |end.stage| ensures end.stage[i] == Progress(Quota(i, end.P(), per), 0) {
      assert !Unfinished(end, per, i);
      assert OnCourse(end.stage[i], Quota(i, end.P(), per));
    }
  }
}
