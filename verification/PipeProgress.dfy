/**
 When calls on a pipe can return (os/src/fs/pipe.rs). A `read` returns only when it finds more
 bytes than it still wants, or no write end open; a `write` only when it finds more room than it
 has bytes left. So for a reader and a writer that have only each other it is decided by their
 lengths and what the ring holds whether either can ever return.
 */
module PipeProgress {
  import opened Bytes
  import opened Pipe
  import opened PipeRuns

  /** The channels `tr` follow one another from `c` by the moves `ms`. */
  ghost predicate Leads(c: Channel, tr: seq<Channel>, ms: seq<Move>) {
    |tr| == |ms| + 1 && tr[0] == c && forall k :: 0 <= k < |ms| ==> Next(tr[k], ms[k], tr[k + 1])
  }

  /** Nobody moves but the calls `i` and `j`. */
  ghost predicate OnlyThese(ms: seq<Move>, i: nat, j: nat) {
    forall k :: 0 <= k < |ms| ==> ms[k] == WriterRuns(i) || ms[k] == ReaderRuns(j)
  }

  lemma LeadsFirst(c: Channel, m: Move, c1: Channel, tr: seq<Channel>, ms: seq<Move>)
    requires Next(c, m, c1) && Leads(c1, tr, ms)
    ensures Leads(c, [c] + tr, [m] + ms)
  {
  }

  /** The channel after a burst of a call that has not returned. */
  ghost function Burst(c: Channel, m: Move): (c': Channel)
    requires Valid(c) && (m.WriterRuns? || m.ReaderRuns?)
    requires m.WriterRuns? ==> m.i < |c.writers| && !c.writers[m.i].done
    requires m.ReaderRuns? ==> m.j < |c.readers| && !c.readers[m.j].done
    ensures Next(c, m, c')
  {
    match m
    case WriterRuns(i) =>
      var w := c.writers[i];
      assert WriterOk(w, Of(c.sent, c.sentBy, i), c.open);
      var n := WriteSize(c.ring, w.data, w.pos);
      var bytes := w.data[w.pos..w.pos + n];
      c.(ring := c.ring + bytes, writers := c.writers[i := Writer(w.data, w.pos + n, RING_BUFFER_SIZE - |c.ring| > |w.data| - w.pos)],
         sent := c.sent + bytes, sentBy := c.sentBy + Repeat(i, n))
    case ReaderRuns(j) =>
      var r := c.readers[j];
      assert ReaderOk(r, Of(c.taken, c.takenBy, j), !c.open && c.ring == []);
      var n := ReadSize(c.ring, r.want, |r.got|);
      c.(ring := c.ring[n..], readers := c.readers[j := Reader(r.want, r.got + c.ring[..n], |c.ring| > r.want - |r.got| || !c.open)],
         taken := c.taken + c.ring[..n], takenBy := c.takenBy + Repeat(j, n))
  }

  /** The bytes write `i` has still to put in. */
  ghost function Rest(c: Channel, i: nat): (n: nat)
    requires Valid(c) && i < |c.writers|
    ensures n == |c.writers[i].data| - c.writers[i].pos
    ensures c.writers[i].done ==> n == 0
  {
    assert WriterOk(c.writers[i], Of(c.sent, c.sentBy, i), c.open);
    |c.writers[i].data| - c.writers[i].pos
  }

  /** The bytes read `j` may still take out. */
  ghost function Wants(c: Channel, j: nat): (n: nat)
    requires Valid(c) && j < |c.readers|
  {
    assert ReaderOk(c.readers[j], Of(c.taken, c.takenBy, j), !c.open && c.ring == []);
    if c.readers[j].done then 0 else c.readers[j].want - |c.readers[j].got|
  }

  /** As long as some call writes, a write end is open. */
  lemma StillOpen(c: Channel, i: nat)
    requires Valid(c) && i < |c.writers| && !c.writers[i].done
    ensures c.open
  {
    assert WriterOk(c.writers[i], Of(c.sent, c.sentBy, i), c.open);
  }

  ghost predicate Both(c: Channel, i: nat, j: nat) {
    Valid(c) && i < |c.writers| && j < |c.readers|
  }

  /** A burst of the writer moves bytes from the call into the ring. */
  lemma WriterMoves(c: Channel, i: nat, j: nat, c': Channel)
    requires Both(c, i, j) && Next(c, WriterRuns(i), c')
    ensures Both(c', i, j) && c'.open == c.open && c'.readers == c.readers && Wants(c', j) == Wants(c, j)
    ensures |c'.ring| + Rest(c', i) == |c.ring| + Rest(c, i)
    ensures |c'.ring| == if |c.ring| + Rest(c, i) < RING_BUFFER_SIZE then |c.ring| + Rest(c, i) else RING_BUFFER_SIZE
    ensures c'.writers[i].done <==> |c.ring| + Rest(c, i) < RING_BUFFER_SIZE
  {
    StepKeeps(c, WriterRuns(i), c');
  }

  /** A burst of the reader takes as many as there are and are wanted. */
  lemma ReaderMoves(c: Channel, i: nat, j: nat, c': Channel)
    requires Both(c, i, j) && Next(c, ReaderRuns(j), c')
    ensures Both(c', i, j) && c'.open == c.open && c'.writers == c.writers && Rest(c', i) == Rest(c, i)
    ensures c'.readers[j].done <==> |c.ring| > Wants(c, j) || !c.open
    ensures |c'.ring| == if |c.ring| < Wants(c, j) then 0 else |c.ring| - Wants(c, j)
    ensures c.open ==> Wants(c', j) == if |c.ring| < Wants(c, j) then Wants(c, j) - |c.ring| else 0
  {
    StepKeeps(c, ReaderRuns(j), c');
  }

  // ---- When the write can return

  /** The write returns at the end of the moves. */
  ghost predicate WriteReturns(c: Channel, i: nat, j: nat, tr: seq<Channel>, ms: seq<Move>) {
    Leads(c, tr, ms) && OnlyThese(ms, i, j) && i < |tr[|ms|].writers| && tr[|ms|].writers[i].done
  }

  lemma {:induction false} LetWriteReturn(c: Channel, i: nat, j: nat) returns (tr: seq<Channel>, ms: seq<Move>)
    requires Both(c, i, j) && !c.writers[i].done && |c.ring| + Rest(c, i) < RING_BUFFER_SIZE + Wants(c, j)
    ensures WriteReturns(c, i, j, tr, ms)
    decreases |c.ring| + Rest(c, i), if c.ring == [] then 1 else 0
  {
    StillOpen(c, i);
    var putting := |c.ring| + Rest(c, i) < RING_BUFFER_SIZE || c.ring == [];
    var m := if putting then WriterRuns(i) else ReaderRuns(j);
    var c1 := Burst(c, m);
    if putting { WriterMoves(c, i, j, c1); } else { ReaderMoves(c, i, j, c1); }
    tr, ms := [c1], [];
    if !c1.writers[i].done {
      tr, ms := LetWriteReturn(c1, i, j);
    }
    LeadsFirst(c, m, c1, tr, ms);
    tr, ms := [c] + tr, [m] + ms;
  }

  /** The reader cannot make room enough. */
  ghost predicate TooMuch(c: Channel, i: nat, j: nat) {
    Both(c, i, j) && !c.writers[i].done && |c.ring| + Rest(c, i) >= RING_BUFFER_SIZE + Wants(c, j)
  }

  lemma {:induction false} StaysTooMuch(c: Channel, i: nat, j: nat, tr: seq<Channel>, ms: seq<Move>, k: nat)
    requires TooMuch(c, i, j) && Leads(c, tr, ms) && OnlyThese(ms, i, j) && k < |tr|
    ensures TooMuch(tr[k], i, j)
  {
    if k > 0 {
      StaysTooMuch(c, i, j, tr, ms, k - 1);
      TooMuchNext(tr[k - 1], i, j, ms[k - 1], tr[k]);
    }
  }

  lemma TooMuchNext(c: Channel, i: nat, j: nat, m: Move, c': Channel)
    requires TooMuch(c, i, j) && Next(c, m, c') && (m == WriterRuns(i) || m == ReaderRuns(j))
    ensures TooMuch(c', i, j)
  {
    StillOpen(c, i);
    if m == WriterRuns(i) {
      WriterMoves(c, i, j, c');
    } else {
      ReaderMoves(c, i, j, c');
    }
  }

  /**
   A `write` that has not returned can be brought to return by its own bursts and those of one
   `read` if and only if what the ring holds and what is left to write are fewer bytes than the
   ring has cells and the read may take.
   */
  lemma WriteCanReturn(c: Channel, i: nat, j: nat)
    requires Both(c, i, j) && !c.writers[i].done
    ensures (exists tr, ms :: WriteReturns(c, i, j, tr, ms)) <==> |c.ring| + Rest(c, i) < RING_BUFFER_SIZE + Wants(c, j)
  {
    if |c.ring| + Rest(c, i) < RING_BUFFER_SIZE + Wants(c, j) {
      var tr, ms := LetWriteReturn(c, i, j);
    } else {
      forall tr, ms ensures !WriteReturns(c, i, j, tr, ms) {
        if WriteReturns(c, i, j, tr, ms) {
          StaysTooMuch(c, i, j, tr, ms, |ms|);
        }
      }
    }
  }

  // ---- When the read can return

  ghost predicate ReadReturns(c: Channel, i: nat, j: nat, tr: seq<Channel>, ms: seq<Move>) {
    Leads(c, tr, ms) && OnlyThese(ms, i, j) && j < |tr[|ms|].readers| && tr[|ms|].readers[j].done
  }

  lemma {:induction false} LetReadReturn(c: Channel, i: nat, j: nat) returns (tr: seq<Channel>, ms: seq<Move>)
    requires Both(c, i, j) && !c.readers[j].done && (!c.open || |c.ring| + Rest(c, i) > Wants(c, j))
    ensures ReadReturns(c, i, j, tr, ms)
    decreases Wants(c, j), RING_BUFFER_SIZE - |c.ring|
  {
    var taking := !c.open || |c.ring| > Wants(c, j) || |c.ring| == RING_BUFFER_SIZE;
    var m := if taking then ReaderRuns(j) else WriterRuns(i);
    var c1 := Burst(c, m);
    if taking { ReaderMoves(c, i, j, c1); } else { WriterMoves(c, i, j, c1); }
    tr, ms := [c1], [];
    if !c1.readers[j].done {
      tr, ms := LetReadReturn(c1, i, j);
    }
    LeadsFirst(c, m, c1, tr, ms);
    tr, ms := [c] + tr, [m] + ms;
  }

  /** The writer has no byte too many. */
  ghost predicate TooLittle(c: Channel, i: nat, j: nat) {
    Both(c, i, j) && !c.readers[j].done && c.open && |c.ring| + Rest(c, i) <= Wants(c, j)
  }

  lemma TooLittleNext(c: Channel, i: nat, j: nat, m: Move, c': Channel)
    requires TooLittle(c, i, j) && Next(c, m, c') && (m == WriterRuns(i) || m == ReaderRuns(j))
    ensures TooLittle(c', i, j)
  {
    if m == WriterRuns(i) {
      WriterMoves(c, i, j, c');
    } else {
      ReaderMoves(c, i, j, c');
    }
  }

  lemma {:induction false} StaysTooLittle(c: Channel, i: nat, j: nat, tr: seq<Channel>, ms: seq<Move>, k: nat)
    requires TooLittle(c, i, j) && Leads(c, tr, ms) && OnlyThese(ms, i, j) && k < |tr|
    ensures TooLittle(tr[k], i, j)
  {
    if k > 0 {
      StaysTooLittle(c, i, j, tr, ms, k - 1);
      TooLittleNext(tr[k - 1], i, j, ms[k - 1], tr[k]);
    }
  }

  /**
   A `read` that has not returned can be brought to return by its own bursts and those of one
   `write` if and only if no write end is open, or what the ring holds and what is left to write are
   more bytes than it still wants: exactly as many are not enough.
   */
  lemma ReadCanReturn(c: Channel, i: nat, j: nat)
    requires Both(c, i, j) && !c.readers[j].done
    ensures (exists tr, ms :: ReadReturns(c, i, j, tr, ms)) <==> !c.open || |c.ring| + Rest(c, i) > Wants(c, j)
  {
    if !c.open || |c.ring| + Rest(c, i) > Wants(c, j) {
      var tr, ms := LetReadReturn(c, i, j);
    } else {
      forall tr, ms ensures !ReadReturns(c, i, j, tr, ms) {
        if ReadReturns(c, i, j, tr, ms) {
          StaysTooLittle(c, i, j, tr, ms, |ms|);
        }
      }
    }
  }

  // ---- With help

  /** In every state of every run each `write` can return, if somebody comes and reads. */
  lemma EveryWriteCanReturn(tr: seq<Channel>, ms: seq<Move>, i: nat) returns (tr': seq<Channel>, ms': seq<Move>)
    requires Run(tr, ms) && i < |tr[|ms|].writers|
    ensures Leads(tr[|ms|], tr', ms') && i < |tr'[|ms'|].writers| && tr'[|ms'|].writers[i].done
  {
    var c := tr[|ms|];
    RunKeeps(tr, ms, |ms|);
    tr', ms' := [c], [];
    if !c.writers[i].done {
      var j, m := |c.readers|, NewRead(|c.ring| + Rest(c, i));
      var c1 := c.(readers := c.readers + [Reader(|c.ring| + Rest(c, i), [], false)]);
      assert Next(c, m, c1);
      StepKeeps(c, m, c1);
      tr', ms' := LetWriteReturn(c1, i, j);
      LeadsFirst(c, m, c1, tr', ms');
      tr', ms' := [c] + tr', [m] + ms';
    }
  }

  /** And each `read`, if somebody comes and writes one byte more than it wants, or the write ends are closed. */
  lemma EveryReadCanReturn(tr: seq<Channel>, ms: seq<Move>, j: nat) returns (tr': seq<Channel>, ms': seq<Move>)
    requires Run(tr, ms) && j < |tr[|ms|].readers|
    ensures Leads(tr[|ms|], tr', ms') && j < |tr'[|ms'|].readers| && tr'[|ms'|].readers[j].done
  {
    var c := tr[|ms|];
    RunKeeps(tr, ms, |ms|);
    tr', ms' := [c], [];
    if !c.readers[j].done && !c.open {
      var c1 := Burst(c, ReaderRuns(j));
      tr', ms' := [c, c1], [ReaderRuns(j)];
    } else if !c.readers[j].done {
      var data: seq<byte> := seq(Wants(c, j) + 1, _ => 0);
      var i, m, c1 := |c.writers|, NewWrite(data), c.(writers := c.writers + [Writer(data, 0, false)]);
      assert Next(c, m, c1);
      StepKeeps(c, m, c1);
      tr', ms' := LetReadReturn(c1, i, j);
      LeadsFirst(c, m, c1, tr', ms');
      tr', ms' := [c] + tr', [m] + ms';
    }
  }
}
