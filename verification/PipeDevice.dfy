/**
 The runs of a pipe on its ring buffer (os/src/fs/pipe.rs): the bursts of all its readers and
 writers work on head, tail and status of one `PipeRingBuffer`, and every sequence of them is a
 run of the channel, so what holds of all runs holds of the bytes in the ring.
 */
module PipeDevice {
  import opened Basics
  import opened Bytes
  import opened Pipe
  import opened PipeRuns
  import opened PipeProgress

  /** A burst has put the next bytes of a write behind those in the ring, as many as are left and fit into 32. */
  ghost predicate Put(w: Writer, ring: seq<byte>, w': Writer, ring': seq<byte>) {
    && w'.data == w.data && w.pos <= w'.pos <= |w.data|
    && ring' == ring + w.data[w.pos..w'.pos] && |ring'| == Min(32, |ring| + |w.data| - w.pos)
    && (w'.done <==> |ring| + |w.data| - w.pos < 32)
  }

  /** A burst has taken the first bytes of the ring into a read, as many as there are and are wanted. */
  ghost predicate Took(r: Reader, ring: seq<byte>, r': Reader, ring': seq<byte>, open: bool) {
    && r'.want == r.want && |ring'| <= |ring|
    && r.got + ring == r'.got + ring' && |r'.got| == Min(r.want, |r.got| + |ring|)
    && (r'.done <==> |r.got| + |ring| > r.want || !open)
  }

  lemma BurstPuts(c: Channel, i: nat, c': Channel)
    requires Valid(c) && Next(c, WriterRuns(i), c')
    ensures i < |c'.writers| && Put(c.writers[i], c.ring, c'.writers[i], c'.ring)
  {
  }

  lemma BurstTakes(c: Channel, j: nat, c': Channel)
    requires Valid(c) && Next(c, ReaderRuns(j), c')
    ensures j < |c'.readers| && Took(c.readers[j], c.ring, c'.readers[j], c'.ring, c'.open)
  {
    var n := ReadSize(c.ring, c.readers[j].want, |c.readers[j].got|);
    assert c.ring == c.ring[..n] + c.ring[n..];
  }

  class Device {
    const ring: PipeRingBuffer
    var open: bool
    var writers: seq<Writer>
    var readers: seq<Reader>
    ghost var sent: seq<byte>
    ghost var sentBy: seq<nat>
    ghost var taken: seq<byte>
    ghost var takenBy: seq<nat>

    /** The channel this device is, with what the ring holds between head and tail. */
    ghost function State(): Channel
      requires ring.Valid()
      reads this, ring, ring.arr
    {
      Channel(ring.Contents(), open, writers, readers, sent, sentBy, taken, takenBy)
    }

    ghost predicate Ok()
      reads this, ring, ring.arr
    {
      ring.Valid() && Valid(State())
    }

    /** `make_pipe`. */
    constructor ()
      ensures Ok() && Fresh(State()) && fresh(ring) && fresh(ring.arr)
    {
      ring := new PipeRingBuffer();
      open, writers, readers := true, [], [];
      sent, sentBy, taken, takenBy := [], [], [], [];
    }

    /** The move can be made: the call exists and has not returned; write ends are closed by those who no longer write. */
    predicate Legal(m: Move)
      reads this
    {
      match m
      case NewWrite(_) => open
      case NewRead(_) => true
      case WriterRuns(i) => i < |writers| && !writers[i].done
      case ReaderRuns(j) => j < |readers| && !readers[j].done
      case CloseWriteEnds => forall i :: 0 <= i < |writers| ==> writers[i].done
    }

    /** A move can be made exactly when the channel has one: the device makes every run of the channel. */
    lemma LegalExact(m: Move)
      requires Ok()
      ensures Legal(m) <==> exists c' :: Next(State(), m, c')
    {
      var c := State();
      if Legal(m) {
        match m
        case NewWrite(data) => assert Next(c, m, c.(writers := c.writers + [Writer(data, 0, false)]));
        case NewRead(want) => assert Next(c, m, c.(readers := c.readers + [Reader(want, [], false)]));
        case CloseWriteEnds => assert Next(c, m, c.(open := false));
        case _ => assert Next(c, m, Burst(c, m));
      }
    }

    method RunWriter(i: nat)
      requires Ok() && Legal(WriterRuns(i))
      modifies this, ring, ring.arr
      ensures ring.Valid() && ring.arr == old(ring.arr) && Next(old(State()), WriterRuns(i), State())
    {
      var w := writers[i];
      assert WriterOk(w, Of(sent, sentBy, i), open);
      var pos, done := ring.WriteBurst(w.data, w.pos);
      writers := writers[i := Writer(w.data, pos, done)];
      sent, sentBy := sent + w.data[w.pos..pos], sentBy + Repeat(i, pos - w.pos);
    }

    method RunReader(j: nat)
      requires Ok() && Legal(ReaderRuns(j))
      modifies this, ring, ring.arr
      ensures ring.Valid() && ring.arr == old(ring.arr) && Next(old(State()), ReaderRuns(j), State())
    {
      var r := readers[j];
      assert ReaderOk(r, Of(taken, takenBy, j), !open && ring.Contents() == []);
      ghost var n := ReadSize(ring.Contents(), r.want, |r.got|);
      taken, takenBy := taken + ring.Contents()[..n], takenBy + Repeat(j, n);
      var got, done := ring.ReadBurst(r.want, r.got, !open);
      readers := readers[j := Reader(r.want, got, done)];
    }

    /**
     One move: a call begins with the bytes or the length it is made with, or one burst of a call
     moves as many bytes as it can between the call and the ring.
     */
    method Perform(m: Move)
      requires Ok() && Legal(m)
      modifies this, ring, ring.arr
      ensures Ok() && ring.arr == old(ring.arr) && Next(old(State()), m, State())
      ensures m.NewWrite? ==> writers == old(writers) + [Writer(m.data, 0, false)]
      ensures m.NewRead? ==> readers == old(readers) + [Reader(m.want, [], false)]
      ensures m.WriterRuns? ==> m.i < |writers| && Put(old(writers[m.i]), old(ring.Contents()), writers[m.i], ring.Contents())
      ensures m.ReaderRuns? ==> m.j < |readers| && Took(old(readers[m.j]), old(ring.Contents()), readers[m.j], ring.Contents(), open)
      ensures !m.WriterRuns? && !m.NewWrite? ==> writers == old(writers)
      ensures !m.ReaderRuns? && !m.NewRead? ==> readers == old(readers)
      ensures !m.WriterRuns? && !m.ReaderRuns? ==> ring.Contents() == old(ring.Contents())
    {
      ghost var c := State();
      match m {
        case NewWrite(data) => writers := writers + [Writer(data, 0, false)];
        case NewRead(want) => readers := readers + [Reader(want, [], false)];
        case WriterRuns(i) => RunWriter(i);
        case ReaderRuns(j) => RunReader(j);
        case CloseWriteEnds => open := false;
      }
      StepKeeps(c, m, State());
      if m.WriterRuns? {
        BurstPuts(c, m.i, State());
      } else if m.ReaderRuns? {
        BurstTakes(c, m.j, State());
      }
    }
  }

  /** The moves `ms` in turn, up to the first that cannot be made. */
  method MakeMoves(p: Device, ms: seq<Move>) returns (done: nat, ghost tr: seq<Channel>)
    requires p.Ok() && Fresh(p.State())
    modifies p, p.ring, p.ring.arr
    ensures done <= |ms| && (done < |ms| ==> !p.Legal(ms[done]))
    ensures p.Ok() && Run(tr, ms[..done]) && tr[done] == p.State()
  {
    done, tr := 0, [p.State()];
    while done < |ms| && p.Legal(ms[done])
      invariant done <= |ms| && p.Ok() && p.ring.arr == old(p.ring.arr)
      invariant Run(tr, ms[..done]) && tr[done] == p.State()
    {
      p.Perform(ms[done]);
      RunAppend(tr, ms, done, p.State());
      tr := tr + [p.State()];
      done := done + 1;
    }
  }

  /**
   Whatever the readers and writers of a new pipe do, in whatever order, up to the first move that
   cannot be made: what was written is what was read followed by what the ring holds. The writes are
   those begun by the moves `wrote`, in order, and each has put in a prefix of the bytes it was
   called with, all of them if it has returned. The reads are those begun by the moves `asked`, and
   each has got exactly what came out while it ran, short of what it asked for only at the end of it all.
   */
  method RunPipe(ms: seq<Move>)
    returns (p: Device, done: nat, ghost tr: seq<Channel>, ghost wrote: seq<nat>, ghost asked: seq<nat>)
    ensures done <= |ms| && (done < |ms| ==> !p.Legal(ms[done]))
    ensures p.Ok() && Run(tr, ms[..done]) && tr[done] == p.State()
    ensures p.sent == p.taken + p.ring.Contents() && |p.ring.Contents()| <= 32
    ensures p.open <==> CloseWriteEnds !in ms[..done]
    ensures |wrote| == |p.writers| && (forall i, k :: 0 <= i < k < |wrote| ==> wrote[i] < wrote[k])
    ensures forall q :: 0 <= q < done && ms[q].NewWrite? ==> q in wrote
    ensures forall i :: 0 <= i < |wrote| ==>
              && wrote[i] < done && ms[wrote[i]].NewWrite? && ms[wrote[i]].data == p.writers[i].data
              && Of(p.sent, p.sentBy, i) <= ms[wrote[i]].data
              && (p.writers[i].done ==> Of(p.sent, p.sentBy, i) == ms[wrote[i]].data)
    ensures |asked| == |p.readers| && (forall j, k :: 0 <= j < k < |asked| ==> asked[j] < asked[k])
    ensures forall q :: 0 <= q < done && ms[q].NewRead? ==> q in asked
    ensures forall j :: 0 <= j < |asked| ==>
              && asked[j] < done && ms[asked[j]].NewRead? && ms[asked[j]].want == p.readers[j].want
              && Of(p.taken, p.takenBy, j) == p.readers[j].got && |p.readers[j].got| <= ms[asked[j]].want
              && (p.readers[j].done && |p.readers[j].got| < ms[asked[j]].want ==> !p.open && p.taken == p.sent)
  {
    p := new Device();
    done, tr := MakeMoves(p, ms);
    wrote, asked := Outcome(tr, ms[..done], p.State());
  }

  lemma RunAppend(tr: seq<Channel>, ms: seq<Move>, k: nat, c: Channel)
    requires k < |ms| && Run(tr, ms[..k]) && Next(tr[k], ms[k], c)
    ensures Run(tr + [c], ms[..k + 1])
  {
  }

  lemma Outcome(tr: seq<Channel>, ms: seq<Move>, c: Channel) returns (wrote: seq<nat>, asked: seq<nat>)
    requires Run(tr, ms) && tr[|ms|] == c
    ensures c.sent == c.taken + c.ring && |c.sent| == |c.sentBy| && |c.taken| == |c.takenBy|
    ensures WritesBegun(ms, wrote, c.writers) && ReadsBegun(ms, asked, c.readers) && (c.open <==> CloseWriteEnds !in ms)
    ensures forall i :: 0 <= i < |c.writers| ==>
              && Of(c.sent, c.sentBy, i) <= c.writers[i].data
              && (c.writers[i].done ==> Of(c.sent, c.sentBy, i) == c.writers[i].data)
    ensures forall j :: 0 <= j < |c.readers| ==>
              && Of(c.taken, c.takenBy, j) == c.readers[j].got && |c.readers[j].got| <= c.readers[j].want
              && (c.readers[j].done && |c.readers[j].got| < c.readers[j].want ==> !c.open && c.taken == c.sent)
  {
    Conserved(tr, ms, |ms|);
    RunKeeps(tr, ms, |ms|);
    assert ms[..|ms|] == ms;
    wrote, asked := CallsBegun(tr, ms, |ms|);
    forall i | 0 <= i < |c.writers|
      ensures Of(c.sent, c.sentBy, i) <= c.writers[i].data
      ensures c.writers[i].done ==> Of(c.sent, c.sentBy, i) == c.writers[i].data
    {
      WritesInOrder(tr, ms, |ms|, i);
    }
    forall j | 0 <= j < |c.readers|
      ensures Of(c.taken, c.takenBy, j) == c.readers[j].got && |c.readers[j].got| <= c.readers[j].want
      ensures c.readers[j].done && |c.readers[j].got| < c.readers[j].want ==> !c.open && c.taken == c.sent
    {
      ReadsInOrder(tr, ms, |ms|, j);
      assert ReaderOk(c.readers[j], Of(c.taken, c.takenBy, j), !c.open && c.ring == []);
    }
  }
}
