/**
 A pipe shared by any number of readers and writers: their calls run in bursts, in any order the
 scheduler likes. Every byte written arrives exactly once and in order.
 */
module PipeRuns {
  import opened Bytes
  import opened Pipe

  datatype Writer = Writer(data: seq<byte>, pos: nat, done: bool)
  datatype Reader = Reader(want: nat, got: seq<byte>, done: bool)

  /**
   `open` as long as some write end is. The rest is history: the bytes that went into the ring
   and those that came out, each with the number of the call it belongs to.
   */
  datatype Channel = Channel(ring: seq<byte>, open: bool, writers: seq<Writer>, readers: seq<Reader>,
                             sent: seq<byte>, sentBy: seq<nat>, taken: seq<byte>, takenBy: seq<nat>)

  datatype Move =
    | NewWrite(data: seq<byte>)
    | NewRead(want: nat)
    | WriterRuns(i: nat)
    | ReaderRuns(j: nat)
    | CloseWriteEnds

  function Repeat(i: nat, n: nat): (r: seq<nat>)
    ensures |r| == n && forall k :: 0 <= k < n ==> r[k] == i
  {
    seq(n, _ => i)
  }

  ghost predicate Next(c: Channel, m: Move, c': Channel) {
    match m
    case NewWrite(data) => c.open && c' == c.(writers := c.writers + [Writer(data, 0, false)])
    case NewRead(want) => c' == c.(readers := c.readers + [Reader(want, [], false)])
    case WriterRuns(i) =>
      && i < |c.writers| && !c.writers[i].done && |c.ring| <= RING_BUFFER_SIZE && c.writers[i].pos <= |c.writers[i].data|
      && var w := c.writers[i];
         var n := WriteSize(c.ring, w.data, w.pos);
         var done := RING_BUFFER_SIZE - |c.ring| > |w.data| - w.pos;
         var bytes := w.data[w.pos..w.pos + n];
         c' == c.(ring := c.ring + bytes, writers := c.writers[i := Writer(w.data, w.pos + n, done)],
                  sent := c.sent + bytes, sentBy := c.sentBy + Repeat(i, n))
    case ReaderRuns(j) =>
      && j < |c.readers| && !c.readers[j].done && |c.readers[j].got| <= c.readers[j].want
      && var r := c.readers[j];
         var n := ReadSize(c.ring, r.want, |r.got|);
         var done := |c.ring| > r.want - |r.got| || !c.open;
         c' == c.(ring := c.ring[n..], readers := c.readers[j := Reader(r.want, r.got + c.ring[..n], done)],
                  taken := c.taken + c.ring[..n], takenBy := c.takenBy + Repeat(j, n))
    case CloseWriteEnds =>
      (forall i :: 0 <= i < |c.writers| ==> c.writers[i].done) && c' == c.(open := false)
  }

  /** The bytes of call `i`, in order. */
  function Of(bytes: seq<byte>, tags: seq<nat>, i: nat): seq<byte>
    requires |bytes| == |tags|
  {
    if bytes == [] then []
    else
      var n := |bytes| - 1;
      Of(bytes[..n], tags[..n], i) + if tags[n] == i then [bytes[n]] else []
  }

  lemma {:induction false} OfAppend(bytes: seq<byte>, tags: seq<nat>, more: seq<byte>, k: nat, i: nat)
    requires |bytes| == |tags|
    ensures Of(bytes + more, tags + Repeat(k, |more|), i) == Of(bytes, tags, i) + if k == i then more else []
  {
    var n := |more| - 1;
    if more == [] {
      assert bytes + more == bytes && tags + Repeat(k, 0) == tags;
    } else {
      OfAppend(bytes, tags, more[..n], k, i);
      assert (bytes + more)[..|bytes| + n] == bytes + more[..n];
      assert (tags + Repeat(k, |more|))[..|tags| + n] == tags + Repeat(k, n);
      assert more == more[..n] + [more[n]];
    }
  }

  /** A writer, the bytes of its call that went into the ring, and whether a write end is open. */
  predicate WriterOk(w: Writer, own: seq<byte>, open: bool) {
    w.pos <= |w.data| && own == w.data[..w.pos] && (w.done ==> w.pos == |w.data|) && (!open ==> w.done)
  }

  /** A reader and the bytes of its call that came out; `over` when no write end is open and the ring is empty. */
  predicate ReaderOk(r: Reader, own: seq<byte>, over: bool) {
    |r.got| <= r.want && own == r.got && (r.done ==> |r.got| == r.want || over)
  }

  ghost predicate Valid(c: Channel) {
    && |c.ring| <= RING_BUFFER_SIZE && c.sent == c.taken + c.ring
    && |c.sent| == |c.sentBy| && |c.taken| == |c.takenBy|
    && (forall k :: 0 <= k < |c.sentBy| ==> c.sentBy[k] < |c.writers|)
    && (forall k :: 0 <= k < |c.takenBy| ==> c.takenBy[k] < |c.readers|)
    && (forall i :: 0 <= i < |c.writers| ==> WriterOk(c.writers[i], Of(c.sent, c.sentBy, i), c.open))
    && (forall j :: 0 <= j < |c.readers| ==> ReaderOk(c.readers[j], Of(c.taken, c.takenBy, j), !c.open && c.ring == []))
  }

  /** Nobody wrote as a call that does not exist yet. */
  lemma {:induction false} OfNobody(bytes: seq<byte>, tags: seq<nat>, i: nat)
    requires |bytes| == |tags| && forall k :: 0 <= k < |tags| ==> tags[k] != i
    ensures Of(bytes, tags, i) == []
  {
    if bytes != [] {
      OfNobody(bytes[..|bytes| - 1], tags[..|bytes| - 1], i);
    }
  }

  lemma WriterAdvance(w: Writer, own: seq<byte>, open: bool, ring: seq<byte>)
    requires WriterOk(w, own, open) && !w.done && |ring| <= RING_BUFFER_SIZE
    ensures var n := WriteSize(ring, w.data, w.pos);
            WriterOk(Writer(w.data, w.pos + n, RING_BUFFER_SIZE - |ring| > |w.data| - w.pos), own + w.data[w.pos..w.pos + n], open)
  {
  }

  lemma WritersAfter(c: Channel, i: nat, c': Channel)
    requires Valid(c) && Next(c, WriterRuns(i), c')
    ensures |c'.sent| == |c'.sentBy| && forall k :: 0 <= k < |c'.writers| ==> WriterOk(c'.writers[k], Of(c'.sent, c'.sentBy, k), c'.open)
  {
    var w, n := c.writers[i], WriteSize(c.ring, c.writers[i].data, c.writers[i].pos);
    WriterAdvance(w, Of(c.sent, c.sentBy, i), c.open, c.ring);
    forall k | 0 <= k < |c'.writers| ensures WriterOk(c'.writers[k], Of(c'.sent, c'.sentBy, k), c'.open) {
      OfAppend(c.sent, c.sentBy, w.data[w.pos..w.pos + n], i, k);
      assert k != i ==> c'.writers[k] == c.writers[k];
    }
  }

  lemma WriterStep(c: Channel, i: nat, c': Channel)
    requires Valid(c) && Next(c, WriterRuns(i), c')
    ensures Valid(c')
  {
    WritersAfter(c, i, c');
    assert c'.sent == c'.taken + c'.ring;
    assert forall k :: 0 <= k < |c'.sentBy| ==> c'.sentBy[k] < |c'.writers|;
    assert c'.ring == [] ==> c.ring == [];
  }

  lemma ReaderStep(c: Channel, j: nat, c': Channel)
    requires Valid(c) && Next(c, ReaderRuns(j), c')
    ensures Valid(c')
  {
    var r := c.readers[j];
    var n := ReadSize(c.ring, r.want, |r.got|);
    forall k | 0 <= k < |c'.readers| ensures ReaderOk(c'.readers[k], Of(c'.taken, c'.takenBy, k), !c'.open && c'.ring == []) {
      OfAppend(c.taken, c.takenBy, c.ring[..n], j, k);
    }
    assert c.ring == c.ring[..n] + c.ring[n..];
    assert c'.sent == c'.taken + c'.ring;
  }

  lemma StartWrite(c: Channel, data: seq<byte>, c': Channel)
    requires Valid(c) && Next(c, NewWrite(data), c')
    ensures Valid(c')
  {
    OfNobody(c.sent, c.sentBy, |c.writers|);
    forall i | 0 <= i < |c'.writers| ensures WriterOk(c'.writers[i], Of(c'.sent, c'.sentBy, i), c'.open) {
      if i < |c.writers| { assert c'.writers[i] == c.writers[i]; }
    }
  }

  lemma StartRead(c: Channel, want: nat, c': Channel)
    requires Valid(c) && Next(c, NewRead(want), c')
    ensures Valid(c')
  {
    OfNobody(c.taken, c.takenBy, |c.readers|);
    forall j | 0 <= j < |c'.readers| ensures ReaderOk(c'.readers[j], Of(c'.taken, c'.takenBy, j), !c'.open && c'.ring == []) {
      if j < |c.readers| { assert c'.readers[j] == c.readers[j]; }
    }
  }

  lemma EndsClosed(c: Channel, c': Channel)
    requires Valid(c) && Next(c, CloseWriteEnds, c')
    ensures Valid(c')
  {
    forall j | 0 <= j < |c'.readers| ensures ReaderOk(c'.readers[j], Of(c'.taken, c'.takenBy, j), !c'.open && c'.ring == []) {
      assert ReaderOk(c.readers[j], Of(c.taken, c.takenBy, j), !c.open && c.ring == []);
    }
  }

  lemma StepKeeps(c: Channel, m: Move, c': Channel)
    requires Valid(c) && Next(c, m, c')
    ensures Valid(c')
  {
    match m
    case WriterRuns(i) => WriterStep(c, i, c');
    case ReaderRuns(j) => ReaderStep(c, j, c');
    case NewWrite(data) => StartWrite(c, data, c');
    case NewRead(want) => StartRead(c, want, c');
    case CloseWriteEnds => EndsClosed(c, c');
  }

  /** What `make_pipe` returns. */
  predicate Fresh(c: Channel) {
    c == Channel([], true, [], [], [], [], [], [])
  }

  ghost predicate Run(tr: seq<Channel>, ms: seq<Move>) {
    |tr| == |ms| + 1 && Fresh(tr[0]) && forall k :: 0 <= k < |ms| ==> Next(tr[k], ms[k], tr[k + 1])
  }

  lemma {:induction false} RunKeeps(tr: seq<Channel>, ms: seq<Move>, k: nat)
    requires Run(tr, ms) && k < |tr|
    ensures Valid(tr[k])
  {
    if k > 0 {
      RunKeeps(tr, ms, k - 1);
      StepKeeps(tr[k - 1], ms[k - 1], tr[k]);
    }
  }

  // ---- Calls and the moves that began them

  ghost predicate Rising(at: seq<nat>) {
    forall i, j :: 0 <= i < j < |at| ==> at[i] < at[j]
  }

  /** The writes `ws` are those the moves began, in order: write `i` by move `at[i]`. */
  ghost predicate WritesBegun(ms: seq<Move>, at: seq<nat>, ws: seq<Writer>) {
    && |at| == |ws| && Rising(at)
    && (forall i :: 0 <= i < |at| ==> at[i] < |ms| && ms[at[i]] == NewWrite(ws[i].data))
    && forall q :: 0 <= q < |ms| && ms[q].NewWrite? ==> q in at
  }

  ghost predicate ReadsBegun(ms: seq<Move>, at: seq<nat>, rs: seq<Reader>) {
    && |at| == |rs| && Rising(at)
    && (forall j :: 0 <= j < |at| ==> at[j] < |ms| && ms[at[j]] == NewRead(rs[j].want))
    && forall q :: 0 <= q < |ms| && ms[q].NewRead? ==> q in at
  }

  lemma WriteBegins(ms: seq<Move>, at: seq<nat>, ws: seq<Writer>, m: Move, ws': seq<Writer>) returns (at': seq<nat>)
    requires WritesBegun(ms, at, ws) && |ws'| == |ws| + (if m.NewWrite? then 1 else 0)
    requires forall i :: 0 <= i < |ws| ==> ws'[i].data == ws[i].data
    requires m.NewWrite? ==> ws'[|ws|].data == m.data
    ensures WritesBegun(ms + [m], at', ws')
  {
    var all := ms + [m];
    assert all[|ms|] == m && forall q :: 0 <= q < |ms| ==> all[q] == ms[q];
    at' := at;
    if m.NewWrite? {
      at' := at + [|ms|];
      assert at'[|at|] == |ms|;
    }
    forall i | 0 <= i < |at'| ensures at'[i] < |all| && all[at'[i]] == NewWrite(ws'[i].data) {
      if i < |at| { assert at'[i] == at[i]; }
    }
    forall q | 0 <= q < |all| && all[q].NewWrite? ensures q in at' {
      if q < |ms| { assert q in at; }
    }
  }

  lemma ReadBegins(ms: seq<Move>, at: seq<nat>, rs: seq<Reader>, m: Move, rs': seq<Reader>) returns (at': seq<nat>)
    requires ReadsBegun(ms, at, rs) && |rs'| == |rs| + (if m.NewRead? then 1 else 0)
    requires forall j :: 0 <= j < |rs| ==> rs'[j].want == rs[j].want
    requires m.NewRead? ==> rs'[|rs|].want == m.want
    ensures ReadsBegun(ms + [m], at', rs')
  {
    var all := ms + [m];
    assert all[|ms|] == m && forall q :: 0 <= q < |ms| ==> all[q] == ms[q];
    at' := at;
    if m.NewRead? {
      at' := at + [|ms|];
      assert at'[|at|] == |ms|;
    }
    forall j | 0 <= j < |at'| ensures at'[j] < |all| && all[at'[j]] == NewRead(rs'[j].want) {
      if j < |at| { assert at'[j] == at[j]; }
    }
    forall q | 0 <= q < |all| && all[q].NewRead? ensures q in at' {
      if q < |ms| { assert q in at; }
    }
  }

  /** The calls on a pipe are those begun by the moves, with their bytes and lengths, and a write end is open until they are closed. */
  lemma {:induction false} CallsBegun(tr: seq<Channel>, ms: seq<Move>, k: nat) returns (wrote: seq<nat>, asked: seq<nat>)
    requires Run(tr, ms) && k < |tr|
    ensures WritesBegun(ms[..k], wrote, tr[k].writers) && ReadsBegun(ms[..k], asked, tr[k].readers)
    ensures tr[k].open <==> CloseWriteEnds !in ms[..k]
  {
    if k == 0 {
      wrote, asked := [], [];
    } else {
      var w, a := CallsBegun(tr, ms, k - 1);
      assert ms[..k] == ms[..k - 1] + [ms[k - 1]];
      wrote := WriteBegins(ms[..k - 1], w, tr[k - 1].writers, ms[k - 1], tr[k].writers);
      asked := ReadBegins(ms[..k - 1], a, tr[k - 1].readers, ms[k - 1], tr[k].readers);
    }
  }

  // ---- What it means

  /** Nothing is lost, duplicated or reordered between the two ends, and the ring never overflows. */
  lemma Conserved(tr: seq<Channel>, ms: seq<Move>, k: nat)
    requires Run(tr, ms) && k < |tr|
    ensures tr[k].sent == tr[k].taken + tr[k].ring && |tr[k].ring| <= RING_BUFFER_SIZE
  {
    RunKeeps(tr, ms, k);
  }

  /** The bytes of a `write` go into the ring in order, each once; when it has returned all of them have. */
  lemma WritesInOrder(tr: seq<Channel>, ms: seq<Move>, k: nat, i: nat)
    requires Run(tr, ms) && k < |tr| && i < |tr[k].writers|
    ensures |tr[k].sent| == |tr[k].sentBy| && Of(tr[k].sent, tr[k].sentBy, i) <= tr[k].writers[i].data
    ensures tr[k].writers[i].done ==> Of(tr[k].sent, tr[k].sentBy, i) == tr[k].writers[i].data
  {
    RunKeeps(tr, ms, k);
  }

  /** A `read` has got the bytes that came out while it ran, and when it returns short, it has seen the end. */
  lemma ReadsInOrder(tr: seq<Channel>, ms: seq<Move>, k: nat, j: nat)
    requires Run(tr, ms) && k < |tr| && j < |tr[k].readers|
    ensures var r := tr[k].readers[j]; |tr[k].taken| == |tr[k].takenBy| && Of(tr[k].taken, tr[k].takenBy, j) == r.got
    ensures var r := tr[k].readers[j]; r.done && |r.got| < r.want ==> !tr[k].open && tr[k].taken == tr[k].sent
  {
    RunKeeps(tr, ms, k);
    assert tr[k].taken + [] == tr[k].taken;
  }

  lemma {:induction false} OfOnly(bytes: seq<byte>, tags: seq<nat>)
    requires |bytes| == |tags| && forall k :: 0 <= k < |tags| ==> tags[k] == 0
    ensures Of(bytes, tags, 0) == bytes
  {
    if bytes != [] {
      OfOnly(bytes[..|bytes| - 1], tags[..|bytes| - 1]);
    }
  }

  /** With one call at each end, what is read and what is in the ring make up what has been written so far. */
  lemma OneToOne(tr: seq<Channel>, ms: seq<Move>, k: nat)
    requires Run(tr, ms) && k < |tr| && |tr[k].writers| == 1 && |tr[k].readers| == 1
    ensures var w := tr[k].writers[0]; w.pos <= |w.data| && tr[k].readers[0].got + tr[k].ring == w.data[..w.pos]
  {
    RunKeeps(tr, ms, k);
    OfOnly(tr[k].sent, tr[k].sentBy);
    OfOnly(tr[k].taken, tr[k].takenBy);
  }
}
