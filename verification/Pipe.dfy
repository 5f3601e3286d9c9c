/**
 Pipes (os/src/fs/pipe.rs): a ring buffer of 32 bytes, and the reading and writing loops that
 give up the processor between bursts.
 */
module Pipe {
  import opened Bytes

  const RING_BUFFER_SIZE: nat := 32

  datatype Status = Full | Empty | Normal

  /** The index `i` places after `head`. */
  function At(head: nat, i: nat): nat {
    if head + i < RING_BUFFER_SIZE then head + i else head + i - RING_BUFFER_SIZE
  }

  /** The `n` cells from `head` on. */
  ghost function Unrolled(cells: seq<byte>, head: nat, n: nat): (s: seq<byte>)
    requires |cells| == RING_BUFFER_SIZE && head < RING_BUFFER_SIZE && n <= RING_BUFFER_SIZE
    ensures |s| == n
  {
    seq(n, i requires 0 <= i < n => cells[At(head, i)])
  }

  /** The bytes a write burst puts into a ring holding `ring`: as many as are left and fit. */
  function WriteSize(ring: seq<byte>, data: seq<byte>, pos: nat): (n: nat)
    requires |ring| <= RING_BUFFER_SIZE && pos <= |data|
    ensures pos + n <= |data| && |ring| + n <= RING_BUFFER_SIZE
  {
    var room, rest := RING_BUFFER_SIZE - |ring|, |data| - pos;
    if room < rest then room else rest
  }

  /** The bytes a read burst takes out of it: as many as there are and are wanted. */
  function ReadSize(ring: seq<byte>, want: nat, got: nat): (n: nat)
    requires got <= want
    ensures n <= |ring| && got + n <= want
  {
    if |ring| < want - got then |ring| else want - got
  }

  class PipeRingBuffer {
    var arr: array<byte>
    var head: nat
    var tail: nat
    var status: Status

    ghost predicate Valid()
      reads this
    {
      && arr.Length == RING_BUFFER_SIZE && head < RING_BUFFER_SIZE && tail < RING_BUFFER_SIZE
      && (head == tail <==> status != Normal)
    }

    function Length(): (n: nat)
      requires Valid()
      reads this
      ensures n <= RING_BUFFER_SIZE && tail == At(head, n)
    {
      match status
      case Empty => 0
      case Full => RING_BUFFER_SIZE
      case Normal => if tail > head then tail - head else tail + RING_BUFFER_SIZE - head
    }

    ghost function Contents(): (s: seq<byte>)
      requires Valid()
      reads this, arr
      ensures |s| == Length()
    {
      Unrolled(arr[..], head, Length())
    }

    constructor ()
      ensures Valid() && fresh(arr) && Contents() == []
    {
      arr := new byte[RING_BUFFER_SIZE](_ => 0);
      head, tail, status := 0, 0, Empty;
    }

    /** On a full ring the byte overwrites the oldest, and is then all there is. */
    method WriteByte(b: byte)
      requires Valid()
      modifies this, arr
      ensures Valid() && arr == old(arr)
      ensures Contents() == if old(status).Full? then [b] else old(Contents()) + [b]
    {
      status := Normal;
      arr[tail] := b;
      tail := (tail + 1) % RING_BUFFER_SIZE;
      if tail == head {
        status := Full;
      }
    }

    /** On an empty ring a stale byte is returned and 31 more appear. */
    method ReadByte() returns (b: byte)
      requires Valid()
      modifies this
      ensures Valid() && arr == old(arr)
      ensures if old(status).Empty? then |Contents()| == RING_BUFFER_SIZE - 1 else old(Contents()) == [b] + Contents()
    {
      status := Normal;
      b := arr[head];
      head := (head + 1) % RING_BUFFER_SIZE;
      if head == tail {
        status := Empty;
      }
    }

    method AvailableRead() returns (n: nat)
      requires Valid()
      ensures n == |Contents()|
    {
      if status == Empty {
        n := 0;
      } else if tail > head {
        n := tail - head;
      } else {
        n := tail + RING_BUFFER_SIZE - head;
      }
    }

    method AvailableWrite() returns (n: nat)
      requires Valid()
      ensures n == RING_BUFFER_SIZE - |Contents()|
    {
      if status == Full {
        n := 0;
      } else {
        var r := AvailableRead();
        n := RING_BUFFER_SIZE - r;
      }
    }

    /** The loop of `write`, from taking the buffer to suspending (`!done`) or returning. */
    method WriteBurst(data: seq<byte>, pos: nat) returns (pos': nat, done: bool)
      requires Valid() && pos <= |data|
      modifies this, arr
      ensures Valid() && arr == old(arr)
      ensures pos' == pos + WriteSize(old(Contents()), data, pos)
      ensures Contents() == old(Contents()) + data[pos..pos']
      ensures done <==> RING_BUFFER_SIZE - |old(Contents())| > |data| - pos
    {
      pos' := pos;
      var loopWrite := AvailableWrite();
      var i := 0;
      while i < loopWrite
        invariant 0 <= i <= loopWrite && Valid() && arr == old(arr)
        invariant pos' == pos + i <= |data|
        invariant Contents() == old(Contents()) + data[pos..pos']
      {
        if pos' == |data| {
          return pos', true;
        }
        WriteByte(data[pos']);
        pos', i := pos' + 1, i + 1;
      }
      done := false;
    }

    /** The loop of `read`, from taking the buffer to suspending (`!done`) or returning. */
    method ReadBurst(want: nat, got: seq<byte>, closed: bool) returns (got': seq<byte>, done: bool)
      requires Valid() && |got| <= want
      modifies this
      ensures Valid() && arr == old(arr)
      ensures var n := ReadSize(old(Contents()), want, |got|);
              got' == got + old(Contents())[..n] && Contents() == old(Contents())[n..]
      ensures done <==> |old(Contents())| > want - |got| || closed
    {
      got' := got;
      var loopRead := AvailableRead();
      var i := 0;
      while i < loopRead
        invariant 0 <= i <= loopRead == |old(Contents())| && Valid() && arr == old(arr)
        invariant |got| + i <= want
        invariant got' == got + old(Contents())[..i] && Contents() == old(Contents())[i..]
      {
        if |got'| == want {
          return got', true;
        }
        var b := ReadByte();
        got', i := got' + [b], i + 1;
      }
      // The ring is empty now: `read` ends if there is nobody left to fill it.
      done := closed;
    }
  }
}
