/** Reading and writing a pipe: its circular buffer, and what the two ends decide (kernel/fs/pipe.c). */
module Pipes {
  import opened Tiny
  import Files
  import FileLeaks

  const SIZE := 4096

  /** What a read or write comes back with. */
  datatype Result = Done(n: nat) | Again

  /** The buffered bytes, oldest first. */
  function Queue(buf: seq<byte>, tail: nat, count: nat): seq<byte>
    requires |buf| == SIZE
  {
    seq(count, i requires 0 <= i < count => buf[(tail + i) % SIZE])
  }

  lemma QueueLen(buf: seq<byte>, tail: nat, count: nat)
    requires |buf| == SIZE
    ensures |Queue(buf, tail, count)| == count
  {
  }

  lemma QueueTake(buf: seq<byte>, tail: nat, count: nat)
    requires |buf| == SIZE && tail < SIZE && 0 < count <= SIZE
    ensures Queue(buf, tail, count) == [buf[tail]] + Queue(buf, (tail + 1) % SIZE, count - 1)
  {
    var a, b := Queue(buf, tail, count), Queue(buf, (tail + 1) % SIZE, count - 1);
    forall i | 0 <= i < count - 1
      ensures a[i + 1] == b[i]
    {
      Around(tail, i);
    }
  }

  lemma Around(tail: nat, i: nat)
    requires tail < SIZE && i < SIZE
    ensures (tail + (i + 1)) % SIZE == ((tail + 1) % SIZE + i) % SIZE
  {
  }

  lemma QueuePut(buf: seq<byte>, tail: nat, count: nat, head: nat, x: byte)
    requires |buf| == SIZE && tail < SIZE && count < SIZE && head == (tail + count) % SIZE
    ensures Queue(buf[head := x], tail, count + 1) == Queue(buf, tail, count) + [x]
  {
    var a, b := Queue(buf[head := x], tail, count + 1), Queue(buf, tail, count);
    forall i | 0 <= i < count
      ensures a[i] == b[i]
    {
      assert (tail + i) % SIZE != head;
    }
  }

  // ----- what the ends decide -----

  /** The test pipe_write makes first: the read end is there and nothing refers to it. */
  predicate Guard(s: Files.Sys, p: nat)
    requires p < |s.pipes|
  {
    var r := s.pipes[p].r;
    0 <= r < |s.files| && s.files[r].refs <= 0
  }

  function Min(a: nat, b: nat): nat
  {
    if a < b then a else b
  }

  /** What pipe_read returns when `q` is buffered: an empty pipe is end of file only if no writer is left. */
  function ReadResult(s: Files.Sys, p: nat, q: seq<byte>, len: nat): Result
    requires p < |s.pipes|
  {
    var n := Min(len, |q|);
    if n == 0 && !Files.Eof(s, p) then Again else Done(n)
  }

  /** How many bytes pipe_write appends, and what it returns. */
  function Appends(s: Files.Sys, p: nat, q: seq<byte>, data: seq<byte>): nat
    requires p < |s.pipes| && |q| <= SIZE
  {
    if Guard(s, p) then 0 else Min(|data|, SIZE - |q|)
  }

  function WriteResult(s: Files.Sys, p: nat, q: seq<byte>, data: seq<byte>): Result
    requires p < |s.pipes| && |q| <= SIZE
  {
    var n := Appends(s, p, q, data);
    if n == 0 && !Guard(s, p) then Again else Done(n)
  }

  /** Descriptor `i` of task `t` names the write end of pipe `p`. */
  predicate Writes(s: Files.Sys, t: nat, i: nat, p: nat)
  {
    Files.Named(s, t, i) && s.files[s.tabs[t][i]].kind == Files.WriteEnd(p)
  }

  /** While any descriptor of any task names the write end, no read of the pipe returns end of file. */
  lemma ReadNotEof(s: Files.Sys, t: nat, i: nat, p: nat, q: seq<byte>, len: nat)
    requires Files.Inv(s) && Writes(s, t, i, p)
    ensures p < |s.pipes| && ReadResult(s, p, q, len) != Done(0)
  {
    Files.NoEarlyEof(s, t, i);
  }

  /** While nothing has leaked, a pipe is at end of file exactly when no descriptor names its write end. */
  lemma EofExact(s: Files.Sys, p: nat)
    requires Files.Inv(s) && FileLeaks.Exact(s) && FileLeaks.Pairs(s) && p < |s.pipes|
    ensures Files.Eof(s, p) <==> forall t: nat, i: nat :: !Writes(s, t, i, p)
  {
    if t: nat, i: nat :| Writes(s, t, i, p) { Files.NoEarlyEof(s, t, i); }
    if !Files.Eof(s, p) && forall t: nat, i: nat :: !Writes(s, t, i, p) {
      var w := s.pipes[p].w;
      assert FileLeaks.PairAt(s, p) && FileLeaks.ExactAt(s, w);
      forall t: nat, i: nat | t < |s.tabs| && i < |s.tabs[t]|
        ensures s.tabs[t][i] != w
      {
        assert !Writes(s, t, i, p);
      }
      Files.NoSlots(s.tabs, w);
      assert false;
    }
  }

  /** A write through a descriptor is never stopped by the test for a reader: once the last reader is gone
      the pipe has forgotten its read end, so the bytes are appended as if there were one. */
  lemma WriteNotStopped(s: Files.Sys, t: nat, i: nat, p: nat, q: seq<byte>, data: seq<byte>)
    requires Files.Inv(s) && FileLeaks.Pairs(s) && Writes(s, t, i, p) && |q| <= SIZE
    ensures p < |s.pipes| && !Guard(s, p) && Appends(s, p, q, data) == Min(|data|, SIZE - |q|)
  {
    Files.NeverClosed(s, t, i);
    assert Files.FileOk(s, s.tabs[t][i]);
    assert FileLeaks.PairAt(s, p);
  }

  /** A task with no descriptors yet, after a pipe call, and after it has closed the read end. */
  function Bare(): Files.Sys
  {
    Files.Sys([], [], [seq(Files.FD_MAX, _ => Files.NULL)])
  }

  function Widowed(): Files.Sys
  {
    Files.DropSlot(Files.Piped(Bare(), 0), 0, 0)
  }

  /** There the write end is named, no slot names the read end, and a byte written is appended. */
  lemma AppendsWithoutReader(b: byte)
    ensures Files.Step(Bare(), Files.Piped(Bare(), 0)) && Files.Step(Files.Piped(Bare(), 0), Widowed())
    ensures var s := Widowed(); Writes(s, 0, 1, 0) && |s.pipes| == 1 && s.pipes[0].r == Files.NULL && !s.files[0].open
    ensures WriteResult(Widowed(), 0, [], [b]) == Done(1)
  {
    var s0 := Bare();
    var s1 := Files.Piped(s0, 0);
    var row := s0.tabs[0];
    assert Files.FreeFrom(row, 0) == 0;
    assert Files.FreeFrom(row[0 := 0], 0) == 1 by { assert Files.FreeFrom(row[0 := 0], 1) == 1; }
    assert s1.tabs == [row[0 := 0][1 := 1]];
    assert Files.Call(s0, 0, 0, 0, 0, s1);
    assert Files.Call(s1, 0, 0, 0, 0, Widowed());
  }

  /** What a leak costs: a pipe, and dup2 of its read end onto its write end at descriptor 1. No descriptor
      names the write end, and a reader is told to try again for ever. */
  lemma LeakHidesEof()
    ensures var s := Files.Dup2(Files.Piped(Bare(), 0), 0, 0, 1);
            && |s.pipes| == 1 && (forall t: nat, i: nat :: !Writes(s, t, i, 0))
            && ReadResult(s, 0, [], 1) == Again
  {
    var s0 := Bare();
    var row := s0.tabs[0];
    assert Files.FreeFrom(row, 0) == 0;
    assert Files.FreeFrom(row[0 := 0], 0) == 1 by { assert Files.FreeFrom(row[0 := 0], 1) == 1; }
    assert Files.Piped(s0, 0).tabs == [row[0 := 0][1 := 1]];
  }

  // ----- every run of reads and writes -----

  /** All that was written, all that was read, and what is buffered. */
  datatype Log = Log(written: seq<byte>, got: seq<byte>, queue: seq<byte>)

  /** The oldest `n` bytes are read. */
  predicate Reads(a: Log, b: Log, n: nat)
  {
    n <= |a.queue| && b == Log(a.written, a.got + a.queue[..n], a.queue[n..])
  }

  ghost predicate ReadStep(a: Log, b: Log)
  {
    exists n: nat :: Reads(a, b, n)
  }

  predicate WriteStep(a: Log, b: Log)
  {
    a.written <= b.written && |a.queue| <= |b.queue| <= SIZE && var x := b.written[|a.written|..];
      b == Log(a.written + x, a.got, a.queue + x)
  }

  ghost predicate Balanced(a: Log)
  {
    a.written == a.got + a.queue
  }

  lemma Regroup(g: seq<byte>, q: seq<byte>, n: nat)
    requires n <= |q|
    ensures (g + q[..n]) + q[n..] == g + q
  {
  }

  lemma ReadBalanced(a: Log, b: Log)
    requires Balanced(a) && ReadStep(a, b)
    ensures Balanced(b)
  {
    var n: nat :| Reads(a, b, n);
    hide ReadStep;
    Regroup(a.got, a.queue, n);
  }

  lemma WriteBalanced(a: Log, b: Log)
    requires Balanced(a) && WriteStep(a, b)
    ensures Balanced(b)
  {
    var x := b.written[|a.written|..];
    assert a.got + (a.queue + x) == (a.got + a.queue) + x;
  }

  /** In every run the bytes read are the bytes written, in order, less those still buffered. */
  lemma {:induction false} ReadIsPrefix(run: seq<Log>, k: nat)
    requires k < |run| && run[0] == Log([], [], [])
    requires forall i :: 0 <= i < |run| - 1 ==> ReadStep(run[i], run[i + 1]) || WriteStep(run[i], run[i + 1])
    ensures Balanced(run[k]) && run[k].got <= run[k].written
  {
    hide ReadStep, WriteStep;
    if k > 0 {
      ReadIsPrefix(run, k - 1);
      hide Balanced;
      var a, b := run[k - 1], run[k];
      if ReadStep(a, b) { ReadBalanced(a, b); } else { WriteBalanced(a, b); }
    }
    BalancedPrefix(run[k]);
  }

  lemma BalancedPrefix(a: Log)
    ensures Balanced(a) ==> a.got <= a.written
  {
  }

  // ----- the buffer -----

  /** A pipe, with all that was ever written to it and read from it. */
  class Pipe {
    const buf: array<byte>
    var head: nat
    var tail: nat
    var count: nat
    ghost var written: seq<byte>
    ghost var got: seq<byte>

    /** What was read is what was written, in order, less what is still buffered. */
    ghost predicate Valid()
      reads this, buf
    {
      && buf.Length == SIZE && head < SIZE && tail < SIZE && count <= SIZE && head == (tail + count) % SIZE
      && written == got + Queue(buf[..], tail, count)
    }

    /** helix_pipe_create. */
    constructor ()
      ensures Valid() && fresh(buf) && written == [] && got == []
    {
      buf := new byte[SIZE](_ => 0);
      head, tail, count := 0, 0, 0;
      written, got := [], [];
    }

    ghost function Q(): seq<byte>
      requires buf.Length == SIZE
      reads this, buf
    {
      Queue(buf[..], tail, count)
    }

    /** One round of the loop in pipe_read. */
    method Take() returns (x: byte)
      requires Valid() && count > 0
      modifies this
      ensures Valid() && written == old(written) && got == old(got) + [x] && old(Q()) == [x] + Q() &&
              count == old(count) - 1
    {
      QueueTake(buf[..], tail, count);
      x := buf[tail];
      got := got + [x];
      tail := (tail + 1) % SIZE;
      count := count - 1;
    }

    /** One round of the loop in pipe_write. */
    method Put(x: byte)
      requires Valid() && count < SIZE
      modifies this, buf
      ensures Valid() && got == old(got) && written == old(written) + [x] && count == old(count) + 1 &&
              Q() == old(Q()) + [x]
    {
      QueuePut(buf[..], tail, count, head, x);
      buf[head] := x;
      written := written + [x];
      head := (head + 1) % SIZE;
      count := count + 1;
    }

    ghost function L(): Log
      requires buf.Length == SIZE
      reads this, buf
    {
      Log(written, got, Q())
    }

    /** pipe_read, with the ends of the pipe as the files have them. */
    method Read(s: Files.Sys, p: nat, len: nat) returns (r: Result, out: seq<byte>)
      requires Valid() && p < |s.pipes|
      modifies this
      ensures Valid() && written == old(written) && got == old(got) + out && out == old(Q())[..Min(len, old(count))]
      ensures ReadStep(old(L()), L()) && r == ReadResult(s, p, old(Q()), len)
      ensures |out| == if len < old(count) then len else old(count)
      ensures if out == [] && 0 <= s.pipes[p].w < |s.files| && s.files[s.pipes[p].w].refs > 0 then r == Again
              else r == Done(|out|)
    {
      hide Queue;
      out := [];
      while |out| < len && count > 0
        invariant Valid() && written == old(written) && got == old(got) + out
        invariant |out| <= len && |out| + count == old(count) && old(Q()) == out + Q()
        decreases count
      {
        var x := Take();
        out := out + [x];
      }
      QueueLen(buf[..], tail, count);
      assert old(Q())[..|out|] == out && old(Q())[|out|..] == Q();
      assert Reads(old(L()), L(), |out|);
      if |out| > 0 { return Done(|out|), out; }
      var w := s.pipes[p].w;
      r := if 0 <= w < |s.files| && s.files[w].refs > 0 then Again else Done(0);
    }

    /** pipe_write: stopped by a read end without references, else as much as fits, in order. */
    method Write(s: Files.Sys, p: nat, data: seq<byte>) returns (r: Result)
      requires Valid() && p < |s.pipes|
      modifies this, buf
      ensures Valid() && got == old(got) && |old(Q())| <= SIZE &&
              written == old(written) + data[..Appends(s, p, old(Q()), data)]
      ensures WriteStep(old(L()), L()) && r == WriteResult(s, p, old(Q()), data)
      ensures old(written) <= written && written[|old(written)|..] <= data
      ensures if 0 <= s.pipes[p].r < |s.files| && s.files[s.pipes[p].r].refs <= 0
              then r == Done(0) && written == old(written)
              else var n := |written| - |old(written)|;
                n == (if |data| < SIZE - old(count) then |data| else SIZE - old(count)) &&
                r == if n == 0 then Again else Done(n)
    {
      hide Queue;
      QueueLen(buf[..], tail, count);
      assert written[|written|..] == [] && Q() + [] == Q() && written + [] == written;
      var e := s.pipes[p].r;
      if 0 <= e < |s.files| && s.files[e].refs <= 0 { return Done(0); }
      var total := 0;
      while total < |data| && count < SIZE
        invariant Valid() && got == old(got) && 0 <= total <= |data| && count == old(count) + total
        invariant written == old(written) + data[..total] && Q() == old(Q()) + data[..total]
        decreases SIZE - count
      {
        Put(data[total]);
        assert data[..total + 1] == data[..total] + [data[total]];
        total := total + 1;
      }
      QueueLen(buf[..], tail, count);
      assert written[|old(written)|..] == data[..total];
      if total > 0 { return Done(total); }
      r := Again;
    }
  }
}
