// pipe_read and pipe_write as they run: loops over a shared page that the other process
// changes between any two of their accesses (user/lib/pipe.c).
module PipeCalls {
  import opened PipeBuffer

  predicate Reads(op: Op) { op.ReadTest? || op.ReadByte? || op.ReadPublish? }

  // Some steps of one side, those that are not possible left out.
  function Apply(s: Ring, ops: seq<Op>, reading: bool): (s': Ring)
    requires |s.buf| == BY2PIPE
    ensures |s'.buf| == BY2PIPE
    decreases ops
  {
    if ops == [] then s
    else if Reads(ops[0]) == reading && Enabled(s, ops[0]) then Apply(Step(s, ops[0]), ops[1..], reading)
    else Apply(s, ops[1..], reading)
  }

  // What the other side does keeps the invariant and leaves this side's task, index and
  // history alone.
  lemma {:induction false} ApplyKeeps(s: Ring, ops: seq<Op>, reading: bool)
    requires Inv(s)
    ensures Inv(Apply(s, ops, reading))
    ensures !reading ==> Apply(s, ops, reading).reader == s.reader && Apply(s, ops, reading).read == s.read
    ensures reading ==> Apply(s, ops, reading).writer == s.writer && Apply(s, ops, reading).written == s.written
    ensures !reading ==> Apply(s, ops, reading).rpos == s.rpos && Apply(s, ops, reading).wpos >= s.wpos
    ensures reading ==> Apply(s, ops, reading).wpos == s.wpos && Apply(s, ops, reading).rpos >= s.rpos
    decreases ops
  {
    if ops != [] {
      if Reads(ops[0]) == reading && Enabled(s, ops[0]) {
        StepKeeps(s, ops[0]);
        ApplyKeeps(Step(s, ops[0]), ops[1..], reading);
      } else {
        ApplyKeeps(s, ops[1..], reading);
      }
    }
  }

  // How a call ends: it returned, or it still waits when the answers given run out.
  datatype Result = Returned(n: nat) | Waiting

  class Shared {
    var ring: Ring
    var turns: seq<seq<Op>>   // what the other process does between this one's accesses
    var answers: seq<bool>    // what _pipe_is_closed answers, each time it is asked

    method Others(reading: bool)
      requires Inv(ring)
      modifies `ring, `turns
      ensures Inv(ring) && ring.rpos <= ring.wpos <= ring.rpos + BY2PIPE
      ensures !reading ==> ring.reader == old(ring.reader) && ring.read == old(ring.read)
      ensures reading ==> ring.writer == old(ring.writer) && ring.written == old(ring.written)
      ensures !reading ==> ring.rpos == old(ring.rpos) && ring.wpos >= old(ring.wpos)
      ensures reading ==> ring.wpos == old(ring.wpos) && ring.rpos >= old(ring.rpos)
    {
      if turns != [] {
        ApplyKeeps(ring, turns[0], reading);
        ring := Apply(ring, turns[0], reading);
        turns := turns[1..];
      }
    }

    method Do(op: Op)
      requires Inv(ring) && Enabled(ring, op)
      modifies `ring
      ensures Inv(ring) && ring == Step(old(ring), op)
    {
      StepKeeps(ring, op);
      ring := Step(ring, op);
    }

    // The loop body's one line, access by access.
    method TakeByte() returns (b: byte)
      requires Inv(ring) && ring.reader.Outside? && ring.rpos < ring.wpos
      modifies `ring, `turns
      ensures Inv(ring) && ring.reader.Outside? && ring.read == old(ring.read) + [b]
      ensures ring.rpos == old(ring.rpos) + 1 && ring.wpos >= old(ring.wpos)
    {
      Do(ReadTest);
      Others(false);
      Do(ReadByte);
      b := ring.reader.b;
      Others(false);
      Do(ReadPublish);
    }

    method PutByte(b: byte)
      requires Inv(ring) && ring.writer.Between? && ring.wpos - ring.rpos < BY2PIPE
      modifies `ring, `turns
      ensures Inv(ring) && ring.writer.Between? && ring.written == old(ring.written) + [b]
      ensures ring.wpos == old(ring.wpos) + 1 && ring.rpos >= old(ring.rpos)
    {
      Do(WriteTest(b));
      Others(true);
      Do(WriteByte);
      Others(true);
      Do(WritePublish);
    }

    // Returns with the next bytes of the stream in vbuf: all n, or fewer if the buffer is
    // empty after the first, or none if the pipe was said to be closed.  What was buffered when
    // the call began is always among them, as far as it was asked for.
    method PipeRead(vbuf: array<byte>, n: nat) returns (r: Result, i: nat)
      requires Inv(ring) && ring.reader.Outside? && n <= vbuf.Length
      modifies this, vbuf
      ensures Inv(ring) && ring.reader.Outside? && i <= n
      ensures ring.read == old(ring.read) + vbuf[..i]
      ensures r == Waiting || r == Returned(i)
      ensures r == Returned(0) && n > 0 ==> true in old(answers)
      ensures r == Waiting ==> i == 0 && true !in old(answers)
      ensures i < n ==> ring.rpos == ring.wpos && i >= old(ring.wpos - ring.rpos)
    {
      i := 0;
      while i < n
        invariant Inv(ring) && ring.reader.Outside? && i <= n && ring.read == old(ring.read) + vbuf[..i]
        invariant ring.rpos == old(ring.rpos) + i && ring.wpos >= old(ring.wpos)
        invariant i == 0 ==> forall a :: a in old(answers) ==> a in answers || !a
        invariant forall a :: a in answers ==> a in old(answers)
        decreases n - i, |answers|
      {
        Others(false);
        if ring.rpos >= ring.wpos {
          if i > 0 { return Returned(i), i; }
          if answers == [] { return Waiting, i; }
          var closed := answers[0];
          answers := answers[1..];
          if closed { return Returned(i), i; }
        } else {
          vbuf[i] := TakeByte();
          i := i + 1;
        }
      }
      r := Returned(i);
    }

    // One pass of pipe_write's loops: the byte is put in, or the buffer is seen full.
    method TryPut(b: byte) returns (full: bool)
      requires Inv(ring) && ring.writer.Between?
      modifies `ring, `turns
      ensures Inv(ring) && ring.writer.Between? && ring.rpos >= old(ring.rpos)
      ensures full ==> ring.written == old(ring.written) && ring.wpos == old(ring.wpos) == ring.rpos + BY2PIPE
      ensures !full ==> ring.written == old(ring.written) + [b] && ring.wpos == old(ring.wpos) + 1
    {
      Others(true);
      full := ring.wpos - ring.rpos >= BY2PIPE;
      if !full { PutByte(b); }
    }

    // Returns when all n bytes have entered the stream in order, or earlier if the buffer
    // is full and the pipe was said to be closed.
    method PipeWrite(wbuf: seq<byte>) returns (r: Result, i: nat)
      requires Inv(ring) && ring.writer.Between?
      modifies this
      ensures Inv(ring) && ring.writer.Between? && i <= |wbuf|
      ensures ring.written == old(ring.written) + wbuf[..i]
      ensures r == Waiting || r == Returned(i)
      ensures r == Returned(i) && i < |wbuf| ==> true in old(answers)
      ensures r == Waiting ==> i < |wbuf| && true !in old(answers)
      ensures i < |wbuf| ==> ring.wpos - ring.rpos == BY2PIPE && i >= BY2PIPE - old(ring.wpos - ring.rpos)
    {
      i := 0;
      while i < |wbuf|
        invariant Inv(ring) && ring.writer.Between? && i <= |wbuf| && ring.written == old(ring.written) + wbuf[..i]
        invariant ring.wpos == old(ring.wpos) + i && ring.rpos >= old(ring.rpos)
        invariant forall a :: a in old(answers) ==> a in answers || !a
        invariant forall a :: a in answers ==> a in old(answers)
        decreases |wbuf| - i, |answers|
      {
        var full := TryPut(wbuf[i]);
        if full {
          if answers == [] { return Waiting, i; }
          var closed := answers[0];
          answers := answers[1..];
          if closed { return Returned(i), i; }
        } else {
          i := i + 1;
        }
      }
      r := Returned(i);
    }
  }
}
