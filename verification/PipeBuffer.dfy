// The byte ring of a pipe under one reader and one writer that interleave at every access
// to the shared page (user/lib/pipe.c).  Indices grow without wrapping.
module PipeBuffer {
  const BY2PIPE: nat := 32

  type byte = n: int | 0 <= n < 256

  datatype Reader = Outside | MayTake | Took(b: byte)
  datatype Writer = Between | MayPut(b: byte) | Stored(b: byte)

  // struct Pipe, where each process stands in its loop body, and the history: what the
  // writer has put in and what the reader has taken out.
  datatype Ring = Ring(rpos: nat, wpos: nat, buf: seq<byte>, reader: Reader, writer: Writer,
                       written: seq<byte>, read: seq<byte>)

  // A pass through either loop: test the indices, touch the buffer, publish the index.
  // In a failing test the process yields, or leaves the loop, and the page stays as it is.
  datatype Op = ReadTest | ReadByte | ReadPublish | WriteTest(b: byte) | WriteByte | WritePublish

  predicate Enabled(s: Ring, op: Op) {
    match op
    case ReadTest => s.reader.Outside?
    case ReadByte => s.reader.MayTake?
    case ReadPublish => s.reader.Took?
    case WriteTest(_) => s.writer.Between?
    case WriteByte => s.writer.MayPut?
    case WritePublish => s.writer.Stored?
  }

  function Step(s: Ring, op: Op): Ring
    requires Enabled(s, op) && |s.buf| == BY2PIPE
  {
    match op
    case ReadTest => if s.rpos >= s.wpos then s else s.(reader := MayTake)
    case ReadByte => s.(reader := Took(s.buf[s.rpos % BY2PIPE]))
    case ReadPublish => s.(reader := Outside, rpos := s.rpos + 1, read := s.read + [s.reader.b])
    case WriteTest(b) => if s.wpos - s.rpos >= BY2PIPE then s else s.(writer := MayPut(b))
    case WriteByte => s.(writer := Stored(s.writer.b), buf := s.buf[s.wpos % BY2PIPE := s.writer.b])
    case WritePublish => s.(writer := Between, wpos := s.wpos + 1, written := s.written + [s.writer.b])
  }

  // The bytes between the two indices, oldest first.
  function Buffered(s: Ring): seq<byte>
    requires |s.buf| == BY2PIPE && s.rpos <= s.wpos
  {
    seq(s.wpos - s.rpos, i requires 0 <= i < s.wpos - s.rpos => s.buf[(s.rpos + i) % BY2PIPE])
  }

  predicate Inv(s: Ring) {
    && |s.buf| == BY2PIPE
    && s.rpos <= s.wpos <= s.rpos + BY2PIPE
    && s.read + Buffered(s) == s.written && |s.read| == s.rpos
    && (!s.reader.Outside? ==> s.rpos < s.wpos)
    && (s.reader.Took? ==> s.reader.b == s.buf[s.rpos % BY2PIPE])
    && (!s.writer.Between? ==> s.wpos < s.rpos + BY2PIPE)
    && (s.writer.Stored? ==> s.buf[s.wpos % BY2PIPE] == s.writer.b)
  }

  const EMPTY := Ring(0, 0, seq(BY2PIPE, _ => 0), Outside, Between, [], [])

  // The slot being written is none of those still to be read.
  lemma SlotsDiffer(rpos: nat, wpos: nat, i: nat)
    requires i < wpos - rpos < BY2PIPE
    ensures (rpos + i) % BY2PIPE != wpos % BY2PIPE
  {
  }

  // Storing a byte at the write position disturbs nothing that is still to be read.
  lemma WriteByteKeeps(s: Ring)
    requires Inv(s) && s.writer.MayPut?
    ensures Inv(Step(s, WriteByte))
  {
    var s' := Step(s, WriteByte);
    forall i | 0 <= i < s.wpos - s.rpos ensures Buffered(s')[i] == Buffered(s)[i] { SlotsDiffer(s.rpos, s.wpos, i); }
    if s.rpos < s.wpos { SlotsDiffer(s.rpos, s.wpos, 0); }
    assert Buffered(s') == Buffered(s);
  }

  lemma StepKeeps(s: Ring, op: Op)
    requires Inv(s) && Enabled(s, op)
    ensures Inv(Step(s, op))
  {
    var s' := Step(s, op);
    match op
    case ReadPublish => assert Buffered(s) == [s.reader.b] + Buffered(s');
    case WriteByte => WriteByteKeeps(s);
    case WritePublish => assert Buffered(s') == Buffered(s) + [s.writer.b];
    case _ =>
  }

  ghost predicate Follows(s: Ring, ops: seq<Op>, s': Ring)
    decreases ops
  {
    if ops == [] then s' == s
    else |s.buf| == BY2PIPE && Enabled(s, ops[0]) && Follows(Step(s, ops[0]), ops[1..], s')
  }

  lemma {:induction false} RunKeeps(s: Ring, ops: seq<Op>, s': Ring)
    requires Inv(s) && Follows(s, ops, s')
    ensures Inv(s')
    decreases ops
  {
    if ops != [] {
      StepKeeps(s, ops[0]);
      RunKeeps(Step(s, ops[0]), ops[1..], s');
    }
  }

  // However the two processes interleave: what was read, followed by what is buffered, is
  // what was written, and the buffer holds at most 32 bytes.
  lemma Fifo(ops: seq<Op>, s: Ring)
    requires Follows(EMPTY, ops, s)
    ensures s.read <= s.written && |s.buf| == BY2PIPE
    ensures |s.read| == s.rpos && |s.written| == s.wpos && s.rpos <= s.wpos <= s.rpos + BY2PIPE
    ensures forall i :: s.rpos <= i < s.wpos ==> s.buf[i % BY2PIPE] == s.written[i]
  {
    assert Buffered(EMPTY) == [];
    RunKeeps(EMPTY, ops, s);
    forall i | s.rpos <= i < s.wpos ensures s.buf[i % BY2PIPE] == s.written[i] {
      assert Buffered(s)[i - s.rpos] == s.written[i];
    }
  }

  // The order inside one loop body matters: C leaves open whether `buf[wpos++ % 32] = b`
  // stores the byte or the index first.  With the index first, a reader coming in between
  // takes a byte nobody wrote.
  function PublishFirst(s: Ring): Ring
    requires s.writer.MayPut?
  {
    s.(wpos := s.wpos + 1, written := s.written + [s.writer.b])
  }

  lemma PublishingFirstLosesAByte(b: byte, s: Ring)
    requires b != 0 && Follows(PublishFirst(Step(EMPTY, WriteTest(b))), [ReadTest, ReadByte, ReadPublish], s)
    ensures s.written == [b] && s.read == [0]
  {
    var s1 := PublishFirst(Step(EMPTY, WriteTest(b)));
    var s2 := Step(s1, ReadTest);
    var s3 := Step(s2, ReadByte);
    assert Follows(s2, [ReadByte, ReadPublish], s);
    assert Follows(s3, [ReadPublish], s);
  }

  // The same with `p_buf[rpos++ % 32]` on a full ring: with the index given up before the byte is
  // taken, a writer coming in between overwrites it, and the reader takes the newest byte for
  // the oldest.
  function GiveUpFirst(s: Ring): Ring
    requires s.reader.MayTake?
  {
    s.(rpos := s.rpos + 1)
  }

  lemma TakingLateLosesAByte(ops: seq<Op>, s: Ring, b: byte, s': Ring)
    requires Follows(EMPTY, ops, s) && s.reader.MayTake? && s.writer.Between? && s.wpos == s.rpos + BY2PIPE
    requires Follows(GiveUpFirst(s), [WriteTest(b), WriteByte], s')
    ensures |s.buf| == |s'.buf| == BY2PIPE && s.rpos < |s.written|
    ensures s.buf[s.rpos % BY2PIPE] == s.written[s.rpos] && s'.buf[s.rpos % BY2PIPE] == b
  {
    Fifo(ops, s);
    var s1 := Step(GiveUpFirst(s), WriteTest(b));
    assert Follows(s1, [WriteByte], s');
    assert s' == Step(s1, WriteByte);
  }

  lemma {:induction false} RunsCompose(s: Ring, a: seq<Op>, m: Ring, b: seq<Op>, s': Ring)
    requires Follows(s, a, m) && Follows(m, b, s')
    ensures Follows(s, a + b, s')
    decreases a
  {
    if a == [] {
      assert a + b == b;
    } else {
      assert (a + b)[1..] == a[1..] + b;
      RunsCompose(Step(s, a[0]), a[1..], m, b, s');
    }
  }

  // Such a ring is reached: whatever 32 bytes are written first.
  lemma {:induction false} AnyBytesFit(bytes: seq<byte>) returns (ops: seq<Op>, s: Ring)
    requires |bytes| <= BY2PIPE
    ensures Follows(EMPTY, ops, s) && s.reader.Outside? && s.writer.Between? && s.rpos == 0 && s.written == bytes && s.read == []
  {
    if bytes == [] {
      ops, s := [], EMPTY;
    } else {
      var n := |bytes| - 1;
      var ops', m := AnyBytesFit(bytes[..n]);
      var more := [WriteTest(bytes[n]), WriteByte, WritePublish];
      Fifo(ops', m);
      var s1 := Step(m, more[0]);
      var s2 := Step(s1, more[1]);
      ops, s := ops' + more, Step(s2, more[2]);
      assert more[1..] == [WriteByte, WritePublish] && more[1..][1..] == [WritePublish];
      assert Follows(s2, [WritePublish], s);
      assert Follows(m, more, s);
      RunsCompose(EMPTY, ops', m, more, s);
      assert bytes == bytes[..n] + [bytes[n]];
    }
  }

  // A full ring whose reader has passed its test, and what the writer then leaves the reader.
  lemma LateReaderTakesTheNewest(bytes: seq<byte>, b: byte) returns (ops: seq<Op>, s: Ring, s': Ring)
    requires |bytes| == BY2PIPE
    ensures Follows(EMPTY, ops, s) && s.reader.MayTake? && s.rpos == 0 && s.written == bytes
    ensures Follows(GiveUpFirst(s), [WriteTest(b), WriteByte], s') && |s'.buf| == BY2PIPE && s'.buf[0] == b
  {
    var ops0, m := AnyBytesFit(bytes);
    Fifo(ops0, m);
    ops, s := ops0 + [ReadTest], Step(m, ReadTest);
    assert Follows(m, [ReadTest], s);
    RunsCompose(EMPTY, ops0, m, [ReadTest], s);
    Fifo(ops, s);
    var s1 := Step(GiveUpFirst(s), WriteTest(b));
    s' := Step(s1, WriteByte);
    assert Follows(s1, [WriteByte], s');
    TakingLateLosesAByte(ops, s, b, s');
  }
}
