// What each call does to the ends of a pipe, whatever other environments do while it is half
// done (user/lib/pipe.c, user/lib/fd.c, user/lib/fork.c).
module PipeEnds {
  import opened PipeClosed

  // Slot x is on the same end as before, and has its data page as before.
  predicate SlotSame(s: Pipe, s': Pipe, x: Slot) {
    (x in s'.readers <==> x in s.readers) && (x in s'.writers <==> x in s.writers) && (x in s'.data <==> x in s.data)
  }

  predicate NoSlot(s: Pipe, x: Slot) { x !in s.readers && x !in s.writers && x !in s.data }

  // Slot y is on the end slot x was on.
  predicate OnEndOf(s: Pipe, x: Slot, s': Pipe, y: Slot) {
    (y in s'.readers <==> x in s.readers) && (y in s'.writers <==> x in s.writers)
  }

  ghost predicate OnlyChanges(s: Pipe, s': Pipe, y: Slot) { forall x :: x != y ==> SlotSame(s, s', x) }

  ghost predicate NoneChanges(s: Pipe, s': Pipe) { forall x :: SlotSame(s, s', x) }

  // ---- an environment in the middle of a call ----

  // All through a run e makes no step of its own but those of a fork, and is not destroyed.
  ghost predicate Undisturbed(s: Pipe, ops: seq<Op>, e: nat)
    decreases ops
  {
    ops == []
    || (Enabled(s, ops[0]) && (s.cur == e ==> ops[0].Switch? || ops[0].ForkPage?) && !(ops[0].Kill? && ops[0].victim == e)
        && Undisturbed(Step(s, ops[0]), ops[1..], e))
  }

  // e is inside close, dup or fork.
  predicate Inside(s: Pipe, e: nat) {
    e !in s.embryos && (TaskOf(s, e).Closing? || TaskOf(s, e).Dupping? || TaskOf(s, e).Forking?)
  }

  predicate SameCall(t: Task, t': Task) {
    if t.Forking? then t'.Forking? && t'.child == t.child else t' == t
  }

  ghost predicate MySlotsSame(s: Pipe, s': Pipe, e: nat) { forall fd: nat :: SlotSame(s, s', Slot(e, fd)) }

  // A step of another environment, or a page of e's own fork.
  lemma StepPassesBy(s: Pipe, op: Op, e: nat)
    requires Inv(s) && Enabled(s, op) && Inside(s, e)
    requires (s.cur == e ==> op.Switch? || op.ForkPage?) && !(op.Kill? && op.victim == e)
    ensures Inside(Step(s, op), e) && SameCall(TaskOf(s, e), TaskOf(Step(s, op), e)) && MySlotsSame(s, Step(s, op), e)
  {
    assert AskOk(s, e) && ForkOk(s, s.cur) && ForkOk(s, e);
    match TaskOf(s, e)
    case Closing(fd) => assert SlotOk(s, Slot(e, fd));
    case Dupping(_, dst) => assert SlotOk(s, Slot(e, dst));
    case _ =>
  }

  lemma {:induction false} RunPassesBy(s: Pipe, ops: seq<Op>, m: Pipe, e: nat)
    requires Inv(s) && Follows(s, ops, m) && Inside(s, e) && Undisturbed(s, ops, e)
    ensures Inv(m) && Inside(m, e) && SameCall(TaskOf(s, e), TaskOf(m, e)) && MySlotsSame(s, m, e)
    decreases ops
  {
    if ops != [] {
      StepKeeps(s, ops[0]);
      StepPassesBy(s, ops[0], e);
      RunPassesBy(Step(s, ops[0]), ops[1..], m, e);
    }
  }

  // ---- close, dup, destruction ----

  // dup: its first step maps one data page.  When it ends, however long after, the new descriptor
  // is open on its source's end, or closed again if the second mapping failed; the caller's other
  // descriptors are as they were, and in neither step does anyone else's change.
  lemma DupOpens(s: Pipe, src: nat, dst: nat, ops: seq<Op>, m: Pipe)
    requires Inv(s) && Enabled(s, DupData(src, dst)) && Follows(Step(s, DupData(src, dst)), ops, m)
    requires Undisturbed(Step(s, DupData(src, dst)), ops, s.cur) && m.cur == s.cur
    ensures OnlyChanges(s, Step(s, DupData(src, dst)), Slot(s.cur, dst))
    ensures Enabled(m, DupFd) && OnlyChanges(m, Step(m, DupFd), Slot(s.cur, dst)) && TaskOf(Step(m, DupFd), s.cur).Idle?
    ensures OnEndOf(s, Slot(s.cur, src), Step(m, DupFd), Slot(s.cur, dst)) && Slot(s.cur, dst) in Step(m, DupFd).data
    ensures forall fd: nat :: fd != dst ==> SlotSame(s, Step(m, DupFd), Slot(s.cur, fd))
    ensures Enabled(m, DupAbort) && OnlyChanges(m, Step(m, DupAbort), Slot(s.cur, dst)) && TaskOf(Step(m, DupAbort), s.cur).Idle?
    ensures MySlotsSame(s, Step(m, DupAbort), s.cur)
  {
    var e, s1 := s.cur, Step(s, DupData(src, dst));
    StepKeeps(s, DupData(src, dst));
    RunPassesBy(s1, ops, m, e);
    assert SlotOk(s, Slot(e, src)) && SlotOk(s, Slot(e, dst)) && SlotSame(s1, m, Slot(e, src)) && SlotSame(s1, m, Slot(e, dst));
  }

  // close: the descriptor leaves its end at once, and is gone when the call ends.
  lemma CloseCloses(s: Pipe, fd: nat, ops: seq<Op>, m: Pipe)
    requires Inv(s) && Enabled(s, CloseFd(fd)) && Follows(Step(s, CloseFd(fd)), ops, m)
    requires Undisturbed(Step(s, CloseFd(fd)), ops, s.cur) && m.cur == s.cur
    ensures OnlyChanges(s, Step(s, CloseFd(fd)), Slot(s.cur, fd)) && !Open(Step(s, CloseFd(fd)), Slot(s.cur, fd))
    ensures Enabled(m, CloseData) && OnlyChanges(m, Step(m, CloseData), Slot(s.cur, fd)) && TaskOf(Step(m, CloseData), s.cur).Idle?
    ensures NoSlot(Step(m, CloseData), Slot(s.cur, fd))
    ensures forall i: nat :: i != fd ==> SlotSame(s, Step(m, CloseData), Slot(s.cur, i))
  {
    var e, s1 := s.cur, Step(s, CloseFd(fd));
    StepKeeps(s, CloseFd(fd));
    RunPassesBy(s1, ops, m, e);
    assert SlotOk(s, Slot(e, fd)) && SlotSame(s1, m, Slot(e, fd));
  }

  // A destruction takes all the victim's slots and no other.
  lemma KillCloses(s: Pipe, victim: nat, next: nat, x: Slot)
    requires Inv(s) && Enabled(s, Kill(victim, next))
    ensures if x.env == victim then NoSlot(Step(s, Kill(victim, next)), x) else SlotSame(s, Step(s, Kill(victim, next)), x)
  {
  }

  // A switch makes another environment the current one, counts for it alone, and changes nothing
  // else of anybody's.
  lemma SwitchCounts(s: Pipe, to: nat, e: nat)
    requires Enabled(s, Switch(to))
    ensures var s' := Step(s, Switch(to));
      s'.cur == to && NoneChanges(s, s') && TaskOf(s', e) == TaskOf(s, e) && s'.embryos == s.embryos &&
      RunsOf(s', e) == RunsOf(s, e) + if e == to then 1 else 0
  {
  }

  // Nobody else's call is moved on by a step, but that of one destroyed or of a new child.
  lemma OthersCallsStay(s: Pipe, op: Op, e: nat)
    requires Enabled(s, op) && e != s.cur && !(op.Kill? && op.victim == e) && !(op.ForkBegin? && op.child == e)
    ensures TaskOf(Step(s, op), e) == TaskOf(s, e)
  {
  }

  // ---- fork ----

  // When a fork ends, however the others interleaved with its pages, the child has exactly the
  // descriptors its parent had when it began, and the parent still has them.
  lemma ForkGives(s: Pipe, child: nat, ops: seq<Op>, m: Pipe)
    requires Inv(s) && Enabled(s, ForkBegin(child)) && Follows(Step(s, ForkBegin(child)), ops, m)
    requires Undisturbed(Step(s, ForkBegin(child)), ops, s.cur) && m.cur == s.cur && Enabled(m, ForkEnd)
    ensures NoneChanges(s, Step(s, ForkBegin(child))) && NoneChanges(m, Step(m, ForkEnd))
    ensures TaskOf(m, s.cur).child == child && child !in Step(m, ForkEnd).embryos && TaskOf(Step(m, ForkEnd), s.cur).Idle?
    ensures MySlotsSame(s, Step(m, ForkEnd), s.cur)
    ensures forall fd: nat ::
      OnEndOf(s, Slot(s.cur, fd), Step(m, ForkEnd), Slot(child, fd)) &&
      (Slot(child, fd) in Step(m, ForkEnd).data <==> Slot(s.cur, fd) in s.data)
  {
    var e, s1 := s.cur, Step(s, ForkBegin(child));
    StepKeeps(s, ForkBegin(child));
    RunPassesBy(s1, ops, m, e);
    assert ForkOk(m, e);
    forall fd: nat
      ensures OnEndOf(s, Slot(e, fd), Step(m, ForkEnd), Slot(child, fd))
      ensures Slot(child, fd) in Step(m, ForkEnd).data <==> Slot(e, fd) in s.data
    {
      assert ChildSlotOk(m, e, child, 2 * MAXFD, fd) && SlotSame(s1, m, Slot(e, fd)) && SlotOk(s, Slot(e, fd));
    }
  }

  // In between, each of its steps touches one descriptor of the child.
  lemma ForkPageGives(s: Pipe)
    requires Inv(s) && Enabled(s, ForkPage)
    ensures var t := TaskOf(s, s.cur);
      OnlyChanges(s, Step(s, ForkPage), Slot(t.child, if t.next < MAXFD then t.next else t.next - MAXFD))
  {
  }

  // ---- a question asked and answered ----

  // _pipe_is_closed answers exactly when env_runs is what it was when the question began, and
  // otherwise begins again; no question changes an end.
  lemma CheckAnswers(s: Pipe)
    requires Inv(s) && Enabled(s, Check)
    ensures var t, t' := TaskOf(s, s.cur), TaskOf(Step(s, Check), s.cur);
      if t.runs == RunsOf(s, s.cur) then t' == Answered(|Half(s)| == |Other(s, Slot(s.cur, t.fd))| + |Flying(s)|)
      else t' == GotRuns(t.fd, RunsOf(s, s.cur))
    ensures NoneChanges(s, Step(s, Check))
  {
    assert AskOk(s, s.cur);
    CountsAgree(s, Slot(s.cur, TaskOf(s, s.cur).fd));
  }

  // The slots are the same.
  predicate EndsSame(s: Pipe, s': Pipe) { s'.readers == s.readers && s'.writers == s.writers && s'.data == s.data }

  lemma ReadsAlone(s: Pipe, fd: nat) returns (s': Pipe)
    requires Inv(s) && Enabled(s, Ask(fd))
    ensures Follows(s, [Ask(fd), ReadFdRef, ReadPipeRef], s') && EndsSame(s, s') && s'.cur == s.cur
    ensures Inv(s') && TaskOf(s', s.cur).GotPipeRef? && TaskOf(s', s.cur).fd == fd && TaskOf(s', s.cur).runs == RunsOf(s', s.cur)
  {
    var s1 := Step(s, Ask(fd));
    StepKeeps(s, Ask(fd));
    var s2 := Step(s1, ReadFdRef);
    StepKeeps(s1, ReadFdRef);
    s' := Step(s2, ReadPipeRef);
    StepKeeps(s2, ReadPipeRef);
    assert Follows(s2, [ReadPipeRef], s');
    assert Follows(s1, [ReadFdRef, ReadPipeRef], s');
  }

  // Asked without a switch in between, it answers with the comparison as it stands.
  lemma AskedAlone(s: Pipe, fd: nat) returns (s': Pipe)
    requires Inv(s) && Enabled(s, Ask(fd))
    ensures Follows(s, [Ask(fd), ReadFdRef, ReadPipeRef] + [Check], s') && NoneChanges(s, s')
    ensures TaskOf(s', s.cur) == Answered(|Half(s)| == |Other(s, Slot(s.cur, fd))| + |Flying(s)|)
  {
    var s3 := ReadsAlone(s, fd);
    s' := Step(s3, Check);
    CheckAnswers(s3);
    OneMore(s, [Ask(fd), ReadFdRef, ReadPipeRef], s3, Check);
  }
}
