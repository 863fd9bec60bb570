// When a pipe reports itself closed (user/lib/pipe.c, user/lib/fd.c, user/lib/pageref.c,
// user/lib/fork.c).  A step is one system call or one read of a kernel counter by the current
// environment; between any two steps another environment may be switched in.
module PipeClosed {
  const MAXFD: nat := 32

  // A file descriptor number of an environment.
  datatype Slot = Slot(env: nat, fd: nat)

  // Where an environment is inside close, dup, fork or _pipe_is_closed.
  datatype Task =
    | Idle
    | Closing(fd: nat)                              // fd page unmapped, data page not yet
    | Dupping(src: nat, dst: nat)                  // data page mapped, fd page not yet
    | Forking(child: nat, next: nat)               // the next fd or data page to give the child
    | GotRuns(fd: nat, runs: nat)
    | GotFdRef(fd: nat, runs: nat, fdRef: nat)
    | GotPipeRef(fd: nat, runs: nat, fdRef: nat, pipeRef: nat)
    | Answered(closed: bool)

  // One pipe: where its two fd pages and its data page are mapped.  pp_ref of a page is
  // the number of its slots.  runs: env_runs.  embryos: children whose fork has not made
  // them runnable.
  datatype Pipe = Pipe(readers: set<Slot>, writers: set<Slot>, data: set<Slot>,
                       tasks: map<nat, Task>, runs: map<nat, nat>, cur: nat, embryos: set<nat>)

  // fork visits pages in the order of their addresses, and the fd pages, at FDTABLE, lie below
  // the data pages, at FILEBASE: page n is fd n's, and page MAXFD + n is the data page of fd n.
  datatype Op =
    | Switch(to: nat)
    | CloseFd(fd: nat) | CloseData
    | DupData(src: nat, dst: nat) | DupFd | DupAbort
    | ForkBegin(child: nat) | ForkPage | ForkEnd
    | Kill(victim: nat, next: nat)
    | Ask(fd: nat) | ReadFdRef | ReadPipeRef | Check

  function TaskOf(s: Pipe, e: nat): Task { if e in s.tasks then s.tasks[e] else Idle }

  function RunsOf(s: Pipe, e: nat): nat { if e in s.runs then s.runs[e] else 0 }

  predicate AtRest(t: Task) { t.Idle? || t.Answered? }

  predicate Open(s: Pipe, x: Slot) { x in s.readers || x in s.writers }

  // The slots of the end x belongs to, and of the other end.
  function Same(s: Pipe, x: Slot): set<Slot> { if x in s.readers then s.readers else s.writers }

  function Other(s: Pipe, x: Slot): set<Slot> { if x in s.readers then s.writers else s.readers }

  // An embryo does not run, and only its parent, which is inside fork, could destroy it.
  predicate Enabled(s: Pipe, op: Op) {
    var e := s.cur;
    var t := TaskOf(s, e);
    match op
    case Switch(to) => to !in s.embryos
    case CloseFd(fd) => AtRest(t) && Open(s, Slot(e, fd))
    case CloseData => t.Closing?
    case DupData(src, dst) => AtRest(t) && Open(s, Slot(e, src)) && Slot(e, dst) !in s.data && dst < MAXFD
    case DupFd => t.Dupping?
    case DupAbort => t.Dupping?
    case ForkBegin(child) =>
      AtRest(t) && child != e && child !in s.embryos && AtRest(TaskOf(s, child)) && forall x :: x in s.data ==> x.env != child
    case ForkPage => t.Forking? && t.next < 2 * MAXFD
    case ForkEnd => t.Forking? && t.next == 2 * MAXFD
    case Kill(victim, next) => AtRest(t) && next != victim && victim !in s.embryos && next !in s.embryos
    case Ask(fd) => AtRest(t) && Open(s, Slot(e, fd))
    case ReadFdRef => t.GotRuns?
    case ReadPipeRef => t.GotFdRef?
    case Check => t.GotPipeRef?
  }

  function SwitchTo(s: Pipe, to: nat): Pipe { s.(cur := to, runs := s.runs[to := RunsOf(s, to) + 1]) }

  function SetTask(s: Pipe, t: Task): Pipe { s.(tasks := s.tasks[s.cur := t]) }

  // One more slot of child, where its parent has one.
  function CopySlot(slots: set<Slot>, parent: nat, child: nat, fd: nat): set<Slot> {
    if Slot(parent, fd) in slots then slots + {Slot(child, fd)} else slots
  }

  // duppage of one page: shared, as pipe pages are library pages.
  function CopyPage(s: Pipe, child: nat, n: nat): Pipe {
    if n < MAXFD then
      s.(readers := CopySlot(s.readers, s.cur, child, n), writers := CopySlot(s.writers, s.cur, child, n))
    else s.(data := CopySlot(s.data, s.cur, child, n - MAXFD))
  }

  function NotOf(slots: set<Slot>, e: nat): set<Slot> { set x | x in slots && x.env != e }

  function Step(s: Pipe, op: Op): Pipe
    requires Enabled(s, op)
  {
    var e := s.cur;
    var t := TaskOf(s, e);
    match op
    case Switch(to) => SwitchTo(s, to)
    case CloseFd(fd) =>
      SetTask(s.(readers := s.readers - {Slot(e, fd)}, writers := s.writers - {Slot(e, fd)}), Closing(fd))
    case CloseData => SetTask(s.(data := s.data - {Slot(e, t.fd)}), Idle)
    case DupData(src, dst) => SetTask(s.(data := s.data + {Slot(e, dst)}), Dupping(src, dst))
    case DupFd =>
      var x := Slot(e, t.dst);
      SetTask(if Slot(e, t.src) in s.readers then s.(readers := s.readers + {x}) else s.(writers := s.writers + {x}), Idle)
    case DupAbort => SetTask(s.(data := s.data - {Slot(e, t.dst)}), Idle)
    case ForkBegin(child) => SetTask(s.(tasks := s.tasks[child := Idle], embryos := s.embryos + {child}), Forking(child, 0))
    case ForkPage => SetTask(CopyPage(s, t.child, t.next), Forking(t.child, t.next + 1))
    case ForkEnd => SetTask(s.(embryos := s.embryos - {t.child}), Idle)
    case Kill(victim, next) =>
      var s1 := s.(readers := NotOf(s.readers, victim), writers := NotOf(s.writers, victim),
                   data := NotOf(s.data, victim), tasks := s.tasks[victim := Idle]);
      if victim == e then SwitchTo(s1, next) else s1
    case Ask(fd) => SetTask(s, GotRuns(fd, RunsOf(s, e)))
    case ReadFdRef => SetTask(s, GotFdRef(t.fd, t.runs, |Same(s, Slot(e, t.fd))|))
    case ReadPipeRef => SetTask(s, GotPipeRef(t.fd, t.runs, t.fdRef, |s.data|))
    case Check =>
      if t.runs == RunsOf(s, e) then SetTask(s, Answered(t.fdRef == t.pipeRef))
      else SetTask(s, GotRuns(t.fd, RunsOf(s, e)))
  }

  // ---- the invariant ----

  // A slot whose close or dup is half done.
  predicate InFlight(s: Pipe, x: Slot) {
    match TaskOf(s, x.env)
    case Closing(fd) => fd == x.fd
    case Dupping(_, dst) => dst == x.fd
    case _ => false
  }

  // The data page is mapped at every open slot but those fork has not come to yet, and at the
  // half-done ones.
  predicate SlotOk(s: Pipe, x: Slot) {
    && !(x in s.readers && x in s.writers)
    && (x in s.data ==> Open(s, x) || InFlight(s, x))
    && (Open(s, x) && x !in s.data ==> x.env in s.embryos)
    && (InFlight(s, x) ==> x in s.data && !Open(s, x))
    && (Open(s, x) || x in s.data ==> x.fd < MAXFD)
  }

  ghost predicate SlotsOk(s: Pipe) { forall x :: SlotOk(s, x) }

  // What an environment in the middle of a question has read, as long as it has not been
  // switched out since.
  predicate AskOk(s: Pipe, e: nat) {
    match TaskOf(s, e)
    case Dupping(src, _) => Open(s, Slot(e, src))
    case GotRuns(fd, runs) => Open(s, Slot(e, fd)) && runs <= RunsOf(s, e)
    case GotFdRef(fd, runs, fdRef) =>
      Open(s, Slot(e, fd)) && runs <= RunsOf(s, e)
      && (s.cur == e && runs == RunsOf(s, e) ==> fdRef == |Same(s, Slot(e, fd))|)
    case GotPipeRef(fd, runs, fdRef, pipeRef) =>
      Open(s, Slot(e, fd)) && runs <= RunsOf(s, e)
      && (s.cur == e && runs == RunsOf(s, e) ==> fdRef == |Same(s, Slot(e, fd))| && pipeRef == |s.data|)
    case _ => true
  }

  predicate ChildSlotOk(s: Pipe, e: nat, child: nat, next: nat, fd: nat) {
    && (Slot(child, fd) in s.readers <==> Slot(e, fd) in s.readers && fd < next)
    && (Slot(child, fd) in s.writers <==> Slot(e, fd) in s.writers && fd < next)
    && (Slot(child, fd) in s.data <==> Slot(e, fd) in s.data && MAXFD + fd < next)
  }

  // What a fork has done: the child has its parent's slots as far as the pages were visited.
  ghost predicate ForkOk(s: Pipe, e: nat) {
    match TaskOf(s, e)
    case Forking(child, next) =>
      child in s.embryos && next <= 2 * MAXFD && forall fd: nat :: ChildSlotOk(s, e, child, next, fd)
    case _ => true
  }

  ghost predicate ForksOk(s: Pipe) {
    && s.cur !in s.embryos
    && (forall e: nat :: ForkOk(s, e))
    && (forall e: nat :: e in s.embryos ==> TaskOf(s, e).Idle?)
    && (forall e: nat, e': nat :: TaskOf(s, e).Forking? && TaskOf(s, e').Forking? && TaskOf(s, e).child == TaskOf(s, e').child ==> e == e')
  }

  ghost predicate Inv(s: Pipe) { SlotsOk(s) && (forall e: nat :: AskOk(s, e)) && ForksOk(s) }

  // pipe's result: one reading and one writing slot of its caller.
  function Fresh(e: nat, r: nat, w: nat): Pipe {
    Pipe({Slot(e, r)}, {Slot(e, w)}, {Slot(e, r), Slot(e, w)}, map[], map[], e, {})
  }

  lemma FreshInv(e: nat, r: nat, w: nat)
    requires r != w && r < MAXFD && w < MAXFD
    ensures Inv(Fresh(e, r, w))
  {
  }

  // ---- every step keeps it ----

  lemma StepKeepsSlot(s: Pipe, op: Op, x: Slot)
    requires Inv(s) && Enabled(s, op)
    ensures SlotOk(Step(s, op), x)
  {
    assert SlotOk(s, x) && AskOk(s, s.cur) && ForkOk(s, s.cur);
    assert x == Slot(x.env, x.fd);
    match op
    case ForkPage =>
      assert SlotOk(s, Slot(s.cur, x.fd)) && ChildSlotOk(s, s.cur, TaskOf(s, s.cur).child, TaskOf(s, s.cur).next, x.fd);
    case ForkEnd =>
      assert SlotOk(s, Slot(s.cur, x.fd)) && ChildSlotOk(s, s.cur, TaskOf(s, s.cur).child, TaskOf(s, s.cur).next, x.fd);
    case DupData(src, dst) => assert SlotOk(s, Slot(s.cur, dst));
    case DupFd => assert InFlight(s, Slot(s.cur, TaskOf(s, s.cur).dst));
    case CloseData => assert InFlight(s, Slot(s.cur, TaskOf(s, s.cur).fd));
    case DupAbort => assert InFlight(s, Slot(s.cur, TaskOf(s, s.cur).dst));
    case _ =>
  }

  lemma StepKeepsAsk(s: Pipe, op: Op, e: nat)
    requires Inv(s) && Enabled(s, op)
    ensures AskOk(Step(s, op), e)
  {
    assert AskOk(s, e) && AskOk(s, s.cur);
  }

  // The slots of a child whose fork this step does not work on.
  lemma StepKeepsChildSlot(s: Pipe, op: Op, e: nat, fd: nat)
    requires Inv(s) && Enabled(s, op) && TaskOf(Step(s, op), e).Forking?
    ensures var t := TaskOf(Step(s, op), e); ChildSlotOk(Step(s, op), e, t.child, t.next, fd)
  {
    var t := TaskOf(Step(s, op), e);
    assert ForkOk(s, e) && ForkOk(s, s.cur);
    assert SlotOk(s, Slot(e, fd)) && SlotOk(s, Slot(t.child, fd));
    if TaskOf(s, e).Forking? { assert ChildSlotOk(s, e, t.child, TaskOf(s, e).next, fd); }
  }

  lemma StepKeepsForks(s: Pipe, op: Op)
    requires Inv(s) && Enabled(s, op)
    ensures ForksOk(Step(s, op))
  {
    var s' := Step(s, op);
    forall e: nat ensures ForkOk(s', e) {
      assert ForkOk(s, e) && ForkOk(s, s.cur);
      if TaskOf(s', e).Forking? {
        forall fd: nat ensures ChildSlotOk(s', e, TaskOf(s', e).child, TaskOf(s', e).next, fd) { StepKeepsChildSlot(s, op, e, fd); }
      }
    }
    assert ForkOk(s, s.cur);
    forall e: nat, e': nat | TaskOf(s', e).Forking? && TaskOf(s', e').Forking? && TaskOf(s', e).child == TaskOf(s', e').child
      ensures e == e'
    {
      assert ForkOk(s, e) && ForkOk(s, e');
    }
  }

  lemma StepKeeps(s: Pipe, op: Op)
    requires Inv(s) && Enabled(s, op)
    ensures Inv(Step(s, op))
  {
    forall x ensures SlotOk(Step(s, op), x) { StepKeepsSlot(s, op, x); }
    forall e: nat ensures AskOk(Step(s, op), e) { StepKeepsAsk(s, op, e); }
    StepKeepsForks(s, op);
  }

  // ---- counting ----

  // The slots fork has not finished: fd page mapped, data page not yet.  And those close or dup
  // has not finished: data page mapped, fd page not.
  function Half(s: Pipe): set<Slot> { s.readers + s.writers - s.data }

  function Flying(s: Pipe): set<Slot> { s.data - (s.readers + s.writers) }

  lemma WhatIsHalfDone(s: Pipe, x: Slot)
    requires Inv(s)
    ensures x in Flying(s) <==> InFlight(s, x)
    ensures x in Half(s) ==> x.env in s.embryos
    ensures s.embryos == {} ==> Half(s) == {}
  {
    assert SlotOk(s, x);
    forall y ensures y in Half(s) ==> y.env in s.embryos { assert SlotOk(s, y); }
  }

  lemma Disjoint(a: set<Slot>, b: set<Slot>)
    ensures |a| == |a - b| + |a * b|
  {
    assert a == (a - b) + (a * b);
  }

  // The count of an end equals that of the data page exactly when the fork slots still without
  // their data page make up for the other end and the half-done closes and dups.
  lemma CountsAgree(s: Pipe, x: Slot)
    requires Inv(s) && Open(s, x)
    ensures |Same(s, x)| == |s.data| <==> |Half(s)| == |Other(s, x)| + |Flying(s)|
    ensures Half(s) == {} ==> |s.data| >= |s.readers| + |s.writers|
    ensures Half(s) == {} ==> (|Same(s, x)| == |s.data| <==> Other(s, x) == {} && Flying(s) == {})
  {
    var open := s.readers + s.writers;
    assert s.readers !! s.writers by {
      forall y ensures y !in s.readers || y !in s.writers { assert SlotOk(s, y); }
    }
    assert |open| == |Same(s, x)| + |Other(s, x)|;
    Disjoint(open, s.data);
    Disjoint(s.data, open);
    assert open * s.data == s.data * open;
  }

  // The answer _pipe_is_closed returns is that comparison, for the moment it is returned; while
  // no fork is half done it says that no slot of the other end is open and no close or dup is
  // half done.
  lemma AnswerIsExact(s: Pipe)
    requires Inv(s) && Enabled(s, Check) && TaskOf(Step(s, Check), s.cur).Answered?
    ensures var x := Slot(s.cur, TaskOf(s, s.cur).fd);
      TaskOf(Step(s, Check), s.cur).closed <==> |Half(s)| == |Other(s, x)| + |Flying(s)|
    ensures var x := Slot(s.cur, TaskOf(s, s.cur).fd);
      Half(s) == {} ==> (TaskOf(Step(s, Check), s.cur).closed <==> Other(s, x) == {} && forall y :: !InFlight(s, y))
  {
    assert AskOk(s, s.cur);
    CountsAgree(s, Slot(s.cur, TaskOf(s, s.cur).fd));
    forall y ensures y in Flying(s) <==> InFlight(s, y) { WhatIsHalfDone(s, y); }
    assert Flying(s) == {} <==> forall y :: y !in Flying(s);
  }

  // ---- over runs ----

  ghost predicate Follows(s: Pipe, ops: seq<Op>, s': Pipe)
    decreases ops
  {
    if ops == [] then s' == s else Enabled(s, ops[0]) && Follows(Step(s, ops[0]), ops[1..], s')
  }

  // An end with no slot left has none ever after.
  lemma NoEndComesBack(s: Pipe, op: Op)
    requires Inv(s) && Enabled(s, op)
    ensures s.readers == {} ==> Step(s, op).readers == {}
    ensures s.writers == {} ==> Step(s, op).writers == {}
  {
    assert AskOk(s, s.cur);
  }

  lemma {:induction false} RunKeeps(s: Pipe, ops: seq<Op>, s': Pipe)
    requires Inv(s) && Follows(s, ops, s')
    ensures Inv(s')
    ensures s.readers == {} ==> s'.readers == {}
    ensures s.writers == {} ==> s'.writers == {}
    decreases ops
  {
    if ops != [] {
      StepKeeps(s, ops[0]);
      NoEndComesBack(s, ops[0]);
      RunKeeps(Step(s, ops[0]), ops[1..], s');
    }
  }

  // Whatever the environments did before and do after: if no fork was between a pipe's fd page
  // and its data page when the pipe answered "closed", no slot of the other end is open then or
  // at any later time.
  lemma NeverFalselyClosed(e: nat, r: nat, w: nat, before: seq<Op>, s: Pipe, after: seq<Op>, s': Pipe)
    requires r != w && r < MAXFD && w < MAXFD && Follows(Fresh(e, r, w), before, s) && Half(s) == {}
    requires Enabled(s, Check) && TaskOf(Step(s, Check), s.cur) == Answered(true) && Follows(Step(s, Check), after, s')
    ensures if Slot(s.cur, TaskOf(s, s.cur).fd) in s.readers then s.writers == {} && s'.writers == {}
            else s.readers == {} && s'.readers == {}
  {
    FreshInv(e, r, w);
    RunKeeps(Fresh(e, r, w), before, s);
    AnswerIsExact(s);
    StepKeeps(s, Check);
    RunKeeps(Step(s, Check), after, s');
  }

  // ---- why each precaution is there ----

  lemma {:induction false} RunsCompose(s: Pipe, a: seq<Op>, m: Pipe, b: seq<Op>, s': Pipe)
    requires Follows(s, a, m) && Follows(m, b, s')
    ensures Follows(s, a + b, s')
    decreases a
  {
    if a == [] {
      assert a + b == b;
    } else {
      assert (a + b)[1..] == a[1..] + b;
      RunsCompose(Step(s, a[0]), a[1..], m, b, s');
    }
  }

  lemma OneMore(s: Pipe, a: seq<Op>, m: Pipe, op: Op)
    requires Follows(s, a, m) && Enabled(m, op)
    ensures Follows(s, a + [op], Step(m, op))
  {
    assert Follows(m, [op], Step(m, op));
    RunsCompose(s, a, m, [op], Step(m, op));
  }

  // The slots of parent below n, as slots of child.
  function Copied(slots: set<Slot>, parent: nat, child: nat, n: int): set<Slot> {
    set x | x in slots && x.env == parent && x.fd < n :: Slot(child, x.fd)
  }

  lemma CopiedOneMore(slots: set<Slot>, parent: nat, child: nat, n: nat)
    requires child != parent
    ensures CopySlot(slots + Copied(slots, parent, child, n), parent, child, n) == slots + Copied(slots, parent, child, n + 1)
  {
    forall x ensures x in Copied(slots, parent, child, n + 1) <==>
        x in Copied(slots, parent, child, n) || (x == Slot(child, n) && Slot(parent, n) in slots)
    {
      assert x == Slot(x.env, x.fd);
      assert x in Copied(slots, parent, child, n + 1) ==> Slot(parent, x.fd) in slots;
      assert Slot(parent, x.fd) in slots && x.env == child && x.fd < n ==> x in Copied(slots, parent, child, n);
    }
  }

  // fork after n pages.
  function ForkedUpTo(s: Pipe, child: nat, n: nat): Pipe {
    s.(readers := s.readers + Copied(s.readers, s.cur, child, if n < MAXFD then n else MAXFD),
       writers := s.writers + Copied(s.writers, s.cur, child, if n < MAXFD then n else MAXFD),
       data := s.data + Copied(s.data, s.cur, child, n - MAXFD),
       tasks := s.tasks[child := Idle][s.cur := Forking(child, n)], embryos := s.embryos + {child})
  }

  lemma ForkStep(s: Pipe, child: nat, n: nat)
    requires Enabled(s, ForkBegin(child)) && n < 2 * MAXFD
    ensures Enabled(ForkedUpTo(s, child, n), ForkPage)
    ensures Step(ForkedUpTo(s, child, n), ForkPage) == ForkedUpTo(s, child, n + 1)
  {
    if n < MAXFD {
      CopiedOneMore(s.readers, s.cur, child, n);
      CopiedOneMore(s.writers, s.cur, child, n);
    } else {
      CopiedOneMore(s.data, s.cur, child, n - MAXFD);
    }
    var tasks: map<nat, Task> := s.tasks[child := Idle];
    assert tasks[s.cur := Forking(child, n)][s.cur := Forking(child, n + 1)] == tasks[s.cur := Forking(child, n + 1)];
  }

  lemma ForkStarts(s: Pipe, child: nat)
    requires Enabled(s, ForkBegin(child))
    ensures Follows(s, [ForkBegin(child)], ForkedUpTo(s, child, 0))
  {
    assert Copied(s.readers, s.cur, child, 0) == {} && Copied(s.writers, s.cur, child, 0) == {};
    assert Copied(s.data, s.cur, child, 0 - MAXFD) == {};
    assert Step(s, ForkBegin(child)) == ForkedUpTo(s, child, 0);
  }

  lemma ForkOneMore(s: Pipe, child: nat, n: nat, ops: seq<Op>)
    requires Enabled(s, ForkBegin(child)) && n < 2 * MAXFD && Follows(s, ops, ForkedUpTo(s, child, n))
    ensures Follows(s, ops + [ForkPage], ForkedUpTo(s, child, n + 1))
  {
    ForkStep(s, child, n);
    OneMore(s, ops, ForkedUpTo(s, child, n), ForkPage);
  }

  lemma {:induction false} ForkRuns(s: Pipe, child: nat, n: nat) returns (ops: seq<Op>)
    requires Enabled(s, ForkBegin(child)) && n <= 2 * MAXFD
    ensures Follows(s, ops, ForkedUpTo(s, child, n))
  {
    if n == 0 {
      ops := [ForkBegin(child)];
      ForkStarts(s, child);
    } else {
      ops := ForkRuns(s, child, n - 1);
      ForkOneMore(s, child, n - 1, ops);
      ops := ops + [ForkPage];
    }
  }

  lemma FourSteps(s: Pipe, a: Op, s1: Pipe, b: Op, s2: Pipe, c: Op, s3: Pipe, d: Op, s4: Pipe)
    requires Enabled(s, a) && s1 == Step(s, a) && Enabled(s1, b) && s2 == Step(s1, b)
    requires Enabled(s2, c) && s3 == Step(s2, c) && Enabled(s3, d) && s4 == Step(s3, d)
    ensures Follows(s, [a, b, c, d], s4)
  {
    assert Follows(s3, [d], s4);
    assert Follows(s2, [c, d], s4);
    assert Follows(s1, [b, c, d], s4);
  }

  // The child right after fork.
  function Forked(): Pipe {
    Pipe({Slot(1, 0), Slot(3, 0)}, {Slot(1, 1), Slot(3, 1)}, {Slot(1, 0), Slot(1, 1), Slot(3, 0), Slot(3, 1)},
         map[1 := Idle, 3 := Idle], map[], 1, {})
  }

  lemma ForkedIsReached() returns (ops: seq<Op>)
    ensures Follows(Fresh(1, 0, 1), ops, Forked())
  {
    var s := Fresh(1, 0, 1);
    ops := ForkRuns(s, 3, 2 * MAXFD);
    var s1 := ForkedUpTo(s, 3, 2 * MAXFD);
    assert Slot(1, 0) in s.readers && Slot(1, 1) in s.writers && Slot(1, 0) in s.data && Slot(1, 1) in s.data;
    assert Copied(s.readers, 1, 3, MAXFD) == {Slot(3, 0)} && Copied(s.writers, 1, 3, MAXFD) == {Slot(3, 1)};
    assert Copied(s.data, 1, 3, MAXFD) == {Slot(3, 0), Slot(3, 1)};
    OneMore(s, ops, s1, ForkEnd);
    ops := ops + [ForkEnd];
    assert Step(s1, ForkEnd) == Forked();
  }

  // Two readers and one writer, the child having closed its writing end.
  function OneWriter(task: Task): Pipe {
    Pipe({Slot(1, 0), Slot(3, 0)}, {Slot(1, 1)}, {Slot(1, 0), Slot(3, 0), Slot(1, 1)},
         map[1 := task, 3 := Idle], map[1 := 1, 3 := 1], 1, {})
  }

  lemma OneWriterIsReached() returns (ops: seq<Op>)
    ensures Follows(Fresh(1, 0, 1), ops, OneWriter(Idle))
  {
    ops := ForkedIsReached();
    var s1 := Step(Forked(), Switch(3));
    var s2 := Step(s1, CloseFd(1));
    var s3 := Step(s2, CloseData);
    assert s3.data == {Slot(1, 0), Slot(1, 1), Slot(3, 0)} && s3.readers == {Slot(1, 0), Slot(3, 0)} && s3.writers == {Slot(1, 1)};
    assert Step(s3, Switch(1)) == OneWriter(Idle);
    FourSteps(Forked(), Switch(3), s1, CloseFd(1), s2, CloseData, s3, Switch(1), OneWriter(Idle));
    RunsCompose(Fresh(1, 0, 1), ops, Forked(), [Switch(3), CloseFd(1), CloseData, Switch(1)], OneWriter(Idle));
    ops := ops + [Switch(3), CloseFd(1), CloseData, Switch(1)];
  }

  // Environment 1 asks, and has just counted the readers.
  lemma CountedIsReached() returns (ops: seq<Op>)
    ensures Follows(Fresh(1, 0, 1), ops, OneWriter(GotFdRef(0, 1, 2)))
  {
    var before := OneWriterIsReached();
    OneMore(Fresh(1, 0, 1), before, OneWriter(Idle), Ask(0));
    var s := Step(OneWriter(Idle), Ask(0));
    assert s == OneWriter(GotRuns(0, 1));
    assert |s.readers| == 2;
    OneMore(Fresh(1, 0, 1), before + [Ask(0)], s, ReadFdRef);
    assert Step(s, ReadFdRef) == OneWriter(GotFdRef(0, 1, 2));
    ops := before + [Ask(0)] + [ReadFdRef];
  }

  // Without the second look at env_runs the two counts need not belong together: the other
  // reader closes between them, and they agree although the writer is open.
  lemma CountsFromTwoMomentsLie() returns (ops: seq<Op>, s: Pipe)
    ensures Follows(Fresh(1, 0, 1), ops, s) && Enabled(s, Check) && s.cur == 1
    ensures TaskOf(s, 1) == GotPipeRef(0, 1, 2, 2) && Slot(1, 0) in s.readers && Slot(1, 1) in s.writers
    ensures TaskOf(Step(s, Check), 1).GotRuns?
  {
    ops := CountedIsReached();
    var s0 := OneWriter(GotFdRef(0, 1, 2));
    var s1 := Step(s0, Switch(3));
    var s2 := Step(s1, CloseFd(0));
    var s3 := Step(s2, CloseData);
    assert s3.data == {Slot(1, 0), Slot(1, 1)} && |s3.data| == 2;
    var s4 := Step(s3, Switch(1));
    FourSteps(s0, Switch(3), s1, CloseFd(0), s2, CloseData, s3, Switch(1), s4);
    RunsCompose(Fresh(1, 0, 1), ops, s0, [Switch(3), CloseFd(0), CloseData, Switch(1)], s4);
    ops := ops + [Switch(3), CloseFd(0), CloseData, Switch(1)];
    OneMore(Fresh(1, 0, 1), ops, s4, ReadPipeRef);
    ops, s := ops + [ReadPipeRef], Step(s4, ReadPipeRef);
  }

  // ---- a fork that is seen half done ----

  // One environment with both ends, and a child of its that has closed its reading end.
  function Shared(): Pipe {
    Pipe({Slot(1, 0)}, {Slot(1, 1), Slot(3, 1)}, {Slot(1, 0), Slot(1, 1), Slot(3, 1)},
         map[1 := Idle, 3 := Idle], map[1 := 1, 3 := 1], 1, {})
  }

  lemma SharedIsReached() returns (ops: seq<Op>)
    ensures Follows(Fresh(1, 0, 1), ops, Shared())
  {
    ops := ForkedIsReached();
    var s1 := Step(Forked(), Switch(3));
    var s2 := Step(s1, CloseFd(0));
    var s3 := Step(s2, CloseData);
    assert s3.data == {Slot(1, 0), Slot(1, 1), Slot(3, 1)} && s3.readers == {Slot(1, 0)} && s3.writers == {Slot(1, 1), Slot(3, 1)};
    assert Step(s3, Switch(1)) == Shared();
    FourSteps(Forked(), Switch(3), s1, CloseFd(0), s2, CloseData, s3, Switch(1), Shared());
    RunsCompose(Fresh(1, 0, 1), ops, Forked(), [Switch(3), CloseFd(0), CloseData, Switch(1)], Shared());
    ops := ops + [Switch(3), CloseFd(0), CloseData, Switch(1)];
  }

  // Environment 1 has begun to fork again, and its next child has the two fd pages.
  function SecondFork(): Pipe {
    Pipe({Slot(1, 0), Slot(2, 0)}, {Slot(1, 1), Slot(3, 1), Slot(2, 1)}, {Slot(1, 0), Slot(1, 1), Slot(3, 1)},
         map[1 := Forking(2, 2), 2 := Idle, 3 := Idle], map[1 := 1, 3 := 1], 1, {2})
  }

  lemma SecondForkIsReached() returns (ops: seq<Op>)
    ensures Follows(Fresh(1, 0, 1), ops, SecondFork())
  {
    var before := SharedIsReached();
    var half := ForkRuns(Shared(), 2, 2);
    var s := ForkedUpTo(Shared(), 2, 2);
    assert Slot(1, 0) in Shared().readers && Slot(1, 1) in Shared().writers;
    assert Copied(Shared().readers, 1, 2, 2) == {Slot(2, 0)} && Copied(Shared().writers, 1, 2, 2) == {Slot(2, 1)};
    assert Copied(Shared().data, 1, 2, 2 - MAXFD) == {};
    assert s == SecondFork();
    RunsCompose(Fresh(1, 0, 1), before, Shared(), half, s);
    ops := before + half;
  }

  // fork gives the child its fd pages before its data pages.  Environment 3 asks now, counts
  // three writing ends and three data pages, and is told that the pipe is closed, although a
  // reading end of an environment that runs is open.
  lemma HalfDoneForkLies() returns (ops: seq<Op>, s: Pipe)
    ensures Follows(Fresh(1, 0, 1), ops, s) && Enabled(s, Check) && s.cur == 3
    ensures TaskOf(s, 3).GotPipeRef? && TaskOf(s, 3).fd == 1 && Slot(3, 1) in s.writers
    ensures TaskOf(Step(s, Check), 3) == Answered(true) && Slot(1, 0) in s.readers
  {
    ops := SecondForkIsReached();
    var s0 := SecondFork();
    assert |s0.writers| == 3 && |s0.data| == 3;
    var s1 := Step(s0, Switch(3));
    var s2 := Step(s1, Ask(1));
    var s3 := Step(s2, ReadFdRef);
    s := Step(s3, ReadPipeRef);
    FourSteps(s0, Switch(3), s1, Ask(1), s2, ReadFdRef, s3, ReadPipeRef, s);
    RunsCompose(Fresh(1, 0, 1), ops, s0, [Switch(3), Ask(1), ReadFdRef, ReadPipeRef], s);
    ops := ops + [Switch(3), Ask(1), ReadFdRef, ReadPipeRef];
  }
}
