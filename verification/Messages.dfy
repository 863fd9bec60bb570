// Exactly-once delivery of IPC messages over every run (kern/syscall_all.c, user/lib/ipc.c).
module Messages {
  import Sv32
  import opened Environments
  import opened EnvironmentRuns

  datatype Message = Message(value: nat, from: nat, perm: Sv32.Bits)

  // The kernel with a history.  awaiting: environments inside ipc_recv, from the system
  // call to the reads of env_ipc_value, env_ipc_from and env_ipc_perm that follow its return.  sent:
  // per environment identifier, the sends that passed the receiving check.  seen: what
  // ipc_recv returned.
  datatype Mail = Mail(k: Kernel, awaiting: set<nat>, sent: map<nat, seq<Message>>, seen: map<nat, seq<Message>>)

  // env_ipc_perm, as the receiver finds it.
  function SentPerm(perm: Sv32.Bits): Sv32.Bits { Sv32.PTE_U | Sv32.PTE_R | Sv32.PTE_V | perm }

  datatype Action = Trap(op: Op) | Collect

  function Log(m: map<nat, seq<Message>>, id: nat): seq<Message> { if id in m then m[id] else [] }

  // Inside ipc_recv an environment makes no further call; the timer may still interrupt it.
  predicate Enabled(m: Mail, a: Action) {
    && Standing(m.k)
    && match a
       case Collect => m.k.cur.e in m.awaiting
       case Trap(op) => Guarded(m.k, op) && Step(m.k, op).Ran? && (m.k.cur.e in m.awaiting ==> op.Tick?)
  }

  predicate Receives(op: Op) { op.IpcRecv? && (op.dstva == 0 || !IllegalVa(op.dstva)) }

  predicate Kills(k: Kernel, op: Op, e: nat)
    requires Standing(k)
  {
    op.Destroy? && EnvId2Env(k, op.envid, true) == Found(e)
  }

  predicate SendsTo(k: Kernel, op: Op, e: nat)
    requires Standing(k)
  {
    op.IpcTrySend? && Receiver(k, op) == Found(e)
  }

  function Next(m: Mail, a: Action): Mail
    requires Enabled(m, a)
  {
    var c := m.k.cur.e;
    match a
    case Collect =>
      var v := m.k.envs[c];
      m.(awaiting := m.awaiting - {c}, seen := m.seen[v.id := Log(m.seen, v.id) + [Message(v.value, v.from, v.perm)]])
    case Trap(op) =>
      var m1 := m.(k := Step(m.k, op).k);
      if Receives(op) then m1.(awaiting := m.awaiting + {c})
      else if op.Destroy? then m1.(awaiting := set e | e in m.awaiting && !Kills(m.k, op, e))
      else if op.IpcTrySend? && Receiver(m.k, op).Found? && Receiver(m.k, op).e < NENV then
        var id := m.k.envs[Receiver(m.k, op).e].id;
        m1.(sent := m.sent[id := Log(m.sent, id) + [Message(op.value, m.k.envs[c].id, SentPerm(op.perm))]])
      else m1
  }

  // The message lying in an environment's ipc fields, not yet returned by its ipc_recv.
  function Pending(m: Mail, e: nat): seq<Message>
    requires e < |m.k.envs|
  {
    if e in m.awaiting && !m.k.envs[e].recving then [Message(m.k.envs[e].value, m.k.envs[e].from, m.k.envs[e].perm)] else []
  }

  ghost predicate Accounted(m: Mail) {
    forall e: nat :: Live(m.k, e) ==>
      Log(m.sent, m.k.envs[e].id) == Log(m.seen, m.k.envs[e].id) + Pending(m, e)
  }

  ghost predicate Waiting(m: Mail) {
    && (forall e: nat :: e in m.awaiting ==> Live(m.k, e))
    && (forall e: nat :: e < |m.k.envs| && m.k.envs[e].recving ==> e in m.awaiting)
  }

  ghost predicate LogsBelow(m: Mail, id: nat) {
    forall i: nat :: i in m.sent || i in m.seen ==> i < id
  }

  ghost predicate MailOk(m: Mail) {
    && Inv(m.k) && Standing(m.k) && Accounted(m) && Waiting(m) && LogsBelow(m, MkEnvId(m.k.made, 0))
    && !m.k.envs[m.k.cur.e].recving
  }

  // ---- what a trap does to ipc fields ----

  function Mailbox(v: Env): (nat, Message, bool) { (v.id, Message(v.value, v.from, v.perm), v.recving) }

  // What becomes of environment i's ipc fields.
  function After(k: Kernel, op: Op, i: nat): (nat, Message, bool)
    requires Standing(k) && i < NENV
  {
    var v := k.envs[i];
    if Receives(op) && k.cur == Cur(i) then (v.id, Mailbox(v).1, true)
    else if SendsTo(k, op, i) then (v.id, Message(op.value, k.envs[k.cur.e].id, SentPerm(op.perm)), false)
    else Mailbox(v)
  }

  ghost predicate MailFrame(k: Kernel, op: Op, k': Kernel) {
    && Standing(k) && |k'.envs| == NENV && k'.made >= k.made
    && (forall i: nat :: Live(k, i) ==> (Live(k', i) <==> !Kills(k, op, i)))
    && (forall i: nat :: Live(k, i) && Live(k', i) ==> Mailbox(k'.envs[i]) == After(k, op, i))
    && (forall i: nat :: i < NENV && !Live(k, i) ==> k'.envs[i].recving == k.envs[i].recving)
    && (forall i: nat :: Live(k, i) && !Live(k', i) ==> !k'.envs[i].recving)
    && (forall i: nat :: i < NENV && !Live(k, i) && Live(k', i) ==> MkEnvId(k.made, 0) <= k'.envs[i].id < MkEnvId(k'.made, 0))
  }

  predicate SameButRuns(k: Kernel, k': Kernel) {
    |k'.envs| == |k.envs| && k'.made == k.made
    && forall i: nat :: i < |k.envs| ==> k'.envs[i].(runs := 0) == k.envs[i].(runs := 0)
  }

  lemma ScheduleFrame(k: Kernel, yielding: bool)
    requires Inv(k) && Schedule(k, yielding).Ran?
    ensures SameButRuns(k, Schedule(k, yielding).k)
  {
    Head(k);
  }

  lemma ExoforkFrame(k: Kernel, vmOk: bool)
    requires Inv(k) && Standing(k)
    ensures SysExofork(k, vmOk).Ran? && MailFrame(k, Exofork(vmOk), SysExofork(k, vmOk).k)
  {
    ExoforkKeeps(k, vmOk);
    if k.free != [] {
      assert k.free[0] in k.free;
      MadeIds(k.made, k.free[0]);
    }
  }

  lemma FreedFrame(k: Kernel, envid: nat, e: nat, k': Kernel)
    requires Standing(k) && EnvId2Env(k, envid, true) == Found(e) && e < NENV && !k.envs[e].recving && Live(k, e)
    requires EnvFree(k, e).Ran? && SameButRuns(EnvFree(k, e).k, k')
    ensures MailFrame(k, Destroy(envid), k')
  {
    var freed := EnvFree(k, e).k;
    assert forall i: nat :: i < NENV && i != e ==> freed.envs[i] == k.envs[i];
    assert forall i: nat :: i < NENV ==> Mailbox(k'.envs[i]) == Mailbox(freed.envs[i]) && k'.envs[i].status == freed.envs[i].status;
  }

  lemma DestroyFrame(k: Kernel, envid: nat)
    requires Inv(k) && Standing(k) && SysEnvDestroy(k, envid).Ran?
    ensures MailFrame(k, Destroy(envid), SysEnvDestroy(k, envid).k)
  {
    FoundIsLive(k, envid, true);
    if EnvId2Env(k, envid, true).Found? {
      var e := EnvId2Env(k, envid, true).e;
      FreeKeeps(k, e);
      var freed := EnvFree(k, e).k;
      if k.cur == Cur(e) { ScheduleFrame(freed.(cur := Nobody), true); }
      assert SameButRuns(freed, SysEnvDestroy(k, envid).k);
      FreedFrame(k, envid, e, SysEnvDestroy(k, envid).k);
    }
  }

  lemma BlockedFrame(k: Kernel, dstva: nat, k': Kernel)
    requires Standing(k) && Receives(IpcRecv(dstva)) && Live(k, k.cur.e) && SameButRuns(Blocked(k, dstva), k')
    ensures MailFrame(k, IpcRecv(dstva), k')
  {
    var blocked := Blocked(k, dstva);
    assert forall i: nat :: i < NENV && i != k.cur.e ==> blocked.envs[i] == k.envs[i];
    assert forall i: nat :: i < NENV ==> Mailbox(k'.envs[i]) == Mailbox(blocked.envs[i]) && k'.envs[i].status == blocked.envs[i].status;
  }

  lemma RecvFrame(k: Kernel, dstva: nat)
    requires Inv(k) && Standing(k) && SysIpcRecv(k, dstva).Ran?
    ensures MailFrame(k, IpcRecv(dstva), SysIpcRecv(k, dstva).k)
  {
    RecvKeeps(k, dstva);
    if Receives(IpcRecv(dstva)) {
      ScheduleFrame(Blocked(k, dstva), true);
      BlockedFrame(k, dstva, SysIpcRecv(k, dstva).k);
    }
  }

  lemma SendFrame(k: Kernel, op: Op)
    requires Inv(k) && Standing(k) && op.IpcTrySend?
    ensures SysIpcTrySend(k, op).Ran? && MailFrame(k, op, SysIpcTrySend(k, op).k)
  {
    SendKeeps(k, op);
    FoundIsLive(k, op.envid, false);
  }

  lemma StatusFrame(k: Kernel, envid: nat, status: Status, k': Kernel)
    requires Standing(k) && |k'.envs| == NENV && k'.made == k.made
    requires forall i: nat :: i < NENV ==> Mailbox(k'.envs[i]) == Mailbox(k.envs[i])
    requires forall i: nat :: Live(k, i) <==> Live(k', i)
    ensures MailFrame(k, SetStatus(envid, status), k')
  {
  }

  lemma SetStatusFrame(k: Kernel, envid: nat, status: Status)
    requires Inv(k) && Standing(k)
    ensures SysSetEnvStatus(k, envid, status).Ran? && MailFrame(k, SetStatus(envid, status), SysSetEnvStatus(k, envid, status).k)
  {
    SetStatusKeeps(k, envid, status);
    FoundIsLive(k, envid, true);
    StatusFrame(k, envid, status, SysSetEnvStatus(k, envid, status).k);
  }

  lemma TrapFrame(k: Kernel, op: Op)
    requires Inv(k) && Standing(k) && Step(k, op).Ran?
    ensures MailFrame(k, op, Step(k, op).k)
  {
    match op
    case Tick => ScheduleFrame(k, false);
    case Yield => ScheduleFrame(k, true);
    case Exofork(vmOk) => ExoforkFrame(k, vmOk);
    case SetStatus(envid, status) => SetStatusFrame(k, envid, status);
    case Destroy(envid) => DestroyFrame(k, envid);
    case IpcRecv(dstva) => RecvFrame(k, dstva);
    case IpcTrySend(_, _, _, _, _, _) => SendFrame(k, op);
  }

  // The current environment is never one that is still waiting.
  lemma CurrentIsNotReceiving(k: Kernel, op: Op)
    requires Inv(k) && Standing(k) && Guarded(k, op) && Step(k, op).Ran? && !k.envs[k.cur.e].recving
    ensures var k' := Step(k, op).k; k'.cur.Cur? && k'.cur.e < |k'.envs| && !k'.envs[k'.cur.e].recving
  {
    TrapFrame(k, op);
    StepKeeps(k, op);
    match op
    case Tick => ScheduleKeeps(k, false);
    case Yield => ScheduleKeeps(k, true);
    case Destroy(envid) =>
      FoundIsLive(k, envid, true);
      if EnvId2Env(k, envid, true).Found? {
        var e := EnvId2Env(k, envid, true).e;
        FreeKeeps(k, e);
        if k.cur == Cur(e) { ScheduleKeeps(EnvFree(k, e).k.(cur := Nobody), true); }
      }
    case IpcRecv(dstva) =>
      RecvKeeps(k, dstva);
      if Receives(op) { ScheduleKeeps(Blocked(k, dstva), true); }
    case _ =>
  }

  lemma LiveIdsDiffer(k: Kernel, i: nat, j: nat)
    requires IdsOk(k) && Live(k, i) && Live(k, j) && i != j
    ensures k.envs[i].id != k.envs[j].id
  {
  }

  // ---- the theorem ----

  lemma OldAccount(m: Mail, op: Op, k': Kernel, i: nat)
    requires MailOk(m) && Enabled(m, Trap(op)) && k' == Step(m.k, op).k && MailFrame(m.k, op, k') && Live(k', i) && Live(m.k, i)
    ensures var m' := Next(m, Trap(op)); Log(m'.sent, k'.envs[i].id) == Log(m'.seen, k'.envs[i].id) + Pending(m', i)
  {
    assert Mailbox(k'.envs[i]) == After(m.k, op, i);
    if op.IpcTrySend? && Receiver(m.k, op).Found? && Receiver(m.k, op).e != i {
      FoundIsLive(m.k, op.envid, false);
      LiveIdsDiffer(m.k, i, Receiver(m.k, op).e);
    }
  }

  // An environment just made has sent and seen nothing.
  lemma NewAccount(m: Mail, op: Op, k': Kernel, i: nat)
    requires MailOk(m) && Enabled(m, Trap(op)) && k' == Step(m.k, op).k && MailFrame(m.k, op, k') && Live(k', i) && !Live(m.k, i)
    ensures var m' := Next(m, Trap(op)); Log(m'.sent, k'.envs[i].id) == Log(m'.seen, k'.envs[i].id) + Pending(m', i)
  {
    if op.IpcTrySend? { FoundIsLive(m.k, op.envid, false); }
    assert k'.envs[i].id >= MkEnvId(m.k.made, 0);
    assert i !in m.awaiting;
  }

  // One environment's account, kept by a trap.
  lemma TrapKeepsAccount(m: Mail, op: Op, k': Kernel, i: nat)
    requires MailOk(m) && Enabled(m, Trap(op)) && k' == Step(m.k, op).k && MailFrame(m.k, op, k') && Live(k', i)
    ensures var m' := Next(m, Trap(op)); Log(m'.sent, k'.envs[i].id) == Log(m'.seen, k'.envs[i].id) + Pending(m', i)
  {
    if Live(m.k, i) { OldAccount(m, op, k', i); } else { NewAccount(m, op, k', i); }
  }

  lemma TrapKeepsWaiting(m: Mail, op: Op, k': Kernel)
    requires Waiting(m) && Enabled(m, Trap(op)) && Live(m.k, m.k.cur.e)
    requires k' == Step(m.k, op).k && MailFrame(m.k, op, k')
    ensures Waiting(Next(m, Trap(op)))
  {
    var m' := Next(m, Trap(op));
    forall e: nat | e < NENV && k'.envs[e].recving ensures e in m'.awaiting {
      if Live(m.k, e) && Live(k', e) {
        assert Mailbox(k'.envs[e]) == After(m.k, op, e);
      }
    }
  }

  lemma LaterIdsAreAbove(made: nat, made': nat)
    requires made <= made'
    ensures MkEnvId(made, 0) <= MkEnvId(made', 0)
  {
    assert MkEnvId(made, 0) == (made + 1) * 2048;
  }

  lemma TrapKeepsLogs(m: Mail, op: Op, k': Kernel)
    requires Standing(m.k) && IdsOk(m.k) && Live(m.k, m.k.cur.e) && LogsBelow(m, MkEnvId(m.k.made, 0))
    requires Enabled(m, Trap(op)) && k' == Step(m.k, op).k && k'.made >= m.k.made
    ensures LogsBelow(Next(m, Trap(op)), MkEnvId(k'.made, 0))
  {
    LaterIdsAreAbove(m.k.made, k'.made);
    if op.IpcTrySend? && Receiver(m.k, op).Found? && Receiver(m.k, op).e < NENV {
      assert Live(m.k, Receiver(m.k, op).e);
    }
  }

  lemma TrapKeeps(m: Mail, op: Op)
    requires MailOk(m) && Enabled(m, Trap(op))
    ensures MailOk(Next(m, Trap(op)))
  {
    var k, m' := m.k, Next(m, Trap(op));
    StepKeeps(k, op);
    TrapFrame(k, op);
    CurrentIsNotReceiving(k, op);
    forall i: nat | Live(m'.k, i)
      ensures Log(m'.sent, m'.k.envs[i].id) == Log(m'.seen, m'.k.envs[i].id) + Pending(m', i)
    {
      TrapKeepsAccount(m, op, m'.k, i);
    }
    TrapKeepsWaiting(m, op, m'.k);
    TrapKeepsLogs(m, op, m'.k);
  }

  lemma ActionKeeps(m: Mail, a: Action)
    requires MailOk(m) && Enabled(m, a)
    ensures MailOk(Next(m, a))
  {
    if a.Trap? {
      TrapKeeps(m, a.op);
    } else {
      var c := m.k.cur.e;
      forall i: nat | Live(m.k, i) && i != c ensures m.k.envs[i].id != m.k.envs[c].id {
        LiveIdsDiffer(m.k, i, c);
      }
    }
  }

  ghost predicate Delivers(m: Mail, acts: seq<Action>, m': Mail)
    decreases acts
  {
    if acts == [] then m' == m else Enabled(m, acts[0]) && Delivers(Next(m, acts[0]), acts[1..], m')
  }

  lemma {:induction false} RunKeepsMail(m: Mail, acts: seq<Action>, m': Mail)
    requires MailOk(m) && Delivers(m, acts, m')
    ensures MailOk(m')
    decreases acts
  {
    if acts != [] {
      ActionKeeps(m, acts[0]);
      RunKeepsMail(Next(m, acts[0]), acts[1..], m');
    }
  }

  // Over every run, what a live environment's ipc_recv calls returned, followed by at most
  // one message delivered but not yet read, is exactly what was sent to it, in order.
  lemma {:induction false} ExactlyOnce(k: Kernel, acts: seq<Action>, m: Mail)
    requires Inv(k) && Standing(k) && (forall e: nat :: e < NENV ==> !k.envs[e].recving)
    requires Delivers(Mail(k, {}, map[], map[]), acts, m)
    ensures forall e: nat :: Live(m.k, e) ==>
      Log(m.sent, m.k.envs[e].id) == Log(m.seen, m.k.envs[e].id) + Pending(m, e)
  {
    RunKeepsMail(Mail(k, {}, map[], map[]), acts, m);
  }

  // A send past the check counts as sent whatever the page mapping then answers, and the
  // delivered fields stay as they are until the receiver receives again.
  lemma DeliveredWhateverTheMapping(k: Kernel, op: Op, e: nat)
    requires Inv(k) && Standing(k) && SendsTo(k, op, e)
    ensures Step(k, op).Ran? && e < |Step(k, op).k.envs|
    ensures Mailbox(Step(k, op).k.envs[e]) == (k.envs[e].id, Message(op.value, k.envs[k.cur.e].id, SentPerm(op.perm)), false)
    ensures Step(k, op).k.envs[e].status == Runnable
    ensures op.srcva != 0 && !op.mapped ==> Step(k, op).ret == E_INVAL
    ensures op.srcva != 0 && op.mapped ==> Step(k, op).ret == op.mapResult
  {
    SendKeeps(k, op);
  }

  // No trap of this run is a receive by environment e or destroys it.
  ghost predicate LeavesAlone(k: Kernel, ops: seq<Op>, e: nat)
    requires e < NENV
    decreases ops
  {
    ops == []
    || (Standing(k) && Guarded(k, ops[0]) && Step(k, ops[0]).Ran? && !Kills(k, ops[0], e)
        && !(Receives(ops[0]) && k.cur == Cur(e)) && LeavesAlone(Step(k, ops[0]).k, ops[1..], e))
  }

  lemma {:induction false} DeliveredFieldsStay(k: Kernel, ops: seq<Op>, k': Kernel, e: nat)
    requires Inv(k) && Live(k, e) && !k.envs[e].recving && LeavesAlone(k, ops, e) && Follows(k, ops, k')
    ensures Live(k', e) && Mailbox(k'.envs[e]) == Mailbox(k.envs[e])
    decreases ops
  {
    if ops != [] {
      TrapFrame(k, ops[0]);
      StepKeeps(k, ops[0]);
      DeliveredFieldsStay(Step(k, ops[0]).k, ops[1..], k', e);
    }
  }
}
