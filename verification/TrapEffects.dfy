// What each trap answers and does, said of the fields and lists it changes (kern/syscall_all.c,
// kern/env.c, kern/sched.c).  Everything a lemma does not name stays as it is.
module TrapEffects {
  import Sv32
  import opened Environments
  import opened EnvironmentRuns
  import opened Scheduling

  // ---- lists and tables ----

  // The element e is gone from s, the others in order.
  ghost predicate Dropped(s: seq<nat>, s': seq<nat>, e: nat) {
    exists i: nat :: i < |s| && s[i] == e && s' == s[..i] + s[i + 1..]
  }

  // It has gone to the tail.
  ghost predicate ToTheTail(s: seq<nat>, s': seq<nat>, e: nat) {
    exists rest: seq<nat> :: Dropped(s, rest, e) && s' == rest + [e]
  }

  // Environment e has become v, the others are as they were.
  predicate Becomes(envs: seq<Env>, envs': seq<Env>, e: nat, v: Env) {
    && |envs'| == |envs| && e < |envs| && envs'[e] == v
    && forall i: nat :: i < |envs| && i != e ==> envs'[i] == envs[i]
  }

  lemma {:induction false} WithoutIsShorter(s: seq<nat>, e: nat) returns (i: nat)
    requires e in s
    ensures i < |s| && s[i] == e && Without(s, e) == s[..i] + s[i + 1..]
  {
    i := 0;
    if s[0] != e {
      var rest := s[1..];
      var j := WithoutIsShorter(rest, e);
      i := j + 1;
      assert rest[..j] == s[1..i] && rest[j + 1..] == s[i + 1..];
      assert [s[0]] + s[1..i] == s[..i];
    }
  }

  lemma WithoutDrops(s: seq<nat>, e: nat)
    requires e in s
    ensures Dropped(s, Without(s, e), e)
  {
    var i := WithoutIsShorter(s, e);
  }

  // ---- schedule ----

  // The first of the list runs, with a turn of its priority, and its env_runs counts it.
  ghost predicate Dispatched(k: Kernel, k': Kernel, list: seq<nat>) {
    && list != [] && list[0] < |k.envs| && k'.cur == Cur(list[0]) && k'.count == k.envs[list[0]].pri - 1
    && Becomes(k.envs, k'.envs, list[0], k.envs[list[0]].(runs := k.envs[list[0]].runs + 1))
    && k' == k.(envs := k'.envs, sched := list, cur := k'.cur, count := k'.count)
  }

  // What a call of schedule that switches does to a kernel whose current environment has its place
  // in list already.
  ghost predicate Switched(k: Kernel, o: Outcome, list: seq<nat>) {
    if list == [] then o.Panic? else o.Ran? && o.ret == 0 && Dispatched(k, o.k, list)
  }

  // With a turn left the current environment goes on and one slice is gone.  Otherwise, or when
  // asked to, it goes to the tail if it can run, and the first of the list runs.
  lemma ScheduleEffect(k: Kernel, yielding: bool) returns (list: seq<nat>)
    requires Inv(k)
    ensures !yielding && k.count != 0 && CurRunnable(k) ==>
      (var o := Schedule(k, yielding);
       o.Ran? && o.ret == 0 && o.k == k.(envs := o.k.envs, count := k.count - 1) &&
       Becomes(k.envs, o.k.envs, k.cur.e, k.envs[k.cur.e].(runs := k.envs[k.cur.e].runs + 1)))
    ensures yielding || k.count == 0 || !CurRunnable(k) ==>
      (if CurRunnable(k) then ToTheTail(k.sched, list, k.cur.e) else list == k.sched) && Switched(k, Schedule(k, yielding), list)
  {
    ScheduleEnds(k, yielding);
    Head(k);
    list := Rotated(k);
    if CurRunnable(k) { WithoutDrops(k.sched, k.cur.e); }
  }

  // ---- sys_set_env_status ----

  // A runnable environment stands at the tail, a blocked one is the one element gone.
  ghost predicate Placed(s: seq<nat>, s': seq<nat>, e: nat, was: Status, status: Status) {
    if was == status then s' == s else if status == Runnable then s' == s + [e] else Dropped(s, s', e)
  }

  lemma SetStatusEffect(k: Kernel, envid: nat, status: Status)
    requires Inv(k) && Standing(k)
    ensures var o := SysSetEnvStatus(k, envid, status);
      o.Ran? && o.ret == (if status == Status.Free then E_INVAL else if EnvId2Env(k, envid, true).BadEnv? then E_BAD_ENV else 0)
    ensures var o := SysSetEnvStatus(k, envid, status); o.ret != 0 ==> o.k == k
    ensures var o := SysSetEnvStatus(k, envid, status);
      o.ret == 0 ==>
        (var e := EnvId2Env(k, envid, true).e;
         e < NENV && o.k == k.(envs := o.k.envs, sched := o.k.sched) &&
         Becomes(k.envs, o.k.envs, e, k.envs[e].(status := status)) && Placed(k.sched, o.k.sched, e, k.envs[e].status, status))
  {
    FoundIsLive(k, envid, true);
    if status == NotRunnable && EnvId2Env(k, envid, true).Found? {
      var e := EnvId2Env(k, envid, true).e;
      if k.envs[e].status == Runnable { WithoutDrops(k.sched, e); }
    }
  }

  // ---- sys_exofork and env_create ----

  // The first free environment is taken, with an identifier, an ASID nobody has, no runs, and the
  // given parent, status and priority; its ipc fields are what they were.
  ghost predicate Made(k: Kernel, k': Kernel, e: nat, parent: nat, status: Status, pri: nat) {
    && k.free == [e] + k'.free && e < |k.envs| == |k'.envs| && k'.made == k.made + 1
    && (var v := k'.envs[e];
        v.asid !in k.asids && v.asid < NASID && k'.asids == k.asids + {v.asid} &&
        Becomes(k.envs, k'.envs, e,
                k.envs[e].(id := (k.made + 1) * 2048 + e, asid := v.asid, parent := parent, status := status, pri := pri, runs := 0)))
    && k'.cur == k.cur && k'.count == k.count
  }

  ghost predicate AsidLeft(k: Kernel) { exists a: nat :: a < NASID && a !in k.asids }

  // env_alloc's errors: no free environment, no memory, no ASID, in this order.  The last one has
  // used up an identifier.
  ghost predicate NotMade(k: Kernel, vmOk: bool, k': Kernel, ret: int) {
    if k.free == [] then ret == E_NO_FREE_ENV && k' == k
    else if !vmOk then ret == E_NO_MEM && k' == k
    else
      && ret == E_NO_FREE_ENV && !AsidLeft(k)
      && k' == k.(envs := k'.envs, made := k.made + 1) && |k'.envs| == |k.envs|
      && forall i: nat :: Live(k, i) ==> k'.envs[i] == k.envs[i]
  }

  lemma AllocFails(k: Kernel, parent: nat, vmOk: bool)
    requires |k.envs| == NENV && ListsOk(k) && (k.free == [] || !vmOk || !AsidLeft(k))
    ensures EnvAlloc(k, parent, vmOk).Ran? && NotMade(k, vmOk, EnvAlloc(k, parent, vmOk).k, EnvAlloc(k, parent, vmOk).ret)
  {
    if k.free != [] {
      assert k.free[0] in k.free;
      assert LeastFree(k.asids, 0) < NASID ==> AsidLeft(k);
    }
  }

  lemma StartedIsMade(k: Kernel, parent: nat, status: Status, pri: nat, list: seq<nat>)
    requires |k.envs| == NENV && k.free != [] && k.free[0] < NENV && AsidLeft(k)
    ensures Made(k, Started(k, parent, status, pri, list), k.free[0], parent, status, pri)
    ensures Started(k, parent, status, pri, list).sched == list
  {
    var a: nat :| a < NASID && a !in k.asids;
    assert LeastFree(k.asids, 0) < NASID;
    StartedShape(k, parent, status, pri, list, Named(k, parent).(asid := LeastFree(k.asids, 0), status := status, pri := pri));
    assert k.free == [k.free[0]] + k.free[1..];
  }

  lemma ExoforkEffect(k: Kernel, vmOk: bool)
    requires Inv(k) && Standing(k)
    ensures SysExofork(k, vmOk).Ran?
    ensures var o := SysExofork(k, vmOk);
      if k.free == [] || !vmOk || !AsidLeft(k) then NotMade(k, vmOk, o.k, o.ret)
      else
        (var c := k.envs[k.cur.e];
         Made(k, o.k, k.free[0], c.id, NotRunnable, c.pri) && o.k.sched == k.sched && o.ret == o.k.envs[k.free[0]].id)
  {
    var c := k.envs[k.cur.e];
    if k.free == [] || !vmOk || !AsidLeft(k) {
      AllocFails(k, c.id, vmOk);
    } else {
      assert k.free[0] in k.free;
      AllocEnds(k, c.id, true);
      StartedIsMade(k, c.id, NotRunnable, c.pri, k.sched);
      assert SysExofork(k, true).k == Started(k, c.id, NotRunnable, c.pri, k.sched);
    }
  }

  // env_create's environment has no parent and stands at the head of the run list.
  lemma CreateEffect(k: Kernel, pri: nat)
    requires Inv(k) && k.free != [] && k.free[0] < NENV && LeastFree(k.asids, 0) < NASID
    ensures Made(k, EnvCreate(k, pri), k.free[0], 0, Runnable, pri) && EnvCreate(k, pri).sched == [k.free[0]] + k.sched
  {
    StartedIsMade(k, 0, Runnable, pri, [k.free[0]] + k.sched);
    assert EnvCreate(k, pri) == Started(k, 0, Runnable, pri, [k.free[0]] + k.sched);
  }

  // ---- sys_env_destroy ----

  // e is free, its ASID with it; it heads the free list and is gone from the run list.
  ghost predicate Freed(k: Kernel, k': Kernel, e: nat) {
    && e < |k.envs| && Becomes(k.envs, k'.envs, e, k.envs[e].(status := Status.Free))
    && k'.asids == k.asids - {k.envs[e].asid} && k'.free == [e] + k.free && Dropped(k.sched, k'.sched, e)
    && k'.cur == (if k.cur == Cur(e) then Nobody else k.cur) && k'.count == k.count && k'.made == k.made
  }

  lemma DestroyEffect(k: Kernel, envid: nat) returns (freed: Kernel)
    requires Inv(k) && Standing(k)
    ensures match EnvId2Env(k, envid, true)
      case BadEnv => SysEnvDestroy(k, envid) == Ran(k, E_BAD_ENV)
      case Found(e) =>
        e < NENV && (k.envs[e].status == Runnable ==>
          Freed(k, freed, e) &&
          (if k.cur == Cur(e) then Switched(freed, SysEnvDestroy(k, envid), freed.sched) else SysEnvDestroy(k, envid) == Ran(freed, 0)))
  {
    FoundIsLive(k, envid, true);
    freed := k;
    match EnvId2Env(k, envid, true)
    case BadEnv =>
    case Found(e) =>
      if k.envs[e].status == Runnable {
        WithoutDrops(k.sched, e);
        FreeKeeps(k, e);
        freed := EnvFree(k, e).k.(cur := if k.cur == Cur(e) then Nobody else k.cur);
        if k.cur == Cur(e) { var _ := ScheduleEffect(freed, true); }
      }
  }

  // ---- IPC ----

  // The caller waits for a message, with its page at dstva, and is gone from the run list.
  ghost predicate Waiting(k: Kernel, k': Kernel, dstva: nat)
    requires Standing(k)
  {
    && Becomes(k.envs, k'.envs, k.cur.e, k.envs[k.cur.e].(recving := true, dstva := dstva, status := NotRunnable))
    && Dropped(k.sched, k'.sched, k.cur.e) && k' == k.(envs := k'.envs, sched := k'.sched)
  }

  lemma RecvEffect(k: Kernel, dstva: nat) returns (waiting: Kernel)
    requires Inv(k) && Standing(k)
    ensures dstva != 0 && IllegalVa(dstva) ==> SysIpcRecv(k, dstva) == Ran(k, E_INVAL)
    ensures (dstva == 0 || !IllegalVa(dstva)) && CurRunnable(k) ==>
      Waiting(k, waiting, dstva) && Switched(waiting, SysIpcRecv(k, dstva), waiting.sched)
  {
    waiting := k;
    if (dstva == 0 || !IllegalVa(dstva)) && CurRunnable(k) {
      waiting := Blocked(k, dstva);
      WithoutDrops(k.sched, k.cur.e);
      RecvKeeps(k, dstva);
      var _ := ScheduleEffect(waiting, true);
    }
  }

  // The receiver has the message and stands at the tail of the run list.
  ghost predicate HasMessage(k: Kernel, k': Kernel, e: nat, value: nat, perm: Sv32.Bits)
    requires Standing(k)
  {
    && e < NENV
    && Becomes(k.envs, k'.envs, e,
               k.envs[e].(value := value, from := k.envs[k.cur.e].id, perm := Sv32.PTE_V | Sv32.PTE_R | Sv32.PTE_U | perm,
                          recving := false, status := Runnable))
    && k' == k.(envs := k'.envs, sched := k.sched + [e])
  }

  lemma SendEffect(k: Kernel, op: Op)
    requires Inv(k) && Standing(k) && op.IpcTrySend?
    ensures SysIpcTrySend(k, op).Ran?
    ensures var o := SysIpcTrySend(k, op);
      if op.srcva != 0 && IllegalVa(op.srcva) then o == Ran(k, E_INVAL)
      else match EnvId2Env(k, op.envid, false)
        case BadEnv => o == Ran(k, E_BAD_ENV)
        case Found(e) =>
          e < NENV &&
          if !k.envs[e].recving then o == Ran(k, E_IPC_NOT_RECV)
          else
            HasMessage(k, o.k, e, op.value, op.perm) &&
            o.ret == if op.srcva == 0 then 0 else if op.mapped then op.mapResult else E_INVAL
  {
    FoundIsLive(k, op.envid, false);
    SendKeeps(k, op);
  }

  // ---- a fork and the call that starts the child ----

  lemma ChildIsFound(k: Kernel, f: Outcome)
    requires Inv(k) && Standing(k) && k.free != [] && AsidLeft(k) && f == SysExofork(k, true)
    ensures f.Ran? && f.ret >= 0 && Inv(f.k) && Standing(f.k) && f.k.sched == k.sched && k.free[0] < NENV && k.free[0] !in k.sched
    ensures EnvId2Env(f.k, f.ret as nat, true) == Found(k.free[0])
    ensures f.k.envs[k.free[0]].status == NotRunnable && !f.k.envs[k.free[0]].recving
  {
    assert k.free[0] in k.free;
    ExoforkEffect(k, true);
    ExoforkKeeps(k, true);
    MadeIds(k.made, k.free[0]);
    EnvidNamesOne(f.k, f.ret as nat, true, k.free[0]);
  }

  // The child a fork makes, once set runnable, stands at the tail of the run list and is run
  // within the scheduler's bound.
  lemma ForkedChildRuns(k: Kernel, ops: seq<Op>)
    requires Inv(k) && Standing(k) && PriOk(k) && k.free != [] && AsidLeft(k)
    ensures var f := SysExofork(k, true); f.Ran? && f.ret >= 0 && Inv(f.k) && Standing(f.k)
    ensures var f := SysExofork(k, true);
      var o, e := SysSetEnvStatus(f.k, f.ret as nat, Runnable), k.free[0];
      o.Ran? && o.ret == 0 && Inv(o.k) && PriOk(o.k) && o.k.sched == k.sched + [e] && e !in k.sched &&
      Becomes(f.k.envs, o.k.envs, e, f.k.envs[e].(status := Runnable)) &&
      (Waits(o.k, ops, e) ==> ScheduleCalls(o.k, ops) <= Wait(o.k, e))
  {
    var f := SysExofork(k, true);
    ChildIsFound(k, f);
    SetStatusEffect(f.k, f.ret as nat, Runnable);
    SetStatusKeeps(f.k, f.ret as nat, Runnable);
    var o := SysSetEnvStatus(f.k, f.ret as nat, Runnable);
    StepPri(k, Exofork(true));
    StepPri(f.k, SetStatus(f.ret as nat, Runnable));
    if Waits(o.k, ops, k.free[0]) { SchedulingBound(o.k, ops, k.free[0]); }
  }
}
