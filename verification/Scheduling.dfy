// How long a runnable environment waits, and how long it runs (kern/sched.c).
module Scheduling {
  import opened Environments
  import opened EnvironmentRuns

  // The slices of the environments queued before e, the current one excepted.
  function Ahead(envs: seq<Env>, list: seq<nat>, skip: Current, e: nat): nat {
    if list == [] || list[0] == e then 0
    else (if skip == Cur(list[0]) || list[0] >= |envs| then 0 else envs[list[0]].pri) + Ahead(envs, list[1..], skip, e)
  }

  // What is left of the current turn, and the turns before e's.
  function Wait(k: Kernel, e: nat): int { k.count + Ahead(k.envs, k.sched, k.cur, e) }

  ghost predicate PriOk(k: Kernel) {
    k.count >= 0 && forall e: nat :: Live(k, e) ==> k.envs[e].pri >= 1
  }

  lemma {:induction false} AheadIgnoresTheTail(envs: seq<Env>, list: seq<nat>, x: nat, skip: Current, e: nat)
    requires e in list
    ensures Ahead(envs, list + [x], skip, e) == Ahead(envs, list, skip, e)
  {
    if list[0] != e {
      assert (list + [x])[1..] == list[1..] + [x];
      AheadIgnoresTheTail(envs, list[1..], x, skip, e);
    }
  }

  lemma {:induction false} AheadOfTheRest(envs: seq<Env>, list: seq<nat>, x: nat, skip: Current, e: nat)
    requires x != e
    ensures Ahead(envs, Without(list, x), skip, e) <= Ahead(envs, list, skip, e)
  {
    if list != [] && list[0] != x {
      AheadOfTheRest(envs, list[1..], x, skip, e);
    }
  }

  lemma {:induction false} AbsentNeedNotBeSkipped(envs: seq<Env>, list: seq<nat>, x: nat, e: nat)
    requires x !in list
    ensures Ahead(envs, list, Cur(x), e) == Ahead(envs, list, Nobody, e)
  {
    if list != [] { AbsentNeedNotBeSkipped(envs, list[1..], x, e); }
  }

  lemma {:induction false} SkippingIsRemoving(envs: seq<Env>, list: seq<nat>, x: nat, e: nat)
    requires Distinct(list) && x != e
    ensures Ahead(envs, list, Cur(x), e) == Ahead(envs, Without(list, x), Nobody, e)
  {
    if list != [] {
      assert Distinct(list[1..]);
      if list[0] == x {
        assert x !in list[1..];
        AbsentNeedNotBeSkipped(envs, list[1..], x, e);
      } else {
        SkippingIsRemoving(envs, list[1..], x, e);
      }
    }
  }

  lemma {:induction false} AheadReadsPriorities(envs: seq<Env>, envs': seq<Env>, list: seq<nat>, skip: Current, e: nat)
    requires |envs| == |envs'| && forall i: nat :: i in list && i < |envs| ==> envs'[i].pri == envs[i].pri
    ensures Ahead(envs', list, skip, e) == Ahead(envs, list, skip, e)
  {
    if list != [] {
      assert list[0] in list;
      assert forall i: nat :: i in list[1..] ==> i in list;
      AheadReadsPriorities(envs, envs', list[1..], skip, e);
    }
  }

  // ---- one call of schedule ----

  // Sending a runnable current environment to the tail leaves the turns before e's.
  lemma RotatingKeepsTheQueueAhead(k: Kernel, e: nat)
    requires ListsOk(k) && e in k.sched && k.cur != Cur(e)
    ensures Ahead(k.envs, Rotated(k), Nobody, e) == Ahead(k.envs, k.sched, k.cur, e)
  {
    if CurRunnable(k) {
      WithoutKeepsTheRest(k.sched, k.cur.e);
      AheadIgnoresTheTail(k.envs, Without(k.sched, k.cur.e), k.cur.e, Nobody, e);
      SkippingIsRemoving(k.envs, k.sched, k.cur.e, e);
    } else if k.cur.Cur? {
      AbsentNeedNotBeSkipped(k.envs, k.sched, k.cur.e, e);
    }
  }

  // Taking the head f of a queue that e is not at the head of.
  lemma TakingTheHead(envs: seq<Env>, list: seq<nat>, e: nat)
    requires Distinct(list) && list != [] && list[0] != e && list[0] < |envs|
    ensures envs[list[0]].pri + Ahead(envs, list, Cur(list[0]), e) == Ahead(envs, list, Nobody, e)
  {
    AbsentNeedNotBeSkipped(envs, list[1..], list[0], e);
  }

  lemma ScheduleAdvances(k: Kernel, yielding: bool, e: nat)
    requires Inv(k) && PriOk(k) && e in k.sched && k.cur != Cur(e) && Schedule(k, yielding).Ran?
    ensures var k' := Schedule(k, yielding).k; k'.cur == Cur(e) || Wait(k', e) <= Wait(k, e) - 1
  {
    var k' := Schedule(k, yielding).k;
    if Switches(k, yielding) {
      Rotates(k);
      var list := Rotated(k);
      if list[0] != e {
        RotatingKeepsTheQueueAhead(k, e);
        TakingTheHead(k.envs, list, e);
        AheadReadsPriorities(k.envs, k'.envs, list, Cur(list[0]), e);
      }
    } else {
      AheadReadsPriorities(k.envs, k'.envs, k.sched, k.cur, e);
    }
  }

  // ---- one trap ----

  // The traps that call schedule.
  predicate Calls(k: Kernel, op: Op)
    requires Standing(k)
  {
    || op.Tick? || op.Yield? || (op.IpcRecv? && (op.dstva == 0 || !IllegalVa(op.dstva)))
    || (op.Destroy? && EnvId2Env(k, op.envid, true) == Found(k.cur.e))
  }

  predicate IsRunnable(k: Kernel, e: nat) { e < |k.envs| && k.envs[e].status == Runnable }

  lemma DestroyAdvances(k: Kernel, envid: nat, e: nat)
    requires Inv(k) && Standing(k) && PriOk(k) && IsRunnable(k, e) && k.cur != Cur(e) && SysEnvDestroy(k, envid).Ran?
    requires IsRunnable(SysEnvDestroy(k, envid).k, e) && EnvId2Env(k, envid, true).Found?
    ensures SysEnvDestroy(k, envid).k.cur == Cur(e) || Wait(SysEnvDestroy(k, envid).k, e) <= Wait(k, e) - (if Calls(k, Destroy(envid)) then 1 else 0)
  {
    var d := EnvId2Env(k, envid, true).e;
    FoundIsLive(k, envid, true);
    FreeKeeps(k, d);
    var freed := EnvFree(k, d).k;
    assert d != e;
    WithoutKeepsTheRest(k.sched, d);
    AheadReadsPriorities(k.envs, freed.envs, freed.sched, k.cur, e);
    AheadOfTheRest(k.envs, k.sched, d, k.cur, e);
    if k.cur == Cur(d) {
      AheadReadsPriorities(k.envs, freed.envs, freed.sched, Nobody, e);
      SkippingIsRemoving(k.envs, k.sched, d, e);
      assert forall i: nat :: Live(freed, i) ==> Live(k, i) && freed.envs[i] == k.envs[i];
      ScheduleAdvances(freed.(cur := Nobody), true, e);
    }
  }

  // A change of environments that gives no live one a priority of zero.
  lemma PriCarries(k: Kernel, k': Kernel)
    requires PriOk(k) && k'.count == k.count && |k'.envs| == |k.envs|
    requires forall i: nat :: Live(k', i) ==> Live(k, i) && k'.envs[i].pri == k.envs[i].pri
    ensures PriOk(k')
  {
  }

  lemma RecvAdvances(k: Kernel, dstva: nat, e: nat)
    requires Inv(k) && Standing(k) && PriOk(k) && IsRunnable(k, e) && k.cur != Cur(e)
    requires (dstva == 0 || !IllegalVa(dstva)) && SysIpcRecv(k, dstva).Ran?
    ensures var k' := SysIpcRecv(k, dstva).k; k'.cur == Cur(e) || Wait(k', e) <= Wait(k, e) - 1
  {
    var c, blocked := k.cur.e, Blocked(k, dstva);
    RecvKeeps(k, dstva);
    WithoutKeepsTheRest(k.sched, c);
    AheadReadsPriorities(k.envs, blocked.envs, blocked.sched, k.cur, e);
    AheadOfTheRest(k.envs, k.sched, c, k.cur, e);
    PriCarries(k, blocked);
    ScheduleAdvances(blocked, true, e);
  }

  lemma SetStatusAdvances(k: Kernel, envid: nat, status: Status, e: nat)
    requires Inv(k) && Standing(k) && IsRunnable(k, e)
    requires SysSetEnvStatus(k, envid, status).Ran? && IsRunnable(SysSetEnvStatus(k, envid, status).k, e)
    ensures Wait(SysSetEnvStatus(k, envid, status).k, e) <= Wait(k, e)
  {
    if status != Free && EnvId2Env(k, envid, true).Found? {
      var x, k' := EnvId2Env(k, envid, true).e, SysSetEnvStatus(k, envid, status).k;
      AheadReadsPriorities(k.envs, k'.envs, k'.sched, k.cur, e);
      AheadIgnoresTheTail(k.envs, k.sched, x, k.cur, e);
      if x != e { AheadOfTheRest(k.envs, k.sched, x, k.cur, e); }
    }
  }

  lemma SendAdvances(k: Kernel, op: Op, e: nat)
    requires Inv(k) && Standing(k) && op.IpcTrySend? && IsRunnable(k, e)
    ensures SysIpcTrySend(k, op).Ran? && Wait(SysIpcTrySend(k, op).k, e) == Wait(k, e)
  {
    SendKeeps(k, op);
    match Receiver(k, op)
    case BadEnv =>
    case Found(x) =>
      var k' := Delivered(k, x, op.value, op.perm);
      AheadReadsPriorities(k.envs, k'.envs, k'.sched, k.cur, e);
      AheadIgnoresTheTail(k.envs, k.sched, x, k.cur, e);
  }

  lemma ExoforkAdvances(k: Kernel, vmOk: bool, e: nat)
    requires Inv(k) && Standing(k)
    ensures SysExofork(k, vmOk).Ran? && Wait(SysExofork(k, vmOk).k, e) == Wait(k, e)
  {
    ExoforkKeeps(k, vmOk);
    var k' := SysExofork(k, vmOk).k;
    if k.free != [] {
      assert k.free[0] in k.free;
      assert forall i: nat :: i < NENV && i != k.free[0] ==> k'.envs[i] == k.envs[i];
    }
    AheadReadsPriorities(k.envs, k'.envs, k.sched, k.cur, e);
  }

  lemma StepAdvances(k: Kernel, op: Op, e: nat)
    requires Inv(k) && Standing(k) && PriOk(k) && Guarded(k, op) && Step(k, op).Ran?
    requires IsRunnable(k, e) && k.cur != Cur(e) && IsRunnable(Step(k, op).k, e)
    ensures var k' := Step(k, op).k; k'.cur == Cur(e) || Wait(k', e) <= Wait(k, e) - (if Calls(k, op) then 1 else 0)
  {
    match op
    case Tick => ScheduleAdvances(k, false, e);
    case Yield => ScheduleAdvances(k, true, e);
    case Exofork(vmOk) => ExoforkAdvances(k, vmOk, e);
    case SetStatus(envid, status) => SetStatusAdvances(k, envid, status, e);
    case Destroy(envid) => if EnvId2Env(k, envid, true).Found? { DestroyAdvances(k, envid, e); }
    case IpcRecv(dstva) => if Calls(k, op) { RecvAdvances(k, dstva, e); }
    case IpcTrySend(_, _, _, _, _, _) => SendAdvances(k, op, e);
  }

  // ---- priorities stay positive ----

  lemma SchedulePri(k: Kernel, yielding: bool)
    requires Inv(k) && PriOk(k) && Schedule(k, yielding).Ran?
    ensures PriOk(Schedule(k, yielding).k)
  {
    Head(k);
    var k' := Schedule(k, yielding).k;
    assert forall i: nat :: i < NENV ==> k'.envs[i].(runs := 0) == k.envs[i].(runs := 0);
    assert forall i: nat :: Live(k', i) ==> Live(k, i);
  }

  lemma DestroyPri(k: Kernel, envid: nat)
    requires Inv(k) && Standing(k) && PriOk(k) && SysEnvDestroy(k, envid).Ran?
    ensures PriOk(SysEnvDestroy(k, envid).k)
  {
    FoundIsLive(k, envid, true);
    if EnvId2Env(k, envid, true).Found? {
      var d := EnvId2Env(k, envid, true).e;
      FreeKeeps(k, d);
      var freed := EnvFree(k, d).k.(cur := if k.cur == Cur(d) then Nobody else k.cur);
      PriCarries(k, freed);
      if k.cur == Cur(d) { SchedulePri(freed, true); }
    }
  }

  lemma RecvPri(k: Kernel, dstva: nat)
    requires Inv(k) && Standing(k) && PriOk(k) && SysIpcRecv(k, dstva).Ran?
    ensures PriOk(SysIpcRecv(k, dstva).k)
  {
    RecvKeeps(k, dstva);
    if dstva == 0 || !IllegalVa(dstva) {
      PriCarries(k, Blocked(k, dstva));
      SchedulePri(Blocked(k, dstva), true);
    }
  }

  lemma ExoforkPri(k: Kernel, vmOk: bool)
    requires Inv(k) && Standing(k) && PriOk(k)
    ensures SysExofork(k, vmOk).Ran? && PriOk(SysExofork(k, vmOk).k)
  {
    if k.free != [] { assert k.free[0] in k.free; }
    ExoforkKeeps(k, vmOk);
  }

  lemma StepPri(k: Kernel, op: Op)
    requires Inv(k) && Standing(k) && PriOk(k) && Step(k, op).Ran?
    ensures PriOk(Step(k, op).k)
  {
    match op
    case Tick => SchedulePri(k, false);
    case Yield => SchedulePri(k, true);
    case Exofork(vmOk) => ExoforkPri(k, vmOk);
    case SetStatus(envid, status) => FoundIsLive(k, envid, true); PriCarries(k, SysSetEnvStatus(k, envid, status).k);
    case Destroy(envid) => DestroyPri(k, envid);
    case IpcRecv(dstva) => RecvPri(k, dstva);
    case IpcTrySend(_, _, _, _, _, _) =>
      SendKeeps(k, op);
      FoundIsLive(k, op.envid, false);
      PriCarries(k, SysIpcTrySend(k, op).k);
  }

  // ---- the bound ----

  // A guarded run throughout which e is runnable and not run.
  ghost predicate Waits(k: Kernel, ops: seq<Op>, e: nat)
    decreases ops
  {
    && IsRunnable(k, e) && k.cur != Cur(e)
    && (ops != [] ==>
      Standing(k) && Guarded(k, ops[0]) && Step(k, ops[0]).Ran? && Waits(Step(k, ops[0]).k, ops[1..], e))
  }

  function ScheduleCalls(k: Kernel, ops: seq<Op>): nat
    decreases ops
  {
    if ops == [] || !Standing(k) || !Step(k, ops[0]).Ran? then 0
    else (if Calls(k, ops[0]) then 1 else 0) + ScheduleCalls(Step(k, ops[0]).k, ops[1..])
  }

  // An environment that stays runnable is run by the (Wait + 1)-st call of schedule at the
  // latest, whatever the current environments do meanwhile.
  lemma {:induction false} SchedulingBound(k: Kernel, ops: seq<Op>, e: nat)
    requires Inv(k) && PriOk(k) && Waits(k, ops, e)
    ensures ScheduleCalls(k, ops) <= Wait(k, e)
    decreases ops
  {
    if ops != [] {
      var k' := Step(k, ops[0]).k;
      StepKeeps(k, ops[0]);
      StepPri(k, ops[0]);
      StepAdvances(k, ops[0], e);
      SchedulingBound(k', ops[1..], e);
    }
  }

  // ---- slices ----

  // A run in which environment f stays runnable and every call of schedule is a tick.
  ghost predicate KeepsGoing(k: Kernel, ops: seq<Op>, f: nat)
    decreases ops
  {
    && IsRunnable(k, f)
    && (ops != [] ==>
      Standing(k) && Guarded(k, ops[0]) && Step(k, ops[0]).Ran? && (Calls(k, ops[0]) ==> ops[0].Tick?)
      && KeepsGoing(Step(k, ops[0]).k, ops[1..], f))
  }

  function Ticks(ops: seq<Op>): nat {
    if ops == [] then 0 else (if ops[0].Tick? then 1 else 0) + Ticks(ops[1..])
  }

  lemma OtherTrapsKeepTheTurn(k: Kernel, op: Op)
    requires Inv(k) && Standing(k) && Guarded(k, op) && Step(k, op).Ran? && !Calls(k, op)
    ensures Step(k, op).k.cur == k.cur && Step(k, op).k.count == k.count
  {
    match op
    case Exofork(vmOk) => ExoforkKeeps(k, vmOk);
    case Destroy(envid) => FoundIsLive(k, envid, true);
    case IpcTrySend(_, _, _, _, _, _) => SendKeeps(k, op);
    case _ =>
  }

  // While slices are left, each tick uses one and nothing else runs.
  lemma {:induction false} TurnLasts(k: Kernel, ops: seq<Op>, f: nat, k': Kernel)
    requires Inv(k) && k.cur == Cur(f) && KeepsGoing(k, ops, f) && Follows(k, ops, k')
    requires k.count < 0 || Ticks(ops) <= k.count
    ensures Inv(k') && k'.cur == Cur(f) && k'.count == k.count - Ticks(ops)
    decreases ops
  {
    if ops != [] {
      StepKeeps(k, ops[0]);
      if !Calls(k, ops[0]) { OtherTrapsKeepTheTurn(k, ops[0]); }
      TurnLasts(Step(k, ops[0]).k, ops[1..], f, k');
    }
  }

  // At the next tick f goes to the tail and the head of the list runs: another environment
  // if there is one.
  ghost predicate TakesTurns(k: Kernel, f: nat) {
    Standing(k) && Step(k, Tick).Ran?
    && var k' := Step(k, Tick).k;
       k'.sched == Without(k.sched, f) + [f] && k'.cur == Cur(k'.sched[0]) && (|k.sched| > 1 ==> k'.cur != Cur(f))
  }

  lemma OthersRemain(s: seq<nat>, x: nat)
    requires Distinct(s) && |s| > 1
    ensures Without(s, x) != []
  {
    if s[0] == x { assert s[1..][0] == s[1]; }
  }

  lemma TurnEnds(k: Kernel, f: nat)
    requires Inv(k) && k.cur == Cur(f) && IsRunnable(k, f) && k.count == 0
    ensures TakesTurns(k, f)
  {
    assert f in k.sched;
    assert SomeRunnable(k);
    Head(k);
    ScheduleEnds(k, false);
    WithoutKeepsTheRest(k.sched, f);
    assert Rotated(k) == Without(k.sched, f) + [f];
    if |k.sched| > 1 {
      OthersRemain(k.sched, f);
      assert Rotated(k)[0] == Without(k.sched, f)[0] && Without(k.sched, f)[0] in Without(k.sched, f);
    }
  }

  lemma {:induction false} LastIsRunnable(k: Kernel, ops: seq<Op>, f: nat, k': Kernel)
    requires KeepsGoing(k, ops, f) && Follows(k, ops, k')
    ensures IsRunnable(k', f)
    decreases ops
  {
    if ops != [] { LastIsRunnable(Step(k, ops[0]).k, ops[1..], f, k'); }
  }

  // A newly picked environment f of priority p >= 1 runs for exactly p slices: through any
  // p - 1 ticks it stays, and at the next it goes to the tail and the head of the list runs.
  lemma ExactlyItsPriority(k: Kernel, ops: seq<Op>, f: nat, k': Kernel)
    requires Inv(k) && k.cur == Cur(f) && IsRunnable(k, f) && k.envs[f].pri >= 1 && k.count == k.envs[f].pri - 1
    requires KeepsGoing(k, ops, f) && Follows(k, ops, k')
    ensures Ticks(ops) < k.envs[f].pri ==> k'.cur == Cur(f)
    ensures Ticks(ops) == k.envs[f].pri - 1 ==> TakesTurns(k', f)
  {
    if Ticks(ops) < k.envs[f].pri {
      TurnLasts(k, ops, f, k');
      LastIsRunnable(k, ops, f, k');
      if Ticks(ops) == k.envs[f].pri - 1 { TurnEnds(k', f); }
    }
  }

  // Priority 0 is no turn at all but an endless one: the counter starts at -1 and no number
  // of ticks brings another environment in.
  lemma PriorityZeroIsNeverPreempted(k: Kernel, ops: seq<Op>, f: nat, k': Kernel)
    requires Inv(k) && k.cur == Cur(f) && IsRunnable(k, f) && k.envs[f].pri == 0 && k.count == k.envs[f].pri - 1
    requires KeepsGoing(k, ops, f) && Follows(k, ops, k')
    ensures k'.cur == Cur(f)
  {
    TurnLasts(k, ops, f, k');
  }

  // Yielding never runs the caller again unless it is the only runnable environment.
  lemma YieldPicksAnother(k: Kernel)
    requires Inv(k) && Standing(k) && CurRunnable(k)
    ensures Step(k, Yield).Ran? && (Step(k, Yield).k.cur == k.cur <==> forall e: nat :: IsRunnable(k, e) ==> k.cur == Cur(e))
  {
    Head(k);
    ScheduleKeeps(k, true);
    var c := k.cur.e;
    WithoutKeepsTheRest(k.sched, c);
    assert IsRunnable(k, c);
    if Without(k.sched, c) == [] {
      forall e: nat | IsRunnable(k, e) ensures k.cur == Cur(e) {
        assert e in k.sched && e !in Without(k.sched, c);
      }
    } else {
      assert Without(k.sched, c)[0] in Without(k.sched, c);
      assert IsRunnable(k, Without(k.sched, c)[0]);
    }
  }
}
