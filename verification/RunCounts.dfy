// What env_runs tells an environment that reads it twice, as _pipe_is_closed does
// (kern/env.c:497, user/lib/pipe.c:110-114).
module RunCounts {
  import opened Environments
  import opened EnvironmentRuns
  import opened Messages
  import opened Scheduling
  import opened TrapEffects

  // A trap that calls schedule counts for the environment it leads to, any other for none.
  lemma TrapCounts(k: Kernel, op: Op, e: nat)
    requires Inv(k) && Standing(k) && Guarded(k, op) && Step(k, op).Ran? && Live(k, e) && Live(Step(k, op).k, e)
    ensures var k' := Step(k, op).k;
      if Calls(k, op) then k'.cur.Cur? && k'.envs[e].runs == k.envs[e].runs + (if k'.cur == Cur(e) then 1 else 0)
      else k'.cur == k.cur && k'.envs[e].runs == k.envs[e].runs
  {
    match op
    case Tick => var _ := ScheduleEffect(k, false);
    case Yield => var _ := ScheduleEffect(k, true);
    case Exofork(vmOk) =>
      ExoforkEffect(k, vmOk);
      assert k.free != [] ==> k.free[0] in k.free;
    case SetStatus(envid, status) => SetStatusEffect(k, envid, status);
    case Destroy(envid) =>
      FoundIsLive(k, envid, true);
      var _ := DestroyEffect(k, envid);
    case IpcRecv(dstva) => var _ := RecvEffect(k, dstva);
    case IpcTrySend(_, _, _, _, _, _) => SendEffect(k, op);
  }

  // An identifier that no live environment at e has now, but that was made, is never e's again.
  lemma {:induction false} OldIdsStayOld(k: Kernel, ops: seq<Op>, k': Kernel, e: nat, id: nat)
    requires Inv(k) && Follows(k, ops, k') && id < MkEnvId(k.made, 0) && (Live(k, e) ==> k.envs[e].id != id)
    ensures Live(k', e) ==> k'.envs[e].id != id
    decreases ops
  {
    if ops != [] {
      var k1 := Step(k, ops[0]).k;
      StepKeeps(k, ops[0]);
      TrapFrame(k, ops[0]);
      LaterIdsAreAbove(k.made, k1.made);
      if Live(k, e) && Live(k1, e) { assert Mailbox(k1.envs[e]) == After(k, ops[0], e); }
      OldIdsStayOld(k1, ops[1..], k', e, id);
    }
  }

  // All through a run e is the one that runs.
  ghost predicate Alone(k: Kernel, ops: seq<Op>, e: nat)
    decreases ops
  {
    k.cur == Cur(e) && (ops != [] ==> Standing(k) && Step(k, ops[0]).Ran? && Alone(Step(k, ops[0]).k, ops[1..], e))
  }

  // What a run up to a moment at which e runs, still bearing its identifier, does to its count.
  ghost predicate Counted(k: Kernel, ops: seq<Op>, k': Kernel, e: nat) {
    && Live(k, e) && Live(k', e)
    && (k.cur != Cur(e) || ScheduleCalls(k, ops) > 0 ==> k'.envs[e].runs > k.envs[e].runs)
    && (k.cur == Cur(e) && ScheduleCalls(k, ops) == 0 ==> k'.envs[e].runs == k.envs[e].runs && Alone(k, ops, e))
  }

  lemma CountsOneMore(k: Kernel, ops: seq<Op>, k': Kernel, e: nat)
    requires Inv(k) && ops != [] && Follows(k, ops, k') && Live(k, e)
    requires Live(Step(k, ops[0]).k, e) && Counted(Step(k, ops[0]).k, ops[1..], k', e)
    ensures Counted(k, ops, k', e)
  {
    TrapCounts(k, ops[0], e);
  }

  lemma {:induction false} RunsGrow(k: Kernel, ops: seq<Op>, k': Kernel, e: nat)
    requires Inv(k) && Follows(k, ops, k') && Live(k, e) && Live(k', e)
    requires k'.cur == Cur(e) && k'.envs[e].id == k.envs[e].id
    ensures Counted(k, ops, k', e)
    decreases ops
  {
    if ops != [] {
      var k1 := Step(k, ops[0]).k;
      StepKeeps(k, ops[0]);
      TrapFrame(k, ops[0]);
      LaterIdsAreAbove(k.made, k1.made);
      if Live(k1, e) {
        assert Mailbox(k1.envs[e]) == After(k, ops[0], e);
        RunsGrow(k1, ops[1..], k', e);
        CountsOneMore(k, ops, k', e);
      } else {
        OldIdsStayOld(k1, ops[1..], k', e, k.envs[e].id);
      }
    }
  }

  // An environment that finds its env_runs unchanged between two moments at which it runs knows
  // exactly that schedule was not called in between, and then nobody else ran.
  lemma SameCountMeansAlone(k: Kernel, ops: seq<Op>, k': Kernel)
    requires Inv(k) && Standing(k) && Follows(k, ops, k') && k'.cur == k.cur
    requires Live(k', k.cur.e) && k'.envs[k.cur.e].id == k.envs[k.cur.e].id
    ensures k'.envs[k.cur.e].runs == k.envs[k.cur.e].runs <==> ScheduleCalls(k, ops) == 0
    ensures k'.envs[k.cur.e].runs == k.envs[k.cur.e].runs ==> Alone(k, ops, k.cur.e)
    ensures k'.envs[k.cur.e].runs >= k.envs[k.cur.e].runs
  {
    RunsGrow(k, ops, k', k.cur.e);
  }
}
