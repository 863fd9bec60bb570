// The address a receiver gives for its page stays with it until a send uses it
// (kern/syscall_all.c).
module IpcAddresses {
  import opened Environments
  import opened EnvironmentRuns
  import opened Messages
  import opened TrapEffects

  // What becomes of the address environment i has recorded: only its own receive changes it.
  function AddressAfter(k: Kernel, op: Op, i: nat): nat
    requires Standing(k) && i < NENV
  {
    if Receives(op) && k.cur == Cur(i) then op.dstva else k.envs[i].dstva
  }

  ghost predicate SameAddresses(k: Kernel, k': Kernel) {
    |k'.envs| == |k.envs| && forall i: nat :: i < |k.envs| ==> k'.envs[i].dstva == k.envs[i].dstva
  }

  lemma DestroyAddresses(k: Kernel, envid: nat)
    requires Inv(k) && Standing(k) && SysEnvDestroy(k, envid).Ran?
    ensures SameAddresses(k, SysEnvDestroy(k, envid).k)
  {
    var freed := DestroyEffect(k, envid);
    DestroyKeeps(k, envid);
  }

  // On every trap, whatever it answers.
  lemma TrapAddresses(k: Kernel, op: Op)
    requires Inv(k) && Standing(k) && Step(k, op).Ran?
    ensures |Step(k, op).k.envs| == NENV
    ensures forall i: nat :: i < NENV ==> Step(k, op).k.envs[i].dstva == AddressAfter(k, op, i)
  {
    match op
    case Tick => var _ := ScheduleEffect(k, false);
    case Yield => var _ := ScheduleEffect(k, true);
    case Exofork(vmOk) =>
      ExoforkEffect(k, vmOk);
      assert k.free != [] ==> k.free[0] in k.free;
    case SetStatus(envid, status) => SetStatusEffect(k, envid, status);
    case Destroy(envid) => DestroyAddresses(k, envid);
    case IpcRecv(dstva) =>
      var _ := RecvEffect(k, dstva);
      RecvKeeps(k, dstva);
    case IpcTrySend(_, _, _, _, _, _) => SendEffect(k, op);
  }

  // Environment e is waiting for a message all through a run.
  ghost predicate Awaits(k: Kernel, ops: seq<Op>, e: nat)
    decreases ops
  {
    && e < |k.envs| && k.envs[e].recving
    && (ops != [] ==> Standing(k) && Guarded(k, ops[0]) && Step(k, ops[0]).Ran? && Awaits(Step(k, ops[0]).k, ops[1..], e))
  }

  lemma {:induction false} AddressStays(k: Kernel, ops: seq<Op>, k': Kernel, e: nat)
    requires Inv(k) && Standing(k) && !k.envs[k.cur.e].recving && Awaits(k, ops, e) && Follows(k, ops, k')
    ensures e < |k'.envs| && k'.envs[e].recving && k'.envs[e].dstva == k.envs[e].dstva
    decreases ops
  {
    if ops != [] {
      StepKeeps(k, ops[0]);
      CurrentIsNotReceiving(k, ops[0]);
      TrapAddresses(k, ops[0]);
      AddressStays(Step(k, ops[0]).k, ops[1..], k', e);
    }
  }

  // From a receive to the moment a send finds the receiver, over every run in between, the
  // address it asked for is the one recorded.
  lemma AskedForAddress(k: Kernel, dstva: nat, ops: seq<Op>, k': Kernel)
    requires Inv(k) && Standing(k) && !k.envs[k.cur.e].recving && Guarded(k, IpcRecv(dstva))
    requires (dstva == 0 || !IllegalVa(dstva)) && Step(k, IpcRecv(dstva)).Ran?
    requires Awaits(Step(k, IpcRecv(dstva)).k, ops, k.cur.e) && Follows(Step(k, IpcRecv(dstva)).k, ops, k')
    ensures k.cur.e < |k'.envs| && k'.envs[k.cur.e].recving && k'.envs[k.cur.e].dstva == dstva
  {
    StepKeeps(k, IpcRecv(dstva));
    CurrentIsNotReceiving(k, IpcRecv(dstva));
    TrapAddresses(k, IpcRecv(dstva));
    AddressStays(Step(k, IpcRecv(dstva)).k, ops, k', k.cur.e);
  }
}
