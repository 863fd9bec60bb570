// Environments, the scheduler and IPC (kern/env.c, kern/sched.c, kern/syscall_all.c)
// as one state machine: a step is one trap, which runs to completion.
module Environments {
  import Sv32

  const NENV: nat := 1024
  const NASID: nat := 64
  const UTEMP: nat := 0x003f_e000
  const UTOP: nat := 0x7f40_0000

  const E_BAD_ENV: int := -2
  const E_INVAL: int := -3
  const E_NO_MEM: int := -4
  const E_NO_FREE_ENV: int := -6
  const E_IPC_NOT_RECV: int := -7

  datatype Status = Free | Runnable | NotRunnable

  // struct Env, without the saved registers and the page directory.
  datatype Env = Env(id: nat, asid: nat, parent: nat, status: Status, pri: nat,
                     value: nat, from: nat, recving: bool, dstva: nat, perm: Sv32.Bits, runs: nat)

  datatype Current = Nobody | Cur(e: nat)

  // free, sched: env_free_list and env_sched_list, first element first.  count: schedule's
  // static slice counter.  asids: the set asid_bitmap stands for.  made: mkenvid's counter.
  datatype Kernel = Kernel(envs: seq<Env>, free: seq<nat>, sched: seq<nat>, cur: Current,
                           count: int, asids: set<nat>, made: nat)

  // What a trap ends in: the next state and the caller's result; a panic (nothing to run,
  // or env_run's assertion); or a queue macro applied to an element that is not where the
  // macro presumes it (TAILQ_REMOVE off the list, TAILQ_INSERT_TAIL already on it).
  datatype Outcome = Ran(k: Kernel, ret: int) | Panic | ListCorrupted

  predicate Distinct(s: seq<nat>) { forall i, j :: 0 <= i < j < |s| ==> s[i] != s[j] }

  // The queue with its element x taken out.
  function Without(s: seq<nat>, x: nat): seq<nat> {
    if s == [] then [] else if s[0] == x then s[1..] else [s[0]] + Without(s[1..], x)
  }

  function SetEnv(k: Kernel, e: nat, v: Env): Kernel
    requires e < |k.envs|
  {
    k.(envs := k.envs[e := v])
  }

  // ---- schedule and env_run ----

  function EnvRun(k: Kernel, e: nat): Outcome
    requires e < |k.envs|
  {
    if k.envs[e].status != Runnable then Panic
    else Ran(SetEnv(k, e, k.envs[e].(runs := k.envs[e].runs + 1)).(cur := Cur(e)), 0)
  }

  predicate CurRunnable(k: Kernel) {
    k.cur.Cur? && k.cur.e < |k.envs| && k.envs[k.cur.e].status == Runnable
  }

  // The run list once a still runnable current environment has gone to its tail.
  function Rotated(k: Kernel): seq<nat> {
    if CurRunnable(k) then Without(k.sched, k.cur.e) + [k.cur.e] else k.sched
  }

  predicate Switches(k: Kernel, yielding: bool) { yielding || k.count == 0 || !CurRunnable(k) }

  function Schedule(k: Kernel, yielding: bool): Outcome {
    if Switches(k, yielding) then
      if CurRunnable(k) && k.cur.e !in k.sched then ListCorrupted
      else if Rotated(k) == [] || Rotated(k)[0] >= |k.envs| then Panic
      else
        var e := Rotated(k)[0];
        EnvRun(k.(sched := Rotated(k), count := k.envs[e].pri - 1), e)
    else EnvRun(k.(count := k.count - 1), k.cur.e)
  }

  // ---- environments ----

  datatype Found = Found(e: nat) | BadEnv

  function Index(envid: nat): nat { envid % NENV }

  predicate Standing(k: Kernel) { |k.envs| == NENV && k.cur.Cur? && k.cur.e < NENV }

  function EnvId2Env(k: Kernel, envid: nat, checkperm: bool): Found
    requires Standing(k)
  {
    if envid == 0 then Found(k.cur.e)
    else
      var e := k.envs[Index(envid)];
      if e.status == Free || e.id != envid then BadEnv
      else if checkperm && e.id != k.envs[k.cur.e].id && e.parent != k.envs[k.cur.e].id then BadEnv
      else Found(Index(envid))
  }

  function LeastFree(used: set<nat>, i: nat): (r: nat)
    ensures r >= i && (i <= NASID ==> r <= NASID) && (r < NASID ==> r !in used)
    ensures forall a :: i <= a < r && a < NASID ==> a in used
    decreases NASID - i
  {
    if i >= NASID || i !in used then i else LeastFree(used, i + 1)
  }

  function MkEnvId(made: nat, e: nat): nat { (made + 1) * (2 * NENV) + e }

  // env_alloc; vmOk: env_setup_vm found its page.
  function EnvAlloc(k: Kernel, parent: nat, vmOk: bool): Outcome
    requires |k.envs| == NENV
  {
    if k.free == [] || k.free[0] >= NENV then Ran(k, E_NO_FREE_ENV)
    else if !vmOk then Ran(k, E_NO_MEM)
    else
      var e := k.free[0];
      var asid := LeastFree(k.asids, 0);
      var named := k.envs[e].(runs := 0, parent := parent, id := MkEnvId(k.made, e));
      var k1 := SetEnv(k, e, named).(made := k.made + 1);
      if asid >= NASID then Ran(k1, E_NO_FREE_ENV)
      else Ran(SetEnv(k1, e, named.(asid := asid)).(asids := k.asids + {asid}, free := k.free[1..]), named.id)
  }

  // env_free's effects outside memory.
  function EnvFree(k: Kernel, e: nat): Outcome
    requires |k.envs| == NENV && e < NENV
  {
    if e !in k.sched then ListCorrupted
    else Ran(SetEnv(k, e, k.envs[e].(status := Free)).(
      asids := k.asids - {k.envs[e].asid}, free := [e] + k.free, sched := Without(k.sched, e)), 0)
  }

  function EnvDestroy(k: Kernel, e: nat): Outcome
    requires |k.envs| == NENV && e < NENV
  {
    match EnvFree(k, e)
    case Ran(k1, _) => if k1.cur == Cur(e) then Schedule(k1.(cur := Nobody), true) else Ran(k1, 0)
    case o => o
  }

  // ---- boot ----

  const NO_ENV := Env(0, 0, 0, Free, 0, 0, 0, false, 0, 0, 0)

  // env_init, with the loop started at the last element of envs.
  function EnvInit(): Kernel {
    Kernel(seq(NENV, _ => NO_ENV), seq(NENV, i => i), [], Nobody, 0, {}, 0)
  }

  // env_create, which takes the allocation's success for granted.
  function EnvCreate(k: Kernel, pri: nat): Kernel
    requires |k.envs| == NENV && k.free != [] && k.free[0] < NENV && LeastFree(k.asids, 0) < NASID
  {
    var e := k.free[0];
    var k1 := EnvAlloc(k, 0, true).k;
    SetEnv(k1, e, k1.envs[e].(pri := pri, status := Runnable)).(sched := [e] + k1.sched)
  }

  // ---- traps ----

  // Traps of the current environment.  vmOk, mapped, mapResult: what the memory side
  // (env_setup_vm, page_lookup, page_insert) answers.
  datatype Op =
    | Tick
    | Yield
    | Exofork(vmOk: bool)
    | SetStatus(envid: nat, status: Status)            // Free stands for any value that is not a status
    | Destroy(envid: nat)
    | IpcRecv(dstva: nat)
    | IpcTrySend(envid: nat, value: nat, srcva: nat, perm: Sv32.Bits, mapped: bool, mapResult: int)

  predicate IllegalVa(va: nat) { va < UTEMP || va >= UTOP }

  // Whether a send passes every check up to env_ipc_recving, and to whom.
  function Receiver(k: Kernel, op: Op): Found
    requires Standing(k) && op.IpcTrySend?
  {
    if op.srcva != 0 && IllegalVa(op.srcva) then BadEnv
    else match EnvId2Env(k, op.envid, false)
      case BadEnv => BadEnv
      case Found(e) => if k.envs[e].recving then Found(e) else BadEnv
  }

  function SysExofork(k: Kernel, vmOk: bool): Outcome
    requires Standing(k)
  {
    match EnvAlloc(k, k.envs[k.cur.e].id, vmOk)
    case Ran(k1, id) =>
      if id < 0 then Ran(k1, id)
      else Ran(SetEnv(k1, k.free[0], k1.envs[k.free[0]].(status := NotRunnable, pri := k1.envs[k.cur.e].pri)), id)
    case o => o
  }

  function SysSetEnvStatus(k: Kernel, envid: nat, status: Status): Outcome
    requires Standing(k)
  {
    if status == Free then Ran(k, E_INVAL)
    else match EnvId2Env(k, envid, true)
      case BadEnv => Ran(k, E_BAD_ENV)
      case Found(e) =>
        var k1 := SetEnv(k, e, k.envs[e].(status := status));
        if k.envs[e].status == status then Ran(k1, 0)
        else if (e in k.sched) == (status == Runnable) then ListCorrupted
        else if status == Runnable then Ran(k1.(sched := k.sched + [e]), 0)
        else Ran(k1.(sched := Without(k.sched, e)), 0)
  }

  function SysEnvDestroy(k: Kernel, envid: nat): Outcome
    requires Standing(k)
  {
    match EnvId2Env(k, envid, true)
    case BadEnv => Ran(k, E_BAD_ENV)
    case Found(e) => EnvDestroy(k, e)
  }

  function Blocked(k: Kernel, dstva: nat): Kernel
    requires Standing(k)
  {
    var c := k.cur.e;
    SetEnv(k, c, k.envs[c].(recving := true, dstva := dstva, status := NotRunnable)).(sched := Without(k.sched, c))
  }

  function SysIpcRecv(k: Kernel, dstva: nat): Outcome
    requires Standing(k)
  {
    if dstva != 0 && IllegalVa(dstva) then Ran(k, E_INVAL)
    else if k.cur.e !in k.sched then ListCorrupted
    else Schedule(Blocked(k, dstva), true)
  }

  function Delivered(k: Kernel, e: nat, value: nat, perm: Sv32.Bits): Kernel
    requires Standing(k) && e < NENV
  {
    SetEnv(k, e, k.envs[e].(value := value, from := k.envs[k.cur.e].id, perm := Sv32.PTE_U | Sv32.PTE_R | Sv32.PTE_V | perm,
                            recving := false, status := Runnable)).(sched := k.sched + [e])
  }

  function SysIpcTrySend(k: Kernel, op: Op): Outcome
    requires Standing(k) && op.IpcTrySend?
  {
    if op.srcva != 0 && IllegalVa(op.srcva) then Ran(k, E_INVAL)
    else match EnvId2Env(k, op.envid, false)
      case BadEnv => Ran(k, E_BAD_ENV)
      case Found(e) =>
        if !k.envs[e].recving then Ran(k, E_IPC_NOT_RECV)
        else if e in k.sched then ListCorrupted
        else Ran(Delivered(k, e, op.value, op.perm), if op.srcva == 0 then 0 else if !op.mapped then E_INVAL else op.mapResult)
  }

  function Step(k: Kernel, op: Op): Outcome
    requires Standing(k)
  {
    match op
    case Tick => Schedule(k, false)
    case Yield => Schedule(k, true)
    case Exofork(vmOk) => SysExofork(k, vmOk)
    case SetStatus(envid, status) => SysSetEnvStatus(k, envid, status)
    case Destroy(envid) => SysEnvDestroy(k, envid)
    case IpcRecv(dstva) => SysIpcRecv(k, dstva)
    case IpcTrySend(_, _, _, _, _, _) => SysIpcTrySend(k, op)
  }

  // ---- the invariant ----

  predicate Live(k: Kernel, e: nat) { e < |k.envs| && k.envs[e].status != Free }

  // env_sched_list holds exactly the runnable environments, once each; env_free_list
  // exactly the free ones.
  ghost predicate ListsOk(k: Kernel) {
    && Distinct(k.sched) && Distinct(k.free)
    && (forall e: nat :: e in k.sched <==> e < |k.envs| && k.envs[e].status == Runnable)
    && (forall e: nat :: e in k.free <==> e < |k.envs| && k.envs[e].status == Free)
  }

  predicate Holds(k: Kernel, e: nat, asid: nat) { Live(k, e) && k.envs[e].asid == asid }

  // The ASIDs in use are those of the live environments, one each.
  ghost predicate AsidsOk(k: Kernel) {
    && (forall e: nat :: Live(k, e) ==> k.envs[e].asid in k.asids)
    && (forall e1: nat, e2: nat :: Live(k, e1) && Live(k, e2) && e1 != e2 ==> k.envs[e1].asid != k.envs[e2].asid)
    && (forall a: nat :: a in k.asids ==> a < NASID && exists e: nat :: Holds(k, e, a))
  }

  // A receiver is blocked.
  ghost predicate ReceiversOk(k: Kernel) {
    forall e: nat :: e < |k.envs| && k.envs[e].recving ==> k.envs[e].status == NotRunnable
  }

  // Identifiers name their slot and are below the next one to be made.
  ghost predicate IdsOk(k: Kernel) {
    forall e: nat :: Live(k, e) ==> k.envs[e].id != 0 && Index(k.envs[e].id) == e && k.envs[e].id < MkEnvId(k.made, 0)
  }

  ghost predicate Inv(k: Kernel) {
    && |k.envs| == NENV && ListsOk(k) && AsidsOk(k) && ReceiversOk(k) && IdsOk(k)
    && (k.cur.Cur? ==> Live(k, k.cur.e))
  }
}
