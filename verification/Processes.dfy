// Environments and their memory together: the calls of kern/env.c and kern/syscall_all.c that
// touch both the environment table and the page tables, run on the two objects at once.
module Processes {
  import opened Sv32
  import opened PhysicalMemory
  import opened PageSteps
  import opened Pmap
  import opened AddressSpaces
  import E = Environments
  import I = IpcAddresses
  import R = EnvironmentRuns
  import K = KernelCalls
  import Queue

  // The value a failed memory call is reported with.
  function Code(err: Error): int {
    match err
    case OK => 0
    case E_INVAL => E.E_INVAL
    case E_BAD_ENV => E.E_BAD_ENV
    case E_NO_MEM => E.E_NO_MEM
  }

  function Lives(k: E.Kernel): set<nat> { set e: nat | e < |k.envs| && E.Live(k, e) }

  predicate Uses(lives: set<nat>, pgdir: seq<nat>, e: nat, q: nat) { e in lives && e < |pgdir| && pgdir[e] == q }

  // pgdir: env_pgdir of each environment.  Every live environment has a directory of its own;
  // every other directory is lost.
  ghost predicate Bond(lives: set<nat>, dirs: set<nat>, pgdir: seq<nat>, lost: set<nat>) {
    && lost <= dirs && (forall e: nat :: e in lives ==> e < |pgdir| && pgdir[e] in dirs && pgdir[e] !in lost)
    && (forall e1: nat, e2: nat :: e1 in lives && e2 in lives && e1 < |pgdir| && e2 < |pgdir| && pgdir[e1] == pgdir[e2] ==> e1 == e2)
    && (forall q: nat :: q in dirs && q !in lost ==> exists e: nat :: Uses(lives, pgdir, e, q))
  }

  // A receiver's address for a page is zero or legal.
  ghost predicate DestinationsOk(k: E.Kernel) {
    forall e: nat :: e < |k.envs| && k.envs[e].recving ==> k.envs[e].dstva == 0 || !E.IllegalVa(k.envs[e].dstva)
  }

  ghost predicate Together(k: E.Kernel, s: Phys, pgdir: seq<nat>, lost: set<nat>) {
    E.Inv(k) && Inv(s) && |pgdir| == E.NENV && Bond(Lives(k), s.dirs, pgdir, lost) && DestinationsOk(k)
  }

  // ---- directories come and go ----

  lemma BondGains(lives: set<nat>, dirs: set<nat>, pgdir: seq<nat>, lost: set<nat>, e: nat, q: nat)
    requires Bond(lives, dirs, pgdir, lost) && e !in lives && e < |pgdir| && q !in dirs
    ensures Bond(lives + {e}, dirs + {q}, pgdir[e := q], lost)
  {
    var lives', pgdir' := lives + {e}, pgdir[e := q];
    forall p: nat | p in dirs && p !in lost ensures exists i: nat :: Uses(lives', pgdir', i, p) {
      var i: nat :| Uses(lives, pgdir, i, p);
      assert Uses(lives', pgdir', i, p);
    }
    assert Uses(lives', pgdir', e, q);
  }

  lemma BondLoses(lives: set<nat>, dirs: set<nat>, pgdir: seq<nat>, lost: set<nat>, e: nat, q: nat)
    requires Bond(lives, dirs, pgdir, lost) && e !in lives && e < |pgdir| && q !in dirs
    ensures Bond(lives, dirs + {q}, pgdir[e := q], lost + {q})
  {
    var pgdir' := pgdir[e := q];
    forall p: nat | p in dirs && p !in lost ensures exists i: nat :: Uses(lives, pgdir', i, p) {
      var i: nat :| Uses(lives, pgdir, i, p);
      assert Uses(lives, pgdir', i, p);
    }
  }

  lemma BondDrops(lives: set<nat>, dirs: set<nat>, pgdir: seq<nat>, lost: set<nat>, e: nat)
    requires Bond(lives, dirs, pgdir, lost) && e in lives && e < |pgdir|
    ensures Bond(lives - {e}, dirs - {pgdir[e]}, pgdir, lost)
  {
    forall p: nat | p in dirs && p != pgdir[e] && p !in lost ensures exists i: nat :: Uses(lives - {e}, pgdir, i, p) {
      var i: nat :| Uses(lives, pgdir, i, p);
      assert Uses(lives - {e}, pgdir, i, p);
    }
  }

  // ---- what each trap does to who is alive ----

  // Who is alive, and where receivers want their pages.
  ghost predicate SameLives(k: E.Kernel, k': E.Kernel) {
    Lives(k') == Lives(k) && (DestinationsOk(k) ==> DestinationsOk(k'))
  }

  lemma ScheduleLives(k: E.Kernel, yielding: bool)
    requires E.Inv(k) && E.Schedule(k, yielding).Ran?
    ensures SameLives(k, E.Schedule(k, yielding).k)
  {
    R.Head(k);
    var k' := E.Schedule(k, yielding).k;
    assert forall e: nat :: E.Live(k', e) <==> E.Live(k, e);
  }

  lemma StatusLives(k: E.Kernel, envid: nat, status: E.Status)
    requires E.Inv(k) && E.Standing(k) && E.SysSetEnvStatus(k, envid, status).Ran?
    ensures SameLives(k, E.SysSetEnvStatus(k, envid, status).k)
  {
    R.FoundIsLive(k, envid, true);
    var k' := E.SysSetEnvStatus(k, envid, status).k;
    assert forall e: nat :: E.Live(k', e) <==> E.Live(k, e);
  }

  lemma RecvLives(k: E.Kernel, dstva: nat)
    requires E.Inv(k) && E.Standing(k) && E.SysIpcRecv(k, dstva).Ran?
    ensures SameLives(k, E.SysIpcRecv(k, dstva).k)
  {
    R.RecvKeeps(k, dstva);
    if dstva == 0 || !E.IllegalVa(dstva) {
      var b := E.Blocked(k, dstva);
      assert forall e: nat :: E.Live(b, e) <==> E.Live(k, e);
      ScheduleLives(b, true);
    }
  }

  lemma SendLives(k: E.Kernel, op: E.Op)
    requires E.Inv(k) && E.Standing(k) && op.IpcTrySend?
    ensures E.SysIpcTrySend(k, op).Ran? && SameLives(k, E.SysIpcTrySend(k, op).k)
  {
    R.SendKeeps(k, op);
    R.FoundIsLive(k, op.envid, false);
    var k' := E.SysIpcTrySend(k, op).k;
    assert forall e: nat :: E.Live(k', e) <==> E.Live(k, e);
  }

  // The traps that leave memory alone, and a send whatever it does to it, keep the bond.
  lemma OtherTrapsKeep(k: E.Kernel, s: Phys, pgdir: seq<nat>, lost: set<nat>, op: E.Op, k': E.Kernel, s': Phys)
    requires Together(k, s, pgdir, lost) && E.Standing(k) && !op.Exofork? && !op.Destroy?
    requires R.Guarded(k, op) && E.Step(k, op).Ran? && k' == E.Step(k, op).k && Inv(s') && s'.dirs == s.dirs
    ensures Together(k', s', pgdir, lost)
  {
    R.StepKeeps(k, op);
    match op
    case Tick => ScheduleLives(k, false);
    case Yield => ScheduleLives(k, true);
    case SetStatus(envid, status) => StatusLives(k, envid, status);
    case IpcRecv(dstva) => RecvLives(k, dstva);
    case IpcTrySend(_, _, _, _, _, _) => SendLives(k, op);
  }

  lemma DestroyLives(k: E.Kernel, envid: nat, e: nat)
    requires E.Inv(k) && E.Standing(k) && E.EnvId2Env(k, envid, true) == E.Found(e) && E.SysEnvDestroy(k, envid).Ran?
    ensures e in Lives(k) && Lives(E.SysEnvDestroy(k, envid).k) == Lives(k) - {e}
    ensures DestinationsOk(k) ==> DestinationsOk(E.SysEnvDestroy(k, envid).k)
  {
    R.FoundIsLive(k, envid, true);
    R.FreeKeeps(k, e);
    var freed := E.EnvFree(k, e).k;
    assert forall i: nat :: E.Live(freed, i) <==> E.Live(k, i) && i != e;
    assert Lives(freed) == Lives(k) - {e};
    if k.cur == E.Cur(e) {
      assert Lives(freed.(cur := E.Nobody)) == Lives(freed);
      ScheduleLives(freed.(cur := E.Nobody), true);
    }
  }

  // A destroyed environment goes together with its directory.
  lemma DestroyKeeps(k: E.Kernel, s: Phys, pgdir: seq<nat>, lost: set<nat>, envid: nat, e: nat, k': E.Kernel, s': Phys)
    requires Together(k, s, pgdir, lost) && E.Standing(k) && E.EnvId2Env(k, envid, true) == E.Found(e) && e < |pgdir|
    requires E.SysEnvDestroy(k, envid).Ran? && k' == E.SysEnvDestroy(k, envid).k && TornDown(s, s', pgdir[e])
    ensures Together(k', s', pgdir, lost)
  {
    R.DestroyKeeps(k, envid);
    DestroyLives(k, envid, e);
    BondDrops(Lives(k), s.dirs, pgdir, lost, e);
  }

  lemma DestroyReady(k: E.Kernel, s: Phys, pgdir: seq<nat>, lost: set<nat>, envid: nat)
    requires Together(k, s, pgdir, lost) && E.Standing(k)
    ensures match E.EnvId2Env(k, envid, true) case BadEnv => true case Found(e) => e < E.NENV && pgdir[e] in s.dirs
  {
    R.FoundIsLive(k, envid, true);
    match E.EnvId2Env(k, envid, true)
    case BadEnv =>
    case Found(e) => assert e in Lives(k);
  }

  lemma DestroyConcludes(k: E.Kernel, s: Phys, pgdir: seq<nat>, lost: set<nat>, envid: nat, k': E.Kernel, s': Phys)
    requires Together(k, s, pgdir, lost) && E.Standing(k) && E.SysEnvDestroy(k, envid).Ran? && k' == E.SysEnvDestroy(k, envid).k
    requires match E.EnvId2Env(k, envid, true) case BadEnv => s' == s case Found(e) => e < |pgdir| && TornDown(s, s', pgdir[e])
    ensures Together(k', s', pgdir, lost)
  {
    match E.EnvId2Env(k, envid, true)
    case BadEnv =>
    case Found(e) => DestroyKeeps(k, s, pgdir, lost, envid, e, k', s');
  }

  lemma ExoforkLives(k: E.Kernel)
    requires E.Inv(k) && E.Standing(k) && k.free != []
    ensures k.free[0] !in Lives(k) && E.SysExofork(k, true).Ran?
    ensures DestinationsOk(k) ==> DestinationsOk(E.SysExofork(k, true).k)
    ensures Lives(E.SysExofork(k, true).k) == if E.SysExofork(k, true).ret >= 0 then Lives(k) + {k.free[0]} else Lives(k)
  {
    assert k.free[0] in k.free;
    R.ExoforkMakesAChild(k, true);
    var o := E.SysExofork(k, true);
    assert forall i: nat :: E.Live(o.k, i) <==> E.Live(k, i) || (o.ret >= 0 && i == k.free[0]);
  }

  // A directory made for the first free environment is its own, or, if env_alloc then finds no
  // ASID, lost.
  lemma ExoforkKeeps(k: E.Kernel, s: Phys, pgdir: seq<nat>, lost: set<nat>, q: nat, k': E.Kernel, s': Phys, pgdir': seq<nat>, lost': set<nat>)
    requires Together(k, s, pgdir, lost) && E.Standing(k) && k.free != [] && k.free[0] < |pgdir|
    requires Inv(s') && q !in s.dirs && s'.dirs == s.dirs + {q} && E.SysExofork(k, true).Ran? && k' == E.SysExofork(k, true).k
    requires pgdir' == pgdir[k.free[0] := q] && lost' == if E.SysExofork(k, true).ret < 0 then lost + {q} else lost
    ensures Together(k', s', pgdir', lost')
  {
    R.ExoforkKeeps(k, true);
    ExoforkLives(k);
    BondGains(Lives(k), s.dirs, pgdir, lost, k.free[0], q);
    BondLoses(Lives(k), s.dirs, pgdir, lost, k.free[0], q);
  }

  lemma CreateLives(k: E.Kernel, pri: nat)
    requires E.Inv(k) && k.free != [] && k.free[0] < E.NENV && E.LeastFree(k.asids, 0) < E.NASID
    ensures k.free[0] !in Lives(k) && Lives(E.EnvCreate(k, pri)) == Lives(k) + {k.free[0]} && E.Inv(E.EnvCreate(k, pri))
    ensures DestinationsOk(k) ==> DestinationsOk(E.EnvCreate(k, pri))
  {
    var k' := E.EnvCreate(k, pri);
    assert k.free[0] in k.free;
    R.BootKeeps(k, pri);
    assert forall i: nat :: i < E.NENV && i != k.free[0] ==> k'.envs[i] == k.envs[i];
    assert forall i: nat :: E.Live(k', i) <==> E.Live(k, i) || i == k.free[0];
  }

  lemma CreateKeeps(k: E.Kernel, s: Phys, pgdir: seq<nat>, lost: set<nat>, pri: nat, q: nat, k': E.Kernel, s': Phys, pgdir': seq<nat>)
    requires Together(k, s, pgdir, lost) && k.free != [] && k.free[0] < E.NENV && E.LeastFree(k.asids, 0) < E.NASID
    requires k' == E.EnvCreate(k, pri) && pgdir' == pgdir[k.free[0] := q]
    requires Inv(s') && q !in s.dirs && s'.dirs == s.dirs + {q}
    ensures Together(k', s', pgdir', lost)
  {
    CreateLives(k, pri);
    BondGains(Lives(k), s.dirs, pgdir, lost, k.free[0], q);
  }

  // ---- a send with its page ----

  // The page at the sender's address, and whether the receiver's table for its address is there
  // or can be had.
  ghost function SentPage(k: E.Kernel, s: Phys, pgdir: seq<nat>, srcva: nat): Option<Pte>
    requires E.Standing(k) && |pgdir| == E.NENV
  {
    Lookup(s, pgdir[k.cur.e], Vpn(srcva))
  }

  predicate NoRoom(k: E.Kernel, s: Phys, pgdir: seq<nat>, e: nat)
    requires E.Standing(k) && |pgdir| == E.NENV && e < E.NENV
  {
    TableOf(s, pgdir[e], Vpn(k.envs[e].dstva)) == None && s.free == []
  }

  // Sender and receiver have their directories, and a page both its addresses.
  ghost predicate Deliverable(k: E.Kernel, s: Phys, pgdir: seq<nat>, op: E.Op)
    requires E.Standing(k) && |pgdir| == E.NENV && op.IpcTrySend?
  {
    match E.Receiver(k, op)
    case BadEnv => true
    case Found(e) =>
      && e < E.NENV && pgdir[e] in s.dirs && pgdir[k.cur.e] in s.dirs
      && (op.srcva == 0 || !E.IllegalVa(op.srcva)) && (k.envs[e].dstva == 0 || !E.IllegalVa(k.envs[e].dstva))
  }

  lemma SendReady(k: E.Kernel, s: Phys, pgdir: seq<nat>, lost: set<nat>, op: E.Op)
    requires Together(k, s, pgdir, lost) && E.Standing(k) && op.IpcTrySend?
    ensures E.Step(k, op).Ran? && R.Guarded(k, op) && Deliverable(k, s, pgdir, op)
    ensures E.Step(k, op).k == match E.Receiver(k, op) case BadEnv => k case Found(e) => E.Delivered(k, e, op.value, op.perm)
  {
    R.SendKeeps(k, op);
    R.FoundIsLive(k, op.envid, false);
    assert k.cur.e in Lives(k);
    match E.Receiver(k, op)
    case BadEnv =>
    case Found(e) => assert e in Lives(k);
  }

  // The trap, with the answers memory gives.
  ghost function SendOp(k: E.Kernel, s: Phys, pgdir: seq<nat>, envid: nat, value: nat, srcva: nat, perm: Bits): E.Op
    requires E.Standing(k) && |pgdir| == E.NENV
  {
    var target := E.Receiver(k, E.IpcTrySend(envid, value, srcva, perm, false, 0));
    E.IpcTrySend(envid, value, srcva, perm, SentPage(k, s, pgdir, srcva).Some?,
                 if target.Found? && target.e < E.NENV && NoRoom(k, s, pgdir, target.e) then E.E_NO_MEM else 0)
  }

  // How the trap ends once it is received.
  lemma SendEnds(k: E.Kernel, op: E.Op)
    requires E.Standing(k) && op.IpcTrySend?
    ensures var plain := E.IpcTrySend(op.envid, op.value, op.srcva, op.perm, false, 0);
      E.Receiver(k, plain) == E.Receiver(k, op) && (E.SysIpcTrySend(k, plain).Ran? <==> E.SysIpcTrySend(k, op).Ran?) &&
      (E.Receiver(k, op).BadEnv? ==> E.SysIpcTrySend(k, op) == E.SysIpcTrySend(k, plain))
    ensures E.Receiver(k, op).Found? && E.SysIpcTrySend(k, op).Ran? ==>
      E.SysIpcTrySend(k, op).ret == if op.srcva == 0 then 0 else if !op.mapped then E.E_INVAL else op.mapResult
  {
  }

  // What page_lookup of the sender's page and page_insert into the receiver's space answer and do.
  function MapAnswer(s: Phys, src: nat, dst: nat, srcva: nat, dstva: nat): Error {
    if Lookup(s, src, Vpn(srcva)) == None then E_INVAL
    else if TableOf(s, dst, Vpn(dstva)) == None && s.free == [] then E_NO_MEM else OK
  }

  ghost predicate PageMapped(s: Phys, src: nat, dst: nat, srcva: nat, dstva: nat, perm: Bits, s': Phys) {
    if MapAnswer(s, src, dst, srcva, dstva) != OK then s' == s
    else
      && ContentsKept(s, s') && s'.loose == s.loose
      && OnlyEntry(s, s', dst, Vpn(dstva), Some(Pte(Lookup(s, src, Vpn(srcva)).value.ppn, LeafBits(perm | PTE_U))))
  }

  // A send and its mapping, done one after the other.
  ghost predicate Sent(k: E.Kernel, s: Phys, pgdir: seq<nat>, op: E.Op, k': E.Kernel, s': Phys, end: K.End)
    requires E.Standing(k) && |pgdir| == E.NENV && op.IpcTrySend?
  {
    match E.Receiver(k, op)
    case BadEnv => end.Ret? && K.Agrees(end, k', E.SysIpcTrySend(k, op)) && s' == s
    case Found(e) =>
      && e < E.NENV && k' == E.Delivered(k, e, op.value, op.perm)
      && if op.srcva == 0 then end == K.Ret(0) && s' == s
         else
           && end == K.Ret(Code(MapAnswer(s, pgdir[k.cur.e], pgdir[e], op.srcva, k.envs[e].dstva)))
           && PageMapped(s, pgdir[k.cur.e], pgdir[e], op.srcva, k.envs[e].dstva, op.perm, s')
  }

  // What a send does to memory: the receiver's entry for its address becomes the sender's page,
  // if the send is received, asks for it, finds it and has room for it.
  ghost predicate PageArrives(k: E.Kernel, s: Phys, pgdir: seq<nat>, op: E.Op, s': Phys)
    requires E.Standing(k) && |pgdir| == E.NENV && op.IpcTrySend?
  {
    var target := E.Receiver(k, op);
    if target.Found? && target.e < E.NENV && op.srcva != 0 && SentPage(k, s, pgdir, op.srcva).Some? && !NoRoom(k, s, pgdir, target.e) then
      && OnlyEntry(s, s', pgdir[target.e], Vpn(k.envs[target.e].dstva),
                   Some(Pte(SentPage(k, s, pgdir, op.srcva).value.ppn, LeafBits(op.perm | PTE_U))))
      && ContentsKept(s, s') && s'.loose == s.loose
    else s' == s
  }

  lemma SendConcludes(k: E.Kernel, s: Phys, pgdir: seq<nat>, lost: set<nat>, op: E.Op, k': E.Kernel, s': Phys, end: K.End)
    requires Together(k, s, pgdir, lost) && E.Standing(k) && op.IpcTrySend? && Inv(s')
    requires op == SendOp(k, s, pgdir, op.envid, op.value, op.srcva, op.perm) && Sent(k, s, pgdir, op, k', s', end)
    ensures Together(k', s', pgdir, lost) && end.Ret? && K.Agrees(end, k', E.Step(k, op)) && PageArrives(k, s, pgdir, op, s')
  {
    SendReady(k, s, pgdir, lost, op);
    SendEnds(k, op);
    OtherTrapsKeep(k, s, pgdir, lost, op, k', s');
  }

  // Whatever happens between a receive and the send that ends it: the page sent is entered at the
  // address given to that receive.
  lemma PageGoesWhereAsked(k: E.Kernel, dstva: nat, ops: seq<E.Op>, k1: E.Kernel, s: Phys, pgdir: seq<nat>, op: E.Op, s': Phys)
    requires E.Inv(k) && E.Standing(k) && !k.envs[k.cur.e].recving && R.Guarded(k, E.IpcRecv(dstva))
    requires (dstva == 0 || !E.IllegalVa(dstva)) && E.Step(k, E.IpcRecv(dstva)).Ran?
    requires I.Awaits(E.Step(k, E.IpcRecv(dstva)).k, ops, k.cur.e) && R.Follows(E.Step(k, E.IpcRecv(dstva)).k, ops, k1)
    requires E.Standing(k1) && |pgdir| == E.NENV && op.IpcTrySend? && E.Receiver(k1, op) == E.Found.Found(k.cur.e) && op.srcva != 0
    requires SentPage(k1, s, pgdir, op.srcva).Some? && !NoRoom(k1, s, pgdir, k.cur.e) && PageArrives(k1, s, pgdir, op, s')
    ensures OnlyEntry(s, s', pgdir[k.cur.e], Vpn(dstva),
                      Some(Pte(SentPage(k1, s, pgdir, op.srcva).value.ppn, LeafBits(op.perm | PTE_U))))
  {
    I.AskedForAddress(k, dstva, ops, k1);
  }

  // ---- a new address space ----

  ghost predicate ReadsLikeTemplate(s: Phys, s': Phys, q: nat)
    requires s.base.Base?
  {
    forall v: nat :: v < USER_VPNS ==> Lookup(s', q, v) == Lookup(s, s.base.page, v)
  }

  ghost predicate SpacesKept(s: Phys, s': Phys) {
    forall q: nat, v: nat :: IsHolder(s, q) && v < USER_VPNS ==> Lookup(s', q, v) == Lookup(s, q, v)
  }

  // The directory is made, and lost when there is no ASID.  The child's address space is the
  // template; every other one reads as before.
  ghost predicate SpaceMade(k: E.Kernel, s: Phys, lost: set<nat>, s': Phys, pgdir: seq<nat>, lost': set<nat>, ret: int) {
    if k.free == [] || s.free == [] then s' == s && lost' == lost
    else
      && s'.dirs == s.dirs + {s.free[0]} && lost' == lost + (if ret < 0 then {s.free[0]} else {})
      && k.free[0] < |pgdir| && pgdir[k.free[0]] == s.free[0]
      && s.base.Base? && ReadsLikeTemplate(s, s', s.free[0]) && SpacesKept(s, s')
  }

  // The head of the free list has become a directory like the template.
  ghost predicate SpaceReady(s: Phys, s': Phys, q: nat) {
    && s.free != [] && q == s.free[0] && q !in s.dirs && s'.dirs == s.dirs + {q}
    && s.base.Base? && ReadsLikeTemplate(s, s', q) && SpacesKept(s, s')
  }

  // A fork and its set-up, done one after the other.
  ghost predicate Forked(k: E.Kernel, s: Phys, pgdir: seq<nat>, lost: set<nat>, k': E.Kernel, s': Phys, pgdir': seq<nat>, lost': set<nat>, end: K.End)
    requires E.Standing(k)
  {
    var o := E.SysExofork(k, s.free != []);
    && o.Ran? && end == K.Ret(o.ret) && k' == o.k && Inv(s') && SpaceMade(k, s, lost, s', pgdir', lost', o.ret)
    && if k.free == [] || s.free == [] then pgdir' == pgdir
       else k.free[0] < |pgdir| && pgdir' == pgdir[k.free[0] := s.free[0]] && s.free[0] !in s.dirs
  }

  lemma ForkedIs(k: E.Kernel, s: Phys, pgdir: seq<nat>, lost: set<nat>, vmOk: bool, q: nat,
                 k': E.Kernel, s': Phys, pgdir': seq<nat>, lost': set<nat>, end: K.End)
    requires E.Standing(k) && E.SysExofork(k, vmOk).Ran? && end == K.Ret(E.SysExofork(k, vmOk).ret) && k' == E.SysExofork(k, vmOk).k
    requires (vmOk <==> k.free != [] && s.free != []) && (vmOk ==> k.free[0] < |pgdir| == E.NENV)
    requires if vmOk then pgdir' == pgdir[k.free[0] := q] && SpaceReady(s, s', q) else s' == s && pgdir' == pgdir
    requires Inv(s') && lost' == if vmOk && end.ret < 0 then lost + {q} else lost
    ensures Forked(k, s, pgdir, lost, k', s', pgdir', lost', end)
  {
    assert k.free == [] ==> E.SysExofork(k, true) == E.SysExofork(k, false);
  }

  lemma CreateReady(k: E.Kernel, s: Phys, pgdir: seq<nat>, lost: set<nat>)
    requires Together(k, s, pgdir, lost) && k.free != []
    ensures k.free[0] < E.NENV == |pgdir| && k.free[0] !in k.sched
  {
    assert k.free[0] in k.free;
  }

  lemma ForkReady(k: E.Kernel, s: Phys, pgdir: seq<nat>, lost: set<nat>)
    requires Together(k, s, pgdir, lost) && E.Standing(k)
    ensures s.base.Base?
  {
    assert k.cur.e in Lives(k) && pgdir[k.cur.e] in s.dirs;
  }

  lemma ForkConcludes(k: E.Kernel, s: Phys, pgdir: seq<nat>, lost: set<nat>, k': E.Kernel, s': Phys, pgdir': seq<nat>, lost': set<nat>, end: K.End)
    requires Together(k, s, pgdir, lost) && E.Standing(k) && Forked(k, s, pgdir, lost, k', s', pgdir', lost', end)
    ensures Together(k', s', pgdir', lost')
  {
    R.ExoforkKeeps(k, s.free != []);
    if k.free == [] || s.free == [] {
      assert k' == k;
    } else {
      ExoforkKeeps(k, s, pgdir, lost, s.free[0], k', s', pgdir', lost');
    }
  }

  // The end of sys_ipc_try_send: page_lookup and page_insert.
  method LookupAndInsert(pm: PageMap, src: nat, dst: nat, srcva: nat, dstva: nat, perm: Bits) returns (err: Error)
    requires Inv(pm.State()) && src in pm.dirs && dst in pm.dirs && !IllegalVa(srcva) && (dstva == 0 || !IllegalVa(dstva))
    modifies pm, pm.pageRefs, pm.memory
    ensures Inv(pm.State()) && PageMapped(old(pm.State()), src, dst, srcva, dstva, perm, pm.State())
    ensures err == MapAnswer(old(pm.State()), src, dst, srcva, dstva)
  {
    VpnOf(srcva);
    VpnOf(dstva);
    assert IsHolder(pm.State(), src);
    var pte := pm.PageLookup(src, Vpn(srcva));
    if pte == None {
      return E_INVAL;
    }
    LookedUp(pm.State(), src, Vpn(srcva));
    UserPerm(perm);
    err := pm.PageInsert(dst, pte.value.ppn, Vpn(dstva), perm | PTE_U);
  }

  class Processes {
    const kern: K.Kern
    const pm: PageMap
    var pgdir: seq<nat>
    ghost var lost: set<nat>

    // No object serves both halves.
    ghost predicate Apart() { kern.Repr() !! {pm as object, pm.pageRefs, pm.memory} }

    ghost predicate Valid()
      reads this, kern.Repr(), pm, pm.pageRefs, pm.memory
    {
      kern.Valid() && Apart() && Together(kern.Abs(), pm.State(), pgdir, lost)
    }

    // After env_init: the template is there, and nothing else.
    constructor (kern: K.Kern, pm: PageMap)
      requires kern.Valid() && kern.Repr() !! {pm as object, pm.pageRefs, pm.memory} && kern.Abs() == E.EnvInit()
      requires Inv(pm.State()) && pm.base.Base? && pm.dirs == {}
      ensures this.kern == kern && this.pm == pm && Valid() && lost == {}
    {
      this.kern, this.pm := kern, pm;
      pgdir := seq(E.NENV, _ => 0);
      lost := {};
      new;
      R.InitiallyInv();
      assert Lives(E.EnvInit()) == {};
    }

    // env_setup_vm, on the memory of this machine.
    method SetUp() returns (err: Error, q: nat)
      requires Inv(pm.State()) && pm.base.Base? && kern.Valid() && Apart()
      modifies pm, pm.pageRefs, pm.memory
      ensures kern.Valid() && kern.Abs() == old(kern.Abs())
      ensures Inv(pm.State()) && err == if old(pm.freeList) == [] then E_NO_MEM else OK
      ensures err != OK ==> pm.State() == old(pm.State())
      ensures err == OK ==> q == old(pm.freeList[0]) && q !in old(pm.dirs) && pm.dirs == old(pm.dirs) + {q}
      ensures err == OK ==> ReadsLikeTemplate(old(pm.State()), pm.State(), q)
      ensures SpacesKept(old(pm.State()), pm.State())
    {
      err, q := EnvSetupVm(pm);
    }

    method SetUpAndCreate(pri: nat) returns (q: nat)
      requires kern.Valid() && Apart() && Inv(pm.State()) && pm.base.Base? && pm.freeList != [] && |pgdir| == E.NENV
      requires kern.free != [] && kern.free[0] !in kern.sched && E.LeastFree(kern.Abs().asids, 0) < E.NASID
      modifies `pgdir, kern.Repr(), pm, pm.pageRefs, pm.memory
      ensures kern.Valid() && old(kern.free[0]) < E.NENV && kern.Abs() == E.EnvCreate(old(kern.Abs()), pri)
      ensures Inv(pm.State()) && q !in old(pm.dirs) && pm.dirs == old(pm.dirs) + {q} && pgdir == old(pgdir)[old(kern.free[0]) := q]
      ensures ReadsLikeTemplate(old(pm.State()), pm.State(), q)
    {
      kern.FirstIsFree();
      var err;
      err, q := SetUp();
      pgdir := pgdir[kern.freeList.first := q];
      kern.Create(pri);
    }

    // env_create, up to the loading of its program.
    method EnvCreate(pri: nat)
      requires Valid() && kern.free != [] && E.LeastFree(kern.Abs().asids, 0) < E.NASID && pm.freeList != [] && pm.base.Base?
      modifies `pgdir, kern.Repr(), pm, pm.pageRefs, pm.memory
      ensures Valid()
      ensures old(kern.free[0]) < E.NENV && kern.Abs() == E.EnvCreate(old(kern.Abs()), pri)
      ensures ReadsLikeTemplate(old(pm.State()), pm.State(), pgdir[old(kern.free[0])])
    {
      ghost var k, s, pgdir0 := kern.Abs(), pm.State(), pgdir;
      CreateReady(k, s, pgdir, lost);
      var q := SetUpAndCreate(pri);
      CreateKeeps(k, s, pgdir0, lost, pri, q, kern.Abs(), pm.State(), pgdir);
    }

    // Its first steps touch no memory.
    method Deliver(envid: nat, value: nat, srcva: nat, perm: Bits) returns (end: K.End, target: E.Found)
      requires kern.Valid() && Apart() && E.Standing(kern.Abs())
      requires E.SysIpcTrySend(kern.Abs(), E.IpcTrySend(envid, value, srcva, perm, false, 0)).Ran?
      modifies kern.Repr()
      ensures kern.Valid() && end.Ret? && pm.State() == old(pm.State())
      ensures target == E.Receiver(old(kern.Abs()), E.IpcTrySend(envid, value, srcva, perm, false, 0))
      ensures match target
        case BadEnv => K.Agrees(end, kern.Abs(), E.SysIpcTrySend(old(kern.Abs()), E.IpcTrySend(envid, value, srcva, perm, false, 0)))
        case Found(e) => end == K.Ret(0) && e < E.NENV && kern.Abs() == E.Delivered(old(kern.Abs()), e, value, perm)
    {
      end, target := kern.Deliver(envid, value, srcva, perm);
    }

    // Its last step, of which the environments see nothing.
    method MapSent(e: nat, srcva: nat, perm: Bits) returns (end: K.End)
      requires kern.Valid() && Apart() && Inv(pm.State()) && e < E.NENV == |pgdir| && kern.curenv.Cur? && kern.curenv.e < E.NENV
      requires pgdir[kern.curenv.e] in pm.dirs && pgdir[e] in pm.dirs
      requires !IllegalVa(srcva) && (kern.envs[e].dstva == 0 || !IllegalVa(kern.envs[e].dstva))
      modifies pm, pm.pageRefs, pm.memory
      ensures kern.Valid() && kern.Abs() == old(kern.Abs())
      ensures Inv(pm.State())
      ensures PageMapped(old(pm.State()), pgdir[kern.curenv.e], pgdir[e], srcva, kern.envs[e].dstva, perm, pm.State())
      ensures end == K.Ret(Code(MapAnswer(old(pm.State()), pgdir[kern.curenv.e], pgdir[e], srcva, kern.envs[e].dstva)))
    {
      var err := LookupAndInsert(pm, pgdir[kern.curenv.e], pgdir[e], srcva, kern.envs[e].dstva, perm);
      end := K.Ret(Code(err));
    }

    method SendAndMap(envid: nat, value: nat, srcva: nat, perm: Bits, ghost op: E.Op) returns (end: K.End)
      requires kern.Valid() && Apart() && E.Standing(kern.Abs()) && Inv(pm.State()) && |pgdir| == E.NENV
      requires op.IpcTrySend? && op == E.IpcTrySend(envid, value, srcva, perm, op.mapped, op.mapResult) && E.SysIpcTrySend(kern.Abs(), op).Ran?
      requires Deliverable(kern.Abs(), pm.State(), pgdir, op)
      modifies kern.Repr(), pm, pm.pageRefs, pm.memory
      ensures kern.Valid() && Inv(pm.State()) && Sent(old(kern.Abs()), old(pm.State()), pgdir, op, kern.Abs(), pm.State(), end)
    {
      SendEnds(kern.Abs(), op);
      var target;
      end, target := Deliver(envid, value, srcva, perm);
      if target.Found? && srcva != 0 {
        end := MapSent(target.e, srcva, perm);
      }
    }

    // sys_ipc_try_send.  A receiver that asked for no page, with address 0, is given it there.
    method SysIpcTrySend(envid: nat, value: nat, srcva: nat, perm: Bits) returns (end: K.End)
      requires Valid() && E.Standing(kern.Abs())
      modifies kern.Repr(), pm, pm.pageRefs, pm.memory
      ensures Valid() && end.Ret?
      ensures var op := SendOp(old(kern.Abs()), old(pm.State()), pgdir, envid, value, srcva, perm);
        K.Agrees(end, kern.Abs(), E.Step(old(kern.Abs()), op)) && PageArrives(old(kern.Abs()), old(pm.State()), pgdir, op, pm.State())
    {
      ghost var k, s := kern.Abs(), pm.State();
      ghost var op := SendOp(k, s, pgdir, envid, value, srcva, perm);
      SendReady(k, s, pgdir, lost, op);
      end := SendAndMap(envid, value, srcva, perm, op);
      SendConcludes(k, s, pgdir, lost, op, kern.Abs(), pm.State(), end);
    }

    // env_alloc up to the directory of the first free environment.
    method MakeSpace() returns (vmOk: bool, ghost q: nat)
      requires kern.Valid() && Apart() && Inv(pm.State()) && pm.base.Base? && |pgdir| == E.NENV
      modifies `pgdir, pm, pm.pageRefs, pm.memory
      ensures kern.Valid() && kern.Abs() == old(kern.Abs()) && Inv(pm.State())
      ensures vmOk <==> kern.free != [] && old(pm.freeList) != []
      ensures vmOk ==> kern.free[0] < E.NENV
      ensures if vmOk then pgdir == old(pgdir)[kern.free[0] := q] && SpaceReady(old(pm.State()), pm.State(), q)
              else pm.State() == old(pm.State()) && pgdir == old(pgdir)
    {
      kern.FirstIsFree();
      vmOk, q := false, 0;
      if kern.freeList.first != Queue.NULL {
        var err, d := SetUp();
        if err == OK {
          pgdir := pgdir[kern.freeList.first := d];
          vmOk, q := true, d;
        }
      }
    }

    method SetUpAndFork() returns (end: K.End)
      requires kern.Valid() && Apart() && E.Standing(kern.Abs()) && Inv(pm.State()) && pm.base.Base? && |pgdir| == E.NENV
      modifies `pgdir, `lost, kern.Repr(), pm, pm.pageRefs, pm.memory
      ensures kern.Valid() && kern.schedList.queued == old(kern.schedList.queued)
      ensures Forked(old(kern.Abs()), old(pm.State()), old(pgdir), old(lost), kern.Abs(), pm.State(), pgdir, lost, end)
    {
      ghost var k, s, pgdir0, lost0 := kern.Abs(), pm.State(), pgdir, lost;
      var vmOk, q := MakeSpace();
      ghost var s1, pgdir1 := pm.State(), pgdir;
      assert Inv(s1);
      end := kern.Exofork(vmOk);
      if vmOk && end.ret < 0 { lost := lost + {q}; }
      assert pm.State() == s1;
      ForkedIs(k, s, pgdir0, lost0, vmOk, q, kern.Abs(), s1, pgdir1, lost, end);
    }

    // sys_exofork: env_alloc sets up the address space before it looks for an ASID.
    method SysExofork() returns (end: K.End)
      requires Valid() && E.Standing(kern.Abs())
      modifies this, kern.Repr(), pm, pm.pageRefs, pm.memory
      ensures Valid() && end.Ret? && kern.schedList.queued == old(kern.schedList.queued)
      ensures K.Agrees(end, kern.Abs(), E.Step(old(kern.Abs()), E.Exofork(old(pm.freeList) != [])))
      ensures SpaceMade(old(kern.Abs()), old(pm.State()), old(lost), pm.State(), pgdir, lost, end.ret)
    {
      ghost var k, s, pgdir0, lost0 := kern.Abs(), pm.State(), pgdir, lost;
      ForkReady(k, s, pgdir, lost);
      end := SetUpAndFork();
      ForkConcludes(k, s, pgdir0, lost0, kern.Abs(), pm.State(), pgdir, lost, end);
    }

    // Memory first: the address space of the environment that is meant goes, if there is one.
    method TearDown(envid: nat)
      requires kern.Valid() && Apart() && E.Standing(kern.Abs()) && Inv(pm.State()) && |pgdir| == E.NENV
      requires match E.EnvId2Env(kern.Abs(), envid, true) case BadEnv => true case Found(e) => e < E.NENV && pgdir[e] in pm.dirs
      modifies pm, pm.pageRefs, pm.memory
      ensures kern.Valid() && kern.Abs() == old(kern.Abs()) && kern.NeverQueued(envid) == old(kern.NeverQueued(envid))
      ensures match E.EnvId2Env(kern.Abs(), envid, true)
        case BadEnv => pm.State() == old(pm.State())
        case Found(e) => TornDown(old(pm.State()), pm.State(), pgdir[e]) && SameOtherSpaces(old(pm.State()), pm.State(), pgdir[e])
    {
      var found := kern.FindEnv(envid, true);
      if found.Found? {
        EnvFreeVm(pm, pgdir[found.e]);
      }
    }

    // Then the table and the lists.
    method TearDownAndDestroy(envid: nat) returns (end: K.End)
      requires kern.Valid() && Apart() && E.Standing(kern.Abs()) && Inv(pm.State()) && |pgdir| == E.NENV
      requires match E.EnvId2Env(kern.Abs(), envid, true) case BadEnv => true case Found(e) => e < E.NENV && pgdir[e] in pm.dirs
      modifies kern.Repr(), pm, pm.pageRefs, pm.memory
      ensures end == K.NullStore <==> old(kern.NeverQueued(envid))
      ensures end != K.NullStore ==> kern.Safe()
      ensures kern.Done(end, E.Step(old(kern.Abs()), E.Destroy(envid)))
      ensures match E.EnvId2Env(old(kern.Abs()), envid, true)
        case BadEnv => pm.State() == old(pm.State())
        case Found(e) => TornDown(old(pm.State()), pm.State(), pgdir[e]) && SameOtherSpaces(old(pm.State()), pm.State(), pgdir[e])
    {
      TearDown(envid);
      end := kern.Destroy(envid);
    }

    // sys_env_destroy
    method SysEnvDestroy(envid: nat) returns (end: K.End)
      requires Valid() && E.Standing(kern.Abs())
      modifies kern.Repr(), pm, pm.pageRefs, pm.memory
      ensures end == K.NullStore <==> old(kern.NeverQueued(envid))
      ensures end != K.NullStore ==> kern.Safe()
      ensures kern.Done(end, E.Step(old(kern.Abs()), E.Destroy(envid)))
      ensures E.Step(old(kern.Abs()), E.Destroy(envid)).Ran? ==> Valid()
      ensures match E.EnvId2Env(old(kern.Abs()), envid, true)
        case BadEnv => pm.State() == old(pm.State())
        case Found(e) => e < |pgdir| && TornDown(old(pm.State()), pm.State(), pgdir[e]) && SameOtherSpaces(old(pm.State()), pm.State(), pgdir[e])
    {
      ghost var k, s := kern.Abs(), pm.State();
      DestroyReady(k, s, pgdir, lost, envid);
      end := TearDownAndDestroy(envid);
      if E.SysEnvDestroy(k, envid).Ran? {
        DestroyConcludes(k, s, pgdir, lost, envid, kern.Abs(), pm.State());
      }
    }

    // spawn's error path, in a slot that was never queued: the child is made and destroyed before
    // it is made runnable, and the kernel stores through NULL, its memory being given back already.
    method FreshChildStoresThroughNull() returns (end: K.End)
      requires Valid() && E.Standing(kern.Abs()) && pm.freeList != []
      requires kern.free != [] && kern.free[0] !in kern.schedList.queued && E.LeastFree(kern.Abs().asids, 0) < E.NASID
      modifies this, kern.Repr(), pm, pm.pageRefs, pm.memory
      ensures end == K.NullStore
    {
      ghost var k := kern.Abs();
      assert k.free[0] in k.free;
      R.MakesAChild(k);
      var child := SysExofork();
      R.EnvidNamesOne(kern.Abs(), child.ret, true, k.free[0]);
      assert kern.schedList.Sane(k.free[0]);
      end := SysEnvDestroy(child.ret);
    }
  }
}
