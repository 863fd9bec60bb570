// What every trap keeps of the environment invariant, and exactly which calls do not.
module EnvironmentRuns {
  import opened Environments

  // ---- queues ----

  lemma {:induction false} WithoutKeepsTheRest(s: seq<nat>, x: nat)
    requires Distinct(s)
    ensures Distinct(Without(s, x))
    ensures forall y: nat :: y in Without(s, x) <==> y in s && y != x
  {
    if s != [] {
      assert Distinct(s[1..]);
      var rest := s[1..];
      WithoutKeepsTheRest(rest, x);
      assert s == [s[0]] + rest;
      assert s[0] !in rest;
    }
  }

  lemma Rotates(k: Kernel)
    requires ListsOk(k)
    ensures Distinct(Rotated(k)) && forall y: nat :: y in Rotated(k) <==> y in k.sched
  {
    if CurRunnable(k) {
      WithoutKeepsTheRest(k.sched, k.cur.e);
      var list := Rotated(k);
      assert forall y: nat :: y in list <==> y in Without(k.sched, k.cur.e) || y == k.cur.e;
    }
  }

  ghost predicate SomeRunnable(k: Kernel) { exists e: nat :: e < |k.envs| && k.envs[e].status == Runnable }

  lemma Head(k: Kernel)
    requires ListsOk(k)
    ensures Rotated(k) == [] <==> !SomeRunnable(k)
    ensures Rotated(k) != [] ==> Rotated(k)[0] < |k.envs| && k.envs[Rotated(k)[0]].status == Runnable
  {
    Rotates(k);
    if SomeRunnable(k) {
      var e: nat :| e < |k.envs| && k.envs[e].status == Runnable;
      assert e in Rotated(k);
    }
    if Rotated(k) != [] {
      assert Rotated(k)[0] in Rotated(k);
    }
  }

  // ---- schedule ----

  // What schedule does to a kernel whose lists are in order.
  lemma ScheduleEnds(k: Kernel, yielding: bool)
    requires ListsOk(k) && (CurRunnable(k) ==> k.cur.e in k.sched)
    ensures Schedule(k, yielding) ==
      if !Switches(k, yielding) then EnvRun(k.(count := k.count - 1), k.cur.e)
      else if Rotated(k) == [] || Rotated(k)[0] >= |k.envs| then Panic
      else EnvRun(k.(sched := Rotated(k), count := k.envs[Rotated(k)[0]].pri - 1), Rotated(k)[0])
  {
    Head(k);
  }

  lemma RunKeeps(k: Kernel, list: seq<nat>, count: int, e: nat)
    requires Inv(k) && e < NENV && k.envs[e].status == Runnable
    requires Distinct(list) && forall y: nat :: y in list <==> y in k.sched
    ensures EnvRun(k.(sched := list, count := count), e).Ran?
    ensures Inv(EnvRun(k.(sched := list, count := count), e).k)
    ensures CurRunnable(EnvRun(k.(sched := list, count := count), e).k)
  {
    var k1 := k.(sched := list, count := count);
    var k' := EnvRun(k1, e).k;
    assert forall i: nat :: i < NENV ==> k'.envs[i].(runs := 0) == k.envs[i].(runs := 0);
    assert forall i: nat :: Live(k', i) <==> Live(k, i);
    assert forall a: nat, i: nat :: Holds(k, i, a) ==> Holds(k', i, a);
  }

  // schedule keeps the invariant, runs a runnable environment, and panics exactly when
  // there is none.
  lemma ScheduleKeeps(k: Kernel, yielding: bool)
    requires Inv(k)
    ensures !Schedule(k, yielding).ListCorrupted?
    ensures Schedule(k, yielding).Panic? <==> !SomeRunnable(k)
    ensures Schedule(k, yielding).Ran? ==> Inv(Schedule(k, yielding).k) && Standing(Schedule(k, yielding).k)
    ensures Schedule(k, yielding).Ran? ==> CurRunnable(Schedule(k, yielding).k)
  {
    Head(k);
    ScheduleEnds(k, yielding);
    if !Switches(k, yielding) {
      assert SomeRunnable(k);
      RunKeeps(k, k.sched, k.count - 1, k.cur.e);
      assert k.(sched := k.sched, count := k.count - 1) == k.(count := k.count - 1);
    } else if Rotated(k) != [] {
      Rotates(k);
      RunKeeps(k, Rotated(k), k.envs[Rotated(k)[0]].pri - 1, Rotated(k)[0]);
    }
  }

  // ---- allocation ----

  // The environment env_alloc fills in.
  function Named(k: Kernel, parent: nat): Env
    requires k.free != [] && k.free[0] < |k.envs|
  {
    k.envs[k.free[0]].(runs := 0, parent := parent, id := MkEnvId(k.made, k.free[0]))
  }

  // The four ways env_alloc ends.
  lemma AllocEnds(k: Kernel, parent: nat, vmOk: bool)
    requires |k.envs| == NENV && (k.free != [] ==> k.free[0] < NENV)
    ensures var o := EnvAlloc(k, parent, vmOk); o.Ran?
    ensures k.free == [] || !vmOk ==> EnvAlloc(k, parent, vmOk).k == k && EnvAlloc(k, parent, vmOk).ret < 0
    ensures k.free != [] && vmOk && LeastFree(k.asids, 0) == NASID ==>
      (EnvAlloc(k, parent, vmOk).k == SetEnv(k, k.free[0], Named(k, parent)).(made := k.made + 1) && EnvAlloc(k, parent, vmOk).ret < 0)
    ensures k.free != [] && vmOk && LeastFree(k.asids, 0) < NASID ==> EnvAlloc(k, parent, vmOk).ret >= 0
  {
  }

  // mkenvid's number names its slot and is above every one made before.
  lemma MadeIds(made: nat, e: nat)
    requires e < NENV
    ensures Index(MkEnvId(made, e)) == e && MkEnvId(made, 0) <= MkEnvId(made, e) < MkEnvId(made + 1, 0)
    ensures MkEnvId(made, e) > 0
  {
    assert MkEnvId(made, e) == (made + 1) * 2048 + e;
  }

  // A free environment's fields may change, and identifiers may be used up.
  lemma RenamedKeeps(k: Kernel, v: Env, e: nat)
    requires Inv(k) && e < NENV && k.envs[e].status == Free && v.status == Free && !v.recving
    ensures Inv(SetEnv(k, e, v).(made := k.made + 1))
  {
    var k' := SetEnv(k, e, v).(made := k.made + 1);
    MadeIds(k.made, 0);
    assert forall i: nat :: Live(k', i) <==> Live(k, i);
    assert forall i: nat :: Live(k, i) ==> k'.envs[i] == k.envs[i];
    assert forall a: nat, i: nat :: Holds(k, i, a) ==> Holds(k', i, a);
  }

  lemma AllocKeeps(k: Kernel, parent: nat, vmOk: bool)
    requires Inv(k)
    ensures EnvAlloc(k, parent, vmOk).Ran?
    ensures EnvAlloc(k, parent, vmOk).ret < 0 ==> Inv(EnvAlloc(k, parent, vmOk).k)
  {
    if k.free != [] {
      assert k.free[0] in k.free;
      RenamedKeeps(k, Named(k, parent), k.free[0]);
    }
    AllocEnds(k, parent, vmOk);
  }

  lemma PushedAndPopped(s: seq<nat>, e: nat)
    requires s != [] && s[0] == e && Distinct(s)
    ensures Distinct(s[1..]) && forall y: nat :: y in s[1..] <==> y in s && y != e
  {
    assert s == [e] + s[1..];
  }

  lemma IdMade(k: Kernel, k': Kernel, e: nat)
    requires |k.envs| == NENV && IdsOk(k) && e < NENV && |k'.envs| == NENV
    requires forall i: nat :: i != e && i < NENV ==> k'.envs[i] == k.envs[i]
    requires k'.envs[e].id == MkEnvId(k.made, e) && k'.made == k.made + 1
    ensures IdsOk(k')
  {
    MadeIds(k.made, e);
    MadeIds(k.made, 0);
    assert forall i: nat :: Live(k', i) && i != e ==> Live(k, i);
  }

  // AsidsOk when environment e goes live with a free ASID.
  lemma AsidTaken(k: Kernel, k': Kernel, e: nat)
    requires |k.envs| == NENV && AsidsOk(k) && e < NENV && !Live(k, e) && Live(k', e) && |k'.envs| == NENV
    requires forall i: nat :: i != e && i < NENV ==> k'.envs[i] == k.envs[i]
    requires k'.envs[e].asid !in k.asids && k'.envs[e].asid < NASID && k'.asids == k.asids + {k'.envs[e].asid}
    ensures AsidsOk(k')
  {
    assert forall i: nat :: Live(k', i) <==> Live(k, i) || i == e;
    forall a: nat | a in k'.asids ensures exists i: nat :: Holds(k', i, a) {
      if a in k.asids {
        var i: nat :| Holds(k, i, a);
        assert Holds(k', i, a);
      } else {
        assert Holds(k', e, a);
      }
    }
  }

  // The first free environment becomes live.
  lemma NewEnvKeeps(k: Kernel, v: Env, list: seq<nat>)
    requires Inv(k) && k.free != [] && k.free[0] < NENV
    requires v.status != Free && !v.recving && v.id == MkEnvId(k.made, k.free[0])
    requires v.asid < NASID && v.asid !in k.asids
    requires list == if v.status == Runnable then [k.free[0]] + k.sched else k.sched
    ensures Inv(SetEnv(k, k.free[0], v).(made := k.made + 1, asids := k.asids + {v.asid}, free := k.free[1..], sched := list))
  {
    var e := k.free[0];
    assert e in k.free;
    var k' := SetEnv(k, e, v).(made := k.made + 1, asids := k.asids + {v.asid}, free := k.free[1..], sched := list);
    assert k.free == [e] + k'.free;
    assert forall i: nat :: Live(k', i) <==> Live(k, i) || i == e;
    assert forall i: nat :: i != e && i < NENV ==> k'.envs[i] == k.envs[i];
    assert e !in k.sched;
    assert ListsOk(k') by {
      PushedAndPopped(k.free, e);
      assert v.status == Runnable ==> list[0] == e && list[1..] == k.sched;
    }
    AsidTaken(k, k', e);
    IdMade(k, k', e);
    assert ReceiversOk(k');
  }

  // AsidsOk when environment e is freed and its ASID with it.
  lemma AsidReleased(k: Kernel, k': Kernel, e: nat)
    requires |k.envs| == NENV && AsidsOk(k) && Live(k, e) && !Live(k', e) && |k'.envs| == NENV
    requires forall i: nat :: i != e && i < NENV ==> k'.envs[i] == k.envs[i]
    requires k'.asids == k.asids - {k.envs[e].asid}
    ensures AsidsOk(k')
  {
    assert forall i: nat :: Live(k', i) <==> Live(k, i) && i != e;
    forall a: nat | a in k'.asids ensures exists i: nat :: Holds(k', i, a) {
      var i: nat :| Holds(k, i, a);
      assert Holds(k', i, a);
    }
  }

  function Started(k: Kernel, parent: nat, status: Status, pri: nat, list: seq<nat>): Kernel
    requires |k.envs| == NENV && k.free != [] && k.free[0] < NENV
  {
    var k1 := EnvAlloc(k, parent, true).k;
    SetEnv(k1, k.free[0], k1.envs[k.free[0]].(status := status, pri := pri)).(sched := list)
  }

  lemma StartedShape(k: Kernel, parent: nat, status: Status, pri: nat, list: seq<nat>, v: Env)
    requires |k.envs| == NENV && k.free != [] && k.free[0] < NENV && LeastFree(k.asids, 0) < NASID
    requires v == Named(k, parent).(asid := LeastFree(k.asids, 0), status := status, pri := pri)
    ensures Started(k, parent, status, pri, list)
      == SetEnv(k, k.free[0], v).(made := k.made + 1, asids := k.asids + {v.asid}, free := k.free[1..], sched := list)
  {
    assert Started(k, parent, status, pri, list).envs == k.envs[k.free[0] := v];
  }

  // env_alloc's choice given a status, as env_create and sys_exofork give it one.
  lemma StartKeeps(k: Kernel, parent: nat, status: Status, pri: nat, list: seq<nat>)
    requires Inv(k) && k.free != [] && k.free[0] < NENV && EnvAlloc(k, parent, true).ret >= 0 && status != Free
    requires list == if status == Runnable then [k.free[0]] + k.sched else k.sched
    ensures Inv(Started(k, parent, status, pri, list))
  {
    assert k.free[0] in k.free;
    AllocEnds(k, parent, true);
    var v := Named(k, parent).(asid := LeastFree(k.asids, 0), status := status, pri := pri);
    NewEnvKeeps(k, v, list);
    StartedShape(k, parent, status, pri, list, v);
  }

  lemma BootKeeps(k: Kernel, pri: nat)
    requires Inv(k) && k.free != [] && k.free[0] < NENV && LeastFree(k.asids, 0) < NASID
    ensures Inv(EnvCreate(k, pri)) && EnvCreate(k, pri).cur == k.cur
  {
    StartKeeps(k, 0, Runnable, pri, [k.free[0]] + k.sched);
    assert EnvCreate(k, pri) == Started(k, 0, Runnable, pri, [k.free[0]] + k.sched);
  }

  lemma InitiallyInv()
    ensures Inv(EnvInit())
  {
    var k := EnvInit();
    assert forall e: nat :: e < NENV ==> k.envs[e].status == Free && !k.envs[e].recving;
    forall e: nat ensures e in k.free <==> e < NENV {
      if e < NENV { assert k.free[e] == e; }
    }
    assert ListsOk(k);
  }

  lemma ExoforkKeeps(k: Kernel, vmOk: bool)
    requires Inv(k) && Standing(k)
    ensures SysExofork(k, vmOk).Ran? && Inv(SysExofork(k, vmOk).k) && SysExofork(k, vmOk).k.cur == k.cur
  {
    var parent := k.envs[k.cur.e].id;
    AllocKeeps(k, parent, vmOk);
    if EnvAlloc(k, parent, vmOk).ret >= 0 {
      assert k.free[0] in k.free && k.free[0] != k.cur.e;
      StartKeeps(k, parent, NotRunnable, k.envs[k.cur.e].pri, k.sched);
      assert SysExofork(k, vmOk).k == Started(k, parent, NotRunnable, k.envs[k.cur.e].pri, k.sched);
    }
  }

  // ---- status changes ----

  // A live environment changes status, keeping its identifier and ASID.
  lemma StatusKeeps(k: Kernel, e: nat, v: Env, list: seq<nat>)
    requires Inv(k) && Live(k, e)
    requires v.status != Free && v.id == k.envs[e].id && v.asid == k.envs[e].asid
    requires v.recving ==> v.status == NotRunnable
    requires Distinct(list) && forall i: nat :: i in list <==> (if i == e then v.status == Runnable else i in k.sched)
    ensures Inv(SetEnv(k, e, v).(sched := list))
  {
    var k' := SetEnv(k, e, v).(sched := list);
    assert forall i: nat :: Live(k', i) <==> Live(k, i);
    assert forall i: nat :: Live(k, i) ==> k'.envs[i].id == k.envs[i].id && k'.envs[i].asid == k.envs[i].asid;
    assert forall a: nat, i: nat :: Holds(k, i, a) ==> Holds(k', i, a);
  }

  lemma FoundIsLive(k: Kernel, envid: nat, checkperm: bool)
    requires Inv(k) && Standing(k)
    ensures match EnvId2Env(k, envid, checkperm) case Found(e) => Live(k, e) case BadEnv => true
  {
  }

  // envid2env finds exactly the live environment that bears the identifier, if the caller
  // may touch it: itself and its children when permission is checked.
  lemma EnvidNamesOne(k: Kernel, envid: nat, checkperm: bool, e: nat)
    requires Inv(k) && Standing(k)
    ensures EnvId2Env(k, 0, checkperm) == Found(k.cur.e)
    ensures envid != 0 ==> (EnvId2Env(k, envid, checkperm) == Found(e) <==>
      Live(k, e) && k.envs[e].id == envid
      && (checkperm ==> e == k.cur.e || k.envs[e].parent == k.envs[k.cur.e].id))
  {
    assert Live(k, e) ==> Index(k.envs[e].id) == e;
    assert Index(k.envs[k.cur.e].id) == k.cur.e;
  }

  // A new blocked child of the current environment, with its priority, an identifier no
  // live environment has and nothing else changed.
  ghost predicate ChildMade(k: Kernel, k': Kernel, e: nat, id: int)
    requires Standing(k)
  {
    && !Live(k, e) && Live(k', e) && k'.envs[e].id == id
    && k'.envs[e].status == NotRunnable && k'.envs[e].parent == k.envs[k.cur.e].id && k'.envs[e].pri == k.envs[k.cur.e].pri
    && k'.sched == k.sched
    && (forall i: nat :: Live(k, i) ==> Live(k', i) && k'.envs[i] == k.envs[i] && k.envs[i].id != id)
  }

  lemma MakesAChild(k: Kernel)
    requires Inv(k) && Standing(k) && k.free != [] && k.free[0] < NENV && !Live(k, k.free[0]) && LeastFree(k.asids, 0) < NASID
    ensures SysExofork(k, true).Ran? && SysExofork(k, true).ret >= 0
    ensures ChildMade(k, SysExofork(k, true).k, k.free[0], SysExofork(k, true).ret)
  {
    var e, parent := k.free[0], k.envs[k.cur.e].id;
    AllocEnds(k, parent, true);
    var v := Named(k, parent).(asid := LeastFree(k.asids, 0), status := NotRunnable, pri := k.envs[k.cur.e].pri);
    StartedShape(k, parent, NotRunnable, v.pri, k.sched, v);
    assert SysExofork(k, true).k == Started(k, parent, NotRunnable, v.pri, k.sched);
    MadeIds(k.made, e);
  }

  // What sys_exofork makes, and when.
  lemma ExoforkMakesAChild(k: Kernel, vmOk: bool)
    requires Inv(k) && Standing(k)
    ensures SysExofork(k, vmOk).Ran?
    ensures SysExofork(k, vmOk).ret >= 0 <==> vmOk && k.free != [] && exists a: nat :: a < NASID && a !in k.asids
    ensures SysExofork(k, vmOk).ret >= 0 ==> ChildMade(k, SysExofork(k, vmOk).k, k.free[0], SysExofork(k, vmOk).ret)
    ensures SysExofork(k, vmOk).ret < 0 ==> forall i: nat :: Live(k, i) <==> Live(SysExofork(k, vmOk).k, i)
  {
    assert LeastFree(k.asids, 0) < NASID <==> exists a: nat :: a < NASID && a !in k.asids;
    assert k.free != [] ==> k.free[0] in k.free;
    AllocEnds(k, k.envs[k.cur.e].id, vmOk);
    if k.free != [] && vmOk && LeastFree(k.asids, 0) < NASID { MakesAChild(k); }
  }

  // The one call that breaks the invariant: sys_set_env_status waking a receiver.
  predicate WakesReceiver(k: Kernel, op: Op)
    requires Standing(k)
  {
    op.SetStatus? && op.status == Runnable
    && match EnvId2Env(k, op.envid, true) case Found(e) => k.envs[e].recving case BadEnv => false
  }

  // The calls that take an environment off a list it is not on: destroying one that is not
  // runnable, and receiving after one's own status was set to not runnable.
  predicate RemovesOffList(k: Kernel, op: Op)
    requires Standing(k)
  {
    match op
    case Destroy(envid) =>
      (match EnvId2Env(k, envid, true) case Found(e) => k.envs[e].status != Runnable case BadEnv => false)
    case IpcRecv(dstva) => (dstva == 0 || !IllegalVa(dstva)) && !CurRunnable(k)
    case _ => false
  }

  lemma SetStatusKeeps(k: Kernel, envid: nat, status: Status)
    requires Inv(k) && Standing(k)
    ensures var o := SysSetEnvStatus(k, envid, status);
      o.Ran? && o.k.cur == k.cur && (Inv(o.k) <==> !WakesReceiver(k, SetStatus(envid, status)))
  {
    FoundIsLive(k, envid, true);
    if status != Free && EnvId2Env(k, envid, true).Found? {
      var e := EnvId2Env(k, envid, true).e;
      var k' := SysSetEnvStatus(k, envid, status).k;
      if WakesReceiver(k, SetStatus(envid, status)) {
        assert k'.envs[e].recving && k'.envs[e].status == Runnable;
      } else {
        WithoutKeepsTheRest(k.sched, e);
        StatusKeeps(k, e, k.envs[e].(status := status), k'.sched);
      }
    }
  }

  lemma ListsFreed(k: Kernel, k': Kernel, e: nat)
    requires |k.envs| == NENV && ListsOk(k) && e < NENV && k.envs[e].status == Runnable
    requires k'.envs == k.envs[e := k.envs[e].(status := Free)]
    requires k'.free == [e] + k.free && k'.sched == Without(k.sched, e)
    ensures ListsOk(k')
  {
    WithoutKeepsTheRest(k.sched, e);
    assert e !in k.free && k'.free[0] == e && k'.free[1..] == k.free;
    assert forall i: nat :: i in k'.free <==> i == e || i in k.free;
  }

  lemma FreeKeeps(k: Kernel, e: nat)
    requires Inv(k) && e < NENV && k.envs[e].status == Runnable
    ensures EnvFree(k, e).Ran? && Inv(EnvFree(k, e).k.(cur := if k.cur == Cur(e) then Nobody else k.cur))
  {
    var k' := EnvFree(k, e).k.(cur := if k.cur == Cur(e) then Nobody else k.cur);
    assert forall i: nat :: Live(k', i) <==> Live(k, i) && i != e;
    assert forall i: nat :: i != e && i < NENV ==> k'.envs[i] == k.envs[i];
    AsidReleased(k, k', e);
    ListsFreed(k, k', e);
  }

  lemma DestroyKeeps(k: Kernel, envid: nat)
    requires Inv(k) && Standing(k)
    ensures match SysEnvDestroy(k, envid)
      case Ran(k', _) => Inv(k') && Standing(k')
      case Panic => true
      case ListCorrupted => RemovesOffList(k, Destroy(envid))
    ensures RemovesOffList(k, Destroy(envid)) ==> SysEnvDestroy(k, envid).ListCorrupted?
  {
    FoundIsLive(k, envid, true);
    match EnvId2Env(k, envid, true)
    case BadEnv =>
    case Found(e) =>
      if k.envs[e].status == Runnable {
        FreeKeeps(k, e);
        if k.cur == Cur(e) { ScheduleKeeps(EnvFree(k, e).k.(cur := Nobody), true); }
      }
  }

  lemma RecvKeeps(k: Kernel, dstva: nat)
    requires Inv(k) && Standing(k)
    ensures match SysIpcRecv(k, dstva)
      case Ran(k', _) => Inv(k') && Standing(k')
      case Panic => true
      case ListCorrupted => RemovesOffList(k, IpcRecv(dstva))
    ensures RemovesOffList(k, IpcRecv(dstva)) ==> SysIpcRecv(k, dstva).ListCorrupted?
    ensures (dstva == 0 || !IllegalVa(dstva)) && CurRunnable(k) ==> Inv(Blocked(k, dstva))
  {
    var c := k.cur.e;
    if (dstva == 0 || !IllegalVa(dstva)) && CurRunnable(k) {
      WithoutKeepsTheRest(k.sched, c);
      StatusKeeps(k, c, k.envs[c].(recving := true, dstva := dstva, status := NotRunnable), Without(k.sched, c));
      ScheduleKeeps(Blocked(k, dstva), true);
    }
  }

  lemma SendKeeps(k: Kernel, op: Op)
    requires Inv(k) && Standing(k) && op.IpcTrySend?
    ensures SysIpcTrySend(k, op).Ran? && Inv(SysIpcTrySend(k, op).k) && SysIpcTrySend(k, op).k.cur == k.cur
    ensures SysIpcTrySend(k, op).k == match Receiver(k, op) case Found(e) => Delivered(k, e, op.value, op.perm) case BadEnv => k
  {
    FoundIsLive(k, op.envid, false);
    match Receiver(k, op)
    case BadEnv =>
    case Found(e) =>
      var k' := Delivered(k, e, op.value, op.perm);
      StatusKeeps(k, e, k'.envs[e], k'.sched);
  }

  // ---- all traps ----

  lemma StepKeeps(k: Kernel, op: Op)
    requires Inv(k) && Standing(k)
    ensures match Step(k, op)
      case Ran(k', _) => Standing(k') && (Inv(k') <==> !WakesReceiver(k, op))
      case Panic => op.Tick? || op.Yield? || op.Destroy? || op.IpcRecv?
      case ListCorrupted => RemovesOffList(k, op)
    ensures RemovesOffList(k, op) ==> Step(k, op).ListCorrupted?
  {
    match op
    case Tick => ScheduleKeeps(k, false);
    case Yield => ScheduleKeeps(k, true);
    case Exofork(vmOk) => ExoforkKeeps(k, vmOk);
    case SetStatus(envid, status) => SetStatusKeeps(k, envid, status);
    case Destroy(envid) => DestroyKeeps(k, envid);
    case IpcRecv(dstva) => RecvKeeps(k, dstva);
    case IpcTrySend(_, _, _, _, _, _) => SendKeeps(k, op);
  }

  // ---- runs ----

  // The two guards callers are meant to respect.
  predicate Guarded(k: Kernel, op: Op)
    requires Standing(k)
  {
    !WakesReceiver(k, op) && !RemovesOffList(k, op)
  }

  // A run of guarded traps, none of which finds the machine with nothing to run.
  ghost predicate Follows(k: Kernel, ops: seq<Op>, k': Kernel)
    decreases ops
  {
    if ops == [] then k' == k
    else
      Standing(k) && Guarded(k, ops[0]) && Step(k, ops[0]).Ran? && Follows(Step(k, ops[0]).k, ops[1..], k')
  }

  lemma {:induction false} RunKeepsInv(k: Kernel, ops: seq<Op>, k': Kernel)
    requires Inv(k) && Follows(k, ops, k')
    ensures Inv(k')
    decreases ops
  {
    if ops != [] {
      StepKeeps(k, ops[0]);
      RunKeepsInv(Step(k, ops[0]).k, ops[1..], k');
    }
  }

  // ---- what goes wrong without the guards ----

  // A parent wakes its receiving child, then sends to it: the child is queued twice.
  lemma WokenReceiverIsQueuedTwice(k: Kernel, e: nat, value: nat)
    requires Inv(k) && Standing(k) && Live(k, e) && e != k.cur.e
    requires k.envs[e].recving && k.envs[e].parent == k.envs[k.cur.e].id
    ensures var id := k.envs[e].id;
      Step(k, SetStatus(id, Runnable)).Ran?
      && Step(Step(k, SetStatus(id, Runnable)).k, IpcTrySend(id, value, 0, 0, false, 0)).ListCorrupted?
  {
    SetStatusKeeps(k, k.envs[e].id, Runnable);
  }
}
