// kern/env.c, kern/sched.c and the environment calls of kern/syscall_all.c as they run: one
// object updated in place, its lists linked through the environments as include/queue.h does,
// each call proved to be its step of the state machine.
module KernelCalls {
  import Sv32
  import opened Bits
  import opened Environments
  import opened EnvironmentRuns
  import opened Queue

  // How a call ends: it returns (or runs an environment), it panics, or a queue macro stores
  // through a null pointer.
  datatype End = Ret(ret: int) | Panicked | NullStore

  predicate Agrees(end: End, k: Kernel, o: Outcome) {
    match o
    case Ran(k', ret) => end == Ret(ret) && k == k'
    case Panic => end == Panicked
    case ListCorrupted => true
  }

  ghost function UsedAsids(words: seq<nat>): set<nat>
    requires |words| == 2
  {
    set a: nat | a < NASID && Bit(words, a)
  }

  // env_free of e but for its last macro.
  function Unlisted(k: Kernel, e: nat): Kernel
    requires e < |k.envs|
  {
    SetEnv(k, e, k.envs[e].(status := Status.Free)).(asids := k.asids - {k.envs[e].asid}, free := [e] + k.free)
  }

  // Who is runnable was put on the run list at some time.
  ghost predicate EnvsOk(envs: seq<Env>, queued: set<nat>) {
    forall e: nat :: e < |envs| ==>
      (envs[e].status != Status.Free ==> envs[e].asid < NASID) && (envs[e].status == Runnable ==> e in queued)
  }

  // So was who runs.
  predicate CurOk(envs: seq<Env>, cur: Current, queued: set<nat>) {
    cur.Cur? ==> cur.e < |envs| && envs[cur.e].status != Status.Free && cur.e in queued
  }

  ghost predicate FreeExactly(envs: seq<Env>, free: seq<nat>) {
    forall e: nat :: e in free <==> e < |envs| && envs[e].status == Status.Free
  }

  lemma NoAsids()
    ensures UsedAsids([0, 0]) == {}
  {
    forall a: nat | a < NASID ensures !Bit([0, 0], a) { AllZeros(a % 32); }
  }

  // One environment changes, and more may have been queued.
  lemma EnvsUpdated(envs: seq<Env>, queued: set<nat>, e: nat, v: Env, queued': set<nat>)
    requires EnvsOk(envs, queued) && e < |envs| && queued <= queued'
    requires (v.status != Status.Free ==> v.asid < NASID) && (v.status == Runnable ==> e in queued')
    ensures EnvsOk(envs[e := v], queued')
    ensures forall free: seq<nat> :: FreeExactly(envs, free) && (v.status == Status.Free <==> envs[e].status == Status.Free) ==>
      FreeExactly(envs[e := v], free)
  {
  }

  lemma FreeAgain(envs: seq<Env>, free: seq<nat>, e: nat, envs': seq<Env>)
    requires FreeExactly(envs, free) && e < |envs| && envs[e].status != Status.Free
    requires |envs'| == |envs| && (forall x: nat :: x < |envs| && x != e ==> envs'[x] == envs[x]) && envs'[e].status == Status.Free
    ensures FreeExactly(envs', [e] + free) && e !in free
  {
    assert forall x: nat :: x in [e] + free <==> x == e || x in free;
  }

  // A new environment has left the free list for good.
  lemma NoLongerFree(was: seq<Env>, free: seq<nat>, e: nat, envs: seq<Env>, free': seq<nat>)
    requires FreeExactly(was, free) && Distinct(free) && free == [e] + free' && e < |was|
    requires |envs| == |was| && (forall x: nat :: x < |was| && x != e ==> envs[x] == was[x]) && envs[e].status != Status.Free
    ensures FreeExactly(envs, free')
  {
    assert free[0] == e && free[1..] == free';
    assert forall x: nat :: x in free <==> x == e || x in free';
  }

  // What is taken out of a queue without repetitions is not on it.
  lemma NoLonger(s: seq<nat>, x: nat)
    ensures Distinct(s) ==> x !in Without(s, x)
  {
    if Distinct(s) { WithoutKeepsTheRest(s, x); }
  }

  // envs, asid_bitmap, env_free_list, env_sched_list and the variables of the scheduler.  free,
  // sched: the environments on the two lists, in order, as long as they are linked.
  class Kern {
    const envs: array<Env>
    const asidBitmap: array<nat>
    const freeList: List
    const schedList: TailQueue
    var curenv: Current
    var count: int
    var made: nat
    ghost var free: seq<nat>
    ghost var sched: seq<nat>

    ghost function Repr(): set<object> {
      {this, envs, asidBitmap, freeList, freeList.next, freeList.prev, schedList, schedList.next, schedList.prev}
    }

    ghost predicate Shape() {
      && envs.Length == NENV && asidBitmap.Length == 2
      && freeList.next.Length == freeList.prev.Length == NENV && schedList.next.Length == schedList.prev.Length == NENV
      && freeList.next != schedList.next && freeList.prev != schedList.prev
    }

    // The free list is linked; the run list may be in any state that leads to environments only.
    ghost predicate Core()
      reads Repr()
    {
      Shape() && schedList.Bounded() && freeList.Is(free) && EnvsOk(envs[..], schedList.queued)
    }

    // What every trap needs and keeps, also one that finds or leaves the run list corrupted.
    ghost predicate Safe()
      reads Repr()
    {
      Core() && FreeExactly(envs[..], free) && CurOk(envs[..], curenv, schedList.queued)
    }

    // And the run list is linked.
    ghost predicate Valid()
      reads Repr()
    {
      Safe() && schedList.Is(sched)
    }

    ghost function Abs(): Kernel
      reads Repr()
      requires Shape()
    {
      Kernel(envs[..], free, sched, curenv, count, UsedAsids(asidBitmap[..]), made)
    }

    // A call that started with linked lists and did not corrupt them leaves them linked, and has
    // made its step of the state machine.
    ghost predicate Done(end: End, o: Outcome)
      reads Repr()
    {
      !o.ListCorrupted? ==> Valid() && Agrees(end, Abs(), o)
    }

    // env_init's loop, started at the last element of envs.
    method FreeAll()
      requires Core() && curenv == Nobody && free == [] && forall j :: 0 <= j < NENV ==> envs[j] == NO_ENV
      modifies envs, freeList, freeList.next, freeList.prev, this`free
      ensures Safe() && free == seq(NENV, i => i) && forall j :: 0 <= j < NENV ==> envs[j] == NO_ENV
    {
      var i := NENV;
      while i > 0
        invariant 0 <= i <= NENV && Core()
        invariant |free| == NENV - i && forall j :: 0 <= j < NENV - i ==> free[j] == i + j
        invariant forall j :: 0 <= j < NENV ==> envs[j] == NO_ENV
      {
        i := i - 1;
        envs[i] := envs[i].(status := Status.Free);
        freeList.InsertHead(i, free);
        free := [i] + free;
      }
      forall e: nat ensures e in free <==> e < NENV {
        if e < NENV { assert free[e] == e; }
      }
    }

    constructor ()
      ensures Valid() && fresh(Repr()) && Abs() == EnvInit() && schedList.queued == {}
    {
      envs := new Env[NENV](_ => NO_ENV);
      asidBitmap := new nat[2](_ => 0);
      freeList := new List(NENV);
      schedList := new TailQueue(NENV);
      curenv, count, made := Nobody, 0, 0;
      free, sched := [], [];
      new;
      assert asidBitmap[..] == [0, 0];
      FreeAll();
      assert asidBitmap[..] == [0, 0];
      assert envs[..] == seq(NENV, _ => NO_ENV);
      NoAsids();
    }

    // LIST_FIRST
    lemma FirstIsFree()
      requires Safe()
      ensures freeList.first == (if free == [] then NULL else free[0])
      ensures free != [] ==> free[0] < NENV && envs[free[0]].status == Status.Free
    {
      assert free != [] ==> LinkedAt(free, 0, freeList.next[..], freeList.prev[..]) && free[0] in free;
    }

    method AsidAlloc() returns (r: int, asid: nat)
      requires Shape()
      modifies asidBitmap
      ensures (old(Safe()) ==> Safe()) && (old(Valid()) ==> Valid())
      ensures var free := LeastFree(old(Abs()).asids, 0);
        if free < NASID then r == 0 && asid == free && Abs() == old(Abs()).(asids := old(Abs()).asids + {free})
        else r == E_NO_FREE_ENV && Abs() == old(Abs())
    {
      asid := 0;
      while asid < NASID
        invariant asid <= NASID && asidBitmap[..] == old(asidBitmap[..])
        invariant LeastFree(old(Abs()).asids, 0) == LeastFree(old(Abs()).asids, asid)
      {
        var index, inner := asid / 32, asid % 32;
        ghost var used := old(Abs()).asids;
        assert asid in used <==> Bit(asidBitmap[..], asid);
        if !Test(asidBitmap[index], inner) {
          ghost var before := asidBitmap[..];
          asidBitmap[index] := Set(asidBitmap[index], inner);
          assert asidBitmap[..] == before[index := Set(before[index], inner)];
          forall c: nat | c < NASID ensures Bit(asidBitmap[..], c) <==> asid == c || Bit(before, c) {
            SetInBitmap(before, asid, c);
          }
          assert UsedAsids(asidBitmap[..]) == used + {asid};
          return 0, asid;
        }
        asid := asid + 1;
      }
      r := E_NO_FREE_ENV;
    }

    method AsidFree(i: nat)
      requires Shape() && i < NASID
      modifies asidBitmap
      ensures (old(Safe()) ==> Safe()) && (old(Valid()) ==> Valid())
      ensures Abs() == old(Abs()).(asids := old(Abs()).asids - {i})
    {
      var index, inner := i / 32, i % 32;
      ghost var before := asidBitmap[..];
      asidBitmap[index] := Clear(asidBitmap[index], inner);
      assert asidBitmap[..] == before[index := Clear(before[index], inner)];
      forall c: nat | c < NASID ensures Bit(asidBitmap[..], c) <==> i != c && Bit(before, c) {
        ClearInBitmap(before, i, c);
      }
      assert UsedAsids(asidBitmap[..]) == UsedAsids(before) - {i};
    }

    // The two macros on the run list.
    method Enqueue(e: nat)
      requires Shape() && schedList.Bounded() && e < NENV
      modifies schedList, schedList.next, schedList.prev, `sched
      ensures schedList.Bounded() && schedList.queued == old(schedList.queued) + {e} && sched == old(sched) + [e]
      ensures old(schedList.Is(sched)) && e !in old(sched) ==> schedList.Is(sched)
    {
      schedList.InsertTail(e, sched);
      sched := sched + [e];
    }

    method Dequeue(e: nat) returns (fault: bool)
      requires Shape() && schedList.Bounded() && e < NENV
      modifies schedList, schedList.next, schedList.prev, `sched
      ensures fault <==> old(schedList.prev[e]) == Null
      ensures fault <==> e !in old(schedList.queued)
      ensures schedList.queued == old(schedList.queued) && sched == if fault then old(sched) else Without(old(sched), e)
      ensures fault ==> schedList.last == Null && schedList.first == old(schedList.first)
      ensures !fault ==> schedList.Bounded()
      ensures old(schedList.Is(sched)) && e in old(sched) ==> !fault && schedList.Is(sched)
    {
      fault := schedList.RemoveAny(e, sched);
      if !fault { sched := Without(sched, e); }
    }

    method FindEnv(envid: nat, checkperm: bool) returns (found: Found)
      requires Safe() && Standing(Abs())
      ensures found == EnvId2Env(Abs(), envid, checkperm)
      ensures found.Found? ==> found.e < NENV && envs[found.e].status != Status.Free
    {
      if envid == 0 { return Found.Found(curenv.e); }
      var e := Index(envid);
      if envs[e].status == Status.Free || envs[e].id != envid { return BadEnv; }
      if checkperm && envs[e].id != envs[curenv.e].id && envs[e].parent != envs[curenv.e].id { return BadEnv; }
      found := Found.Found(e);
    }

    method Name(e: nat, parent: nat)
      requires Safe() && e < NENV && envs[e].status == Status.Free
      modifies envs, `made
      ensures Safe()
      ensures var v := old(envs[e]).(runs := 0, parent := parent, id := MkEnvId(old(made), e));
        Abs() == SetEnv(old(Abs()), e, v).(made := old(made) + 1)
    {
      envs[e] := envs[e].(runs := 0, parent := parent, id := MkEnvId(made, e));
      made := made + 1;
      EnvsUpdated(old(envs[..]), schedList.queued, e, envs[e], schedList.queued);
      assert envs[..] == old(envs[..])[e := envs[e]];
    }

    // env_alloc.  The environment it returns is on no list until its caller gives it a status.
    method Alloc(parent: nat, vmOk: bool) returns (end: End)
      requires Safe()
      modifies envs, asidBitmap, freeList, freeList.next, freeList.prev, this`free, this`made
      ensures end.Ret? && Agrees(end, Abs(), EnvAlloc(old(Abs()), parent, vmOk)) && (end.ret < 0 ==> Safe())
      ensures end.ret >= 0 ==> freeList.Is(free) && old(free) == [old(freeList.first)] + free && 0 <= old(freeList.first) < NENV
      ensures end.ret >= 0 ==>
        (var e := old(freeList.first); envs[..] == old(envs[..])[e := envs[e]] && envs[e].status == Status.Free && envs[e].asid < NASID)
    {
      FirstIsFree();
      if freeList.first == NULL { return Ret(E_NO_FREE_ENV); }
      var e := freeList.first;
      if !vmOk { return Ret(E_NO_MEM); }
      Name(e, parent);
      var r, asid := AsidAlloc();
      if r != 0 { return Ret(r); }
      envs[e] := envs[e].(asid := asid);
      freeList.Remove(e, free);
      free := free[1..];
      end := Ret(envs[e].id);
    }

    method Create(pri: nat)
      requires Safe() && free != [] && LeastFree(Abs().asids, 0) < NASID
      modifies Repr()
      ensures Safe() && old(free[0]) < NENV && schedList.queued == old(schedList.queued) + {old(free[0])}
      ensures old(Valid()) && old(free[0]) !in old(sched) ==> Valid() && Abs() == EnvCreate(old(Abs()), pri)
    {
      FirstIsFree();
      var e := freeList.first;
      var _ := Alloc(0, true);
      envs[e] := envs[e].(pri := pri, status := Runnable);
      schedList.InsertHead(e, sched);
      sched := [e] + sched;
      NoLongerFree(old(envs[..]), old(free), e, envs[..], free);
    }

    method Run(e: nat) returns (end: End)
      requires Safe() && e < NENV && e in schedList.queued
      modifies `curenv, envs
      ensures Safe() && (old(Valid()) ==> Valid()) && Agrees(end, Abs(), EnvRun(old(Abs()), e)) && (end.Ret? ==> curenv == Cur(e))
    {
      if envs[e].status != Runnable { return Panicked; }
      curenv := Cur(e);
      envs[e] := envs[e].(runs := envs[e].runs + 1);
      end := Ret(0);
    }

    // A still runnable current environment goes to the tail; the first of the list is next.
    method Next() returns (e: int)
      requires Safe()
      modifies schedList, schedList.next, schedList.prev, this`sched
      ensures Safe() && schedList.queued == old(schedList.queued) && (e == NULL || (0 <= e < NENV && e in schedList.queued))
      ensures old(Valid()) && (CurRunnable(old(Abs())) ==> curenv.e in old(sched)) ==>
        Valid() && Abs() == old(Abs()).(sched := Rotated(old(Abs()))) && e == if sched == [] then NULL else sched[0]
    {
      if curenv.Cur? && envs[curenv.e].status == Runnable {
        NoLonger(sched, curenv.e);
        var _ := Dequeue(curenv.e);
        Enqueue(curenv.e);
      }
      e := schedList.first;
    }

    // schedule's other branch: the next environment gets its slices.
    method Switch() returns (end: End)
      requires Safe()
      modifies `curenv, `count, `sched, envs, schedList, schedList.next, schedList.prev
      ensures Safe() && schedList.queued == old(schedList.queued) && end != NullStore && (end.Ret? ==> curenv.Cur?)
      ensures old(Valid()) ==> Done(end, Schedule(old(Abs()), true))
    {
      var e := Next();
      if e == NULL { return Panicked; }
      count := envs[e].pri - 1;
      end := Run(e);
    }

    method DoSchedule(yielding: bool) returns (end: End)
      requires Safe()
      modifies `curenv, `count, `sched, envs, schedList, schedList.next, schedList.prev
      ensures Safe() && schedList.queued == old(schedList.queued) && end != NullStore && (end.Ret? ==> curenv.Cur?)
      ensures old(Valid()) ==> Done(end, Schedule(old(Abs()), yielding))
    {
      if yielding || count == 0 || curenv == Nobody || envs[curenv.e].status != Runnable {
        end := Switch();
      } else {
        count := count - 1;
        end := Run(curenv.e);
      }
    }

    // env_free's part.  Its last macro stores through NULL exactly when e was never queued; all
    // that comes before it is done then.
    method Release(e: nat) returns (fault: bool)
      requires Safe() && e < NENV && envs[e].status != Status.Free
      modifies Repr()
      ensures curenv == old(curenv) && schedList.queued == old(schedList.queued)
      ensures fault <==> old(schedList.prev[e]) == Null
      ensures fault ==> Abs() == Unlisted(old(Abs()), e) && schedList.last == Null && schedList.first == old(schedList.first)
      ensures !fault ==> Core() && FreeExactly(envs[..], free) && (curenv == Cur(e) || CurOk(envs[..], curenv, schedList.queued))
      ensures old(Valid()) && e in old(sched) ==>
        !fault && schedList.Is(sched) && Abs() == Unlisted(old(Abs()), e).(sched := Without(old(sched), e))
    {
      AsidFree(envs[e].asid);
      envs[e] := envs[e].(status := Status.Free);
      freeList.InsertHead(e, free);
      free := [e] + free;
      EnvsUpdated(old(envs[..]), schedList.queued, e, envs[e], schedList.queued);
      FreeAgain(old(envs[..]), old(free), e, envs[..]);
      fault := Dequeue(e);
    }

    // The environment envid2env finds for a destruction has its slot untouched since boot.
    ghost predicate NeverQueued(envid: nat)
      reads Repr()
      requires Shape() && Standing(Abs())
    {
      match EnvId2Env(Abs(), envid, true)
      case BadEnv => false
      case Found(e) => e < NENV && schedList.prev[e] == Null
    }

    // It is then neither runnable nor the caller.
    lemma NeverQueuedIsBlocked(envid: nat)
      requires Safe() && Standing(Abs())
      ensures NeverQueued(envid) <==>
        (match EnvId2Env(Abs(), envid, true) case BadEnv => false case Found(e) => e < NENV && e !in schedList.queued)
      ensures NeverQueued(envid) ==>
        (var e := EnvId2Env(Abs(), envid, true).e; envs[e].status == NotRunnable && e != curenv.e)
    {
      match EnvId2Env(Abs(), envid, true)
      case BadEnv =>
      case Found(e) => assert e < NENV ==> schedList.Sane(e) && envs[..][e] == envs[e];
    }

    method EnvDestroy(e: nat) returns (end: End)
      requires Safe() && curenv.Cur? && e < NENV && envs[e].status != Status.Free
      modifies Repr()
      ensures end == NullStore <==> old(schedList.prev[e]) == Null
      ensures end != NullStore ==> Safe() && (end.Ret? ==> curenv.Cur?)
      ensures end == NullStore ==> schedList.last == Null && schedList.first == old(schedList.first) && Abs() == Unlisted(old(Abs()), e)
      ensures schedList.queued == old(schedList.queued)
      ensures old(Valid()) ==> Done(end, Environments.EnvDestroy(old(Abs()), e))
    {
      var fault := Release(e);
      if fault { return NullStore; }
      end := Ret(0);
      if curenv == Cur(e) {
        curenv := Nobody;
        end := DoSchedule(true);
      }
    }

    method Destroy(envid: nat) returns (end: End)
      requires Safe() && Standing(Abs())
      modifies Repr()
      ensures end == NullStore <==> old(NeverQueued(envid))
      ensures end != NullStore ==> Safe() && (end.Ret? ==> curenv.Cur?)
      ensures end == NullStore ==> schedList.last == Null && schedList.first == old(schedList.first)
      ensures end == NullStore ==> match old(EnvId2Env(Abs(), envid, true))
        case Found(e) => e < NENV && Abs() == Unlisted(old(Abs()), e)
        case BadEnv => false
      ensures schedList.queued == old(schedList.queued)
      ensures old(Valid()) ==> Done(end, Step(old(Abs()), Op.Destroy(envid)))
    {
      var found := FindEnv(envid, true);
      if found.BadEnv? { return Ret(E_BAD_ENV); }
      end := EnvDestroy(found.e);
    }

    method Exofork(vmOk: bool) returns (end: End)
      requires Safe() && Standing(Abs())
      modifies envs, asidBitmap, freeList, freeList.next, freeList.prev, this`free, this`made
      ensures Safe() && end.Ret? && curenv == old(curenv) && schedList.queued == old(schedList.queued)
      ensures (old(Valid()) ==> Valid()) && Agrees(end, Abs(), Step(old(Abs()), Op.Exofork(vmOk)))
    {
      FirstIsFree();
      var e := freeList.first;
      end := Alloc(envs[curenv.e].id, vmOk);
      if end.ret < 0 { return; }
      envs[e] := envs[e].(status := NotRunnable, pri := envs[curenv.e].pri);
      NoLongerFree(old(envs[..]), old(free), e, envs[..], free);
    }

    method SetEnvStatus(envid: nat, status: Status) returns (end: End)
      requires Safe() && Standing(Abs())
      modifies Repr()
      ensures Safe() && end.Ret? && curenv == old(curenv)
      ensures old(Valid()) ==> Done(end, Step(old(Abs()), SetStatus(envid, status)))
    {
      if status != Runnable && status != NotRunnable { return Ret(E_INVAL); }
      var found := FindEnv(envid, true);
      if found.BadEnv? { return Ret(E_BAD_ENV); }
      var e := found.e;
      if envs[e].status != status {
        if status == Runnable {
          Enqueue(e);
        } else {
          var _ := Dequeue(e);
        }
      }
      envs[e] := envs[e].(status := status);
      EnvsUpdated(old(envs[..]), old(schedList.queued), e, envs[e], schedList.queued);
      end := Ret(0);
    }

    method Block(dstva: nat)
      requires Safe() && Standing(Abs())
      modifies envs, schedList, schedList.next, schedList.prev, `sched
      ensures Safe() && (old(Valid()) && curenv.e in old(sched) ==> Valid())
      ensures Abs() == Blocked(old(Abs()), dstva)
    {
      var c := curenv.e;
      envs[c] := envs[c].(recving := true);
      envs[c] := envs[c].(dstva := dstva);
      envs[c] := envs[c].(status := NotRunnable);
      EnvsUpdated(old(envs[..]), schedList.queued, c, envs[c], schedList.queued);
      assert envs[..] == old(envs[..])[c := envs[c]];
      var _ := Dequeue(c);
    }

    method Receive(dstva: nat) returns (end: End)
      requires Safe() && Standing(Abs())
      modifies Repr()
      ensures Safe() && end != NullStore && (end.Ret? ==> curenv.Cur?)
      ensures old(Valid()) ==> Done(end, Step(old(Abs()), IpcRecv(dstva)))
    {
      if dstva != 0 && IllegalVa(dstva) { return Ret(E_INVAL); }
      Block(dstva);
      end := DoSchedule(true);
    }

    // The receiver gets its message and the tail of the run list.
    method Wake(e: nat, value: nat, perm: Sv32.Bits)
      requires Safe() && Standing(Abs()) && e < NENV && envs[e].status != Status.Free
      modifies envs, schedList, schedList.next, schedList.prev, this`sched
      ensures Safe() && (old(Valid()) && e !in old(sched) ==> Valid() && Abs() == Delivered(old(Abs()), e, value, perm))
    {
      envs[e] := envs[e].(value := value);
      envs[e] := envs[e].(from := envs[curenv.e].id);
      envs[e] := envs[e].(perm := Sv32.PTE_U | Sv32.PTE_R | Sv32.PTE_V | perm);
      envs[e] := envs[e].(recving := false);
      envs[e] := envs[e].(status := Runnable);
      assert envs[..] == old(envs[..])[e := envs[e]];
      Enqueue(e);
      EnvsUpdated(old(envs[..]), old(schedList.queued), e, envs[e], schedList.queued);
    }

    // sys_ipc_try_send up to the page: the target it has delivered to, if any.
    method Deliver(envid: nat, value: nat, srcva: nat, perm: Sv32.Bits) returns (end: End, target: Found)
      requires Safe() && Standing(Abs())
      modifies Repr()
      ensures Safe() && end.Ret? && curenv == old(curenv)
      ensures target == Receiver(old(Abs()), IpcTrySend(envid, value, srcva, perm, false, 0))
      ensures target.Found? ==> end == Ret(0)
      ensures old(Valid()) ==> match target
        case BadEnv => Valid() && Agrees(end, Abs(), Step(old(Abs()), IpcTrySend(envid, value, srcva, perm, false, 0)))
        case Found(e) => e < NENV && (e !in old(sched) ==> Valid() && Abs() == Delivered(old(Abs()), e, value, perm))
    {
      if srcva != 0 && IllegalVa(srcva) { return Ret(E_INVAL), BadEnv; }
      var found := FindEnv(envid, false);
      if found.BadEnv? { return Ret(E_BAD_ENV), BadEnv; }
      var e := found.e;
      if !envs[e].recving { return Ret(E_IPC_NOT_RECV), BadEnv; }
      Wake(e, value, perm);
      return Ret(0), found;
    }

    method TrySend(envid: nat, value: nat, srcva: nat, perm: Sv32.Bits, mapped: bool, mapResult: int) returns (end: End)
      requires Safe() && Standing(Abs())
      modifies Repr()
      ensures Safe() && end.Ret? && curenv == old(curenv)
      ensures old(Valid()) ==> Done(end, Step(old(Abs()), IpcTrySend(envid, value, srcva, perm, mapped, mapResult)))
    {
      var target;
      end, target := Deliver(envid, value, srcva, perm);
      if target.Found? && srcva != 0 {
        if !mapped { return Ret(E_INVAL); }
        end := Ret(mapResult);
      }
    }

    // ---- any trap, whatever the earlier ones did to the run list ----

    method Trap(op: Op) returns (end: End)
      requires Safe() && Standing(Abs())
      modifies Repr()
      ensures end == NullStore <==> op.Destroy? && old(NeverQueued(op.envid))
      ensures end != NullStore ==> Safe() && (end.Ret? ==> Standing(Abs()))
      ensures old(Valid()) ==> Done(end, Step(old(Abs()), op))
    {
      match op
      case Tick => end := DoSchedule(false);
      case Yield => end := DoSchedule(true);
      case Exofork(vmOk) => end := Exofork(vmOk);
      case SetStatus(envid, status) => end := SetEnvStatus(envid, status);
      case Destroy(envid) => end := Destroy(envid);
      case IpcRecv(dstva) => end := Receive(dstva);
      case IpcTrySend(envid, value, srcva, perm, mapped, mapResult) => end := TrySend(envid, value, srcva, perm, mapped, mapResult);
    }

    // Traps one after the other, guarded or not, up to one that does not return.
    method Traps(ops: seq<Op>) returns (end: End, n: nat)
      requires Safe() && Standing(Abs())
      modifies Repr()
      ensures end != NullStore ==> Safe() && n <= |ops|
      ensures end == NullStore ==> 0 < n <= |ops| && ops[n - 1].Destroy?
    {
      end, n := Ret(0), 0;
      while n < |ops| && end.Ret?
        invariant n <= |ops| && (end != NullStore ==> Safe()) && (end.Ret? ==> Standing(Abs()))
        invariant end == NullStore ==> 0 < n && ops[n - 1].Destroy?
        decreases |ops| - n
      {
        end := Trap(ops[n]);
        n := n + 1;
      }
    }

    // The failing input: a child made in a slot that was never queued, destroyed before it is
    // made runnable.
    method FreshChildStoresThroughNull() returns (end: End)
      requires Valid() && Inv(Abs()) && Standing(Abs())
      requires free != [] && free[0] !in schedList.queued && LeastFree(Abs().asids, 0) < NASID
      modifies Repr()
      ensures end == NullStore
    {
      ghost var k := Abs();
      FirstIsFree();
      MakesAChild(k);
      ExoforkKeeps(k, true);
      var child := Exofork(true);
      EnvidNamesOne(Abs(), child.ret, true, k.free[0]);
      assert schedList.Sane(k.free[0]);
      end := Destroy(child.ret);
    }
  }

  method Boot() returns (kern: Kern)
    ensures fresh(kern.Repr()) && kern.Valid() && Inv(kern.Abs()) && Standing(kern.Abs()) && LeastFree(kern.Abs().asids, 0) < NASID
    ensures kern.free != [] && kern.free[0] == 1 && kern.schedList.queued == {0}
  {
    kern := new Kern();
    InitiallyInv();
    ghost var k0 := kern.Abs();
    assert k0.free[0] == 0 && k0.free[1] == 1;
    BootKeeps(k0, 1);
    kern.Create(1);
    ghost var k1 := kern.Abs();
    assert k1.free == k0.free[1..] && k1.asids == {0};
    ScheduleKeeps(k1, true);
    var _ := kern.DoSchedule(true);
    assert kern.Abs().free == k1.free && kern.Abs().asids == {0};
    assert LeastFree({0}, 0) == LeastFree({0}, 1) == 1;
  }

  // It is reached from boot: one environment is created and runs, forks, and destroys the child.
  method BootAndLoseAChild() returns (end: End)
    ensures end == NullStore
  {
    var kern := Boot();
    end := kern.FreshChildStoresThroughNull();
  }
}
