// A run of user/lib/fork.c and its page-fault handler that ends in a page shared by parent and
// child: the flags duppage reads are made stale by the parent's own store before it uses them.
module StaleForkFlags {
  import opened Sv32
  import opened CopyOnWrite

  const TOP: nat := STACKTOP_VPN - 1     // the stack page, the last one fork comes to

  // The state after a run.
  function After(c: Lazy, ops: seq<Op>): Lazy
    decreases ops
  {
    if ops == [] then c else After(Step(c, ops[0]), ops[1..])
  }

  lemma {:induction false} RunsCompose(c: Lazy, a: seq<Op>, b: seq<Op>)
    requires Run(c, a) && Run(After(c, a), b)
    ensures Run(c, a + b) && After(c, a + b) == After(After(c, a), b)
    decreases a
  {
    if a == [] {
      assert a + b == b;
    } else {
      assert (a + b)[1..] == a[1..] + b;
      RunsCompose(Step(c, a[0]), a[1..], b);
    }
  }

  lemma OneMore(c: Lazy, a: seq<Op>, op: Op)
    requires Run(c, a) && Enabled(After(c, a), op) && FlagsFresh(After(c, a), op)
    ensures Run(c, a + [op]) && After(c, a + [op]) == Step(After(c, a), op)
  {
    assert [op][1..] == [];
    RunsCompose(c, a, [op]);
  }

  // ---- the states on the way ----

  const STACK := Slot(1, TOP)
  const SCRATCH := Slot(1, UCOW_VPN)

  function Fresh(): Pte { Entry(0, PTE_W | PTE_U) }

  function Shared(): Pte { Entry(0, DupPerm(Fresh().bits)) }

  function Owned(): Pte { Entry(1, CowPerm(Shared().bits)) }

  // Environment 1 with a page of stack, inside its first fork, at page n.
  function First(n: nat): Lazy {
    Lazy(map[STACK := Fresh()], map[0 := ZeroPage()], {1, 2}, map[], map[1 := Forking(2, n)])
  }

  // Inside its second fork: the stack page is copy-on-write now.
  function Second(f: Fork): Lazy {
    Lazy(map[STACK := Shared(), Slot(2, TOP) := Shared()], map[0 := ZeroPage()], {1, 2, 3}, map[], map[1 := f])
  }

  // The flags are read, and the handler has copied n bytes of the page.
  function Copied(n: nat): Lazy {
    Lazy(map[STACK := Shared(), Slot(2, TOP) := Shared(), SCRATCH := Entry(1, PTE_W)], map[0 := ZeroPage(), 1 := ZeroPage()],
         {1, 2, 3}, map[1 := Copying(TOP, Shared().bits, n)], map[1 := FlagsRead(3, TOP, Shared().bits)])
  }

  // The handler is done, and duppage goes on with the flags it read.
  function Stale(): Lazy {
    Lazy(map[STACK := Owned(), Slot(2, TOP) := Shared()], map[0 := ZeroPage(), 1 := ZeroPage()],
         {1, 2, 3}, map[1 := Idle], map[1 := FlagsRead(3, TOP, Shared().bits)])
  }

  const START := Lazy(map[], map[], {1}, map[], map[])

  lemma Flags()
    ensures W(Fresh()) && !Lib(Fresh()) && Fresh().ppn == 0 && Fresh().bits & PTE_W != 0 && Fresh().bits & PTE_LIBRARY == 0
    ensures !W(Shared()) && Cow(Shared()) && !Lib(Shared()) && Shared().bits & PTE_W == 0 && Shared().bits & PTE_LIBRARY == 0
    ensures W(Owned()) && !Lib(Owned())
  {
    EntryFlags(0, PTE_W | PTE_U);
    EntryFlags(0, Fresh().bits);
    EntryFlags(1, Shared().bits);
  }

  // ---- the run ----

  lemma Begins() returns (ops: seq<Op>)
    ensures Run(START, ops) && After(START, ops) == First(0)
  {
    var c1 := Step(START, ZeroFill(1, TOP, 0));
    OneMore(START, [], ZeroFill(1, TOP, 0));
    OneMore(START, [] + [ZeroFill(1, TOP, 0)], ForkBegin(1, 2));
    ops := [] + [ZeroFill(1, TOP, 0)] + [ForkBegin(1, 2)];
  }

  lemma FirstSkip(n: nat)
    requires n < TOP
    ensures Enabled(First(n), DupSkip(1)) && Step(First(n), DupSkip(1)) == First(n + 1)
  {
    assert First(n).forks[1 := Forking(2, n + 1)] == First(n + 1).forks;
  }

  lemma FirstPasses(ops: seq<Op>, n: nat)
    requires n < TOP && Run(START, ops) && After(START, ops) == First(n)
    ensures Run(START, ops + [DupSkip(1)]) && After(START, ops + [DupSkip(1)]) == First(n + 1)
  {
    FirstSkip(n);
    OneMore(START, ops, DupSkip(1));
  }

  lemma {:induction false} FirstSkips(n: nat) returns (ops: seq<Op>)
    requires n <= TOP
    ensures Run(START, ops) && After(START, ops) == First(n)
  {
    if n == 0 {
      ops := Begins();
    } else {
      ops := FirstSkips(n - 1);
      FirstPasses(ops, n - 1);
      ops := ops + [DupSkip(1)];
    }
  }

  // duppage of the stack page, with both its calls.
  lemma FirstDuplicates(ops: seq<Op>)
    requires Run(START, ops) && After(START, ops) == First(TOP)
    ensures Run(START, ops + [DupRead(1)] + [DupFirst(1)] + [DupSecond(1)])
    ensures var c := After(START, ops + [DupRead(1)] + [DupFirst(1)] + [DupSecond(1)]);
      c.maps == Second(NoFork).maps && c.mem == Second(NoFork).mem && c.envs == {1, 2} && c.handlers == map[] &&
      c.forks == map[1 := Forking(2, TOP + 1)]
  {
    Flags();
    var c := First(TOP);
    OneMore(START, ops, DupRead(1));
    OneMore(START, ops + [DupRead(1)], DupFirst(1));
    OneMore(START, ops + [DupRead(1)] + [DupFirst(1)], DupSecond(1));
  }

  lemma SecondBegins() returns (ops: seq<Op>)
    ensures Run(START, ops) && After(START, ops) == Second(Forking(3, 0))
  {
    ops := FirstSkips(TOP);
    FirstDuplicates(ops);
    ops := ops + [DupRead(1)] + [DupFirst(1)] + [DupSecond(1)];
    OneMore(START, ops, ForkEnd(1));
    OneMore(START, ops + [ForkEnd(1)], ForkBegin(1, 3));
    ops := ops + [ForkEnd(1)] + [ForkBegin(1, 3)];
    assert After(START, ops).forks == map[1 := Forking(3, 0)];
  }

  lemma SecondSkip(n: nat)
    requires n < TOP
    ensures Enabled(Second(Forking(3, n)), DupSkip(1)) && Step(Second(Forking(3, n)), DupSkip(1)) == Second(Forking(3, n + 1))
  {
    assert Second(Forking(3, n)).forks[1 := Forking(3, n + 1)] == Second(Forking(3, n + 1)).forks;
  }

  lemma SecondPasses(ops: seq<Op>, n: nat)
    requires n < TOP && Run(START, ops) && After(START, ops) == Second(Forking(3, n))
    ensures Run(START, ops + [DupSkip(1)]) && After(START, ops + [DupSkip(1)]) == Second(Forking(3, n + 1))
  {
    SecondSkip(n);
    OneMore(START, ops, DupSkip(1));
  }

  lemma {:induction false} SecondSkips(n: nat) returns (ops: seq<Op>)
    requires n <= TOP
    ensures Run(START, ops) && After(START, ops) == Second(Forking(3, n))
  {
    if n == 0 {
      ops := SecondBegins();
    } else {
      ops := SecondSkips(n - 1);
      SecondPasses(ops, n - 1);
      ops := ops + [DupSkip(1)];
    }
  }

  // duppage reads the flags; then a store to the stack page faults.
  lemma Faults() returns (ops: seq<Op>)
    ensures Run(START, ops) && After(START, ops) == Copied(0)
  {
    Flags();
    ops := SecondSkips(TOP);
    OneMore(START, ops, DupRead(1));
    assert After(START, ops + [DupRead(1)]) == Second(FlagsRead(3, TOP, Shared().bits));
    OneMore(START, ops + [DupRead(1)], CowAlloc(1, TOP, 1));
    ops := ops + [DupRead(1)] + [CowAlloc(1, TOP, 1)];
    assert After(START, ops) == Copied(0);
  }

  lemma CopyOne(n: nat)
    requires n < BY2PG
    ensures Enabled(Copied(n), CowCopyByte(1)) && Step(Copied(n), CowCopyByte(1)) == Copied(n + 1)
  {
    assert Poke(ZeroPage(), n, 0) == ZeroPage();
    assert Copied(n).mem[1 := ZeroPage()] == Copied(n + 1).mem;
    assert Copied(n).handlers[1 := Copying(TOP, Shared().bits, n + 1)] == Copied(n + 1).handlers;
  }

  lemma {:induction false} Copies(n: nat) returns (ops: seq<Op>)
    requires n <= BY2PG
    ensures Run(START, ops) && After(START, ops) == Copied(n)
  {
    if n == 0 {
      ops := Faults();
    } else {
      ops := Copies(n - 1);
      CopyOne(n - 1);
      OneMore(START, ops, CowCopyByte(1));
      ops := ops + [CowCopyByte(1)];
    }
  }

  lemma StaleIsReached() returns (ops: seq<Op>)
    ensures Run(START, ops) && After(START, ops) == Stale()
  {
    ops := Copies(BY2PG);
    OneMore(START, ops, CowMap(1));
    OneMore(START, ops + [CowMap(1)], CowUnmap(1));
    ops := ops + [CowMap(1)] + [CowUnmap(1)];
    var c := After(START, ops);
    assert c.maps == Stale().maps && c.handlers == Stale().handlers;
  }

  lemma {:induction false} RunKeeps(c: Lazy, a: Eager, ops: seq<Op>)
    requires Inv(c) && Refines(c, a) && Run(c, ops)
    ensures Inv(After(c, ops))
    decreases ops
  {
    if ops != [] {
      StepKeeps(c, a, ops[0]);
      RunKeeps(Step(c, ops[0]), EagerStep(a, ops[0]), ops[1..]);
    }
  }

  // Two forks and one fault after the start, duppage is about to map the child's stack page
  // with flags that no longer hold.  If it does, every byte the parent then stores to its stack is
  // in the child's.
  lemma ChildSeesTheParentsStack() returns (ops: seq<Op>)
    ensures Run(START, ops) && After(START, ops) == Stale()
    ensures Enabled(Stale(), DupFirst(1)) && !FlagsFresh(Stale(), DupFirst(1))
    ensures forall off: nat, b: bv8 :: off < BY2PG ==>
      (Enabled(Step(Stale(), DupFirst(1)), Write(1, TOP, off, b)) &&
       View(Step(Step(Stale(), DupFirst(1)), Write(1, TOP, off, b)), Slot(3, TOP)) == Content.Own(Poke(ZeroPage(), off, b)))
  {
    Flags();
    ops := StaleIsReached();
    InitialStates({1});
    RunKeeps(START, Eager(map[], map[], {1}, map[]), ops);
    forall off: nat, b: bv8 | off < BY2PG
      ensures Enabled(Step(Stale(), DupFirst(1)), Write(1, TOP, off, b))
      ensures View(Step(Step(Stale(), DupFirst(1)), Write(1, TOP, off, b)), Slot(3, TOP)) == Content.Own(Poke(ZeroPage(), off, b))
    {
      StaleFlagsShareAPage(Stale(), 1, off, b);
    }
  }
}
