// fork of user/lib/fork.c as the parent executes it when nothing else runs in between;
// CopyOnWrite has the interleavings.
module ForkCall {
  import opened Sv32
  import opened CopyOnWrite
  import opened EntryFlags

  const NPD: nat := 509                  // PDX(ROUND(USTACKTOP, PDMAP))

  // The parent is about to treat page `vpn`.
  ghost predicate AtPage(c: Lazy, a: Eager, e: nat, child: nat, vpn: nat) {
    Inv(c) && Refines(c, a) && Running(c, e) && ForkOf(c, e) == Forking(child, vpn) && vpn <= STACKTOP_VPN
  }

  // The child's page has become what the parent's was; no other page reads differently.
  ghost predicate Copied(a: Eager, a': Eager, e: nat, child: nat, vpn: nat) {
    && ContentOf(a', Slot(child, vpn)) == ContentOf(a, Slot(e, vpn))
    && forall s: Slot :: s != Slot(child, vpn) ==> ContentOf(a', s) == ContentOf(a, s)
  }

  lemma StillRuns(c: Lazy, c': Lazy, e: nat)
    requires Running(c, e) && c'.envs == c.envs && HandlerOf(c', e) == HandlerOf(c, e)
    requires forall p: nat :: ForkOf(c', p) != NoFork ==> ForkOf(c, p) != NoFork && ForkOf(c', p).child == ForkOf(c, p).child
    ensures Running(c', e)
  {
  }

  lemma PassPage(c: Lazy, a: Eager, e: nat, child: nat, vpn: nat)
    requires AtPage(c, a, e, child, vpn) && vpn < STACKTOP_VPN && Slot(e, vpn) !in c.maps
    ensures var c', a' := Step(c, DupSkip(e)), EagerStep(a, DupSkip(e));
      AtPage(c', a', e, child, vpn + 1) && Copied(a, a', e, child, vpn) && c'.maps == c.maps
  {
    StepKeeps(c, a, DupSkip(e));
    StillRuns(c, Step(c, DupSkip(e)), e);
    assert CopyOf(a, e) == CopyingTo(child, vpn);
  }

  // duppage has read the flags of page `vpn`, and they are fresh.
  ghost predicate AtFlags(c: Lazy, a: Eager, e: nat, child: nat, vpn: nat) {
    && Inv(c) && Refines(c, a) && Running(c, e) && Slot(e, vpn) in c.maps
    && ForkOf(c, e) == FlagsRead(child, vpn, c.maps[Slot(e, vpn)].bits)
  }

  lemma ReadsFlags(c: Lazy, a: Eager, e: nat, child: nat, vpn: nat)
    requires AtPage(c, a, e, child, vpn) && vpn < STACKTOP_VPN && Slot(e, vpn) in c.maps
    ensures AtFlags(Step(c, DupRead(e)), a, e, child, vpn) && Step(c, DupRead(e)).maps == c.maps
  {
    StepKeeps(c, a, DupRead(e));
    StillRuns(c, Step(c, DupRead(e)), e);
  }

  lemma OneCall(c: Lazy, a: Eager, e: nat, child: nat, vpn: nat)
    requires AtFlags(c, a, e, child, vpn) && (!W(c.maps[Slot(e, vpn)]) || Lib(c.maps[Slot(e, vpn)]))
    ensures var c', a' := Step(c, DupFirst(e)), EagerStep(a, DupFirst(e));
      AtPage(c', a', e, child, vpn + 1) && Copied(a, a', e, child, vpn)
      && c'.maps == c.maps[Slot(child, vpn) := Entry(c.maps[Slot(e, vpn)].ppn, c.maps[Slot(e, vpn)].bits)]
  {
    assert ForkOk(c, e);
    StepKeeps(c, a, DupFirst(e));
    StillRuns(c, Step(c, DupFirst(e)), e);
    assert CopyOf(a, e) == CopyingTo(child, vpn);
  }

  lemma FirstOfTwo(c: Lazy, a: Eager, e: nat, child: nat, vpn: nat)
    requires AtFlags(c, a, e, child, vpn) && W(c.maps[Slot(e, vpn)]) && !Lib(c.maps[Slot(e, vpn)])
    ensures var c', a' := Step(c, DupFirst(e)), EagerStep(a, DupFirst(e));
      Inv(c') && Refines(c', a') && Running(c', e) && ForkOf(c', e) == HalfDone(child, vpn, DupPerm(c.maps[Slot(e, vpn)].bits))
      && Copied(a, a', e, child, vpn) && child != e
      && c'.maps == c.maps[Slot(child, vpn) := Entry(c.maps[Slot(e, vpn)].ppn, DupPerm(c.maps[Slot(e, vpn)].bits))]
  {
    assert ForkOk(c, e);
    StepKeeps(c, a, DupFirst(e));
    StillRuns(c, Step(c, DupFirst(e)), e);
    assert CopyOf(a, e) == CopyingTo(child, vpn);
  }

  lemma SecondOfTwo(c: Lazy, a: Eager, e: nat)
    requires Inv(c) && Refines(c, a) && Running(c, e) && ForkOf(c, e).HalfDone?
    ensures var c', a' := Step(c, DupSecond(e)), EagerStep(a, DupSecond(e));
      AtPage(c', a', e, ForkOf(c, e).child, ForkOf(c, e).next + 1) && Copied(a, a', e, ForkOf(c, e).child, ForkOf(c, e).next)
      && c'.maps == c.maps[Slot(e, ForkOf(c, e).next) := Entry(At(c, Slot(e, ForkOf(c, e).next)).ppn, ForkOf(c, e).perm)]
  {
    assert ForkOk(c, e);
    StepKeeps(c, a, DupSecond(e));
    StillRuns(c, Step(c, DupSecond(e)), e);
    assert CopyOf(a, e) == CopyingTo(ForkOf(c, e).child, ForkOf(c, e).next + 1);
  }

  // Both calls of duppage.
  lemma TwoCalls(c: Lazy, a: Eager, e: nat, child: nat, vpn: nat)
    requires AtFlags(c, a, e, child, vpn) && W(c.maps[Slot(e, vpn)]) && !Lib(c.maps[Slot(e, vpn)])
    ensures var c', a' := Step(Step(c, DupFirst(e)), DupSecond(e)), EagerStep(EagerStep(a, DupFirst(e)), DupSecond(e));
      var x := Entry(c.maps[Slot(e, vpn)].ppn, DupPerm(c.maps[Slot(e, vpn)].bits));
      AtPage(c', a', e, child, vpn + 1) && Copied(a, a', e, child, vpn)
      && c'.maps == c.maps[Slot(child, vpn) := x][Slot(e, vpn) := x]
  {
    FirstOfTwo(c, a, e, child, vpn);
    SecondOfTwo(Step(c, DupFirst(e)), EagerStep(a, DupFirst(e)), e);
  }

  // The pages below n have been treated.
  ghost predicate DoneTo(a0: Eager, c: Lazy, a: Eager, e: nat, child: nat, n: nat) {
    && AtPage(c, a, e, child, if n < STACKTOP_VPN then n else STACKTOP_VPN) && child != e
    && (forall v: nat :: v < n && v < STACKTOP_VPN ==> ContentOf(a, Slot(child, v)) == ContentOf(a0, Slot(e, v)))
    && (forall s: Slot :: s.env != child ==> ContentOf(a, s) == ContentOf(a0, s))
  }

  lemma DoneOneMore(a0: Eager, c: Lazy, a: Eager, c': Lazy, a': Eager, e: nat, child: nat, n: nat)
    requires DoneTo(a0, c, a, e, child, n) && n < STACKTOP_VPN
    requires AtPage(c', a', e, child, n + 1) && Copied(a, a', e, child, n)
    ensures DoneTo(a0, c', a', e, child, n + 1)
  {
  }

  lemma StartsRunning(c: Lazy, a: Eager, e: nat, child: nat)
    requires Inv(c) && Refines(c, a) && Enabled(c, ForkBegin(e, child))
    ensures DoneTo(a, Step(c, ForkBegin(e, child)), EagerStep(a, ForkBegin(e, child)), e, child, 0)
  {
    StepKeeps(c, a, ForkBegin(e, child));
    var c' := Step(c, ForkBegin(e, child));
    forall p: nat | ForkOf(c', p) != NoFork ensures ForkOf(c', p).child != e {
      if p != e { assert ForkOf(c', p) == ForkOf(c, p); }
    }
  }

  lemma EndsFork(a0: Eager, c: Lazy, a: Eager, e: nat, child: nat)
    requires DoneTo(a0, c, a, e, child, NPD * NPTE)
    ensures var c', a' := Step(c, ForkEnd(e)), EagerStep(a, ForkEnd(e));
      Inv(c') && Refines(c', a') && ForkOf(c', e) == NoFork && child in c'.envs
  {
    assert ForkOk(c, e);
    StepKeeps(c, a, ForkEnd(e));
  }

  // Below the stack top the child reads what the parent read before, and so does the parent.
  ghost predicate ReadsAlike(c0: Lazy, c: Lazy, e: nat, child: nat) {
    forall v: nat :: v < STACKTOP_VPN && v != UCOW_VPN ==> View(c, Slot(child, v)) == View(c0, Slot(e, v)) == View(c, Slot(e, v))
  }

  lemma SameReads(c0: Lazy, a0: Eager, c: Lazy, a: Eager, e: nat, child: nat, v: nat)
    requires Refines(c0, a0) && Running(c0, e) && DoneTo(a0, c, a, e, child, NPD * NPTE) && v < STACKTOP_VPN && v != UCOW_VPN
    ensures View(c, Slot(child, v)) == View(c0, Slot(e, v)) == View(c, Slot(e, v))
  {
    assert ForkOk(c, e);
    assert !PendingChild(c0, Slot(e, v)) && !PendingChild(c, Slot(e, v)) && !PendingChild(c, Slot(child, v));
    assert ContentOf(a0, Slot(e, v)) == View(c0, Slot(e, v));
    assert ContentOf(a, Slot(e, v)) == View(c, Slot(e, v)) && ContentOf(a, Slot(child, v)) == View(c, Slot(child, v));
  }

  lemma ChildReadsLikeParent(c0: Lazy, a0: Eager, c: Lazy, a: Eager, e: nat, child: nat)
    requires Refines(c0, a0) && Running(c0, e) && DoneTo(a0, c, a, e, child, NPD * NPTE)
    ensures ReadsAlike(c0, Step(c, ForkEnd(e)), e, child)
  {
    forall v: nat | v < STACKTOP_VPN && v != UCOW_VPN
      ensures View(Step(c, ForkEnd(e)), Slot(child, v)) == View(c0, Slot(e, v)) == View(Step(c, ForkEnd(e)), Slot(e, v))
    {
      SameReads(c0, a0, c, a, e, child, v);
      assert View(Step(c, ForkEnd(e)), Slot(child, v)) == View(c, Slot(child, v));
      assert View(Step(c, ForkEnd(e)), Slot(e, v)) == View(c, Slot(e, v));
    }
  }

  // ---- the entries ----

  // What becomes of a page's entry m in the parent and in the child: copy-on-write on both sides
  // if it was writable and not shared, and otherwise what it was.
  predicate Duplicated(m: Pte, parent: Pte, child: Pte) {
    && SameButWCow(parent.bits, m.bits) && SameButWCow(child.bits, m.bits)
    && if W(m) && !Lib(m) then MadeCow(m, parent) && MadeCow(m, child) else parent == m && child == m
  }

  // Duppage's entries, and nobody else's, have changed.
  ghost predicate EntriesMade(c: Lazy, c': Lazy, e: nat, child: nat, vpn: nat) {
    && Slot(e, vpn) in c.maps && c'.maps.Keys == c.maps.Keys + {Slot(child, vpn)} && LeavesOnly(c')
    && Duplicated(c.maps[Slot(e, vpn)], c'.maps[Slot(e, vpn)], c'.maps[Slot(child, vpn)])
    && forall x :: x in c.maps && x != Slot(e, vpn) && x != Slot(child, vpn) ==> c'.maps[x] == c.maps[x]
  }

  // The call or calls of duppage, named by the flags it computes, are that.
  lemma EntriesAre(c: Lazy, c': Lazy, e: nat, child: nat, vpn: nat)
    requires LeavesOnly(c) && Slot(e, vpn) in c.maps && child != e
    requires var m := c.maps[Slot(e, vpn)];
      c'.maps == if W(m) && !Lib(m)
        then c.maps[Slot(child, vpn) := Entry(m.ppn, DupPerm(m.bits))][Slot(e, vpn) := Entry(m.ppn, DupPerm(m.bits))]
        else c.maps[Slot(child, vpn) := Entry(m.ppn, m.bits)]
    ensures EntriesMade(c, c', e, child, vpn)
  {
    var m := c.maps[Slot(e, vpn)];
    OtherFlagsKept(m, m.ppn);
    EntryIsGranted(m.ppn, DupPerm(m.bits));
  }

  // Page v once fork has treated the pages below n: as fork leaves it, or as it was.
  ghost predicate PageIs(c0: Lazy, c: Lazy, e: nat, child: nat, v: nat, n: nat) {
    var done := v < n && v < STACKTOP_VPN;
    && (Slot(e, v) in c.maps <==> Slot(e, v) in c0.maps)
    && (Slot(child, v) in c.maps <==> done && Slot(e, v) in c0.maps)
    && (Slot(e, v) in c0.maps ==>
          if done then Duplicated(c0.maps[Slot(e, v)], c.maps[Slot(e, v)], c.maps[Slot(child, v)])
          else c.maps[Slot(e, v)] == c0.maps[Slot(e, v)])
  }

  // The parent's pages below n have been given to the child, and nothing else has changed.
  ghost predicate EntriesTo(c0: Lazy, c: Lazy, e: nat, child: nat, n: nat) {
    && LeavesOnly(c) && child != e
    && (forall v: nat :: PageIs(c0, c, e, child, v, n))
    && (forall x: Slot :: x.env != e && x.env != child ==> (x in c.maps <==> x in c0.maps) && (x in c.maps ==> c.maps[x] == c0.maps[x]))
  }

  lemma PageOneMore(c0: Lazy, c: Lazy, c': Lazy, e: nat, child: nat, n: nat, v: nat)
    requires child != e && PageIs(c0, c, e, child, v, n)
    requires if n < STACKTOP_VPN && Slot(e, n) in c.maps then EntriesMade(c, c', e, child, n) else c'.maps == c.maps
    ensures PageIs(c0, c', e, child, v, n + 1)
  {
  }

  lemma EntriesOneMore(c0: Lazy, c: Lazy, c': Lazy, e: nat, child: nat, n: nat)
    requires EntriesTo(c0, c, e, child, n) && LeavesOnly(c')
    requires if n < STACKTOP_VPN && Slot(e, n) in c.maps then EntriesMade(c, c', e, child, n) else c'.maps == c.maps
    ensures EntriesTo(c0, c', e, child, n + 1)
  {
    var m := n + 1;
    forall v: nat ensures PageIs(c0, c', e, child, v, m) {
      assert PageIs(c0, c, e, child, v, n);
      PageOneMore(c0, c, c', e, child, n, v);
    }
  }

  lemma PageStarts(c: Lazy, c': Lazy, e: nat, child: nat, v: nat)
    requires Inv(c) && child !in c.envs && c'.maps == c.maps
    ensures PageIs(c, c', e, child, v, 0)
  {
  }

  lemma EntriesStart(c: Lazy, c': Lazy, e: nat, child: nat)
    requires Inv(c) && LeavesOnly(c) && child !in c.envs && e in c.envs && c'.maps == c.maps
    ensures EntriesTo(c, c', e, child, 0)
  {
    forall v: nat ensures PageIs(c, c', e, child, v, 0) { PageStarts(c, c', e, child, v); }
  }

  lemma EntriesToTheTop(c0: Lazy, c: Lazy, e: nat, child: nat)
    requires EntriesTo(c0, c, e, child, NPD * NPTE)
    ensures EntriesTo(c0, Step(c, ForkEnd(e)), e, child, STACKTOP_VPN)
  {
    var c' := Step(c, ForkEnd(e));
    forall v: nat ensures PageIs(c0, c', e, child, v, STACKTOP_VPN) {
      assert PageIs(c0, c, e, child, v, NPD * NPTE);
    }
  }

  // One page treated, as both machines and the entries show it.
  lemma PageDone(c0: Lazy, a0: Eager, c: Lazy, a: Eager, c': Lazy, a': Eager, e: nat, child: nat, n: nat)
    requires DoneTo(a0, c, a, e, child, n) && EntriesTo(c0, c, e, child, n) && n < STACKTOP_VPN
    requires AtPage(c', a', e, child, n + 1) && Copied(a, a', e, child, n)
    requires if Slot(e, n) in c.maps then EntriesMade(c, c', e, child, n) else c'.maps == c.maps
    ensures DoneTo(a0, c', a', e, child, n + 1) && EntriesTo(c0, c', e, child, n + 1)
    ensures forall v: nat :: Slot(e, v) !in c.maps ==> Slot(e, v) !in c'.maps
  {
    DoneOneMore(a0, c, a, c', a', e, child, n);
    EntriesOneMore(c0, c, c', e, child, n);
  }

  class Machine {
    var state: Lazy
    ghost var eager: Eager               // the eager machine that runs alongside

    method Duppage(e: nat, child: nat, vpn: nat)
      requires AtPage(state, eager, e, child, vpn) && vpn < STACKTOP_VPN && Slot(e, vpn) in state.maps && LeavesOnly(state)
      modifies this
      ensures AtPage(state, eager, e, child, vpn + 1) && Copied(old(eager), eager, e, child, vpn)
      // The permissions duppage promises: copy-on-write on both sides, or the same as before.
      ensures EntriesMade(old(state), state, e, child, vpn)
    {
      ghost var c := state;
      assert ForkOk(state, e);
      ReadsFlags(state, eager, e, child, vpn);
      var perm := state.maps[Slot(e, vpn)].bits;
      state := Step(state, DupRead(e));
      if perm & PTE_W == 0 || perm & PTE_LIBRARY != 0 {
        OneCall(state, eager, e, child, vpn);
        state := Step(state, DupFirst(e));
        eager := EagerStep(eager, DupFirst(e));
      } else {
        TwoCalls(state, eager, e, child, vpn);
        state := Step(state, DupFirst(e));
        eager := EagerStep(eager, DupFirst(e));
        state := Step(state, DupSecond(e));
        eager := EagerStep(eager, DupSecond(e));
      }
      EntriesAre(c, state, e, child, vpn);
    }

    // vpd[i] & PTE_V: something behind directory word i is mapped.
    method VpdValid(e: nat, i: nat) returns (valid: bool)
      ensures !valid ==> forall v: nat :: i * NPTE <= v < (i + 1) * NPTE ==> Slot(e, v) !in state.maps
    {
      for j := 0 to NPTE
        invariant forall v: nat :: i * NPTE <= v < i * NPTE + j ==> Slot(e, v) !in state.maps
      {
        if Slot(e, i * NPTE + j) in state.maps {
          return true;
        }
      }
      return false;
    }

    // One page of fork's loop: duppage if it is mapped.
    method Visit(e: nat, child: nat, vpn: nat, valid: bool, ghost c0: Lazy, ghost a0: Eager)
      requires DoneTo(a0, state, eager, e, child, vpn) && (!valid ==> Slot(e, vpn) !in state.maps)
      requires EntriesTo(c0, state, e, child, vpn)
      modifies this
      ensures DoneTo(a0, state, eager, e, child, vpn + 1) && EntriesTo(c0, state, e, child, vpn + 1)
      ensures forall v: nat :: v > vpn && Slot(e, v) !in old(state.maps) ==> Slot(e, v) !in state.maps
    {
      ghost var c, a := state, eager;
      assert ForkOk(state, e);
      if vpn < STACKTOP_VPN {
        if valid && Slot(e, vpn) in state.maps {
          Duppage(e, child, vpn);
        } else {
          PassPage(state, eager, e, child, vpn);
          state := Step(state, DupSkip(e));
          eager := EagerStep(eager, DupSkip(e));
        }
        PageDone(c0, a0, c, a, state, eager, e, child, vpn);
      } else {
        EntriesOneMore(c0, c, state, e, child, vpn);
      }
    }

    // fork's inner loop, over one directory word.
    method VisitTable(e: nat, child: nat, i: nat, ghost c0: Lazy, ghost a0: Eager)
      requires DoneTo(a0, state, eager, e, child, i * NPTE) && EntriesTo(c0, state, e, child, i * NPTE)
      modifies this
      ensures DoneTo(a0, state, eager, e, child, (i + 1) * NPTE) && EntriesTo(c0, state, e, child, (i + 1) * NPTE)
    {
      var valid := VpdValid(e, i);
      for j := 0 to NPTE
        invariant DoneTo(a0, state, eager, e, child, i * NPTE + j) && EntriesTo(c0, state, e, child, i * NPTE + j)
        invariant !valid ==> forall v: nat :: i * NPTE + j <= v < (i + 1) * NPTE ==> Slot(e, v) !in state.maps
      {
        Visit(e, child, i * NPTE + j, valid, c0, a0);
      }
    }

    // After fork every page of the child below the stack top reads like the parent's, and the
    // parent reads as before; their entries are the parent's old ones but for PTE_W and PTE_COW.
    method Fork(e: nat, child: nat)
      requires Inv(state) && LeavesOnly(state) && Refines(state, eager) && Enabled(state, ForkBegin(e, child))
      modifies this
      ensures Inv(state) && Refines(state, eager) && ForkOf(state, e) == NoFork && child in state.envs
      ensures ReadsAlike(old(state), state, e, child) && EntriesTo(old(state), state, e, child, STACKTOP_VPN)
    {
      ghost var c0, a0 := state, eager;
      StartsRunning(state, eager, e, child);
      state := Step(state, ForkBegin(e, child));
      eager := EagerStep(eager, ForkBegin(e, child));
      EntriesStart(c0, state, e, child);
      for i := 0 to NPD
        invariant DoneTo(a0, state, eager, e, child, i * NPTE) && EntriesTo(c0, state, e, child, i * NPTE)
      {
        VisitTable(e, child, i, c0, a0);
      }
      EntriesToTheTop(c0, state, e, child);
      ChildReadsLikeParent(c0, a0, state, eager, e, child);
      EndsFork(a0, state, eager, e, child);
      state := Step(state, ForkEnd(e));
      eager := EagerStep(eager, ForkEnd(e));
    }
  }
}
