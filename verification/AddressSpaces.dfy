// Address spaces over the page tables: the template and its copies, lazy allocation,
// the memory system calls, and teardown (kern/env.c, kern/pmap.c, kern/syscall_all.c).
module AddressSpaces {
  import opened Sv32
  import opened PhysicalMemory
  import opened PageSteps
  import opened Pmap

  // The virtual pages an environment owns: all but the template window.
  predicate Private(vpn: nat) { vpn < USER_VPNS && (Pdx(vpn) < UTOP_PDX || Pdx(vpn) == UVPT_PDX) }

  lemma VpnOf(va: nat)
    requires va < ULIM
    ensures Vpn(va) < USER_VPNS && Pdx(Vpn(va)) == va / 0x40_0000
    ensures va < UTOP ==> Private(Vpn(va)) && Pdx(Vpn(va)) < UTOP_PDX
    ensures va >= UVPT ==> Private(Vpn(va)) && Pdx(Vpn(va)) == UVPT_PDX
  {
  }

  // ---- passive_alloc and _do_tlb_refill ----

  lemma AllocTables(s: Phys, q: nat, vpn: nat)
    requires Inv(s) && s.free != [] && IsHolder(s, q) && s.free[0] < |s.frames|
    ensures TableOf(Alloc(s), q, vpn) == TableOf(s, q, vpn)
  {
    FreshPage(s);
    SameWordsElsewhere(s, Alloc(s), s.free[0]);
  }

  method PassiveAlloc(pm: PageMap, va: nat, q: nat) returns (f: Fault)
    requires Inv(pm.State()) && q in pm.dirs && va < WORD
    requires va < ULIM ==> Lookup(pm.State(), q, Vpn(va)) == None
    modifies pm, pm.pageRefs, pm.memory
    ensures f == Resumed ==>
      UTEMP <= va < ULIM && !(USTACKTOP <= va < USTACKTOP + BY2PG) && !(UENVS <= va < UVPT) && old(pm.freeList) != []
    ensures f == Resumed ==> Inv(pm.State()) && pm.loose == old(pm.loose) && ContentsKept(Alloc(old(pm.State())), pm.State())
    ensures f == Resumed ==>
      OnlyEntry(old(pm.State()), pm.State(), q, Vpn(va), Some(Pte(old(pm.freeList[0]), LeafBits(PTE_W | PTE_U))))
    ensures f == Panic <==>
      (va < UTEMP || USTACKTOP <= va < USTACKTOP + BY2PG || UENVS <= va < UVPT || va >= ULIM ||
       old(pm.freeList) == [] || (|old(pm.freeList)| == 1 && old(TableOf(pm.State(), q, Vpn(va))) == None))
  {
    if va < UTEMP {
      return Panic;
    }
    if va >= USTACKTOP && va < USTACKTOP + BY2PG {
      return Panic;
    }
    if va >= UENVS && va < UPAGES {
      return Panic;
    }
    if va >= UPAGES && va < UVPT {
      return Panic;
    }
    if va >= ULIM {
      return Panic;
    }
    ghost var s := pm.State();
    VpnOf(va);
    assert IsHolder(s, q);
    if pm.freeList != [] {
      FreshPage(s);
      AllocTables(s, q, Vpn(va));
    }
    var pp := pm.PageAlloc();
    if pp == None {
      return Panic;
    }
    var err := pm.PageInsert(q, pp.value, Vpn(va), PTE_W | PTE_U);
    if err != OK {
      return Panic;
    }
    return Resumed;
  }

  lemma LookedUp(s: Phys, q: nat, vpn: nat)
    requires Inv(s) && IsHolder(s, q) && vpn < USER_VPNS && Lookup(s, q, vpn).Some?
    ensures Mappable(s, Lookup(s, q, vpn).value.ppn) && Lookup(s, q, vpn).value.ppn !in s.loose
    ensures IsLeaf(Lookup(s, q, vpn).value)
  {
    WalkedTable(s, q, vpn);
    MappedIsCounted(s, TableOf(s, q, vpn).value, Ptx(vpn));
  }

  // A page an address space reads as mapped is one that can be mapped again.
  lemma MappedNow(s: Phys, q: nat, vpn: nat, p: nat)
    requires Inv(s) && IsHolder(s, q) && vpn < USER_VPNS && Lookup(s, q, vpn).Some? && Lookup(s, q, vpn).value.ppn == p
    ensures Mappable(s, p)
  {
    LookedUp(s, q, vpn);
  }

  method DoTlbRefill(pm: PageMap, va: nat, q: nat) returns (f: Fault)
    requires Inv(pm.State()) && q in pm.dirs && va < ULIM
    modifies pm, pm.pageRefs, pm.memory
    ensures old(Lookup(pm.State(), q, Vpn(va))).Some? ==> f == Resumed && pm.State() == old(pm.State())
    ensures f == Panic <==>
      (old(Lookup(pm.State(), q, Vpn(va))) == None &&
       (va < UTEMP || USTACKTOP <= va < USTACKTOP + BY2PG || UENVS <= va < UVPT ||
        old(pm.freeList) == [] || (|old(pm.freeList)| == 1 && old(TableOf(pm.State(), q, Vpn(va))) == None)))
    ensures f == Resumed ==> Inv(pm.State()) && pm.loose == old(pm.loose)
    // A page that was missing is now the head of the free list, zeroed; nothing else is touched.
    ensures f == Resumed && old(Lookup(pm.State(), q, Vpn(va))) == None ==>
      (old(pm.freeList) != [] && ContentsKept(Alloc(old(pm.State())), pm.State()) && old(pm.freeList[0]) < pm.memory.Length &&
       pm.memory[old(pm.freeList[0])] == ZeroFrame() &&
       OnlyEntry(old(pm.State()), pm.State(), q, Vpn(va), Some(Pte(old(pm.freeList[0]), LeafBits(PTE_W | PTE_U)))))
  {
    VpnOf(va);
    assert IsHolder(pm.State(), q);
    var pte := pm.PageLookup(q, Vpn(va));
    f := Resumed;
    if pte == None {
      ghost var s := pm.State();
      f := PassiveAlloc(pm, va, q);
      if f == Resumed {
        FreshPage(s);
        MappedNow(pm.State(), q, Vpn(va), s.free[0]);
      }
    }
  }

  // ---- the memory system calls, after envid2env: None stands for its error ----

  predicate IllegalVa(va: nat) { va < UTEMP || va >= UTOP }

  method SysMemAlloc(pm: PageMap, env: Option<nat>, va: nat, perm: Bits) returns (err: Error)
    requires Inv(pm.State()) && (env.Some? ==> env.value in pm.dirs)
    modifies pm, pm.pageRefs, pm.memory
    ensures Inv(pm.State())
    ensures err == if IllegalVa(va) then E_INVAL else if env == None then E_BAD_ENV
                   else if old(pm.freeList) == [] then E_NO_MEM
                   else if |old(pm.freeList)| == 1 && old(TableOf(pm.State(), env.value, Vpn(va))) == None then E_NO_MEM else OK
    // The page mapped is the head of the free list, and it reads as zeros.
    ensures err == OK ==> pm.loose == old(pm.loose) && ContentsKept(Alloc(old(pm.State())), pm.State())
    ensures err == OK ==>
      OnlyEntry(old(pm.State()), pm.State(), env.value, Vpn(va), Some(Pte(old(pm.freeList[0]), LeafBits(perm | PTE_U))))
    // A failed page_insert keeps the new page but refers to it from nowhere.
    ensures err != OK ==> SameLookups(old(pm.State()), pm.State())
    ensures err != OK ==> pm.loose == old(pm.loose) + if IllegalVa(va) || env == None || old(pm.freeList) == [] then {} else {old(pm.freeList[0])}
  {
    if IllegalVa(va) {
      return E_INVAL;
    }
    if env == None {
      return E_BAD_ENV;
    }
    ghost var s := pm.State();
    VpnOf(va);
    assert IsHolder(s, env.value);
    if pm.freeList != [] {
      FreshPage(s);
      AllocTables(s, env.value, Vpn(va));
    }
    var pp := pm.PageAlloc();
    if pp == None {
      return E_NO_MEM;
    }
    err := pm.PageInsert(env.value, pp.value, Vpn(va), perm | PTE_U);
  }

  method SysMemMap(pm: PageMap, src: Option<nat>, srcva: nat, dst: Option<nat>, dstva: nat, perm: Bits) returns (err: Error)
    requires Inv(pm.State()) && (src.Some? ==> src.value in pm.dirs) && (dst.Some? ==> dst.value in pm.dirs)
    modifies pm, pm.pageRefs, pm.memory
    ensures Inv(pm.State()) && (err != OK ==> pm.State() == old(pm.State()))
    ensures err == if IllegalVa(srcva) || IllegalVa(dstva) then E_INVAL else if src == None || dst == None then E_BAD_ENV
                   else if old(Lookup(pm.State(), src.value, Vpn(srcva))) == None then E_INVAL
                   else if old(TableOf(pm.State(), dst.value, Vpn(dstva))) == None && old(pm.freeList) == [] then E_NO_MEM else OK
    ensures err == OK ==> pm.loose == old(pm.loose) && ContentsKept(old(pm.State()), pm.State())
    ensures err == OK ==> OnlyEntry(old(pm.State()), pm.State(), dst.value, Vpn(dstva),
      Some(Pte(old(Lookup(pm.State(), src.value, Vpn(srcva))).value.ppn, LeafBits(perm | PTE_U))))
  {
    if IllegalVa(srcva) || IllegalVa(dstva) {
      return E_INVAL;
    }
    if src == None {
      return E_BAD_ENV;
    }
    if dst == None {
      return E_BAD_ENV;
    }
    VpnOf(srcva);
    VpnOf(dstva);
    assert IsHolder(pm.State(), src.value);
    var pte := pm.PageLookup(src.value, Vpn(srcva));
    if pte == None {
      return E_INVAL;
    }
    LookedUp(pm.State(), src.value, Vpn(srcva));
    err := pm.PageInsert(dst.value, pte.value.ppn, Vpn(dstva), perm | PTE_U);
  }

  method SysMemUnmap(pm: PageMap, env: Option<nat>, va: nat) returns (err: Error)
    requires Inv(pm.State()) && (env.Some? ==> env.value in pm.dirs)
    modifies pm, pm.pageRefs, pm.memory
    ensures Inv(pm.State()) && (err != OK ==> pm.State() == old(pm.State())) && pm.loose == old(pm.loose)
    ensures err == if IllegalVa(va) then E_INVAL else if env == None then E_BAD_ENV else OK
    ensures err == OK ==> OnlyEntry(old(pm.State()), pm.State(), env.value, Vpn(va), None)
  {
    if IllegalVa(va) {
      return E_INVAL;
    }
    if env == None {
      return E_BAD_ENV;
    }
    VpnOf(va);
    pm.PageRemove(env.value, Vpn(va));
    return OK;
  }

  // ---- env_init, env_setup_vm and env_free ----

  // env_init's template directory, before anything is mapped in it.
  method EnvInitTemplate(pm: PageMap) returns (f: Fault)
    requires Inv(pm.State()) && pm.base.NoBase? && pm.dirs == {}
    modifies pm, pm.pageRefs, pm.memory
    ensures f == if old(pm.freeList) == [] then Panic else Resumed
    ensures f == Resumed ==> Inv(pm.State()) && pm.base == Base(old(pm.freeList[0])) && pm.dirs == {} && pm.loose == old(pm.loose)
    ensures f == Resumed ==> pm.freeList == old(pm.freeList)[1..]
    ensures f == Resumed ==> forall v: nat :: v < USER_VPNS ==> TableOf(pm.State(), pm.base.page, v) == None
  {
    var pp := pm.PageAlloc();
    if pp == None {
      return Panic;
    }
    ghost var a := pm.State();
    FreshPage(old(pm.State()));
    NewTemplateKeeps(a, pp.value);
    pm.pageRefs[pp.value] := pm.pageRefs[pp.value] + 1;
    pm.base := Base(pp.value);
    pm.loose := pm.loose - {pp.value};
    assert pm.State() == NewTemplate(a, pp.value);
    return Resumed;
  }

  // A page handed out before page_init is counted for good.
  lemma BootPageIsMappable(s: Phys, p: nat)
    requires Inv(s) && p < s.boot
    ensures Mappable(s, p)
  {
  }

  // What map_segment has done after its first i pages, the rest of the template being as before.
  ghost predicate SegmentMapped(s: Phys, s': Phys, q: nat, pa: nat, vpn: nat, i: nat, perm: Bits) {
    && s'.dirs == s.dirs && s'.base == s.base && s'.boot == s.boot && s'.loose == s.loose
    && (forall v: nat :: v < USER_VPNS ==>
          Lookup(s', q, v) == if vpn <= v < vpn + i then Some(Pte(pa + v - vpn, LeafBits(perm | PTE_R | PTE_V))) else Lookup(s, q, v))
  }

  lemma SegmentOneMore(s: Phys, m: Phys, s': Phys, q: nat, pa: nat, vpn: nat, i: nat, perm: Bits)
    requires IsBase(s, q) && SegmentMapped(s, m, q, pa, vpn, i, perm) && s'.boot == m.boot && s'.loose == m.loose
    requires OnlyEntry(m, s', q, vpn + i, Some(Pte(pa + i, LeafBits(perm | PTE_R | PTE_V)))) && vpn + i < USER_VPNS
    ensures SegmentMapped(s, s', q, pa, vpn, i + 1, perm)
    ensures TableOf(s', q, vpn + i).Some?
  {
    assert IsHolder(m, q);
    assert Lookup(s', q, vpn + i).Some?;
  }

  // ... which needs a page only for the table, and has done nothing if there is none.
  ghost predicate SegmentSoFar(s: Phys, m: Phys, q: nat, pa: nat, vpn: nat, i: nat, perm: Bits) {
    if i == 0 || (TableOf(s, q, vpn) == None && s.free == []) then m == s
    else SegmentMapped(s, m, q, pa, vpn, i, perm) && TableOf(m, q, vpn).Some?
  }

  lemma StillForUser(perm: Bits)
    requires ForUser(perm)
    ensures ForUser(perm | PTE_R | PTE_V)
  {
  }

  lemma SameWordOfTemplate(vpn: nat, i: nat)
    requires Pdx(vpn) < UVPT_PDX && vpn < USER_VPNS && Ptx(vpn) + i < NPTE
    ensures vpn + i < USER_VPNS && Pdx(vpn + i) == Pdx(vpn)
  {
  }

  // One page of it.
  method MapOfSegment(pm: PageMap, ghost s: Phys, q: nat, pa: nat, vpn: nat, i: nat, perm: Bits)
    requires Inv(pm.State()) && IsBase(s, q) && pm.base == s.base && pm.dirs == {} == s.dirs && ForUser(perm)
    requires UTOP_PDX <= Pdx(vpn) < UVPT_PDX && Ptx(vpn) + i < NPTE && vpn < USER_VPNS && pa + i < s.boot
    requires SegmentSoFar(s, pm.State(), q, pa, vpn, i, perm)
    modifies pm, pm.pageRefs, pm.memory
    ensures Inv(pm.State()) && SegmentSoFar(s, pm.State(), q, pa, vpn, i + 1, perm)
    ensures pm.base == s.base && pm.dirs == {}
  {
    ghost var m := pm.State();
    SameWordOfTemplate(vpn, i);
    BootPageIsMappable(m, pa + i);
    StillForUser(perm);
    assert TableOf(m, q, vpn + i) == TableOf(m, q, vpn);
    var err := pm.PageInsert(q, pa + i, vpn + i, perm | PTE_R | PTE_V);
    if err == OK {
      SegmentOneMore(s, m, pm.State(), q, pa, vpn, i, perm);
    }
  }

  // map_segment: n pages from physical page pa on, at vpn, all behind one word of the
  // template.  It does not look at page_insert's answer; the segment is in place exactly
  // when the one table it needs is there or can be had.
  method MapSegment(pm: PageMap, q: nat, pa: nat, vpn: nat, n: nat, perm: Bits)
    requires Inv(pm.State()) && IsBase(pm.State(), q) && pm.dirs == {} && ForUser(perm)
    requires UTOP_PDX <= Pdx(vpn) < UVPT_PDX && Ptx(vpn) + n <= NPTE && vpn < USER_VPNS && pa + n <= pm.boot
    requires forall v: nat :: v < USER_VPNS && Pdx(v) == Pdx(vpn) ==> Lookup(pm.State(), q, v) == None
    modifies pm, pm.pageRefs, pm.memory
    ensures Inv(pm.State())
    ensures n == 0 || old(TableOf(pm.State(), q, vpn)).Some? || old(pm.freeList) != [] ==>
      SegmentMapped(old(pm.State()), pm.State(), q, pa, vpn, n, perm)
    ensures n > 0 && old(TableOf(pm.State(), q, vpn)) == None && old(pm.freeList) == [] ==> pm.State() == old(pm.State())
  {
    ghost var s := pm.State();
    for i := 0 to n
      invariant Inv(pm.State()) && SegmentSoFar(s, pm.State(), q, pa, vpn, i, perm)
      invariant pm.base == s.base && pm.dirs == {}
    {
      MapOfSegment(pm, s, q, pa, vpn, i, perm);
    }
  }

  // env_init's memcpy of the kernel's words.
  method CopyKernelWords(pm: PageMap, q: nat, kernel: seq<Pte>)
    requires Inv(pm.State()) && IsBase(pm.State(), q) && pm.dirs == {}
    requires |kernel| == NPTE - KSEG0_PDX && forall i :: 0 <= i < |kernel| ==> kernel[i].bits & PTE_U == 0
    modifies pm.memory
    ensures Inv(pm.State()) && SameLookups(old(pm.State()), pm.State())
    ensures forall i: nat :: KSEG0_PDX <= i < NPTE ==> Word(pm.State(), q, i) == kernel[i - KSEG0_PDX]
  {
    ghost var s := pm.State();
    assert IsHolder(s, q);
    KernelWordsKeep(s, q, kernel);
    KernelWordsAt(s, q, kernel);
    pm.memory[q] := pm.memory[q][..KSEG0_PDX] + kernel;
    assert pm.State() == WithKernelWords(s, q, kernel);
  }

  method EnvSetupVm(pm: PageMap) returns (err: Error, q: nat)
    requires Inv(pm.State()) && pm.base.Base?
    modifies pm, pm.pageRefs, pm.memory
    ensures Inv(pm.State()) && pm.loose == old(pm.loose) && pm.base == old(pm.base)
    ensures err == if old(pm.freeList) == [] then E_NO_MEM else OK
    ensures err != OK ==> pm.State() == old(pm.State())
    ensures err == OK ==> q !in old(pm.dirs) && q == old(pm.freeList[0]) && pm.dirs == old(pm.dirs) + {q}
    ensures forall q': nat, v: nat :: IsHolder(old(pm.State()), q') && v < USER_VPNS ==> Lookup(pm.State(), q', v) == old(Lookup(pm.State(), q', v))
    // A new address space is the template and nothing else.
    ensures err == OK ==> forall v: nat :: v < USER_VPNS ==> Lookup(pm.State(), q, v) == old(Lookup(pm.State(), pm.base.page, v))
    // The kernel is mapped in it as in the template, and no other page is written to.
    ensures err == OK ==> forall i: nat :: KSEG0_PDX <= i < NPTE ==> Word(pm.State(), q, i) == old(Word(pm.State(), pm.base.page, i))
    ensures forall p: nat :: p < pm.memory.Length && (err != OK || p != q) ==> pm.memory[p] == old(pm.memory[p])
  {
    ghost var s := pm.State();
    var pp := pm.PageAlloc();
    if pp == None {
      return E_NO_MEM, 0;
    }
    q := pp.value;
    ghost var a := pm.State();
    FreshPage(s);
    NewDirectoryKeeps(a, q);
    forall q': nat, v: nat | IsHolder(s, q') && v < USER_VPNS
      ensures Lookup(NewDirectory(a, q), q', v) == Lookup(s, q', v) && Lookup(NewDirectory(a, q), q, v) == Lookup(s, s.base.page, v)
    {
      NewDirectoryLookup(a, q, q', v);
    }
    assert IsHolder(a, pm.base.page);
    pm.pageRefs[q] := pm.pageRefs[q] + 1;
    var template := pm.memory[pm.base.page];
    pm.memory[q] := pm.memory[q][..UTOP_PDX] + template[UTOP_PDX..UVPT_PDX] + pm.memory[q][UVPT_PDX..];
    pm.memory[q] := pm.memory[q][..KSEG0_PDX] + template[KSEG0_PDX..];
    pm.dirs := pm.dirs + {q};
    pm.loose := pm.loose - {q};
    assert pm.memory[q] == DirectoryFrame(a);
    assert pm.State() == NewDirectory(a, q);
    return OK, q;
  }

  // Elsewhere than behind word i of q, the address spaces read the same.
  ghost predicate SameElsewhere(s: Phys, s': Phys, q: nat, i: nat) {
    && s'.dirs == s.dirs && s'.base == s.base && s'.loose == s.loose
    && (forall q': nat, v: nat :: IsHolder(s, q') && v < USER_VPNS && (q' != q || Pdx(v) != i) ==> Lookup(s', q', v) == Lookup(s, q', v))
  }

  // The first n words of table pt, behind word i of q, are clear and nothing else has changed.
  ghost predicate ClearedUpTo(s: Phys, s': Phys, q: nat, i: nat, pt: nat, n: nat) {
    && s'.tables == s.tables && SameElsewhere(s, s', q, i) && |s'.frames| == |s.frames|
    && (forall j: nat :: j < n ==> !Valid(Word(s', pt, j)))
    && (forall t: nat :: t < |s.frames| && t != pt ==> s'.frames[t] == s.frames[t])
  }

  lemma StillBehind(s: Phys, a: Phys, q: nat, i: nat, pt: nat, n: nat)
    requires Inv(s) && q in s.dirs && i < UTOP_PDX && n < NPTE && pt in s.tables && s.tables[pt] == At(q, i)
    requires ClearedUpTo(s, a, q, i, pt, n)
    ensures i * NPTE + n < USER_VPNS && Owns(a, q, Pdx(i * NPTE + n)) && !IsBase(a, q)
    ensures TableOf(a, q, i * NPTE + n) == Some(pt) && pt < |a.frames|
  {
    assert IsHolder(s, q) && Word(s, q, i) == Pte(pt, PTE_V) && Valid(Pte(pt, PTE_V));
    assert Pdx(i * NPTE + n) == i;
  }

  lemma VpnParts(i: nat, j: nat)
    requires i < UTOP_PDX && j < NPTE
    ensures Pdx(i * NPTE + j) == i && Ptx(i * NPTE + j) == j
  {
  }

  // A cleared entry reads as unmapped, and so do the ones that did before.
  lemma ClearedWord(s: Phys, a: Phys, b: Phys, q: nat, i: nat, pt: nat, n: nat, j: nat)
    requires Inv(s) && q in s.dirs && i < UTOP_PDX && n < NPTE && pt in s.tables && s.tables[pt] == At(q, i) && j <= n
    requires ClearedUpTo(s, a, q, i, pt, n) && OnlyEntry(a, b, q, i * NPTE + n, None) && |b.frames| == |a.frames|
    requires forall t: nat :: t < |a.frames| && t != pt ==> b.frames[t] == a.frames[t]
    ensures !Valid(Word(b, pt, j))
  {
    assert IsHolder(s, q) && Word(s, q, i) == Pte(pt, PTE_V) && Valid(Pte(pt, PTE_V));
    var v := i * NPTE + j;
    VpnParts(i, n);
    VpnParts(i, j);
    assert TableOf(b, q, v) == Some(pt) && TableOf(a, q, v) == Some(pt);
    assert Lookup(b, q, v) == None;
  }

  lemma ClearedOneMore(s: Phys, a: Phys, b: Phys, q: nat, i: nat, pt: nat, n: nat)
    requires Inv(s) && q in s.dirs && i < UTOP_PDX && n < NPTE && pt in s.tables && s.tables[pt] == At(q, i)
    requires ClearedUpTo(s, a, q, i, pt, n) && OnlyEntry(a, b, q, i * NPTE + n, None)
    requires b.tables == a.tables && b.loose == a.loose && |b.frames| == |a.frames|
    requires forall t: nat :: t < |a.frames| && t != pt ==> b.frames[t] == a.frames[t]
    ensures ClearedUpTo(s, b, q, i, pt, n + 1)
  {
    VpnParts(i, n);
    forall j: nat | j <= n ensures !Valid(Word(b, pt, j)) {
      ClearedWord(s, a, b, q, i, pt, n, j);
    }
  }

  // One pass of env_free's inner loop.
  method ClearPage(pm: PageMap, ghost s: Phys, q: nat, pdeno: nat, pt: nat, pteno: nat)
    requires Inv(s) && q in s.dirs && pdeno < UTOP_PDX && pteno < NPTE && pt in s.tables && s.tables[pt] == At(q, pdeno)
    requires Inv(pm.State()) && ClearedUpTo(s, pm.State(), q, pdeno, pt, pteno)
    modifies pm, pm.pageRefs, pm.memory
    ensures Inv(pm.State()) && ClearedUpTo(s, pm.State(), q, pdeno, pt, pteno + 1)
  {
    ghost var a := pm.State();
    StillBehind(s, a, q, pdeno, pt, pteno);
    if pm.memory[pt][pteno].bits & PTE_V != 0 {
      pm.PageRemove(q, pdeno * NPTE + pteno);
      ghost var b := pm.State();
      assert OnlyEntry(a, b, q, pdeno * NPTE + pteno, None);
      assert forall t: nat :: t < |a.frames| && t != pt ==> b.frames[t] == a.frames[t];
      ClearedOneMore(s, a, b, q, pdeno, pt, pteno);
    }
  }

  // env_free's inner loop: every page of table `pt`, behind word pdeno of q, is released.
  method ClearTable(pm: PageMap, q: nat, pdeno: nat, pt: nat)
    requires Inv(pm.State()) && q in pm.dirs && pdeno < UTOP_PDX && pt in pm.tables && pm.tables[pt] == At(q, pdeno)
    modifies pm, pm.pageRefs, pm.memory
    ensures Inv(pm.State()) && ClearedUpTo(old(pm.State()), pm.State(), q, pdeno, pt, NPTE)
  {
    ghost var s := pm.State();
    assert IsHolder(s, q);
    for pteno := 0 to NPTE
      invariant Inv(pm.State()) && ClearedUpTo(s, pm.State(), q, pdeno, pt, pteno)
    {
      ClearPage(pm, s, q, pdeno, pt, pteno);
    }
  }

  // One round of env_free: the pages of a table, the directory word, the table.
  method FreeTable(pm: PageMap, q: nat, pdeno: nat)
    requires Inv(pm.State()) && q in pm.dirs && pdeno < UTOP_PDX && Valid(Word(pm.State(), q, pdeno))
    modifies pm, pm.pageRefs, pm.memory
    ensures Inv(pm.State()) && SameElsewhere(old(pm.State()), pm.State(), q, pdeno)
    ensures var pt := old(Word(pm.State(), q, pdeno)).ppn;
      pt in old(pm.tables) && old(pm.tables)[pt] == At(q, pdeno) && pm.tables == old(pm.tables) - {pt}
    ensures !Valid(Word(pm.State(), q, pdeno))
    ensures forall t: nat, j: nat :: t != old(Word(pm.State(), q, pdeno)).ppn && (t, j) != (q, pdeno) ==>
      Word(pm.State(), t, j) == old(Word(pm.State(), t, j))
  {
    ghost var s := pm.State();
    assert IsHolder(s, q);
    var pt := pm.memory[q][pdeno].ppn;
    assert pt in s.tables && s.tables[pt] == At(q, pdeno);
    ClearTable(pm, q, pdeno, pt);
    ghost var d := pm.State();
    SameWordsElsewhere(s, d, pt);
    DropTableKeeps(d, q, pdeno);
    DropTableLookups(d, q, pdeno);
    WordAfterStore(d, DropTable(d, q, pdeno), q, pdeno, ZERO);
    pm.memory[q] := pm.memory[q][pdeno := ZERO];
    pm.PageDecref(pt);
    pm.tables := pm.tables - {pt};
    assert pm.State() == DropTable(d, q, pdeno);
  }

  // The tables of s without those behind the first k words of q.
  function TablesWithout(s: Phys, q: nat, k: nat): map<nat, Owner> {
    map t | t in s.tables && !(s.tables[t].At? && s.tables[t].dir == q && s.tables[t].index < k) :: s.tables[t]
  }

  function Strand(tables: map<nat, Owner>, q: nat): map<nat, Owner> {
    map t | t in tables :: if tables[t] == At(q, UVPT_PDX) then Lost else tables[t]
  }

  ghost predicate SameOtherSpaces(s: Phys, s': Phys, q: nat) {
    forall q': nat, v: nat :: IsHolder(s, q') && q' != q && v < USER_VPNS ==> Lookup(s', q', v) == Lookup(s, q', v)
  }

  // env_free has dealt with the first k words of q.
  ghost predicate FreedUpTo(s: Phys, s': Phys, q: nat, k: nat) {
    && s'.dirs == s.dirs && s'.base == s.base && s'.loose == s.loose && s'.tables == TablesWithout(s, q, k)
    && (forall i: nat :: i < k ==> !Valid(Word(s', q, i)))
    && (forall i: nat :: k <= i < NPTE ==> Word(s', q, i) == Word(s, q, i))
    && (forall t: nat, j: nat :: t in s'.tables ==> Word(s', t, j) == Word(s, t, j))
    && SameOtherSpaces(s, s', q)
  }

  lemma FreedOneMore(s: Phys, m: Phys, s': Phys, q: nat, k: nat, pt: nat)
    requires Inv(s) && Inv(m) && q in s.dirs && k < UTOP_PDX && FreedUpTo(s, m, q, k) && SameElsewhere(m, s', q, k)
    requires pt in m.tables && m.tables[pt] == At(q, k) && s'.tables == m.tables - {pt} && !Valid(Word(s', q, k))
    requires forall t: nat, j: nat :: t != pt && (t, j) != (q, k) ==> Word(s', t, j) == Word(m, t, j)
    ensures FreedUpTo(s, s', q, k + 1)
  {
    assert IsHolder(m, q);
    assert s'.tables == TablesWithout(s, q, k + 1) by {
      forall t: nat | t in s.tables && s.tables[t] == At(q, k) ensures t == pt {
        assert s.tables[pt] == At(q, k);
      }
    }
    assert SameOtherSpaces(s, s', q);
  }

  lemma FreedNothing(s: Phys, s': Phys, q: nat, k: nat)
    requires Inv(s) && q in s.dirs && k < UTOP_PDX && FreedUpTo(s, s', q, k) && !Valid(Word(s', q, k))
    ensures FreedUpTo(s, s', q, k + 1)
  {
    assert TablesWithout(s, q, k + 1) == TablesWithout(s, q, k) by {
      assert Word(s, q, k) == Word(s', q, k);
      assert forall t: nat :: t in s.tables ==> s.tables[t] != At(q, k);
    }
  }

  // Before and after env_free of q, every table that is left and every word in it as before.
  ghost predicate TornDown(s: Phys, s': Phys, q: nat) {
    && Inv(s) && Inv(s') && q in s.dirs && s'.dirs == s.dirs - {q} && s'.base == s.base && s'.loose == s.loose
    && s'.boot == s.boot && |s'.refs| == |s.refs|
    && s'.tables == Strand(TablesWithout(s, q, UTOP_PDX), q)
    && (forall t: nat, j: nat :: t in s'.tables ==> Word(s', t, j) == Word(s, t, j))
  }

  // One directory entry: the table behind it, if there is one, is emptied and given back.
  method FreeSlot(pm: PageMap, q: nat, pdeno: nat, ghost s: Phys)
    requires Inv(s) && q in s.dirs && Inv(pm.State()) && FreedUpTo(s, pm.State(), q, pdeno) && pdeno < UTOP_PDX
    modifies pm, pm.pageRefs, pm.memory
    ensures Inv(pm.State()) && FreedUpTo(s, pm.State(), q, pdeno + 1)
  {
    ghost var m := pm.State();
    assert IsHolder(m, q);
    if pm.memory[q][pdeno].bits & PTE_V == 0 {
      FreedNothing(s, m, q, pdeno);
    } else {
      FreeTable(pm, q, pdeno);
      FreedOneMore(s, m, pm.State(), q, pdeno, Word(m, q, pdeno).ppn);
    }
  }

  // page_decref of the page directory, once no user table is left in it.
  method FreeDirectory(pm: PageMap, q: nat)
    requires Inv(pm.State()) && q in pm.dirs
    requires forall i: nat :: i < UTOP_PDX ==> !Valid(Word(pm.State(), q, i))
    modifies pm, pm.pageRefs, pm.memory
    ensures q < |old(pm.State()).refs| && old(pm.State()).refs[q] > 0
    ensures pm.State() == DropDirectory(old(pm.State()), q) && Inv(pm.State())
    ensures forall q': nat, v: nat :: Lookup(pm.State(), q', v) == Lookup(old(pm.State()), q', v)
  {
    ghost var d := pm.State();
    DropDirectoryKeeps(d, q);
    pm.PageDecref(q);
    pm.dirs := pm.dirs - {q};
    pm.tables := Strand(pm.tables, q);
  }

  // env_free's work on memory.
  method EnvFreeVm(pm: PageMap, q: nat)
    requires Inv(pm.State()) && q in pm.dirs
    modifies pm, pm.pageRefs, pm.memory
    ensures TornDown(old(pm.State()), pm.State(), q) && SameOtherSpaces(old(pm.State()), pm.State(), q)
  {
    ghost var s := pm.State();
    assert TablesWithout(s, q, 0) == s.tables;
    for pdeno := 0 to UTOP_PDX
      invariant Inv(pm.State()) && FreedUpTo(s, pm.State(), q, pdeno)
    {
      FreeSlot(pm, q, pdeno, s);
    }
    FreeDirectory(pm, q);
  }

  // ---- what teardown gives back ----

  predicate Behind(s: Phys, q: nat, t: nat) {
    t in s.tables && s.tables[t].At? && s.tables[t].dir == q && s.tables[t].index < UTOP_PDX
  }

  function EntriesFrom(s: Phys, q: nat, p: nat): set<(nat, nat)> {
    set e | e in LeafEntries(s, p) && Behind(s, q, e.0)
  }

  // Of all that refers to page p, everything is below UTOP in q: what env_free visits.
  ghost predicate ReachedOnlyBelow(s: Phys, q: nat, p: nat) {
    p == q || Behind(s, q, p) ||
    (s.boot <= p < |s.refs| && LeafEntries(s, p) != {} && LeafEntries(s, p) == EntriesFrom(s, q, p))
  }

  // A page table of q's, at whatever directory word.
  predicate TableOfSpace(s: Phys, q: nat, t: nat) { t in s.tables && s.tables[t].At? && s.tables[t].dir == q }

  // Only the address space of q refers to page p: its directory, its tables, and the pages
  // only they map.
  ghost predicate OnlyBy(s: Phys, q: nat, p: nat) {
    p == q || TableOfSpace(s, q, p) ||
    (s.boot <= p < |s.refs| && LeafEntries(s, p) != {} && forall e :: e in LeafEntries(s, p) ==> TableOfSpace(s, q, e.0))
  }

  lemma TeardownEntries(s: Phys, s': Phys, q: nat, p: nat)
    requires TornDown(s, s', q)
    ensures LeafEntries(s', p) == LeafEntries(s, p) - EntriesFrom(s, q, p)
  {
    forall e ensures e in LeafEntries(s', p) <==> e in LeafEntries(s, p) - EntriesFrom(s, q, p) {
      assert e.0 in s'.tables <==> e.0 in s.tables && !Behind(s, q, e.0);
    }
  }

  lemma TeardownOfHolder(s: Phys, s': Phys, q: nat, p: nat)
    requires TornDown(s, s', q) && p < |s.refs| && (IsHolder(s, p) || p in s.tables)
    ensures s'.refs[p] == s.refs[p] - |EntriesFrom(s, q, p)| - (if p == q || Behind(s, q, p) then 1 else 0)
    ensures p in s'.free <==> p in s.free || ReachedOnlyBelow(s, q, p)
  {
    TeardownEntries(s, s', q, p);
    assert IsHolder(s, q) && (IsHolder(s', p) <==> IsHolder(s, p) && p != q);
    assert p in s'.tables <==> p in s.tables && !Behind(s, q, p);
    assert LeafEntries(s, p) == {};
    assert EntriesFrom(s, q, p) == {};
  }

  lemma TeardownOfLeaf(s: Phys, s': Phys, q: nat, p: nat)
    requires TornDown(s, s', q) && p < |s.refs| && !IsHolder(s, p) && p !in s.tables
    ensures s'.refs[p] == s.refs[p] - |EntriesFrom(s, q, p)| - (if p == q || Behind(s, q, p) then 1 else 0)
    ensures p in s'.free <==> p in s.free || ReachedOnlyBelow(s, q, p)
  {
    TeardownEntries(s, s', q, p);
    assert IsHolder(s, q) && !IsHolder(s', p) && p !in s'.tables;
    assert |LeafEntries(s', p)| == |LeafEntries(s, p)| - |EntriesFrom(s, q, p)|;
    if p in s.loose { assert LeafEntries(s, p) == {}; }
  }

  lemma TeardownOfPage(s: Phys, s': Phys, q: nat, p: nat)
    requires TornDown(s, s', q) && p < |s.refs|
    ensures s'.refs[p] == s.refs[p] - |EntriesFrom(s, q, p)| - (if p == q || Behind(s, q, p) then 1 else 0)
    ensures p in s'.free <==> p in s.free || ReachedOnlyBelow(s, q, p)
  {
    if IsHolder(s, p) || p in s.tables { TeardownOfHolder(s, s', q, p); } else { TeardownOfLeaf(s, s', q, p); }
  }

  // One reference is dropped per mapping, per user page table and for the directory, and
  // the free list grows by the pages nothing else refers to, as far as teardown looks.
  lemma TeardownDrops(s: Phys, s': Phys, q: nat)
    requires TornDown(s, s', q)
    ensures forall p: nat :: p < |s.refs| ==>
      s'.refs[p] == s.refs[p] - |EntriesFrom(s, q, p)| - (if p == q || Behind(s, q, p) then 1 else 0)
    ensures forall p: nat :: p in s'.free <==> p in s.free || ReachedOnlyBelow(s, q, p)
  {
    forall p: nat | p < |s.refs|
      ensures s'.refs[p] == s.refs[p] - |EntriesFrom(s, q, p)| - (if p == q || Behind(s, q, p) then 1 else 0)
      ensures p in s'.free <==> p in s.free || ReachedOnlyBelow(s, q, p)
    {
      TeardownOfPage(s, s', q, p);
    }
    assert IsHolder(s, q);
  }

  // Without a table in the window, the tables of q are those below UTOP.
  lemma NoWindowTable(s: Phys, q: nat, t: nat)
    requires Inv(s) && q in s.dirs && !Valid(Word(s, q, UVPT_PDX))
    ensures TableOfSpace(s, q, t) <==> Behind(s, q, t)
  {
    if TableOfSpace(s, q, t) {
      assert Word(s, q, s.tables[t].index) == Pte(t, PTE_V) && Valid(Pte(t, PTE_V));
      assert Owns(s, q, s.tables[t].index) && !IsBase(s, q);
    }
  }

  lemma NoWindowPages(s: Phys, q: nat, p: nat)
    requires Inv(s) && q in s.dirs && !Valid(Word(s, q, UVPT_PDX))
    ensures OnlyBy(s, q, p) <==> ReachedOnlyBelow(s, q, p)
  {
    NoWindowTable(s, q, p);
    forall e | e in LeafEntries(s, p) ensures TableOfSpace(s, q, e.0) <==> Behind(s, q, e.0) { NoWindowTable(s, q, e.0); }
    if forall e :: e in LeafEntries(s, p) ==> TableOfSpace(s, q, e.0) {
      assert LeafEntries(s, p) == EntriesFrom(s, q, p);
    }
    if LeafEntries(s, p) == EntriesFrom(s, q, p) {
      assert forall e :: e in LeafEntries(s, p) ==> e in EntriesFrom(s, q, p);
    }
  }

  // The free list grows by exactly the pages only q's address space referred to, exactly
  // when the environment has no table in the window at UVPT.
  lemma TeardownIsExact(s: Phys, s': Phys, q: nat)
    requires TornDown(s, s', q)
    ensures (forall p: nat :: p in s'.free <==> p in s.free || OnlyBy(s, q, p)) <==> !Valid(Word(s, q, UVPT_PDX))
  {
    TeardownDrops(s, s', q);
    if Valid(Word(s, q, UVPT_PDX)) {
      assert Owns(s, q, UVPT_PDX);
      var t := Word(s, q, UVPT_PDX).ppn;
      assert TableOfSpace(s, q, t) && t !in s.free;
      assert !Behind(s, q, t) && LeafEntries(s, t) == {} && t != q by { assert IsHolder(s, q); }
      assert t !in s'.free && OnlyBy(s, q, t);
    } else {
      forall p: nat ensures OnlyBy(s, q, p) <==> ReachedOnlyBelow(s, q, p) { NoWindowPages(s, q, p); }
    }
  }

  // Teardown strands a page table exactly when a store into the emulated window
  // had put one behind the directory's UVPT word.
  lemma TeardownStrandsOnlyTheWindow(s: Phys, s': Phys, q: nat)
    requires TornDown(s, s', q)
    ensures (forall t: nat :: t in s'.tables && s'.tables[t] == Lost ==> t in s.tables && s.tables[t] == Lost)
            <==> !Valid(Word(s, q, UVPT_PDX))
  {
    if Valid(Word(s, q, UVPT_PDX)) {
      assert Owns(s, q, UVPT_PDX);
      var t := Word(s, q, UVPT_PDX).ppn;
      assert s'.tables[t] == Lost;
    }
  }

  // passive_alloc does not refuse addresses in the window at UVPT, and env_free does not
  // look there: a program that stores into the window and ends leaves a page table that
  // keeps its reference count and that nothing points at.
  method WindowStoreStrandsATable(pm: PageMap, va: nat, q: nat) returns (ghost t: nat)
    requires Inv(pm.State()) && q in pm.dirs && UVPT <= va < ULIM && Lookup(pm.State(), q, Vpn(va)) == None
    requires |pm.freeList| >= 2 && forall t: nat :: t in pm.tables ==> pm.tables[t] != Lost
    modifies pm, pm.pageRefs, pm.memory
    ensures Inv(pm.State()) && q !in pm.dirs && t in pm.tables && pm.tables[t] == Lost
  {
    VpnOf(va);
    ghost var before := pm.State();
    var f := PassiveAlloc(pm, va, q);
    ghost var stored := pm.State();
    assert Lookup(stored, q, Vpn(va)).Some?;
    assert Valid(Word(stored, q, UVPT_PDX));
    EnvFreeVm(pm, q);
    t := Word(stored, q, UVPT_PDX).ppn;
    assert Owns(stored, q, UVPT_PDX);
  }
}
