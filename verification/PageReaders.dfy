// The readers of one mapping: page_lookup in the kernel, the Sv32 walk of the
// hardware, and the vpt/vpd windows that query_vpt emulates for user programs.
module PageReaders {
  import opened Sv32
  import opened PhysicalMemory
  import opened PageSteps
  import opened Pmap
  import opened AddressSpaces
  import EntryFlags

  datatype Access = Load | StoreTo | Fetch

  datatype Walk = Translated(page: nat) | PageFault

  // Address translation, section 4.3.2 of the RISC-V Privileged Architecture, for a
  // U-mode access.  Superpages do not occur below ULIM: a directory word with R or X
  // set would be one, and is reported as a fault here.
  function Sv32Walk(s: Phys, q: nat, va: nat, access: Access): Walk {
    var d := Word(s, q, va / 0x40_0000 % NPTE);
    if d.bits & PTE_V == 0 || (d.bits & PTE_R == 0 && d.bits & PTE_W != 0) then PageFault
    else if d.bits & PTE_R != 0 || d.bits & PTE_X != 0 then PageFault
    else
      var e := Word(s, d.ppn, va / BY2PG % NPTE);
      if e.bits & PTE_V == 0 || (e.bits & PTE_R == 0 && e.bits & PTE_W != 0) then PageFault
      else if e.bits & PTE_R == 0 && e.bits & PTE_X == 0 then PageFault
      else if e.bits & PTE_U == 0 then PageFault
      else if access == Load && e.bits & PTE_R == 0 then PageFault
      else if access == StoreTo && e.bits & PTE_W == 0 then PageFault
      else if access == Fetch && e.bits & PTE_X == 0 then PageFault
      else if e.bits & PTE_A == 0 || (access == StoreTo && e.bits & PTE_D == 0) then PageFault
      else Translated(e.ppn)
  }

  // query_vpt: the word a load from `badvaddr` in [UVPT, ULIM) yields; None for its panic.
  function QueryVpt(s: Phys, q: nat, badvaddr: nat): Option<Pte> {
    var va := badvaddr * 1024 % WORD;
    if UVPT <= va < ULIM then Some(Word(s, q, va / BY2PG % NPTE))
    else if va < UVPT then
      var t := TableOf(s, q, Vpn(va));
      if t.Some? then Some(Word(s, t.value, Ptx(Vpn(va)))) else Some(ZERO)
    else None
  }

  // The windows of user/include/lib.h.
  function VptAddress(vpn: nat): nat { UVPT + 4 * vpn }

  function VpdAddress(i: nat): nat { UVPT + UVPT / 0x40_0000 * BY2PG + 4 * i }

  // A load from the window that the hardware cannot translate is a fault the kernel answers
  // with query_vpt; one that it can translate returns the word of the page mapped there.
  function WindowLoad(s: Phys, q: nat, addr: nat): Option<Pte> {
    match Sv32Walk(s, q, addr, Load)
    case Translated(p) => Some(Word(s, p, addr / 4 % NPTE))
    case PageFault => QueryVpt(s, q, addr)
  }

  // vpt[vpn] is valid exactly where page_lookup finds a page, and is then its entry.
  predicate Agrees(s: Phys, q: nat, vpn: nat) {
    match WindowLoad(s, q, VptAddress(vpn))
    case None => false
    case Some(e) => Lookup(s, q, vpn) == if Valid(e) then Some(e) else None
  }

  // The page of the window that vpt[vpn] lies in.
  function WindowPage(vpn: nat): nat { Vpn(VptAddress(vpn)) }

  lemma WindowArithmetic(vpn: nat)
    requires vpn < USER_VPNS
    ensures UVPT <= VptAddress(vpn) < ULIM && WindowPage(vpn) == UVPT_PDX * NPTE + Pdx(vpn)
    ensures VptAddress(vpn) * 1024 % WORD == vpn * BY2PG
    ensures vpn < UVPT_PDX * NPTE <==> vpn * BY2PG < UVPT
    ensures VptAddress(vpn) / 4 % NPTE == Ptx(vpn)
  {
    assert VptAddress(vpn) * 1024 == 511 * WORD + vpn * BY2PG;
  }

  // vpd is the last page of vpt.
  lemma VpdIsTheEndOfVpt(i: nat)
    requires i < NPTE
    ensures i < KSEG0_PDX ==> VpdAddress(i) == VptAddress(UVPT_PDX * NPTE + i) && WindowPage(UVPT_PDX * NPTE + i) == UVPT_PDX * NPTE + UVPT_PDX
    ensures UVPT <= VpdAddress(i) * 1024 % WORD < ULIM && VpdAddress(i) * 1024 % WORD / BY2PG % NPTE == i
    ensures UVPT <= VpdAddress(i) < ULIM && Vpn(VpdAddress(i)) == UVPT_PDX * NPTE + UVPT_PDX
  {
    assert VpdAddress(i) * 1024 == 511 * WORD + UVPT + i * BY2PG;
  }

  // What query_vpt answers: the table's word below the window, the directory word inside it.
  lemma QueryReads(s: Phys, q: nat, vpn: nat)
    requires vpn < USER_VPNS
    ensures vpn < UVPT_PDX * NPTE ==>
      (QueryVpt(s, q, VptAddress(vpn)).Some? &&
       (var e := QueryVpt(s, q, VptAddress(vpn)).value; Lookup(s, q, vpn) == if Valid(e) then Some(e) else None))
    ensures vpn >= UVPT_PDX * NPTE ==> QueryVpt(s, q, VptAddress(vpn)) == Some(Word(s, q, vpn % NPTE))
  {
    WindowArithmetic(vpn);
    assert Vpn(vpn * BY2PG) == vpn;
  }

  lemma DirectoryWord(s: Phys, q: nat, vpn: nat)
    requires Inv(s) && IsHolder(s, q) && vpn < USER_VPNS && TableOf(s, q, vpn).Some?
    ensures Word(s, q, Pdx(vpn)).bits == PTE_V
  {
    if Owns(s, q, Pdx(vpn)) {
      TableOwner(s, q, vpn);
    } else if q in s.dirs {
      TableOwner(s, s.base.page, vpn);
    }
  }

  // The hardware and page_lookup agree on every user address: a mapped user page is
  // translated to the same page, loads always succeed, and a store faults exactly when
  // the entry is not writable (exception_handler's routing to user_mod).
  lemma HardwareWalkAgrees(s: Phys, q: nat, va: nat)
    requires Inv(s) && q in s.dirs && va < ULIM
    ensures Sv32Walk(s, q, va, Load) == match Lookup(s, q, Vpn(va)) case None => PageFault case Some(e) => Translated(e.ppn)
    ensures Sv32Walk(s, q, va, StoreTo) == match Lookup(s, q, Vpn(va)) case None => PageFault case Some(e) =>
        if Writable(e) then Translated(e.ppn) else PageFault
    ensures Sv32Walk(s, q, va, Fetch) == match Lookup(s, q, Vpn(va)) case None => PageFault case Some(e) =>
        if e.bits & PTE_X != 0 then Translated(e.ppn) else PageFault
  {
    VpnOf(va);
    assert IsHolder(s, q);
    if TableOf(s, q, Vpn(va)).Some? {
      WalkedTable(s, q, Vpn(va));
      DirectoryWord(s, q, Vpn(va));
    }
    if Lookup(s, q, Vpn(va)).Some? {
      LookedUp(s, q, Vpn(va));
    }
  }

  // What user code may do at an address whose entry page_insert has made for page p and perm.
  ghost predicate Allows(s: Phys, q: nat, va: nat, p: nat, perm: Bits) {
    && Sv32Walk(s, q, va, Load) == Translated(p)
    && Sv32Walk(s, q, va, StoreTo) == (if perm & PTE_W != 0 then Translated(p) else PageFault)
    && Sv32Walk(s, q, va, Fetch) == (if perm & PTE_X != 0 then Translated(p) else PageFault)
  }

  lemma EntryAllows(s: Phys, q: nat, va: nat, p: nat, perm: Bits)
    requires Inv(s) && q in s.dirs && va < ULIM && Lookup(s, q, Vpn(va)) == Some(Pte(p, LeafBits(perm)))
    ensures Allows(s, q, va, p, perm)
  {
    EntryFlags.LeafBitsExactly(perm, LeafBits(perm));
    HardwareWalkAgrees(s, q, va);
  }

  // page_insert as user code meets it: at every address of the page, exactly the accesses that
  // perm grants.
  method InsertedPageAllows(pm: PageMap, q: nat, p: nat, vpn: nat, perm: Bits) returns (err: Error)
    requires Inv(pm.State()) && q in pm.dirs && vpn < USER_VPNS && Owns(pm.State(), q, Pdx(vpn))
    requires Mappable(pm.State(), p) && ForUser(perm)
    modifies pm, pm.pageRefs, pm.memory
    ensures Inv(pm.State()) && (err == OK <==> old(TableOf(pm.State(), q, vpn)).Some? || old(pm.freeList) != [])
    ensures err == OK ==> forall va: nat :: va < ULIM && Vpn(va) == vpn ==> Allows(pm.State(), q, va, p, perm)
  {
    ghost var s := pm.State();
    assert IsHolder(s, q);
    err := pm.PageInsert(q, p, vpn, perm);
    if err == OK {
      forall va: nat | va < ULIM && Vpn(va) == vpn ensures Allows(pm.State(), q, va, p, perm) {
        EntryAllows(pm.State(), q, va, p, perm);
      }
    }
  }

  lemma HardwareLoad(s: Phys, q: nat, va: nat)
    requires Inv(s) && q in s.dirs && va < ULIM
    ensures Sv32Walk(s, q, va, Load) == match Lookup(s, q, Vpn(va)) case None => PageFault case Some(e) => Translated(e.ppn)
  {
    HardwareWalkAgrees(s, q, va);
  }

  // While its page of the window is not mapped, vpd[i] is the directory word.
  lemma VpdReadsTheDirectory(s: Phys, q: nat, i: nat)
    requires Inv(s) && q in s.dirs && i < NPTE && Lookup(s, q, UVPT_PDX * NPTE + UVPT_PDX) == None
    ensures WindowLoad(s, q, VpdAddress(i)) == Some(Word(s, q, i))
  {
    VpdIsTheEndOfVpt(i);
    HardwareLoad(s, q, VpdAddress(i));
  }

  // ---- exactly when vpt agrees with page_lookup ----

  // The same directories and tables over any contents of the other pages.
  ghost predicate Rewritten(s: Phys, s': Phys) {
    && s' == s.(frames := s'.frames) && |s'.frames| == |s.frames|
    && (forall p: nat :: p < |s.frames| ==> |s'.frames[p]| == NPTE)
    && (forall p: nat :: p < |s.frames| && (IsHolder(s, p) || p in s.tables) ==> s'.frames[p] == s.frames[p])
  }

  lemma RewrittenLookups(s: Phys, s': Phys, q: nat, v: nat)
    requires Inv(s) && Rewritten(s, s') && q in s.dirs && v < USER_VPNS
    ensures Lookup(s', q, v) == Lookup(s, q, v) && Word(s', q, v % NPTE) == Word(s, q, v % NPTE)
  {
    assert IsHolder(s, q);
    assert Word(s', q, Pdx(v)) == Word(s, q, Pdx(v));
    if TableOf(s, q, v).Some? { WalkedTable(s, q, v); }
  }

  lemma RewrittenKeeps(s: Phys, s': Phys)
    requires Inv(s) && Rewritten(s, s')
    ensures Inv(s')
  {
    DirectoriesKept(s, s');
    assert forall t: nat, j: nat :: t in s.tables ==> Word(s', t, j) == Word(s, t, j);
    SameWords(s, s');
    LeavesKept(s, s');
  }

  // A word of a directory is never a leaf entry: below the kernel it has no flag but PTE_V,
  // above it PTE_U is off.
  lemma DirectoryWordIsNoLeaf(s: Phys, q: nat, i: nat)
    requires Inv(s) && q in s.dirs && i < NPTE
    ensures !IsLeaf(Word(s, q, i))
  {
    assert IsHolder(s, q);
    if i < KSEG0_PDX && Valid(Word(s, q, i)) {
      assert Pdx(i * NPTE) == i;
      DirectoryWord(s, q, i * NPTE);
    }
  }

  // No page is mapped where vpt[vpn] lies, and vpn is below the window, or neither a page is
  // mapped at vpn nor the directory word that vpt[vpn] then is valid.
  predicate WindowShowsTables(s: Phys, q: nat, vpn: nat) {
    && Lookup(s, q, WindowPage(vpn)) == None
    && (vpn < UVPT_PDX * NPTE || (!Valid(Word(s, q, vpn % NPTE)) && Lookup(s, q, vpn) == None))
  }

  lemma AgreesWhileUnmapped(s: Phys, q: nat, vpn: nat)
    requires Inv(s) && q in s.dirs && vpn < USER_VPNS && Lookup(s, q, WindowPage(vpn)) == None
    ensures Agrees(s, q, vpn) <==> WindowShowsTables(s, q, vpn)
  {
    WindowArithmetic(vpn);
    HardwareLoad(s, q, VptAddress(vpn));
    QueryReads(s, q, vpn);
    if vpn >= UVPT_PDX * NPTE {
      assert IsHolder(s, q);
      DirectoryWordIsNoLeaf(s, q, vpn % NPTE);
      if Lookup(s, q, vpn).Some? { LookedUp(s, q, vpn); }
    }
  }

  // Once the page is mapped, vpt[vpn] is whatever that page holds.
  lemma MappedWindowCanLie(s: Phys, q: nat, vpn: nat) returns (s': Phys)
    requires Inv(s) && q in s.dirs && vpn < USER_VPNS && Lookup(s, q, WindowPage(vpn)).Some?
    ensures Rewritten(s, s') && !Agrees(s', q, vpn)
  {
    WindowArithmetic(vpn);
    assert IsHolder(s, q);
    LookedUp(s, q, WindowPage(vpn));
    var p := Lookup(s, q, WindowPage(vpn)).value.ppn;
    var lie := if Lookup(s, q, vpn) == None then Pte(0, PTE_V) else ZERO;
    s' := s.(frames := s.frames[p := s.frames[p][Ptx(vpn) := lie]]);
    RewrittenKeeps(s, s');
    RewrittenLookups(s, s', q, vpn);
    RewrittenLookups(s, s', q, WindowPage(vpn));
    HardwareLoad(s', q, VptAddress(vpn));
    assert Word(s', p, Ptx(vpn)) == lie;
  }

  // For every user page, whatever the pages of the environment hold, vpt and page_lookup agree
  // exactly under that condition.
  lemma WindowReadsTheTables(s: Phys, q: nat, vpn: nat)
    requires Inv(s) && q in s.dirs && vpn < USER_VPNS
    ensures (forall s' :: Rewritten(s, s') ==> Agrees(s', q, vpn)) <==> WindowShowsTables(s, q, vpn)
  {
    WindowArithmetic(vpn);
    if Lookup(s, q, WindowPage(vpn)) == None {
      assert Rewritten(s, s);
      AgreesWhileUnmapped(s, q, vpn);
      forall s' | Rewritten(s, s') ensures Agrees(s', q, vpn) <==> WindowShowsTables(s, q, vpn) {
        RewrittenKeeps(s, s');
        RewrittenLookups(s, s', q, vpn);
        RewrittenLookups(s, s', q, WindowPage(vpn));
        AgreesWhileUnmapped(s', q, vpn);
      }
    } else {
      var s' := MappedWindowCanLie(s, q, vpn);
    }
  }

  // The two failing inputs.  In every environment that maps a page and never stored into the
  // window, vpt shows a page inside the window that page_lookup does not find.
  lemma VptShowsAPageThatIsNone(s: Phys, q: nat, v: nat)
    requires Inv(s) && q in s.dirs && v < USER_VPNS && Lookup(s, q, v).Some? && !Valid(Word(s, q, UVPT_PDX))
    ensures WindowLoad(s, q, VptAddress(UVPT_PDX * NPTE + Pdx(v))) == Some(Word(s, q, Pdx(v)))
    ensures Valid(Word(s, q, Pdx(v))) && Lookup(s, q, UVPT_PDX * NPTE + Pdx(v)) == None
  {
    var vpn := UVPT_PDX * NPTE + Pdx(v);
    assert Pdx(v) < KSEG0_PDX;
    WindowArithmetic(vpn);
    assert Pdx(vpn) == UVPT_PDX && Pdx(WindowPage(vpn)) == UVPT_PDX && vpn % NPTE == Pdx(v);
    HardwareLoad(s, q, VptAddress(vpn));
    QueryReads(s, q, vpn);
  }

  // And after a store into the window that happens to address vpt[vpn], a page mapped at vpn is
  // shown as absent: the load now returns the zeros of the page the store brought in.
  method WindowStoreHidesAPage(pm: PageMap, q: nat, vpn: nat)
    requires Inv(pm.State()) && q in pm.dirs && vpn < UVPT_PDX * NPTE && Lookup(pm.State(), q, vpn).Some?
    requires Lookup(pm.State(), q, WindowPage(vpn)) == None && |pm.freeList| >= 2
    modifies pm, pm.pageRefs, pm.memory
    ensures Inv(pm.State()) && q in pm.dirs && Lookup(pm.State(), q, vpn) == old(Lookup(pm.State(), q, vpn))
    ensures WindowLoad(pm.State(), q, VptAddress(vpn)) == Some(ZERO)
  {
    WindowArithmetic(vpn);
    ghost var s := pm.State();
    assert IsHolder(s, q);
    var _ := DoTlbRefill(pm, VptAddress(vpn), q);
    HardwareLoad(pm.State(), q, VptAddress(vpn));
    assert Lookup(pm.State(), q, WindowPage(vpn)).Some?;
    assert Word(pm.State(), s.free[0], Ptx(vpn)) == ZERO;
  }
}
