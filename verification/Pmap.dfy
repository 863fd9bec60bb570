// kern/pmap.c: physical page management and page tables, updated in place.
module Pmap {
  import opened Sv32
  import opened PhysicalMemory
  import opened PageSteps

  datatype Error = OK | E_INVAL | E_BAD_ENV | E_NO_MEM

  datatype Fault = Resumed | Panic

  // Memory with the kernel's pages counted once and every other page on the free list.
  lemma Booted(s: Phys)
    requires |s.frames| == |s.refs| && s.boot <= |s.refs| && forall p :: 0 <= p < |s.frames| ==> |s.frames[p]| == NPTE
    requires s.refs == seq(|s.refs|, p => if p < s.boot then 1 else 0)
    requires s.free == seq(|s.refs| - s.boot, k => |s.refs| - 1 - k)
    requires s.base == NoBase && s.dirs == {} && s.tables == map[] && s.loose == {}
    ensures Inv(s)
  {
    assert forall p: nat :: LeafEntries(s, p) == {};
    assert FreeListExact(s) by {
      forall p: nat | s.boot <= p < |s.refs| ensures p in s.free {
        assert s.free[|s.refs| - 1 - p] == p;
      }
    }
  }

  // Replacing an entry: it goes, and the new one comes.
  lemma InsertComposes(s: Phys, m: Phys, s': Phys, q: nat, vpn: nat, r: Option<Pte>)
    requires OnlyEntry(s, m, q, vpn, None) && OnlyEntry(m, s', q, vpn, r) && ContentsKept(s, m) && ContentsKept(m, s')
    ensures OnlyEntry(s, s', q, vpn, r) && ContentsKept(s, s')
  {
    OnlyEntryComposes(s, m, m, s', q, vpn, r);
  }

  // struct Page pages[], page_free_list and the memory the pages hold.
  class PageMap {
    const pageRefs: array<nat>     // pages[i].pp_ref
    const memory: array<Frame>
    var freeList: seq<nat>         // page_free_list, head first
    var base: Base                 // base_pgdir
    ghost const boot: nat
    ghost var dirs: set<nat>
    ghost var tables: map<nat, Owner>
    ghost var loose: set<nat>

    ghost function State(): Phys
      reads this, pageRefs, memory
    {
      Phys(pageRefs[..], memory[..], freeList, boot, base, dirs, tables, loose)
    }

    // page_init.  `ram` is whatever memory holds; pages below `used` are the kernel's.
    constructor PageInit(ram: seq<Frame>, used: nat)
      requires used <= |ram| && forall p :: 0 <= p < |ram| ==> |ram[p]| == NPTE
      ensures Inv(State()) && fresh(pageRefs) && fresh(memory)
      ensures pageRefs[..] == seq(|ram|, p => if p < used then 1 else 0) && memory[..] == ram && boot == used
      ensures freeList == seq(|ram| - used, k => |ram| - 1 - k)
      ensures base == NoBase && dirs == {} && tables == map[] && loose == {}
    {
      pageRefs := new nat[|ram|](_ => 0);
      memory := new Frame[|ram|](p requires 0 <= p < |ram| => ram[p]);
      freeList := [];
      base := NoBase;
      boot := used;
      dirs, tables, loose := {}, map[], {};
      new;
      for i := 0 to used
        invariant freeList == [] && memory[..] == ram && base == NoBase
        invariant dirs == {} && tables == map[] && loose == {}
        invariant forall p :: 0 <= p < |ram| ==> pageRefs[p] == if p < i then 1 else 0
      {
        pageRefs[i] := 1;
      }
      for i := used to |ram|
        invariant memory[..] == ram && base == NoBase
        invariant dirs == {} && tables == map[] && loose == {}
        invariant forall p :: 0 <= p < |ram| ==> pageRefs[p] == if p < used then 1 else 0
        invariant freeList == seq(i - used, k => i - 1 - k)
      {
        freeList := [i] + freeList;
      }
      Booted(State());
    }

    method PageAlloc() returns (pp: Option<nat>)
      requires Inv(State())
      modifies this, memory
      ensures old(freeList) == [] ==> pp == None && State() == old(State())
      ensures old(freeList) != [] ==> pp == Some(old(freeList)[0]) && old(freeList)[0] < |old(State()).frames|
                                      && State() == Alloc(old(State()))
      ensures Inv(State()) && SameLookups(old(State()), State())
    {
      if freeList == [] {
        return None;
      }
      AllocKeeps(State());
      AllocLookups(State());
      ghost var was := State();
      var p := freeList[0];
      freeList := freeList[1..];
      memory[p] := seq(NPTE, i => ZERO);
      loose := loose + {p};
      assert State() == Alloc(was);
      return Some(p);
    }

    method PageFree(pp: nat)
      requires pp < pageRefs.Length && pageRefs[pp] == 0
      modifies `freeList
      ensures freeList == [pp] + old(freeList)
    {
      freeList := [pp] + freeList;
    }

    method PageDecref(pp: nat)
      requires pp < pageRefs.Length && pageRefs[pp] > 0
      modifies `freeList, pageRefs
      ensures State() == Decref(old(State()), pp)
    {
      pageRefs[pp] := pageRefs[pp] - 1;
      if pageRefs[pp] == 0 {
        PageFree(pp);
      }
    }

    method CreateTable(q: nat, i: nat) returns (err: Error)
      requires Inv(State()) && i < NPTE && Owns(State(), q, i) && !Valid(Word(State(), q, i)) && (IsBase(State(), q) ==> dirs == {})
      modifies this, pageRefs, memory
      ensures err == if old(freeList) == [] then E_NO_MEM else OK
      ensures err != OK ==> State() == old(State())
      ensures err == OK ==> TableCreated(old(State()), State(), q, i)
      ensures Inv(State()) && SameLookups(old(State()), State()) && loose == old(loose)
      ensures ContentsKept(old(State()), State()) && forall p: nat :: Mappable(old(State()), p) ==> Mappable(State(), p)
    {
      ghost var s := State();
      if freeList != [] {
        CreateTableKeeps(s, q, i);
      }
      var pp := PageAlloc();
      if pp == None {
        return E_NO_MEM;
      }
      pageRefs[pp.value] := 1;
      memory[q] := memory[q][i := Pte(pp.value, PTE_V)];
      tables := tables[pp.value := At(q, i)];
      loose := loose - {pp.value};
      assert State() == AddTable(Alloc(s), q, i, pp.value);
      return OK;
    }

    // Returns the page table for `vpn`; its word Ptx(vpn) is the entry.
    method PgdirWalk(q: nat, vpn: nat, create: bool) returns (err: Error, table: Option<nat>)
      requires Inv(State()) && IsHolder(State(), q) && vpn < USER_VPNS
      requires create ==> Owns(State(), q, Pdx(vpn)) && (IsBase(State(), q) ==> dirs == {})
      modifies if create then {this, pageRefs, memory} else {}
      ensures err == if old(TableOf(State(), q, vpn)) == None && create && old(freeList) == [] then E_NO_MEM else OK
      ensures old(TableOf(State(), q, vpn)).Some? || !create || err != OK ==> State() == old(State())
      ensures err == OK ==> table == TableOf(State(), q, vpn) && (create ==> table.Some?)
      ensures old(TableOf(State(), q, vpn)) == None && create && err == OK ==> TableCreated(old(State()), State(), q, Pdx(vpn))
      ensures Inv(State()) && SameLookups(old(State()), State()) && loose == old(loose)
      ensures ContentsKept(old(State()), State()) && forall p: nat :: Mappable(old(State()), p) ==> Mappable(State(), p)
    {
      var i := Pdx(vpn);
      if memory[q][i].bits & PTE_V == 0 {
        if create {
          err := CreateTable(q, i);
          if err != OK {
            return err, None;
          }
        } else {
          return OK, None;
        }
      }
      return OK, Some(memory[q][i].ppn);
    }

    // pages_lookup and the entry it found.
    method PageLookup(q: nat, vpn: nat) returns (pte: Option<Pte>)
      requires Inv(State()) && IsHolder(State(), q) && vpn < USER_VPNS
      ensures pte == Lookup(State(), q, vpn)
    {
      var _, table := PgdirWalk(q, vpn, false);
      if table == None {
        return None;
      }
      WalkedTable(State(), q, vpn);
      var e := memory[table.value][Ptx(vpn)];
      if e.bits & PTE_V == 0 {
        return None;
      }
      return Some(e);
    }

    // The entry's page loses a reference, and the entry is cleared.
    method ClearEntry(t: nat, j: nat, p: nat)
      requires t < memory.Length && j < |memory[t]| && memory[t][j].ppn == p && p < pageRefs.Length && pageRefs[p] > 0
      modifies `freeList, pageRefs, memory
      ensures State() == Unmap(old(State()), t, j)
    {
      ghost var s := State();
      PageDecref(p);
      memory[t] := memory[t][j := ZERO];
      assert State() == Unmap(s, t, j);
    }

    method PageRemove(q: nat, vpn: nat)
      requires Inv(State()) && vpn < USER_VPNS && Owns(State(), q, Pdx(vpn)) && (IsBase(State(), q) ==> dirs == {})
      modifies this, pageRefs, memory
      ensures ContentsKept(old(State()), State())
      ensures Inv(State()) && OnlyEntry(old(State()), State(), q, vpn, None) && TableOf(State(), q, vpn) == old(TableOf(State(), q, vpn))
      ensures old(Lookup(State(), q, vpn)) == None ==> State() == old(State())
      ensures loose == old(loose) && tables == old(tables)
      ensures old(Lookup(State(), q, vpn)).Some? ==>
        (var p := old(Lookup(State(), q, vpn)).value.ppn;
         p < pageRefs.Length && 0 < old(pageRefs[p]) && pageRefs[..] == old(pageRefs[..])[p := old(pageRefs[p]) - 1] &&
         freeList == if old(pageRefs[p]) == 1 then [p] + old(freeList) else old(freeList))
      ensures forall t: nat :: t < memory.Length && old(TableOf(State(), q, vpn)) != Some(t) ==> memory[t] == old(memory[t])
    {
      ghost var s := State();
      assert IsHolder(s, q);
      var pte := PageLookup(q, vpn);
      if pte == None {
        return;
      }
      UnmapAt(s, q, vpn);
      var pt := memory[q][Pdx(vpn)].ppn;
      ClearEntry(pt, Ptx(vpn), pte.value.ppn);
      assert State() == Unmap(s, TableOf(s, q, vpn).value, Ptx(vpn));
    }

    // The two ways page_insert writes the entry: over the same page, or over nothing.
    method ReplaceFlags(q: nat, vpn: nat, table: nat, perm: Bits)
      requires Inv(State()) && vpn < USER_VPNS && Owns(State(), q, Pdx(vpn)) && (IsBase(State(), q) ==> dirs == {})
      requires Lookup(State(), q, vpn).Some? && TableOf(State(), q, vpn) == Some(table)
      requires ForUser(perm)
      modifies memory
      ensures Inv(State()) && pageRefs[..] == old(pageRefs[..]) && old(Lookup(State(), q, vpn)).value.ppn !in loose
      ensures OnlyEntry(old(State()), State(), q, vpn, Some(Pte(old(Lookup(State(), q, vpn)).value.ppn, LeafBits(perm))))
      ensures ContentsKept(old(State()), State())
    {
      ghost var s := State();
      ghost var e := Pte(Lookup(s, q, vpn).value.ppn, LeafBits(perm));
      LeafBitsAreLeaf(e.ppn, perm);
      RemapAt(s, q, vpn, e);
      memory[table] := memory[table][Ptx(vpn) := Pte(memory[table][Ptx(vpn)].ppn, LeafBits(perm))];
      assert State() == s.(frames := Store(s, table, Ptx(vpn), e));
    }

    method AddReference(q: nat, vpn: nat, table: nat, pp: nat, perm: Bits)
      requires Inv(State()) && vpn < USER_VPNS && Owns(State(), q, Pdx(vpn)) && (IsBase(State(), q) ==> dirs == {})
      requires Lookup(State(), q, vpn) == None && TableOf(State(), q, vpn) == Some(table) && Mappable(State(), pp)
      requires ForUser(perm)
      modifies `loose, pageRefs, memory
      ensures Inv(State()) && pageRefs[..] == old(pageRefs[..])[pp := old(pageRefs[pp]) + 1] && loose == old(loose) - {pp}
      ensures OnlyEntry(old(State()), State(), q, vpn, Some(Pte(pp, LeafBits(perm)))) && ContentsKept(old(State()), State())
    {
      ghost var s := State();
      LeafBitsAreLeaf(pp, perm);
      MapAt(s, q, vpn, Pte(pp, LeafBits(perm)));
      pageRefs[pp] := pageRefs[pp] + 1;
      loose := loose - {pp};
      memory[table] := memory[table][Ptx(vpn) := Pte(pp, LeafBits(perm))];
      assert State() == Map(s, table, Ptx(vpn), Pte(pp, LeafBits(perm)));
    }

    // page_insert's first half: an entry for another page is released.
    method ReleaseOther(q: nat, pp: nat, vpn: nat) returns (same: bool)
      requires Inv(State()) && vpn < USER_VPNS && Owns(State(), q, Pdx(vpn)) && (IsBase(State(), q) ==> dirs == {})
      requires Mappable(State(), pp)
      modifies this, pageRefs, memory
      ensures Inv(State()) && Mappable(State(), pp) && loose == old(loose) && ContentsKept(old(State()), State())
      ensures TableOf(State(), q, vpn) == old(TableOf(State(), q, vpn))
      ensures same <==> old(Lookup(State(), q, vpn)).Some? && old(Lookup(State(), q, vpn)).value.ppn == pp
      ensures same || old(TableOf(State(), q, vpn)) == None ==> State() == old(State())
      ensures !same ==> OnlyEntry(old(State()), State(), q, vpn, None) && Lookup(State(), q, vpn) == None
    {
      assert IsHolder(State(), q);
      var pte := PageLookup(q, vpn);
      if pte.Some? && pte.value.ppn != pp {
        PageRemove(q, vpn);
      }
      same := pte.Some? && pte.value.ppn == pp;
    }

    // ... and its second half: the table is found or made, and the entry written.
    method InsertEntry(q: nat, pp: nat, vpn: nat, perm: Bits) returns (err: Error)
      requires Inv(State()) && vpn < USER_VPNS && Owns(State(), q, Pdx(vpn)) && (IsBase(State(), q) ==> dirs == {})
      requires Mappable(State(), pp) && Lookup(State(), q, vpn) == None
      requires ForUser(perm)
      modifies this, pageRefs, memory
      ensures err == if old(TableOf(State(), q, vpn)) == None && old(freeList) == [] then E_NO_MEM else OK
      ensures err != OK ==> State() == old(State())
      ensures Inv(State()) && ContentsKept(old(State()), State())
      ensures err == OK ==> OnlyEntry(old(State()), State(), q, vpn, Some(Pte(pp, LeafBits(perm)))) && loose == old(loose) - {pp}
    {
      ghost var m := State();
      assert IsHolder(m, q);
      var e, table := PgdirWalk(q, vpn, true);
      if e != OK {
        return e;
      }
      ghost var w := State();
      AddReference(q, vpn, table.value, pp, perm);
      OnlyEntryComposes(m, m, w, State(), q, vpn, Some(Pte(pp, LeafBits(perm))));
      return OK;
    }

    method PageInsert(q: nat, pp: nat, vpn: nat, perm: Bits) returns (err: Error)
      requires Inv(State()) && vpn < USER_VPNS && Owns(State(), q, Pdx(vpn)) && (IsBase(State(), q) ==> dirs == {})
      requires Mappable(State(), pp)
      requires ForUser(perm)
      modifies this, pageRefs, memory
      ensures err == if old(TableOf(State(), q, vpn)) == None && old(freeList) == [] then E_NO_MEM else OK
      ensures err != OK ==> State() == old(State())
      ensures Inv(State()) && ContentsKept(old(State()), State())
      ensures err == OK ==> OnlyEntry(old(State()), State(), q, vpn, Some(Pte(pp, LeafBits(perm)))) && loose == old(loose) - {pp}
    {
      ghost var s := State();
      assert IsHolder(s, q);
      var same := ReleaseOther(q, pp, vpn);
      if same {
        ReplaceFlags(q, vpn, memory[q][Pdx(vpn)].ppn, perm);
        return OK;
      }
      ghost var m := State();
      err := InsertEntry(q, pp, vpn, perm);
      if err == OK {
        InsertComposes(s, m, State(), q, vpn, Some(Pte(pp, LeafBits(perm))));
      }
    }
  }
}
