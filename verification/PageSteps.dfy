// The writes the kernel makes to page tables and reference counts, one at a time,
// and what each keeps.  pmap.c and env.c are sequences of these steps.
module PageSteps {
  import opened Sv32
  import opened PhysicalMemory

  function ZeroFrame(): Frame { seq(NPTE, i => ZERO) }

  // A step that leaves the directories and the counts of directories and tables alone.
  ghost predicate DirsUntouched(s: Phys, s': Phys) {
    && s'.dirs == s.dirs && s'.base == s.base && s'.boot == s.boot && s'.tables == s.tables
    && |s'.refs| == |s.refs| && |s'.frames| == |s.frames|
    && (forall q: nat :: IsHolder(s, q) && q < |s.frames| ==> s'.frames[q] == s.frames[q])
    && (forall p: nat :: p < |s.refs| && (IsHolder(s, p) || p in s.tables) ==> s'.refs[p] == s.refs[p])
  }

  lemma DirectoriesKept(s: Phys, s': Phys)
    requires Inv(s) && DirsUntouched(s, s')
    ensures HoldersOk(s') && TablesOk(s') && TemplateOk(s')
    ensures forall q: nat, v: nat :: IsHolder(s, q) ==> TableOf(s', q, v) == TableOf(s, q, v)
  {
    assert forall q: nat :: IsHolder(s', q) <==> IsHolder(s, q);
    assert forall q: nat, i: nat :: Owns(s', q, i) <==> Owns(s, q, i);
    assert forall q: nat, i: nat :: Owns(s', q, i) ==> IsHolder(s, q);
    assert forall q: nat, i: nat :: IsHolder(s, q) ==> Word(s', q, i) == Word(s, q, i);
  }

  // The leaf counts move with the reference counts.
  lemma LeavesKept(s: Phys, s': Phys)
    requires Inv(s) && DirsUntouched(s, s')
    requires forall t: nat, j: nat :: t in s.tables && j < NPTE && Valid(Word(s', t, j)) ==>
      Word(s', t, j).ppn < |s.refs| && IsLeaf(Word(s', t, j)) && !IsHolder(s, Word(s', t, j).ppn) && Word(s', t, j).ppn !in s.tables
    requires forall p: nat :: p < |s.refs| && !IsHolder(s, p) && p !in s.tables ==>
      s'.refs[p] - |LeafEntries(s', p)| == s.refs[p] - |LeafEntries(s, p)|
    ensures LeavesOk(s')
  {
  }

  lemma SameWordsElsewhere(s: Phys, s': Phys, p: nat)
    requires |s'.frames| == |s.frames| && forall t: nat :: t < |s.frames| && t != p ==> s'.frames[t] == s.frames[t]
    ensures forall t: nat, j: nat :: t != p ==> Word(s', t, j) == Word(s, t, j)
  {
  }

  // page_alloc: the head of the free list, zeroed, referred to by nothing yet.
  function Alloc(s: Phys): Phys
    requires s.free != []
  {
    var p := s.free[0];
    s.(free := s.free[1..], frames := if p < |s.frames| then s.frames[p := ZeroFrame()] else s.frames, loose := s.loose + {p})
  }

  lemma AllocKeeps(s: Phys)
    requires Inv(s) && s.free != []
    ensures s.free[0] in s.free && s.free[0] < |s.frames|
    ensures Inv(Alloc(s))
  {
    assert s.free[0] in s.free;
    var s' := Alloc(s);
    SameWordsElsewhere(s, s', s.free[0]);
    DirectoriesKept(s, s');
    SameWords(s, s');
    LeavesKept(s, s');
    assert FreeListExact(s') by {
      assert forall p: nat :: p in s.free <==> p == s.free[0] || p in s'.free;
    }
  }

  // Every table reached from a directory is one of the tables.
  lemma WalkedTable(s: Phys, q: nat, v: nat)
    requires Inv(s) && IsHolder(s, q) && v < USER_VPNS && TableOf(s, q, v).Some?
    ensures TableOf(s, q, v).value in s.tables && !IsHolder(s, TableOf(s, q, v).value)
  {
    if Owns(s, q, Pdx(v)) {
      TableOwner(s, q, v);
    } else if q in s.dirs {
      TableOwner(s, s.base.page, v);
    }
  }

  lemma AllocLookups(s: Phys)
    requires Inv(s) && s.free != [] && s.free[0] < |s.frames|
    ensures SameLookups(s, Alloc(s))
  {
    assert s.free[0] in s.free;
    var s' := Alloc(s);
    SameWordsElsewhere(s, s', s.free[0]);
    forall q: nat, v: nat | IsHolder(s, q) && v < USER_VPNS ensures Lookup(s', q, v) == Lookup(s, q, v) {
      if TableOf(s, q, v).Some? {
        WalkedTable(s, q, v);
      }
    }
  }

  function Hit(e: Pte, p: nat): nat { if Valid(e) && e.ppn == p then 1 else 0 }

  lemma CountAfterStore(s: Phys, s': Phys, t: nat, j: nat, e: Pte, p: nat)
    requires t in s.tables && t < |s.frames| && |s.frames[t]| == NPTE && j < NPTE
    requires s'.tables == s.tables && s'.frames == Store(s, t, j, e)
    ensures |LeafEntries(s', p)| == |LeafEntries(s, p)| - Hit(Word(s, t, j), p) + Hit(e, p)
  {
    EntriesAfterStore(s, s', t, j, e);
    assert (t, j) in LeafEntries(s, p) <==> Hit(Word(s, t, j), p) == 1;
  }

  // Writing one table word keeps the structure if the counts follow it.
  lemma StoreKeeps(s: Phys, s': Phys, t: nat, j: nat, e: Pte)
    requires Inv(s) && DirsUntouched(s, s') && t in s.tables && j < NPTE && s'.frames == Store(s, t, j, e)
    requires Valid(e) ==> IsLeaf(e) && e.ppn < |s.refs| && !IsHolder(s, e.ppn) && e.ppn !in s.tables
    requires forall p: nat :: p < |s.refs| && !IsHolder(s, p) && p !in s.tables ==>
      s'.refs[p] == s.refs[p] - Hit(Word(s, t, j), p) + Hit(e, p)
    ensures HoldersOk(s') && TablesOk(s') && TemplateOk(s') && LeavesOk(s')
  {
    DirectoriesKept(s, s');
    WordAfterStore(s, s', t, j, e);
    forall p: nat ensures |LeafEntries(s', p)| == |LeafEntries(s, p)| - Hit(Word(s, t, j), p) + Hit(e, p) {
      CountAfterStore(s, s', t, j, e, p);
    }
    LeavesKept(s, s');
  }

  // A reference to page e.ppn appears: word j of table t becomes e.
  function Map(s: Phys, t: nat, j: nat, e: Pte): Phys
    requires t < |s.frames| && j < |s.frames[t]| && e.ppn < |s.refs|
  {
    s.(refs := s.refs[e.ppn := s.refs[e.ppn] + 1], frames := Store(s, t, j, e), loose := s.loose - {e.ppn})
  }

  // A page that can be mapped: handed out, and neither a table nor a directory.
  predicate Mappable(s: Phys, p: nat) {
    p < |s.refs| && p !in s.free && !IsHolder(s, p) && p !in s.tables
  }

  // What a page holds is not touched, and no page is handed out, while it stays handed out.
  ghost predicate ContentsKept(s: Phys, s': Phys) {
    && |s'.frames| == |s.frames|
    && forall p: nat :: Mappable(s', p) && p < |s.frames| ==> Mappable(s, p) && s'.frames[p] == s.frames[p]
  }

  lemma MapKeeps(s: Phys, t: nat, j: nat, e: Pte)
    requires Inv(s) && t in s.tables && j < NPTE && !Valid(Word(s, t, j)) && IsLeaf(e) && Mappable(s, e.ppn)
    ensures Inv(Map(s, t, j, e))
  {
    var s' := Map(s, t, j, e);
    StoreKeeps(s, s', t, j, e);
  }

  // page_decref: the last reference returns the page to the free list.
  function Decref(s: Phys, p: nat): Phys
    requires p < |s.refs| && s.refs[p] > 0
  {
    s.(refs := s.refs[p := s.refs[p] - 1], free := if s.refs[p] == 1 then [p] + s.free else s.free)
  }

  // A reference disappears: word j of table t is cleared.
  function Unmap(s: Phys, t: nat, j: nat): Phys
    requires t < |s.frames| && j < |s.frames[t]|
    requires var p := s.frames[t][j].ppn; p < |s.refs| && s.refs[p] > 0
  {
    Decref(s, s.frames[t][j].ppn).(frames := Store(s, t, j, ZERO))
  }

  lemma MappedIsCounted(s: Phys, t: nat, j: nat)
    requires Inv(s) && t in s.tables && j < NPTE && Valid(Word(s, t, j))
    ensures var p := Word(s, t, j).ppn; p < |s.refs| && s.refs[p] > (if p < s.boot then 1 else 0) && Mappable(s, p) && p !in s.loose
  {
    var p := Word(s, t, j).ppn;
    assert (t, j) in LeafEntries(s, p);
  }

  lemma UnmapKeeps(s: Phys, t: nat, j: nat)
    requires Inv(s) && t in s.tables && j < NPTE && Valid(Word(s, t, j))
    ensures var p := Word(s, t, j).ppn; p < |s.refs| && s.refs[p] > 0
    ensures Inv(Unmap(s, t, j))
  {
    MappedIsCounted(s, t, j);
    var p := Word(s, t, j).ppn;
    var s' := Unmap(s, t, j);
    StoreKeeps(s, s', t, j, ZERO);
  }

  lemma RemapKeeps(s: Phys, t: nat, j: nat, e: Pte)
    requires Inv(s) && t in s.tables && j < NPTE && Valid(Word(s, t, j)) && IsLeaf(e) && e.ppn == Word(s, t, j).ppn
    ensures Inv(s.(frames := Store(s, t, j, e)))
  {
    MappedIsCounted(s, t, j);
    var s' := s.(frames := Store(s, t, j, e));
    StoreKeeps(s, s', t, j, e);
  }

  // ---- tables and directories come and go ----

  // pgdir_walk with create: a fresh table t behind word i of directory q.
  function AddTable(s: Phys, q: nat, i: nat, t: nat): Phys
    requires q < |s.frames| && i < |s.frames[q]| && t < |s.refs|
  {
    s.(refs := s.refs[t := 1], frames := Store(s, q, i, Pte(t, PTE_V)),
       tables := s.tables[t := At(q, i)], loose := s.loose - {t})
  }

  predicate CanAddTable(s: Phys, q: nat, i: nat, t: nat) {
    && q < |s.frames| && |s.frames[q]| == NPTE && i < NPTE && Owns(s, q, i) && !Valid(Word(s, q, i))
    && (IsBase(s, q) ==> s.dirs == {})
    && t in s.loose && s.boot <= t < |s.frames| && s.frames[t] == ZeroFrame()
  }

  lemma LooseIsNobodys(s: Phys, t: nat)
    requires Inv(s) && t in s.loose
    ensures !IsHolder(s, t) && t !in s.tables && t !in s.free
    ensures t >= s.boot ==> LeafEntries(s, t) == {}
    ensures forall t': nat, j: nat :: t' in s.tables && j < NPTE && Valid(Word(s, t', j)) ==> Word(s, t', j).ppn != t
  {
    forall t': nat, j: nat | t' in s.tables && j < NPTE && Valid(Word(s, t', j)) ensures Word(s, t', j).ppn != t {
      MappedIsCounted(s, t', j);
    }
  }

  lemma AddTableStructure(s: Phys, q: nat, i: nat, t: nat)
    requires Inv(s) && CanAddTable(s, q, i, t)
    ensures var s' := AddTable(s, q, i, t); HoldersOk(s') && TablesOk(s') && TemplateOk(s')
  {
    var s' := AddTable(s, q, i, t);
    LooseIsNobodys(s, t);
    WordAfterStore(s, s', q, i, Pte(t, PTE_V));
    assert forall q: nat :: IsHolder(s', q) <==> IsHolder(s, q);
    assert forall q: nat, i: nat :: Owns(s', q, i) <==> Owns(s, q, i);
    assert forall q: nat, i: nat :: Owns(s', q, i) ==> IsHolder(s, q);
    assert Valid(Pte(t, PTE_V));
  }

  // A page of zeros can join or leave the set of tables without changing what is mapped.
  lemma EmptyTableHasNoEntries(s: Phys, s': Phys, t: nat)
    requires s'.tables.Keys == s.tables.Keys + {t}
    requires forall j: nat :: j < NPTE ==> !Valid(Word(s', t, j)) && (t in s.tables ==> !Valid(Word(s, t, j)))
    requires forall t': nat, j: nat :: t' in s.tables && t' != t ==> Word(s', t', j) == Word(s, t', j)
    ensures forall p: nat :: LeafEntries(s', p) == LeafEntries(s, p)
  {
    forall p: nat ensures LeafEntries(s', p) == LeafEntries(s, p) {
      forall x ensures x in LeafEntries(s', p) <==> x in LeafEntries(s, p) {
        assert x.0 in s'.tables <==> x.0 == t || x.0 in s.tables;
      }
    }
  }

  lemma AddTableKeeps(s: Phys, q: nat, i: nat, t: nat)
    requires Inv(s) && CanAddTable(s, q, i, t)
    ensures Inv(AddTable(s, q, i, t))
  {
    var s' := AddTable(s, q, i, t);
    LooseIsNobodys(s, t);
    WordAfterStore(s, s', q, i, Pte(t, PTE_V));
    AddTableStructure(s, q, i, t);
    EmptyTableHasNoEntries(s, s', t);
    assert FreeListExact(s');
    assert forall q: nat :: IsHolder(s', q) <==> IsHolder(s, q);
    assert LeavesOk(s');
  }

  lemma AddTableLookup(s: Phys, q: nat, i: nat, t: nat, q': nat, v: nat)
    requires Inv(s) && CanAddTable(s, q, i, t) && IsHolder(s, q') && v < USER_VPNS
    ensures Lookup(AddTable(s, q, i, t), q', v) == Lookup(s, q', v)
    ensures !(q' == q && Pdx(v) == i) ==> TableOf(AddTable(s, q, i, t), q', v) == TableOf(s, q', v)
  {
    var s' := AddTable(s, q, i, t);
    LooseIsNobodys(s, t);
    WordAfterStore(s, s', q, i, Pte(t, PTE_V));
    if TableOf(s, q', v).Some? {
      WalkedTable(s, q', v);
    }
  }

  lemma AddTableLookups(s: Phys, q: nat, i: nat, t: nat)
    requires Inv(s) && CanAddTable(s, q, i, t)
    ensures SameLookups(s, AddTable(s, q, i, t))
  {
    forall q': nat, v: nat | IsHolder(s, q') && v < USER_VPNS ensures Lookup(AddTable(s, q, i, t), q', v) == Lookup(s, q', v) {
      AddTableLookup(s, q, i, t, q', v);
    }
  }

  // env_free, per page table: the directory word is cleared, the empty table released.
  function DropTable(s: Phys, q: nat, i: nat): Phys
    requires q < |s.frames| && i < |s.frames[q]|
    requires var t := s.frames[q][i].ppn; t < |s.refs| && s.refs[t] > 0
  {
    var t := s.frames[q][i].ppn;
    Decref(s, t).(frames := Store(s, q, i, ZERO), tables := s.tables - {t})
  }

  ghost predicate EmptyTable(s: Phys, t: nat) {
    forall j: nat :: j < NPTE ==> !Valid(Word(s, t, j))
  }

  ghost predicate CanDropTable(s: Phys, q: nat, i: nat) {
    && i < NPTE && Owns(s, q, i) && Valid(Word(s, q, i)) && (IsBase(s, q) ==> s.dirs == {})
    && EmptyTable(s, Word(s, q, i).ppn)
  }

  lemma DropTableLeaves(s: Phys, q: nat, i: nat)
    requires Inv(s) && CanDropTable(s, q, i) && q < |s.frames| && i < |s.frames[q]|
    requires var t := Word(s, q, i).ppn; t < |s.refs| && s.refs[t] == 1 && t in s.tables
    ensures LeavesOk(DropTable(s, q, i)) && FreeListExact(DropTable(s, q, i))
  {
    var t := Word(s, q, i).ppn;
    var s' := DropTable(s, q, i);
    WordAfterStore(s, s', q, i, ZERO);
    assert IsHolder(s, q);
    assert forall q: nat :: IsHolder(s', q) <==> IsHolder(s, q);
    assert s.tables.Keys == s'.tables.Keys + {t};
    EmptyTableHasNoEntries(s', s, t);
    assert LeafEntries(s, t) == {};
  }

  lemma DropTableKeeps(s: Phys, q: nat, i: nat)
    requires Inv(s) && CanDropTable(s, q, i)
    ensures q < |s.frames| && i < |s.frames[q]|
    ensures var t := Word(s, q, i).ppn; t < |s.refs| && s.refs[t] == 1 && t in s.tables
    ensures Inv(DropTable(s, q, i))
  {
    assert IsHolder(s, q);
    var t := Word(s, q, i).ppn;
    assert t in s.tables && s.tables[t] == At(q, i);
    var s' := DropTable(s, q, i);
    WordAfterStore(s, s', q, i, ZERO);
    assert forall q: nat :: IsHolder(s', q) <==> IsHolder(s, q);
    assert forall q: nat, i: nat :: Owns(s', q, i) <==> Owns(s, q, i);
    assert forall q: nat, i: nat :: Owns(s', q, i) ==> IsHolder(s, q);
    assert HoldersOk(s');
    assert TablesOk(s');
    DropTableLeaves(s, q, i);
    assert TemplateOk(s');
  }

  lemma DropTableLookup(s: Phys, q: nat, i: nat, q': nat, v: nat)
    requires Inv(s) && CanDropTable(s, q, i) && IsHolder(s, q') && v < USER_VPNS
    requires q < |s.frames| && i < |s.frames[q]|
    requires var t := Word(s, q, i).ppn; t < |s.refs| && s.refs[t] == 1 && t in s.tables
    ensures Lookup(DropTable(s, q, i), q', v) == Lookup(s, q', v)
  {
    var s' := DropTable(s, q, i);
    assert IsHolder(s, q);
    WordAfterStore(s, s', q, i, ZERO);
    if TableOf(s, q', v).Some? {
      WalkedTable(s, q', v);
    }
  }

  lemma DropTableLookups(s: Phys, q: nat, i: nat)
    requires Inv(s) && CanDropTable(s, q, i)
    ensures q < |s.frames| && i < |s.frames[q]|
    ensures var t := Word(s, q, i).ppn; t < |s.refs| && s.refs[t] == 1 && t in s.tables
    ensures SameLookups(s, DropTable(s, q, i))
  {
    DropTableKeeps(s, q, i);
    forall q': nat, v: nat | IsHolder(s, q') && v < USER_VPNS ensures Lookup(DropTable(s, q, i), q', v) == Lookup(s, q', v) {
      DropTableLookup(s, q, i, q', v);
    }
  }

  // env_init: a blank page becomes the template directory.
  function NewTemplate(s: Phys, p: nat): Phys
    requires p < |s.refs|
  {
    s.(refs := s.refs[p := 1], base := Base(p), loose := s.loose - {p})
  }

  lemma NewTemplateKeeps(s: Phys, p: nat)
    requires Inv(s) && s.base.NoBase? && s.dirs == {} && p in s.loose && s.boot <= p < |s.refs| && s.frames[p] == ZeroFrame()
    ensures Inv(NewTemplate(s, p))
  {
    var s' := NewTemplate(s, p);
    LooseIsNobodys(s, p);
    assert forall t: nat, j: nat :: Word(s', t, j) == Word(s, t, j);
    assert forall q: nat :: IsHolder(s', q) <==> q == p;
    assert forall i: nat :: !Valid(Word(s', p, i));
    SameWords(s, s');
    assert forall q: nat, i: nat :: Owns(s', q, i) ==> q == p;
    assert forall q: nat, i: nat :: !Owns(s, q, i);
    assert LeavesOk(s');
  }

  // The template with the kernel's half of the directory filled in.
  function WithKernelWords(s: Phys, q: nat, kernel: seq<Pte>): Phys
    requires q < |s.frames| && |s.frames[q]| == NPTE
  {
    s.(frames := s.frames[q := s.frames[q][..KSEG0_PDX] + kernel])
  }

  lemma KernelWordsAt(s: Phys, q: nat, kernel: seq<Pte>)
    requires q < |s.frames| && |s.frames[q]| == NPTE && |kernel| == NPTE - KSEG0_PDX
    ensures var s' := WithKernelWords(s, q, kernel); forall t: nat, i: nat :: t != q || i < KSEG0_PDX ==> Word(s', t, i) == Word(s, t, i)
    ensures forall i: nat :: KSEG0_PDX <= i < NPTE ==> Word(WithKernelWords(s, q, kernel), q, i) == kernel[i - KSEG0_PDX]
  {
  }

  lemma KernelWordsLookups(s: Phys, q: nat, kernel: seq<Pte>)
    requires Inv(s) && IsBase(s, q) && s.dirs == {} && |kernel| == NPTE - KSEG0_PDX
    requires q < |s.frames| && |s.frames[q]| == NPTE
    ensures SameLookups(s, WithKernelWords(s, q, kernel))
  {
    var s' := WithKernelWords(s, q, kernel);
    KernelWordsAt(s, q, kernel);
    forall q': nat, v: nat | IsHolder(s, q') && v < USER_VPNS ensures Lookup(s', q', v) == Lookup(s, q', v) {
      if TableOf(s, q', v).Some? { WalkedTable(s, q', v); }
    }
  }

  lemma KernelWordsKeep(s: Phys, q: nat, kernel: seq<Pte>)
    requires Inv(s) && IsBase(s, q) && s.dirs == {} && |kernel| == NPTE - KSEG0_PDX
    requires forall i :: 0 <= i < |kernel| ==> kernel[i].bits & PTE_U == 0
    ensures q < |s.frames| && |s.frames[q]| == NPTE
    ensures Inv(WithKernelWords(s, q, kernel)) && SameLookups(s, WithKernelWords(s, q, kernel))
  {
    assert IsHolder(s, q);
    var s' := WithKernelWords(s, q, kernel);
    KernelWordsAt(s, q, kernel);
    assert forall q': nat, i: nat :: Owns(s', q', i) <==> Owns(s, q', i);
    assert forall q': nat, i: nat :: Owns(s, q', i) ==> q' == q && i < KSEG0_PDX;
    SameWords(s, s');
    assert HoldersOk(s') && TablesOk(s') && LeavesOk(s');
    KernelWordsLookups(s, q, kernel);
  }

  // env_setup_vm: a directory whose upper words are the template's.
  function DirectoryFrame(s: Phys): Frame
    requires s.base.Base?
  {
    seq(NPTE, i requires 0 <= i => if UTOP_PDX <= i < UVPT_PDX || KSEG0_PDX <= i then Word(s, s.base.page, i) else ZERO)
  }

  function NewDirectory(s: Phys, q: nat): Phys
    requires s.base.Base? && q < |s.refs| && q < |s.frames|
  {
    s.(refs := s.refs[q := 1], frames := s.frames[q := DirectoryFrame(s)], dirs := s.dirs + {q}, loose := s.loose - {q})
  }

  // Who holds what once q is a directory.
  lemma NewDirectoryHolders(s: Phys, q: nat)
    requires Inv(s) && s.base.Base? && q in s.loose && s.boot <= q && q < |s.refs| && q < |s.frames|
    ensures forall i: nat :: i < NPTE ==> Word(NewDirectory(s, q), q, i) == DirectoryFrame(s)[i]
    ensures forall q': nat :: IsHolder(NewDirectory(s, q), q') <==> IsHolder(s, q') || q' == q
    ensures forall q': nat, i: nat ::
      (Owns(NewDirectory(s, q), q', i) <==> Owns(s, q', i) || (q' == q && (i < UTOP_PDX || i == UVPT_PDX)))
    ensures forall q': nat, i: nat :: Owns(s, q', i) ==> IsHolder(s, q')
    ensures !IsHolder(s, q) && q !in s.tables
  {
    LooseIsNobodys(s, q);
  }

  lemma NewDirectoryTables(s: Phys, q: nat)
    requires Inv(s) && s.base.Base? && q in s.loose && s.boot <= q && q < |s.refs| && q < |s.frames|
    ensures HoldersOk(NewDirectory(s, q)) && TablesOk(NewDirectory(s, q))
  {
    NewDirectoryHolders(s, q);
    SameWordsElsewhere(s, NewDirectory(s, q), q);
  }

  lemma NewDirectoryKeeps(s: Phys, q: nat)
    requires Inv(s) && s.base.Base? && q in s.loose && s.boot <= q && q < |s.refs| && q < |s.frames|
    ensures Inv(NewDirectory(s, q))
  {
    var s' := NewDirectory(s, q);
    LooseIsNobodys(s, q);
    SameWordsElsewhere(s, s', q);
    NewDirectoryHolders(s, q);
    NewDirectoryTables(s, q);
    SameWords(s, s');
    assert LeavesOk(s');
    assert TemplateOk(s');
  }

  lemma NewDirectoryLookup(s: Phys, q: nat, q': nat, v: nat)
    requires Inv(s) && s.base.Base? && q in s.loose && s.boot <= q && q < |s.refs| && q < |s.frames| && v < USER_VPNS
    ensures IsHolder(s, q') ==> Lookup(NewDirectory(s, q), q', v) == Lookup(s, q', v)
    ensures Lookup(NewDirectory(s, q), q, v) == Lookup(s, s.base.page, v)
  {
    var s' := NewDirectory(s, q);
    LooseIsNobodys(s, q);
    SameWordsElsewhere(s, s', q);
    assert forall i: nat :: i < NPTE ==> Word(s', q, i) == DirectoryFrame(s)[i];
    if IsHolder(s, q') && TableOf(s, q', v).Some? {
      WalkedTable(s, q', v);
    }
    if TableOf(s, s.base.page, v).Some? {
      WalkedTable(s, s.base.page, v);
    }
  }

  // env_free, last: the directory itself.  A table in its UVPT word is left behind.
  function DropDirectory(s: Phys, q: nat): Phys
    requires q < |s.refs| && s.refs[q] > 0
  {
    Decref(s, q).(dirs := s.dirs - {q},
                  tables := map t | t in s.tables :: if s.tables[t] == At(q, UVPT_PDX) then Lost else s.tables[t])
  }

  lemma DropDirectoryTables(s: Phys, q: nat)
    requires Inv(s) && q in s.dirs && forall i: nat :: i < UTOP_PDX ==> !Valid(Word(s, q, i))
    ensures q < |s.refs| && s.refs[q] == 1
    ensures HoldersOk(DropDirectory(s, q)) && TablesOk(DropDirectory(s, q))
  {
    assert IsHolder(s, q);
    var s' := DropDirectory(s, q);
    assert forall t: nat, j: nat :: Word(s', t, j) == Word(s, t, j);
    assert forall q': nat :: IsHolder(s', q') <==> IsHolder(s, q') && q' != q;
    assert forall q': nat, i: nat :: Owns(s', q', i) <==> Owns(s, q', i) && q' != q;
    assert forall q': nat, i: nat :: Owns(s, q', i) ==> IsHolder(s, q');
  }

  lemma DropDirectoryKeeps(s: Phys, q: nat)
    requires Inv(s) && q in s.dirs && forall i: nat :: i < UTOP_PDX ==> !Valid(Word(s, q, i))
    ensures q < |s.refs| && s.refs[q] == 1
    ensures Inv(DropDirectory(s, q))
    ensures forall q': nat, v: nat :: Lookup(DropDirectory(s, q), q', v) == Lookup(s, q', v)
  {
    assert IsHolder(s, q);
    var s' := DropDirectory(s, q);
    DropDirectoryTables(s, q);
    assert forall t: nat, j: nat :: Word(s', t, j) == Word(s, t, j);
    assert forall q': nat :: IsHolder(s', q') <==> IsHolder(s, q') && q' != q;
    assert s'.tables.Keys == s.tables.Keys;
    SameWords(s, s');
    assert LeafEntries(s, q) == {};
    assert LeavesOk(s');
    assert TemplateOk(s');
  }

  // A fresh page can back a table of any directory.
  lemma FreshPage(s: Phys)
    requires Inv(s) && s.free != []
    ensures s.free[0] in s.free && s.boot <= s.free[0] < |s.frames| && !IsHolder(s, s.free[0]) && s.free[0] !in s.tables
    ensures Mappable(Alloc(s), s.free[0])
  {
    assert s.free[0] in s.free;
  }

  // Installing, replacing the flags of, and clearing the entry of a virtual page.
  lemma MapAt(s: Phys, q: nat, vpn: nat, e: Pte)
    requires Inv(s) && vpn < USER_VPNS && Owns(s, q, Pdx(vpn)) && (IsBase(s, q) ==> s.dirs == {})
    requires TableOf(s, q, vpn).Some? && Lookup(s, q, vpn) == None && IsLeaf(e) && Mappable(s, e.ppn)
    ensures var t := TableOf(s, q, vpn).value; t < |s.frames| && |s.frames[t]| == NPTE && t != e.ppn
    ensures var s' := Map(s, TableOf(s, q, vpn).value, Ptx(vpn), e); Inv(s') && OnlyEntry(s, s', q, vpn, Some(e)) && ContentsKept(s, s')
  {
    assert IsHolder(s, q);
    WalkedTable(s, q, vpn);
    var t := TableOf(s, q, vpn).value;
    MapKeeps(s, t, Ptx(vpn), e);
    LookupAfterStore(s, Map(s, t, Ptx(vpn), e), q, vpn, t, e);
  }

  lemma RemapAt(s: Phys, q: nat, vpn: nat, e: Pte)
    requires Inv(s) && vpn < USER_VPNS && Owns(s, q, Pdx(vpn)) && (IsBase(s, q) ==> s.dirs == {})
    requires Lookup(s, q, vpn).Some? && IsLeaf(e) && e.ppn == Lookup(s, q, vpn).value.ppn
    ensures var t := TableOf(s, q, vpn).value; t < |s.frames| && |s.frames[t]| == NPTE
    ensures var s' := s.(frames := Store(s, TableOf(s, q, vpn).value, Ptx(vpn), e)); Inv(s') && OnlyEntry(s, s', q, vpn, Some(e)) && ContentsKept(s, s')
    ensures e.ppn !in s.loose
  {
    assert IsHolder(s, q);
    WalkedTable(s, q, vpn);
    var t := TableOf(s, q, vpn).value;
    MappedIsCounted(s, t, Ptx(vpn));
    RemapKeeps(s, t, Ptx(vpn), e);
    LookupAfterStore(s, s.(frames := Store(s, t, Ptx(vpn), e)), q, vpn, t, e);
  }

  lemma UnmapAt(s: Phys, q: nat, vpn: nat)
    requires Inv(s) && vpn < USER_VPNS && Owns(s, q, Pdx(vpn)) && (IsBase(s, q) ==> s.dirs == {})
    requires Lookup(s, q, vpn).Some?
    ensures var t := TableOf(s, q, vpn).value; t < |s.frames| && |s.frames[t]| == NPTE
    ensures var p := Lookup(s, q, vpn).value.ppn; p < |s.refs| && s.refs[p] > 0
    ensures var s' := Unmap(s, TableOf(s, q, vpn).value, Ptx(vpn)); Inv(s') && OnlyEntry(s, s', q, vpn, None) && TableOf(s', q, vpn) == TableOf(s, q, vpn)
    ensures ContentsKept(s, Unmap(s, TableOf(s, q, vpn).value, Ptx(vpn)))
    ensures TableOf(s, q, vpn).value in s.tables
  {
    assert IsHolder(s, q);
    WalkedTable(s, q, vpn);
    var t := TableOf(s, q, vpn).value;
    MappedIsCounted(s, t, Ptx(vpn));
    UnmapKeeps(s, t, Ptx(vpn));
    LookupAfterStore(s, Unmap(s, t, Ptx(vpn)), q, vpn, t, ZERO);
  }

  // The head of the free list has become the empty table behind word i of q.
  ghost predicate TableCreated(s: Phys, s': Phys, q: nat, i: nat) {
    && s.free != [] && s'.free == s.free[1..] && s'.tables == s.tables[s.free[0] := At(q, i)]
    && Word(s', q, i) == Pte(s.free[0], PTE_V) && EmptyTable(s', s.free[0])
  }

  // pgdir_walk's allocation and its directory write, together.
  lemma CreateTableKeeps(s: Phys, q: nat, i: nat)
    requires Inv(s) && s.free != [] && i < NPTE && Owns(s, q, i) && !Valid(Word(s, q, i)) && (IsBase(s, q) ==> s.dirs == {})
    ensures s.free[0] < |s.frames| && q < |Alloc(s).frames| && i < |Alloc(s).frames[q]| && q != s.free[0]
    ensures var s' := AddTable(Alloc(s), q, i, s.free[0]);
      Inv(s') && SameLookups(s, s') && TableCreated(s, s', q, i) && s'.loose == s.loose
      && ContentsKept(s, s') && forall p: nat :: Mappable(s, p) ==> Mappable(s', p)
  {
    assert IsHolder(s, q);
    AllocKeeps(s);
    AllocLookups(s);
    FreshPage(s);
    var a := Alloc(s);
    AddTableKeeps(a, q, i, s.free[0]);
    AddTableLookups(a, q, i, s.free[0]);
  }
}
