// Physical pages, reference counts and the page tables stored in them, as a value.
// `Inv` is the invariant every kernel entry keeps; `ExactCount` is its meaning:
// each pp_ref is the number of places that refer to the page.
module PhysicalMemory {
  import opened Sv32

  type Frame = seq<Pte>

  datatype Option<+T> = None | Some(value: T)

  // Where a page table is referred to from: a directory word, or nothing any
  // more, because its directory was freed without it.
  datatype Base = NoBase | Base(page: nat)

  datatype Owner = At(dir: nat, index: nat) | Lost

  // refs, frames: indexed by page.  boot: pages below it were handed out before
  // page_init.  base: the template directory.  dirs: directories of environments.
  // tables: the page tables in use.  loose: pages taken from the free list that
  // no table refers to (not yet inserted, or dropped on an error path).
  datatype Phys = Phys(
    refs: seq<nat>, frames: seq<Frame>, free: seq<nat>, boot: nat,
    base: Base, dirs: set<nat>, tables: map<nat, Owner>, loose: set<nat>)

  predicate Distinct(s: seq<nat>) {
    forall i, j :: 0 <= i < j < |s| ==> s[i] != s[j]
  }

  predicate IsBase(s: Phys, q: nat) { s.base.Base? && s.base.page == q }

  predicate IsHolder(s: Phys, q: nat) { q in s.dirs || IsBase(s, q) }

  // The directory words a directory owns a reference through.  Environments copy
  // the words UTOP..UVPT of the template without counting them.
  predicate Owns(s: Phys, q: nat, i: nat) {
    (q in s.dirs && (i < UTOP_PDX || i == UVPT_PDX)) ||
    (IsBase(s, q) && UTOP_PDX <= i < UVPT_PDX)
  }

  function Word(s: Phys, q: nat, i: nat): Pte {
    if q < |s.frames| && i < |s.frames[q]| then s.frames[q][i] else ZERO
  }

  // ---- what refers to a page ----

  function LeafEntries(s: Phys, p: nat): set<(nat, nat)> {
    set t: nat, j: nat | t in s.tables && 0 <= j < NPTE && Valid(Word(s, t, j)) && Word(s, t, j).ppn == p :: (t, j)
  }

  function Holders(s: Phys): set<nat> {
    s.dirs + (if s.base.Base? then {s.base.page} else {})
  }

  function DirEntries(s: Phys, p: nat): set<(nat, nat)> {
    set q: nat, i: nat | q in Holders(s) && 0 <= i < NPTE && Owns(s, q, i) && Valid(Word(s, q, i)) && Word(s, q, i).ppn == p :: (q, i)
  }

  function Holds(s: Phys, p: nat): nat {
    (if p in s.dirs then 1 else 0) + (if IsBase(s, p) then 1 else 0)
  }

  // A table whose directory is gone keeps the count of the word that is gone.
  function Strays(s: Phys, p: nat): nat {
    if p in s.tables && s.tables[p] == Lost then 1 else 0
  }

  ghost predicate ExactCount(s: Phys) {
    forall p: nat :: 0 <= p < |s.refs| ==>
      s.refs[p] == |LeafEntries(s, p)| + |DirEntries(s, p)| + Holds(s, p) + Strays(s, p)
                   + (if p < s.boot then 1 else 0)
  }

  ghost predicate FreeListExact(s: Phys) {
    && Distinct(s.free)
    && (forall p: nat :: p in s.free <==> 0 <= p < |s.refs| && s.refs[p] == 0 && p !in s.loose)
  }

  // ---- the invariant ----

  ghost predicate Shape(s: Phys) {
    && |s.frames| == |s.refs| && s.boot <= |s.refs|
    && (forall p: nat :: 0 <= p < |s.frames| ==> |s.frames[p]| == NPTE)
    && (forall p: nat :: p in s.loose ==> p < |s.refs| && s.refs[p] == 0)
  }

  ghost predicate HoldersOk(s: Phys) {
    && (s.base.Base? ==> s.base.page !in s.dirs)
    && (forall q: nat :: IsHolder(s, q) ==> s.boot <= q < |s.refs| && s.refs[q] == 1 && q !in s.tables)
  }

  // `tables` lists exactly the pages the directories refer to, each from one word.
  ghost predicate TablesOk(s: Phys) {
    && (forall t: nat :: t in s.tables ==> s.boot <= t < |s.refs| && s.refs[t] == 1)
    && (forall t: nat :: t in s.tables && s.tables[t].At? ==>
          var o := s.tables[t]; o.index < NPTE && Owns(s, o.dir, o.index) && Word(s, o.dir, o.index) == Pte(t, PTE_V))
    && (forall q: nat, i: nat :: 0 <= i < NPTE && Owns(s, q, i) && Valid(Word(s, q, i)) ==>
          var t := Word(s, q, i).ppn; t in s.tables && s.tables[t] == At(q, i))
  }

  ghost predicate LeavesOk(s: Phys) {
    && (forall t: nat, j: nat :: t in s.tables && 0 <= j < NPTE && Valid(Word(s, t, j)) ==>
          var e := Word(s, t, j); IsLeaf(e) && e.ppn < |s.refs| && !IsHolder(s, e.ppn) && e.ppn !in s.tables)
    && (forall p: nat :: 0 <= p < |s.refs| && !IsHolder(s, p) && p !in s.tables ==>
          s.refs[p] == |LeafEntries(s, p)| + (if p < s.boot then 1 else 0))
  }

  // The address space of every environment is the template's in [UTOP, UVPT), the template
  // maps nothing else below the kernel, and no kernel word is open to user code.
  ghost predicate TemplateOk(s: Phys) {
    && (s.dirs != {} ==> s.base.Base?)
    && (forall q: nat, i: nat :: q in s.dirs && UTOP_PDX <= i < UVPT_PDX ==> Word(s, q, i) == Word(s, s.base.page, i))
    && (forall i: nat :: i < KSEG0_PDX && s.base.Base? && Valid(Word(s, s.base.page, i)) ==> UTOP_PDX <= i < UVPT_PDX)
    && (forall q: nat, i: nat :: IsHolder(s, q) && KSEG0_PDX <= i ==> Word(s, q, i).bits & PTE_U == 0)
  }

  ghost predicate Inv(s: Phys) {
    Shape(s) && FreeListExact(s) && HoldersOk(s) && TablesOk(s) && LeavesOk(s) && TemplateOk(s)
  }

  lemma InvCountsExactly(s: Phys)
    requires Inv(s)
    ensures ExactCount(s)
  {
    forall p: nat | 0 <= p < |s.refs|
      ensures s.refs[p] == |LeafEntries(s, p)| + |DirEntries(s, p)| + Holds(s, p) + Strays(s, p)
                           + (if p < s.boot then 1 else 0)
    {
      if p in s.tables {
        assert LeafEntries(s, p) == {};
        if s.tables[p].At? {
          assert DirEntries(s, p) == {(s.tables[p].dir, s.tables[p].index)};
        } else {
          assert DirEntries(s, p) == {};
        }
      } else {
        assert DirEntries(s, p) == {};
        if IsHolder(s, p) { assert LeafEntries(s, p) == {}; }
      }
    }
  }

  // Nothing on the free list is mapped.
  lemma FreeIsUnmapped(s: Phys, p: nat)
    requires Inv(s) && p in s.free
    ensures LeafEntries(s, p) == {} && DirEntries(s, p) == {} && Holds(s, p) == 0
  {
    InvCountsExactly(s);
    assert |LeafEntries(s, p)| == 0 && |DirEntries(s, p)| == 0;
  }

  // ---- reading a mapping ----

  // The table consulted for a virtual page, if its directory word is valid.
  function TableOf(s: Phys, q: nat, vpn: nat): Option<nat> {
    var d := Word(s, q, Pdx(vpn));
    if Valid(d) then Some(d.ppn) else None
  }

  function Lookup(s: Phys, q: nat, vpn: nat): Option<Pte> {
    match TableOf(s, q, vpn)
    case None => None
    case Some(t) => if Valid(Word(s, t, Ptx(vpn))) then Some(Word(s, t, Ptx(vpn))) else None
  }

  const USER_VPNS: nat := KSEG0_PDX * NPTE

  // Every address space of s is still there in s' and reads the same,
  // except that `vpn` of directory `q` now reads `r`.
  ghost predicate OnlyEntry(s: Phys, s': Phys, q: nat, vpn: nat, r: Option<Pte>) {
    && s'.dirs == s.dirs && s'.base == s.base
    && forall q': nat, v: nat :: IsHolder(s, q') && v < USER_VPNS ==>
         Lookup(s', q', v) == if q' == q && v == vpn then r else Lookup(s, q', v)
  }

  ghost predicate SameLookups(s: Phys, s': Phys) {
    && s'.dirs == s.dirs && s'.base == s.base
    && forall q: nat, v: nat :: IsHolder(s, q) && v < USER_VPNS ==> Lookup(s', q, v) == Lookup(s, q, v)
  }

  lemma OnlyEntryComposes(s: Phys, m: Phys, w: Phys, s': Phys, q: nat, vpn: nat, r: Option<Pte>)
    requires m == s || OnlyEntry(s, m, q, vpn, None)
    requires SameLookups(m, w) && OnlyEntry(w, s', q, vpn, r)
    ensures OnlyEntry(s, s', q, vpn, r)
  {
  }

  // ---- how single writes change the entries that refer to a page ----

  lemma SameWords(s: Phys, s': Phys)
    requires s'.tables.Keys == s.tables.Keys && |s'.frames| == |s.frames|
    requires forall t: nat :: t in s.tables ==> forall j: nat :: j < NPTE ==> Word(s', t, j) == Word(s, t, j)
    ensures forall p: nat :: LeafEntries(s', p) == LeafEntries(s, p)
  {
    forall p: nat ensures LeafEntries(s', p) == LeafEntries(s, p) {
      forall e ensures e in LeafEntries(s', p) <==> e in LeafEntries(s, p) {}
    }
  }

  // Storing e in word j of table t.
  function Store(s: Phys, t: nat, j: nat, e: Pte): seq<Frame>
    requires t < |s.frames| && j < |s.frames[t]|
  {
    s.frames[t := s.frames[t][j := e]]
  }

  lemma WordAfterStore(s: Phys, s': Phys, t: nat, j: nat, e: Pte)
    requires t < |s.frames| && j < |s.frames[t]| && s'.frames == Store(s, t, j, e)
    ensures forall t': nat, j': nat :: Word(s', t', j') == if t' == t && j' == j then e else Word(s, t', j')
  {
  }

  lemma EntriesAfterStore(s: Phys, s': Phys, t: nat, j: nat, e: Pte)
    requires t in s.tables && t < |s.frames| && |s.frames[t]| == NPTE && j < NPTE
    requires s'.tables == s.tables && s'.frames == Store(s, t, j, e)
    ensures forall p: nat ::
      LeafEntries(s', p) == LeafEntries(s, p) - {(t, j)} + (if Valid(e) && e.ppn == p then {(t, j)} else {})
  {
    forall p: nat
      ensures LeafEntries(s', p) == LeafEntries(s, p) - {(t, j)} + (if Valid(e) && e.ppn == p then {(t, j)} else {})
    {
      forall x ensures x in LeafEntries(s', p) <==>
          x in LeafEntries(s, p) - {(t, j)} + (if Valid(e) && e.ppn == p then {(t, j)} else {})
      {
        assert forall t': nat, j': nat :: (t', j') != (t, j) ==> Word(s', t', j') == Word(s, t', j');
        assert Word(s', t, j) == e;
      }
    }
  }

  lemma TableOwner(s: Phys, q: nat, vpn: nat)
    requires Inv(s) && IsHolder(s, q) && vpn < USER_VPNS && TableOf(s, q, vpn).Some? && Owns(s, q, Pdx(vpn))
    ensures var t := TableOf(s, q, vpn).value; t in s.tables && s.tables[t] == At(q, Pdx(vpn)) && !IsHolder(s, t)
  {}

  // Two walks meet in one table only at the same directory word, or in the template window.
  lemma SharedTable(s: Phys, q: nat, vpn: nat, q': nat, v: nat)
    requires Inv(s) && vpn < USER_VPNS && v < USER_VPNS && Owns(s, q, Pdx(vpn)) && IsHolder(s, q')
    requires IsBase(s, q) ==> s.dirs == {}
    requires TableOf(s, q, vpn).Some? && TableOf(s, q', v) == TableOf(s, q, vpn)
    ensures q' == q && Pdx(v) == Pdx(vpn)
  {
    TableOwner(s, q, vpn);
    if Owns(s, q', Pdx(v)) {
      TableOwner(s, q', v);
    } else if q' in s.dirs {
      assert UTOP_PDX <= Pdx(v) < UVPT_PDX;
      TableOwner(s, s.base.page, v);
    }
  }

  lemma LookupAfterStore(s: Phys, s': Phys, q: nat, vpn: nat, t: nat, e: Pte)
    requires Inv(s) && vpn < USER_VPNS && Owns(s, q, Pdx(vpn)) && (IsBase(s, q) ==> s.dirs == {})
    requires TableOf(s, q, vpn) == Some(t) && |s.frames[t]| == NPTE
    requires s'.dirs == s.dirs && s'.base == s.base && s'.tables == s.tables && s'.frames == Store(s, t, Ptx(vpn), e)
    ensures OnlyEntry(s, s', q, vpn, if Valid(e) then Some(e) else None)
  {
    forall q': nat, v: nat | IsHolder(s, q') && v < USER_VPNS
      ensures Lookup(s', q', v) == if q' == q && v == vpn then (if Valid(e) then Some(e) else None) else Lookup(s, q', v)
    {
      assert q' != t;
      assert Word(s', q', Pdx(v)) == Word(s, q', Pdx(v));
      if TableOf(s, q', v) == Some(t) {
        SharedTable(s, q, vpn, q', v);
        assert Pdx(v) == Pdx(vpn);
        assert v == Pdx(v) * NPTE + Ptx(v) && vpn == Pdx(vpn) * NPTE + Ptx(vpn);
      }
    }
  }
}
