// The Sv32 page-table format as include/mmu.h uses it (RISC-V Privileged
// Architecture 20211203, section 4.3).  Page-table words are kept as a page
// number and ten flag bits; the lemmas at the end of the module show that the
// 32-bit macros of the source act on words exactly as on these pairs.
module Sv32 {
  const BY2PG: nat := 4096
  const NPTE: nat := 1024            // words in a table or directory page
  const UTOP_PDX: nat := 509         // PDX(UTOP), first directory slot of the template window
  const UVPT_PDX: nat := 511         // PDX(UVPT)
  const KSEG0_PDX: nat := 512        // PDX(KSEG0) == PDX(ULIM)
  const UTEMP: nat := 0x003f_e000
  const UTOP: nat := 0x7f40_0000
  const USTACKTOP: nat := 0x7f3f_e000
  const UENVS: nat := 0x7f40_0000
  const UPAGES: nat := 0x7f80_0000
  const UVPT: nat := 0x7fc0_0000
  const ULIM: nat := 0x8000_0000
  const WORD: nat := 0x1_0000_0000

  type Bits = bv10

  const PTE_V: Bits := 0x001
  const PTE_R: Bits := 0x002
  const PTE_W: Bits := 0x004
  const PTE_X: Bits := 0x008
  const PTE_U: Bits := 0x010
  const PTE_A: Bits := 0x040
  const PTE_D: Bits := 0x080
  const PTE_COW: Bits := 0x100
  const PTE_LIBRARY: Bits := 0x200

  // `ppn` counts pages from the start of physical memory (page2ppn minus PPNOFFSET).
  datatype Pte = Pte(ppn: nat, bits: Bits)

  const ZERO: Pte := Pte(0, 0)

  predicate Valid(e: Pte) { e.bits & PTE_V != 0 }

  predicate Writable(e: Pte) { e.bits & PTE_W != 0 }

  // The flags page_insert always adds.
  function LeafBits(perm: Bits): Bits {
    perm | PTE_A | PTE_D | PTE_R | PTE_V
  }

  // The flags of a page an environment can reach.
  predicate IsLeaf(e: Pte) {
    Valid(e) && e.bits & PTE_R != 0 && e.bits & PTE_A != 0 && e.bits & PTE_D != 0 && e.bits & PTE_U != 0
  }

  // Every caller of page_insert passes PTE_U.
  predicate ForUser(perm: Bits) { perm & PTE_U != 0 }

  lemma UserPerm(perm: Bits)
    ensures ForUser(perm | PTE_U)
  {}

  lemma LeafBitsAreLeaf(ppn: nat, perm: Bits)
    requires ForUser(perm)
    ensures IsLeaf(Pte(ppn, LeafBits(perm)))
    ensures Writable(Pte(ppn, LeafBits(perm))) <==> perm & PTE_W != 0
  {}

  function Vpn(va: nat): nat { va / BY2PG }

  function Pdx(vpn: nat): nat { vpn / NPTE % NPTE }

  function Ptx(vpn: nat): nat { vpn % NPTE }

  // ---- the 32-bit macros ----

  function Paddr2Pte(a: bv32): bv32 { (a >> 2) & !0x3FF }

  function Pte2Paddr(w: bv32): bv32 { (w << 2) & !0xFFF }

  function PteBits(w: bv32): bv32 { w & 0x3FF }

  // Building a word from a page number and flags and taking it apart again.
  lemma WordRoundTrip(page: bv32, bits: bv32)
    requires page < 0x100000 && bits < 0x400
    ensures Pte2Paddr(Paddr2Pte(page << 12) | bits) == page << 12
    ensures PteBits(Paddr2Pte(page << 12) | bits) == bits
  {}

  // page_insert's in-place change of permissions keeps the page number.
  lemma ReplaceBits(w: bv32, bits: bv32)
    requires bits < 0x400
    ensures Pte2Paddr((w & !0x3FF) | bits) == Pte2Paddr(w)
    ensures PteBits((w & !0x3FF) | bits) == bits
  {}
}
