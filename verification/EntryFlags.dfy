// The flags of an entry, bit by bit: what page_insert grants (kern/pmap.c), and what every step of
// a copy-on-write fork enters (user/lib/fork.c).
module EntryFlags {
  import opened Sv32
  import opened CopyOnWrite

  // ---- page_insert ----

  // An entry that has the four flags page_insert adds, and of all others exactly those of perm.
  predicate Grants(bits: Bits, perm: Bits) {
    var added: Bits := PTE_V | PTE_R | PTE_A | PTE_D;
    bits & added == added && bits & !added == perm & !added
  }

  lemma LeafBitsExactly(perm: Bits, bits: Bits)
    ensures bits == LeafBits(perm) <==> Grants(bits, perm)
    ensures perm & !LeafBits(perm) == 0 && LeafBits(perm) & !perm == (PTE_V | PTE_R | PTE_A | PTE_D) & !perm
    ensures LeafBits(perm) & PTE_X == perm & PTE_X && LeafBits(perm) & PTE_W == perm & PTE_W && LeafBits(perm) & PTE_U == perm & PTE_U
    ensures LeafBits(perm) & PTE_COW == perm & PTE_COW && LeafBits(perm) & PTE_LIBRARY == perm & PTE_LIBRARY
  {}

  // ---- duppage and cow_entry ----

  // Two entries that differ in PTE_W and PTE_COW at most.
  predicate SameButWCow(b1: Bits, b2: Bits) { b1 & !(PTE_W | PTE_COW) == b2 & !(PTE_W | PTE_COW) }

  // What duppage and cow_entry make of an entry's flags: one of the two flags goes, the other
  // comes, and every other flag, PTE_X included, is kept.
  lemma OtherFlagsKept(m: Pte, page: nat)
    requires IsLeaf(m)
    ensures var x := Entry(page, DupPerm(m.bits)); SameButWCow(x.bits, m.bits) && !W(x) && Cow(x) && x.ppn == page
    ensures var x := Entry(page, CowPerm(m.bits)); SameButWCow(x.bits, m.bits) && W(x) && !Cow(x) && x.ppn == page
    ensures Entry(page, m.bits) == Pte(page, m.bits)
  {}

  lemma EntryIsGranted(page: nat, perm: Bits)
    ensures IsLeaf(Entry(page, perm)) && Entry(page, perm).ppn == page && Grants(Entry(page, perm).bits, perm | PTE_U)
  {}

  // ---- what each step enters ----

  ghost predicate LeavesOnly(c: Lazy) { forall s :: s in c.maps ==> IsLeaf(c.maps[s]) }

  // The entry of slot s and no other has been made: page p, open to user code, with exactly the
  // flags of perm and those page_insert adds.
  ghost predicate Enters(c: Lazy, c': Lazy, s: Slot, p: nat, perm: Bits) {
    && s in c'.maps && c'.maps[s].ppn == p && Grants(c'.maps[s].bits, perm | PTE_U)
    && c'.maps.Keys == c.maps.Keys + {s} && forall x :: x in c.maps && x != s ==> c'.maps[x] == c.maps[x]
  }

  ghost predicate Removes(c: Lazy, c': Lazy, s: Slot) {
    c'.maps.Keys == c.maps.Keys - {s} && forall x :: x in c'.maps ==> c'.maps[x] == c.maps[x]
  }

  // m's page with m's flags but that PTE_W is gone and PTE_COW is there, or the reverse.
  predicate MadeCow(m: Pte, x: Pte) { x.ppn == m.ppn && SameButWCow(x.bits, m.bits) && !W(x) && Cow(x) }

  predicate MadeWritable(m: Pte, x: Pte, page: nat) { x.ppn == page && SameButWCow(x.bits, m.bits) && W(x) && !Cow(x) }

  lemma EntryEnters(c: Lazy, c': Lazy, s: Slot, p: nat, perm: Bits)
    requires c'.maps == c.maps[s := Entry(p, perm)]
    ensures Enters(c, c', s, p, perm)
  {
    EntryIsGranted(p, perm);
  }

  lemma UserIsAdded(page: nat)
    ensures Entry(page, PTE_W | PTE_U) == Entry(page, PTE_W)
  {
  }

  // The calls a program makes itself: what it asked for is entered, and nothing else.
  lemma CallsEnter(c: Lazy, op: Op)
    requires Inv(c) && Enabled(c, op)
    ensures op.ZeroFill? ==> Enters(c, Step(c, op), Slot(op.env, op.vpn), op.page, PTE_W)
    ensures op.Alloc? ==> Enters(c, Step(c, op), Slot(op.env, op.vpn), op.page, op.perm)
    ensures op.Share? ==> Enters(c, Step(c, op), Slot(op.dst, op.dstvpn), c.maps[Slot(op.env, op.vpn)].ppn, op.perm)
    ensures op.Unmap? ==> Removes(c, Step(c, op), Slot(op.env, op.vpn))
    ensures op.ZeroFill? || op.Alloc? ==> forall i :: 0 <= i < BY2PG ==> PageOf(Step(c, op), op.page)[i] == 0
  {
    match op
    case ZeroFill(e, v, p) =>
      UserIsAdded(p);
      EntryEnters(c, Step(c, op), Slot(e, v), p, PTE_W);
    case Alloc(e, v, perm, p) => EntryEnters(c, Step(c, op), Slot(e, v), p, perm);
    case Share(e, v, d, dv, perm) => EntryEnters(c, Step(c, op), Slot(d, dv), c.maps[Slot(e, v)].ppn, perm);
    case _ =>
  }

  // A store changes the byte it addresses, in the page mapped there, and no other byte or entry.
  lemma StoreChanges(c: Lazy, e: nat, v: nat, off: nat, b: bv8)
    requires Inv(c) && Enabled(c, Write(e, v, off, b))
    ensures var c', p := Step(c, Write(e, v, off, b)), c.maps[Slot(e, v)].ppn;
      c'.maps == c.maps && PageOf(c', p)[off] == b &&
      (forall i :: 0 <= i < BY2PG && i != off ==> PageOf(c', p)[i] == PageOf(c, p)[i]) &&
      forall q: nat :: q != p ==> PageOf(c', q) == PageOf(c, q)
  {
    PagesAfterPoke(c, c.maps[Slot(e, v)].ppn, off, b);
  }

  // cow_entry: a scratch page of its own, then the faulting page's entry with PTE_COW traded for
  // PTE_W and every other flag as it was, then no scratch page.
  lemma HandlerEnters(c: Lazy, op: Op)
    requires Inv(c) && LeavesOnly(c) && Enabled(c, op)
    ensures op.CowAlloc? ==> Enters(c, Step(c, op), Slot(op.env, UCOW_VPN), op.page, PTE_W)
    ensures op.CowMap? ==>
      (var e := op.env; var s := Slot(e, HandlerOf(c, e).vpn);
       s in c.maps && s in Step(c, op).maps && Slot(e, UCOW_VPN) in c.maps &&
       MadeWritable(c.maps[s], Step(c, op).maps[s], c.maps[Slot(e, UCOW_VPN)].ppn) &&
       Step(c, op).maps.Keys == c.maps.Keys && (forall x :: x in c.maps && x != s ==> Step(c, op).maps[x] == c.maps[x]))
    ensures op.CowUnmap? ==> Removes(c, Step(c, op), Slot(op.env, UCOW_VPN))
    ensures op.CowCopyByte? ==> Step(c, op).maps == c.maps
  {
    match op
    case CowAlloc(e, v, p) => EntryEnters(c, Step(c, op), Slot(e, UCOW_VPN), p, PTE_W);
    case CowMap(e) =>
      assert HandlerOk(c, e);
      OtherFlagsKept(c.maps[Slot(e, HandlerOf(c, e).vpn)], c.maps[Slot(e, UCOW_VPN)].ppn);
    case _ =>
  }

  // Every entry is one an environment can reach.
  lemma StepKeepsLeaves(c: Lazy, op: Op)
    requires LeavesOnly(c)
    ensures LeavesOnly(Step(c, op))
  {
    forall page: nat, perm: Bits ensures IsLeaf(Entry(page, perm)) { EntryIsGranted(page, perm); }
  }
}
