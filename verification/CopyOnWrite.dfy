// Copy-on-write fork (user/lib/fork.c) over the finite map the page tables implement,
// next to the eager fork it stands for.  Environments are preempted between any two
// steps; a step is one system call, one user memory access or one byte of memcpy.
module CopyOnWrite {
  import opened Sv32

  const UCOW_VPN: nat := 0x3ff
  const STACKTOP_VPN: nat := 0x7f3fe     // VPN(USTACKTOP)

  type Page = seq<bv8>

  function ZeroPage(): Page { seq(BY2PG, i => 0) }

  datatype Slot = Slot(env: nat, vpn: nat)

  // cow_entry: not running; copying page `vpn`, `done` bytes so far; page remapped.
  datatype Handler = Idle | Copying(vpn: nat, perm: Bits, done: nat) | Remapped(vpn: nat)

  // fork: the child, the page to duplicate next, and duppage's `perm`: as it was read, and between
  // the two calls.
  datatype Fork =
    | NoFork
    | Forking(child: nat, next: nat)
    | FlagsRead(child: nat, next: nat, perm: Bits)
    | HalfDone(child: nat, next: nat, perm: Bits)

  // The machine: mappings, page contents, and how far each environment's handler and fork are.
  datatype Lazy = Lazy(maps: map<Slot, Pte>, mem: map<nat, Page>, envs: set<nat>,
                       handlers: map<nat, Handler>, forks: map<nat, Fork>)

  // What a page is in the eager model: the environment's own, or shared by name.
  datatype Content = Own(page: Page) | Shared(id: nat)

  // The eager machine.  `copies`: the child of a fork in progress and the page to copy next.
  datatype Duplication = NoCopy | CopyingTo(child: nat, next: nat)

  datatype Eager = Eager(slots: map<Slot, Content>, shared: map<nat, Page>, envs: set<nat>, copies: map<nat, Duplication>)

  datatype Op =
    | Read(env: nat, vpn: nat, off: nat)
    | Write(env: nat, vpn: nat, off: nat, value: bv8)
    | ZeroFill(env: nat, vpn: nat, page: nat)                  // passive_alloc
    | CowAlloc(env: nat, vpn: nat, page: nat)                  // cow_entry up to its mem_alloc
    | CowCopyByte(env: nat)
    | CowMap(env: nat)
    | CowUnmap(env: nat)
    | Alloc(env: nat, vpn: nat, perm: Bits, page: nat)         // sys_mem_alloc
    | Share(env: nat, vpn: nat, dst: nat, dstvpn: nat, perm: Bits) // sys_mem_map, or a page sent by IPC
    | Unmap(env: nat, vpn: nat)                                // sys_mem_unmap
    | ForkBegin(env: nat, child: nat)
    | DupSkip(env: nat)                                        // nothing is mapped there
    | DupRead(env: nat)                                        // vpt[vpn]
    | DupFirst(env: nat)
    | DupSecond(env: nat)
    | ForkEnd(env: nat)
    | Exit(env: nat)

  // ---- permission bits ----

  predicate W(e: Pte) { e.bits & PTE_W != 0 }
  predicate Cow(e: Pte) { e.bits & PTE_COW != 0 }
  predicate Lib(e: Pte) { e.bits & PTE_LIBRARY != 0 }

  // The entry sys_mem_map and sys_mem_alloc leave for `perm`.
  function Entry(page: nat, perm: Bits): Pte { Pte(page, LeafBits(perm | PTE_U)) }

  function DupPerm(perm: Bits): Bits { (perm & !PTE_W) | PTE_COW }

  function CowPerm(perm: Bits): Bits { (perm & !PTE_COW) | PTE_W }

  lemma EntryFlags(page: nat, perm: Bits)
    ensures W(Entry(page, perm)) <==> perm & PTE_W != 0
    ensures Cow(Entry(page, perm)) <==> perm & PTE_COW != 0
    ensures Lib(Entry(page, perm)) <==> perm & PTE_LIBRARY != 0
    ensures !W(Entry(page, DupPerm(perm))) && Cow(Entry(page, DupPerm(perm)))
    ensures Lib(Entry(page, DupPerm(perm))) <==> perm & PTE_LIBRARY != 0
    ensures W(Entry(page, CowPerm(perm))) && !Cow(Entry(page, CowPerm(perm)))
    ensures Lib(Entry(page, CowPerm(perm))) <==> perm & PTE_LIBRARY != 0
  {}

  // ---- reading the states ----

  function PageOf(c: Lazy, p: nat): (page: Page)
    ensures |page| == BY2PG
  {
    if p in c.mem && |c.mem[p]| == BY2PG then c.mem[p] else ZeroPage()
  }

  function At(c: Lazy, s: Slot): Pte { if s in c.maps then c.maps[s] else ZERO }

  predicate Mapped(c: Lazy, s: Slot) { s in c.maps }

  function HandlerOf(c: Lazy, e: nat): Handler { if e in c.handlers then c.handlers[e] else Idle }

  function ForkOf(c: Lazy, e: nat): Fork { if e in c.forks then c.forks[e] else NoFork }

  function ContentOf(a: Eager, s: Slot): Content { if s in a.slots then a.slots[s] else Own(ZeroPage()) }

  function SharedPage(a: Eager, id: nat): Page { if id in a.shared then a.shared[id] else ZeroPage() }

  // A child whose fork has not ended does not run.
  ghost predicate Unborn(c: Lazy, e: nat) { exists p: nat :: ForkOf(c, p) != NoFork && ForkOf(c, p).child == e }

  ghost predicate Running(c: Lazy, e: nat) { e in c.envs && !Unborn(c, e) && HandlerOf(c, e) == Idle }

  ghost predicate Unreferenced(c: Lazy, p: nat) { forall s :: s in c.maps ==> c.maps[s].ppn != p }

  // The slot between duppage's two calls for which parent e still has its writable entry.
  predicate Halfway(c: Lazy, e: nat, v: nat) { ForkOf(c, e).HalfDone? && ForkOf(c, e).next == v }

  // The slot a duppage is at work on.
  predicate Busy(c: Lazy, e: nat, v: nat) { (ForkOf(c, e).HalfDone? || ForkOf(c, e).FlagsRead?) && ForkOf(c, e).next == v }

  predicate HalfDup(c: Lazy, parent: Slot, child: Slot) {
    Halfway(c, parent.env, parent.vpn) && child == Slot(ForkOf(c, parent.env).child, parent.vpn)
  }

  // ---- steps of the machine ----

  // The guards of a step.  The first line of each is what the machine enforces, the rest the
  // conventions of user programs: UCOW belongs to cow_entry, a page is shared either as
  // PTE_LIBRARY on both sides or writable on neither, and none is both PTE_LIBRARY and PTE_COW.
  ghost predicate Enabled(c: Lazy, op: Op) {
    match op
    case Read(e, v, off) =>
      Running(c, e) && Slot(e, v) in c.maps && off < BY2PG && v != UCOW_VPN
    case Write(e, v, off, _) =>
      Running(c, e) && Slot(e, v) in c.maps && W(c.maps[Slot(e, v)]) && off < BY2PG && v != UCOW_VPN
    case ZeroFill(e, v, p) =>
      Running(c, e) && Slot(e, v) !in c.maps && Unreferenced(c, p) && v != UCOW_VPN
    case CowAlloc(e, v, p) =>
      Running(c, e) && Slot(e, v) in c.maps && !W(c.maps[Slot(e, v)]) && Cow(c.maps[Slot(e, v)]) && Unreferenced(c, p)
      && v != UCOW_VPN
    case CowCopyByte(e) =>
      e in c.envs && HandlerOf(c, e).Copying? && HandlerOf(c, e).done < BY2PG
    case CowMap(e) =>
      e in c.envs && HandlerOf(c, e).Copying? && HandlerOf(c, e).done == BY2PG
    case CowUnmap(e) =>
      e in c.envs && HandlerOf(c, e).Remapped?
    case Alloc(e, v, perm, p) =>
      Running(c, e) && Unreferenced(c, p)
      && v != UCOW_VPN && !(perm & PTE_LIBRARY != 0 && perm & PTE_COW != 0) && !Busy(c, e, v)
    case Share(e, v, d, dv, perm) =>
      Running(c, e) && Slot(e, v) in c.maps && d in c.envs
      && (if Lib(c.maps[Slot(e, v)]) then perm & PTE_LIBRARY != 0 && perm & PTE_COW == 0
          else !W(c.maps[Slot(e, v)]) && perm & PTE_LIBRARY == 0 && perm & PTE_W == 0)
      && Running(c, d) && dv != UCOW_VPN && !Busy(c, d, dv)
    case Unmap(e, v) =>
      Running(c, e) && v != UCOW_VPN && !Busy(c, e, v)
    case ForkBegin(e, child) =>
      Running(c, e) && child !in c.envs && ForkOf(c, e) == NoFork
    case DupSkip(e) =>
      Running(c, e) && ForkOf(c, e).Forking? && ForkOf(c, e).next < STACKTOP_VPN && Slot(e, ForkOf(c, e).next) !in c.maps
    case DupRead(e) =>
      Running(c, e) && ForkOf(c, e).Forking? && ForkOf(c, e).next < STACKTOP_VPN && Slot(e, ForkOf(c, e).next) in c.maps
    case DupFirst(e) =>
      Running(c, e) && ForkOf(c, e).FlagsRead?
    case DupSecond(e) =>
      Running(c, e) && ForkOf(c, e).HalfDone?
    case ForkEnd(e) =>
      Running(c, e) && ForkOf(c, e).Forking? && ForkOf(c, e).next == STACKTOP_VPN
    case Exit(e) =>
      Running(c, e) && ForkOf(c, e) == NoFork
  }

  // duppage's first call comes with flags that still say whether the page is writable: no store
  // of the parent's own has made it so since they were read.
  predicate FlagsFresh(c: Lazy, op: Op) {
    op.DupFirst? && ForkOf(c, op.env).FlagsRead? ==>
      (W(At(c, Slot(op.env, ForkOf(c, op.env).next))) <==> ForkOf(c, op.env).perm & PTE_W != 0)
  }

  function MapEntry(c: Lazy, s: Slot, e: Pte): Lazy { c.(maps := c.maps[s := e]) }

  function Poke(page: Page, off: nat, value: bv8): (page': Page)
    ensures |page'| == |page|
  {
    if off < |page| then page[off := value] else page
  }

  function SetByte(c: Lazy, p: nat, off: nat, value: bv8): Lazy {
    c.(mem := c.mem[p := Poke(PageOf(c, p), off, value)])
  }

  function SetHandler(c: Lazy, e: nat, h: Handler): Lazy { c.(handlers := c.handlers[e := h]) }

  function SetFork(c: Lazy, e: nat, f: Fork): Lazy { c.(forks := c.forks[e := f]) }

  // A zeroed page behind a slot.
  function AllocAt(c: Lazy, s: Slot, p: nat, perm: Bits): Lazy {
    MapEntry(c, s, Entry(p, perm)).(mem := c.mem[p := ZeroPage()])
  }

  function Step(c: Lazy, op: Op): Lazy {
    match op
    case Read(_, _, _) => c
    case Write(e, v, off, b) => SetByte(c, At(c, Slot(e, v)).ppn, off, b)
    case ZeroFill(e, v, p) => AllocAt(c, Slot(e, v), p, PTE_W | PTE_U)
    case CowAlloc(e, v, p) =>
      SetHandler(AllocAt(c, Slot(e, UCOW_VPN), p, PTE_W), e, Copying(v, At(c, Slot(e, v)).bits, 0))
    case CowCopyByte(e) =>
      (match HandlerOf(c, e)
       case Copying(v, perm, done) =>
         var src, dst := PageOf(c, At(c, Slot(e, v)).ppn), At(c, Slot(e, UCOW_VPN)).ppn;
         SetHandler(SetByte(c, dst, done, if done < BY2PG then src[done] else 0), e, Copying(v, perm, done + 1))
       case _ => c)
    case CowMap(e) =>
      (match HandlerOf(c, e)
       case Copying(v, perm, _) =>
         SetHandler(MapEntry(c, Slot(e, v), Entry(At(c, Slot(e, UCOW_VPN)).ppn, CowPerm(perm))), e, Remapped(v))
       case _ => c)
    case CowUnmap(e) => SetHandler(c.(maps := c.maps - {Slot(e, UCOW_VPN)}), e, Idle)
    case Alloc(e, v, perm, p) => AllocAt(c, Slot(e, v), p, perm)
    case Share(e, v, d, dv, perm) => MapEntry(c, Slot(d, dv), Entry(At(c, Slot(e, v)).ppn, perm))
    case Unmap(e, v) => c.(maps := c.maps - {Slot(e, v)})
    case ForkBegin(e, child) => SetFork(c, e, Forking(child, 0)).(envs := c.envs + {child})
    case DupSkip(e) =>
      (match ForkOf(c, e)
       case Forking(child, v) => SetFork(c, e, Forking(child, v + 1))
       case _ => c)
    case DupRead(e) =>
      (match ForkOf(c, e)
       case Forking(child, v) => SetFork(c, e, FlagsRead(child, v, At(c, Slot(e, v)).bits))
       case _ => c)
    case DupFirst(e) =>
      (match ForkOf(c, e)
       case FlagsRead(child, v, perm) =>
         var p := At(c, Slot(e, v)).ppn;
         if perm & PTE_W == 0 || perm & PTE_LIBRARY != 0 then
           SetFork(MapEntry(c, Slot(child, v), Entry(p, perm)), e, Forking(child, v + 1))
         else
           SetFork(MapEntry(c, Slot(child, v), Entry(p, DupPerm(perm))), e, HalfDone(child, v, DupPerm(perm)))
       case _ => c)
    case DupSecond(e) =>
      (match ForkOf(c, e)
       case HalfDone(child, v, perm) =>
         SetFork(MapEntry(c, Slot(e, v), Entry(At(c, Slot(e, v)).ppn, perm)), e, Forking(child, v + 1))
       case _ => c)
    case ForkEnd(e) => SetFork(c, e, NoFork)
    case Exit(e) => c.(maps := map s | s in c.maps && s.env != e :: c.maps[s], envs := c.envs - {e})
  }

  // ---- steps of the eager model: faults do nothing, duppage copies ----

  function CopyOf(a: Eager, e: nat): Duplication { if e in a.copies then a.copies[e] else NoCopy }

  function PageIn(a: Eager, s: Slot): Page {
    match ContentOf(a, s) case Own(page) => page case Shared(id) => SharedPage(a, id)
  }

  function SetContent(a: Eager, s: Slot, k: Content): Eager { a.(slots := a.slots[s := k]) }

  // The eager copy of one page; a shared page stays shared.
  function CopyPage(a: Eager, e: nat, child: nat, v: nat): Eager {
    SetContent(a, Slot(child, v), ContentOf(a, Slot(e, v)))
  }

  function EagerStep(a: Eager, op: Op): Eager {
    match op
    case Read(_, _, _) => a
    case Write(e, v, off, b) =>
      (match ContentOf(a, Slot(e, v))
       case Own(page) => SetContent(a, Slot(e, v), Own(Poke(page, off, b)))
       case Shared(id) => a.(shared := a.shared[id := Poke(SharedPage(a, id), off, b)]))
    case ZeroFill(_, _, _) => a
    case CowAlloc(_, _, _) => a
    case CowCopyByte(_) => a
    case CowMap(_) => a
    case CowUnmap(_) => a
    case Alloc(e, v, perm, p) =>
      if perm & PTE_LIBRARY != 0 then SetContent(a, Slot(e, v), Shared(p)).(shared := a.shared[p := ZeroPage()])
      else SetContent(a, Slot(e, v), Own(ZeroPage()))
    case Share(e, v, d, dv, _) => SetContent(a, Slot(d, dv), ContentOf(a, Slot(e, v)))
    case Unmap(e, v) => SetContent(a, Slot(e, v), Own(ZeroPage()))
    case ForkBegin(e, child) => a.(envs := a.envs + {child}, copies := a.copies[e := CopyingTo(child, 0)])
    case DupRead(_) => a
    case DupSkip(e) =>
      var k := CopyOf(a, e);
      if k.CopyingTo? then CopyPage(a, e, k.child, k.next).(copies := a.copies[e := CopyingTo(k.child, k.next + 1)]) else a
    case DupFirst(e) =>
      var k := CopyOf(a, e);
      if k.CopyingTo? then CopyPage(a, e, k.child, k.next).(copies := a.copies[e := CopyingTo(k.child, k.next + 1)]) else a
    case DupSecond(e) =>
      var k := CopyOf(a, e);
      if k.CopyingTo? && k.next > 0 then CopyPage(a, e, k.child, k.next - 1) else a
    case ForkEnd(e) => a.(copies := a.copies[e := NoCopy])
    case Exit(e) => a.(slots := map s | s in a.slots && s.env != e :: a.slots[s], envs := a.envs - {e})
  }

  // ---- invariant ----

  // Two slots on one page: both shared, or both private and read-only, except that the
  // parent of a half-done duppage may still write the page its child will get.
  predicate Compatible(c: Lazy, s1: Slot, s2: Slot)
    requires s1 in c.maps && s2 in c.maps
  {
    var (e1, e2) := (c.maps[s1], c.maps[s2]);
    (Lib(e1) <==> Lib(e2)) && (Lib(e1) || ((W(e1) ==> HalfDup(c, s1, s2)) && (W(e2) ==> HalfDup(c, s2, s1))))
  }

  ghost predicate Exclusive(c: Lazy) {
    && (forall s1, s2 :: (s1 in c.maps && s2 in c.maps && s1 != s2 && s1.vpn != UCOW_VPN && s2.vpn != UCOW_VPN &&
                          c.maps[s1].ppn == c.maps[s2].ppn) ==> Compatible(c, s1, s2))
    && (forall s :: s in c.maps && s.vpn != UCOW_VPN ==> !(Lib(c.maps[s]) && Cow(c.maps[s])))
  }

  // The scratch page belongs to the handler alone; it holds the bytes copied so far.
  ghost predicate HandlerOk(c: Lazy, e: nat) {
    var h := HandlerOf(c, e);
    var u := Slot(e, UCOW_VPN);
    if h == Idle then u !in c.maps
    else
      && e in c.envs && h.vpn != UCOW_VPN && u in c.maps && Slot(e, h.vpn) in c.maps
      && var m := c.maps[Slot(e, h.vpn)];
         if h.Copying? then
           && h.done <= BY2PG && m.bits == h.perm && !W(m) && Cow(m)
           && (forall s :: s in c.maps && s != u ==> c.maps[s].ppn != c.maps[u].ppn)
           && (forall i :: 0 <= i < h.done ==> PageOf(c, c.maps[u].ppn)[i] == PageOf(c, m.ppn)[i])
         else
           && m.ppn == c.maps[u].ppn
           && (forall s :: s in c.maps && s != u && s != Slot(e, h.vpn) ==> c.maps[s].ppn != c.maps[u].ppn)
  }

  ghost predicate ForkOk(c: Lazy, e: nat) {
    var f := ForkOf(c, e);
    f == NoFork || (
      && e in c.envs && f.child in c.envs && f.child != e && f.next <= STACKTOP_VPN
      && HandlerOf(c, f.child) == Idle && ForkOf(c, f.child) == NoFork
      && (forall v: nat :: (v > f.next || (v == f.next && !f.HalfDone?)) ==> Slot(f.child, v) !in c.maps)
      && (f.FlagsRead? ==>
            var s := Slot(e, f.next);
            && f.next < STACKTOP_VPN && f.next != UCOW_VPN && s in c.maps
            && (c.maps[s].bits == f.perm ||
                (W(c.maps[s]) && !Lib(c.maps[s]) && f.perm & PTE_W == 0 && f.perm & PTE_LIBRARY == 0)))
      && (f.HalfDone? ==>
            var s, d := Slot(e, f.next), Slot(f.child, f.next);
            && f.next < STACKTOP_VPN && f.next != UCOW_VPN && s in c.maps && d in c.maps && c.maps[d].ppn == c.maps[s].ppn
            && W(c.maps[s]) && !Lib(c.maps[s]) && f.perm == DupPerm(c.maps[s].bits) && c.maps[d] == Entry(c.maps[s].ppn, f.perm)))
  }

  ghost predicate Inv(c: Lazy) {
    && (forall s :: s in c.maps ==> s.env in c.envs)
    && Exclusive(c)
    && (forall e: nat :: HandlerOk(c, e))
    && (forall e: nat :: ForkOk(c, e))
    && (forall e1: nat, e2: nat :: ForkOf(c, e1) != NoFork && ForkOf(c, e2) != NoFork && e1 != e2 ==> ForkOf(c, e1).child != ForkOf(c, e2).child)
  }

  // ---- refinement ----

  function View(c: Lazy, s: Slot): Content {
    if s !in c.maps then Own(ZeroPage())
    else if Lib(c.maps[s]) then Shared(c.maps[s].ppn)
    else Own(PageOf(c, c.maps[s].ppn))
  }

  ghost predicate PendingChild(c: Lazy, s: Slot) {
    exists p: nat :: ForkOf(c, p).HalfDone? && ForkOf(c, p).child == s.env && ForkOf(c, p).next == s.vpn
  }

  // The eager duplication that corresponds to a fork.
  function Progress(f: Fork): Duplication {
    match f
    case NoFork => NoCopy
    case Forking(child, next) => CopyingTo(child, next)
    case FlagsRead(child, next, _) => CopyingTo(child, next)
    case HalfDone(child, next, _) => CopyingTo(child, next + 1)
  }

  ghost predicate Refines(c: Lazy, a: Eager) {
    && a.envs == c.envs
    && (forall s :: s in a.slots ==> s.env in a.envs)
    && (forall e: nat :: CopyOf(a, e) == Progress(ForkOf(c, e)))
    && (forall s: Slot :: s.env in c.envs && s.vpn != UCOW_VPN && !PendingChild(c, s) ==> ContentOf(a, s) == View(c, s))
    && (forall s :: s in c.maps && s.vpn != UCOW_VPN && Lib(c.maps[s]) ==> SharedPage(a, c.maps[s].ppn) == PageOf(c, c.maps[s].ppn))
  }

  lemma WriteExclusive(c: Lazy, e: nat, v: nat, s: Slot)
    requires Inv(c) && Running(c, e) && Slot(e, v) in c.maps && W(c.maps[Slot(e, v)]) && v != UCOW_VPN
    requires s in c.maps && s != Slot(e, v) && c.maps[s].ppn == c.maps[Slot(e, v)].ppn
    ensures s.vpn != UCOW_VPN && (Lib(c.maps[s]) <==> Lib(c.maps[Slot(e, v)])) && (Cow(c.maps[s]) ==> !Lib(c.maps[s]))
    ensures !Lib(c.maps[s]) ==> PendingChild(c, s) && HandlerOf(c, s.env) == Idle
  {
    assert HandlerOk(c, s.env);
    assert HandlerOk(c, e);
    assert ForkOk(c, e);
    if s.vpn != UCOW_VPN {
      assert Compatible(c, Slot(e, v), s);
    }
  }

  // ---- frames ----

  // Page p changes; it is neither the scratch page of e's handler nor the page being copied.
  lemma HandlerKeepsPages(c: Lazy, c': Lazy, e: nat, p: nat)
    requires HandlerOk(c, e) && c'.maps == c.maps && c'.handlers == c.handlers && c'.envs == c.envs
    requires forall p': nat :: p' != p ==> PageOf(c', p') == PageOf(c, p')
    requires HandlerOf(c, e).Copying? ==> At(c, Slot(e, UCOW_VPN)).ppn != p && At(c, Slot(e, HandlerOf(c, e).vpn)).ppn != p
    ensures HandlerOk(c', e)
  {
  }

  lemma PagesAfterPoke(c: Lazy, p: nat, off: nat, b: bv8)
    ensures PageOf(SetByte(c, p, off, b), p) == Poke(PageOf(c, p), off, b)
    ensures forall p': nat :: p' != p ==> PageOf(SetByte(c, p, off, b), p') == PageOf(c, p')
  {
  }

  // Only pages change: who may share with whom does not.
  lemma SharingKept(c: Lazy, c': Lazy)
    requires c'.maps == c.maps && c'.forks == c.forks && c'.envs == c.envs && c'.handlers == c.handlers
    ensures Exclusive(c) ==> Exclusive(c')
    ensures forall e: nat :: ForkOk(c, e) ==> ForkOk(c', e)
    ensures forall s: Slot :: PendingChild(c', s) <==> PendingChild(c, s)
  {
    assert forall e: nat :: ForkOf(c', e) == ForkOf(c, e) && HandlerOf(c', e) == HandlerOf(c, e);
    if Exclusive(c) {
      forall s1, s2 | s1 in c'.maps && s2 in c'.maps && s1 != s2 && s1.vpn != UCOW_VPN && s2.vpn != UCOW_VPN &&
        c'.maps[s1].ppn == c'.maps[s2].ppn ensures Compatible(c', s1, s2)
      {
        assert Compatible(c, s1, s2);
      }
    }
  }

  // User mappings are at most dropped.
  lemma ExclusiveKept(c: Lazy, c': Lazy)
    requires Exclusive(c) && c'.forks == c.forks
    requires forall s :: s in c'.maps && s.vpn != UCOW_VPN ==> s in c.maps && c'.maps[s] == c.maps[s]
    ensures Exclusive(c')
  {
    assert forall e: nat :: ForkOf(c', e) == ForkOf(c, e);
    forall s1, s2 | s1 in c'.maps && s2 in c'.maps && s1 != s2 && s1.vpn != UCOW_VPN && s2.vpn != UCOW_VPN &&
      c'.maps[s1].ppn == c'.maps[s2].ppn ensures Compatible(c', s1, s2)
    {
      assert Compatible(c, s1, s2);
    }
  }

  // A step of another environment that keeps off the pages of e's handler.
  lemma HandlerKept(c: Lazy, c': Lazy, e: nat)
    requires HandlerOk(c, e) && HandlerOf(c', e) == HandlerOf(c, e) && (e in c.envs ==> e in c'.envs)
    requires forall s: Slot :: s.env == e ==> (s in c'.maps <==> s in c.maps) && (s in c.maps ==> c'.maps[s] == c.maps[s])
    requires HandlerOf(c, e) != Idle ==> forall s :: s in c'.maps && s.env != e ==> c'.maps[s].ppn != At(c, Slot(e, UCOW_VPN)).ppn
    requires HandlerOf(c, e).Copying? ==>
      PageOf(c', At(c, Slot(e, UCOW_VPN)).ppn) == PageOf(c, At(c, Slot(e, UCOW_VPN)).ppn) &&
      PageOf(c', At(c, Slot(e, HandlerOf(c, e).vpn)).ppn) == PageOf(c, At(c, Slot(e, HandlerOf(c, e).vpn)).ppn)
    ensures HandlerOk(c', e)
  {
  }

  // A step that keeps off the slot of a duppage at work and off the child's.
  lemma ForkKept(c: Lazy, c': Lazy, e: nat)
    requires Inv(c) && ForkOf(c', e) == ForkOf(c, e) && c.envs <= c'.envs
    requires ForkOf(c, e) != NoFork ==> HandlerOf(c', ForkOf(c, e).child) == Idle && ForkOf(c', ForkOf(c, e).child) == NoFork
    requires forall s: Slot :: ForkOf(c, e) != NoFork && (s.env == ForkOf(c, e).child || (Busy(c, e, s.vpn) && s.env == e)) ==>
      (s in c'.maps <==> s in c.maps) && (s in c.maps ==> c'.maps[s] == c.maps[s])
    ensures ForkOk(c', e)
  {
    assert ForkOk(c, e);
  }

  // ---- each step keeps the invariant and the refinement ----

  lemma WriteKeeps(c: Lazy, e: nat, v: nat, off: nat, b: bv8)
    requires Inv(c) && Enabled(c, Write(e, v, off, b))
    ensures Inv(Step(c, Write(e, v, off, b)))
  {
    var p := At(c, Slot(e, v)).ppn;
    var c' := Step(c, Write(e, v, off, b));
    PagesAfterPoke(c, p, off, b);
    SharingKept(c, c');
    forall e': nat ensures HandlerOk(c', e') {
      assert HandlerOk(c, e');
      var h := HandlerOf(c, e');
      if h.Copying? && At(c, Slot(e', h.vpn)).ppn == p {
        WriteExclusive(c, e, v, Slot(e', h.vpn));
      }
      HandlerKeepsPages(c, c', e', p);
    }
    assert forall e': nat :: ForkOf(c', e') == ForkOf(c, e');
  }

  lemma WriteRefines(c: Lazy, a: Eager, e: nat, v: nat, off: nat, b: bv8)
    requires Inv(c) && Refines(c, a) && Enabled(c, Write(e, v, off, b))
    ensures Refines(Step(c, Write(e, v, off, b)), EagerStep(a, Write(e, v, off, b)))
  {
    var p := At(c, Slot(e, v)).ppn;
    var c' := Step(c, Write(e, v, off, b));
    var a' := EagerStep(a, Write(e, v, off, b));
    PagesAfterPoke(c, p, off, b);
    SharingKept(c, c');
    assert forall e': nat :: ForkOf(c', e') == ForkOf(c, e') && CopyOf(a', e') == CopyOf(a, e');
    assert !PendingChild(c, Slot(e, v));
    assert ContentOf(a, Slot(e, v)) == View(c, Slot(e, v));
    forall s: Slot | s.env in c.envs && s.vpn != UCOW_VPN && !PendingChild(c', s) ensures ContentOf(a', s) == View(c', s) {
      assert ContentOf(a, s) == View(c, s);
      if s in c.maps && s != Slot(e, v) && c.maps[s].ppn == p {
        WriteExclusive(c, e, v, s);
      }
    }
    forall s | s in c'.maps && s.vpn != UCOW_VPN && Lib(c'.maps[s]) ensures SharedPage(a', c'.maps[s].ppn) == PageOf(c', c'.maps[s].ppn) {
      assert SharedPage(a, c.maps[s].ppn) == PageOf(c, c.maps[s].ppn);
      if s != Slot(e, v) && c.maps[s].ppn == p {
        WriteExclusive(c, e, v, s);
      }
    }
  }

  // A running environment's slot gets an entry on a page no one refers to, or
  // on one that may be shared.
  ghost predicate SlotSet(c: Lazy, c': Lazy, s: Slot, x: Pte) {
    && Running(c, s.env) && s.vpn != UCOW_VPN && !Busy(c, s.env, s.vpn) && !(Lib(x) && Cow(x))
    && c'.maps == c.maps[s := x] && c'.handlers == c.handlers && c'.forks == c.forks && c'.envs == c.envs
    && (forall s2 :: s2 in c.maps && s2 != s && c.maps[s2].ppn == x.ppn ==>
          s2.vpn != UCOW_VPN && (Lib(c.maps[s2]) <==> Lib(x)) && (Lib(x) || (!W(c.maps[s2]) && !W(x))))
    && (forall s2 :: s2 in c.maps ==> PageOf(c', c.maps[s2].ppn) == PageOf(c, c.maps[s2].ppn))
  }

  lemma SlotSetKeepsForks(c: Lazy, c': Lazy, s: Slot, x: Pte, e: nat)
    requires Inv(c) && SlotSet(c, c', s, x)
    ensures ForkOk(c', e)
  {
    assert ForkOk(c, e);
    assert forall e: nat :: ForkOf(c', e) == ForkOf(c, e) && HandlerOf(c', e) == HandlerOf(c, e);
  }

  lemma SlotSetKeepsHandlers(c: Lazy, c': Lazy, s: Slot, x: Pte, e: nat)
    requires Inv(c) && SlotSet(c, c', s, x)
    ensures HandlerOk(c', e)
  {
    assert HandlerOk(c, e);
    assert HandlerOf(c', e) == HandlerOf(c, e);
    var u := Slot(e, UCOW_VPN);
    if HandlerOf(c, e) != Idle {
      assert e != s.env;
      assert At(c', u) == At(c, u) && At(c', Slot(e, HandlerOf(c, e).vpn)) == At(c, Slot(e, HandlerOf(c, e).vpn));
      assert c.maps[u].ppn != x.ppn;
    }
  }

  lemma SlotSetKeeps(c: Lazy, c': Lazy, s: Slot, x: Pte)
    requires Inv(c) && SlotSet(c, c', s, x)
    ensures Inv(c')
  {
    forall e: nat ensures HandlerOk(c', e) && ForkOk(c', e) {
      SlotSetKeepsHandlers(c, c', s, x, e);
      SlotSetKeepsForks(c, c', s, x, e);
    }
    assert forall e: nat :: ForkOf(c', e) == ForkOf(c, e);
    assert Exclusive(c') by {
      forall s1, s2 | s1 in c'.maps && s2 in c'.maps && s1 != s2 && s1.vpn != UCOW_VPN && s2.vpn != UCOW_VPN &&
        c'.maps[s1].ppn == c'.maps[s2].ppn ensures Compatible(c', s1, s2)
      {
        if s1 != s && s2 != s { assert Compatible(c, s1, s2); }
      }
    }
  }

  lemma SlotSetRefines(c: Lazy, c': Lazy, s: Slot, x: Pte, a: Eager, a': Eager)
    requires Inv(c) && Refines(c, a) && SlotSet(c, c', s, x)
    requires a'.envs == a.envs && a'.copies == a.copies && a'.slots == a.slots[s := View(c', s)]
    requires forall p: nat :: p != x.ppn ==> SharedPage(a', p) == SharedPage(a, p)
    requires Lib(x) ==> SharedPage(a', x.ppn) == PageOf(c', x.ppn)
    requires (exists s2 :: s2 in c.maps && s2 != s && c.maps[s2].ppn == x.ppn) ==> SharedPage(a', x.ppn) == SharedPage(a, x.ppn)
    ensures Refines(c', a')
  {
    assert forall e: nat :: ForkOf(c', e) == ForkOf(c, e) && CopyOf(a', e) == CopyOf(a, e);
    assert forall s: Slot :: PendingChild(c', s) <==> PendingChild(c, s);
    forall s2: Slot | s2.env in c.envs && s2.vpn != UCOW_VPN && !PendingChild(c', s2) ensures ContentOf(a', s2) == View(c', s2) {
      assert ContentOf(a, s2) == View(c, s2);
    }
    forall s2 | s2 in c'.maps && s2.vpn != UCOW_VPN && Lib(c'.maps[s2])
      ensures SharedPage(a', c'.maps[s2].ppn) == PageOf(c', c'.maps[s2].ppn)
    {
      if s2 != s { assert SharedPage(a, c.maps[s2].ppn) == PageOf(c, c.maps[s2].ppn); }
    }
  }

  lemma FreshSlot(c: Lazy, s: Slot, p: nat, perm: Bits)
    requires Inv(c) && Running(c, s.env) && Unreferenced(c, p) && s.vpn != UCOW_VPN && !Busy(c, s.env, s.vpn)
    requires !(perm & PTE_LIBRARY != 0 && perm & PTE_COW != 0)
    ensures SlotSet(c, AllocAt(c, s, p, perm), s, Entry(p, perm)) && PageOf(AllocAt(c, s, p, perm), p) == ZeroPage()
  {
    EntryFlags(p, perm);
  }

  lemma ZeroFillKeeps(c: Lazy, a: Eager, e: nat, v: nat, p: nat)
    requires Inv(c) && Refines(c, a) && Enabled(c, ZeroFill(e, v, p))
    ensures Inv(Step(c, ZeroFill(e, v, p))) && Refines(Step(c, ZeroFill(e, v, p)), a)
  {
    var s := Slot(e, v);
    var c' := Step(c, ZeroFill(e, v, p));
    assert ForkOk(c, e);
    EntryFlags(p, PTE_W | PTE_U);
    FreshSlot(c, s, p, PTE_W | PTE_U);
    SlotSetKeeps(c, c', s, Entry(p, PTE_W | PTE_U));
    assert !PendingChild(c, s);
    assert ContentOf(a, s) == Own(ZeroPage());
    assert forall e: nat :: ForkOf(c', e) == ForkOf(c, e);
    assert forall s: Slot :: PendingChild(c', s) <==> PendingChild(c, s);
    forall s2: Slot | s2.env in c.envs && s2.vpn != UCOW_VPN && !PendingChild(c', s2) ensures ContentOf(a, s2) == View(c', s2) {
      assert ContentOf(a, s2) == View(c, s2);
    }
  }

  lemma AllocKeeps(c: Lazy, a: Eager, e: nat, v: nat, perm: Bits, p: nat)
    requires Inv(c) && Refines(c, a) && Enabled(c, Alloc(e, v, perm, p))
    ensures Inv(Step(c, Alloc(e, v, perm, p))) && Refines(Step(c, Alloc(e, v, perm, p)), EagerStep(a, Alloc(e, v, perm, p)))
  {
    var s := Slot(e, v);
    var c' := Step(c, Alloc(e, v, perm, p));
    EntryFlags(p, perm);
    FreshSlot(c, s, p, perm);
    SlotSetKeeps(c, c', s, Entry(p, perm));
    SlotSetRefines(c, c', s, Entry(p, perm), a, EagerStep(a, Alloc(e, v, perm, p)));
  }

  lemma ShareKeeps(c: Lazy, a: Eager, e: nat, v: nat, d: nat, dv: nat, perm: Bits)
    requires Inv(c) && Refines(c, a) && Enabled(c, Share(e, v, d, dv, perm))
    ensures Inv(Step(c, Share(e, v, d, dv, perm)))
    ensures Refines(Step(c, Share(e, v, d, dv, perm)), EagerStep(a, Share(e, v, d, dv, perm)))
  {
    var s, src := Slot(d, dv), Slot(e, v);
    var x := Entry(At(c, src).ppn, perm);
    var c' := Step(c, Share(e, v, d, dv, perm));
    EntryFlags(x.ppn, perm);
    assert HandlerOk(c, e);
    forall s2 | s2 in c.maps && s2 != s && c.maps[s2].ppn == x.ppn
      ensures s2.vpn != UCOW_VPN && (Lib(c.maps[s2]) <==> Lib(x)) && (Lib(x) || (!W(c.maps[s2]) && !W(x)))
    {
      assert HandlerOk(c, s2.env);
      if s2 != src && s2.vpn != UCOW_VPN { assert Compatible(c, s2, src); }
    }
    SlotSetKeeps(c, c', s, x);
    assert !PendingChild(c, src);
    assert ContentOf(a, src) == View(c, src);
    SlotSetRefines(c, c', s, x, a, EagerStep(a, Share(e, v, d, dv, perm)));
  }

  lemma UnmapKeeps(c: Lazy, e: nat, v: nat)
    requires Inv(c) && Enabled(c, Unmap(e, v))
    ensures Inv(Step(c, Unmap(e, v)))
  {
    var c' := Step(c, Unmap(e, v));
    assert forall e: nat :: ForkOf(c', e) == ForkOf(c, e) && HandlerOf(c', e) == HandlerOf(c, e);
    forall e': nat ensures HandlerOk(c', e') {
      assert HandlerOk(c, e');
      if e' != e { HandlerKept(c, c', e'); }
    }
    forall e': nat ensures ForkOk(c', e') {
      assert ForkOk(c, e');
      ForkKept(c, c', e');
    }
    ExclusiveKept(c, c');
  }

  lemma UnmapRefines(c: Lazy, a: Eager, e: nat, v: nat)
    requires Inv(c) && Refines(c, a) && Enabled(c, Unmap(e, v))
    ensures Refines(Step(c, Unmap(e, v)), EagerStep(a, Unmap(e, v)))
  {
    var c' := Step(c, Unmap(e, v));
    var a' := EagerStep(a, Unmap(e, v));
    assert forall e: nat :: ForkOf(c', e) == ForkOf(c, e) && CopyOf(a', e) == CopyOf(a, e);
    assert forall s: Slot :: PendingChild(c', s) <==> PendingChild(c, s);
    forall s2: Slot | s2.env in c.envs && s2.vpn != UCOW_VPN && !PendingChild(c', s2) ensures ContentOf(a', s2) == View(c', s2) {
      assert ContentOf(a, s2) == View(c, s2);
    }
  }

  // ---- cow_entry ----

  // A step of e's handler: it touches its scratch slot and the scratch page only.
  ghost predicate HandlerStep(c: Lazy, c': Lazy, e: nat) {
    && !Unborn(c, e) && c'.envs == c.envs && c'.forks == c.forks
    && (forall e': nat :: e' != e ==> HandlerOf(c', e') == HandlerOf(c, e'))
    && (forall s: Slot :: s != Slot(e, UCOW_VPN) ==> (s in c'.maps <==> s in c.maps) && (s in c.maps ==> c'.maps[s] == c.maps[s]))
    && (forall s :: s in c.maps && s != Slot(e, UCOW_VPN) ==> PageOf(c', c.maps[s].ppn) == PageOf(c, c.maps[s].ppn))
    && (Slot(e, UCOW_VPN) in c'.maps ==>
          e in c.envs && forall s :: s in c.maps && s.env != e && s.vpn == UCOW_VPN ==> c.maps[s].ppn != c'.maps[Slot(e, UCOW_VPN)].ppn)
  }

  lemma HandlerStepKeeps(c: Lazy, c': Lazy, e: nat)
    requires Inv(c) && HandlerStep(c, c', e) && HandlerOk(c', e)
    ensures Inv(c')
  {
    forall e': nat ensures HandlerOk(c', e') {
      assert HandlerOk(c, e');
      if e' != e { HandlerKept(c, c', e'); }
    }
    assert forall e: nat :: ForkOf(c', e) == ForkOf(c, e);
    forall e': nat ensures ForkOk(c', e') {
      assert ForkOk(c, e');
      assert ForkOf(c, e') != NoFork ==> ForkOf(c, e').child != e;
      ForkKept(c, c', e');
    }
    ExclusiveKept(c, c');
  }

  // The eager model sees nothing of it.
  lemma HandlerStepRefines(c: Lazy, c': Lazy, a: Eager, e: nat)
    requires Refines(c, a) && HandlerStep(c, c', e)
    ensures Refines(c', a)
  {
    assert forall e: nat :: ForkOf(c', e) == ForkOf(c, e);
    assert forall s: Slot :: PendingChild(c', s) <==> PendingChild(c, s);
    forall s: Slot | s.env in c.envs && s.vpn != UCOW_VPN && !PendingChild(c', s) ensures ContentOf(a, s) == View(c', s) {
      assert ContentOf(a, s) == View(c, s);
    }
    forall s | s in c'.maps && s.vpn != UCOW_VPN && Lib(c'.maps[s]) ensures SharedPage(a, c'.maps[s].ppn) == PageOf(c', c'.maps[s].ppn) {
      assert SharedPage(a, c.maps[s].ppn) == PageOf(c, c.maps[s].ppn);
    }
  }

  lemma CowAllocKeeps(c: Lazy, a: Eager, e: nat, v: nat, p: nat)
    requires Inv(c) && Refines(c, a) && Enabled(c, CowAlloc(e, v, p))
    ensures Inv(Step(c, CowAlloc(e, v, p))) && Refines(Step(c, CowAlloc(e, v, p)), a)
  {
    var c' := Step(c, CowAlloc(e, v, p));
    assert HandlerStep(c, c', e);
    HandlerStepKeeps(c, c', e);
    HandlerStepRefines(c, c', a, e);
  }

  lemma HandlerRuns(c: Lazy, e: nat)
    requires Inv(c) && HandlerOf(c, e) != Idle
    ensures HandlerOk(c, e) && !Unborn(c, e)
  {
    forall p: nat | ForkOf(c, p) != NoFork ensures ForkOf(c, p).child != e {
      assert ForkOk(c, p);
    }
  }

  lemma CowCopyByteKeeps(c: Lazy, a: Eager, e: nat)
    requires Inv(c) && Refines(c, a) && Enabled(c, CowCopyByte(e))
    ensures Inv(Step(c, CowCopyByte(e))) && Refines(Step(c, CowCopyByte(e)), a)
  {
    var c' := Step(c, CowCopyByte(e));
    var h := HandlerOf(c, e);
    HandlerRuns(c, e);
    PagesAfterPoke(c, At(c, Slot(e, UCOW_VPN)).ppn, h.done, PageOf(c, At(c, Slot(e, h.vpn)).ppn)[h.done]);
    assert HandlerStep(c, c', e);
    HandlerStepKeeps(c, c', e);
    HandlerStepRefines(c, c', a, e);
  }

  lemma CowUnmapKeeps(c: Lazy, a: Eager, e: nat)
    requires Inv(c) && Refines(c, a) && Enabled(c, CowUnmap(e))
    ensures Inv(Step(c, CowUnmap(e))) && Refines(Step(c, CowUnmap(e)), a)
  {
    var c' := Step(c, CowUnmap(e));
    HandlerRuns(c, e);
    HandlerStepKeeps(c, c', e);
    HandlerStepRefines(c, c', a, e);
  }

  // If the handler's page is one whose flags duppage has read, they are stale now.
  lemma CowMapForks(c: Lazy, e: nat, e': nat)
    requires Inv(c) && Enabled(c, CowMap(e))
    ensures ForkOk(Step(c, CowMap(e)), e')
  {
    var c', h := Step(c, CowMap(e)), HandlerOf(c, e);
    HandlerRuns(c, e);
    assert ForkOk(c, e') && (ForkOf(c, e') != NoFork ==> ForkOf(c, e').child != e);
    assert ForkOf(c', e') == ForkOf(c, e');
    EntryFlags(c.maps[Slot(e, UCOW_VPN)].ppn, CowPerm(h.perm));
    if !(e' == e && Busy(c, e, h.vpn)) { ForkKept(c, c', e'); }
  }

  // The copy replaces the page it was made from; only now do the two differ in who holds them.
  lemma CowMapKeeps(c: Lazy, e: nat)
    requires Inv(c) && Enabled(c, CowMap(e))
    ensures Inv(Step(c, CowMap(e)))
  {
    var c' := Step(c, CowMap(e));
    var h := HandlerOf(c, e);
    HandlerRuns(c, e);
    var s, u := Slot(e, h.vpn), Slot(e, UCOW_VPN);
    assert forall e: nat :: ForkOf(c', e) == ForkOf(c, e);
    forall e': nat ensures HandlerOk(c', e') {
      assert HandlerOk(c, e');
      if e' != e { HandlerKept(c, c', e'); }
    }
    forall e': nat ensures ForkOk(c', e') { CowMapForks(c, e, e'); }
    assert Exclusive(c') by {
      EntryFlags(c.maps[u].ppn, CowPerm(h.perm));
      forall s1, s2 | s1 in c'.maps && s2 in c'.maps && s1 != s2 && s1.vpn != UCOW_VPN && s2.vpn != UCOW_VPN &&
        c'.maps[s1].ppn == c'.maps[s2].ppn ensures Compatible(c', s1, s2)
      {
        assert s1 != s && s2 != s;
        assert Compatible(c, s1, s2);
      }
    }
  }

  lemma CowMapRefines(c: Lazy, a: Eager, e: nat)
    requires Inv(c) && Refines(c, a) && Enabled(c, CowMap(e))
    ensures Refines(Step(c, CowMap(e)), a)
  {
    var c' := Step(c, CowMap(e));
    var h := HandlerOf(c, e);
    HandlerRuns(c, e);
    var s, u := Slot(e, h.vpn), Slot(e, UCOW_VPN);
    EntryFlags(c.maps[u].ppn, CowPerm(h.perm));
    assert !Lib(c.maps[s]);
    assert PageOf(c, c.maps[u].ppn) == PageOf(c, c.maps[s].ppn);
    assert forall e: nat :: ForkOf(c', e) == ForkOf(c, e);
    assert forall s: Slot :: PendingChild(c', s) <==> PendingChild(c, s);
    forall s2: Slot | s2.env in c.envs && s2.vpn != UCOW_VPN && !PendingChild(c', s2) ensures ContentOf(a, s2) == View(c', s2) {
      assert ContentOf(a, s2) == View(c, s2);
    }
    forall s2 | s2 in c'.maps && s2.vpn != UCOW_VPN && Lib(c'.maps[s2]) ensures SharedPage(a, c'.maps[s2].ppn) == PageOf(c', c'.maps[s2].ppn) {
      assert SharedPage(a, c.maps[s2].ppn) == PageOf(c, c.maps[s2].ppn);
    }
  }

  // ---- fork ----

  lemma ForkBeginKeeps(c: Lazy, e: nat, child: nat)
    requires Inv(c) && Enabled(c, ForkBegin(e, child))
    ensures Inv(Step(c, ForkBegin(e, child)))
  {
    var c' := Step(c, ForkBegin(e, child));
    assert HandlerOk(c, child) && ForkOk(c, child) && child != e;
    assert forall e': nat :: e' != e ==> ForkOf(c', e') == ForkOf(c, e');
    assert forall e': nat :: HandlerOf(c', e') == HandlerOf(c, e');
    forall e': nat ensures HandlerOk(c', e') {
      assert HandlerOk(c, e');
      HandlerKept(c, c', e');
    }
    forall e': nat ensures ForkOk(c', e') {
      assert ForkOk(c, e');
      if e' != e { ForkKept(c, c', e'); }
    }
    assert Exclusive(c') by {
      forall s1, s2 | s1 in c'.maps && s2 in c'.maps && s1 != s2 && s1.vpn != UCOW_VPN && s2.vpn != UCOW_VPN &&
        c'.maps[s1].ppn == c'.maps[s2].ppn ensures Compatible(c', s1, s2)
      {
        assert Compatible(c, s1, s2);
      }
    }
    forall e1: nat, e2: nat | ForkOf(c', e1) != NoFork && ForkOf(c', e2) != NoFork && e1 != e2
      ensures ForkOf(c', e1).child != ForkOf(c', e2).child
    {
      assert ForkOk(c, e1) && ForkOk(c, e2);
    }
  }

  lemma ForkBeginRefines(c: Lazy, a: Eager, e: nat, child: nat)
    requires Inv(c) && Refines(c, a) && Enabled(c, ForkBegin(e, child))
    ensures Refines(Step(c, ForkBegin(e, child)), EagerStep(a, ForkBegin(e, child)))
  {
    var c' := Step(c, ForkBegin(e, child));
    var a' := EagerStep(a, ForkBegin(e, child));
    assert forall e': nat :: e' != e ==> ForkOf(c', e') == ForkOf(c, e') && CopyOf(a', e') == CopyOf(a, e');
    assert ForkOf(c', e) == Forking(child, 0);
    assert forall s: Slot :: PendingChild(c', s) <==> PendingChild(c, s);
    forall s: Slot | s.env in c'.envs && s.vpn != UCOW_VPN && !PendingChild(c', s) ensures ContentOf(a', s) == View(c', s) {
      if s.env != child { assert ContentOf(a, s) == View(c, s); }
    }
    forall s | s in c'.maps && s.vpn != UCOW_VPN && Lib(c'.maps[s]) ensures SharedPage(a', c'.maps[s].ppn) == PageOf(c', c'.maps[s].ppn) {
      assert SharedPage(a, c.maps[s].ppn) == PageOf(c, c.maps[s].ppn);
    }
  }

  // duppage's first call: what other mappings of the parent's page can be.
  lemma ParentsPage(c: Lazy, e: nat, v: nat, s2: Slot)
    requires Inv(c) && Running(c, e) && ForkOf(c, e).FlagsRead? && Slot(e, v) in c.maps
    requires s2 in c.maps && s2 != Slot(e, v) && c.maps[s2].ppn == c.maps[Slot(e, v)].ppn
    ensures s2.vpn != UCOW_VPN && v != UCOW_VPN && (Lib(c.maps[s2]) <==> Lib(c.maps[Slot(e, v)]))
    ensures Lib(c.maps[s2]) || (!W(c.maps[s2]) && !W(c.maps[Slot(e, v)]))
  {
    assert HandlerOk(c, e) && HandlerOk(c, s2.env);
    if s2.vpn != UCOW_VPN { assert Compatible(c, s2, Slot(e, v)); }
  }

  // Both outcomes of duppage's first call that map the page: at once for good, or halfway.
  ghost predicate Duplicated(c: Lazy, c': Lazy, e: nat, f: Fork) {
    && Running(c, e) && ForkOf(c, e).FlagsRead? && ForkOf(c, e).next < STACKTOP_VPN
    && var v, child := ForkOf(c, e).next, ForkOf(c, e).child;
    && Slot(e, v) in c.maps
    && var m := c.maps[Slot(e, v)];
    && (if W(m) && !Lib(m) then
          f == HalfDone(child, v, DupPerm(m.bits)) && c'.maps == c.maps[Slot(child, v) := Entry(m.ppn, DupPerm(m.bits))]
        else
          f == Forking(child, v + 1) && c'.maps == c.maps[Slot(child, v) := Entry(m.ppn, m.bits)])
    && c'.forks == c.forks[e := f] && c'.mem == c.mem && c'.envs == c.envs && c'.handlers == c.handlers
  }

  lemma DuplicatedForks(c: Lazy, c': Lazy, e: nat, f: Fork, e': nat)
    requires Inv(c) && Duplicated(c, c', e, f)
    ensures ForkOk(c', e')
  {
    assert ForkOk(c, e) && ForkOk(c, e') && HandlerOk(c, e);
    assert forall e': nat :: e' != e ==> ForkOf(c', e') == ForkOf(c, e');
    var v, child := ForkOf(c, e).next, ForkOf(c, e).child;
    EntryFlags(c.maps[Slot(e, v)].ppn, c.maps[Slot(e, v)].bits);
    if e' != e { ForkKept(c, c', e'); }
  }

  lemma DuplicatedHandlers(c: Lazy, c': Lazy, e: nat, f: Fork, e': nat)
    requires Inv(c) && Duplicated(c, c', e, f)
    ensures HandlerOk(c', e')
  {
    var v, child := ForkOf(c, e).next, ForkOf(c, e).child;
    assert ForkOk(c, e) && HandlerOk(c, e) && HandlerOk(c, e') && HandlerOk(c, child);
    assert HandlerOf(c', e') == HandlerOf(c, e');
    if HandlerOf(c, e') != Idle {
      assert e' != child && e' != e;
      HandlerKept(c, c', e');
    }
  }

  lemma DuplicatedKeeps(c: Lazy, c': Lazy, e: nat, f: Fork)
    requires Inv(c) && Duplicated(c, c', e, f)
    ensures Inv(c')
  {
    var v, child := ForkOf(c, e).next, ForkOf(c, e).child;
    var s, d := Slot(e, v), Slot(child, v);
    assert ForkOk(c, e) && HandlerOk(c, e);
    assert forall e': nat :: e' != e ==> ForkOf(c', e') == ForkOf(c, e');
    forall e': nat ensures HandlerOk(c', e') && ForkOk(c', e') {
      DuplicatedHandlers(c, c', e, f, e');
      DuplicatedForks(c, c', e, f, e');
    }
    EntryFlags(c.maps[s].ppn, c.maps[s].bits);
    assert Exclusive(c') by {
      forall s1, s2 | s1 in c'.maps && s2 in c'.maps && s1 != s2 && s1.vpn != UCOW_VPN && s2.vpn != UCOW_VPN &&
        c'.maps[s1].ppn == c'.maps[s2].ppn ensures Compatible(c', s1, s2)
      {
        if s1 == d && s2 != s { ParentsPage(c, e, v, s2); }
        if s2 == d && s1 != s { ParentsPage(c, e, v, s1); }
        if s1 != d && s2 != d { assert Compatible(c, s1, s2); }
      }
    }
  }

  lemma DuplicatedShares(c: Lazy, c': Lazy, e: nat, f: Fork, a: Eager)
    requires Inv(c) && Duplicated(c, c', e, f) && Refines(c, a)
    ensures forall s2 :: s2 in c'.maps && s2.vpn != UCOW_VPN && Lib(c'.maps[s2]) ==>
      SharedPage(EagerStep(a, DupFirst(e)), c'.maps[s2].ppn) == PageOf(c', c'.maps[s2].ppn)
  {
    var s := Slot(e, ForkOf(c, e).next);
    assert ForkOk(c, e);
    EntryFlags(c.maps[s].ppn, c.maps[s].bits);
    forall s2 | s2 in c'.maps && s2.vpn != UCOW_VPN && Lib(c'.maps[s2])
      ensures SharedPage(EagerStep(a, DupFirst(e)), c'.maps[s2].ppn) == PageOf(c', c'.maps[s2].ppn)
    {
      if s2 != Slot(ForkOf(c, e).child, ForkOf(c, e).next) { assert SharedPage(a, c.maps[s2].ppn) == PageOf(c, c.maps[s2].ppn); }
    }
  }

  lemma DuplicatedRefines(c: Lazy, c': Lazy, e: nat, f: Fork, a: Eager)
    requires Inv(c) && Duplicated(c, c', e, f) && Refines(c, a)
    ensures Refines(c', EagerStep(a, DupFirst(e)))
  {
    var v, child := ForkOf(c, e).next, ForkOf(c, e).child;
    var s, d := Slot(e, v), Slot(child, v);
    var a' := EagerStep(a, DupFirst(e));
    assert ForkOk(c, e) && HandlerOk(c, e);
    assert CopyOf(a, e) == CopyingTo(child, v);
    assert forall e': nat :: e' != e ==> ForkOf(c', e') == ForkOf(c, e') && CopyOf(a', e') == CopyOf(a, e');
    assert CopyOf(a', e) == Progress(ForkOf(c', e));
    EntryFlags(c.maps[s].ppn, c.maps[s].bits);
    assert !PendingChild(c, s);
    assert ContentOf(a, s) == View(c, s);
    assert ForkOf(c', e) == f;
    assert f.HalfDone? ==> PendingChild(c', d);
    forall s2: Slot | s2.env in c.envs && s2.vpn != UCOW_VPN && !PendingChild(c', s2) ensures ContentOf(a', s2) == View(c', s2) {
      if s2 != d {
        assert PendingChild(c, s2) ==> PendingChild(c', s2);
        assert ContentOf(a, s2) == View(c, s2);
      }
    }
    DuplicatedShares(c, c', e, f, a);
  }

  // A store of the parent's own, to the stack page it is about to duplicate, can make that page
  // writable between the read and the call.  The machine is sound after the call exactly when it
  // has not.
  lemma StaleFlagsExactly(c: Lazy, e: nat)
    requires Inv(c) && Enabled(c, DupFirst(e))
    ensures Inv(Step(c, DupFirst(e))) <==> FlagsFresh(c, DupFirst(e))
  {
    var f, c' := ForkOf(c, e), Step(c, DupFirst(e));
    var s, d := Slot(e, f.next), Slot(f.child, f.next);
    assert ForkOk(c, e) && HandlerOk(c, e);
    if FlagsFresh(c, DupFirst(e)) {
      DuplicatedKeeps(c, c', e, ForkOf(c', e));
    } else {
      EntryFlags(c.maps[s].ppn, f.perm);
      assert ForkOf(c', e).Forking? && !Compatible(c', s, d);
    }
  }

  // And if it has, what the parent stores next is seen by the child.
  lemma StaleFlagsShareAPage(c: Lazy, e: nat, off: nat, b: bv8)
    requires Inv(c) && Enabled(c, DupFirst(e)) && !FlagsFresh(c, DupFirst(e)) && off < BY2PG
    ensures var s, d, c' := Slot(e, ForkOf(c, e).next), Slot(ForkOf(c, e).child, ForkOf(c, e).next), Step(c, DupFirst(e));
      s in c.maps && Enabled(c', Write(e, s.vpn, off, b)) && View(c', d) == View(c', s) &&
      View(Step(c', Write(e, s.vpn, off, b)), d) == Own(Poke(PageOf(c, c.maps[s].ppn), off, b))
  {
    var f, c' := ForkOf(c, e), Step(c, DupFirst(e));
    assert ForkOk(c, e);
    EntryFlags(c.maps[Slot(e, f.next)].ppn, f.perm);
    forall p: nat | ForkOf(c', p) != NoFork ensures ForkOf(c', p).child != e {
      assert ForkOf(c, p) != NoFork && ForkOf(c, p).child == ForkOf(c', p).child;
    }
  }

  predicate FlagsJustRead(c: Lazy, e: nat, f: Fork)
    requires ForkOf(c, e).Forking?
  {
    var v := ForkOf(c, e).next;
    v != UCOW_VPN && Slot(e, v) in c.maps && f == FlagsRead(ForkOf(c, e).child, v, c.maps[Slot(e, v)].bits)
  }

  // Only the progress of e's fork changes.
  ghost predicate Advanced(c: Lazy, c': Lazy, e: nat, f: Fork) {
    && ForkOf(c, e).Forking? && c' == SetFork(c, e, f)
    && (f == NoFork
        || (ForkOf(c, e).next < STACKTOP_VPN && (f == Forking(ForkOf(c, e).child, ForkOf(c, e).next + 1) || FlagsJustRead(c, e, f))))
  }

  lemma AdvanceKeeps(c: Lazy, c': Lazy, e: nat, f: Fork)
    requires Inv(c) && Advanced(c, c', e, f)
    ensures Inv(c')
  {
    assert ForkOk(c, e);
    assert forall e': nat :: e' != e ==> ForkOf(c', e') == ForkOf(c, e');
    assert forall e': nat :: HandlerOf(c', e') == HandlerOf(c, e');
    forall e': nat ensures HandlerOk(c', e') {
      assert HandlerOk(c, e');
      HandlerKept(c, c', e');
    }
    forall e': nat ensures ForkOk(c', e') {
      assert ForkOk(c, e');
      if e' != e { ForkKept(c, c', e'); }
    }
    assert Exclusive(c') by {
      forall s1, s2 | s1 in c'.maps && s2 in c'.maps && s1 != s2 && s1.vpn != UCOW_VPN && s2.vpn != UCOW_VPN &&
        c'.maps[s1].ppn == c'.maps[s2].ppn ensures Compatible(c', s1, s2)
      {
        assert Compatible(c, s1, s2);
      }
    }
  }

  lemma AdvanceRefines(c: Lazy, c': Lazy, e: nat, f: Fork, a: Eager, a': Eager, d: Slot)
    requires Inv(c) && Refines(c, a) && Advanced(c, c', e, f) && !f.FlagsRead?
    requires a'.envs == a.envs && a'.shared == a.shared && a'.copies == a.copies[e := Progress(f)]
    requires a'.slots == a.slots || (d.env in a.envs && a'.slots == a.slots[d := View(c, d)]) || d.vpn == UCOW_VPN
    requires forall s :: s in a'.slots ==> s.env in a.envs
    requires forall s: Slot :: s != d ==> ContentOf(a', s) == ContentOf(a, s)
    ensures Refines(c', a')
  {
    assert forall e': nat :: e' != e ==> ForkOf(c', e') == ForkOf(c, e') && CopyOf(a', e') == CopyOf(a, e');
    assert ForkOf(c', e) == f;
    assert forall s: Slot :: PendingChild(c', s) <==> PendingChild(c, s);
    forall s: Slot | s.env in c'.envs && s.vpn != UCOW_VPN && !PendingChild(c', s) ensures ContentOf(a', s) == View(c', s) {
      assert ContentOf(a, s) == View(c, s);
    }
    forall s | s in c'.maps && s.vpn != UCOW_VPN && Lib(c'.maps[s]) ensures SharedPage(a', c'.maps[s].ppn) == PageOf(c', c'.maps[s].ppn) {
      assert SharedPage(a, c.maps[s].ppn) == PageOf(c, c.maps[s].ppn);
    }
  }

  // An unmapped page is passed by; the child's is zero as well.
  lemma SkipKeeps(c: Lazy, a: Eager, e: nat)
    requires Inv(c) && Refines(c, a) && Enabled(c, DupSkip(e))
    ensures Inv(Step(c, DupSkip(e))) && Refines(Step(c, DupSkip(e)), EagerStep(a, DupSkip(e)))
  {
    var v, child := ForkOf(c, e).next, ForkOf(c, e).child;
    AdvanceKeeps(c, Step(c, DupSkip(e)), e, Forking(child, v + 1));
    var s, d := Slot(e, v), Slot(child, v);
    var a' := EagerStep(a, DupSkip(e));
    assert ForkOk(c, e);
    assert CopyOf(a, e) == CopyingTo(child, v);
    assert v != UCOW_VPN ==> ContentOf(a, s) == View(c, s) by {
      assert !PendingChild(c, s);
    }
    AdvanceRefines(c, Step(c, DupSkip(e)), e, Forking(child, v + 1), a, a', d);
  }

  lemma ReadRefines(c: Lazy, c': Lazy, a: Eager, e: nat, f: Fork)
    requires Inv(c) && Refines(c, a) && Advanced(c, c', e, f) && f.FlagsRead? && CopyOf(a, e) == Progress(f)
    ensures Refines(c', a)
  {
    assert forall e': nat :: e' != e ==> ForkOf(c', e') == ForkOf(c, e');
    assert ForkOf(c', e) == f;
    assert forall s: Slot :: PendingChild(c', s) <==> PendingChild(c, s);
    forall s: Slot | s.env in c'.envs && s.vpn != UCOW_VPN && !PendingChild(c', s) ensures ContentOf(a, s) == View(c', s) {
      assert ContentOf(a, s) == View(c, s);
    }
    forall s | s in c'.maps && s.vpn != UCOW_VPN && Lib(c'.maps[s]) ensures SharedPage(a, c'.maps[s].ppn) == PageOf(c', c'.maps[s].ppn) {
      assert SharedPage(a, c.maps[s].ppn) == PageOf(c, c.maps[s].ppn);
    }
  }

  lemma ReadKeeps(c: Lazy, a: Eager, e: nat)
    requires Inv(c) && Refines(c, a) && Enabled(c, DupRead(e))
    ensures Inv(Step(c, DupRead(e))) && Refines(Step(c, DupRead(e)), a)
  {
    var f := FlagsRead(ForkOf(c, e).child, ForkOf(c, e).next, At(c, Slot(e, ForkOf(c, e).next)).bits);
    assert HandlerOk(c, e);
    assert CopyOf(a, e) == Progress(f);
    AdvanceKeeps(c, Step(c, DupRead(e)), e, f);
    ReadRefines(c, Step(c, DupRead(e)), a, e, f);
  }

  lemma ForkEndKeeps(c: Lazy, a: Eager, e: nat)
    requires Inv(c) && Refines(c, a) && Enabled(c, ForkEnd(e))
    ensures Inv(Step(c, ForkEnd(e))) && Refines(Step(c, ForkEnd(e)), EagerStep(a, ForkEnd(e)))
  {
    AdvanceKeeps(c, Step(c, ForkEnd(e)), e, NoFork);
    AdvanceRefines(c, Step(c, ForkEnd(e)), e, NoFork, a, EagerStep(a, ForkEnd(e)), Slot(e, 0));
  }

  // While a duppage is halfway, parent and child are the only ones on the page.
  lemma HalfwayPage(c: Lazy, e: nat, s2: Slot)
    requires Inv(c) && ForkOf(c, e).HalfDone?
    ensures var s := Slot(e, ForkOf(c, e).next);
      s in c.maps && s.vpn != UCOW_VPN &&
      (s2 in c.maps && c.maps[s2].ppn == c.maps[s].ppn && s2 != s ==> s2 == Slot(ForkOf(c, e).child, ForkOf(c, e).next))
  {
    assert ForkOk(c, e);
    var s := Slot(e, ForkOf(c, e).next);
    if s2 in c.maps && c.maps[s2].ppn == c.maps[s].ppn && s2 != s {
      assert HandlerOk(c, s2.env);
      if s2.vpn != UCOW_VPN {
        assert Compatible(c, s, s2);
      }
    }
  }

  lemma DupSecondTasks(c: Lazy, e: nat)
    requires Inv(c) && Enabled(c, DupSecond(e))
    ensures forall e': nat :: HandlerOk(Step(c, DupSecond(e)), e') && ForkOk(Step(c, DupSecond(e)), e')
  {
    var c' := Step(c, DupSecond(e));
    var f := ForkOf(c, e);
    var s := Slot(e, f.next);
    assert ForkOk(c, e) && HandlerOk(c, e);
    EntryFlags(c.maps[s].ppn, c.maps[s].bits);
    assert forall e': nat :: e' != e ==> ForkOf(c', e') == ForkOf(c, e');
    assert forall e': nat :: HandlerOf(c', e') == HandlerOf(c, e');
    forall e': nat ensures HandlerOk(c', e') {
      assert HandlerOk(c, e');
      if e' != e { HandlerKept(c, c', e'); }
    }
    forall e': nat ensures ForkOk(c', e') {
      assert ForkOk(c, e');
      if e' != e { ForkKept(c, c', e'); }
    }
  }

  lemma DupSecondExclusive(c: Lazy, e: nat)
    requires Inv(c) && Enabled(c, DupSecond(e))
    ensures Exclusive(Step(c, DupSecond(e)))
  {
    var c' := Step(c, DupSecond(e));
    var f := ForkOf(c, e);
    var s := Slot(e, f.next);
    assert ForkOk(c, e);
    EntryFlags(c.maps[s].ppn, c.maps[s].bits);
    assert forall e': nat :: e' != e ==> ForkOf(c', e') == ForkOf(c, e');
    forall s1, s2 | s1 in c'.maps && s2 in c'.maps && s1 != s2 && s1.vpn != UCOW_VPN && s2.vpn != UCOW_VPN &&
      c'.maps[s1].ppn == c'.maps[s2].ppn ensures Compatible(c', s1, s2)
    {
      HalfwayPage(c, e, s1);
      HalfwayPage(c, e, s2);
      if s1 != s && s2 != s { assert Compatible(c, s1, s2); }
    }
  }

  lemma DupSecondKeeps(c: Lazy, e: nat)
    requires Inv(c) && Enabled(c, DupSecond(e))
    ensures Inv(Step(c, DupSecond(e)))
  {
    var c' := Step(c, DupSecond(e));
    var f := ForkOf(c, e);
    var s, d := Slot(e, f.next), Slot(f.child, f.next);
    assert ForkOk(c, e) && HandlerOk(c, e);
    EntryFlags(c.maps[s].ppn, c.maps[s].bits);
    DupSecondTasks(c, e);
    DupSecondExclusive(c, e);
    assert forall e': nat :: e' != e ==> ForkOf(c', e') == ForkOf(c, e');
    assert ForkOf(c', e) == Forking(f.child, f.next + 1);
  }

  lemma DupSecondForks(c: Lazy, a: Eager, e: nat)
    requires Inv(c) && Refines(c, a) && Enabled(c, DupSecond(e))
    ensures var f := ForkOf(c, e); var c', a' := Step(c, DupSecond(e)), EagerStep(a, DupSecond(e));
      && f.HalfDone? && Slot(e, f.next) in c.maps && CopyOf(a, e) == CopyingTo(f.child, f.next + 1)
      && ForkOf(c', e) == Forking(f.child, f.next + 1)
      && (forall e': nat :: e' != e ==> ForkOf(c', e') == ForkOf(c, e'))
      && (forall e': nat :: CopyOf(a', e') == CopyOf(a, e'))
      && !PendingChild(c, Slot(e, f.next)) && ContentOf(a, Slot(e, f.next)) == View(c, Slot(e, f.next))
  {
    var f := ForkOf(c, e);
    assert ForkOk(c, e);
    EntryFlags(c.maps[Slot(e, f.next)].ppn, c.maps[Slot(e, f.next)].bits);
  }

  lemma DupSecondView(c: Lazy, a: Eager, e: nat, s2: Slot)
    requires Inv(c) && Refines(c, a) && Enabled(c, DupSecond(e))
    requires s2.env in c.envs && s2.vpn != UCOW_VPN && !PendingChild(Step(c, DupSecond(e)), s2)
    ensures ContentOf(EagerStep(a, DupSecond(e)), s2) == View(Step(c, DupSecond(e)), s2)
  {
    var c' := Step(c, DupSecond(e));
    var f := ForkOf(c, e);
    var s, d := Slot(e, f.next), Slot(f.child, f.next);
    assert ForkOk(c, e);
    DupSecondForks(c, a, e);
    EntryFlags(c.maps[s].ppn, c.maps[s].bits);
    if s2 != d {
      assert PendingChild(c, s2) ==> PendingChild(c', s2);
      assert ContentOf(a, s2) == View(c, s2);
    }
  }

  lemma DupSecondShares(c: Lazy, a: Eager, e: nat)
    requires Inv(c) && Refines(c, a) && Enabled(c, DupSecond(e))
    ensures var c', a' := Step(c, DupSecond(e)), EagerStep(a, DupSecond(e));
      forall s2 :: s2 in c'.maps && s2.vpn != UCOW_VPN && Lib(c'.maps[s2]) ==> SharedPage(a', c'.maps[s2].ppn) == PageOf(c', c'.maps[s2].ppn)
  {
    var c', a' := Step(c, DupSecond(e)), EagerStep(a, DupSecond(e));
    var f := ForkOf(c, e);
    var s := Slot(e, f.next);
    assert ForkOk(c, e);
    EntryFlags(c.maps[s].ppn, c.maps[s].bits);
    forall s2 | s2 in c'.maps && s2.vpn != UCOW_VPN && Lib(c'.maps[s2]) ensures SharedPage(a', c'.maps[s2].ppn) == PageOf(c', c'.maps[s2].ppn) {
      assert SharedPage(a, c.maps[s2].ppn) == PageOf(c, c.maps[s2].ppn);
    }
  }

  lemma DupSecondRefines(c: Lazy, a: Eager, e: nat)
    requires Inv(c) && Refines(c, a) && Enabled(c, DupSecond(e))
    ensures Refines(Step(c, DupSecond(e)), EagerStep(a, DupSecond(e)))
  {
    var c' := Step(c, DupSecond(e));
    var a' := EagerStep(a, DupSecond(e));
    DupSecondForks(c, a, e);
    assert ForkOk(c, e);
    forall s2: Slot | s2.env in c.envs && s2.vpn != UCOW_VPN && !PendingChild(c', s2) ensures ContentOf(a', s2) == View(c', s2) {
      DupSecondView(c, a, e, s2);
    }
    DupSecondShares(c, a, e);
  }

  lemma ExitKeeps(c: Lazy, e: nat)
    requires Inv(c) && Enabled(c, Exit(e))
    ensures Inv(Step(c, Exit(e)))
  {
    var c' := Step(c, Exit(e));
    assert forall e': nat :: ForkOf(c', e') == ForkOf(c, e') && HandlerOf(c', e') == HandlerOf(c, e');
    forall e': nat ensures HandlerOk(c', e') {
      assert HandlerOk(c, e');
      if e' != e { HandlerKept(c, c', e'); }
    }
    forall e': nat ensures ForkOk(c', e') {
      assert ForkOk(c, e');
    }
    ExclusiveKept(c, c');
  }

  lemma ExitRefines(c: Lazy, a: Eager, e: nat)
    requires Inv(c) && Refines(c, a) && Enabled(c, Exit(e))
    ensures Refines(Step(c, Exit(e)), EagerStep(a, Exit(e)))
  {
    var c' := Step(c, Exit(e));
    var a' := EagerStep(a, Exit(e));
    assert forall e': nat :: ForkOf(c', e') == ForkOf(c, e') && CopyOf(a', e') == CopyOf(a, e');
    assert forall s: Slot :: PendingChild(c', s) <==> PendingChild(c, s);
    forall s2: Slot | s2.env in c'.envs && s2.vpn != UCOW_VPN && !PendingChild(c', s2) ensures ContentOf(a', s2) == View(c', s2) {
      assert ContentOf(a, s2) == View(c, s2);
    }
  }

  // ---- runs ----

  predicate IsForkStep(op: Op) {
    op.ForkBegin? || op.DupSkip? || op.DupRead? || op.DupFirst? || op.DupSecond? || op.ForkEnd?
  }

  lemma PageStepKeeps(c: Lazy, a: Eager, op: Op)
    requires Inv(c) && Refines(c, a) && Enabled(c, op) && !IsForkStep(op)
    ensures Inv(Step(c, op)) && Refines(Step(c, op), EagerStep(a, op))
  {
    match op
    case Read(_, _, _) =>
    case Write(e, v, off, b) => WriteKeeps(c, e, v, off, b); WriteRefines(c, a, e, v, off, b);
    case ZeroFill(e, v, p) => ZeroFillKeeps(c, a, e, v, p);
    case CowAlloc(e, v, p) => CowAllocKeeps(c, a, e, v, p);
    case CowCopyByte(e) => CowCopyByteKeeps(c, a, e);
    case CowMap(e) => CowMapKeeps(c, e); CowMapRefines(c, a, e);
    case CowUnmap(e) => CowUnmapKeeps(c, a, e);
    case Alloc(e, v, perm, p) => AllocKeeps(c, a, e, v, perm, p);
    case Share(e, v, d, dv, perm) => ShareKeeps(c, a, e, v, d, dv, perm);
    case Unmap(e, v) => UnmapKeeps(c, e, v); UnmapRefines(c, a, e, v);
    case Exit(e) => ExitKeeps(c, e); ExitRefines(c, a, e);
    case _ =>
  }

  lemma ForkStepKeeps(c: Lazy, a: Eager, op: Op)
    requires Inv(c) && Refines(c, a) && Enabled(c, op) && IsForkStep(op) && !op.DupFirst?
    ensures Inv(Step(c, op)) && Refines(Step(c, op), EagerStep(a, op))
  {
    match op
    case ForkBegin(e, child) => ForkBeginKeeps(c, e, child); ForkBeginRefines(c, a, e, child);
    case DupSkip(e) => SkipKeeps(c, a, e);
    case DupRead(e) => ReadKeeps(c, a, e);
    case DupSecond(e) => DupSecondKeeps(c, e); DupSecondRefines(c, a, e);
    case ForkEnd(e) => ForkEndKeeps(c, a, e);
    case _ =>
  }

  lemma DupFirstKeeps(c: Lazy, a: Eager, e: nat)
    requires Inv(c) && Refines(c, a) && Enabled(c, DupFirst(e))
    ensures Inv(Step(c, DupFirst(e))) <==> FlagsFresh(c, DupFirst(e))
    ensures FlagsFresh(c, DupFirst(e)) ==> Refines(Step(c, DupFirst(e)), EagerStep(a, DupFirst(e)))
  {
    var c' := Step(c, DupFirst(e));
    StaleFlagsExactly(c, e);
    if FlagsFresh(c, DupFirst(e)) {
      assert ForkOk(c, e);
      DuplicatedRefines(c, c', e, ForkOf(c', e), a);
    }
  }

  // Every step keeps the invariant exactly if it is not a call with stale flags, and then the
  // refinement too.
  lemma StepKeeps(c: Lazy, a: Eager, op: Op)
    requires Inv(c) && Refines(c, a) && Enabled(c, op)
    ensures Inv(Step(c, op)) <==> FlagsFresh(c, op)
    ensures FlagsFresh(c, op) ==> Refines(Step(c, op), EagerStep(a, op))
  {
    if op.DupFirst? {
      DupFirstKeeps(c, a, op.env);
    } else if IsForkStep(op) {
      ForkStepKeeps(c, a, op);
    } else {
      PageStepKeeps(c, a, op);
    }
  }

  // A run: every step enabled where it happens, and none a call with stale flags.
  ghost predicate Run(c: Lazy, ops: seq<Op>)
    decreases ops
  {
    ops == [] || (Enabled(c, ops[0]) && FlagsFresh(c, ops[0]) && Run(Step(c, ops[0]), ops[1..]))
  }

  function ByteAt(page: Page, off: nat): bv8 { if off < |page| then page[off] else 0 }

  // The bytes the loads of a run return, on the machine and in the eager model.
  function Loads(c: Lazy, ops: seq<Op>): seq<bv8>
    decreases ops
  {
    if ops == [] then []
    else (if ops[0].Read? then [ByteAt(PageOf(c, At(c, Slot(ops[0].env, ops[0].vpn)).ppn), ops[0].off)] else [])
         + Loads(Step(c, ops[0]), ops[1..])
  }

  function EagerLoads(a: Eager, ops: seq<Op>): seq<bv8>
    decreases ops
  {
    if ops == [] then []
    else (if ops[0].Read? then [ByteAt(PageIn(a, Slot(ops[0].env, ops[0].vpn)), ops[0].off)] else [])
         + EagerLoads(EagerStep(a, ops[0]), ops[1..])
  }

  // Over any run, copy-on-write fork cannot be told from copying every page at once.
  lemma {:induction false} CowRefinesEagerCopy(c: Lazy, a: Eager, ops: seq<Op>)
    requires Inv(c) && Refines(c, a) && Run(c, ops)
    ensures Loads(c, ops) == EagerLoads(a, ops)
    decreases ops
  {
    if ops != [] {
      StepKeeps(c, a, ops[0]);
      CowRefinesEagerCopy(Step(c, ops[0]), EagerStep(a, ops[0]), ops[1..]);
      if ops[0].Read? {
        var s := Slot(ops[0].env, ops[0].vpn);
        assert !PendingChild(c, s);
        assert ContentOf(a, s) == View(c, s);
      }
    }
  }

  // A machine that has just started refines the eager one.
  lemma InitialStates(envs: set<nat>)
    ensures var c := Lazy(map[], map[], envs, map[], map[]);
      Inv(c) && Refines(c, Eager(map[], map[], envs, map[]))
  {
  }
}
