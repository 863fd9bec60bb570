// Loading one program segment (lib/elfloader.c) with either mapper (kern/env.c,
// user/lib/spawn.c).
module ElfLoader {
  import opened Sv32

  const E_NO_MEM: int := -4

  type byte = n: int | 0 <= n < 256

  // A leaf entry: the frame and its flags.
  datatype Entry = Entry(frame: nat, bits: Bits)

  datatype Source = Null | Bytes(b: seq<byte>)

  datatype Phdr = Phdr(vaddr: nat, filesz: nat, memsz: nat, flags: bv32)

  const PF_X: bv32 := 1
  const PF_W: bv32 := 2

  // elf_load_seg's perm.
  function PermOf(flags: bv32): Bits {
    var perm := if flags & PF_W != 0 then PTE_V | PTE_W else PTE_V;
    if flags & PF_X != 0 then perm | PTE_X else perm
  }

  // The flags of an entry open to user code for everybody, writable exactly for PF_W and
  // executable exactly for PF_X.
  predicate SegmentBits(bits: Bits, flags: bv32) {
    && bits & PTE_V != 0 && bits & PTE_R != 0 && bits & PTE_U != 0 && bits & PTE_A != 0 && bits & PTE_D != 0
    && (bits & PTE_W != 0 <==> flags & PF_W != 0) && (bits & PTE_X != 0 <==> flags & PF_X != 0)
    && bits & PTE_COW == 0 && bits & PTE_LIBRARY == 0
  }

  lemma SegmentBitsEntered(flags: bv32)
    ensures SegmentBits(LeafBits(PermOf(flags) | PTE_U), flags)
  {
  }

  function Min(a: nat, b: nat): nat { if a < b then a else b }

  // A zero page with len bytes copied to offset.
  function Filled(offset: nat, src: Source, len: nat): (page: seq<byte>)
    requires src.Bytes? ==> offset + len <= BY2PG && len <= |src.b|
    ensures |page| == BY2PG
  {
    seq(BY2PG, o requires 0 <= o < BY2PG => if src.Bytes? && offset <= o < offset + len then src.b[o - offset] else 0)
  }

  // The byte at address a of a segment loaded at va: the file's, then zeros.
  function Want(va: nat, bin: seq<byte>, a: nat): byte {
    if va <= a < va + |bin| then bin[a - va] else 0
  }

  // A page holds what the segment has at page p.
  predicate Wanted(page: seq<byte>, va: nat, bin: seq<byte>, p: nat) {
    |page| == BY2PG && forall o :: 0 <= o < BY2PG ==> page[o] == Want(va, bin, p * BY2PG + o)
  }

  // n pages from page first on.
  function Run(first: nat, n: nat): (s: seq<nat>)
    ensures |s| == n && forall k :: 0 <= k < n ==> s[k] == first + k
  {
    seq(n, k requires k >= 0 => first + k)
  }

  function First(ph: Phdr): nat { ph.vaddr / BY2PG }

  // The first page past the segment's.
  function End(ph: Phdr): nat { (ph.vaddr + ph.memsz + BY2PG - 1) / BY2PG }

  // The pages a segment touches, in order.
  function PagesOf(ph: Phdr): seq<nat> { Run(First(ph), End(ph) - First(ph)) }

  // The zero tail, if there is one, starts at a page boundary or past the first page.
  predicate TailIsApart(ph: Phdr) {
    ph.memsz <= ph.filesz || ph.vaddr % BY2PG == 0 || ph.vaddr % BY2PG + ph.filesz >= BY2PG
  }

  // The pages mapped, in order, whatever the segment.
  function Maps(ph: Phdr): (s: seq<nat>)
    requires ph.filesz <= ph.memsz
  {
    if TailIsApart(ph) then PagesOf(ph)
    else [First(ph)] + Run(First(ph), (ph.memsz - ph.filesz + BY2PG - 1) / BY2PG)
  }

  // ---- what the mappings cost ----

  // Pages still to be had, the directory words of the address space with a table behind them,
  // whether the loader's own window at UTEMP has its table, and the pages mapped.
  datatype Account = Account(budget: nat, tables: set<nat>, window: bool, pages: set<nat>)

  datatype Bill = Short | Paid(left: Account)

  // A request for page p; windowed: it is filled through the window.
  datatype Request = Request(p: nat, windowed: bool)

  // A page, and a table if there is none; a page that was mapped there before comes back.  Then
  // a table for the window, if that is used and has none.
  function Pay(a: Account, q: Request): Bill {
    var table := if q.p / NPTE in a.tables then 0 else 1;
    var back := if q.p in a.pages then 1 else 0;
    if a.budget < 1 + table then Short
    else
      var b := a.(budget := a.budget - 1 - table + back, tables := a.tables + {q.p / NPTE}, pages := a.pages + {q.p});
      if !q.windowed || b.window then Paid(b)
      else if b.budget == 0 then Short
      else Paid(b.(budget := b.budget - 1, window := true))
  }

  function PayAll(a: Account, qs: seq<Request>): Bill
    decreases |qs|
  {
    if qs == [] then Paid(a)
    else match Pay(a, qs[0])
      case Short => Short
      case Paid(b) => PayAll(b, qs[1..])
  }

  lemma {:induction false} PayConcat(a: Account, xs: seq<Request>, ys: seq<Request>)
    ensures PayAll(a, xs + ys) == match PayAll(a, xs) case Short => Short case Paid(b) => PayAll(b, ys)
    decreases |xs|
  {
    if xs == [] {
      assert xs + ys == ys;
    } else {
      assert (xs + ys)[1..] == xs[1..] + ys;
      if Pay(a, xs[0]).Paid? { PayConcat(Pay(a, xs[0]).left, xs[1..], ys); }
    }
  }

  lemma PayOneMore(a: Account, xs: seq<Request>, q: Request)
    ensures PayAll(a, xs + [q]) == match PayAll(a, xs) case Short => Short case Paid(b) => Pay(b, q)
  {
    PayConcat(a, xs, [q]);
    if PayAll(a, xs).Paid? {
      var b := PayAll(a, xs).left;
      assert [q][1..] == [];
      assert PayAll(b, [q]) == match Pay(b, q) case Short => Short case Paid(c) => PayAll(c, []);
    }
  }

  // n requests, from page first on.
  function Requests(first: nat, n: nat, windowed: bool): (qs: seq<Request>)
    ensures |qs| == n
  {
    seq(n, k requires 0 <= k => Request(first + k, windowed))
  }

  // The first k of n are paid, and the next is paid or not.
  lemma PayNext(a: Account, b: Account, first: nat, n: nat, k: nat, windowed: bool)
    requires k < n && PayAll(a, Requests(first, k, windowed)) == Paid(b)
    ensures PayAll(a, Requests(first, k + 1, windowed)) == Pay(b, Request(first + k, windowed))
    ensures Pay(b, Request(first + k, windowed)).Short? ==> PayAll(a, Requests(first, n, windowed)).Short?
  {
    var whole := Requests(first, n, windowed);
    assert Requests(first, k + 1, windowed) == Requests(first, k, windowed) + [Request(first + k, windowed)];
    PayOneMore(a, Requests(first, k, windowed), Request(first + k, windowed));
    assert whole == Requests(first, k + 1, windowed) + whole[k + 1..];
    PayConcat(a, Requests(first, k + 1, windowed), whole[k + 1..]);
  }

  // The page where the file's contents end.
  function ContentEnd(ph: Phdr): nat { (ph.vaddr + ph.filesz + BY2PG - 1) / BY2PG }

  function Contents(ph: Phdr): (n: nat) { ContentEnd(ph) - First(ph) }

  function TailStart(ph: Phdr): nat { if TailIsApart(ph) then ContentEnd(ph) else First(ph) }

  // The pages the second loop asks for when the first has got to page next.
  function TailMaps(ph: Phdr, next: nat): seq<nat>
    requires ph.filesz <= ph.memsz && (TailIsApart(ph) ==> next <= End(ph))
  {
    if TailIsApart(ph) then Run(next, End(ph) - next) else Run(First(ph), (ph.memsz - ph.filesz + BY2PG - 1) / BY2PG)
  }

  function TailRequests(ph: Phdr): seq<Request>
    requires ph.filesz <= ph.memsz
  {
    Requests(TailStart(ph), |TailMaps(ph, ContentEnd(ph))|, false)
  }

  // What a segment asks for: its contents, through the window if spawn loads it, and its tail.
  function AllRequests(kernel: bool, ph: Phdr): seq<Request>
    requires ph.filesz <= ph.memsz
  {
    Requests(First(ph), Contents(ph), !kernel) + TailRequests(ph)
  }

  // ---- in closed form, where nothing was mapped before ----

  predicate Within(p: nat, first: nat, n: nat) { first <= p < first + n }

  function Pages(first: nat, n: nat): set<nat> { set p: nat | first <= p < first + n && Within(p, first, n) }

  // The directory words of n pages.
  function TablesOf(first: nat, n: nat): set<nat> { set p | p in Pages(first, n) :: p / NPTE }

  // The pages, the missing ones among these tables, and the window's table.
  function Cost(a: Account, n: nat, tables: set<nat>, windowed: bool): nat {
    n + |tables - a.tables| + if windowed && !a.window && n > 0 then 1 else 0
  }

  function Settle(a: Account, n: nat, tables: set<nat>, pages: set<nat>, windowed: bool): Bill {
    if a.budget < Cost(a, n, tables, windowed) then Short
    else Paid(Account(a.budget - Cost(a, n, tables, windowed), a.tables + tables, a.window || (windowed && n > 0), a.pages + pages))
  }

  lemma PayUnfolds(a: Account, first: nat, n: nat, windowed: bool)
    requires n > 0
    ensures PayAll(a, Requests(first, n, windowed)) ==
      match Pay(a, Request(first, windowed)) case Short => Short case Paid(b) => PayAll(b, Requests(first + 1, n - 1, windowed))
  {
    assert Requests(first, n, windowed)[1..] == Requests(first + 1, n - 1, windowed);
  }

  lemma NothingCosts(a: Account, first: nat, windowed: bool)
    ensures PayAll(a, Requests(first, 0, windowed)) == Settle(a, 0, TablesOf(first, 0), Pages(first, 0), windowed)
  {
    assert TablesOf(first, 0) == {} && Pages(first, 0) == {};
    assert a.tables + {} == a.tables && a.pages + {} == a.pages;
  }

  lemma MorePages(first: nat, n: nat, pages: set<nat>)
    requires n > 0 && Pages(first, n) !! pages
    ensures Pages(first, n) == {first} + Pages(first + 1, n - 1) && first !in Pages(first + 1, n - 1)
    ensures first !in pages && Pages(first + 1, n - 1) !! pages + {first}
  {
    assert first in Pages(first, n);
  }

  lemma SettleFirst(a: Account, p: nat, n: nat, tables: set<nat>, tables1: set<nat>, pages: set<nat>, pages1: set<nat>, windowed: bool)
    requires n > 0 && p !in a.pages && pages == {p} + pages1 && p !in pages1 && tables == {p / NPTE} + tables1
    requires |tables - a.tables| == (if p / NPTE in a.tables then 0 else 1) + |tables1 - (a.tables + {p / NPTE})|
    ensures Settle(a, n, tables, pages, windowed) ==
      match Pay(a, Request(p, windowed)) case Short => Short case Paid(b) => Settle(b, n - 1, tables1, pages1, windowed)
    ensures Pay(a, Request(p, windowed)).Paid? ==> Pay(a, Request(p, windowed)).left.pages == a.pages + {p}
  {
    assert (a.tables + {p / NPTE}) + tables1 == a.tables + tables;
    assert (a.pages + {p}) + pages1 == a.pages + pages;
  }

  lemma JoinTables(first: nat, m: nat, n: nat)
    ensures TablesOf(first, m + n) == TablesOf(first, m) + TablesOf(first + m, n)
  {
    assert Pages(first, m + n) == Pages(first, m) + Pages(first + m, n);
  }

  lemma JoinCounts(tables: set<nat>, head: set<nat>, rest: set<nat>)
    ensures |(head + rest) - tables| == |head - tables| + |rest - (tables + head)|
  {
    assert (head + rest) - tables == (head - tables) + (rest - (tables + head));
  }

  lemma OneMoreTable(tables: set<nat>, first: nat, n: nat)
    requires n > 0
    ensures TablesOf(first, n) == {first / NPTE} + TablesOf(first + 1, n - 1)
    ensures |TablesOf(first, n) - tables|
         == (if first / NPTE in tables then 0 else 1) + |TablesOf(first + 1, n - 1) - (tables + {first / NPTE})|
  {
    JoinTables(first, 1, n - 1);
    assert Pages(first, 1) == {first};
    assert TablesOf(first, 1) == {first / NPTE};
    JoinCounts(tables, {first / NPTE}, TablesOf(first + 1, n - 1));
    assert {first / NPTE} - tables == if first / NPTE in tables then {} else {first / NPTE};
  }

  // n fresh pages can be paid for exactly when they, the missing tables and the window's table
  // can all be had.
  lemma {:induction false} RunCosts(a: Account, first: nat, n: nat, windowed: bool)
    requires Pages(first, n) !! a.pages
    ensures PayAll(a, Requests(first, n, windowed)) == Settle(a, n, TablesOf(first, n), Pages(first, n), windowed)
    decreases n
  {
    if n == 0 {
      NothingCosts(a, first, windowed);
    } else {
      PayUnfolds(a, first, n, windowed);
      OneMoreTable(a.tables, first, n);
      MorePages(first, n, a.pages);
      SettleFirst(a, first, n, TablesOf(first, n), TablesOf(first + 1, n - 1), Pages(first, n), Pages(first + 1, n - 1), windowed);
      if Pay(a, Request(first, windowed)).Paid? {
        RunCosts(Pay(a, Request(first, windowed)).left, first + 1, n - 1, windowed);
      }
    }
  }

  lemma TwoRunsConcat(a: Account, first: nat, m: nat, n: nat, windowed: bool)
    ensures PayAll(a, Requests(first, m, windowed) + Requests(first + m, n, false)).Paid? <==>
      (match PayAll(a, Requests(first, m, windowed)) case Short => false case Paid(b) => PayAll(b, Requests(first + m, n, false)).Paid?)
  {
    PayConcat(a, Requests(first, m, windowed), Requests(first + m, n, false));
  }

  lemma SplitPages(first: nat, m: nat, n: nat)
    ensures Pages(first, m + n) == Pages(first, m) + Pages(first + m, n) && Pages(first, m) !! Pages(first + m, n)
  {
  }

  lemma SettleTwice(a: Account, m: nat, n: nat, tables: set<nat>, tables1: set<nat>, pages: set<nat>, pages1: set<nat>, windowed: bool)
    ensures (match Settle(a, m, tables, pages, windowed) case Short => false case Paid(b) => Settle(b, n, tables1, pages1, false).Paid?)
      <==> a.budget >= m + n + |(tables + tables1) - a.tables| + if windowed && !a.window && m > 0 then 1 else 0
    ensures Settle(a, m, tables, pages, windowed).Paid? ==> Settle(a, m, tables, pages, windowed).left.pages == a.pages + pages
  {
    JoinCounts(a.tables, tables, tables1);
  }

  lemma TwoRunsCost(a: Account, first: nat, m: nat, n: nat, windowed: bool)
    requires Pages(first, m + n) !! a.pages
    ensures (match PayAll(a, Requests(first, m, windowed)) case Short => false case Paid(b) => PayAll(b, Requests(first + m, n, false)).Paid?)
      <==> a.budget >= m + n + |TablesOf(first, m + n) - a.tables| + if windowed && !a.window && m > 0 then 1 else 0
  {
    SplitPages(first, m, n);
    JoinTables(first, m, n);
    RunCosts(a, first, m, windowed);
    SettleTwice(a, m, n, TablesOf(first, m), TablesOf(first + m, n), Pages(first, m), Pages(first + m, n), windowed);
    if PayAll(a, Requests(first, m, windowed)).Paid? {
      RunCosts(PayAll(a, Requests(first, m, windowed)).left, first + m, n, false);
    }
  }

  lemma TwoRunsPaid(a: Account, qs: seq<Request>, first: nat, m: nat, n: nat, windowed: bool)
    requires qs == Requests(first, m, windowed) + Requests(first + m, n, false) && Pages(first, m + n) !! a.pages
    ensures PayAll(a, qs).Paid? <==> a.budget >= m + n + |TablesOf(first, m + n) - a.tables| + if windowed && !a.window && m > 0 then 1 else 0
  {
    TwoRunsConcat(a, first, m, n, windowed);
    TwoRunsCost(a, first, m, n, windowed);
  }

  function Size(ph: Phdr): (n: nat) { End(ph) - First(ph) }

  lemma TwoRuns(kernel: bool, ph: Phdr) returns (m: nat, n: nat)
    requires ph.filesz <= ph.memsz && TailIsApart(ph)
    ensures First(ph) + m == ContentEnd(ph) && m + n == Size(ph)
    ensures AllRequests(kernel, ph) == Requests(First(ph), m, !kernel) + Requests(First(ph) + m, n, false)
  {
    m, n := Contents(ph), End(ph) - ContentEnd(ph);
  }

  // A segment laid out over unmapped pages, with its zero tail apart, costs its pages, the
  // tables that were missing, and for spawn the window's table if the file has anything.
  lemma SegmentCosts(kernel: bool, ph: Phdr, a: Account)
    requires ph.filesz <= ph.memsz && TailIsApart(ph) && Pages(First(ph), Size(ph)) !! a.pages
    ensures PayAll(a, AllRequests(kernel, ph)).Paid? <==>
      (a.budget >= Size(ph) + |TablesOf(First(ph), Size(ph)) - a.tables| + if !kernel && !a.window && ContentEnd(ph) > First(ph) then 1 else 0)
  {
    var m, n := TwoRuns(kernel, ph);
    TwoRunsPaid(a, AllRequests(kernel, ph), First(ph), m, n, !kernel);
  }

  // Where the first loop stands: the file's bytes from i on belong to page next and later, or
  // there are none and the first page was not filled.
  predicate At(ph: Phdr, i: nat, next: nat) {
    && (ph.vaddr + i == next * BY2PG || (i == ph.filesz && 0 < ph.vaddr % BY2PG < BY2PG - i && next == First(ph) + 1))
    && (ph.filesz <= ph.memsz && !TailIsApart(ph) ==> i == ph.filesz && next == First(ph) + 1)
    && next <= ContentEnd(ph)
  }

  lemma AtFirst(ph: Phdr)
    requires ph.filesz <= ph.memsz
    ensures ph.vaddr % BY2PG == 0 ==> At(ph, 0, First(ph))
    ensures ph.vaddr % BY2PG != 0 ==> At(ph, Min(ph.filesz, BY2PG - ph.vaddr % BY2PG), First(ph) + 1)
  {
  }

  lemma AtNext(ph: Phdr, i: nat, next: nat)
    requires ph.filesz <= ph.memsz && At(ph, i, next) && i < ph.filesz
    ensures At(ph, i + BY2PG, next + 1)
  {
  }

  lemma AtEnd(ph: Phdr, i: nat, next: nat)
    requires ph.filesz <= ph.memsz && At(ph, i, next) && i >= ph.filesz
    ensures next == ContentEnd(ph)
    ensures TailIsApart(ph) ==> ph.vaddr + i == next * BY2PG || (i >= ph.memsz && next == End(ph))
  {
  }

  // What the two kinds of content pages are filled with.
  lemma FirstPageWants(ph: Phdr, bin: seq<byte>)
    requires |bin| == ph.filesz <= ph.memsz && ph.vaddr % BY2PG != 0
    ensures First(ph) < ContentEnd(ph)
    ensures var offset := ph.vaddr % BY2PG;
      Wanted(Filled(offset, Bytes(bin), Min(ph.filesz, BY2PG - offset)), ph.vaddr, bin, First(ph))
  {
  }

  lemma NextPageWants(ph: Phdr, bin: seq<byte>, i: nat, next: nat)
    requires |bin| == ph.filesz <= ph.memsz && i < |bin| && ph.vaddr + i == next * BY2PG
    ensures next < ContentEnd(ph) && (ph.vaddr + i) / BY2PG == next
    ensures Wanted(Filled(0, Bytes(bin[i..]), Min(|bin| - i, BY2PG)), ph.vaddr, bin, next)
  {
  }

  lemma MapsInTwo(ph: Phdr)
    requires ph.filesz <= ph.memsz
    ensures First(ph) <= ContentEnd(ph) <= End(ph) && Maps(ph) == Run(First(ph), Contents(ph)) + TailMaps(ph, ContentEnd(ph))
  {
  }

  lemma TailStep(ph: Phdr, start: nat, next: nat, k: nat)
    requires ph.filesz <= ph.memsz && start + BY2PG * k < ph.memsz
    requires TailIsApart(ph) ==> next <= End(ph) && (ph.vaddr + start == next * BY2PG || (start >= ph.memsz && next == End(ph)))
    requires !TailIsApart(ph) ==> start == ph.filesz
    ensures k < |TailMaps(ph, next)| && TailMaps(ph, next)[k] == (ph.vaddr + start + BY2PG * k) / BY2PG
    ensures TailIsApart(ph) ==> (ph.vaddr + start + BY2PG * k) / BY2PG == next + k
  {
  }

  lemma TailEnds(ph: Phdr, start: nat, next: nat, k: nat)
    requires ph.filesz <= ph.memsz && start + BY2PG * k >= ph.memsz
    requires TailIsApart(ph) ==> next <= End(ph) && (ph.vaddr + start == next * BY2PG || (start >= ph.memsz && next == End(ph)))
    requires !TailIsApart(ph) ==> start == ph.filesz
    requires k <= |TailMaps(ph, next)|
    ensures k == |TailMaps(ph, next)| && (TailIsApart(ph) ==> next + k == End(ph))
    ensures !TailIsApart(ph) ==> k > 0
  {
  }

  datatype Phase = Phase(frames: seq<seq<byte>>, table: map<nat, Entry>, log: seq<nat>)

  // memcpy of len bytes to offset of a page.
  method CopyInto(page: seq<byte>, offset: nat, src: seq<byte>, len: nat) returns (r: seq<byte>)
    requires |page| == BY2PG && offset + len <= BY2PG && len <= |src| && page == Filled(0, Null, 0)
    ensures r == Filled(offset, Bytes(src), len)
  {
    r := page[..offset] + src[..len] + page[offset + len..];
  }

  lemma NothingCopied(offset: nat, src: Source, len: nat)
    requires src.Null?
    ensures Filled(offset, src, len) == Filled(0, Null, 0)
  {
  }

  // The address space being filled.  frames: the contents of every page handed out so far.
  // tables: its directory words with a table.  utemp: the loader's own window; window: whether
  // it has its table.  budget: pages still to be had.  log: the virtual pages the mapper was
  // asked for and has entered.
  class Loader {
    var frames: seq<seq<byte>>
    var table: map<nat, Entry>
    var tables: set<nat>
    var utemp: int
    var window: bool
    var budget: nat
    var log: seq<nat>

    ghost predicate Valid()
      reads this
    {
      && (forall i :: 0 <= i < |frames| ==> |frames[i]| == BY2PG)
      && (forall p :: p in table ==> table[p].frame < |frames| && p / NPTE in tables)
    }

    ghost function Acc(): Account
      reads this
    {
      Account(budget, tables, window, table.Keys)
    }

    constructor (pages: nat)
      ensures Valid() && table == map[] && log == [] && Acc() == Account(pages, {}, false, {})
    {
      frames, table, tables, utemp, window, budget, log := [], map[], {}, -1, false, pages, [];
    }

    // page_alloc: the page is zeroed.
    method TakePage() returns (r: int, frame: nat)
      requires Valid()
      modifies this`frames, this`budget
      ensures Valid() && r == if old(budget) == 0 then E_NO_MEM else 0
      ensures r != 0 ==> budget == 0 && frames == old(frames)
      ensures r == 0 ==> frame == |old(frames)| && budget == old(budget) - 1 && frames == old(frames) + [Filled(0, Null, 0)]
    {
      if budget == 0 { return E_NO_MEM, 0; }
      frame := |frames|;
      frames := frames + [Filled(0, Null, 0)];
      budget := budget - 1;
      r := 0;
    }

    // page_insert: a page that was there is given back, or a table is made if there is none.
    method Insert(p: nat, frame: nat, perm: Bits) returns (r: int)
      requires Valid() && frame < |frames|
      modifies this`table, this`tables, this`budget
      ensures Valid() && r == if p / NPTE !in old(tables) && old(budget) == 0 then E_NO_MEM else 0
      ensures r != 0 ==> table == old(table) && tables == old(tables) && budget == 0
      ensures r == 0 ==> table == old(table)[p := Entry(frame, LeafBits(perm))] && tables == old(tables) + {p / NPTE}
      ensures r == 0 ==> budget == old(budget) - (if p / NPTE in old(tables) then 0 else 1) + if p in old(table) then 1 else 0
    {
      if p in table { budget := budget + 1; }
      if p / NPTE !in tables {
        if budget == 0 { return E_NO_MEM; }
        budget := budget - 1;
        tables := tables + {p / NPTE};
      }
      table := table[p := Entry(frame, LeafBits(perm))];
      r := 0;
    }

    // What a successful call of either mapper does: a fresh page filled and entered for va's page.
    ghost predicate Mapped(va: nat, offset: nat, perm: Bits, src: Source, len: nat, was: Phase)
      requires src.Bytes? ==> offset + len <= BY2PG && len <= |src.b|
      reads this
    {
      && Valid() && frames == was.frames + [Filled(offset, src, len)]
      && table == was.table[va / BY2PG := Entry(|was.frames|, LeafBits(perm | PTE_U))]
      && log == was.log + [va / BY2PG]
    }

    ghost function Now(): Phase
      reads this
    {
      Phase(frames, table, log)
    }

    // What a failed call leaves: at most that page's mapping is lost, and no page is to be had
    // but one that was just given back.
    ghost predicate Unmapped(p: nat, was: Phase)
      reads this
    {
      && Valid() && was.frames <= frames && log == was.log && budget <= 1
      && (forall q :: q in table ==> q in was.table && table[q] == was.table[q])
      && (forall q :: q in was.table && q != p ==> q in table)
    }

    // memcpy into a page.
    method Fill(p: nat, offset: nat, src: seq<byte>, len: nat)
      requires p < |frames| && offset + len <= BY2PG && len <= |src| && frames[p] == Filled(0, Null, 0)
      modifies this`frames
      ensures frames == old(frames)[p := Filled(offset, Bytes(src), len)]
    {
      var page := CopyInto(frames[p], offset, src, len);
      frames := frames[p := page];
    }

    // load_icode_mapper: fill the page, then enter it.
    method LoadIcodeMapper(va: nat, offset: nat, perm: Bits, src: Source, len: nat) returns (r: int)
      requires Valid() && (src.Bytes? ==> offset + len <= BY2PG && len <= |src.b|)
      modifies this
      ensures r == if Pay(old(Acc()), Request(va / BY2PG, false)).Paid? then 0 else E_NO_MEM
      ensures r == 0 ==> Mapped(va, offset, perm, src, len, old(Now())) && Paid(Acc()) == Pay(old(Acc()), Request(va / BY2PG, false))
      ensures r != 0 ==> Unmapped(va / BY2PG, old(Now())) && budget == 0 && table == old(table)
    {
      var p;
      r, p := TakePage();
      if r != 0 { return; }
      if src.Bytes? { Fill(p, offset, src.b, len); } else { NothingCopied(offset, src, len); }
      r := Insert(va / BY2PG, p, perm | PTE_U);
      if r != 0 { return; }
      log := log + [va / BY2PG];
    }

    // The window's table, and the window.
    method OpenWindow(frame: nat) returns (r: int)
      modifies this`window, this`budget, this`utemp
      ensures r == if !old(window) && old(budget) == 0 then E_NO_MEM else 0
      ensures r != 0 ==> budget == 0 && window == old(window) && utemp == old(utemp)
      ensures r == 0 ==> window && utemp == frame && budget == old(budget) - if old(window) then 0 else 1
    {
      if !window {
        if budget == 0 { return E_NO_MEM; }
        budget, window := budget - 1, true;
      }
      utemp := frame;
      r := 0;
    }

    // sys_mem_alloc for the child.
    method AllocFor(va: nat, perm: Bits) returns (r: int)
      requires Valid()
      modifies this
      ensures r == if Pay(old(Acc()), Request(va / BY2PG, false)).Paid? then 0 else E_NO_MEM
      ensures r == 0 ==> Mapped(va, 0, perm, Null, 0, old(Now())) && Paid(Acc()) == Pay(old(Acc()), Request(va / BY2PG, false))
      ensures r != 0 ==> Unmapped(va / BY2PG, old(Now())) && budget == 0 && table == old(table)
    {
      r := LoadIcodeMapper(va, 0, perm, Null, 0);
    }

    // spawn_mapper: enter a zero page, then fill it through the window at UTEMP; the page is
    // unmapped again if there is no room for the window.
    method SpawnMapper(va: nat, offset: nat, perm: Bits, src: Source, len: nat) returns (r: int)
      requires Valid() && (src.Bytes? ==> offset + len <= BY2PG && len <= |src.b|)
      modifies this
      ensures r == if Pay(old(Acc()), Request(va / BY2PG, src.Bytes?)).Paid? then 0 else E_NO_MEM
      ensures r == 0 ==> Mapped(va, offset, perm, src, len, old(Now())) && Paid(Acc()) == Pay(old(Acc()), Request(va / BY2PG, src.Bytes?))
      ensures r != 0 ==> Unmapped(va / BY2PG, old(Now()))
    {
      r := AllocFor(va, perm);
      if r != 0 { return; }
      if src.Bytes? {
        var p := table[va / BY2PG].frame;
        r := OpenWindow(p);
        if r != 0 {
          table, log := table - {va / BY2PG}, log[..|log| - 1];
          budget := budget + 1;
          return;
        }
        Fill(utemp, offset, src.b, len);
        utemp := -1;
      } else {
        NothingCopied(offset, src, len);
      }
    }

    method MapPage(kernel: bool, va: nat, offset: nat, perm: Bits, src: Source, len: nat) returns (r: int)
      requires Valid() && (src.Bytes? ==> offset + len <= BY2PG && len <= |src.b|)
      modifies this
      ensures r == if Pay(old(Acc()), Request(va / BY2PG, !kernel && src.Bytes?)).Paid? then 0 else E_NO_MEM
      ensures r == 0 ==> Mapped(va, offset, perm, src, len, old(Now()))
      ensures r == 0 ==> Paid(Acc()) == Pay(old(Acc()), Request(va / BY2PG, !kernel && src.Bytes?))
      ensures r != 0 ==> Unmapped(va / BY2PG, old(Now()))
    {
      if kernel { r := LoadIcodeMapper(va, offset, perm, src, len); } else { r := SpawnMapper(va, offset, perm, src, len); }
    }

    ghost predicate PageHolds(ph: Phdr, bin: seq<byte>, p: nat)
      reads this
      requires Valid()
    {
      p in table && table[p].bits == LeafBits(PermOf(ph.flags) | PTE_U) && Wanted(frames[table[p].frame], ph.vaddr, bin, p)
    }

    // Pages from the first up to next hold the segment's bytes, with its permissions.
    ghost predicate Holds(ph: Phdr, bin: seq<byte>, next: nat)
      reads this
      requires Valid()
    {
      forall p :: First(ph) <= p < next ==> PageHolds(ph, bin, p)
    }

    // What page p reads as.
    ghost function PageAt(p: nat): seq<byte>
      reads this
      requires Valid() && p in table
    {
      frames[table[p].frame]
    }

    // One more page.  inOrder: it is the next page of the segment and gets what belongs there.
    method MapNext(kernel: bool, ph: Phdr, ghost bin: seq<byte>, va: nat, offset: nat, src: Source, len: nat, ghost inOrder: bool)
        returns (r: int)
      requires Valid() && (src.Bytes? ==> offset + len <= BY2PG && len <= |src.b|)
      requires inOrder ==> Holds(ph, bin, va / BY2PG)
      requires inOrder ==> Wanted(Filled(offset, src, len), ph.vaddr, bin, va / BY2PG)
      modifies this
      ensures Valid()
      ensures r == if Pay(old(Acc()), Request(va / BY2PG, !kernel && src.Bytes?)).Paid? then 0 else E_NO_MEM
      ensures r == 0 ==> log == old(log) + [va / BY2PG]
      ensures r == 0 ==> Paid(Acc()) == Pay(old(Acc()), Request(va / BY2PG, !kernel && src.Bytes?))
      ensures r == 0 && inOrder ==> Holds(ph, bin, va / BY2PG + 1)
      ensures r == 0 ==> va / BY2PG in table && PageAt(va / BY2PG) == Filled(offset, src, len)
      ensures r == 0 ==> forall p :: p in old(table) && p != va / BY2PG ==> p in table && PageAt(p) == old(PageAt(p))
    {
      r := MapPage(kernel, va, offset, PermOf(ph.flags), src, len);
      if r == 0 && inOrder {
        forall p | First(ph) <= p < va / BY2PG ensures PageHolds(ph, bin, p) {
          assert old(PageHolds(ph, bin, p));
        }
      }
    }

    // One page of the tail.
    method MapOfTail(kernel: bool, ph: Phdr, ghost bin: seq<byte>, va: nat, ghost a: Account, ghost first: nat, ghost k: nat) returns (r: int)
      requires Valid() && |bin| == ph.filesz <= ph.memsz && va / BY2PG == first + k && first == TailStart(ph)
      requires k < |TailRequests(ph)| && PayAll(a, Requests(first, k, false)) == Paid(Acc())
      requires TailIsApart(ph) ==> Holds(ph, bin, va / BY2PG) && ph.vaddr + ph.filesz <= va / BY2PG * BY2PG
      modifies this
      ensures Valid() && (r == 0 || r == E_NO_MEM)
      ensures r == 0 ==> log == old(log) + [first + k] && PayAll(a, Requests(first, k + 1, false)) == Paid(Acc())
      ensures r == 0 && TailIsApart(ph) ==> Holds(ph, bin, va / BY2PG + 1)
      ensures r == 0 && !TailIsApart(ph) ==> first + k in table && PageAt(first + k) == Filled(0, Null, 0)
      ensures r == 0 && first in old(table) && k > 0 ==> first in table && PageAt(first) == old(PageAt(first))
      ensures r != 0 ==> PayAll(a, TailRequests(ph)).Short?
    {
      PayNext(a, Acc(), first, |TailRequests(ph)|, k, false);
      r := MapNext(kernel, ph, bin, va, 0, Null, 0, TailIsApart(ph));
    }

    // The second loop: pages with nothing of the file in them, from offset start on.
    method LoadTail(kernel: bool, ph: Phdr, ghost bin: seq<byte>, start: nat) returns (r: int)
      requires Valid() && |bin| == ph.filesz <= ph.memsz && start >= ph.filesz
      requires TailIsApart(ph) ==> Holds(ph, bin, ContentEnd(ph))
      requires TailIsApart(ph) ==> ph.vaddr + start == ContentEnd(ph) * BY2PG || (start >= ph.memsz && ContentEnd(ph) == End(ph))
      requires !TailIsApart(ph) ==> start == ph.filesz
      modifies this
      ensures Valid()
      ensures r == if PayAll(old(Acc()), TailRequests(ph)).Paid? then 0 else E_NO_MEM
      ensures r == 0 ==> log == old(log) + TailMaps(ph, ContentEnd(ph)) && PayAll(old(Acc()), TailRequests(ph)) == Paid(Acc())
      ensures r == 0 && TailIsApart(ph) ==> Holds(ph, bin, End(ph))
      ensures r == 0 && !TailIsApart(ph) ==> First(ph) in table && PageAt(First(ph)) == Filled(0, Null, 0)
    {
      r := 0;
      var i := start;
      ghost var k, next, a := 0, ContentEnd(ph), Acc();
      ghost var first, n := TailStart(ph), |TailMaps(ph, next)|;
      while i < ph.memsz
        invariant Valid() && r == 0 && i == start + BY2PG * k
        invariant k <= n && log == old(log) + TailMaps(ph, next)[..k] && PayAll(a, Requests(first, k, false)) == Paid(Acc())
        invariant TailIsApart(ph) ==> Holds(ph, bin, next + k)
        invariant !TailIsApart(ph) && k > 0 ==> First(ph) in table && PageAt(First(ph)) == Filled(0, Null, 0)
      {
        TailStep(ph, start, next, k);
        r := MapOfTail(kernel, ph, bin, ph.vaddr + i, a, first, k);
        if r != 0 { return; }
        i := i + BY2PG;
        k := k + 1;
      }
      TailEnds(ph, start, next, k);
    }

    // One page of the file's contents.
    method MapContent(kernel: bool, ph: Phdr, ghost bin: seq<byte>, va: nat, offset: nat, src: seq<byte>, len: nat,
                      ghost a: Account, ghost next: nat, ghost was: seq<nat>) returns (r: int)
      requires Valid() && offset + len <= BY2PG && len <= |src| && First(ph) <= next < ContentEnd(ph) && va / BY2PG == next
      requires Holds(ph, bin, next) && PayAll(a, Requests(First(ph), next - First(ph), !kernel)) == Paid(Acc())
      requires Wanted(Filled(offset, Bytes(src), len), ph.vaddr, bin, next) && log == was + Run(First(ph), next - First(ph))
      modifies this
      ensures Valid() && (r == 0 || r == E_NO_MEM)
      ensures r == 0 ==> Holds(ph, bin, next + 1) && log == was + Run(First(ph), next + 1 - First(ph))
      ensures r == 0 ==> PayAll(a, Requests(First(ph), next + 1 - First(ph), !kernel)) == Paid(Acc())
      ensures r != 0 ==> PayAll(a, Requests(First(ph), Contents(ph), !kernel)).Short?
    {
      PayNext(a, Acc(), First(ph), Contents(ph), next - First(ph), !kernel);
      r := MapNext(kernel, ph, bin, va, offset, Bytes(src), len, true);
    }

    // The first page, if the segment starts inside it.
    method MapFirst(kernel: bool, ph: Phdr, bin: seq<byte>, offset: nat, len: nat) returns (r: int)
      requires Valid() && |bin| == ph.filesz <= ph.memsz && offset == ph.vaddr % BY2PG != 0 && len == Min(ph.filesz, BY2PG - offset)
      modifies this
      ensures Valid() && (r == 0 || r == E_NO_MEM)
      ensures r == 0 ==> Holds(ph, bin, First(ph) + 1) && log == old(log) + Run(First(ph), 1)
      ensures r == 0 ==> PayAll(old(Acc()), Requests(First(ph), 1, !kernel)) == Paid(Acc())
      ensures r != 0 ==> PayAll(old(Acc()), Requests(First(ph), Contents(ph), !kernel)).Short?
    {
      FirstPageWants(ph, bin);
      r := MapContent(kernel, ph, bin, ph.vaddr, offset, bin, len, Acc(), First(ph), log);
    }

    // The partial first page and the first loop: everything the file has.  i: where the
    // second loop starts.
    method LoadContents(kernel: bool, ph: Phdr, bin: seq<byte>) returns (r: int, i: nat)
      requires Valid() && |bin| == ph.filesz <= ph.memsz
      modifies this
      ensures Valid()
      ensures var qs := Requests(First(ph), Contents(ph), !kernel);
        r == (if PayAll(old(Acc()), qs).Paid? then 0 else E_NO_MEM) && (r == 0 ==> PayAll(old(Acc()), qs) == Paid(Acc()))
      ensures r == 0 ==> Holds(ph, bin, ContentEnd(ph)) && i >= ph.filesz
      ensures r == 0 ==> log == old(log) + Run(First(ph), Contents(ph))
      ensures r == 0 && TailIsApart(ph) ==> ph.vaddr + i == ContentEnd(ph) * BY2PG || (i >= ph.memsz && ContentEnd(ph) == End(ph))
      ensures r == 0 && !TailIsApart(ph) ==> i == ph.filesz
    {
      var va, binSize := ph.vaddr, ph.filesz;
      var offset := va % BY2PG;
      ghost var next, a, was := First(ph), Acc(), log;
      i, r := 0, 0;
      AtFirst(ph);
      if offset != 0 {
        i := Min(binSize, BY2PG - offset);
        r := MapFirst(kernel, ph, bin, offset, i);
        if r != 0 { return; }
        next := next + 1;
      }
      while i < binSize
        invariant First(ph) <= next && At(ph, i, next)
        invariant Valid() && r == 0 && log == was + Run(First(ph), next - First(ph))
        invariant PayAll(a, Requests(First(ph), next - First(ph), !kernel)) == Paid(Acc()) && Holds(ph, bin, next)
      {
        NextPageWants(ph, bin, i, next);
        AtNext(ph, i, next);
        r := MapContent(kernel, ph, bin, va + i, 0, bin[i..], Min(binSize - i, BY2PG), a, next, was);
        if r != 0 { return; }
        next := next + 1;
        i := i + BY2PG;
      }
      AtEnd(ph, i, next);
    }

    // Either all of Maps(ph) could be paid for and was mapped, or memory ran out.  When the zero
    // tail is apart the segment's pages then hold its bytes; when it is not, the first page
    // was mapped again and the file's bytes are gone.
    method LoadSeg(kernel: bool, ph: Phdr, bin: seq<byte>) returns (r: int)
      requires Valid() && |bin| == ph.filesz <= ph.memsz
      modifies this
      ensures Valid()
      ensures r == if PayAll(old(Acc()), AllRequests(kernel, ph)).Paid? then 0 else E_NO_MEM
      ensures r == 0 ==> PayAll(old(Acc()), AllRequests(kernel, ph)) == Paid(Acc())
      ensures r == 0 ==> log == old(log) + Maps(ph)
      ensures r == 0 && TailIsApart(ph) ==> Holds(ph, bin, End(ph))
      ensures r == 0 && !TailIsApart(ph) ==> First(ph) in table && PageAt(First(ph)) == Filled(0, Null, 0)
    {
      var i;
      PayConcat(Acc(), Requests(First(ph), Contents(ph), !kernel), TailRequests(ph));
      MapsInTwo(ph);
      r, i := LoadContents(kernel, ph, bin);
      if r != 0 { return; }
      r := LoadTail(kernel, ph, bin, i);
    }

    // The byte at an address.
    ghost function ByteAt(a: nat): byte
      reads this
      requires Valid() && a / BY2PG in table
    {
      PageAt(a / BY2PG)[a % BY2PG]
    }

    // What Holds means for the program: its file bytes, then zeros, at every address.
    lemma SegmentReads(ph: Phdr, bin: seq<byte>, a: nat)
      requires Valid() && |bin| == ph.filesz && Holds(ph, bin, End(ph)) && ph.vaddr <= a < ph.vaddr + ph.memsz
      ensures a / BY2PG in table && SegmentBits(table[a / BY2PG].bits, ph.flags)
      ensures ByteAt(a) == if a < ph.vaddr + ph.filesz then bin[a - ph.vaddr] else 0
    {
      assert PageHolds(ph, bin, a / BY2PG);
      SegmentBitsEntered(ph.flags);
      assert a == a / BY2PG * BY2PG + a % BY2PG;
    }
  }

  // Every page of the segment is mapped exactly once, in order, exactly when the zero tail
  // is apart.
  lemma OncePerPage(ph: Phdr)
    requires ph.filesz <= ph.memsz
    ensures Maps(ph) == PagesOf(ph) <==> TailIsApart(ph)
    ensures !TailIsApart(ph) ==> |Maps(ph)| >= 2 && Maps(ph)[0] == Maps(ph)[1] == First(ph)
  {
    if !TailIsApart(ph) {
      assert Maps(ph)[0] == Maps(ph)[1];
      assert |PagesOf(ph)| >= 2 ==> PagesOf(ph)[0] != PagesOf(ph)[1];
    }
  }
}
