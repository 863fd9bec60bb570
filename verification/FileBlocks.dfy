// The block map of the file system (fs/fs.c): which disk block holds which block of which
// file, the bitmap of free blocks, and the blocks the server has cached.
module FileBlocks {
  const BY2BLK: nat := 4096
  const NDIRECT: nat := 10
  const NINDIRECT: nat := 1024

  const E_NO_MEM: int := -4
  const E_NO_DISK: int := -8
  const E_NOT_FOUND: int := -10
  const E_INVAL: int := -3

  // struct File; 0 in a pointer means none.
  datatype File = File(size: nat, direct: seq<nat>, indirect: nat)

  // nblocks: s_nblocks.  free: the set bits of the bitmap.  words: what each block holds,
  // as the server sees it.  cached: blocks mapped at their diskaddr.  files: every struct
  // File on the disk, wherever its directory keeps it.
  datatype Fs = Fs(nblocks: nat, free: set<nat>, words: seq<seq<nat>>, cached: set<nat>, files: seq<File>)

  // The places a block number is stored.
  datatype Slot = Direct(f: nat, i: nat) | Indirect(f: nat) | Entry(f: nat, i: nat)

  predicate FileShape(s: Fs, v: File) { |v.direct| == NDIRECT && v.indirect < s.nblocks }

  predicate Shape(s: Fs) {
    && s.nblocks >= 3 && |s.words| == s.nblocks
    && (forall b :: 0 <= b < s.nblocks ==> |s.words[b]| == NINDIRECT)
    && (forall f :: 0 <= f < |s.files| ==> FileShape(s, s.files[f]))
  }

  predicate IsSlot(s: Fs, x: Slot) {
    && x.f < |s.files|
    && match x
       case Direct(_, i) => i < NDIRECT
       case Indirect(_) => true
       case Entry(_, i) => NDIRECT <= i < NINDIRECT
  }

  function At(s: Fs, x: Slot): nat
    requires Shape(s) && IsSlot(s, x)
  {
    var v := s.files[x.f];
    match x
    case Direct(_, i) => v.direct[i]
    case Indirect(_) => v.indirect
    case Entry(_, i) => if v.indirect == 0 then 0 else s.words[v.indirect][i]
  }

  // The slot of a file's block, and the block itself (0: none).
  function SlotOf(f: nat, bno: nat): Slot { if bno < NDIRECT then Direct(f, bno) else Entry(f, bno) }

  function Lookup(s: Fs, f: nat, bno: nat): nat
    requires Shape(s) && f < |s.files| && bno < NINDIRECT
  {
    At(s, SlotOf(f, bno))
  }

  // Every block from 3 on is either free or owned by exactly one slot, and every slot's
  // block is owned by that slot.
  ghost predicate Owned(s: Fs, owner: map<nat, Slot>) {
    && Shape(s)
    && (forall p: nat :: p in s.free ==> 3 <= p < s.nblocks)
    && (forall p: nat :: p in owner <==> 3 <= p < s.nblocks && p !in s.free)
    && (forall p: nat :: p in owner ==> IsSlot(s, owner[p]) && At(s, owner[p]) == p)
    && (forall x :: IsSlot(s, x) && At(s, x) != 0 ==> At(s, x) in owner && owner[At(s, x)] == x)
  }

  ghost predicate Sound(s: Fs) { exists owner :: Owned(s, owner) }

  // ---- the steps ----

  function SetFile(s: Fs, f: nat, v: File): Fs
    requires f < |s.files|
  {
    s.(files := s.files[f := v])
  }

  function Store(s: Fs, x: Slot, p: nat): (s': Fs)
    requires Shape(s) && IsSlot(s, x) && (x.Indirect? ==> p < s.nblocks) && (x.Entry? ==> s.files[x.f].indirect != 0)
    ensures Shape(s')
  {
    var v := s.files[x.f];
    match x
    case Direct(f, i) => SetFile(s, f, v.(direct := v.direct[i := p]))
    case Indirect(f) => SetFile(s, f, v.(indirect := p))
    case Entry(f, i) =>
      var page: seq<nat> := s.words[v.indirect][i := p];
      s.(words := s.words[v.indirect := page])
  }

  // alloc_block_num's scan.
  function FirstFree(free: set<nat>, b: nat, nblocks: nat): (r: nat)
    requires b <= nblocks
    ensures b <= r <= nblocks && (r < nblocks ==> r in free) && forall p :: b <= p < r ==> p !in free
    decreases nblocks - b
  {
    if b == nblocks || b in free then b else FirstFree(free, b + 1, nblocks)
  }

  function Zeros(): (z: seq<nat>) ensures |z| == NINDIRECT { seq(NINDIRECT, _ => 0) }

  // map_block: a cached block keeps its page, whatever it holds.
  function MapBlock(s: Fs, b: nat): (s': Fs)
    requires Shape(s) && b < s.nblocks
    ensures Shape(s')
  {
    if b in s.cached then s else s.(cached := s.cached + {b}, words := s.words[b := Zeros()])
  }

  datatype Got = Got(s: Fs, r: int)

  // alloc_block; memory: whether a page can be had for the cache.  A failed mapping frees
  // the block again.
  function AllocBlock(s: Fs, memory: bool): (g: Got)
    requires Shape(s)
    ensures Shape(g.s)
    ensures g.r >= 0 ==> 3 <= g.r < s.nblocks && g.r in s.free
  {
    var b := FirstFree(s.free, 3, s.nblocks);
    if b == s.nblocks then Got(s, E_NO_DISK)
    else if b !in s.cached && !memory then Got(s, E_NO_MEM)
    else Got(MapBlock(s.(free := s.free - {b}), b), b)
  }

  function FreeBlock(s: Fs, b: nat): Fs {
    if b == 0 || b >= s.nblocks then s else s.(free := s.free + {b})
  }

  // read_block, for a block it does not panic on.
  function Read(s: Fs, b: nat): Fs { s.(cached := s.cached + {b}) }

  // file_block_walk; on success the slot is SlotOf(f, bno).
  function Walk(s: Fs, f: nat, bno: nat, alloc: bool, memory: bool): (g: Got)
    requires Shape(s) && f < |s.files|
    ensures Shape(g.s) && |g.s.files| == |s.files| && g.r <= 0
    ensures g.r == 0 && bno >= NDIRECT ==> g.s.files[f].indirect != 0
    ensures g.r == 0 ==> bno < NINDIRECT
  {
    if bno < NDIRECT then Got(s, 0)
    else if bno >= NINDIRECT then Got(s, E_INVAL)
    else if s.files[f].indirect != 0 then Got(Read(s, s.files[f].indirect), 0)
    else if !alloc then Got(s, E_NOT_FOUND)
    else
      var a := AllocBlock(s, memory);
      if a.r < 0 then a else Got(Read(Store(a.s, Indirect(f), a.r), a.r), 0)
  }

  // file_map_block; memory: the answers to the two cache requests it may make.
  function MapFileBlock(s: Fs, f: nat, bno: nat, alloc: bool, memory: (bool, bool)): (g: Got)
    requires Shape(s) && f < |s.files|
    ensures Shape(g.s)
  {
    var w := Walk(s, f, bno, alloc, memory.0);
    if w.r < 0 then w
    else if Lookup(w.s, f, bno) != 0 then Got(w.s, Lookup(w.s, f, bno))
    else if !alloc then Got(w.s, E_NOT_FOUND)
    else
      var a := AllocBlock(w.s, memory.1);
      if a.r < 0 then a else Got(Store(a.s, SlotOf(f, bno), a.r), a.r)
  }

  // file_clear_block
  function ClearFileBlock(s: Fs, f: nat, bno: nat): (s': Fs)
    requires Shape(s) && f < |s.files|
    ensures Shape(s') && |s'.files| == |s.files|
  {
    var w := Walk(s, f, bno, false, true);
    if w.r < 0 || Lookup(w.s, f, bno) == 0 then w.s
    else Store(FreeBlock(w.s, Lookup(w.s, f, bno)), SlotOf(f, bno), 0)
  }

  function ClearRange(s: Fs, f: nat, lo: nat, hi: nat): (s': Fs)
    requires Shape(s) && f < |s.files|
    ensures Shape(s') && |s'.files| == |s.files|
    decreases hi - lo
  {
    if lo >= hi then s else ClearRange(ClearFileBlock(s, f, lo), f, lo + 1, hi)
  }

  function OldBlocks(size: nat): nat { size / BY2BLK + 1 }

  function NewBlocks(size: nat): nat { if size == 0 then 0 else size / BY2BLK + 1 }

  function DropIndirect(s: Fs, f: nat): (s': Fs)
    requires Shape(s) && f < |s.files|
    ensures Shape(s') && |s'.files| == |s.files|
  {
    if s.files[f].indirect == 0 then s else Store(FreeBlock(s, s.files[f].indirect), Indirect(f), 0)
  }

  // file_truncate
  function Truncate(s: Fs, f: nat, newsize: nat): (s': Fs)
    requires Shape(s) && f < |s.files|
    ensures Shape(s')
  {
    var cleared := ClearRange(s, f, NewBlocks(newsize), OldBlocks(s.files[f].size));
    var dropped := if NewBlocks(newsize) <= NDIRECT then DropIndirect(cleared, f) else cleared;
    SetFile(dropped, f, dropped.files[f].(size := newsize))
  }
}
