// What the block operations of fs/fs.c answer and what they leave alone.
module FileEffects {
  import opened FileBlocks
  import opened FileBlockRuns

  // ---- alloc_block ----

  ghost predicate Least(free: set<nat>, r: nat) { r in free && r >= 3 && forall b :: b in free && b >= 3 ==> b >= r }

  // The least free block from 3 on is taken, with a zero page if it was not cached; without a
  // free block the answer is E_NO_DISK, and without memory for the page E_NO_MEM, and nothing
  // changes.
  lemma AllocBlockEffect(s: Fs, memory: bool)
    requires Shape(s) && forall b :: b in s.free ==> b < s.nblocks
    ensures var g := AllocBlock(s, memory);
      if forall b :: b in s.free ==> b < 3 then g == Got(s, E_NO_DISK)
      else if g.r < 0 then g == Got(s, E_NO_MEM) && !memory && forall b :: Least(s.free, b) ==> b !in s.cached
      else
        Least(s.free, g.r) && (memory || g.r in s.cached) && g.s.free == s.free - {g.r} &&
        g.s == s.(free := g.s.free, cached := s.cached + {g.r as nat}, words := g.s.words) && |g.s.words| == s.nblocks &&
        (forall b: nat :: b < s.nblocks && (b != g.r || b in s.cached) ==> g.s.words[b] == s.words[b]) &&
        (g.r !in s.cached ==> forall i :: 0 <= i < NINDIRECT ==> g.s.words[g.r][i] == 0)
  {
    var b := FirstFree(s.free, 3, s.nblocks);
    if b == s.nblocks {
      assert forall p :: p in s.free ==> p < 3;
    } else {
      assert b in s.free && b >= 3;
      assert Least(s.free, b);
    }
  }

  // ---- frames ----

  // Only file f changes, and of the blocks only those of freed and its indirect block.
  ghost predicate OnlyFile(s: Fs, s': Fs, f: nat, spare: set<nat>) {
    && s'.nblocks == s.nblocks && |s'.files| == |s.files| && |s'.words| == |s.words| && f < |s.files|
    && (forall h :: 0 <= h < |s.files| && h != f ==> s'.files[h] == s.files[h])
    && (forall b: nat :: b < |s.words| && b !in spare && b != s.files[f].indirect ==> s'.words[b] == s.words[b])
  }

  // file_clear_block keeps the file's size, its indirect block, every other file and the contents
  // of every other block.
  lemma ClearBlockFrame(s: Fs, f: nat, bno: nat)
    requires Shape(s) && f < |s.files|
    ensures var s' := ClearFileBlock(s, f, bno);
      OnlyFile(s, s', f, {}) && s'.files[f].size == s.files[f].size && s'.files[f].indirect == s.files[f].indirect
  {
  }

  lemma {:induction false} ClearRangeFrame(s: Fs, f: nat, lo: nat, hi: nat)
    requires Shape(s) && f < |s.files|
    ensures var s' := ClearRange(s, f, lo, hi);
      OnlyFile(s, s', f, {}) && s'.files[f].size == s.files[f].size && s'.files[f].indirect == s.files[f].indirect
    decreases hi - lo
  {
    if lo < hi {
      ClearBlockFrame(s, f, lo);
      ClearRangeFrame(ClearFileBlock(s, f, lo), f, lo + 1, hi);
    }
  }

  // file_truncate leaves the file with the new size, whatever it was, and no other file or block
  // of data changed.
  lemma TruncateEffect(s: Fs, f: nat, newsize: nat)
    requires Shape(s) && f < |s.files|
    ensures var s' := Truncate(s, f, newsize);
      OnlyFile(s, s', f, {}) && s'.files[f].size == newsize &&
      s'.files[f].indirect == if newsize == 0 || newsize / BY2BLK + 1 <= NDIRECT then 0 else s.files[f].indirect
  {
    ClearRangeFrame(s, f, NewBlocks(newsize), OldBlocks(s.files[f].size));
  }

  lemma WalkFrame(s: Fs, f: nat, bno: nat, alloc: bool, memory: bool)
    requires Shape(s) && f < |s.files|
    ensures var w := Walk(s, f, bno, alloc, memory).s;
      OnlyFile(s, w, f, s.free) && w.files[f].size == s.files[f].size && (forall b :: b in w.free ==> b in s.free) &&
      (w.files[f].indirect == s.files[f].indirect || w.files[f].indirect in s.free)
  {
  }

  // file_map_block changes no size and no other file, and no block's contents but those of the
  // blocks it takes and of the file's indirect block.
  lemma MapBlockFrame(s: Fs, f: nat, bno: nat, alloc: bool, memory: (bool, bool))
    requires Shape(s) && f < |s.files|
    ensures var s' := MapFileBlock(s, f, bno, alloc, memory).s;
      OnlyFile(s, s', f, s.free) && s'.files[f].size == s.files[f].size && (forall b :: b in s'.free ==> b in s.free)
    ensures !alloc ==> MapFileBlock(s, f, bno, alloc, memory).s == s.(cached := MapFileBlock(s, f, bno, alloc, memory).s.cached)
  {
    WalkFrame(s, f, bno, alloc, memory.0);
  }

  // Every block of every file that still holds a byte below the new size is where it was, with
  // what it held; those from the new count up to the old one are no longer the file's.
  lemma TruncateKeepsData(s: Fs, owner: map<nat, Slot>, f: nat, newsize: nat, h: nat, bno: nat)
    requires Owned(s, owner) && f < |s.files| && h < |s.files| && bno < NINDIRECT
    ensures var s' := Truncate(s, f, newsize); |s'.files| == |s.files| && |s'.words| == |s.words|
    ensures var s', p := Truncate(s, f, newsize), Lookup(s, h, bno);
      (h != f || BY2BLK * bno < newsize ==> Lookup(s', h, bno) == p && (p != 0 ==> p < |s.words| && s'.words[p] == s.words[p])) &&
      (h == f && (newsize == 0 || BY2BLK * bno > newsize) && BY2BLK * bno <= s.files[f].size ==> Lookup(s', h, bno) == 0)
  {
    TruncateSlots(s, owner, f, newsize);
    TruncateEffect(s, f, newsize);
    var x, p := SlotOf(h, bno), Lookup(s, h, bno);
    assert IsSlot(s, x) && At(s, Indirect(f)) == s.files[f].indirect;
    if p != 0 { assert p in owner && owner[p] == x; }
  }
}
