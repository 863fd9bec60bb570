// fs/fs.c as it runs: the bitmap, the cached blocks and the file structures changed in
// place, each operation proved to be its step of FileBlocks.
module FileServer {
  import opened Bits
  import opened FileBlocks
  import opened FileBlockRuns

  const BIT2BLK: nat := 8 * BY2BLK

  // Ownership outlives the clearing of a block, and an indirect block is not free.
  lemma StaysOwned(s: Fs, owner: map<nat, Slot>, f: nat, bno: nat) returns (left: map<nat, Slot>)
    requires Owned(s, owner) && f < |s.files|
    ensures Owned(ClearFileBlock(s, f, bno), left) && s.files[f].indirect !in s.free
  {
    ClearFileBlockExactly(s, owner, f, bno);
    assert At(s, Indirect(f)) == s.files[f].indirect;
    left := owner - BlocksOf(owner, f, bno, bno + 1);
  }

  class Server {
    var nblocks: nat
    var bitmap: array<nat>         // 1: free
    var blocks: array<seq<nat>>    // at diskaddr when mapped, else on the disk
    var mapped: array<bool>
    var files: array<File>

    ghost predicate Valid()
      reads this
    {
      blocks.Length == nblocks && mapped.Length == nblocks && nblocks <= 32 * bitmap.Length
    }

    ghost function FreeBits(): set<nat>
      reads this, bitmap
      requires Valid()
    {
      set p: nat | p < nblocks && Bit(bitmap[..], p)
    }

    ghost function Abs(): Fs
      reads this, bitmap, blocks, mapped, files
      requires Valid()
    {
      Fs(nblocks, FreeBits(), blocks[..], (set p: nat | p < nblocks && mapped[p]), files[..])
    }

    ghost predicate Ready()
      reads this, bitmap, blocks, mapped, files
    {
      Valid() && Shape(Abs())
    }

    // A disk before read_bitmap, blocks 0 to 2 read: by the check of the disk, which works on
    // block 1 and keeps a copy of it in block 0, and as bitmap.
    constructor (n: nat, disk: seq<seq<nat>>, bits: seq<nat>, table: seq<File>)
      requires |disk| == n && n <= 32 * |bits| && Shape(Fs(n, {}, disk, {}, table))
      ensures Ready() && fresh(bitmap) && fresh(blocks) && fresh(mapped) && fresh(files)
      ensures Abs() == Fs(n, (set p: nat | p < n && Bit(bits, p)), disk, {0, 1, 2}, table)
    {
      nblocks := n;
      bitmap := new nat[|bits|](i requires 0 <= i < |bits| => bits[i]);
      blocks := new seq<nat>[n](i requires 0 <= i < n => disk[i]);
      mapped := new bool[n](i => i <= 2);
      files := new File[|table|](i requires 0 <= i < |table| => table[i]);
      new;
      assert bitmap[..] == bits && blocks[..] == disk && files[..] == table;
    }

    method BlockIsFree(b: nat) returns (free: bool)
      requires Valid()
      ensures free <==> b in Abs().free
    {
      if b >= nblocks { return false; }
      free := Test(bitmap[b / 32], b % 32);
      assert free <==> Bit(bitmap[..], b);
    }

    // read_bitmap's assertions: the boot block, the super block and the bitmap are in use.
    method ReservedInUse() returns (ok: bool)
      requires Valid()
      ensures ok <==> forall b: nat :: b <= 2 + nblocks / BIT2BLK ==> b !in Abs().free
    {
      var i := 0;
      ok := true;
      while i <= 2 + nblocks / BIT2BLK
        invariant 0 <= i <= 3 + nblocks / BIT2BLK
        invariant ok <==> forall b: nat :: b < i ==> b !in Abs().free
      {
        var free := BlockIsFree(i);
        ok := ok && !free;
        i := i + 1;
      }
    }

    method MarkFree(b: nat)
      requires Ready()
      modifies bitmap
      ensures Ready() && Abs() == FreeBlock(old(Abs()), b)
    {
      if b == 0 || b >= nblocks { return; }
      ghost var before := bitmap[..];
      bitmap[b / 32] := Set(bitmap[b / 32], b % 32);
      assert bitmap[..] == before[b / 32 := Set(before[b / 32], b % 32)];
      forall p: nat | p < nblocks ensures Bit(bitmap[..], p) <==> b == p || Bit(before, p) { SetInBitmap(before, b, p); }
      assert FreeBits() == old(FreeBits()) + {b};
    }

    method AllocBlockNum() returns (r: int)
      requires Ready()
      modifies bitmap
      ensures Ready()
      ensures var b := FirstFree(old(Abs()).free, 3, nblocks);
        if b == nblocks then r == E_NO_DISK && Abs() == old(Abs())
        else r == b && Abs() == old(Abs()).(free := old(Abs()).free - {b})
    {
      var b := 3;
      while b < nblocks
        invariant 3 <= b <= nblocks && bitmap[..] == old(bitmap[..])
        invariant FirstFree(old(Abs()).free, 3, nblocks) == FirstFree(old(Abs()).free, b, nblocks)
      {
        assert b in old(Abs()).free <==> Bit(bitmap[..], b);
        if Test(bitmap[b / 32], b % 32) {
          ghost var before := bitmap[..];
          bitmap[b / 32] := Clear(bitmap[b / 32], b % 32);
          assert bitmap[..] == before[b / 32 := Clear(before[b / 32], b % 32)];
          forall p: nat | p < nblocks ensures Bit(bitmap[..], p) <==> b != p && Bit(before, p) { ClearInBitmap(before, b, p); }
          assert FreeBits() == old(FreeBits()) - {b};
          return b;
        }
        b := b + 1;
      }
      r := E_NO_DISK;
    }

    // map_block; memory: whether the system call finds a page.
    method MapInCache(b: nat, memory: bool) returns (r: int)
      requires Ready() && b < nblocks
      modifies blocks, mapped
      ensures Ready()
      ensures if b !in old(Abs()).cached && !memory then r == E_NO_MEM && Abs() == old(Abs())
        else r == 0 && Abs() == MapBlock(old(Abs()), b)
    {
      if mapped[b] { return 0; }
      if !memory { return E_NO_MEM; }
      mapped[b] := true;
      blocks[b] := Zeros();
      r := 0;
    }

    method AllocBlock(memory: bool) returns (r: int)
      requires Ready()
      modifies bitmap, blocks, mapped
      ensures Ready() && Abs() == FileBlocks.AllocBlock(old(Abs()), memory).s && r == FileBlocks.AllocBlock(old(Abs()), memory).r
    {
      ghost var s := Abs();
      r := AllocBlockNum();
      if r < 0 { return; }
      var b := r;
      r := MapInCache(b, memory);
      if r < 0 {
        MarkFree(b);
        assert (s.free - {b}) + {b} == s.free;
        return;
      }
      r := b;
    }

    // read_block, which panics on a block that is free or off the disk; proving its
    // requires is proving that the server does not.
    method ReadBlock(b: nat)
      requires Ready() && b < nblocks && b !in Abs().free
      modifies mapped
      ensures Ready() && Abs() == Read(old(Abs()), b)
    {
      if !mapped[b] { mapped[b] := true; }
    }

    ghost predicate NoPanic(f: nat)
      reads this, bitmap, files
    {
      Valid() && f < files.Length && files[f].indirect !in FreeBits()
    }

    method FileBlockWalk(f: nat, bno: nat, alloc: bool, memory: bool) returns (r: int)
      requires Ready() && NoPanic(f)
      modifies bitmap, blocks, mapped, files
      ensures Ready() && NoPanic(f)
      ensures Abs() == Walk(old(Abs()), f, bno, alloc, memory).s && r == Walk(old(Abs()), f, bno, alloc, memory).r
    {
      if bno < NDIRECT { return 0; }
      if bno >= NINDIRECT { return E_INVAL; }
      if files[f].indirect == 0 {
        if !alloc { return E_NOT_FOUND; }
        r := AllocBlock(memory);
        if r < 0 { return; }
        ghost var s1 := Abs();
        files[f] := files[f].(indirect := r);
        assert Abs() == Store(s1, Indirect(f), r);
      }
      ReadBlock(files[f].indirect);
      r := 0;
    }

    // *ppdiskbno, once file_block_walk has found the slot.
    method Load(f: nat, bno: nat) returns (p: nat)
      requires Ready() && f < files.Length && bno < NINDIRECT && (bno >= NDIRECT ==> files[f].indirect != 0)
      ensures p == Lookup(Abs(), f, bno)
    {
      p := if bno < NDIRECT then files[f].direct[bno] else blocks[files[f].indirect][bno];
    }

    method Save(f: nat, bno: nat, p: nat)
      requires Ready() && f < files.Length && bno < NINDIRECT && (bno >= NDIRECT ==> files[f].indirect != 0)
      modifies files, blocks
      ensures Ready() && Abs() == Store(old(Abs()), SlotOf(f, bno), p)
    {
      if bno < NDIRECT {
        files[f] := files[f].(direct := files[f].direct[bno := p]);
      } else {
        var page: seq<nat> := blocks[files[f].indirect];
        page := page[bno := p];
        blocks[files[f].indirect] := page;
      }
    }

    // The block file_map_block allocates for an empty slot.
    method Fill(f: nat, bno: nat, memory: bool) returns (r: int)
      requires Ready() && f < files.Length && bno < NINDIRECT && (bno >= NDIRECT ==> files[f].indirect != 0)
      modifies bitmap, blocks, mapped, files
      ensures Ready()
      ensures var a := FileBlocks.AllocBlock(old(Abs()), memory);
        r == a.r && Abs() == if a.r < 0 then a.s else Store(a.s, SlotOf(f, bno), a.r)
    {
      r := AllocBlock(memory);
      if r < 0 { return; }
      Save(f, bno, r);
    }

    method FileMapBlock(f: nat, bno: nat, alloc: bool, memory: (bool, bool)) returns (r: int)
      requires Ready() && NoPanic(f)
      modifies bitmap, blocks, mapped, files
      ensures Ready()
      ensures Abs() == MapFileBlock(old(Abs()), f, bno, alloc, memory).s && r == MapFileBlock(old(Abs()), f, bno, alloc, memory).r
    {
      r := FileBlockWalk(f, bno, alloc, memory.0);
      if r < 0 { return; }
      var p := Load(f, bno);
      if p == 0 {
        if !alloc { return E_NOT_FOUND; }
        r := Fill(f, bno, memory.1);
        return;
      }
      r := p;
    }

    method FileClearBlock(f: nat, bno: nat)
      requires Ready() && NoPanic(f)
      modifies bitmap, blocks, mapped, files
      ensures Ready() && Abs() == ClearFileBlock(old(Abs()), f, bno)
    {
      var r := FileBlockWalk(f, bno, false, true);
      if r < 0 { return; }
      var p := Load(f, bno);
      if p != 0 {
        MarkFree(p);
        Save(f, bno, 0);
      }
    }

    method ClearBlocks(f: nat, lo: nat, hi: nat, ghost owner: map<nat, Slot>)
      requires Valid() && f < files.Length && Owned(Abs(), owner)
      modifies bitmap, blocks, mapped, files
      ensures Ready() && Abs() == ClearRange(old(Abs()), f, lo, hi)
    {
      var bno := lo;
      ghost var owned := owner;
      while bno < hi
        invariant Valid() && f < files.Length && Owned(Abs(), owned)
        invariant ClearRange(Abs(), f, bno, hi) == ClearRange(old(Abs()), f, lo, hi)
      {
        ghost var left := StaysOwned(Abs(), owned, f, bno);
        FileClearBlock(f, bno);
        owned := left;
        bno := bno + 1;
      }
    }

    method DropIndirectBlock(f: nat)
      requires Ready() && f < files.Length
      modifies bitmap, files
      ensures Ready() && Abs() == DropIndirect(old(Abs()), f)
    {
      if files[f].indirect != 0 {
        MarkFree(files[f].indirect);
        files[f] := files[f].(indirect := 0);
      }
    }

    method SetSize(f: nat, newsize: nat)
      requires Ready() && f < files.Length
      modifies files
      ensures Ready() && Abs() == SetFile(old(Abs()), f, old(Abs()).files[f].(size := newsize))
    {
      files[f] := files[f].(size := newsize);
    }

    method FileTruncate(f: nat, newsize: nat, ghost owner: map<nat, Slot>)
      requires Valid() && f < files.Length && Owned(Abs(), owner)
      modifies bitmap, blocks, mapped, files
      ensures Ready() && Abs() == Truncate(old(Abs()), f, newsize)
    {
      var oldBlocks := files[f].size / BY2BLK + 1;
      var newBlocks := newsize / BY2BLK + 1;
      if newsize == 0 { newBlocks := 0; }
      ghost var s := Abs();
      ClearBlocks(f, newBlocks, oldBlocks, owner);
      ghost var cleared := Abs();
      assert cleared == ClearRange(s, f, NewBlocks(newsize), OldBlocks(s.files[f].size));
      if newBlocks <= NDIRECT { DropIndirectBlock(f); }
      ghost var dropped := Abs();
      assert dropped == if newBlocks <= NDIRECT then DropIndirect(cleared, f) else cleared;
      SetSize(f, newsize);
    }

    // file_set_size, without the flush of the directory's cached blocks to the disk.
    method FileSetSize(f: nat, newsize: nat, ghost owner: map<nat, Slot>)
      requires Valid() && f < files.Length && Owned(Abs(), owner)
      modifies bitmap, blocks, mapped, files
      ensures Ready()
      ensures var s := old(Abs());
        Abs() == if s.files[f].size > newsize then Truncate(s, f, newsize) else SetFile(s, f, s.files[f].(size := newsize))
    {
      if files[f].size > newsize {
        FileTruncate(f, newsize, owner);
        ghost var s := Abs();
        assert s.files[f].(size := newsize) == s.files[f];
      } else {
        ResizeKeeps(Abs(), f, newsize, owner);
      }
      files[f] := files[f].(size := newsize);
    }
  }
}
