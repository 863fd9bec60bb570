// Two runs of the file server that end with disk blocks unaccounted for: the failing halves of
// IndirectGivenExactly and TruncateExactly, reached by its own calls.
module FileBlockFailures {
  import opened FileBlocks
  import opened FileBlockRuns

  // A cached block of file f, with something in it where an indirect block has its entries.
  predicate HoldsData(s: Fs, b: nat, i: nat) {
    b in s.cached && b < |s.words| && NDIRECT <= i < NINDIRECT == |s.words[b]| && s.words[b][i] != 0
  }

  // file_clear_block leaves the block's page cached as it is.
  lemma ClearedKeepsItsPage(s: Fs, owner: map<nat, Slot>, f: nat, bno: nat, i: nat)
    requires Owned(s, owner) && f < |s.files| && bno < NINDIRECT && Lookup(s, f, bno) != 0 && HoldsData(s, Lookup(s, f, bno), i)
    ensures HoldsData(ClearFileBlock(s, f, bno), Lookup(s, f, bno), i)
    ensures forall g :: 0 <= g < |s.files| ==> ClearFileBlock(s, f, bno).files[g].indirect == s.files[g].indirect
  {
    assert At(s, Indirect(f)) != 0 ==> At(s, Indirect(f)) in owner;
    assert At(s, SlotOf(f, bno)) in owner;
  }

  // A data block is cleared and is then the first free one when a file needs an indirect block:
  // its page is still cached, and what the file held there is read as block numbers.
  lemma ClearedDataBecomesPointers(s: Fs, owner: map<nat, Slot>, f: nat, bno: nat, i: nat, g: nat, bno': nat, memory: (bool, bool))
    requires Owned(s, owner) && f < |s.files| && bno < NINDIRECT && Lookup(s, f, bno) != 0 && HoldsData(s, Lookup(s, f, bno), i)
    requires forall p: nat :: p in s.free ==> Lookup(s, f, bno) < p
    requires g < |s.files| && s.files[g].indirect == 0 && NDIRECT <= bno' < NINDIRECT
    ensures Sound(ClearFileBlock(s, f, bno)) && !Sound(MapFileBlock(ClearFileBlock(s, f, bno), g, bno', true, memory).s)
  {
    var b, s1 := Lookup(s, f, bno), ClearFileBlock(s, f, bno);
    ClearFileBlockExactly(s, owner, f, bno);
    ClearedKeepsItsPage(s, owner, f, bno, i);
    var left := owner - BlocksOf(owner, f, bno, bno + 1);
    assert owner[b] == SlotOf(f, bno);
    assert BlocksOf(owner, f, bno, bno + 1) == {b};
    assert forall p: nat :: p in s1.free ==> b <= p;
    assert FirstFree(s1.free, 3, s1.nblocks) == b;
    assert NewIndirect(s1, g, bno', true, memory.0) == b && !Blank(s1, b);
    MapFileBlockExactly(s1, left, g, bno', true, memory);
  }

  lemma MapFileBlockKeepsSize(s: Fs, f: nat, bno: nat, memory: (bool, bool))
    requires Shape(s) && f < |s.files|
    ensures f < |MapFileBlock(s, f, bno, true, memory).s.files|
    ensures MapFileBlock(s, f, bno, true, memory).s.files[f].size == s.files[f].size
  {
  }

  // A block is mapped beyond the size the file records, and the file is then cut to ten blocks
  // or fewer (file_remove cuts it to none): the block is lost with the indirect block.
  lemma MappedBeyondSizeIsLost(s: Fs, owner: map<nat, Slot>, f: nat, bno: nat, memory: (bool, bool), newsize: nat)
    requires Owned(s, owner) && f < |s.files| && NDIRECT <= bno < NINDIRECT && OldBlocks(s.files[f].size) <= bno
    requires NewIndirect(s, f, bno, true, memory.0) < s.nblocks ==> Blank(s, NewIndirect(s, f, bno, true, memory.0))
    requires MapFileBlock(s, f, bno, true, memory).r >= 0 && NewBlocks(newsize) <= NDIRECT
    ensures Sound(MapFileBlock(s, f, bno, true, memory).s)
    ensures f < |MapFileBlock(s, f, bno, true, memory).s.files|
    ensures !Sound(Truncate(MapFileBlock(s, f, bno, true, memory).s, f, newsize))
  {
    var g := MapFileBlock(s, f, bno, true, memory);
    var owner' := MapFileBlockKeeps(s, owner, f, bno, true, memory);
    MapFileBlockKeepsSize(s, f, bno, memory);
    assert At(g.s, Entry(f, bno)) == g.r;
    TruncateExactly(g.s, owner', f, newsize);
  }

  // Both happen on a disk of five blocks with one file.
  function NoDirect(): seq<nat> { seq(NDIRECT, _ => 0) }

  function Words(): seq<seq<nat>> { [Zeros(), Zeros(), Zeros(), Zeros()[NDIRECT := 7], Zeros()] }

  // The file has one block, the server has read it, and it is cut to nothing.
  function OneBlock(): Fs { Fs(5, {4}, Words(), {3}, [File(100, NoDirect()[0 := 3], 0)]) }

  function Cut(): Fs { Fs(5, {3, 4}, Words(), {3}, [File(0, NoDirect(), 0)]) }

  function NoBlock(): Fs { Fs(5, {3, 4}, Words(), {}, [File(0, NoDirect(), 0)]) }

  lemma OneBlockIsCut()
    ensures Sound(OneBlock()) && Truncate(OneBlock(), 0, 0) == Cut()
  {
    var s := OneBlock();
    assert Owned(s, map[3 := Direct(0, 0)]);
    assert NoDirect()[0 := 3][0 := 0] == NoDirect();
    assert ClearRange(s, 0, 0, 1) == ClearRange(ClearFileBlock(s, 0, 0), 0, 1, 1);
  }

  lemma OneBlockRun()
    ensures !Sound(MapFileBlock(Cut(), 0, 10, true, (true, true)).s)
  {
    assert Owned(Cut(), map[]);
    assert FirstFree({3, 4}, 3, 5) == 3;
    assert Cut().words[3][NDIRECT] == 7;
    MapFileBlockExactly(Cut(), map[], 0, 10, true, (true, true));
  }

  lemma NoBlockRun()
    ensures Sound(NoBlock()) && !Sound(Truncate(MapFileBlock(NoBlock(), 0, 10, true, (true, true)).s, 0, 0))
  {
    var s := NoBlock();
    assert Owned(s, map[]);
    assert FirstFree(s.free, 3, 5) == 3;
    var w := Walk(s, 0, 10, true, true);
    assert w.s.free == {4} && w.s.files[0].indirect == 3 && w.s.words[3] == Zeros();
    assert FirstFree({4}, 3, 5) == FirstFree({4}, 4, 5) == 4;
    MappedBeyondSizeIsLost(s, map[], 0, 10, (true, true), 0);
  }

  lemma ShortRunsLoseBlocks()
    ensures Sound(OneBlock()) && !Sound(MapFileBlock(Truncate(OneBlock(), 0, 0), 0, 10, true, (true, true)).s)
    ensures Sound(NoBlock()) && !Sound(Truncate(MapFileBlock(NoBlock(), 0, 10, true, (true, true)).s, 0, 0))
  {
    OneBlockIsCut();
    OneBlockRun();
    NoBlockRun();
  }
}
