// What the block operations of the file server keep, and exactly when they do not.
module FileBlockRuns {
  import opened FileBlocks

  // ---- counting ----

  lemma {:induction false} Numbers(lo: nat, hi: nat, s: set<nat>)
    requires lo <= hi && forall p: nat :: p in s <==> lo <= p < hi
    ensures |s| == hi - lo
    decreases hi - lo
  {
    if lo == hi {
      assert s == {};
    } else {
      assert s == {lo} + (s - {lo});
      Numbers(lo + 1, hi, s - {lo});
    }
  }

  // Free blocks and owned blocks always add up to the disk.
  lemma BlocksAreConserved(s: Fs, owner: map<nat, Slot>)
    requires Owned(s, owner)
    ensures |s.free| + |owner| == s.nblocks - 3
  {
    Numbers(3, s.nblocks, s.free + owner.Keys);
    assert |s.free + owner.Keys| == |s.free| + |owner.Keys|;
  }

  lemma OwnerIsUnique(s: Fs, o1: map<nat, Slot>, o2: map<nat, Slot>)
    requires Owned(s, o1) && Owned(s, o2)
    ensures o1 == o2
  {
    forall p | p in o1 ensures p in o2 && o1[p] == o2[p] {
      assert At(s, o1[p]) == p;
    }
    forall p | p in o2 ensures p in o1 {}
  }

  // ---- storing a pointer ----

  // Two files never share an indirect block.
  lemma IndirectsDiffer(s: Fs, owner: map<nat, Slot>, f: nat, g: nat)
    requires Owned(s, owner) && f < |s.files| && g < |s.files| && f != g && s.files[f].indirect != 0
    ensures s.files[f].indirect != s.files[g].indirect
  {
    assert At(s, Indirect(f)) == s.files[f].indirect && At(s, Indirect(g)) == s.files[g].indirect;
  }

  predicate SameIndirects(s: Fs, s': Fs) {
    |s'.files| == |s.files| && forall f :: 0 <= f < |s.files| ==> s'.files[f].indirect == s.files[f].indirect
  }

  // A direct or indirect-block entry is written: every other slot keeps its block.
  lemma StoreKeepsOthers(s: Fs, x: Slot, p: nat, y: Slot)
    requires Shape(s) && IsSlot(s, x) && IsSlot(s, y) && !x.Indirect? && (x.Entry? ==> s.files[x.f].indirect != 0)
    requires forall f, g :: 0 <= f < g < |s.files| && s.files[f].indirect != 0 ==> s.files[f].indirect != s.files[g].indirect
    ensures SameIndirects(s, Store(s, x, p)) && IsSlot(Store(s, x, p), y)
    ensures At(Store(s, x, p), y) == if y == x then p else At(s, y)
  {
  }

  lemma AllIndirectsDiffer(s: Fs, owner: map<nat, Slot>)
    requires Owned(s, owner)
    ensures forall f, g :: 0 <= f < g < |s.files| && s.files[f].indirect != 0 ==> s.files[f].indirect != s.files[g].indirect
  {
    forall f, g | 0 <= f < g < |s.files| && s.files[f].indirect != 0
      ensures s.files[f].indirect != s.files[g].indirect
    {
      IndirectsDiffer(s, owner, f, g);
    }
  }

  // ---- allocating into a slot ----

  // Block p leaves the free set for an empty slot x of a file, its page not being one the
  // slots read (a data block's).
  function Given(s: Fs, x: Slot, p: nat): Fs
    requires Shape(s) && IsSlot(s, x) && p < s.nblocks && (x.Entry? ==> s.files[x.f].indirect != 0)
  {
    Store(MapBlock(s.(free := s.free - {p}), p), x, p)
  }

  lemma MapBlockKeepsSlots(s: Fs, owner: map<nat, Slot>, p: nat, y: Slot)
    requires Owned(s, owner) && p in s.free && IsSlot(s, y)
    ensures IsSlot(MapBlock(s, p), y) && At(MapBlock(s, p), y) == At(s, y)
  {
    if y.Entry? && s.files[y.f].indirect != 0 {
      assert At(s, Indirect(y.f)) == s.files[y.f].indirect;
    }
  }

  lemma DataBlockGiven(s: Fs, owner: map<nat, Slot>, x: Slot, p: nat)
    requires Owned(s, owner) && IsSlot(s, x) && !x.Indirect? && (x.Entry? ==> s.files[x.f].indirect != 0)
    requires At(s, x) == 0 && p in s.free
    ensures Owned(Given(s, x, p), owner[p := x])
    ensures forall y :: IsSlot(s, y) ==> IsSlot(Given(s, x, p), y) && At(Given(s, x, p), y) == if y == x then p else At(s, y)
  {
    var m := MapBlock(s.(free := s.free - {p}), p);
    forall y | IsSlot(s, y) ensures IsSlot(m, y) && At(m, y) == At(s, y) { MapBlockKeepsSlots(s, owner, p, y); }
    AllIndirectsDiffer(s, owner);
    var s' := Given(s, x, p);
    forall y | IsSlot(s, y) ensures IsSlot(s', y) && At(s', y) == if y == x then p else At(s, y) {
      StoreKeepsOthers(m, x, p, y);
    }
    assert forall y :: IsSlot(s', y) ==> IsSlot(s, y);
  }

  // The page an indirect block starts with has no entries.
  predicate Blank(s: Fs, p: nat)
    requires Shape(s) && p < s.nblocks
  {
    p !in s.cached || forall i :: NDIRECT <= i < NINDIRECT ==> s.words[p][i] == 0
  }

  lemma IndirectGivenSlots(s: Fs, owner: map<nat, Slot>, f: nat, p: nat, y: Slot)
    requires Owned(s, owner) && f < |s.files| && s.files[f].indirect == 0 && p in s.free && IsSlot(s, y)
    ensures IsSlot(Given(s, Indirect(f), p), y) && At(Given(s, Indirect(f), p), y) ==
      if y == Indirect(f) then p
      else if y.Entry? && y.f == f then (if p in s.cached then s.words[p][y.i] else 0)
      else At(s, y)
  {
    MapBlockKeepsSlots(s, owner, p, y);
  }

  lemma BlankIndirectGiven(s: Fs, owner: map<nat, Slot>, f: nat, p: nat)
    requires Owned(s, owner) && f < |s.files| && s.files[f].indirect == 0 && p in s.free && Blank(s, p)
    ensures Owned(Given(s, Indirect(f), p), owner[p := Indirect(f)])
    ensures forall y :: IsSlot(s, y) && y != Indirect(f) ==>
      IsSlot(Given(s, Indirect(f), p), y) && At(Given(s, Indirect(f), p), y) == At(s, y)
  {
    var s' := Given(s, Indirect(f), p);
    forall y | IsSlot(s, y) ensures IsSlot(s', y) && At(s', y) == if y == Indirect(f) then p else At(s, y) {
      IndirectGivenSlots(s, owner, f, p, y);
    }
    assert forall y :: IsSlot(s', y) ==> IsSlot(s, y);
  }

  // A slot whose block is free, off the disk, or another slot's too.
  predicate Clash(s: Fs, x: Slot, y: Slot)
    requires Shape(s) && IsSlot(s, x) && IsSlot(s, y)
  {
    At(s, x) != 0 && (At(s, x) in s.free || At(s, x) < 3 || At(s, x) >= s.nblocks || (x != y && At(s, x) == At(s, y)))
  }

  lemma OwnedHasNoClash(s: Fs, owner: map<nat, Slot>, x: Slot, y: Slot)
    requires Owned(s, owner) && IsSlot(s, x) && IsSlot(s, y)
    ensures !Clash(s, x, y)
  {
  }

  lemma ClashIsUnsound(s: Fs, x: Slot, y: Slot)
    requires Shape(s) && IsSlot(s, x) && IsSlot(s, y) && Clash(s, x, y)
    ensures !Sound(s)
  {
    forall o ensures !Owned(s, o) {
      if Owned(s, o) { OwnedHasNoClash(s, o, x, y); }
    }
  }

  lemma StaleEntryClashes(s: Fs, owner: map<nat, Slot>, f: nat, p: nat) returns (x: Slot, y: Slot)
    requires Owned(s, owner) && f < |s.files| && s.files[f].indirect == 0 && p in s.free && !Blank(s, p)
    ensures x.Entry? && x.f == f
    ensures IsSlot(Given(s, Indirect(f), p), x) && IsSlot(Given(s, Indirect(f), p), y) && Clash(Given(s, Indirect(f), p), x, y)
  {
    var i :| NDIRECT <= i < NINDIRECT && s.words[p][i] != 0;
    var w := s.words[p][i];
    x := Entry(f, i);
    y := if w in owner then owner[w] else Indirect(f);
    IndirectGivenSlots(s, owner, f, p, x);
    IndirectGivenSlots(s, owner, f, p, y);
  }

  // map_block does not clear a page that is still cached, so an indirect block made of a
  // block freed but never uncached inherits its old contents: ownership survives exactly
  // when those have no entry.
  lemma IndirectGivenExactly(s: Fs, owner: map<nat, Slot>, f: nat, p: nat)
    requires Owned(s, owner) && f < |s.files| && s.files[f].indirect == 0 && p in s.free
    ensures Sound(Given(s, Indirect(f), p)) <==> Blank(s, p)
  {
    if Blank(s, p) {
      BlankIndirectGiven(s, owner, f, p);
    } else {
      var x, y := StaleEntryClashes(s, owner, f, p);
      ClashIsUnsound(Given(s, Indirect(f), p), x, y);
    }
  }

  // ---- file_map_block ----

  // The call takes a new indirect block, namely this one (nblocks: it does not).
  function NewIndirect(s: Fs, f: nat, bno: nat, alloc: bool, memory: bool): (p: nat)
    requires Shape(s) && f < |s.files|
    ensures p < s.nblocks ==> p in s.free && p > 0
  {
    if NDIRECT <= bno < NINDIRECT && s.files[f].indirect == 0 && alloc && AllocBlock(s, memory).r >= 0
    then AllocBlock(s, memory).r else s.nblocks
  }

  ghost predicate SameSlots(s: Fs, s': Fs, x: Slot) {
    Shape(s) && Shape(s') && forall y :: IsSlot(s, y) && y != x ==> IsSlot(s', y) && At(s', y) == At(s, y)
  }

  lemma ReadKeeps(s: Fs, owner: map<nat, Slot>, b: nat)
    requires Owned(s, owner)
    ensures Owned(Read(s, b), owner) && forall y :: IsSlot(s, y) ==> IsSlot(Read(s, b), y) && At(Read(s, b), y) == At(s, y)
  {
    var s' := Read(s, b);
    assert forall y :: IsSlot(s, y) <==> IsSlot(s', y);
    assert forall y :: IsSlot(s, y) ==> At(s', y) == At(s, y);
  }

  lemma WalkKeeps(s: Fs, owner: map<nat, Slot>, f: nat, bno: nat, alloc: bool, memory: bool) returns (owner': map<nat, Slot>)
    requires Owned(s, owner) && f < |s.files|
    requires NewIndirect(s, f, bno, alloc, memory) < s.nblocks ==> Blank(s, NewIndirect(s, f, bno, alloc, memory))
    ensures Owned(Walk(s, f, bno, alloc, memory).s, owner')
    ensures SameSlots(s, Walk(s, f, bno, alloc, memory).s, Indirect(f))
    ensures s.files[f].indirect != 0 ==> At(Walk(s, f, bno, alloc, memory).s, Indirect(f)) == s.files[f].indirect
  {
    owner' := owner;
    if NDIRECT <= bno < NINDIRECT {
      if s.files[f].indirect != 0 {
        ReadKeeps(s, owner, s.files[f].indirect);
      } else if alloc && AllocBlock(s, memory).r >= 0 {
        var p := AllocBlock(s, memory).r;
        BlankIndirectGiven(s, owner, f, p);
        owner' := owner[p := Indirect(f)];
        assert AllocBlock(s, memory).s == MapBlock(s.(free := s.free - {p}), p);
        ReadKeeps(Given(s, Indirect(f), p), owner', p);
      }
    }
  }

  // How file_map_block ends, after its walk.
  lemma MapEnds(s: Fs, f: nat, bno: nat, alloc: bool, memory: (bool, bool))
    requires Shape(s) && f < |s.files|
    ensures var w, g := Walk(s, f, bno, alloc, memory.0), MapFileBlock(s, f, bno, alloc, memory);
      if w.r < 0 then g == w
      else if Lookup(w.s, f, bno) != 0 then g == Got(w.s, Lookup(w.s, f, bno))
      else if !alloc then g == Got(w.s, E_NOT_FOUND)
      else if AllocBlock(w.s, memory.1).r < 0 then g.r < 0 && g.s == w.s
      else g == Got(Given(w.s, SlotOf(f, bno), AllocBlock(w.s, memory.1).r), AllocBlock(w.s, memory.1).r)
  {
  }

  // What file_map_block promises: on success the block its slot now holds, the one it held
  // if it held one; and every other slot of every file as it was, but for a new indirect
  // block.
  ghost predicate Answers(s: Fs, f: nat, bno: nat, g: Got) {
    && Shape(s) && Shape(g.s) && f < |s.files| == |g.s.files|
    && (g.r >= 0 ==> bno < NINDIRECT && g.r == Lookup(g.s, f, bno) && g.r != 0)
    && (bno < NINDIRECT && Lookup(s, f, bno) != 0 ==> g.r == Lookup(s, f, bno))
    && (forall y :: IsSlot(s, y) && y != Indirect(f) && y != SlotOf(f, bno) ==> IsSlot(g.s, y) && At(g.s, y) == At(s, y))
  }

  // The second half: a block for the slot that was found empty.
  lemma FillKeeps(s: Fs, owner: map<nat, Slot>, f: nat, bno: nat, memory: bool) returns (owner': map<nat, Slot>)
    requires Owned(s, owner) && f < |s.files| && bno < NINDIRECT && Lookup(s, f, bno) == 0
    requires bno >= NDIRECT ==> s.files[f].indirect != 0
    ensures AllocBlock(s, memory).r < 0 ==> AllocBlock(s, memory).s == s && owner' == owner
    ensures AllocBlock(s, memory).r >= 0 ==> AllocBlock(s, memory).s == MapBlock(s.(free := s.free - {AllocBlock(s, memory).r}), AllocBlock(s, memory).r)
    ensures AllocBlock(s, memory).r >= 0 ==> Owned(Given(s, SlotOf(f, bno), AllocBlock(s, memory).r), owner')
    ensures AllocBlock(s, memory).r >= 0 ==> forall y :: IsSlot(s, y) ==>
      (IsSlot(Given(s, SlotOf(f, bno), AllocBlock(s, memory).r), y)
       && At(Given(s, SlotOf(f, bno), AllocBlock(s, memory).r), y) == if y == SlotOf(f, bno) then AllocBlock(s, memory).r else At(s, y))
  {
    owner' := owner;
    var a := AllocBlock(s, memory);
    if a.r >= 0 {
      DataBlockGiven(s, owner, SlotOf(f, bno), a.r);
      owner' := owner[a.r := SlotOf(f, bno)];
    }
  }

  // file_map_block answers with the block of that slot, keeps every other block where it
  // is, and keeps ownership when a new indirect block starts blank.
  lemma MapFileBlockKeeps(s: Fs, owner: map<nat, Slot>, f: nat, bno: nat, alloc: bool, memory: (bool, bool))
      returns (owner': map<nat, Slot>)
    requires Owned(s, owner) && f < |s.files|
    requires NewIndirect(s, f, bno, alloc, memory.0) < s.nblocks ==> Blank(s, NewIndirect(s, f, bno, alloc, memory.0))
    ensures Owned(MapFileBlock(s, f, bno, alloc, memory).s, owner')
    ensures Answers(s, f, bno, MapFileBlock(s, f, bno, alloc, memory))
  {
    owner' := WalkKeeps(s, owner, f, bno, alloc, memory.0);
    var w := Walk(s, f, bno, alloc, memory.0);
    MapEnds(s, f, bno, alloc, memory);
    if w.r == 0 {
      assert Lookup(w.s, f, bno) == Lookup(s, f, bno);
      if Lookup(w.s, f, bno) == 0 && alloc {
        owner' := FillKeeps(w.s, owner', f, bno, memory.1);
        assert forall y :: IsSlot(s, y) ==> IsSlot(w.s, y);
      }
    }
  }

  // ---- and exactly when it does not ----

  // Giving a block to an empty slot never repairs a clash.
  lemma GivingKeepsClash(s: Fs, x: Slot, y: Slot, z: Slot, q: nat)
    requires Shape(s) && IsSlot(s, x) && IsSlot(s, y) && Clash(s, x, y)
    requires IsSlot(s, z) && !z.Indirect? && (z.Entry? ==> s.files[z.f].indirect != 0) && At(s, z) == 0 && q in s.free && 3 <= q < s.nblocks
    requires forall f, g :: 0 <= f < g < |s.files| && s.files[f].indirect != 0 ==> s.files[f].indirect != s.files[g].indirect
    requires forall f :: 0 <= f < |s.files| ==> s.files[f].indirect !in s.free
    ensures !Sound(Given(s, z, q))
  {
    var m := MapBlock(s.(free := s.free - {q}), q);
    StoreKeepsOthers(m, z, q, x);
    StoreKeepsOthers(m, z, q, y);
    StoreKeepsOthers(m, z, q, z);
    if At(s, x) == q { ClashIsUnsound(Given(s, z, q), x, z); } else { ClashIsUnsound(Given(s, z, q), x, y); }
  }

  lemma GivenIndirects(s: Fs, owner: map<nat, Slot>, f: nat, p: nat)
    requires Owned(s, owner) && f < |s.files| && s.files[f].indirect == 0 && p in s.free
    ensures var s' := Given(s, Indirect(f), p); (forall g :: 0 <= g < |s'.files| ==> s'.files[g].indirect !in s'.free)
    ensures var s' := Given(s, Indirect(f), p);
      forall g, h :: 0 <= g < h < |s'.files| && s'.files[g].indirect != 0 ==> s'.files[g].indirect != s'.files[h].indirect
  {
    AllIndirectsDiffer(s, owner);
    assert forall g: nat :: g < |s.files| ==> At(s, Indirect(g)) == s.files[g].indirect;
  }

  // file_map_block keeps ownership exactly when the indirect block it takes, if it takes
  // one, starts blank.
  lemma MapFileBlockExactly(s: Fs, owner: map<nat, Slot>, f: nat, bno: nat, alloc: bool, memory: (bool, bool))
    requires Owned(s, owner) && f < |s.files|
    ensures Sound(MapFileBlock(s, f, bno, alloc, memory).s) <==>
      (NewIndirect(s, f, bno, alloc, memory.0) < s.nblocks ==> Blank(s, NewIndirect(s, f, bno, alloc, memory.0)))
  {
    var p := NewIndirect(s, f, bno, alloc, memory.0);
    if p < s.nblocks && !Blank(s, p) {
      var given := Given(s, Indirect(f), p);
      assert AllocBlock(s, memory.0).s == MapBlock(s.(free := s.free - {p}), p);
      var w := Walk(s, f, bno, alloc, memory.0).s;
      assert w == Read(given, p);
      var x, y := StaleEntryClashes(s, owner, f, p);
      GivenIndirects(s, owner, f, p);
      assert At(w, x) == At(given, x) && At(w, y) == At(given, y);
      ClashIsUnsound(w, x, y);
      if Lookup(w, f, bno) == 0 && AllocBlock(w, memory.1).r >= 0 {
        var q := AllocBlock(w, memory.1).r;
        assert AllocBlock(w, memory.1).s == MapBlock(w.(free := w.free - {q}), q);
        GivingKeepsClash(w, x, y, SlotOf(f, bno), q);
      }
    } else {
      var _ := MapFileBlockKeeps(s, owner, f, bno, alloc, memory);
    }
  }

  // ---- file_clear_block and file_truncate ----

  lemma SlotCleared(s: Fs, owner: map<nat, Slot>, x: Slot)
    requires Owned(s, owner) && IsSlot(s, x) && !x.Indirect? && At(s, x) != 0
    ensures Owned(Store(FreeBlock(s, At(s, x)), x, 0), owner - {At(s, x)})
    ensures FreeBlock(s, At(s, x)).free == s.free + {At(s, x)}
    ensures var s' := Store(FreeBlock(s, At(s, x)), x, 0);
      forall y :: IsSlot(s, y) ==> IsSlot(s', y) && At(s', y) == if y == x then 0 else At(s, y)
  {
    var p := At(s, x);
    var s' := Store(FreeBlock(s, p), x, 0);
    AllIndirectsDiffer(s, owner);
    forall y | IsSlot(s, y) ensures IsSlot(s', y) && At(s', y) == if y == x then 0 else At(s, y) {
      StoreKeepsOthers(FreeBlock(s, p), x, 0, y);
    }
    assert forall y :: IsSlot(s', y) ==> IsSlot(s, y);
  }

  predicate InRange(x: Slot, f: nat, lo: nat, hi: nat) { !x.Indirect? && x.f == f && lo <= x.i < hi }

  // The blocks of file f with indices from lo up to hi.
  function BlocksOf(owner: map<nat, Slot>, f: nat, lo: nat, hi: nat): set<nat> {
    set p | p in owner && InRange(owner[p], f, lo, hi)
  }

  ghost predicate Cleared(s: Fs, owner: map<nat, Slot>, f: nat, lo: nat, hi: nat, s': Fs) {
    && Owned(s', owner - BlocksOf(owner, f, lo, hi))
    && s'.free == s.free + BlocksOf(owner, f, lo, hi) && s'.nblocks == s.nblocks && |s'.files| == |s.files|
    && (f < |s.files| ==> s'.files[f].size == s.files[f].size)
    && Shape(s) && (forall y :: IsSlot(s, y) ==> At(s', y) == if InRange(y, f, lo, hi) then 0 else At(s, y))
  }

  lemma ClearFileBlockExactly(s: Fs, owner: map<nat, Slot>, f: nat, bno: nat)
    requires Owned(s, owner) && f < |s.files|
    ensures Cleared(s, owner, f, bno, bno + 1, ClearFileBlock(s, f, bno))
  {
    var w := Walk(s, f, bno, false, true);
    if NDIRECT <= bno < NINDIRECT && s.files[f].indirect != 0 { ReadKeeps(s, owner, s.files[f].indirect); }
    var x := SlotOf(f, bno);
    assert forall y :: IsSlot(s, y) && InRange(y, f, bno, bno + 1) ==> y == x;
    assert Owned(w.s, owner);
    if w.r == 0 && Lookup(w.s, f, bno) != 0 {
      SlotCleared(w.s, owner, x);
      assert BlocksOf(owner, f, bno, bno + 1) == {At(s, x)};
    } else {
      assert BlocksOf(owner, f, bno, bno + 1) == {};
      assert owner - {} == owner;
    }
  }

  lemma ClearedThenCleared(s: Fs, owner: map<nat, Slot>, f: nat, lo: nat, hi: nat, s1: Fs, s2: Fs)
    requires lo < hi && Cleared(s, owner, f, lo, lo + 1, s1)
    requires Cleared(s1, owner - BlocksOf(owner, f, lo, lo + 1), f, lo + 1, hi, s2)
    ensures Cleared(s, owner, f, lo, hi, s2)
  {
    var first := BlocksOf(owner, f, lo, lo + 1);
    var rest := owner - first;
    assert BlocksOf(owner, f, lo, hi) == first + BlocksOf(rest, f, lo + 1, hi);
    assert rest - BlocksOf(rest, f, lo + 1, hi) == owner - BlocksOf(owner, f, lo, hi);
    assert forall y :: IsSlot(s, y) ==> IsSlot(s1, y);
  }

  lemma {:induction false} ClearRangeExactly(s: Fs, owner: map<nat, Slot>, f: nat, lo: nat, hi: nat)
    requires Owned(s, owner) && f < |s.files|
    ensures Cleared(s, owner, f, lo, hi, ClearRange(s, f, lo, hi))
    decreases hi - lo
  {
    if lo >= hi {
      assert BlocksOf(owner, f, lo, hi) == {};
      assert owner - {} == owner;
    } else {
      ClearFileBlockExactly(s, owner, f, lo);
      var s1, rest := ClearFileBlock(s, f, lo), owner - BlocksOf(owner, f, lo, lo + 1);
      ClearRangeExactly(s1, rest, f, lo + 1, hi);
      ClearedThenCleared(s, owner, f, lo, hi, s1, ClearRange(s1, f, lo + 1, hi));
    }
  }

  ghost predicate EntriesLeft(s: Fs, f: nat)
    requires Shape(s) && f < |s.files|
  {
    exists i :: NDIRECT <= i < NINDIRECT && At(s, Entry(f, i)) != 0
  }

  // Once the indirect block is gone, no slot owns the block of a left entry.
  lemma EntryStranded(s: Fs, owner: map<nat, Slot>, f: nat, i: nat, o: map<nat, Slot>)
    requires Owned(s, owner) && f < |s.files| && s.files[f].indirect != 0
    requires NDIRECT <= i < NINDIRECT && At(s, Entry(f, i)) != 0
    ensures !Owned(DropIndirect(s, f), o)
  {
    var q, s' := At(s, Entry(f, i)), DropIndirect(s, f);
    assert q in owner && q !in s.free && At(s, Indirect(f)) != q;
    var y := if q in o then o[q] else Indirect(f);
    assert IsSlot(s, y) && At(s, y) == q ==> y == Entry(f, i);
    assert IsSlot(s', y) <==> IsSlot(s, y);
  }

  lemma DropIndirectExactly(s: Fs, owner: map<nat, Slot>, f: nat)
    requires Owned(s, owner) && f < |s.files| && s.files[f].indirect != 0
    ensures DropIndirect(s, f).free == s.free + {s.files[f].indirect}
    ensures !EntriesLeft(s, f) ==> Owned(DropIndirect(s, f), owner - {s.files[f].indirect})
    ensures EntriesLeft(s, f) ==> !Sound(DropIndirect(s, f))
    ensures forall y :: IsSlot(s, y) ==> (At(DropIndirect(s, f), y) == if y.f == f && !y.Direct? then 0 else At(s, y))
  {
    var p, s' := s.files[f].indirect, DropIndirect(s, f);
    assert At(s, Indirect(f)) == p;
    assert forall y :: IsSlot(s', y) <==> IsSlot(s, y);
    if EntriesLeft(s, f) {
      var i :| NDIRECT <= i < NINDIRECT && At(s, Entry(f, i)) != 0;
      forall o ensures !Owned(s', o) { EntryStranded(s, owner, f, i, o); }
    }
  }

  // A block of the file beyond its recorded size, kept in an indirect block about to go.
  ghost predicate Strands(s: Fs, f: nat, newsize: nat)
    requires Shape(s) && f < |s.files|
  {
    NewBlocks(newsize) <= NDIRECT
    && exists i :: NDIRECT <= i < NINDIRECT && OldBlocks(s.files[f].size) <= i && At(s, Entry(f, i)) != 0
  }

  lemma {:induction false} ResizeKeeps(s: Fs, f: nat, size: nat, owner: map<nat, Slot>)
    requires Shape(s) && f < |s.files|
    ensures Shape(SetFile(s, f, s.files[f].(size := size)))
    ensures Owned(SetFile(s, f, s.files[f].(size := size)), owner) <==> Owned(s, owner)
    ensures var s' := SetFile(s, f, s.files[f].(size := size)); forall y :: IsSlot(s, y) ==> At(s', y) == At(s, y)
  {
    var s' := SetFile(s, f, s.files[f].(size := size));
    assert forall y :: IsSlot(s', y) <==> IsSlot(s, y);
    assert forall y :: IsSlot(s, y) ==> At(s', y) == At(s, y);
  }

  // What file_truncate gives back.
  function Gone(s: Fs, owner: map<nat, Slot>, f: nat, newsize: nat): set<nat>
    requires f < |s.files|
  {
    BlocksOf(owner, f, NewBlocks(newsize), OldBlocks(s.files[f].size))
    + (if NewBlocks(newsize) <= NDIRECT && s.files[f].indirect != 0 then {s.files[f].indirect} else {})
  }

  // The slots file_truncate empties.
  predicate Emptied(s: Fs, f: nat, newsize: nat, y: Slot)
    requires f < |s.files|
  {
    || InRange(y, f, NewBlocks(newsize), OldBlocks(s.files[f].size))
    || (NewBlocks(newsize) <= NDIRECT && y.f == f && !y.Direct?)
  }

  // Truncation empties the file's slots from the new block count up to the old one, and
  // with its indirect block all entries when the new count fits the direct pointers; every
  // other slot of every file keeps its block.
  lemma TruncateSlots(s: Fs, owner: map<nat, Slot>, f: nat, newsize: nat)
    requires Owned(s, owner) && f < |s.files|
    ensures Truncate(s, f, newsize).free == s.free + Gone(s, owner, f, newsize)
    ensures forall y :: IsSlot(s, y) ==> IsSlot(Truncate(s, f, newsize), y)
    ensures forall y :: IsSlot(s, y) ==>
      (At(Truncate(s, f, newsize), y) == if Emptied(s, f, newsize, y) then 0 else At(s, y))
  {
    var lo, hi := NewBlocks(newsize), OldBlocks(s.files[f].size);
    var s1 := ClearRange(s, f, lo, hi);
    ClearRangeExactly(s, owner, f, lo, hi);
    assert At(s1, Indirect(f)) == s1.files[f].indirect && At(s, Indirect(f)) == s.files[f].indirect;
    var s2 := if lo <= NDIRECT then DropIndirect(s1, f) else s1;
    if lo <= NDIRECT && s.files[f].indirect != 0 {
      DropIndirectExactly(s1, owner - BlocksOf(owner, f, lo, hi), f);
    }
    ResizeKeeps(s2, f, newsize, owner);
  }

  lemma NothingStranded(s: Fs, f: nat, newsize: nat)
    requires Shape(s) && f < |s.files| && (NewBlocks(newsize) > NDIRECT || s.files[f].indirect == 0)
    ensures !Strands(s, f, newsize)
  {
  }

  lemma LeftIsStranded(s: Fs, s1: Fs, f: nat, newsize: nat)
    requires Shape(s) && Shape(s1) && f < |s.files| == |s1.files| && NewBlocks(newsize) <= NDIRECT
    requires forall y :: IsSlot(s, y) ==>
      (At(s1, y) == if InRange(y, f, NewBlocks(newsize), OldBlocks(s.files[f].size)) then 0 else At(s, y))
    ensures EntriesLeft(s1, f) <==> Strands(s, f, newsize)
  {
    if EntriesLeft(s1, f) {
      var i :| NDIRECT <= i < NINDIRECT && At(s1, Entry(f, i)) != 0;
      assert IsSlot(s, Entry(f, i));
    }
    if Strands(s, f, newsize) {
      var i :| NDIRECT <= i < NINDIRECT && OldBlocks(s.files[f].size) <= i && At(s, Entry(f, i)) != 0;
      assert IsSlot(s, Entry(f, i));
      assert At(s1, Entry(f, i)) != 0;
    }
  }

  // Truncation keeps every block accounted for exactly when no entry beyond the old size
  // goes with the indirect block.
  lemma TruncateExactly(s: Fs, owner: map<nat, Slot>, f: nat, newsize: nat)
    requires Owned(s, owner) && f < |s.files|
    ensures !Strands(s, f, newsize) ==> Owned(Truncate(s, f, newsize), owner - Gone(s, owner, f, newsize))
    ensures Sound(Truncate(s, f, newsize)) <==> !Strands(s, f, newsize)
  {
    var lo, hi := NewBlocks(newsize), OldBlocks(s.files[f].size);
    var blocks := BlocksOf(owner, f, lo, hi);
    var s1 := ClearRange(s, f, lo, hi);
    ClearRangeExactly(s, owner, f, lo, hi);
    assert At(s1, Indirect(f)) == s1.files[f].indirect && At(s, Indirect(f)) == s.files[f].indirect;
    if lo <= NDIRECT && s.files[f].indirect != 0 {
      DropIndirectExactly(s1, owner - blocks, f);
      LeftIsStranded(s, s1, f, newsize);
      var s2 := DropIndirect(s1, f);
      forall o ensures Owned(Truncate(s, f, newsize), o) <==> Owned(s2, o) { ResizeKeeps(s2, f, newsize, o); }
      assert (owner - blocks) - {s.files[f].indirect} == owner - (blocks + {s.files[f].indirect});
    } else {
      NothingStranded(s, f, newsize);
      ResizeKeeps(s1, f, newsize, owner - blocks);
      assert blocks + {} == blocks;
    }
  }
}
