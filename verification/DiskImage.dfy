// The disk image tools/fsformat.c builds, and how the file server sees it.
module DiskImage {
  import opened FileBlocks

  const NBLOCK: nat := 1024
  const FILE2BLK: nat := 16

  type byte = n: int | 0 <= n < 256

  // A block of the image by its type.  A BLOCK_FILE lists the struct Files it holds, in
  // order, by their number in files.
  datatype Block = Unused | Index(words: seq<nat>) | Data(bytes: seq<byte>) | Links(entries: seq<nat>)

  // next: nextbno.  files: the root directory's struct File (0) and all others.
  datatype Img = Img(next: nat, blocks: seq<Block>, files: seq<File>)

  // The little-endian word at offset i.
  function Word(bytes: seq<byte>, i: nat): nat
    requires i + 3 < |bytes|
  {
    bytes[i] as nat + 256 * bytes[i + 1] as nat + 65536 * bytes[i + 2] as nat + 0x100_0000 * bytes[i + 3] as nat
  }

  predicate Beyond(next: nat, b: nat) { next <= b < NBLOCK }

  // A block's contents as the server reads them; struct Files stand in the file table.
  function AsWords(b: Block): (w: seq<nat>)
    ensures |w| == NINDIRECT
  {
    match b
    case Index(words) => if |words| == NINDIRECT then words else Zeros()
    case Data(bytes) =>
      if |bytes| != BY2BLK then Zeros() else seq(NINDIRECT, i requires 0 <= i < NINDIRECT => Word(bytes, 4 * i))
    case _ => Zeros()
  }

  // The image as a disk: flush_bitmap leaves the bits from nextbno on.
  function View(g: Img): (s: Fs)
    requires |g.blocks| == NBLOCK
  {
    Fs(NBLOCK, set b: nat | b < NBLOCK && Beyond(g.next, b), seq(NBLOCK, b requires 0 <= b < NBLOCK => AsWords(g.blocks[b])), {}, g.files)
  }

  predicate ImgShape(g: Img) {
    && |g.blocks| == NBLOCK && 3 <= g.next <= NBLOCK
    && (forall f :: 0 <= f < |g.files| ==> |g.files[f].direct| == NDIRECT && g.files[f].indirect < g.next)
    && (forall f :: 0 <= f < |g.files| && g.files[f].indirect != 0 ==>
          g.blocks[g.files[f].indirect].Index? && |g.blocks[g.files[f].indirect].words| == NINDIRECT)
  }

  // next_block, the block filled.
  function Take(g: Img, b: Block): Img
    requires |g.blocks| == NBLOCK && g.next < NBLOCK
  {
    g.(next := g.next + 1, blocks := g.blocks[g.next := b])
  }

  predicate NeedsIndex(g: Img, f: nat, nblk: nat)
    requires f < |g.files|
  {
    nblk >= NDIRECT && g.files[f].indirect == 0
  }

  // save_block_link
  function Link(g: Img, f: nat, nblk: nat, bno: nat): Img
    requires ImgShape(g) && f < |g.files| && nblk < NINDIRECT && (NeedsIndex(g, f, nblk) ==> g.next < NBLOCK)
  {
    var v := g.files[f];
    if nblk < NDIRECT then g.(files := g.files[f := v.(direct := v.direct[nblk := bno])])
    else if v.indirect == 0 then
      var words: seq<nat> := Zeros()[nblk := bno];
      Take(g, Index(words)).(files := g.files[f := v.(indirect := g.next)])
    else
      var words: seq<nat> := g.blocks[v.indirect].words[nblk := bno];
      g.(blocks := g.blocks[v.indirect := Index(words)])
  }

  predicate CanAdd(g: Img, f: nat, nblk: nat)
    requires f < |g.files|
  {
    g.next + (if NeedsIndex(g, f, nblk) then 2 else 1) <= NBLOCK
  }

  // A new block, filled and linked as block nblk of file f.
  function Add(g: Img, f: nat, nblk: nat, b: Block): Img
    requires ImgShape(g) && f < |g.files| && nblk < NINDIRECT && CanAdd(g, f, nblk)
  {
    Link(g.(next := g.next + 1, blocks := g.blocks[g.next := b]), f, nblk, g.next)
  }

  // ---- one more block ----

  ghost predicate ImgOk(g: Img, owner: map<nat, Slot>) { ImgShape(g) && Owned(View(g), owner) }

  // The block a slot holds after Add.
  function Added(g: Img, f: nat, nblk: nat, y: Slot): nat
    requires ImgShape(g) && f < |g.files| && IsSlot(View(g), y)
  {
    if y == SlotOf(f, nblk) then g.next
    else if y == Indirect(f) && NeedsIndex(g, f, nblk) then g.next + 1
    else At(View(g), y)
  }

  lemma IndirectsAreOwn(g: Img, owner: map<nat, Slot>, f: nat)
    requires ImgOk(g, owner) && f < |g.files| && g.files[f].indirect != 0
    ensures forall h :: 0 <= h < |g.files| && h != f ==> g.files[h].indirect != g.files[f].indirect
  {
    assert At(View(g), Indirect(f)) == g.files[f].indirect;
    forall h | 0 <= h < |g.files| && h != f ensures g.files[h].indirect != g.files[f].indirect {
      assert At(View(g), Indirect(h)) == g.files[h].indirect;
    }
  }

  lemma AddShape(g: Img, owner: map<nat, Slot>, f: nat, nblk: nat, b: Block)
    requires ImgOk(g, owner) && f < |g.files| && nblk < NINDIRECT && CanAdd(g, f, nblk)
    ensures ImgShape(Add(g, f, nblk, b))
  {
    if !NeedsIndex(g, f, nblk) && nblk >= NDIRECT { IndirectsAreOwn(g, owner, f); }
  }

  lemma AddSlot(g: Img, owner: map<nat, Slot>, f: nat, nblk: nat, b: Block, y: Slot)
    requires ImgOk(g, owner) && f < |g.files| && nblk < NINDIRECT && CanAdd(g, f, nblk) && IsSlot(View(g), y)
    ensures ImgShape(Add(g, f, nblk, b)) && IsSlot(View(Add(g, f, nblk, b)), y)
    ensures At(View(Add(g, f, nblk, b)), y) == Added(g, f, nblk, y)
  {
    AddShape(g, owner, f, nblk, b);
    if !NeedsIndex(g, f, nblk) && nblk >= NDIRECT { IndirectsAreOwn(g, owner, f); }
  }

  function AddedOwner(g: Img, owner: map<nat, Slot>, f: nat, nblk: nat): map<nat, Slot>
    requires f < |g.files|
  {
    if NeedsIndex(g, f, nblk) then owner[g.next := SlotOf(f, nblk)][g.next + 1 := Indirect(f)]
    else owner[g.next := SlotOf(f, nblk)]
  }

  lemma AddedSlotIsOwned(g: Img, owner: map<nat, Slot>, f: nat, nblk: nat, x: Slot)
    requires ImgOk(g, owner) && f < |g.files| && nblk < NINDIRECT && At(View(g), SlotOf(f, nblk)) == 0
    requires IsSlot(View(g), x) && Added(g, f, nblk, x) != 0
    ensures Added(g, f, nblk, x) in AddedOwner(g, owner, f, nblk) && AddedOwner(g, owner, f, nblk)[Added(g, f, nblk, x)] == x
  {
    var s := View(g);
    if At(s, x) != 0 {
      assert At(s, x) in owner && At(s, x) !in s.free;
      assert !Beyond(g.next, At(s, x));
    }
    assert At(s, Indirect(f)) == g.files[f].indirect;
  }

  lemma AddedOwnerIsHonest(g: Img, owner: map<nat, Slot>, f: nat, nblk: nat, g': Img)
    requires ImgOk(g, owner) && f < |g.files| && nblk < NINDIRECT && At(View(g), SlotOf(f, nblk)) == 0
    requires ImgShape(g') && |g'.files| == |g.files|
    requires forall y :: IsSlot(View(g), y) ==> At(View(g'), y) == Added(g, f, nblk, y)
    ensures forall p: nat :: p in AddedOwner(g, owner, f, nblk) ==>
      IsSlot(View(g'), AddedOwner(g, owner, f, nblk)[p]) && At(View(g'), AddedOwner(g, owner, f, nblk)[p]) == p
  {
    var s, owner' := View(g), AddedOwner(g, owner, f, nblk);
    assert IsSlot(s, SlotOf(f, nblk)) && IsSlot(s, Indirect(f)) && At(s, Indirect(f)) == g.files[f].indirect;
    forall p: nat | p in owner' ensures IsSlot(View(g'), owner'[p]) && At(View(g'), owner'[p]) == p {
      if p in owner && p < g.next { assert At(s, owner[p]) == p; }
      assert p in owner ==> p !in s.free;
    }
  }

  lemma AddedIsOwned(g: Img, owner: map<nat, Slot>, f: nat, nblk: nat, g': Img)
    requires ImgOk(g, owner) && f < |g.files| && nblk < NINDIRECT && At(View(g), SlotOf(f, nblk)) == 0
    requires ImgShape(g') && |g'.files| == |g.files| && g'.next == g.next + (if NeedsIndex(g, f, nblk) then 2 else 1)
    requires forall y :: IsSlot(View(g), y) ==> At(View(g'), y) == Added(g, f, nblk, y)
    ensures Owned(View(g'), AddedOwner(g, owner, f, nblk))
  {
    var s, s', owner' := View(g), View(g'), AddedOwner(g, owner, f, nblk);
    assert forall y :: IsSlot(s', y) <==> IsSlot(s, y);
    assert IsSlot(s, SlotOf(f, nblk)) && IsSlot(s, Indirect(f));
    assert At(s, Indirect(f)) == g.files[f].indirect;
    forall p: nat ensures p in s'.free <==> Beyond(g'.next, p) {}
    forall p: nat ensures p in s.free <==> Beyond(g.next, p) {}
    AddedOwnerIsHonest(g, owner, f, nblk, g');
    forall x | IsSlot(s', x) && At(s', x) != 0 ensures At(s', x) in owner' && owner'[At(s', x)] == x {
      AddedSlotIsOwned(g, owner, f, nblk, x);
    }
  }

  // Linking a new block keeps ownership: nothing but the new slot changes, and the blocks
  // of the free set that leave it are the first ones.
  lemma AddKeeps(g: Img, owner: map<nat, Slot>, f: nat, nblk: nat, b: Block)
    requires ImgOk(g, owner) && f < |g.files| && nblk < NINDIRECT && CanAdd(g, f, nblk)
    requires At(View(g), SlotOf(f, nblk)) == 0
    ensures ImgOk(Add(g, f, nblk, b), AddedOwner(g, owner, f, nblk))
    ensures forall y :: IsSlot(View(g), y) ==>
      IsSlot(View(Add(g, f, nblk, b)), y) && At(View(Add(g, f, nblk, b)), y) == Added(g, f, nblk, y)
  {
    AddShape(g, owner, f, nblk, b);
    var g' := Add(g, f, nblk, b);
    forall y | IsSlot(View(g), y) ensures IsSlot(View(g'), y) && At(View(g'), y) == Added(g, f, nblk, y) {
      AddSlot(g, owner, f, nblk, b, y);
    }
    assert forall y :: IsSlot(View(g'), y) ==> IsSlot(View(g), y);
    AddedIsOwned(g, owner, f, nblk, g');
  }

  // The other blocks' contents stay; of the old ones only f's indirect block changes.
  lemma AddBlocks(g: Img, owner: map<nat, Slot>, f: nat, nblk: nat, b: Block, p: nat)
    requires ImgOk(g, owner) && f < |g.files| && nblk < NINDIRECT && CanAdd(g, f, nblk)
    requires p in owner && owner[p] != Indirect(f)
    ensures ImgShape(Add(g, f, nblk, b)) && p < g.next && Add(g, f, nblk, b).blocks[p] == g.blocks[p]
    ensures Add(g, f, nblk, b).blocks[g.next] == b
  {
    AddShape(g, owner, f, nblk, b);
    assert At(View(g), Indirect(f)) == g.files[f].indirect;
  }
}
