// What an image holds: for every struct File its data or its directory entries, block by
// block, and what the file server therefore finds.
module ImageContents {
  import opened FileBlocks
  import opened DiskImage

  // A regular file, done of whose blocks are written, or a directory of struct Files.
  datatype Node = Reg(bytes: seq<byte>, done: nat) | Dir(kids: seq<nat>)

  function Chunks(n: nat, size: nat): nat
    requires size > 0
  {
    (n + size - 1) / size
  }

  function Min(a: nat, b: nat): nat { if a < b then a else b }

  // Block i of a file's bytes; the unused rest of a block is zero.
  function Slice(bytes: seq<byte>, i: nat): (s: seq<byte>)
    requires BY2BLK * i <= |bytes|
    ensures |s| == BY2BLK
  {
    var part: seq<byte> := bytes[BY2BLK * i .. Min(BY2BLK * i + BY2BLK, |bytes|)];
    var pad: seq<byte> := seq(BY2BLK - |part|, _ => 0);
    part + pad
  }

  function Entries(kids: seq<nat>, i: nat): seq<nat>
    requires FILE2BLK * i <= |kids|
  {
    kids[FILE2BLK * i .. Min(FILE2BLK * i + FILE2BLK, |kids|)]
  }

  // How many blocks a node has, its size, and what block i holds.
  function Count(n: Node): nat {
    match n case Reg(_, done) => done case Dir(kids) => Chunks(|kids|, FILE2BLK)
  }

  function SizeOf(n: Node): nat {
    match n case Reg(bytes, _) => |bytes| case Dir(kids) => BY2BLK * Chunks(|kids|, FILE2BLK)
  }

  predicate NodeValid(n: Node) { n.Reg? ==> n.done <= Chunks(|n.bytes|, BY2BLK) }

  function Expected(n: Node, i: nat): Block
    requires NodeValid(n) && i < Count(n)
  {
    match n
    case Reg(bytes, _) => Data(Slice(bytes, i))
    case Dir(kids) => Links(Entries(kids, i))
  }

  // File f of the image is node n: its first Count blocks are mapped and hold what they
  // should, and nothing beyond is mapped.
  ghost predicate NodeOk(g: Img, f: nat, n: Node)
    requires ImgShape(g) && f < |g.files|
  {
    && NodeValid(n) && Count(n) <= NINDIRECT && g.files[f].size == SizeOf(n)
    && (g.files[f].indirect != 0 <==> Count(n) > NDIRECT)
    && (forall i :: 0 <= i < NINDIRECT ==> (Lookup(View(g), f, i) != 0 <==> i < Count(n)))
    && (forall i :: 0 <= i < Count(n) ==> Lookup(View(g), f, i) < NBLOCK && g.blocks[Lookup(View(g), f, i)] == Expected(n, i))
  }

  ghost predicate ImgHolds(g: Img, owner: map<nat, Slot>, nodes: seq<Node>) {
    && ImgOk(g, owner) && |nodes| == |g.files|
    && forall f :: 0 <= f < |nodes| ==> NodeOk(g, f, nodes[f])
  }

  function SetSize(g: Img, f: nat, size: nat): Img
    requires f < |g.files|
  {
    g.(files := g.files[f := g.files[f].(size := size)])
  }

  lemma ResizeIsInvisible(g: Img, owner: map<nat, Slot>, f: nat, size: nat)
    requires ImgOk(g, owner) && f < |g.files|
    ensures ImgOk(SetSize(g, f, size), owner)
    ensures forall y :: IsSlot(View(g), y) ==> IsSlot(View(SetSize(g, f, size)), y) && At(View(SetSize(g, f, size)), y) == At(View(g), y)
  {
    var g' := SetSize(g, f, size);
    assert forall y :: IsSlot(View(g), y) <==> IsSlot(View(g'), y);
    assert forall y :: IsSlot(View(g), y) ==> At(View(g'), y) == At(View(g), y);
  }

  // ---- another block for one node ----

  predicate Grows(n: Node, n': Node) {
    && NodeValid(n) && NodeValid(n') && Count(n') == Count(n) + 1
    && forall i :: 0 <= i < Count(n) ==> Expected(n', i) == Expected(n, i)
  }

  // Add, then the file's new size.
  function Extend(g: Img, f: nat, n: Node, n': Node): Img
    requires ImgShape(g) && f < |g.files| && Count(n) < NINDIRECT && CanAdd(g, f, Count(n)) && Grows(n, n')
  {
    SetSize(Add(g, f, Count(n), Expected(n', Count(n))), f, SizeOf(n'))
  }

  lemma ExtendSlots(g: Img, owner: map<nat, Slot>, f: nat, n: Node, n': Node)
    requires ImgOk(g, owner) && f < |g.files| && NodeOk(g, f, n) && Grows(n, n') && Count(n) < NINDIRECT && CanAdd(g, f, Count(n))
    ensures ImgOk(Extend(g, f, n, n'), AddedOwner(g, owner, f, Count(n)))
    ensures forall y :: IsSlot(View(g), y) ==>
      IsSlot(View(Extend(g, f, n, n')), y) && At(View(Extend(g, f, n, n')), y) == Added(g, f, Count(n), y)
  {
    var b := Expected(n', Count(n));
    assert Lookup(View(g), f, Count(n)) == 0;
    AddKeeps(g, owner, f, Count(n), b);
    ResizeIsInvisible(Add(g, f, Count(n), b), AddedOwner(g, owner, f, Count(n)), f, SizeOf(n'));
  }

  lemma ExtendKeepsOther(g: Img, owner: map<nat, Slot>, f: nat, n: Node, n': Node, h: nat, m: Node)
    requires ImgOk(g, owner) && f < |g.files| && NodeOk(g, f, n) && Grows(n, n') && Count(n) < NINDIRECT && CanAdd(g, f, Count(n))
    requires h < |g.files| && h != f && NodeOk(g, h, m)
    ensures ImgShape(Extend(g, f, n, n')) && h < |Extend(g, f, n, n').files| && NodeOk(Extend(g, f, n, n'), h, m)
  {
    ExtendSlots(g, owner, f, n, n');
    var g' := Extend(g, f, n, n');
    forall i | 0 <= i < NINDIRECT ensures Lookup(View(g'), h, i) == Lookup(View(g), h, i) {
      assert IsSlot(View(g), SlotOf(h, i));
    }
    forall i | 0 <= i < Count(m) ensures g'.blocks[Lookup(View(g'), h, i)] == Expected(m, i) {
      AddBlocks(g, owner, f, Count(n), Expected(n', Count(n)), Lookup(View(g), h, i));
    }
    assert At(View(g), Indirect(h)) == g.files[h].indirect && At(View(g'), Indirect(h)) == g'.files[h].indirect;
  }

  lemma NewBlockHolds(g: Img, owner: map<nat, Slot>, f: nat, nblk: nat, b: Block)
    requires ImgOk(g, owner) && f < |g.files| && nblk < NINDIRECT && CanAdd(g, f, nblk)
    ensures Add(g, f, nblk, b).blocks[g.next] == b
  {
  }

  lemma ExtendGrows(g: Img, owner: map<nat, Slot>, f: nat, n: Node, n': Node)
    requires ImgOk(g, owner) && f < |g.files| && NodeOk(g, f, n) && Grows(n, n') && Count(n) < NINDIRECT && CanAdd(g, f, Count(n))
    ensures ImgShape(Extend(g, f, n, n')) && f < |Extend(g, f, n, n').files| && NodeOk(Extend(g, f, n, n'), f, n')
  {
    ExtendSlots(g, owner, f, n, n');
    var g' := Extend(g, f, n, n');
    forall i | 0 <= i < NINDIRECT
      ensures Lookup(View(g'), f, i) == if i == Count(n) then g.next else Lookup(View(g), f, i)
    {
      assert IsSlot(View(g), SlotOf(f, i));
    }
    forall i | 0 <= i < Count(n') ensures Lookup(View(g'), f, i) < NBLOCK && g'.blocks[Lookup(View(g'), f, i)] == Expected(n', i) {
      if i < Count(n) {
        AddBlocks(g, owner, f, Count(n), Expected(n', Count(n)), Lookup(View(g), f, i));
      } else {
        NewBlockHolds(g, owner, f, Count(n), Expected(n', Count(n)));
      }
    }
    assert IsSlot(View(g), Indirect(f));
    assert At(View(g), Indirect(f)) == g.files[f].indirect && At(View(g'), Indirect(f)) == g'.files[f].indirect;
  }

  lemma ExtendKeeps(g: Img, owner: map<nat, Slot>, nodes: seq<Node>, f: nat, n': Node)
    requires ImgHolds(g, owner, nodes) && f < |nodes| && Grows(nodes[f], n') && Count(nodes[f]) < NINDIRECT && CanAdd(g, f, Count(nodes[f]))
    ensures ImgHolds(Extend(g, f, nodes[f], n'), AddedOwner(g, owner, f, Count(nodes[f])), nodes[f := n'])
  {
    var n, g', nodes' := nodes[f], Extend(g, f, nodes[f], n'), nodes[f := n'];
    ExtendSlots(g, owner, f, n, n');
    forall h | 0 <= h < |nodes'| ensures NodeOk(g', h, nodes'[h]) {
      if h == f { ExtendGrows(g, owner, f, n, n'); } else { ExtendKeepsOther(g, owner, f, n, n', h, nodes[h]); }
    }
  }

  // ---- a node rewritten within its last block, and a new node ----

  // The last block of file f rewritten.
  function Rewrite(g: Img, p: nat, b: Block): Img
    requires p < |g.blocks|
  {
    g.(blocks := g.blocks[p := b])
  }

  predicate Alters(n: Node, n': Node) {
    && NodeValid(n) && NodeValid(n') && Count(n') == Count(n) > 0 && SizeOf(n') == SizeOf(n)
    && forall i :: 0 <= i < Count(n) - 1 ==> Expected(n', i) == Expected(n, i)
  }

  lemma DataIsNotRead(g: Img, p: nat, b: Block)
    requires ImgShape(g) && 0 < p < NBLOCK && forall h :: 0 <= h < |g.files| ==> g.files[h].indirect != p
    ensures ImgShape(Rewrite(g, p, b))
    ensures forall y :: IsSlot(View(g), y) <==> IsSlot(View(Rewrite(g, p, b)), y)
    ensures forall y :: IsSlot(View(g), y) ==> At(View(Rewrite(g, p, b)), y) == At(View(g), y)
  {
  }

  lemma OwnedBySlots(s: Fs, s': Fs, owner: map<nat, Slot>)
    requires Owned(s, owner) && Shape(s') && s'.nblocks == s.nblocks && s'.free == s.free
    requires forall y :: IsSlot(s, y) <==> IsSlot(s', y)
    requires forall y :: IsSlot(s, y) ==> At(s', y) == At(s, y)
    ensures Owned(s', owner)
  {
  }

  lemma RewriteSlots(g: Img, owner: map<nat, Slot>, f: nat, i: nat, b: Block)
    requires ImgOk(g, owner) && f < |g.files| && i < NINDIRECT && Lookup(View(g), f, i) != 0 && !b.Index?
    ensures Lookup(View(g), f, i) < NBLOCK && ImgOk(Rewrite(g, Lookup(View(g), f, i), b), owner)
    ensures forall y :: IsSlot(View(g), y) ==>
      (IsSlot(View(Rewrite(g, Lookup(View(g), f, i), b)), y)
       && At(View(Rewrite(g, Lookup(View(g), f, i), b)), y) == At(View(g), y))
  {
    var p := Lookup(View(g), f, i);
    assert p in owner && owner[p] == SlotOf(f, i);
    forall h: nat | h < |g.files| ensures g.files[h].indirect != p {
      assert At(View(g), Indirect(h)) == g.files[h].indirect;
    }
    DataIsNotRead(g, p, b);
    OwnedBySlots(View(g), View(Rewrite(g, p, b)), owner);
  }

  lemma RewriteKeeps(g: Img, owner: map<nat, Slot>, nodes: seq<Node>, f: nat, n': Node)
    requires ImgHolds(g, owner, nodes) && f < |nodes| && Alters(nodes[f], n') && n'.Dir?
    ensures Lookup(View(g), f, Count(n') - 1) < NBLOCK
    ensures ImgHolds(Rewrite(g, Lookup(View(g), f, Count(n') - 1), Expected(n', Count(n') - 1)), owner, nodes[f := n'])
  {
    var last := Count(n') - 1;
    var p := Lookup(View(g), f, last);
    var g' := Rewrite(g, p, Expected(n', last));
    RewriteSlots(g, owner, f, last, Expected(n', last));
    var nodes' := nodes[f := n'];
    forall h | 0 <= h < |nodes'| ensures NodeOk(g', h, nodes'[h]) {
      forall i | 0 <= i < NINDIRECT
        ensures Lookup(View(g'), h, i) == Lookup(View(g), h, i)
        ensures Lookup(View(g), h, i) == p <==> h == f && i == last
      {
        assert IsSlot(View(g), SlotOf(h, i)) && owner[p] == SlotOf(f, last);
      }
    }
  }

  const EMPTY := File(0, [0, 0, 0, 0, 0, 0, 0, 0, 0, 0], 0)

  // A struct File used for the first time: it is all zero.
  function NewFile(g: Img): Img { g.(files := g.files + [EMPTY]) }

  lemma NewFileSlots(g: Img, owner: map<nat, Slot>)
    requires ImgOk(g, owner)
    ensures ImgOk(NewFile(g), owner)
    ensures forall y :: IsSlot(View(NewFile(g)), y) ==>
      At(View(NewFile(g)), y) == if y.f == |g.files| then 0 else At(View(g), y)
  {
    var g' := NewFile(g);
    assert forall y :: IsSlot(View(g'), y) <==> IsSlot(View(g), y) || (y.f == |g.files| && IsSlot(View(g'), y));
    assert forall y :: IsSlot(View(g'), y) && y.f < |g.files| ==> At(View(g'), y) == At(View(g), y);
  }

  lemma NewFileKeeps(g: Img, owner: map<nat, Slot>, nodes: seq<Node>, n: Node)
    requires ImgHolds(g, owner, nodes) && NodeValid(n) && Count(n) == 0 && SizeOf(n) == 0
    ensures ImgHolds(NewFile(g), owner, nodes + [n])
  {
    NewFileSlots(g, owner);
    var g' := NewFile(g);
    forall h | 0 <= h < |nodes| + 1 ensures NodeOk(g', h, (nodes + [n])[h]) {
      forall i | 0 <= i < NINDIRECT
        ensures Lookup(View(g'), h, i) == if h == |nodes| then 0 else Lookup(View(g), h, i)
      {
        assert IsSlot(View(g'), SlotOf(h, i));
      }
    }
  }

  // ---- what the server finds ----

  // For every file and directory of the image the server's file_map_block finds, for each block
  // number, the block holding that part of it, and nothing beyond the end; whatever is cached,
  // nothing but the cache changes.
  lemma ServerFindsEverySlice(g: Img, owner: map<nat, Slot>, nodes: seq<Node>, cached: set<nat>,
                              f: nat, bno: nat, alloc: bool, memory: (bool, bool))
    requires ImgHolds(g, owner, nodes) && f < |nodes|
    ensures var s := View(g).(cached := cached);
      var m := MapFileBlock(s, f, bno, alloc, memory);
      if bno < Count(nodes[f]) then
        3 <= m.r < g.next && g.blocks[m.r] == Expected(nodes[f], bno) && m.s == s.(cached := m.s.cached)
      else
        !alloc ==> m.r == (if bno < NINDIRECT then E_NOT_FOUND else E_INVAL) && m.s == s.(cached := m.s.cached)
  {
    var s, n := View(g).(cached := cached), nodes[f];
    var w := Walk(s, f, bno, alloc, memory.0);
    assert NodeOk(g, f, n);
    if bno < NINDIRECT {
      assert Lookup(View(g), f, bno) != 0 <==> bno < Count(n);
      assert IsSlot(View(g), SlotOf(f, bno));
      if bno < Count(n) || !alloc {
        assert w.s == s.(cached := w.s.cached);
        assert w.r == 0 ==> Lookup(w.s, f, bno) == Lookup(View(g), f, bno);
      }
      if bno < Count(n) {
        var p := Lookup(View(g), f, bno);
        assert p in owner && p !in View(g).free;
        assert !Beyond(g.next, p);
      }
    }
  }

  // Every block of the image is owned or still to come, and none is lost.
  lemma BitmapIsExact(g: Img, owner: map<nat, Slot>)
    requires ImgOk(g, owner)
    ensures forall b: nat :: b in owner <==> 3 <= b < g.next
  {
    forall b: nat ensures b in View(g).free <==> Beyond(g.next, b) {}
  }
}
