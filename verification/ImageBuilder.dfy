// tools/fsformat.c as it runs, from init_disk to flush_bitmap.  Instead of running past the
// end of the disk array it stops and answers false.
module ImageBuilder {
  import opened Bits
  import opened FileBlocks
  import opened DiskImage
  import opened ImageContents

  // What is put on the image: a file's bytes, or a directory and what is in it.
  datatype Tree = FileT(bytes: seq<byte>) | DirT(children: seq<Tree>)

  // ---- how many blocks it takes ----

  // Block number n of a file brings an index block with it when it is the first past the
  // direct pointers.
  function BlockCost(n: nat): nat { if n == NDIRECT then 2 else 1 }

  function FileCost(blocks: nat): nat { if blocks > NDIRECT then blocks + 1 else blocks }

  // One more entry in a directory of c.
  function CreateCost(c: nat): nat { if c % FILE2BLK == 0 then BlockCost(c / FILE2BLK) else 0 }

  function TreeCost(t: Tree): nat {
    match t
    case FileT(bytes) => FileCost(Chunks(|bytes|, BY2BLK))
    case DirT(children) => AllCost(children, 0)
  }

  // Putting trees into a directory that has c entries.
  function AllCost(ts: seq<Tree>, c: nat): nat {
    if ts == [] then 0 else CreateCost(c) + TreeCost(ts[0]) + AllCost(ts[1..], c + 1)
  }

  // ---- what is on the image afterwards ----

  // File e, and everything under it from file lo on, is tree t.
  ghost predicate Shows(nodes: seq<Node>, e: nat, t: Tree, lo: nat)
    decreases t
  {
    lo <= e < |nodes|
    && match t
       case FileT(bytes) => nodes[e] == Reg(bytes, Chunks(|bytes|, BY2BLK))
       case DirT(children) => nodes[e].Dir? && ShowsAll(nodes, nodes[e].kids, children, lo)
  }

  ghost predicate ShowsAll(nodes: seq<Node>, kids: seq<nat>, ts: seq<Tree>, lo: nat)
    decreases ts
  {
    |kids| == |ts| && forall i :: 0 <= i < |ts| ==> Shows(nodes, kids[i], ts[i], lo)
  }

  lemma {:induction false} ShowsStays(nodes: seq<Node>, nodes': seq<Node>, e: nat, t: Tree, lo: nat, lo': nat)
    requires Shows(nodes, e, t, lo) && |nodes| <= |nodes'| && lo' <= lo
    requires forall i :: lo <= i < |nodes| ==> nodes'[i] == nodes[i]
    ensures Shows(nodes', e, t, lo')
    decreases t
  {
    if t.DirT? { ShowsAllStays(nodes, nodes', nodes[e].kids, t.children, lo, lo'); }
  }

  lemma {:induction false} ShowsAllStays(nodes: seq<Node>, nodes': seq<Node>, kids: seq<nat>, ts: seq<Tree>, lo: nat, lo': nat)
    requires ShowsAll(nodes, kids, ts, lo) && |nodes| <= |nodes'| && lo' <= lo
    requires forall i :: lo <= i < |nodes| ==> nodes'[i] == nodes[i]
    ensures ShowsAll(nodes', kids, ts, lo')
    decreases ts
  {
    forall i | 0 <= i < |ts| ensures Shows(nodes', kids[i], ts[i], lo') {
      ShowsStays(nodes, nodes', kids[i], ts[i], lo, lo');
    }
  }

  // ---- bounds ----

  // The first k blocks of a file are k different blocks.
  lemma {:induction false} BlocksAreMany(g: Img, owner: map<nat, Slot>, f: nat, k: nat) returns (blocks: set<nat>)
    requires ImgOk(g, owner) && f < |g.files| && k <= NINDIRECT
    requires forall i :: 0 <= i < k ==> Lookup(View(g), f, i) != 0
    ensures |blocks| == k && blocks <= owner.Keys && forall p :: p in blocks ==> exists i :: 0 <= i < k && owner[p] == SlotOf(f, i)
  {
    if k == 0 { return {}; }
    var rest := BlocksAreMany(g, owner, f, k - 1);
    var p := Lookup(View(g), f, k - 1);
    assert IsSlot(View(g), SlotOf(f, k - 1));
    assert p in owner && owner[p] == SlotOf(f, k - 1);
    blocks := rest + {p};
    assert p !in rest;
  }

  lemma {:induction false} Interval(lo: nat, hi: nat, s: set<nat>)
    requires lo <= hi && forall p: nat :: p in s ==> lo <= p < hi
    ensures |s| <= hi - lo
    decreases hi - lo
  {
    if lo == hi {
      assert s == {};
    } else {
      Interval(lo + 1, hi, s - {lo});
      assert s <= {lo} + (s - {lo});
      if lo in s { assert s == {lo} + (s - {lo}); } else { assert s == s - {lo}; }
    }
  }

  // A file on the disk never has too many blocks for its index block.
  lemma CountFits(g: Img, owner: map<nat, Slot>, nodes: seq<Node>, f: nat)
    requires ImgHolds(g, owner, nodes) && f < |nodes|
    ensures Count(nodes[f]) < NINDIRECT && (NeedsIndex(g, f, Count(nodes[f])) <==> Count(nodes[f]) == NDIRECT)
  {
    assert NodeOk(g, f, nodes[f]);
    var blocks := BlocksAreMany(g, owner, f, Count(nodes[f]));
    BitmapIsExact(g, owner);
    Interval(3, NBLOCK, blocks);
  }

  // ---- arithmetic of entries ----

  lemma EntriesOf(kids: seq<nat>, e: nat)
    ensures var n, n' := Dir(kids), Dir(kids + [e]);
      if |kids| % FILE2BLK == 0
      then Grows(n, n') && Expected(n', Count(n)) == Links([e])
      else Alters(n, n') && Count(n) > 0 && Expected(n', Count(n) - 1) == Links(Entries(kids, Count(n) - 1) + [e])
  {
    var n, n' := Dir(kids), Dir(kids + [e]);
    var k := |kids| / FILE2BLK;
    if |kids| % FILE2BLK == 0 {
      assert Count(n) == k && Count(n') == k + 1;
      forall i | 0 <= i < k ensures Expected(n', i) == Expected(n, i) {
        assert Entries(kids + [e], i) == Entries(kids, i);
      }
      assert Entries(kids + [e], k) == [e];
    } else {
      assert Count(n) == k + 1 && Count(n') == k + 1;
      forall i | 0 <= i < k ensures Expected(n', i) == Expected(n, i) {
        assert Entries(kids + [e], i) == Entries(kids, i);
      }
      assert Entries(kids + [e], k) == Entries(kids, k) + [e];
    }
  }

  lemma FullUnlessLast(kids: seq<nat>, i: nat)
    requires i < Count(Dir(kids))
    ensures FILE2BLK * i <= |kids|
    ensures |Entries(kids, i)| < FILE2BLK <==> i == Count(Dir(kids)) - 1 && |kids| % FILE2BLK != 0
    ensures |Entries(kids, i)| == FILE2BLK ==> FILE2BLK * (i + 1) <= |kids|
    ensures |Entries(kids, i)| <= FILE2BLK
  {
  }

  lemma EmptyImage(g: Img)
    requires g == Img(3, seq(NBLOCK, _ => Unused), [EMPTY])
    ensures ImgHolds(g, map[], [Dir([])])
  {
    forall y | IsSlot(View(g), y) ensures At(View(g), y) == 0 {}
    forall i | 0 <= i < NINDIRECT ensures Lookup(View(g), 0, i) == 0 {}
    forall b: nat ensures b in View(g).free <==> Beyond(3, b) {}
  }

  // ---- the builder ----

  // A blank struct File given a size is a file none of whose blocks is written yet.
  lemma TargetKeeps(g: Img, owner: map<nat, Slot>, nodes: seq<Node>, e: nat, bytes: seq<byte>)
    requires ImgHolds(g, owner, nodes) && e < |nodes| && nodes[e] == Dir([])
    ensures ImgHolds(SetSize(g, e, |bytes|), owner, nodes[e := Reg(bytes, 0)])
  {
    ResizeIsInvisible(g, owner, e, |bytes|);
    var g', nodes' := SetSize(g, e, |bytes|), nodes[e := Reg(bytes, 0)];
    forall h | 0 <= h < |nodes'| ensures NodeOk(g', h, nodes'[h]) {
      assert NodeOk(g, h, nodes[h]);
      forall i | 0 <= i < NINDIRECT ensures Lookup(View(g'), h, i) == Lookup(View(g), h, i) {
        assert IsSlot(View(g), SlotOf(h, i));
      }
    }
  }

  // The first tree is written, then the rest into the same directory.
  ghost predicate Written(nodes: seq<Node>, first: seq<Node>, last: seq<Node>, d: nat, ts: seq<Tree>) {
    && d < |nodes| < |first| <= |last| && nodes[d].Dir? && last[d].Dir? && ts != []
    && Shows(first, |nodes|, ts[0], |nodes|)
    && first[..|nodes|] == nodes[d := Dir(nodes[d].kids + [|nodes|])]
    && last[..|first|] == first[d := last[d]]
    && |last[d].kids| == |nodes[d].kids| + |ts| && last[d].kids[..|nodes[d].kids| + 1] == nodes[d].kids + [|nodes|]
    && ShowsAll(last, last[d].kids[|nodes[d].kids| + 1..], ts[1..], |first|)
  }

  lemma AllOfThem(first: seq<Node>, last: seq<Node>, kids: seq<nat>, c: nat, ts: seq<Tree>, n: nat)
    requires ts != [] && n <= |first| <= |last| && Shows(first, n, ts[0], n) && |kids| == c + |ts| && kids[c] == n
    requires forall i :: n <= i < |first| ==> last[i] == first[i]
    requires ShowsAll(last, kids[c + 1..], ts[1..], |first|)
    ensures ShowsAll(last, kids[c..], ts, n)
  {
    ShowsStays(first, last, n, ts[0], n, n);
    ShowsAllStays(last, last, kids[c + 1..], ts[1..], |first|, n);
    forall i | 0 <= i < |ts| ensures Shows(last, kids[c..][i], ts[i], n) {
      if i > 0 { assert kids[c..][i] == kids[c + 1..][i - 1] && ts[i] == ts[1..][i - 1]; }
    }
  }

  lemma AllShown(nodes: seq<Node>, first: seq<Node>, last: seq<Node>, d: nat, ts: seq<Tree>)
    requires Written(nodes, first, last, d, ts)
    ensures last[..|nodes|] == nodes[d := last[d]] && last[d].kids[..|nodes[d].kids|] == nodes[d].kids
    ensures ShowsAll(last, last[d].kids[|nodes[d].kids|..], ts, |nodes|)
  {
    assert forall i :: 0 <= i < |nodes| ==> first[i] == first[..|nodes|][i];
    assert forall i :: 0 <= i < |first| ==> last[i] == last[..|first|][i];
    var kids, c := last[d].kids, |nodes[d].kids|;
    assert kids[..c] == kids[..c + 1][..c];
    assert kids[c] == kids[..c + 1][c] == |nodes|;
    AllOfThem(first, last, kids, c, ts, |nodes|);
  }

  class Builder {
    var disk: array<Block>
    var nextbno: nat
    var files: seq<File>
    var bitmap: array<nat>
    ghost var owner: map<nat, Slot>
    ghost var nodes: seq<Node>

    ghost function Abs(): Img
      reads this, disk
    {
      Img(nextbno, disk[..], files)
    }

    ghost predicate Valid()
      reads this, disk
    {
      disk.Length == NBLOCK && bitmap.Length == NINDIRECT && ImgHolds(Abs(), owner, nodes)
    }

    // init_disk: the root directory is file 0.
    constructor ()
      ensures Valid() && fresh(disk) && fresh(bitmap) && nextbno == 3 && nodes == [Dir([])]
      ensures forall b: nat :: b < 32 * NINDIRECT ==> (Bit(bitmap[..], b) <==> b < NBLOCK)
    {
      disk := new Block[NBLOCK](_ => Unused);
      var full: nat := Pow2(32) - 1;
      bitmap := new nat[NINDIRECT](i => if 0 <= i < NBLOCK / 32 then full else 0);
      nextbno, files := 3, [EMPTY];
      owner, nodes := map[], [Dir([])];
      new;
      forall b: nat | b < 32 * NINDIRECT ensures Bit(bitmap[..], b) <==> b < NBLOCK {
        AllOnes(32, b % 32);
        AllZeros(b % 32);
      }
      EmptyImage(Abs());
    }

    // next_block, the block filled at once.
    method NextBlock(b: Block) returns (bno: nat)
      requires disk.Length == NBLOCK && nextbno < NBLOCK
      modifies disk, `nextbno
      ensures bno == old(nextbno) && nextbno == old(nextbno) + 1 && disk[..] == old(disk[..])[old(nextbno) := b]
    {
      disk[nextbno] := b;
      nextbno := nextbno + 1;
      bno := nextbno - 1;
    }

    method SaveBlockLink(f: nat, nblk: nat, bno: nat) returns (ok: bool)
      requires disk.Length == NBLOCK && ImgShape(Abs()) && f < |files| && nblk < NINDIRECT
      modifies disk, `nextbno, `files
      ensures ok <==> !NeedsIndex(old(Abs()), f, nblk) || old(nextbno) < NBLOCK
      ensures ok ==> Abs() == Link(old(Abs()), f, nblk, bno)
    {
      if nblk < NDIRECT {
        files := files[f := files[f].(direct := files[f].direct[nblk := bno])];
      } else if files[f].indirect == 0 {
        if nextbno == NBLOCK { return false; }
        var words: seq<nat> := Zeros();
        words := words[nblk := bno];
        var index := NextBlock(Index(words));
        files := files[f := files[f].(indirect := index)];
      } else {
        var words: seq<nat> := disk[files[f].indirect].words;
        words := words[nblk := bno];
        disk[files[f].indirect] := Index(words);
      }
      ok := true;
    }

    // The next block of file f: next_block, its contents, save_block_link, the new size.
    method Append(f: nat, nblk: nat, b: Block, size: nat, ghost n: Node) returns (ok: bool)
      requires Valid() && f < |nodes| && nblk == Count(nodes[f])
      requires Grows(nodes[f], n) && b == Expected(n, nblk) && size == SizeOf(n)
      modifies this, disk
      ensures disk == old(disk) && bitmap == old(bitmap)
      ensures ok <==> old(nextbno) + BlockCost(nblk) <= NBLOCK
      ensures ok ==> Valid() && nodes == old(nodes)[f := n] && nextbno == old(nextbno) + BlockCost(nblk)
    {
      ghost var g := Abs();
      CountFits(g, owner, nodes, f);
      if nextbno == NBLOCK { return false; }
      var bno := NextBlock(b);
      ok := SaveBlockLink(f, nblk, bno);
      if !ok { return; }
      files := files[f := files[f].(size := size)];
      assert Abs() == Extend(g, f, nodes[f], n);
      ExtendKeeps(g, owner, nodes, f, n);
      owner := AddedOwner(g, owner, f, nblk);
      nodes := nodes[f := n];
    }

    // The number of a directory's block.
    method BlockOf(f: nat, i: nat) returns (bno: nat)
      requires Valid() && f < |nodes| && i < Count(nodes[f])
      ensures bno == Lookup(View(Abs()), f, i) && bno < NBLOCK && disk[bno] == Expected(nodes[f], i)
    {
      assert NodeOk(Abs(), f, nodes[f]);
      bno := if i < NDIRECT then files[f].direct[i] else disk[files[f].indirect].words[i];
    }

    // create_file's search: the block with the first unused struct File of directory d.
    method FindUnused(d: nat) returns (nblk: nat, found: bool, bno: nat)
      requires Valid() && d < |nodes| && nodes[d].Dir?
      ensures found <==> |nodes[d].kids| % FILE2BLK != 0
      ensures found ==> bno == Lookup(View(Abs()), d, Count(nodes[d]) - 1) && bno < NBLOCK
      ensures found ==> disk[bno] == Expected(nodes[d], Count(nodes[d]) - 1)
      ensures nblk == Count(nodes[d])
    {
      assert NodeOk(Abs(), d, nodes[d]);
      nblk := files[d].size / BY2BLK;
      var i := 0;
      while i < nblk
        invariant 0 <= i <= nblk && FILE2BLK * i <= |nodes[d].kids|
      {
        bno := BlockOf(d, i);
        FullUnlessLast(nodes[d].kids, i);
        if |disk[bno].entries| < FILE2BLK { return nblk, true, bno; }
        i := i + 1;
      }
      return nblk, false, 0;
    }

    // A struct File comes into use.
    method TakeFile()
      requires Valid()
      modifies `files, `nodes
      ensures Valid() && Abs() == NewFile(old(Abs())) && nodes == old(nodes) + [Dir([])]
    {
      NewFileKeeps(Abs(), owner, nodes, Dir([]));
      files := files + [EMPTY];
      nodes := nodes + [Dir([])];
    }

    // A new block for a directory whose blocks are all full.
    method MakeLinkBlock(d: nat, nblk: nat, e: nat) returns (ok: bool)
      requires Valid() && d < |nodes| && nodes[d].Dir? && e == |nodes| && |nodes[d].kids| == FILE2BLK * nblk
      modifies this, disk
      ensures disk == old(disk) && bitmap == old(bitmap)
      ensures ok <==> old(nextbno) + BlockCost(nblk) <= NBLOCK
      ensures ok ==> Valid() && nextbno == old(nextbno) + BlockCost(nblk)
      ensures ok ==> nodes == old(nodes)[d := Dir(old(nodes)[d].kids + [e])] + [Dir([])]
    {
      ghost var before, kids := nodes, nodes[d].kids;
      EntriesOf(kids, e);
      assert NodeOk(Abs(), d, nodes[d]);
      TakeFile();
      assert nodes[d] == Dir(kids);
      ok := Append(d, nblk, Links([e]), files[d].size + BY2BLK, Dir(kids + [e]));
      assert before[d := Dir(kids + [e])] + [Dir([])] == (before + [Dir([])])[d := Dir(kids + [e])];
    }

    // The first unused struct File of block bno, the last block of directory d.
    method TakeEntry(d: nat, bno: nat, e: nat)
      requires Valid() && d < |nodes| && nodes[d].Dir? && e == |nodes| && |nodes[d].kids| % FILE2BLK != 0
      requires bno == Lookup(View(Abs()), d, Count(nodes[d]) - 1) && bno < NBLOCK
      requires disk[bno] == Expected(nodes[d], Count(nodes[d]) - 1)
      modifies this, disk
      ensures disk == old(disk) && bitmap == old(bitmap) && nextbno == old(nextbno)
      ensures Valid() && nodes == old(nodes)[d := Dir(old(nodes)[d].kids + [e])] + [Dir([])]
    {
      ghost var n := Dir(nodes[d].kids + [e]);
      EntriesOf(nodes[d].kids, e);
      RewriteKeeps(Abs(), owner, nodes, d, n);
      disk[bno] := Links(disk[bno].entries + [e]);
      nodes := nodes[d := n];
      TakeFile();
    }

    method CreateFile(d: nat) returns (ok: bool, e: nat)
      requires Valid() && d < |nodes| && nodes[d].Dir?
      modifies this, disk
      ensures disk == old(disk) && bitmap == old(bitmap)
      ensures ok <==> old(nextbno) + CreateCost(|old(nodes)[d].kids|) <= NBLOCK
      ensures ok ==> Valid() && e == |old(nodes)| && nodes == old(nodes)[d := Dir(old(nodes)[d].kids + [e])] + [Dir([])]
      ensures ok ==> nextbno == old(nextbno) + CreateCost(|old(nodes)[d].kids|)
    {
      e := |files|;
      var nblk, found, bno := FindUnused(d);
      if found {
        TakeEntry(d, bno, e);
        return true, e;
      }
      ok := MakeLinkBlock(d, nblk, e);
    }

    // One pass of write_file's loop: a block read from the file, and its link.
    method WriteSlice(e: nat, bytes: seq<byte>, iblk: nat) returns (ok: bool)
      requires Valid() && e < |nodes| && nodes[e] == Reg(bytes, iblk) && BY2BLK * iblk < |bytes|
      modifies this, disk
      ensures disk == old(disk) && bitmap == old(bitmap)
      ensures ok <==> old(nextbno) + BlockCost(iblk) <= NBLOCK
      ensures ok ==> Valid() && nodes == old(nodes)[e := Reg(bytes, iblk + 1)] && nextbno == old(nextbno) + BlockCost(iblk)
      ensures iblk + 1 <= Chunks(|bytes|, BY2BLK)
    {
      var part: seq<byte> := bytes[BY2BLK * iblk .. Min(BY2BLK * iblk + BY2BLK, |bytes|)];
      var pad: seq<byte> := seq(BY2BLK - |part|, _ => 0);
      assert Grows(Reg(bytes, iblk), Reg(bytes, iblk + 1));
      assert NodeOk(Abs(), e, nodes[e]);
      ok := Append(e, iblk, Data(part + pad), files[e].size, Reg(bytes, iblk + 1));
    }

    method SizeTarget(e: nat, bytes: seq<byte>)
      requires Valid() && e < |nodes| && nodes[e] == Dir([])
      modifies `files, `nodes
      ensures Valid() && nodes == old(nodes)[e := Reg(bytes, 0)]
      ensures |files| == |old(files)|
    {
      ghost var g := Abs();
      files := files[e := files[e].(size := |bytes|)];
      nodes := nodes[e := Reg(bytes, 0)];
      TargetKeeps(g, owner, old(nodes), e, bytes);
    }

    method WriteFile(d: nat, bytes: seq<byte>) returns (ok: bool)
      requires Valid() && d < |nodes| && nodes[d].Dir?
      modifies this, disk
      ensures disk == old(disk) && bitmap == old(bitmap)
      ensures ok <==> old(nextbno) + CreateCost(|old(nodes)[d].kids|) + TreeCost(FileT(bytes)) <= NBLOCK
      ensures ok ==> Valid() && nextbno == old(nextbno) + CreateCost(|old(nodes)[d].kids|) + TreeCost(FileT(bytes))
      ensures ok ==> nodes == old(nodes)[d := Dir(old(nodes)[d].kids + [|old(nodes)|])] + [Reg(bytes, Chunks(|bytes|, BY2BLK))]
    {
      var e;
      ok, e := CreateFile(d);
      if !ok { return; }
      ghost var before, start := nodes, nextbno;
      SizeTarget(e, bytes);
      var iblk := 0;
      while BY2BLK * iblk < |bytes|
        invariant Valid() && disk == old(disk) && bitmap == old(bitmap)
        invariant iblk <= Chunks(|bytes|, BY2BLK) && e < |nodes| && nodes == before[e := Reg(bytes, iblk)]
        invariant nextbno == start + FileCost(iblk)
      {
        ok := WriteSlice(e, bytes, iblk);
        if !ok { return; }
        iblk := iblk + 1;
      }
    }

    // write_directory's loop body, and main's: a file or a directory with all it holds.
    method WriteTree(d: nat, t: Tree) returns (ok: bool)
      requires Valid() && d < |nodes| && nodes[d].Dir?
      modifies this, disk
      ensures disk == old(disk) && bitmap == old(bitmap)
      ensures ok <==> old(nextbno) + CreateCost(|old(nodes)[d].kids|) + TreeCost(t) <= NBLOCK
      ensures ok ==> Valid() && nextbno == old(nextbno) + CreateCost(|old(nodes)[d].kids|) + TreeCost(t)
      ensures ok ==> |old(nodes)| < |nodes| && Shows(nodes, |old(nodes)|, t, |old(nodes)|)
      ensures ok ==> nodes[..|old(nodes)|] == old(nodes)[d := Dir(old(nodes)[d].kids + [|old(nodes)|])]
      decreases t, 0
    {
      match t
      case FileT(bytes) =>
        ok := WriteFile(d, bytes);
      case DirT(children) =>
        var e;
        ok, e := CreateFile(d);
        if !ok { return; }
        ghost var created := nodes;
        ok := WriteAll(e, children);
        if ok {
          assert nodes[e].kids[0..] == nodes[e].kids;
          ShowsAllStays(nodes, nodes, nodes[e].kids, children, |created|, e);
          assert nodes[..e] == nodes[..|created|][..e] == created[..e];
        }
    }

    method WriteAll(d: nat, ts: seq<Tree>) returns (ok: bool)
      requires Valid() && d < |nodes| && nodes[d].Dir?
      modifies this, disk
      ensures disk == old(disk) && bitmap == old(bitmap)
      ensures ok <==> old(nextbno) + AllCost(ts, |old(nodes)[d].kids|) <= NBLOCK
      ensures ok ==> Valid() && nextbno == old(nextbno) + AllCost(ts, |old(nodes)[d].kids|)
      ensures ok ==> |old(nodes)| <= |nodes| && nodes[d].Dir? && nodes[..|old(nodes)|] == old(nodes)[d := nodes[d]]
      ensures ok ==> |nodes[d].kids| == |old(nodes)[d].kids| + |ts|
      ensures ok ==> nodes[d].kids[..|old(nodes)[d].kids|] == old(nodes)[d].kids
      ensures ok ==> ShowsAll(nodes, nodes[d].kids[|old(nodes)[d].kids|..], ts, |old(nodes)|)
      decreases ts, 1
    {
      if ts == [] { return true; }
      ghost var kids := nodes[d].kids;
      ok := WriteTree(d, ts[0]);
      if !ok { return; }
      ghost var first := nodes;
      assert nodes[d] == nodes[..|old(nodes)|][d];
      ok := WriteAll(d, ts[1..]);
      if !ok { return; }
      AllShown(old(nodes), first, nodes, d, ts);
    }

    // Bit b ends up set exactly for the blocks not used.
    method FlushBitmap()
      requires Valid() && forall b: nat :: b < 32 * NINDIRECT ==> (Bit(bitmap[..], b) <==> b < NBLOCK)
      modifies bitmap
      ensures forall b: nat :: b < 32 * NINDIRECT ==> (Bit(bitmap[..], b) <==> nextbno <= b < NBLOCK)
    {
      var i := 0;
      while i < nextbno
        invariant 0 <= i <= nextbno
        invariant forall b: nat :: b < 32 * NINDIRECT ==> (Bit(bitmap[..], b) <==> i <= b < NBLOCK)
      {
        ghost var before := bitmap[..];
        bitmap[i / 32] := Clear(bitmap[i / 32], i % 32);
        assert bitmap[..] == before[i / 32 := Clear(before[i / 32], i % 32)];
        forall b: nat | b < 32 * NINDIRECT ensures Bit(bitmap[..], b) <==> i != b && Bit(before, b) {
          ClearInBitmap(before, i, b);
        }
        i := i + 1;
      }
    }
  }
}
