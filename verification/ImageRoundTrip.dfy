// From an empty disk to the file server: what tools/fsformat.c puts on an image is what fs/fs.c
// finds on it.
module ImageRoundTrip {
  import opened Bits
  import opened FileBlocks
  import opened DiskImage
  import opened ImageContents
  import opened ImageBuilder
  import opened FileServer

  // Byte i of a word, the least significant being 0.
  function ByteOfWord(w: nat, i: nat): nat {
    if i == 0 then w % 256 else ByteOfWord(w / 256, i - 1)
  }

  // Byte i of a block of little-endian words.
  function ByteOf(words: seq<nat>, i: nat): nat
    requires i / 4 < |words|
  {
    ByteOfWord(words[i / 4], i % 4)
  }

  lemma LowByte(low: byte, high: nat)
    ensures (low as nat + 256 * high) % 256 == low as nat && (low as nat + 256 * high) / 256 == high
  {
  }

  lemma WordOfBytes(bytes: seq<byte>, k: nat, j: nat)
    requires k + 3 < |bytes| && j < 4
    ensures ByteOfWord(Word(bytes, k), j) == bytes[k + j] as nat
  {
    var top := bytes[k + 3] as nat;
    var high := bytes[k + 2] as nat + 256 * top;
    var mid := bytes[k + 1] as nat + 256 * high;
    assert Word(bytes, k) == bytes[k] as nat + 256 * mid;
    LowByte(bytes[k], mid);
    LowByte(bytes[k + 1], high);
    LowByte(bytes[k + 2], top);
    LowByte(bytes[k + 3], 0);
    assert ByteOfWord(Word(bytes, k), j) ==
      if j == 0 then bytes[k] as nat else if j == 1 then mid % 256 else if j == 2 then high % 256 else top % 256 by
    {
      if j >= 1 { assert ByteOfWord(Word(bytes, k), j) == ByteOfWord(mid, j - 1); }
      if j >= 2 { assert ByteOfWord(mid, j - 1) == ByteOfWord(high, j - 2); }
      if j >= 3 { assert ByteOfWord(high, j - 2) == ByteOfWord(top, j - 3); }
    }
  }

  // The server reads the bytes the block was given.
  lemma BytesOfBlock(bytes: seq<byte>, i: nat)
    requires |bytes| == BY2BLK && i < BY2BLK
    ensures ByteOf(AsWords(Data(bytes)), i) == bytes[i] as nat
  {
    var q, j := i / 4, i % 4;
    assert AsWords(Data(bytes))[q] == Word(bytes, 4 * q);
    WordOfBytes(bytes, 4 * q, j);
  }

  // ---- what file_map_block finds ----

  ghost predicate HoldsPart(s: Fs, p: int, bytes: seq<byte>, at: nat)
    requires Shape(s)
  {
    && 3 <= p < s.nblocks && p !in s.free
    && forall i: nat :: i < BY2BLK && at + i < |bytes| ==> ByteOf(s.words[p], i) == bytes[at + i] as nat
  }

  // File f has these bytes: each block asked for is there and holds its part of them, and no
  // other block is.
  ghost predicate HasBytes(s: Fs, f: nat, bytes: seq<byte>)
    requires Shape(s) && f < |s.files|
  {
    && s.files[f].size == |bytes|
    && (forall bno: nat, alloc: bool, memory: (bool, bool) ::
          bno < Chunks(|bytes|, BY2BLK) ==> HoldsPart(s, MapFileBlock(s, f, bno, alloc, memory).r, bytes, BY2BLK * bno))
    && (forall bno: nat, memory: (bool, bool) ::
          bno >= Chunks(|bytes|, BY2BLK) ==> MapFileBlock(s, f, bno, false, memory).r == if bno < NINDIRECT then E_NOT_FOUND else E_INVAL)
  }

  // Directory f has these entries, sixteen in a block.
  ghost predicate HasEntries(s: Fs, blocks: seq<Block>, f: nat, kids: seq<nat>)
    requires Shape(s) && f < |s.files| && |blocks| == s.nblocks
  {
    && s.files[f].size == BY2BLK * Chunks(|kids|, FILE2BLK)
    && forall bno: nat, alloc: bool, memory: (bool, bool) ::
         bno < Chunks(|kids|, FILE2BLK) ==>
           3 <= MapFileBlock(s, f, bno, alloc, memory).r < s.nblocks
           && blocks[MapFileBlock(s, f, bno, alloc, memory).r] == Links(Entries(kids, bno))
  }

  // Entry e is tree t, all the way down.
  ghost predicate Finds(s: Fs, blocks: seq<Block>, nodes: seq<Node>, e: nat, t: Tree)
    requires Shape(s) && |nodes| == |s.files| && |blocks| == s.nblocks
    decreases t
  {
    e < |nodes|
    && match t
       case FileT(bytes) => HasBytes(s, e, bytes)
       case DirT(children) =>
         nodes[e].Dir? && HasEntries(s, blocks, e, nodes[e].kids) && FindsAll(s, blocks, nodes, nodes[e].kids, children)
  }

  ghost predicate FindsAll(s: Fs, blocks: seq<Block>, nodes: seq<Node>, kids: seq<nat>, ts: seq<Tree>)
    requires Shape(s) && |nodes| == |s.files| && |blocks| == s.nblocks
    decreases ts
  {
    |kids| == |ts| && forall i :: 0 <= i < |ts| ==> Finds(s, blocks, nodes, kids[i], ts[i])
  }

  // A server on the image g, whatever it has cached.
  ghost predicate Mounted(s: Fs, g: Img, owner: map<nat, Slot>, nodes: seq<Node>) {
    ImgHolds(g, owner, nodes) && s == View(g).(cached := s.cached)
  }

  lemma SliceIsHeld(s: Fs, g: Img, p: nat, bytes: seq<byte>, bno: nat)
    requires |g.blocks| == NBLOCK && Shape(View(g)) && s == View(g).(cached := s.cached) && 3 <= p < g.next <= NBLOCK
    requires BY2BLK * bno <= |bytes| && g.blocks[p] == Data(Slice(bytes, bno))
    ensures HoldsPart(s, p, bytes, BY2BLK * bno)
  {
    assert !Beyond(g.next, p);
    forall i: nat | i < BY2BLK && BY2BLK * bno + i < |bytes| ensures ByteOf(s.words[p], i) == bytes[BY2BLK * bno + i] as nat {
      BytesOfBlock(Slice(bytes, bno), i);
    }
  }

  lemma FileIsFound(s: Fs, g: Img, owner: map<nat, Slot>, nodes: seq<Node>, f: nat)
    requires Mounted(s, g, owner, nodes) && f < |nodes| && nodes[f].Reg? && nodes[f].done == Chunks(|nodes[f].bytes|, BY2BLK)
    ensures HasBytes(s, f, nodes[f].bytes)
  {
    var bytes := nodes[f].bytes;
    assert NodeOk(g, f, nodes[f]);
    forall bno: nat, alloc: bool, memory: (bool, bool) | bno < Chunks(|bytes|, BY2BLK)
      ensures HoldsPart(s, MapFileBlock(s, f, bno, alloc, memory).r, bytes, BY2BLK * bno)
    {
      ServerFindsEverySlice(g, owner, nodes, s.cached, f, bno, alloc, memory);
      SliceIsHeld(s, g, MapFileBlock(s, f, bno, alloc, memory).r, bytes, bno);
    }
    forall bno: nat, memory: (bool, bool) | bno >= Chunks(|bytes|, BY2BLK)
      ensures MapFileBlock(s, f, bno, false, memory).r == if bno < NINDIRECT then E_NOT_FOUND else E_INVAL
    {
      ServerFindsEverySlice(g, owner, nodes, s.cached, f, bno, false, memory);
    }
  }

  lemma DirectoryIsFound(s: Fs, g: Img, owner: map<nat, Slot>, nodes: seq<Node>, f: nat)
    requires Mounted(s, g, owner, nodes) && f < |nodes| && nodes[f].Dir?
    ensures HasEntries(s, g.blocks, f, nodes[f].kids)
  {
    assert NodeOk(g, f, nodes[f]);
    forall bno: nat, alloc: bool, memory: (bool, bool) | bno < Count(nodes[f])
      ensures 3 <= MapFileBlock(s, f, bno, alloc, memory).r < s.nblocks
      ensures g.blocks[MapFileBlock(s, f, bno, alloc, memory).r] == Links(Entries(nodes[f].kids, bno))
    {
      ServerFindsEverySlice(g, owner, nodes, s.cached, f, bno, alloc, memory);
    }
  }

  lemma {:induction false} TreeIsFound(s: Fs, g: Img, owner: map<nat, Slot>, nodes: seq<Node>, e: nat, t: Tree, lo: nat)
    requires Mounted(s, g, owner, nodes) && Shows(nodes, e, t, lo)
    ensures Finds(s, g.blocks, nodes, e, t)
    decreases t
  {
    if t.FileT? {
      FileIsFound(s, g, owner, nodes, e);
    } else {
      DirectoryIsFound(s, g, owner, nodes, e);
      TreesAreFound(s, g, owner, nodes, nodes[e].kids, t.children, lo);
    }
  }

  // All that was put into a directory is found.
  lemma {:induction false} TreesAreFound(s: Fs, g: Img, owner: map<nat, Slot>, nodes: seq<Node>, kids: seq<nat>, ts: seq<Tree>, lo: nat)
    requires Mounted(s, g, owner, nodes) && ShowsAll(nodes, kids, ts, lo)
    ensures FindsAll(s, g.blocks, nodes, kids, ts)
    decreases ts
  {
    forall i | 0 <= i < |ts| ensures Finds(s, g.blocks, nodes, kids[i], ts[i]) {
      TreeIsFound(s, g, owner, nodes, kids[i], ts[i], lo);
    }
  }

  // ---- the two programs ----

  // fsformat on any list of files and directories: the image is made exactly when they fit.
  method Format(ts: seq<Tree>) returns (ok: bool, image: Builder)
    ensures fresh(image) && fresh(image.disk) && fresh(image.bitmap)
    ensures ok <==> 3 + AllCost(ts, 0) <= NBLOCK
    ensures ok ==> image.Valid() && image.nodes != [] && image.nodes[0].Dir? && ShowsAll(image.nodes, image.nodes[0].kids, ts, 1)
    ensures ok ==> image.nextbno == 3 + AllCost(ts, 0)
    ensures ok ==> forall b: nat :: b < 32 * NINDIRECT ==> (Bit(image.bitmap[..], b) <==> image.nextbno <= b < NBLOCK)
  {
    image := new Builder();
    ok := image.WriteAll(0, ts);
    if !ok { return; }
    assert image.nodes[0].kids[0..] == image.nodes[0].kids;
    image.FlushBitmap();
  }

  // The server started on the disk: its assertions about the bitmap hold, and it sees the image.
  method Mount(image: Builder) returns (ok: bool, server: Server)
    requires image.Valid()
    requires forall b: nat :: b < 32 * NINDIRECT ==> (Bit(image.bitmap[..], b) <==> image.nextbno <= b < NBLOCK)
    ensures ok && fresh(server) && fresh(server.bitmap) && fresh(server.blocks) && fresh(server.mapped) && fresh(server.files)
    ensures server.Ready() && Mounted(server.Abs(), image.Abs(), image.owner, image.nodes)
  {
    ghost var g := image.Abs();
    assert |View(g).words| == NBLOCK && Shape(View(g));
    var disk := image.disk[..];
    var words: seq<seq<nat>> := seq(NBLOCK, b requires 0 <= b < NBLOCK => AsWords(disk[b]));
    server := new Server(NBLOCK, words, image.bitmap[..], image.files);
    assert server.Abs().free == View(g).free;
    ok := server.ReservedInUse();
  }

  // One after the other, on an empty disk: the server's free blocks are the ones fsformat did
  // not use, and every file and directory is found with its contents.
  method FormatAndMount(ts: seq<Tree>) returns (ok: bool, server: Server?, ghost image: Img, ghost owner: map<nat, Slot>, ghost nodes: seq<Node>)
    ensures ok <==> 3 + AllCost(ts, 0) <= NBLOCK
    ensures ok ==> server != null && fresh(server) && server.Ready() && Mounted(server.Abs(), image, owner, nodes)
    ensures ok ==> forall b: nat :: b in server.Abs().free <==> 3 + AllCost(ts, 0) <= b < NBLOCK
    ensures ok ==> nodes != [] && nodes[0].Dir? && HasEntries(server.Abs(), image.blocks, 0, nodes[0].kids)
    ensures ok ==> FindsAll(server.Abs(), image.blocks, nodes, nodes[0].kids, ts)
  {
    var builder;
    ok, builder := Format(ts);
    server, image, owner, nodes := null, builder.Abs(), builder.owner, builder.nodes;
    if !ok { return; }
    ok, server := Mount(builder);
    DirectoryIsFound(server.Abs(), image, owner, nodes, 0);
    TreesAreFound(server.Abs(), image, owner, nodes, nodes[0].kids, ts, 1);
    forall b: nat ensures b in server.Abs().free <==> 3 + AllCost(ts, 0) <= b < NBLOCK {
      assert b in View(image).free <==> Beyond(image.next, b);
    }
  }

  // The server asked for a block: the answer is the one for the image as it was mounted, and
  // unless a block beyond the end was asked for to be allocated the next question finds the
  // same image.
  method FindBlock(server: Server, f: nat, bno: nat, alloc: bool, memory: (bool, bool),
                   ghost image: Img, ghost owner: map<nat, Slot>, ghost nodes: seq<Node>) returns (r: int)
    requires server.Ready() && Mounted(server.Abs(), image, owner, nodes) && f < |nodes|
    modifies server.bitmap, server.blocks, server.mapped, server.files
    ensures server.Ready()
    ensures bno < Count(nodes[f]) ==> 3 <= r < NBLOCK && image.blocks[r] == Expected(nodes[f], bno)
    ensures bno < Count(nodes[f]) || !alloc ==> Mounted(server.Abs(), image, owner, nodes)
    ensures bno >= Count(nodes[f]) && !alloc ==> r == if bno < NINDIRECT then E_NOT_FOUND else E_INVAL
  {
    ServerFindsEverySlice(image, owner, nodes, server.Abs().cached, f, bno, alloc, memory);
    assert At(View(image), Indirect(f)) == image.files[f].indirect;
    r := server.FileMapBlock(f, bno, alloc, memory);
  }
}
