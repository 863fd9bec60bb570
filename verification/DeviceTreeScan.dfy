// lib/fdt.c's scanner as it runs over the words of a structure block, overwriting deleted
// nodes in place.
module DeviceTreeScan {
  import opened DeviceTree

  const FDT_MAGIC: nat := 0xd00d_feed
  const FDT_VERSION: nat := 17

  // The byte at a byte offset of the words.
  function ByteAt(words: seq<nat>, i: nat): nat
    requires i / 4 < |words|
  {
    ByteOf(words[i / 4], i % 4)
  }

  lemma WordBytes(b0: byte, b1: byte, b2: byte, b3: byte)
    ensures ByteOf(Word(b0, b1, b2, b3), 0) == b0 as nat && ByteOf(Word(b0, b1, b2, b3), 1) == b1 as nat
    ensures ByteOf(Word(b0, b1, b2, b3), 2) == b2 as nat && ByteOf(Word(b0, b1, b2, b3), 3) == b3 as nat
  {
    var w := Word(b0, b1, b2, b3);
    assert w / 0x100 == b0 as nat * 0x1_0000 + b1 as nat * 0x100 + b2 as nat;
    assert w / 0x1_0000 == b0 as nat * 0x100 + b1 as nat;
    assert w / 0x100_0000 == b0 as nat;
  }

  lemma WordByte(b0: byte, b1: byte, b2: byte, b3: byte, i: nat)
    requires i < 4
    ensures ByteOf(Word(b0, b1, b2, b3), i) == if i == 0 then b0 as nat else if i == 1 then b1 as nat else if i == 2 then b2 as nat else b3 as nat
  {
    WordBytes(b0, b1, b2, b3);
  }

  // Byte i of a name, or its NUL, where the encoding put it.
  lemma {:induction false} PackedByte(name: seq<byte>, i: nat)
    requires i <= |name|
    ensures ByteAt(Pack(name), i) == if i < |name| then name[i] as nat else 0
  {
    if i < 4 {
      WordByte(CharAt(name, 0), CharAt(name, 1), CharAt(name, 2), CharAt(name, 3), i);
    } else {
      PackedByte(name[4..], i - 4);
      assert i / 4 == (i - 4) / 4 + 1 && i % 4 == (i - 4) % 4;
      assert Pack(name)[i / 4] == Pack(name[4..])[(i - 4) / 4];
    }
  }

  // The words from lo on are s.
  predicate Spells(words: seq<nat>, lo: nat, s: seq<nat>) {
    lo + |s| <= |words| && forall i :: 0 <= i < |s| ==> words[lo + i] == s[i]
  }

  lemma SpellsParts(words: seq<nat>, lo: nat, a: seq<nat>, b: seq<nat>)
    ensures Spells(words, lo, a + b) <==> Spells(words, lo, a) && Spells(words, lo + |a|, b)
  {
    if Spells(words, lo, a + b) {
      forall i | 0 <= i < |a| ensures words[lo + i] == a[i] { assert (a + b)[i] == a[i]; }
      forall i | 0 <= i < |b| ensures words[lo + |a| + i] == b[i] {
        assert (a + b)[|a| + i] == b[i];
        assert words[lo + (|a| + i)] == b[i];
      }
    }
    if Spells(words, lo, a) && Spells(words, lo + |a|, b) {
      forall i | 0 <= i < |a + b| ensures words[lo + i] == (a + b)[i] {
        if i >= |a| { assert words[lo + |a| + (i - |a|)] == b[i - |a|]; }
      }
    }
  }

  // Only the words from lo up to hi may differ.
  predicate SameOutside(was: seq<nat>, now: seq<nat>, lo: nat, hi: nat) {
    |now| == |was| && lo <= hi <= |was| && forall i :: 0 <= i < |was| && !(lo <= i < hi) ==> now[i] == was[i]
  }

  lemma SpellsStays(was: seq<nat>, now: seq<nat>, lo: nat, hi: nat, at: nat, s: seq<nat>)
    requires SameOutside(was, now, lo, hi) && Spells(was, at, s) && (at + |s| <= lo || hi <= at)
    ensures Spells(now, at, s)
  {
  }

  lemma SameOutsideComposes(a: seq<nat>, b: seq<nat>, c: seq<nat>, lo: nat, mid: nat, mid': nat, hi: nat)
    requires SameOutside(a, b, lo, mid) && SameOutside(b, c, mid', hi) && lo <= mid' && mid <= hi
    ensures SameOutside(a, c, lo, hi)
  {
  }

  // A scan of body that has dealt with its first k elements: h is reported, left is left.
  ghost predicate Progress(body: seq<Elem>, k: nat, last: bool, path: Path, kill: Closer,
                           h0: seq<Event>, h: seq<Event>, left: seq<Elem>) {
    && k <= |body|
    && h + Events(body[k..], last, path) == h0 + Events(body, false, path)
    && Seen(body[k..], last) == Seen(body, false)
    && left + Pruned(body[k..], last, path, kill, h) == Pruned(body, false, path, kill, h0)
  }

  lemma Advance(body: seq<Elem>, k: nat, last: bool, path: Path, kill: Closer,
                h0: seq<Event>, h: seq<Event>, left: seq<Elem>)
    requires Progress(body, k, last, path, kill, h0, h, left) && k < |body|
    ensures Progress(body, k + 1, last || body[k].Child?, path, kill, h0, h + ElemEvents(body[k], last, path),
                     left + PrunedElem(body[k], last, path, kill, h))
  {
    assert body[k..][0] == body[k] && body[k..][1..] == body[k + 1..];
    var events, rest := ElemEvents(body[k], last, path), Events(body[k + 1..], last || body[k].Child?, path);
    assert Events(body[k..], last, path) == events + rest;
    assert (h + events) + rest == h + (events + rest);
    var first := PrunedElem(body[k], last, path, kill, h);
    var others := Pruned(body[k + 1..], last || body[k].Child?, path, kill, h + events);
    assert Pruned(body[k..], last, path, kill, h) == first + others;
    assert (left + first) + others == left + (first + others);
  }

  // The token at lex tells which element of the body stands there, or that none is left.
  lemma NextToken(w: seq<nat>, lex: nat, body: seq<Elem>, k: nat, closing: nat)
    requires k <= |body| && Spells(w, lex, EncodeAll(body[k..])) && lex + |EncodeAll(body[k..])| < |w|
    requires w[lex + |EncodeAll(body[k..])|] == closing && (closing == END_NODE || closing == END)
    ensures k == |body| <==> w[lex] != NOP && w[lex] != PROP && w[lex] != BEGIN_NODE
    ensures k == |body| ==> w[lex] == closing && EncodeAll(body[k..]) == []
    ensures k < |body| ==> (w[lex] == NOP <==> body[k].Pad?) && (w[lex] == PROP <==> body[k].Property?)
    ensures k < |body| ==> Spells(w, lex, Encode(body[k])) && Spells(w, lex + |Encode(body[k])|, EncodeAll(body[k + 1..]))
    ensures k < |body| ==> |EncodeAll(body[k..])| == |Encode(body[k])| + |EncodeAll(body[k + 1..])|
  {
    if k < |body| {
      assert body[k..][0] == body[k] && body[k..][1..] == body[k + 1..];
      SpellsParts(w, lex, Encode(body[k]), EncodeAll(body[k + 1..]));
      assert w[lex + 0] == Encode(body[k])[0];
    }
  }

  lemma PropertyAt(w: seq<nat>, lex: nat, e: Elem)
    requires e.Property? && ElemOk(e) && Spells(w, lex, Encode(e))
    ensures lex + 3 + (e.len + 3) / 4 <= |w| && |Encode(e)| == 3 + (e.len + 3) / 4
    ensures w[lex + 1] == e.len && w[lex + 2] == e.nameoff && w[lex + 3 .. lex + 3 + (e.len + 3) / 4] == e.value
  {
    var head: seq<nat> := [PROP, e.len, e.nameoff];
    assert Encode(e) == head + e.value;
    SpellsParts(w, lex, head, e.value);
    assert w[lex + 1] == head[1] && w[lex + 2] == head[2];
    forall i | 0 <= i < |e.value| ensures w[lex + 3 + i] == e.value[i] { assert w[lex + |head| + i] == e.value[i]; }
  }

  lemma LeftGrows(w: seq<nat>, lex0: nat, left: seq<Elem>, more: seq<Elem>)
    requires Spells(w, lex0, EncodeAll(left)) && Spells(w, lex0 + |EncodeAll(left)|, EncodeAll(more))
    ensures Spells(w, lex0, EncodeAll(left + more)) && |EncodeAll(left + more)| == |EncodeAll(left)| + |EncodeAll(more)|
  {
    EncodeConcat(left, more);
    SpellsParts(w, lex0, EncodeAll(left), EncodeAll(more));
  }

  // Where a scan of body stands: the words before lex spell what is left of the first k
  // elements, those from lex to end the others.
  ghost predicate Standing(w0: seq<nat>, w: seq<nat>, lex0: nat, lex: nat, end: nat, closing: nat,
                           body: seq<Elem>, k: nat, left: seq<Elem>) {
    && k <= |body| && lex0 <= lex <= end < |w| && w[end] == closing && (closing == END_NODE || closing == END)
    && SameOutside(w0, w, lex0, lex)
    && Spells(w, lex0, EncodeAll(left)) && lex0 + |EncodeAll(left)| == lex
    && Spells(w, lex, EncodeAll(body[k..])) && lex + |EncodeAll(body[k..])| == end
  }

  lemma AfterFixed(w0: seq<nat>, w: seq<nat>, lex0: nat, lex: nat, end: nat, closing: nat,
                   body: seq<Elem>, k: nat, left: seq<Elem>)
    requires Standing(w0, w, lex0, lex, end, closing, body, k, left) && k < |body|
    ensures Standing(w0, w, lex0, lex + |Encode(body[k])|, end, closing, body, k + 1, left + [body[k]])
  {
    NextToken(w, lex, body, k, closing);
    EncodeOne(body[k]);
    LeftGrows(w, lex0, left, [body[k]]);
  }

  lemma AfterChild(w0: seq<nat>, w: seq<nat>, w': seq<nat>, lex0: nat, lex: nat, next: nat, end: nat, closing: nat,
                   body: seq<Elem>, k: nat, left: seq<Elem>, more: seq<Elem>)
    requires Standing(w0, w, lex0, lex, end, closing, body, k, left) && k < |body| && next == lex + |Encode(body[k])|
    requires SameOutside(w, w', lex, next) && Spells(w', lex, EncodeAll(more)) && |EncodeAll(more)| == |Encode(body[k])|
    ensures Standing(w0, w', lex0, next, end, closing, body, k + 1, left + more)
  {
    NextToken(w, lex, body, k, closing);
    SpellsStays(w, w', lex, next, lex0, EncodeAll(left));
    SpellsStays(w, w', lex, next, next, EncodeAll(body[k + 1..]));
    LeftGrows(w', lex0, left, more);
    SameOutsideComposes(w0, w, w', lex0, lex, lex, next);
  }

  lemma Starting(w0: seq<nat>, lex0: nat, end: nat, closing: nat, body: seq<Elem>, path: Path, kill: Closer, h0: seq<Event>)
    requires Spells(w0, lex0, EncodeAll(body)) && lex0 + |EncodeAll(body)| == end < |w0| && w0[end] == closing
    requires closing == END_NODE || closing == END
    ensures Standing(w0, w0, lex0, lex0, end, closing, body, 0, [])
    ensures Progress(body, 0, false, path, kill, h0, h0, [])
  {
    assert body[0..] == body;
  }

  lemma AllDone(w0: seq<nat>, w: seq<nat>, lex0: nat, lex: nat, end: nat, closing: nat, body: seq<Elem>, left: seq<Elem>,
                last: bool, path: Path, kill: Closer, h0: seq<Event>, h: seq<Event>)
    requires Standing(w0, w, lex0, lex, end, closing, body, |body|, left)
    requires Progress(body, |body|, last, path, kill, h0, h, left)
    ensures lex == end && Spells(w, lex0, EncodeAll(Pruned(body, false, path, kill, h0)))
    ensures h + AtFirstChild(last, path) == h0 + Trace(body, path)
  {
    assert body[|body|..] == [];
    assert left + [] == left;
    assert h + [] == h;
    assert (h0 + Events(body, false, path)) + AtFirstChild(last, path) == h0 + Trace(body, path);
  }

  // What close leaves of a child visited after the events h.
  function AfterClose(e: Elem, path: Path, kill: Closer, h: seq<Event>): seq<Elem>
    requires e.Child?
  {
    if kill(h + Visit(e.node, path)) then Pads(|Encode(e)|) else [Child(PrunedNode(e.node, path, kill, h))]
  }

  class Scanner {
    var words: array<nat>
    var history: seq<Event>
    var kill: Closer

    // strlen and the characters before the NUL.
    method ReadName(at: nat, ghost name: seq<byte>) returns (s: seq<byte>)
      requires NameOk(name) && Spells(words[..], at, Pack(name))
      ensures s == name
    {
      s := [];
      while ByteOf(words[at + |s| / 4], |s| % 4) != 0
        invariant |s| <= |name| && s == name[..|s|]
        decreases |name| - |s|
      {
        PackedByte(name, |s|);
        assert Pack(name)[|s| / 4] == words[..][at + |s| / 4];
        var b := ByteOf(words[at + |s| / 4], |s| % 4);
        s := s + [b];
      }
      PackedByte(name, |s|);
      assert Pack(name)[|s| / 4] == words[..][at + |s| / 4];
    }

    // while (lex != lex_next) *lex++ = NOP
    method Erase(from: nat, to: nat)
      requires from <= to <= words.Length
      modifies words
      ensures SameOutside(old(words[..]), words[..], from, to)
      ensures Spells(words[..], from, seq(to - from, _ => NOP))
    {
      var lex := from;
      while lex != to
        invariant from <= lex <= to
        invariant SameOutside(old(words[..]), words[..], from, to)
        invariant forall i :: from <= i < lex ==> words[i] == NOP
      {
        words[lex] := NOP;
        lex := lex + 1;
      }
    }

    // Where the parts of an encoded child stand.
    static ghost predicate ChildAt(w: seq<nat>, lex: nat, pack: seq<nat>, body: seq<nat>) {
      && Spells(w, lex, [BEGIN_NODE]) && Spells(w, lex + 1, pack)
      && Spells(w, lex + 1 + |pack|, body) && Spells(w, lex + 1 + |pack| + |body|, [END_NODE])
    }

    static lemma ChildParts(w: seq<nat>, lex: nat, node: Node)
      ensures Spells(w, lex, Encode(Child(node))) <==> ChildAt(w, lex, Pack(node.name), EncodeAll(node.body))
      ensures |Encode(Child(node))| == 2 + |Pack(node.name)| + |EncodeAll(node.body)|
    {
      var head, body := [BEGIN_NODE] + Pack(node.name), EncodeAll(node.body);
      assert Encode(Child(node)) == head + (body + [END_NODE]);
      SpellsParts(w, lex, head, body + [END_NODE]);
      SpellsParts(w, lex, [BEGIN_NODE], Pack(node.name));
      SpellsParts(w, lex + |head|, body, [END_NODE]);
    }

    // The words around a body that has been rewritten stay.
    static lemma Around(w0: seq<nat>, w1: seq<nat>, lex: nat, pack: seq<nat>, body: seq<nat>, body': seq<nat>)
      requires SameOutside(w0, w1, lex + 1 + |pack|, lex + 1 + |pack| + |body|) && |body'| == |body|
      requires ChildAt(w0, lex, pack, body) && Spells(w1, lex + 1 + |pack|, body')
      ensures ChildAt(w1, lex, pack, body')
    {
    }

    // The words of a child whose body has been rewritten as m's.
    static lemma Kept(w0: seq<nat>, w1: seq<nat>, lex: nat, node: Node, m: Node)
      requires m.name == node.name && |EncodeAll(m.body)| == |EncodeAll(node.body)|
      requires Spells(w0, lex, Encode(Child(node)))
      requires SameOutside(w0, w1, lex + 1 + |Pack(node.name)|, lex + 1 + |Pack(node.name)| + |EncodeAll(node.body)|)
      requires Spells(w1, lex + 1 + |Pack(node.name)|, EncodeAll(m.body))
      ensures Spells(w1, lex, Encode(Child(m)))
    {
      ChildParts(w0, lex, node);
      Around(w0, w1, lex, Pack(node.name), EncodeAll(node.body), EncodeAll(m.body));
      ChildParts(w1, lex, m);
    }

    // case FDT_PROP
    method MeetProperty(ghost w0: seq<nat>, ghost lex0: nat, lex: nat, ghost end: nat, ghost closing: nat,
                        ghost last: bool, path: Path, ghost body: seq<Elem>, ghost k: nat, ghost left: seq<Elem>)
        returns (next: nat)
      requires WellFormed(body) && Standing(w0, words[..], lex0, lex, end, closing, body, k, left)
      requires k < |body| && body[k].Property?
      modifies `history
      ensures next == lex + |Encode(body[k])| && history == old(history) + ElemEvents(body[k], last, path)
      ensures Standing(w0, words[..], lex0, next, end, closing, body, k + 1, left + [body[k]])
    {
      NextToken(words[..], lex, body, k, closing);
      PropertyAt(words[..], lex, body[k]);
      AfterFixed(w0, words[..], lex0, lex, end, closing, body, k, left);
      var len, nameoff := words[lex + 1], words[lex + 2];
      history := history + [Prop(path, nameoff, len, words[lex + 3 .. lex + 3 + (len + 3) / 4])];
      next := lex + 3 + (len + 3) / 4;
    }

    // case FDT_BEGIN_NODE, without its done.
    method ScanChild(lex: nat, path: Path, ghost e: Elem) returns (next: nat)
      requires e.Child? && ElemOk(e) && Spells(words[..], lex, Encode(e))
      modifies words, `history
      ensures next == lex + |Encode(e)| && history == old(history) + Visit(e.node, path)
      ensures SameOutside(old(words[..]), words[..], lex, next)
      ensures Spells(words[..], lex, EncodeAll(AfterClose(e, path, kill, old(history))))
      decreases e, 1
    {
      next := VisitChild(lex, path, e);
      if kill(history) {
        Erase(lex, next);
        EncodePads(next - lex);
      }
    }

    // open, the body, close.
    method VisitChild(lex: nat, path: Path, ghost e: Elem) returns (next: nat)
      requires e.Child? && ElemOk(e) && Spells(words[..], lex, Encode(e))
      modifies words, `history
      ensures next == lex + |Encode(e)| <= words.Length && history == old(history) + Visit(e.node, path)
      ensures SameOutside(old(words[..]), words[..], lex, next)
      ensures Spells(words[..], lex, EncodeAll([Child(PrunedNode(e.node, path, kill, old(history)))]))
      decreases e, 0
    {
      ghost var node, h0, w0 := e.node, history, words[..];
      ghost var start := lex + 1 + |Pack(node.name)|;
      ChildParts(w0, lex, node);
      assert [END_NODE][0] == w0[start + |EncodeAll(node.body)| + 0];
      var name := ReadName(lex + 1, node.name);
      var child := path + [name];
      history := history + [Open(child)];
      next := ScanBody(lex + 2 + |name| / 4, child, node.body, END_NODE);
      history := history + [Close(child)];
      assert history == h0 + Visit(node, path);
      PruningKeepsNode(node, path, kill, h0);
      Kept(w0, words[..], lex, node, PrunedNode(node, path, kill, h0));
      EncodeOne(Child(PrunedNode(node, path, kill, h0)));
    }

    // fdt_scan_helper for the node at path ([]: no node), up to the closing token.
    method ScanBody(lex0: nat, path: Path, ghost body: seq<Elem>, ghost closing: nat) returns (lex: nat)
      requires WellFormed(body) && (closing == END_NODE || closing == END)
      requires Spells(words[..], lex0, EncodeAll(body)) && lex0 + |EncodeAll(body)| < words.Length
      requires words[lex0 + |EncodeAll(body)|] == closing
      modifies words, `history
      ensures lex == lex0 + |EncodeAll(body)| + (if closing == END_NODE then 1 else 0)
      ensures history == old(history) + Trace(body, path)
      ensures SameOutside(old(words[..]), words[..], lex0, lex0 + |EncodeAll(body)|)
      ensures Spells(words[..], lex0, EncodeAll(Pruned(body, false, path, kill, old(history))))
      decreases body, 2
    {
      ghost var h0, w0, end := history, words[..], lex0 + |EncodeAll(body)|;
      var last;
      ghost var left;
      lex, last, left := ScanItems(lex0, path, body, closing);
      NextToken(words[..], lex, body, |body|, closing);
      AllDone(w0, words[..], lex0, lex, end, closing, body, left, last, path, kill, h0, history);
      if !last && path != [] { history := history + [Done(path)]; }
      if words[lex] == END_NODE { lex := lex + 1; }
    }

    // The scanner's loop, up to the token that ends it.
    method ScanItems(lex0: nat, path: Path, ghost body: seq<Elem>, ghost closing: nat)
        returns (lex: nat, last: bool, ghost left: seq<Elem>)
      requires WellFormed(body) && (closing == END_NODE || closing == END)
      requires Spells(words[..], lex0, EncodeAll(body)) && lex0 + |EncodeAll(body)| < words.Length
      requires words[lex0 + |EncodeAll(body)|] == closing
      modifies words, `history
      ensures Standing(old(words[..]), words[..], lex0, lex, lex0 + |EncodeAll(body)|, closing, body, |body|, left)
      ensures Progress(body, |body|, last, path, kill, old(history), history, left)
      decreases body, 1
    {
      ghost var h0, w0, end := history, words[..], lex0 + |EncodeAll(body)|;
      ghost var k := 0;
      left, last, lex := [], false, lex0;
      Starting(w0, lex0, end, closing, body, path, kill, h0);
      while true
        invariant Standing(w0, words[..], lex0, lex, end, closing, body, k, left)
        invariant Progress(body, k, last, path, kill, h0, history, left)
        decreases |body| - k
      {
        NextToken(words[..], lex, body, k, closing);
        if words[lex] != NOP && words[lex] != PROP && words[lex] != BEGIN_NODE { break; }
        Advance(body, k, last, path, kill, h0, history, left);
        ghost var more := PrunedElem(body[k], last, path, kill, history);
        lex, last := ScanElem(w0, lex0, lex, end, closing, last, path, body, k, left);
        left := left + more;
        k := k + 1;
      }
    }

    // The three tokens that stand for an element.
    method ScanElem(ghost w0: seq<nat>, ghost lex0: nat, lex: nat, ghost end: nat, ghost closing: nat,
                    last: bool, path: Path, ghost body: seq<Elem>, ghost k: nat, ghost left: seq<Elem>)
        returns (next: nat, seen: bool)
      requires WellFormed(body) && Standing(w0, words[..], lex0, lex, end, closing, body, k, left) && k < |body|
      modifies words, `history
      ensures next == lex + |Encode(body[k])| && history == old(history) + ElemEvents(body[k], last, path)
      ensures seen == (last || body[k].Child?)
      ensures Standing(w0, words[..], lex0, next, end, closing, body, k + 1, left + PrunedElem(body[k], last, path, kill, old(history)))
      decreases body, 0, 1
    {
      NextToken(words[..], lex, body, k, closing);
      seen := last;
      if words[lex] == NOP {
        AfterFixed(w0, words[..], lex0, lex, end, closing, body, k, left);
        assert history + [] == history;
        next := lex + 1;
      } else if words[lex] == PROP {
        next := MeetProperty(w0, lex0, lex, end, closing, last, path, body, k, left);
      } else {
        next := MeetChild(w0, lex0, lex, end, closing, last, path, body, k, left);
        seen := true;
      }
    }

    // done before the first child, and the child.
    method MeetChild(ghost w0: seq<nat>, ghost lex0: nat, lex: nat, ghost end: nat, ghost closing: nat,
                     last: bool, path: Path, ghost body: seq<Elem>, ghost k: nat, ghost left: seq<Elem>)
        returns (next: nat)
      requires WellFormed(body) && Standing(w0, words[..], lex0, lex, end, closing, body, k, left)
      requires k < |body| && body[k].Child?
      modifies words, `history
      ensures next == lex + |Encode(body[k])| && history == old(history) + ElemEvents(body[k], last, path)
      ensures Standing(w0, words[..], lex0, next, end, closing, body, k + 1, left + PrunedElem(body[k], last, path, kill, old(history)))
      decreases body, 0, 0
    {
      ghost var h, w, more := history, words[..], PrunedElem(body[k], last, path, kill, history);
      NextToken(w, lex, body, k, closing);
      if !last && path != [] { history := history + [Done(path)]; }
      assert history == h + AtFirstChild(last, path);
      assert h + ElemEvents(body[k], last, path) == history + Visit(body[k].node, path);
      assert more == AfterClose(body[k], path, kill, history);
      next := ScanChild(lex, path, body[k]);
      PruningKeepsElem(body[k], last, path, kill, h);
      AfterChild(w0, w, words[..], lex0, lex, next, end, closing, body, k, left, more);
    }

    predicate Understood()
      reads this, words
      requires words.Length >= 10
    {
      words[0] == FDT_MAGIC && words[6] <= FDT_VERSION
    }

    // fdt_scan: nothing but the trees it understands.  The header's offsets are in bytes.
    method Scan(ghost body: seq<Elem>)
      requires words.Length >= 10
      requires Understood() ==> WellFormed(body) && words[2] % 4 == 0 && Spells(words[..], words[2] / 4, EncodeAll(body) + [END])
      modifies words, `history
      ensures old(Understood()) ==> history == old(history) + Trace(body, [])
      ensures old(Understood()) ==> Spells(words[..], old(words[2]) / 4, EncodeAll(Pruned(body, false, [], kill, old(history))) + [END])
      ensures old(Understood()) ==>
        SameOutside(old(words[..]), words[..], old(words[2]) / 4, old(words[2]) / 4 + |EncodeAll(body)|)
      ensures !old(Understood()) ==> history == old(history) && words[..] == old(words[..])
    {
      if words[0] != FDT_MAGIC || words[6] > FDT_VERSION { return; }
      var lex := words[2] / 4;
      SpellsParts(words[..], lex, EncodeAll(body), [END]);
      assert words[..][lex + |EncodeAll(body)| + 0] == [END][0];
      ghost var w, left := words[..], EncodeAll(Pruned(body, false, [], kill, history));
      PruningKeepsLength(body, false, [], kill, history);
      var _ := ScanBody(lex, [], body, END);
      SpellsStays(w, words[..], lex, lex + |EncodeAll(body)|, lex + |EncodeAll(body)|, [END]);
      SpellsParts(words[..], lex, left, [END]);
    }

    // Two scans in a row of a block that follows the header: the second is called on what the
    // first one left, and reports the tree without the subtrees the first one deleted.
    method ScanTwice(ghost body: seq<Elem>)
      requires words.Length >= 10 && Understood() && WellFormed(body) && words[2] >= 40 && words[2] % 4 == 0
      requires Spells(words[..], words[2] / 4, EncodeAll(body) + [END])
      modifies words, `history
      ensures var h1 := old(history) + Trace(body, []);
        history == h1 + Trace(Removed(body, false, [], kill, old(history)), [])
    {
      ghost var left := Pruned(body, false, [], kill, history);
      PruningKeepsWellFormed(body, false, [], kill, history);
      RescanSeesTheRest(body, false, [], kill, history);
      Scan(body);
      Scan(left);
      assert Events(left, false, []) == Events(Removed(body, false, [], kill, old(history)), false, []);
      assert Seen(left, false) == Seen(Removed(body, false, [], kill, old(history)), false);
    }
  }
}
