// The structure block of a flattened device tree (sections 5.4.1 and 5.4.2 of the
// Devicetree Specification) and what scanning it reports.  Words are already turned from
// big-endian; ByteSwap says what that takes.
module DeviceTree {
  const BEGIN_NODE: nat := 1
  const END_NODE: nat := 2
  const PROP: nat := 3
  const NOP: nat := 4
  const END: nat := 9

  type byte = n: int | 0 <= n < 256

  // ---- bswap ----

  function Bswap(x: bv32): bv32 {
    var y := ((x & 0x00FF00FF) << 8) | ((x & 0xFF00FF00) >> 8);
    ((y & 0x0000FFFF) << 16) | ((y & 0xFFFF0000) >> 16)
  }

  // Swapping twice gives the word back, and swapping reverses its four bytes.
  lemma ByteSwap(x: bv32)
    ensures Bswap(Bswap(x)) == x
    ensures Bswap(x) & 0xFF == x >> 24 && (Bswap(x) >> 8) & 0xFF == (x >> 16) & 0xFF
    ensures (Bswap(x) >> 16) & 0xFF == (x >> 8) & 0xFF && Bswap(x) >> 24 == x & 0xFF
  {
  }

  // ---- trees and their encoding ----

  // A node: its name and what stands between its BEGIN_NODE and END_NODE.
  datatype Node = Node(name: seq<byte>, body: seq<Elem>)

  datatype Elem = Pad | Property(nameoff: nat, len: nat, value: seq<nat>) | Child(node: Node)

  predicate NameOk(name: seq<byte>) { forall i :: 0 <= i < |name| ==> name[i] != 0 }

  ghost predicate WellFormed(body: seq<Elem>)
    decreases body
  {
    forall i :: 0 <= i < |body| ==> ElemOk(body[i])
  }

  ghost predicate ElemOk(e: Elem)
    decreases e
  {
    match e
    case Pad => true
    case Property(_, len, value) => |value| == (len + 3) / 4
    case Child(node) => NameOk(node.name) && WellFormed(node.body)
  }

  function Word(b0: byte, b1: byte, b2: byte, b3: byte): nat {
    b0 as nat * 0x100_0000 + b1 as nat * 0x1_0000 + b2 as nat * 0x100 + b3 as nat
  }

  // Byte k of a word in memory.
  function ByteOf(w: nat, k: nat): nat {
    (if k == 0 then w / 0x100_0000 else if k == 1 then w / 0x1_0000 else if k == 2 then w / 0x100 else w) % 256
  }

  function CharAt(name: seq<byte>, i: nat): byte { if i < |name| then name[i] else 0 }

  // A string with its terminating NUL, padded with NULs to whole words.
  function Pack(name: seq<byte>): (s: seq<nat>)
    ensures |s| == |name| / 4 + 1
  {
    [Word(CharAt(name, 0), CharAt(name, 1), CharAt(name, 2), CharAt(name, 3))] + if |name| < 4 then [] else Pack(name[4..])
  }

  function Encode(e: Elem): (s: seq<nat>)
    ensures |s| > 0
    decreases e, 0
  {
    match e
    case Pad => [NOP]
    case Property(nameoff, len, value) => [PROP, len, nameoff] + value
    case Child(node) => [BEGIN_NODE] + Pack(node.name) + EncodeAll(node.body) + [END_NODE]
  }

  function EncodeAll(body: seq<Elem>): seq<nat>
    decreases body, 1
  {
    if body == [] then [] else Encode(body[0]) + EncodeAll(body[1..])
  }

  // ---- what a scan reports ----

  // A node is known by the names on the way to it.
  type Path = seq<seq<byte>>

  datatype Event =
    | Open(path: Path)
    | Prop(path: Path, nameoff: nat, len: nat, value: seq<nat>)
    | Done(path: Path)
    | Close(path: Path)

  // Whether a child has been seen after this much of a body.
  predicate Seen(body: seq<Elem>, last: bool) {
    if body == [] then last else Seen(body[1..], last || body[0].Child?)
  }

  // A node is done when its first child or its end is met.  At the top there is no node.
  function AtFirstChild(last: bool, path: Path): seq<Event> { if !last && path != [] then [Done(path)] else [] }

  function ElemEvents(e: Elem, last: bool, path: Path): seq<Event>
    decreases e
  {
    match e
    case Pad => []
    case Property(nameoff, len, value) => [Prop(path, nameoff, len, value)]
    case Child(node) => AtFirstChild(last, path) + Visit(node, path)
  }

  function Events(body: seq<Elem>, last: bool, path: Path): seq<Event>
    decreases body, 0
  {
    if body == [] then []
    else ElemEvents(body[0], last, path) + Events(body[1..], last || body[0].Child?, path)
  }

  // Everything reported of a node's body, up to its end.
  function Trace(body: seq<Elem>, path: Path): seq<Event>
    decreases body, 1
  {
    Events(body, false, path) + AtFirstChild(Seen(body, false), path)
  }

  function Visit(node: Node, path: Path): seq<Event>
    decreases node
  {
    [Open(path + [node.name])] + Trace(node.body, path + [node.name]) + [Close(path + [node.name])]
  }

  // ---- deleting ----

  function Pads(n: nat): (s: seq<Elem>)
    ensures |s| == n
  {
    seq(n, _ => Pad)
  }

  // close returns -1, which deletes the node, as a function of all events so far.
  type Closer = seq<Event> -> bool

  // What a scan that starts after the events h leaves of an element: a deleted child is
  // padding.
  function PrunedElem(e: Elem, last: bool, path: Path, kill: Closer, h: seq<Event>): seq<Elem>
    decreases e
  {
    if !e.Child? then [e]
    else if kill(h + ElemEvents(e, last, path)) then Pads(|Encode(e)|)
    else [Child(PrunedNode(e.node, path, kill, h + AtFirstChild(last, path)))]
  }

  function PrunedNode(node: Node, path: Path, kill: Closer, h: seq<Event>): Node
    decreases node
  {
    var p := path + [node.name];
    Node(node.name, Pruned(node.body, false, p, kill, h + [Open(p)]))
  }

  function Pruned(body: seq<Elem>, last: bool, path: Path, kill: Closer, h: seq<Event>): seq<Elem>
    decreases body
  {
    if body == [] then []
    else
      PrunedElem(body[0], last, path, kill, h)
      + Pruned(body[1..], last || body[0].Child?, path, kill, h + ElemEvents(body[0], last, path))
  }

  // The same deletions with nothing left behind.
  function RemovedElem(e: Elem, last: bool, path: Path, kill: Closer, h: seq<Event>): seq<Elem>
    decreases e
  {
    if e.Pad? then []
    else if e.Property? then [e]
    else if kill(h + ElemEvents(e, last, path)) then []
    else [Child(RemovedNode(e.node, path, kill, h + AtFirstChild(last, path)))]
  }

  function RemovedNode(node: Node, path: Path, kill: Closer, h: seq<Event>): Node
    decreases node
  {
    var p := path + [node.name];
    Node(node.name, Removed(node.body, false, p, kill, h + [Open(p)]))
  }

  function Removed(body: seq<Elem>, last: bool, path: Path, kill: Closer, h: seq<Event>): seq<Elem>
    decreases body
  {
    if body == [] then []
    else
      RemovedElem(body[0], last, path, kill, h)
      + Removed(body[1..], last || body[0].Child?, path, kill, h + ElemEvents(body[0], last, path))
  }

  lemma {:induction false} EventsConcat(a: seq<Elem>, b: seq<Elem>, last: bool, path: Path)
    ensures Events(a + b, last, path) == Events(a, last, path) + Events(b, Seen(a, last), path)
    ensures Seen(a + b, last) == Seen(b, Seen(a, last))
    decreases a
  {
    if a == [] {
      assert a + b == b;
    } else {
      assert (a + b)[1..] == a[1..] + b;
      EventsConcat(a[1..], b, last || a[0].Child?, path);
    }
  }

  lemma EventsOfOne(e: Elem, last: bool, path: Path)
    ensures Events([e], last, path) == ElemEvents(e, last, path)
    ensures Seen([e], last) == (last || e.Child?)
  {
    assert [e][1..] == [];
    assert Events([e], last, path) == ElemEvents(e, last, path) + Events([], last || e.Child?, path);
  }

  lemma {:induction false} PadsAreInvisible(n: nat, last: bool, path: Path)
    ensures Events(Pads(n), last, path) == [] && Seen(Pads(n), last) == last
  {
    if n > 0 {
      assert Pads(n)[1..] == Pads(n - 1);
      PadsAreInvisible(n - 1, last, path);
    }
  }

  // Two bodies a scanner cannot tell apart.
  ghost predicate Alike(a: seq<Elem>, b: seq<Elem>) {
    forall last: bool, path: Path :: Events(a, last, path) == Events(b, last, path) && Seen(a, last) == Seen(b, last)
  }

  lemma PadsAreAlikeNothing(n: nat)
    ensures Alike(Pads(n), [])
  {
    forall l: bool, p: Path ensures Events(Pads(n), l, p) == Events([], l, p) && Seen(Pads(n), l) == Seen([], l) {
      PadsAreInvisible(n, l, p);
    }
  }

  lemma SameVisitsAreAlike(m: Node, n: Node)
    requires forall p: Path :: Visit(m, p) == Visit(n, p)
    ensures Alike([Child(m)], [Child(n)])
  {
    forall l: bool, p: Path
      ensures Events([Child(m)], l, p) == Events([Child(n)], l, p) && Seen([Child(m)], l) == Seen([Child(n)], l)
    {
      EventsOfOne(Child(m), l, p);
      EventsOfOne(Child(n), l, p);
      assert Visit(m, p) == Visit(n, p);
    }
  }

  // Padding is invisible: scanning what a scan left behind reports, whatever is called
  // back, what the tree without the deleted subtrees reports.
  lemma {:induction false} RescanSeesTheRest(body: seq<Elem>, last: bool, path: Path, kill: Closer, h: seq<Event>)
    ensures Alike(Pruned(body, last, path, kill, h), Removed(body, last, path, kill, h))
    decreases body
  {
    if body != [] {
      var h', last' := h + ElemEvents(body[0], last, path), last || body[0].Child?;
      var a, b := PrunedElem(body[0], last, path, kill, h), RemovedElem(body[0], last, path, kill, h);
      var c, d := Pruned(body[1..], last', path, kill, h'), Removed(body[1..], last', path, kill, h');
      RescanElem(body[0], last, path, kill, h);
      RescanSeesTheRest(body[1..], last', path, kill, h');
      forall l: bool, p: Path ensures Events(a + c, l, p) == Events(b + d, l, p) && Seen(a + c, l) == Seen(b + d, l) {
        EventsConcat(a, c, l, p);
        EventsConcat(b, d, l, p);
      }
    }
  }

  lemma {:induction false} RescanElem(e: Elem, last: bool, path: Path, kill: Closer, h: seq<Event>)
    ensures Alike(PrunedElem(e, last, path, kill, h), RemovedElem(e, last, path, kill, h))
    decreases e
  {
    if e.Pad? {
      PadsAreAlikeNothing(1);
      assert Pads(1) == [Pad];
    } else if e.Child? && kill(h + ElemEvents(e, last, path)) {
      PadsAreAlikeNothing(|Encode(e)|);
    } else if e.Child? {
      RescanNode(e.node, path, kill, h + AtFirstChild(last, path));
      SameVisitsAreAlike(PrunedNode(e.node, path, kill, h + AtFirstChild(last, path)),
                         RemovedNode(e.node, path, kill, h + AtFirstChild(last, path)));
    }
  }

  lemma {:induction false} RescanNode(node: Node, path: Path, kill: Closer, h: seq<Event>)
    ensures forall p: Path :: Visit(PrunedNode(node, path, kill, h), p) == Visit(RemovedNode(node, path, kill, h), p)
    decreases node
  {
    var c := path + [node.name];
    RescanSeesTheRest(node.body, false, c, kill, h + [Open(c)]);
    var m, n := PrunedNode(node, path, kill, h), RemovedNode(node, path, kill, h);
    forall p: Path ensures Visit(m, p) == Visit(n, p) {
      var q := p + [node.name];
      assert Events(m.body, false, q) == Events(n.body, false, q);
      assert Seen(m.body, false) == Seen(n.body, false);
    }
  }

  lemma EncodeOne(e: Elem)
    ensures EncodeAll([e]) == Encode(e)
  {
    assert [e][1..] == [];
    assert EncodeAll([e]) == Encode(e) + EncodeAll([]);
  }

  lemma {:induction false} EncodeConcat(a: seq<Elem>, b: seq<Elem>)
    ensures EncodeAll(a + b) == EncodeAll(a) + EncodeAll(b)
  {
    if a == [] {
      assert a + b == b;
    } else {
      assert (a + b)[1..] == a[1..] + b;
      EncodeConcat(a[1..], b);
    }
  }

  lemma {:induction false} EncodePads(n: nat)
    ensures EncodeAll(Pads(n)) == seq(n, _ => NOP)
  {
    if n > 0 {
      assert Pads(n)[1..] == Pads(n - 1);
      EncodePads(n - 1);
    }
  }

  // Deleting keeps every word in its place.
  lemma {:induction false} PruningKeepsLength(body: seq<Elem>, last: bool, path: Path, kill: Closer, h: seq<Event>)
    ensures |EncodeAll(Pruned(body, last, path, kill, h))| == |EncodeAll(body)|
    decreases body
  {
    if body != [] {
      var h', last' := h + ElemEvents(body[0], last, path), last || body[0].Child?;
      EncodeConcat(PrunedElem(body[0], last, path, kill, h), Pruned(body[1..], last', path, kill, h'));
      PruningKeepsElem(body[0], last, path, kill, h);
      PruningKeepsLength(body[1..], last', path, kill, h');
    }
  }

  lemma {:induction false} PruningKeepsElem(e: Elem, last: bool, path: Path, kill: Closer, h: seq<Event>)
    ensures |EncodeAll(PrunedElem(e, last, path, kill, h))| == |Encode(e)|
    decreases e
  {
    if e.Child? && kill(h + ElemEvents(e, last, path)) {
      EncodePads(|Encode(e)|);
    } else {
      EncodeOne(PrunedElem(e, last, path, kill, h)[0]);
      if e.Child? { PruningKeepsNode(e.node, path, kill, h + AtFirstChild(last, path)); }
    }
  }

  lemma {:induction false} PruningKeepsNode(node: Node, path: Path, kill: Closer, h: seq<Event>)
    ensures |EncodeAll(PrunedNode(node, path, kill, h).body)| == |EncodeAll(node.body)|
    ensures PrunedNode(node, path, kill, h).name == node.name
    decreases node
  {
    var c := path + [node.name];
    PruningKeepsLength(node.body, false, c, kill, h + [Open(c)]);
  }

  // What a scan leaves is a tree again.
  lemma {:induction false} PruningKeepsWellFormed(body: seq<Elem>, last: bool, path: Path, kill: Closer, h: seq<Event>)
    requires WellFormed(body)
    ensures WellFormed(Pruned(body, last, path, kill, h))
    decreases body
  {
    if body != [] {
      var h', last' := h + ElemEvents(body[0], last, path), last || body[0].Child?;
      var first, rest := PrunedElem(body[0], last, path, kill, h), Pruned(body[1..], last', path, kill, h');
      assert ElemOk(body[0]);
      PrunedElemIsWellFormed(body[0], last, path, kill, h);
      PruningKeepsWellFormed(body[1..], last', path, kill, h');
      forall i | 0 <= i < |first + rest| ensures ElemOk((first + rest)[i]) {
        if i < |first| { assert ElemOk(first[i]); } else { assert ElemOk(rest[i - |first|]); }
      }
    }
  }

  lemma {:induction false} PrunedElemIsWellFormed(e: Elem, last: bool, path: Path, kill: Closer, h: seq<Event>)
    requires ElemOk(e)
    ensures WellFormed(PrunedElem(e, last, path, kill, h))
    decreases e
  {
    if e.Child? && !kill(h + ElemEvents(e, last, path)) {
      PrunedNodeIsWellFormed(e.node, path, kill, h + AtFirstChild(last, path));
    }
  }

  lemma {:induction false} PrunedNodeIsWellFormed(node: Node, path: Path, kill: Closer, h: seq<Event>)
    requires NameOk(node.name) && WellFormed(node.body)
    ensures ElemOk(Child(PrunedNode(node, path, kill, h)))
    decreases node
  {
    var c := path + [node.name];
    PruningKeepsWellFormed(node.body, false, c, kill, h + [Open(c)]);
  }

  // ---- the order of events ----

  // No property after a child, as the specification demands.
  predicate PropsFirst(body: seq<Elem>) {
    forall i, j :: 0 <= i < j < |body| && body[i].Child? ==> !body[j].Property?
  }

  function PropEvents(body: seq<Elem>, path: Path): seq<Event> {
    if body == [] then []
    else if body[0].Property? then [Prop(path, body[0].nameoff, body[0].len, body[0].value)] + PropEvents(body[1..], path)
    else PropEvents(body[1..], path)
  }

  function ChildEvents(body: seq<Elem>, path: Path): seq<Event> {
    if body == [] then []
    else if body[0].Child? then Visit(body[0].node, path) + ChildEvents(body[1..], path)
    else ChildEvents(body[1..], path)
  }

  lemma {:induction false} AfterAChild(body: seq<Elem>, path: Path)
    requires forall i :: 0 <= i < |body| ==> !body[i].Property?
    ensures Events(body, true, path) == ChildEvents(body, path) && Seen(body, true)
  {
    if body != [] { AfterAChild(body[1..], path); }
  }

  lemma {:induction false} NoProps(body: seq<Elem>, path: Path)
    requires forall i :: 0 <= i < |body| ==> !body[i].Property?
    ensures PropEvents(body, path) == []
  {
    if body != [] { NoProps(body[1..], path); }
  }

  // All of a node's properties, then one done, then its children, each in the order they
  // stand.
  lemma {:induction false} EventsInOrder(body: seq<Elem>, path: Path)
    requires PropsFirst(body) && path != []
    ensures Trace(body, path) == PropEvents(body, path) + [Done(path)] + ChildEvents(body, path)
  {
    if body == [] {
    } else if body[0].Child? {
      NoProps(body, path);
      AfterAChild(body[1..], path);
      assert Events(body, false, path) == [Done(path)] + Visit(body[0].node, path) + Events(body[1..], true, path);
      assert ChildEvents(body, path) == Visit(body[0].node, path) + ChildEvents(body[1..], path);
    } else {
      EventsInOrder(body[1..], path);
      assert Trace(body, path) == ElemEvents(body[0], false, path) + Trace(body[1..], path);
    }
  }

  lemma TopUnfolds(body: seq<Elem>)
    requires body != []
    ensures Trace(body, []) == ElemEvents(body[0], false, []) + Events(body[1..], body[0].Child?, [])
    ensures Trace(body[1..], []) == Events(body[1..], false, [])
  {
    assert Events(body, false, []) + [] == Events(body, false, []);
    assert Events(body[1..], false, []) + [] == Events(body[1..], false, []);
  }

  // At the top it does not matter whether a child was seen.
  lemma {:induction false} TopIgnoresChildren(body: seq<Elem>, last: bool)
    ensures Events(body, last, []) == Events(body, false, [])
  {
    if body != [] {
      TopIgnoresChildren(body[1..], last || body[0].Child?);
      TopIgnoresChildren(body[1..], body[0].Child?);
    }
  }

  // What a scan reports of a whole node, all of it under the node's own path; and of the top,
  // which is no node and is never done.
  lemma NodeInOrder(node: Node, path: Path)
    requires PropsFirst(node.body)
    ensures var p := path + [node.name];
      Visit(node, path) == [Open(p)] + (PropEvents(node.body, p) + [Done(p)] + ChildEvents(node.body, p)) + [Close(p)]
  {
    EventsInOrder(node.body, path + [node.name]);
  }

  lemma {:induction false} TopInOrder(body: seq<Elem>)
    requires PropsFirst(body)
    ensures Trace(body, []) == PropEvents(body, []) + ChildEvents(body, [])
  {
    if body != [] {
      if body[0].Child? { NoProps(body, []); }
      TopInOrder(body[1..]);
      TopUnfolds(body);
      TopIgnoresChildren(body[1..], body[0].Child?);
      if body[0].Child? { NoProps(body[1..], []); }
    }
  }
}
