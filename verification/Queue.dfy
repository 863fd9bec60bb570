// The intrusive lists of include/queue.h: a tail queue (env_sched_list) and a list
// (env_free_list, page_free_list), each element linked through fields of its own.
module Queue {
  import opened Environments

  // NULL or an element.
  const NULL: int := -1

  // The address of a pointer to an element: the head's first field or an element's next.  The
  // fields of an element that was never linked are zero.
  datatype Loc = Null | First | NextOf(e: nat)

  ghost predicate LinkedAt(s: seq<nat>, i: nat, next: seq<int>, prev: seq<Loc>)
    requires i < |s| && |next| == |prev|
  {
    && s[i] < |next|
    && next[s[i]] == (if i + 1 < |s| then s[i + 1] else NULL)
    && prev[s[i]] == (if i == 0 then First else NextOf(s[i - 1]))
  }

  // The elements of queue s, linked in order: each next points at the element after, each
  // prev at the pointer that points here.
  ghost predicate Linked(s: seq<nat>, first: int, next: seq<int>, prev: seq<Loc>) {
    && |next| == |prev| && Distinct(s)
    && first == (if s == [] then NULL else s[0])
    && forall i :: 0 <= i < |s| ==> LinkedAt(s, i, next, prev)
  }

  function LastLoc(s: seq<nat>): Loc { if s == [] then First else NextOf(s[|s| - 1]) }

  lemma {:induction false} WithoutAt(s: seq<nat>, i: nat)
    requires Distinct(s) && i < |s|
    ensures Without(s, s[i]) == s[..i] + s[i + 1..]
  {
    if i > 0 {
      WithoutAt(s[1..], i - 1);
      assert s[1..][..i - 1] == s[1..i];
      assert [s[0]] + s[1..i] == s[..i];
    }
  }

  // What the fields of the element at i say when all is linked.
  function Before(s: seq<nat>, i: nat): Loc
    requires i < |s|
  {
    if i == 0 then First else NextOf(s[i - 1])
  }

  function After(s: seq<nat>, i: nat): int
    requires i < |s|
  {
    if i + 1 < |s| then s[i + 1] else NULL
  }

  lemma StillDistinct(s: seq<nat>, i: nat)
    requires Distinct(s) && i < |s|
    ensures Distinct(s[..i] + s[i + 1..])
    ensures LastLoc(s[..i] + s[i + 1..]) == if After(s, i) == NULL then Before(s, i) else LastLoc(s)
    ensures var t := s[..i] + s[i + 1..]; t != [] ==> t[0] == if i == 0 then s[1] else s[0]
  {
    var t := s[..i] + s[i + 1..];
    forall j, k | 0 <= j < k < |t| ensures t[j] != t[k] {
      assert t[j] == s[if j < i then j else j + 1] && t[k] == s[if k < i then k else k + 1];
    }
  }

  lemma UnlinkKeepsOne(s: seq<nat>, i: nat, t: seq<nat>, j: nat, next: seq<int>, prev: seq<Loc>, next': seq<int>, prev': seq<Loc>)
    requires Distinct(s) && i < |s| && t == s[..i] + s[i + 1..] && j < |t| && |next| == |prev|
    requires LinkedAt(s, if j < i then j else j + 1, next, prev)
    requires |next'| == |next| && |prev'| == |prev|
    requires forall x: nat :: x < |next| ==> next'[x] == if Before(s, i) == NextOf(x) then After(s, i) else next[x]
    requires forall x: nat :: x < |prev| ==> prev'[x] == if After(s, i) == x then Before(s, i) else prev[x]
    ensures LinkedAt(t, j, next', prev')
  {
    var k := if j < i then j else j + 1;
    assert t[j] == s[k];
    assert j + 1 < |t| ==> t[j + 1] == if j + 1 < i then s[j + 1] else s[j + 2];
    assert j > 0 ==> t[j - 1] == if j - 1 < i then s[j - 1] else s[j];
  }

  // What either remove macro does to the links.
  lemma UnlinkKeeps(s: seq<nat>, i: nat, first: int, next: seq<int>, prev: seq<Loc>, first': int, next': seq<int>, prev': seq<Loc>)
    requires Linked(s, first, next, prev) && i < |s|
    requires first' == if i == 0 then After(s, i) else first
    requires |next'| == |next| && |prev'| == |prev|
    requires forall x: nat :: x < |next| ==> next'[x] == if Before(s, i) == NextOf(x) then After(s, i) else next[x]
    requires forall x: nat :: x < |prev| ==> prev'[x] == if After(s, i) == x then Before(s, i) else prev[x]
    ensures Linked(Without(s, s[i]), first', next', prev')
    ensures LastLoc(Without(s, s[i])) == if After(s, i) == NULL then Before(s, i) else LastLoc(s)
  {
    WithoutAt(s, i);
    var t := Without(s, s[i]);
    StillDistinct(s, i);
    forall j | 0 <= j < |t| ensures LinkedAt(t, j, next', prev') { UnlinkKeepsOne(s, i, t, j, next, prev, next', prev'); }
  }

  // What an insertion at the end does.
  lemma AppendKeeps(s: seq<nat>, e: nat, first: int, next: seq<int>, prev: seq<Loc>, first': int, next': seq<int>, prev': seq<Loc>)
    requires Linked(s, first, next, prev) && e < |next| && e !in s
    requires first' == if s == [] then e else first
    requires |next'| == |next| && |prev'| == |prev|
    requires forall x: nat :: x < |next| ==> next'[x] == if LastLoc(s) == NextOf(x) then e else if x == e then NULL else next[x]
    requires forall x: nat :: x < |prev| ==> prev'[x] == if x == e then LastLoc(s) else prev[x]
    ensures Linked(s + [e], first', next', prev')
  {
    var t := s + [e];
    forall j | 0 <= j < |t| ensures LinkedAt(t, j, next', prev') {
      if j < |s| { assert LinkedAt(s, j, next, prev) && s[j] in s; }
    }
    assert Distinct(t);
  }

  function NextAfter(s: seq<nat>, i: nat, e: nat, x: nat, next: seq<int>): int
    requires i <= |s| && x < |next|
  {
    if x == e then (if i < |s| then s[i] else NULL) else if i > 0 && x == s[i - 1] then e else next[x]
  }

  function PrevAfter(s: seq<nat>, i: nat, e: nat, x: nat, prev: seq<Loc>): Loc
    requires i <= |s| && x < |prev|
  {
    if x == e then (if i == 0 then First else NextOf(s[i - 1])) else if i < |s| && x == s[i] then NextOf(e) else prev[x]
  }

  // What an insertion behind the first i elements does (all of them follow when i is 0).
  lemma InsertKeeps(s: seq<nat>, i: nat, e: nat, first: int, next: seq<int>, prev: seq<Loc>, first': int, next': seq<int>, prev': seq<Loc>)
    requires Linked(s, first, next, prev) && i <= |s| && e < |next| && e !in s
    requires first' == if i == 0 then e else first
    requires |next'| == |next| && |prev'| == |prev|
    requires forall x: nat :: x < |next| ==> next'[x] == NextAfter(s, i, e, x, next)
    requires forall x: nat :: x < |prev| ==> prev'[x] == PrevAfter(s, i, e, x, prev)
    ensures Linked(s[..i] + [e] + s[i..], first', next', prev')
  {
    var t := s[..i] + [e] + s[i..];
    forall j | 0 <= j < |t| ensures LinkedAt(t, j, next', prev') {
      var k := if j < i then j else j - 1;
      if j != i { assert t[j] == s[k] && s[k] in s && LinkedAt(s, k, next, prev); }
      assert j + 1 < |t| ==> t[j + 1] == if j + 1 < i then s[j + 1] else if j + 1 == i then e else s[j];
      assert j > 0 ==> t[j - 1] == if j - 1 < i then s[j - 1] else if j - 1 == i then e else s[j - 2];
    }
    assert Distinct(t);
  }

  class TailQueue {
    var first: int
    var last: Loc
    const next: array<int>
    const prev: array<Loc>
    ghost var queued: set<nat>     // every element put on the queue so far

    ghost predicate Is(s: seq<nat>)
      reads this, next, prev
    {
      Linked(s, first, next[..], prev[..]) && last == LastLoc(s)
    }

    predicate InRange(e: nat)
      reads this
    {
      e < next.Length == prev.Length
    }

    predicate HeadOk()
      reads this
    {
      (first == NULL || 0 <= first < next.Length) && last != Null && (last.NextOf? ==> last.e < next.Length)
    }

    // Where an element's fields point, there are elements.
    predicate InArrays(e: nat)
      reads this, next, prev
      requires InRange(e)
    {
      (next[e] == NULL || 0 <= next[e] < next.Length) && (prev[e].NextOf? ==> prev[e].e < next.Length)
    }

    ghost predicate Sane(e: nat)
      reads this, next, prev
      requires InRange(e)
    {
      && InArrays(e) && (next[e] != NULL ==> next[e] in queued) && (prev[e].NextOf? ==> prev[e].e in queued)
      && (prev[e] == Null <==> e !in queued) && (e !in queued ==> next[e] == NULL)
    }

    // Every pointer is NULL or leads to an element that was queued at some time, and an element
    // still has its NULLs exactly if it never was.
    ghost predicate Bounded()
      reads this, next, prev
    {
      && next.Length == prev.Length && HeadOk()
      && (first != NULL ==> first in queued) && (last.NextOf? ==> last.e in queued)
      && (forall e: nat :: e < next.Length ==> Sane(e))
    }

    // TAILQ_INIT.  It sets the head only; the elements are zeroed memory.
    constructor (n: nat)
      ensures Is([]) && Bounded() && queued == {} && next.Length == n && fresh(next) && fresh(prev)
      ensures forall e: nat :: e < n ==> next[e] == NULL && prev[e] == Null
    {
      first, last := NULL, First;
      next := new int[n](_ => NULL);
      prev := new Loc[n](_ => Null);
      queued := {};
    }

    // *at = v
    method Assign(at: Loc, v: int)
      requires at != Null && (at.NextOf? ==> at.e < next.Length)
      modifies `first, next
      ensures first == if at == First then v else old(first)
      ensures forall x: nat :: x < next.Length ==> next[x] == if at == NextOf(x) then v else old(next[x])
    {
      if at == First { first := v; } else { next[at.e] := v; }
    }

    // TAILQ_INSERT_TAIL.  On a queue whose last element is already e it ties e to itself.
    method InsertTail(e: nat, ghost s: seq<nat>)
      requires InRange(e) && HeadOk()
      modifies this, next, prev
      ensures queued == old(queued) + {e} && (old(Bounded()) ==> Bounded())
      ensures old(Is(s)) && e !in s ==> Is(s + [e]) && next[e] == NULL && prev[e] == LastLoc(s)
      ensures old(Is(s)) && e !in s ==>
        forall x: nat :: x < next.Length && x !in s && x != e ==> next[x] == old(next[x]) && prev[x] == old(prev[x])
      ensures old(Is(s)) && s != [] && e == s[|s| - 1] ==> next[e] == e
    {
      next[e] := NULL;
      prev[e] := last;
      Assign(last, e);
      last := NextOf(e);
      queued := queued + {e};
      if old(Is(s)) && e !in s {
        assert s != [] ==> LinkedAt(s, |s| - 1, old(next[..]), old(prev[..]));
        AppendKeeps(s, e, old(first), old(next[..]), old(prev[..]), first, next[..], prev[..]);
      }
      if old(Bounded()) {
        forall x: nat | x < next.Length ensures Sane(x) { assert old(Sane(x)); }
      }
    }

    // TAILQ_INSERT_HEAD
    method InsertHead(e: nat, ghost s: seq<nat>)
      requires InRange(e) && HeadOk()
      modifies this, next, prev
      ensures queued == old(queued) + {e} && (old(Bounded()) ==> Bounded())
      ensures old(Is(s)) && e !in s ==> Is([e] + s)
    {
      next[e] := first;
      if first != NULL { prev[first] := NextOf(e); } else { last := NextOf(e); }
      first := e;
      prev[e] := First;
      queued := queued + {e};
      if old(Is(s)) && e !in s {
        assert s != [] ==> LinkedAt(s, 0, old(next[..]), old(prev[..]));
        InsertKeeps(s, 0, e, old(first), old(next[..]), old(prev[..]), first, next[..], prev[..]);
        assert s[..0] + [e] + s[0..] == [e] + s;
      }
      if old(Bounded()) {
        forall x: nat | x < next.Length ensures Sane(x) { assert old(Sane(x)); }
      }
    }

    // TAILQ_REMOVE, whatever e is.  fault: its last assignment goes through NULL.
    method Remove(e: nat) returns (fault: bool)
      requires InRange(e) && InArrays(e)
      modifies this, next, prev
      ensures fault <==> old(prev[e]) == Null
      ensures queued == old(queued) && (old(Bounded()) && !fault ==> Bounded())
      ensures first == if old(prev[e]) == First then old(next[e]) else old(first)
      ensures last == if old(next[e]) == NULL then old(prev[e]) else old(last)
      ensures forall x: nat :: x < next.Length ==> next[x] == if old(prev[e]) == NextOf(x) then old(next[e]) else old(next[x])
      ensures forall x: nat :: x < prev.Length ==> prev[x] == if old(next[e]) == x then old(prev[e]) else old(prev[x])
    {
      var after, before := next[e], prev[e];
      if after != NULL { prev[after] := before; } else { last := before; }
      if before == Null { return true; }
      Assign(before, after);
      fault := false;
      if old(Bounded()) {
        assert old(Sane(e));
        forall x: nat | x < next.Length ensures Sane(x) { assert old(Sane(x)); }
      }
    }

    lemma MemberIsInArrays(s: seq<nat>, e: nat)
      requires InRange(e) && Is(s) && e in s
      ensures InArrays(e) && prev[e] != Null
    {
      var i :| 0 <= i < |s| && s[i] == e;
      assert LinkedAt(s, i, next[..], prev[..]);
      assert i > 0 ==> LinkedAt(s, i - 1, next[..], prev[..]);
      assert i + 1 < |s| ==> LinkedAt(s, i + 1, next[..], prev[..]);
    }

    // TAILQ_REMOVE of an element that may or may not be on the queue: it stores through NULL
    // exactly when the element was never queued, and has then taken the head's last pointer with it.
    method RemoveAny(e: nat, ghost s: seq<nat>) returns (fault: bool)
      requires InRange(e) && Bounded()
      modifies this, next, prev
      ensures fault <==> old(prev[e]) == Null
      ensures fault <==> e !in old(queued)
      ensures queued == old(queued) && (!fault ==> Bounded())
      ensures fault ==> last == Null && first == old(first) && next[..] == old(next[..]) && prev[..] == old(prev[..])
      ensures old(Is(s)) && e in s ==> !fault && Is(Without(s, e)) && next[e] == old(next[e]) && prev[e] == old(prev[e])
    {
      assert Sane(e);
      ghost var member, i: nat := Is(s) && e in s, 0;
      if member {
        MemberIsInArrays(s, e);
        i :| 0 <= i < |s| && s[i] == e;
        assert LinkedAt(s, i, next[..], prev[..]);
        assert i > 0 ==> LinkedAt(s, i - 1, next[..], prev[..]);
        assert i + 1 < |s| ==> LinkedAt(s, i + 1, next[..], prev[..]);
      }
      fault := Remove(e);
      if member {
        UnlinkKeeps(s, i, old(first), old(next[..]), old(prev[..]), first, next[..], prev[..]);
      }
    }

    lemma HeadIsOk(s: seq<nat>)
      requires Is(s)
      ensures HeadOk()
    {
      assert s != [] ==> LinkedAt(s, 0, next[..], prev[..]) && LinkedAt(s, |s| - 1, next[..], prev[..]);
    }

    // TAILQ_REMOVE of a member.
    method RemoveMember(e: nat, ghost s: seq<nat>)
      requires InRange(e) && Is(s) && e in s
      modifies this, next, prev
      ensures Is(Without(s, e)) && next[e] == old(next[e]) && prev[e] == old(prev[e])
      ensures queued == old(queued) && (old(Bounded()) ==> Bounded())
    {
      ghost var i :| 0 <= i < |s| && s[i] == e;
      assert LinkedAt(s, i, next[..], prev[..]);
      assert i > 0 ==> LinkedAt(s, i - 1, next[..], prev[..]);
      assert i + 1 < |s| ==> LinkedAt(s, i + 1, next[..], prev[..]);
      MemberIsInArrays(s, e);
      var _ := Remove(e);
      UnlinkKeeps(s, i, old(first), old(next[..]), old(prev[..]), first, next[..], prev[..]);
    }

    // ... its last call: b still points where it once stood.
    method RemoveGone(t: seq<nat>, b: nat, u: seq<nat>, c: nat)
      requires Is(t + u + [c]) && InRange(b)
      requires next[b] == (if u == [] then NULL else u[0]) && prev[b] == LastLoc(t)
      modifies this, next, prev
      ensures Is(if u == [] then t else t + u + [c])
    {
      ghost var s := t + u + [c];
      assert LinkedAt(s, |t|, next[..], prev[..]);
      assert t != [] ==> LinkedAt(s, |t| - 1, next[..], prev[..]);
      ghost var first', next', prev' := first, next[..], prev[..];
      var _ := Remove(b);
      if u == [] {
        assert s == t + [c] && s[..|t|] + s[|t| + 1..] == t;
        WithoutAt(s, |t|);
        UnlinkKeeps(s, |t|, first', next', prev', first, next[..], prev[..]);
      } else {
        assert next[..] == next' && prev[..] == prev' && first == first';
      }
    }

    // What the macro does to an element that is no longer on the queue: b is taken off, c is put
    // at the end, and b is taken off again.  If b was the last element, the second removal takes
    // c off and leaves it nowhere; otherwise it changes nothing.
    method SecondRemovalLosesAnother(t: seq<nat>, b: nat, u: seq<nat>, c: nat)
      requires Is(t + [b] + u) && InRange(c) && c !in t + [b] + u
      modifies this, next, prev
      ensures Is(if u == [] then t else t + u + [c])
    {
      var s := t + [b] + u;
      assert LinkedAt(s, |t|, next[..], prev[..]);
      WithoutAt(s, |t|);
      assert s[..|t|] == t && s[|t| + 1..] == u;
      RemoveMember(b, s);
      assert next[b] == (if u == [] then NULL else u[0]) && prev[b] == LastLoc(t);
      assert b !in t && b !in u;
      HeadIsOk(t + u);
      InsertTail(c, t + u);
      RemoveGone(t, b, u, c);
    }
  }

  class List {
    var first: int
    const next: array<int>
    const prev: array<Loc>

    ghost predicate Is(s: seq<nat>)
      reads this, next, prev
    {
      Linked(s, first, next[..], prev[..])
    }

    // LIST_INIT
    constructor (n: nat)
      ensures Is([]) && next.Length == n && fresh(next) && fresh(prev)
    {
      first := NULL;
      next := new int[n](_ => NULL);
      prev := new Loc[n](_ => Null);
    }

    // LIST_INSERT_HEAD
    method InsertHead(e: nat, ghost s: seq<nat>)
      requires e < next.Length && Is(s) && e !in s
      modifies this, next, prev
      ensures Is([e] + s)
    {
      assert s != [] ==> LinkedAt(s, 0, next[..], prev[..]);
      next[e] := first;
      if first != NULL { prev[first] := NextOf(e); }
      first := e;
      prev[e] := First;
      InsertKeeps(s, 0, e, old(first), old(next[..]), old(prev[..]), first, next[..], prev[..]);
      assert s[..0] + [e] + s[0..] == [e] + s;
    }

    // LIST_INSERT_AFTER
    method InsertAfter(at: nat, e: nat, ghost s: seq<nat>, ghost i: nat)
      requires e < next.Length && Is(s) && e !in s && i < |s| && s[i] == at
      modifies this, next, prev
      ensures Is(s[..i + 1] + [e] + s[i + 1..])
    {
      assert LinkedAt(s, i, next[..], prev[..]) && (i + 1 < |s| ==> LinkedAt(s, i + 1, next[..], prev[..]));
      next[e] := next[at];
      if next[at] != NULL { prev[next[at]] := NextOf(e); }
      next[at] := e;
      prev[e] := NextOf(at);
      InsertKeeps(s, i + 1, e, old(first), old(next[..]), old(prev[..]), first, next[..], prev[..]);
    }

    // LIST_REMOVE
    method Remove(e: nat, ghost s: seq<nat>)
      requires Is(s) && e in s
      modifies this, next, prev
      ensures Is(Without(s, e))
    {
      ghost var i :| 0 <= i < |s| && s[i] == e;
      assert LinkedAt(s, i, next[..], prev[..]);
      assert i > 0 ==> LinkedAt(s, i - 1, next[..], prev[..]);
      assert i + 1 < |s| ==> LinkedAt(s, i + 1, next[..], prev[..]);
      var after, before := next[e], prev[e];
      if after != NULL { prev[after] := before; }
      if before == First { first := after; } else { next[before.e] := after; }
      UnlinkKeeps(s, i, old(first), old(next[..]), old(prev[..]), first, next[..], prev[..]);
    }
  }
}
