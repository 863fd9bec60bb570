// The first stack page of a spawned program (init_stack of user/lib/spawn.c).
module ArgStack {
  const BY2PG: nat := 4096
  const UTOP: nat := 0x7f40_0000
  const USTACKTOP: nat := UTOP - 2 * BY2PG
  const BASE: nat := USTACKTOP - BY2PG    // where the child sees the page
  const E_NO_MEM: int := -4

  type byte = n: int | 0 <= n < 256

  // A C string's characters.
  predicate Text(s: seq<byte>) { forall i :: 0 <= i < |s| ==> s[i] != 0 }

  // The strings one after another, each with its NUL.
  function Joined(argv: seq<seq<byte>>): seq<byte> {
    if argv == [] then [] else argv[0] + [0] + Joined(argv[1..])
  }

  function Round4(n: nat): (r: nat)
    ensures n <= r < n + 4 && r % 4 == 0
  {
    (n + 3) / 4 * 4
  }

  // Everything has to fit: the strings, argc, argv, the argument pointers and one more.
  predicate Fits(argv: seq<seq<byte>>) { Round4(|Joined(argv)|) + 4 * (|argv| + 3) <= BY2PG }

  // ---- reading the page as the child does ----

  function WordAt(page: seq<byte>, at: nat): nat
    requires at + 4 <= |page|
  {
    page[at] as nat + 0x100 * page[at + 1] as nat + 0x1_0000 * page[at + 2] as nat + 0x100_0000 * page[at + 3] as nat
  }

  function StringAt(page: seq<byte>, at: nat): seq<byte>
    decreases if at < |page| then |page| - at else 0
  {
    if at >= |page| || page[at] == 0 then [] else [page[at]] + StringAt(page, at + 1)
  }

  // Pointers of the child that lie in the page.
  predicate Inside(a: nat, len: nat) { BASE <= a && a + len <= USTACKTOP }

  // n argument pointers from argument i on, each followed to its string.
  function Strings(page: seq<byte>, args: nat, n: nat): seq<seq<byte>>
    requires |page| == BY2PG && Inside(args, 4 * n)
    decreases n
  {
    if n == 0 then []
    else
      var p := WordAt(page, args - BASE);
      [StringAt(page, if p >= BASE then p - BASE else BY2PG)] + Strings(page, args + 4, n - 1)
  }

  // argc at the stack pointer, argv above it.
  predicate Decodable(page: seq<byte>, sp: nat) {
    |page| == BY2PG && Inside(sp, 8) && Inside(WordAt(page, sp + 4 - BASE), 4 * WordAt(page, sp - BASE))
  }

  function Decode(page: seq<byte>, sp: nat): seq<seq<byte>>
    requires Decodable(page, sp)
  {
    Strings(page, WordAt(page, sp + 4 - BASE), WordAt(page, sp - BASE))
  }

  lemma Aligned(room: nat, argc: nat)
    requires room % 4 == 0
    ensures (USTACKTOP - room - 4 * (argc + 3)) % 4 == 0
  {
  }

  // The child finds these arguments.
  ghost predicate Shows(page: seq<byte>, sp: nat, argv: seq<seq<byte>>) {
    Decodable(page, sp) && Decode(page, sp) == argv
  }

  // ---- strings in the page ----

  lemma {:induction false} StringFound(page: seq<byte>, at: nat, s: seq<byte>)
    requires Text(s) && at + |s| < |page| && page[at .. at + |s|] == s && page[at + |s|] == 0
    ensures StringAt(page, at) == s
    decreases |s|
  {
    if s != [] {
      assert page[at] == page[at .. at + |s|][0] == s[0];
      assert page[at + 1 .. at + 1 + |s[1..]|] == page[at .. at + |s|][1..] == s[1..];
      StringFound(page, at + 1, s[1..]);
      assert s == [s[0]] + s[1..];
    }
  }

  lemma {:induction false} JoinedConcat(a: seq<seq<byte>>, b: seq<seq<byte>>)
    ensures Joined(a + b) == Joined(a) + Joined(b)
  {
    if a == [] {
      assert a + b == b;
    } else {
      assert (a + b)[1..] == a[1..] + b;
      JoinedConcat(a[1..], b);
    }
  }

  lemma JoinedSplit(argv: seq<seq<byte>>, i: nat)
    requires i < |argv|
    ensures Joined(argv[..i + 1]) == Joined(argv[..i]) + argv[i] + [0]
    ensures |Joined(argv[..i + 1])| <= |Joined(argv)|
    ensures Joined(argv)[|Joined(argv[..i])| .. |Joined(argv[..i + 1])|] == argv[i] + [0]
  {
    assert argv[..i + 1] == argv[..i] + [argv[i]];
    var one := [argv[i]];
    assert one[1..] == [];
    assert Joined(one) == argv[i] + [0] + Joined(one[1..]);
    JoinedConcat(argv[..i], [argv[i]]);
    assert argv == argv[..i + 1] + argv[i + 1..];
    JoinedConcat(argv[..i + 1], argv[i + 1..]);
  }

  // Where string i starts, from the start of the page.
  function Offset(argv: seq<seq<byte>>, i: nat): int
    requires i <= |argv|
  {
    BY2PG - |Joined(argv)| + |Joined(argv[..i])|
  }

  // The page once filled: the strings at its end, below them the pointers to them.
  ghost predicate Filled(page: seq<byte>, argv: seq<seq<byte>>, args: nat) {
    && |page| == BY2PG && |Joined(argv)| <= BY2PG && args + 4 * |argv| <= BY2PG - |Joined(argv)|
    && page[BY2PG - |Joined(argv)|..] == Joined(argv)
    && forall i :: 0 <= i < |argv| ==> WordAt(page, args + 4 * i) == BASE + Offset(argv, i)
  }

  lemma SliceOfTail(page: seq<byte>, start: nat, skip: nat, n: nat)
    requires start + skip + n <= |page|
    ensures page[start..][skip .. skip + n] == page[start + skip .. start + skip + n]
  {
  }

  lemma OneFound(page: seq<byte>, argv: seq<seq<byte>>, i: nat)
    requires |page| == BY2PG && |Joined(argv)| <= BY2PG && page[BY2PG - |Joined(argv)|..] == Joined(argv)
    requires i < |argv| && Text(argv[i])
    ensures 0 <= Offset(argv, i) && StringAt(page, Offset(argv, i)) == argv[i]
  {
    JoinedSplit(argv, i);
    var start, skip, s := BY2PG - |Joined(argv)|, |Joined(argv[..i])|, argv[i];
    SliceOfTail(page, start, skip, |s| + 1);
    var part := page[start + skip .. start + skip + |s| + 1];
    assert part == s + [0];
    assert part[|s|] == page[start + skip + |s|];
    assert page[start + skip .. start + skip + |s|] == part[..|s|] == s;
    StringFound(page, start + skip, s);
  }

  lemma {:induction false} StringsFound(page: seq<byte>, argv: seq<seq<byte>>, args: nat, i: nat)
    requires Filled(page, argv, args) && i <= |argv| && forall k :: 0 <= k < |argv| ==> Text(argv[k])
    ensures Strings(page, BASE + args + 4 * i, |argv| - i) == argv[i..]
    decreases |argv| - i
  {
    if i < |argv| {
      StringsFound(page, argv, args, i + 1);
      OneFound(page, argv, i);
      assert argv[i..] == [argv[i]] + argv[i + 1..];
    }
  }

  // argc and argv below the pointers make the page decodable.
  lemma FrameDecodes(page: seq<byte>, argv: seq<seq<byte>>, args: nat)
    requires Filled(page, argv, args) && 8 <= args && forall k :: 0 <= k < |argv| ==> Text(argv[k])
    requires WordAt(page, args - 8) == |argv| && WordAt(page, args - 4) == BASE + args
    ensures Shows(page, BASE + args - 8, argv)
  {
    StringsFound(page, argv, args, 0);
    assert argv[0..] == argv;
  }

  // ---- init_stack ----

  class StackPage {
    var page: array<byte>

    // A word stored little-endian.
    method StoreWord(at: nat, v: nat)
      requires at + 4 <= page.Length && v < 0x1_0000_0000
      modifies page
      ensures WordAt(page[..], at) == v
      ensures forall i :: 0 <= i < page.Length && !(at <= i < at + 4) ==> page[i] == old(page[i])
    {
      var v1 := v / 0x100;
      var v2 := v1 / 0x100;
      page[at], page[at + 1], page[at + 2], page[at + 3] := v % 0x100, v1 % 0x100, v2 % 0x100, v2 / 0x100;
    }

    // Copies the strings, each with its NUL, to the page from offset strings on.
    method CopyStrings(argv: seq<seq<byte>>, strings: nat)
      requires page.Length == BY2PG && strings + |Joined(argv)| == BY2PG
      modifies page
      ensures page[strings..] == Joined(argv)
    {
      var ctemp := strings;
      var i := 0;
      assert argv[..0] == [];
      while i < |argv|
        invariant i <= |argv| && ctemp == strings + |Joined(argv[..i])| <= BY2PG
        invariant page[strings..ctemp] == Joined(argv[..i])
      {
        JoinedSplit(argv, i);
        ghost var start := ctemp;
        var j := 0;
        while j < |argv[i]|
          invariant j <= |argv[i]| && ctemp == start + j && ctemp + |argv[i]| - j < BY2PG
          invariant page[strings..ctemp] == Joined(argv[..i]) + argv[i][..j]
        {
          page[ctemp] := argv[i][j];
          ctemp := ctemp + 1;
          j := j + 1;
        }
        assert argv[i][..j] == argv[i];
        page[ctemp] := 0;
        ctemp := ctemp + 1;
        i := i + 1;
      }
      assert argv[..i] == argv;
    }

    // The pointers args[0..argc-1]; ctemp: the child's address past the last string.
    method StorePointers(argv: seq<seq<byte>>, args: nat, strings: nat) returns (ctemp: nat)
      requires page.Length == BY2PG && strings + |Joined(argv)| == BY2PG && args + 4 * |argv| <= strings
      modifies page
      ensures ctemp == USTACKTOP && page[strings..] == old(page[strings..])
      ensures forall i :: 0 <= i < |argv| ==> WordAt(page[..], args + 4 * i) == BASE + Offset(argv, i)
    {
      ctemp := BASE + strings;
      var i := 0;
      assert argv[..0] == [];
      while i < |argv|
        invariant i <= |argv| && ctemp == BASE + strings + |Joined(argv[..i])| <= USTACKTOP
        invariant forall k :: strings <= k < BY2PG ==> page[k] == old(page[k])
        invariant forall k :: 0 <= k < i ==> WordAt(page[..], args + 4 * k) == BASE + Offset(argv, k)
      {
        JoinedSplit(argv, i);
        StoreWord(args + 4 * i, ctemp);
        ctemp := ctemp + |argv[i]| + 1;
        i := i + 1;
      }
      assert argv[..i] == argv;
    }

    // The word after the pointers, and below them argv and argc.
    method StoreFrame(argv: seq<seq<byte>>, args: nat, end: nat)
      requires page.Length == BY2PG && 8 <= args && args + 4 * |argv| + 4 <= BY2PG - |Joined(argv)| && end < 0x1_0000_0000
      requires Filled(page[..], argv, args)
      modifies page
      ensures Filled(page[..], argv, args)
      ensures WordAt(page[..], args - 8) == |argv| && WordAt(page[..], args - 4) == BASE + args
      ensures WordAt(page[..], args + 4 * |argv|) == end
    {
      var argc := |argv|;
      StoreWord(args + 4 * argc, end);
      StoreWord(args - 4, BASE + args);
      StoreWord(args - 8, argc);
      forall i | 0 <= i < |argv| ensures WordAt(page[..], args + 4 * i) == old(WordAt(page[..], args + 4 * i)) {}
      assert page[BY2PG - |Joined(argv)|..] == old(page[BY2PG - |Joined(argv)|..]);
    }

    // The strings, the pointers to them, and argc and argv below.
    method FillPage(argv: seq<seq<byte>>, args: nat, strings: nat) returns (sp: nat)
      requires page.Length == BY2PG && strings + |Joined(argv)| == BY2PG && 8 <= args && args + 4 * |argv| + 4 <= strings
      requires forall i :: 0 <= i < |argv| ==> Text(argv[i])
      modifies page
      ensures sp == BASE + args - 8 && Shows(page[..], sp, argv) && WordAt(page[..], args + 4 * |argv|) == USTACKTOP - 1
    {
      CopyStrings(argv, strings);
      var ctemp := StorePointers(argv, args, strings);
      StoreFrame(argv, args, ctemp - 1);
      sp := BASE + args - 8;
      FrameDecodes(page[..], argv, args);
    }

    // How many strings there are and how much space they take.
    method Total(argv: seq<seq<byte>>) returns (tot: nat, argc: nat)
      ensures tot == |Joined(argv)| && argc == |argv|
    {
      tot, argc := 0, 0;
      assert argv[..0] == [];
      while argc < |argv|
        invariant argc <= |argv| && tot == |Joined(argv[..argc])|
      {
        JoinedSplit(argv, argc);
        tot := tot + |argv[argc]| + 1;
        argc := argc + 1;
      }
      assert argv[..argc] == argv;
    }

    // alloc, give, drop: what the system calls answer that make the page, map it into the child
    // and unmap it here.
    method InitStack(argv: seq<seq<byte>>, alloc: int, give: int, drop: int) returns (r: int, sp: nat)
      requires page.Length == BY2PG && forall i :: 0 <= i < |argv| ==> Text(argv[i])
      modifies page
      ensures r == if !Fits(argv) then E_NO_MEM else if alloc < 0 then alloc else if give < 0 then give else if drop < 0 then drop else 0
      ensures !Fits(argv) || alloc < 0 ==> page[..] == old(page[..])
      ensures Fits(argv) && alloc >= 0 ==> Shows(page[..], sp, argv) && sp % 4 == 0
      // args[argc] is not the null pointer it is meant to be: it points at the page's last byte.
      ensures Fits(argv) && alloc >= 0 ==> sp == USTACKTOP - Round4(|Joined(argv)|) - 4 * (|argv| + 3)
      ensures Fits(argv) && alloc >= 0 ==> WordAt(page[..], BY2PG - Round4(|Joined(argv)|) - 4) == USTACKTOP - 1
    {
      var tot, argc := Total(argv);
      if Round4(tot) + 4 * (argc + 3) > BY2PG { return E_NO_MEM, 0; }
      if alloc < 0 { return alloc, 0; }
      var room := Round4(tot);
      sp := FillPage(argv, BY2PG - room - 4 * (argc + 1), BY2PG - tot);
      Aligned(room, argc);
      if give < 0 { return give, sp; }
      if drop < 0 { return drop, sp; }
      r := 0;
    }
  }
}
