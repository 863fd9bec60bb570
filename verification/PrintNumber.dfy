// print_num of lib/print.c: digits, sign and padding built backwards in a buffer and
// reversed in place, against what the text should be and what it parses to.
module PrintNumber {
  const ULONG: nat := 0x1_0000_0000

  function Digit(v: nat, upcase: bool): char
    requires v < 16
  {
    if v <= 9 then '0' + v as char else if upcase then 'A' + (v - 10) as char else 'a' + (v - 10) as char
  }

  // The numeral, most significant digit first.
  function Digits(u: nat, base: nat, upcase: bool): (s: seq<char>)
    requires 2 <= base <= 16
    ensures |s| > 0
  {
    if u < base then [Digit(u, upcase)] else Digits(u / base, base, upcase) + [Digit(u % base, upcase)]
  }

  function Fill(c: char, n: int): (s: seq<char>)
    ensures |s| == if n < 0 then 0 else n
  {
    if n <= 0 then [] else seq(n, _ => c)
  }

  function Signed(neg: bool, s: seq<char>): seq<char> { if neg then ['-'] + s else s }

  // A numeral with its sign, padded on the right with blanks, or on the left, where zeros
  // go between the sign and the digits.
  function Laid(d: seq<char>, neg: bool, length: nat, ladjust: bool, padc: char): seq<char> {
    var pad := length - |Signed(neg, d)|;
    if ladjust then Signed(neg, d) + Fill(' ', pad)
    else if padc == '0' then Signed(neg, Fill('0', pad) + d)
    else Fill(padc, pad) + Signed(neg, d)
  }

  // The text of a number.
  function Text(u: nat, base: nat, neg: bool, length: nat, ladjust: bool, padc: char, upcase: bool): seq<char>
    requires 2 <= base <= 16
  {
    Laid(Digits(u, base, upcase), neg, length, ladjust, padc)
  }

  function Reversed(s: seq<char>): (r: seq<char>)
    ensures |r| == |s| && forall i :: 0 <= i < |s| ==> r[i] == s[|s| - 1 - i]
  {
    seq(|s|, i requires 0 <= i < |s| => s[|s| - 1 - i])
  }

  function Pow(b: nat, e: nat): nat { if e == 0 then 1 else b * Pow(b, e - 1) }

  lemma Halves(u: nat, base: nat)
    requires base >= 2
    ensures u / base <= u / 2
  {
    var q := u / base;
    assert u == q * base + u % base;
    assert q * base >= q * 2;
  }

  // A 32-bit number has at most 32 digits in any base.
  lemma {:induction false} FewDigits(u: nat, base: nat, upcase: bool, n: nat)
    requires 2 <= base <= 16 && u < Pow(2, n) && n > 0
    ensures |Digits(u, base, upcase)| <= n
    decreases n
  {
    if u >= base {
      assert n > 1;
      assert u / base <= u / 2 by { Halves(u, base); }
      FewDigits(u / base, base, upcase, n - 1);
    }
  }

  lemma Pow32()
    ensures Pow(2, 32) == ULONG
  {
    assert Pow(2, 8) == 256;
    assert Pow(2, 16) == 65536;
    assert Pow(2, 24) == 0x100_0000;
  }

  // ---- the buffer ----

  lemma Smallest(u: nat, base: nat)
    requires base >= 2 && u / base == 0
    ensures u < base && u % base == u
  {
    assert u == u / base * base + u % base;
  }

  lemma Larger(u: nat, base: nat)
    requires base >= 2 && u / base > 0
    ensures u >= base && u / base < u
  {
    Halves(u, base);
    assert u / base * base >= base;
    assert u == u / base * base + u % base;
  }

  lemma ReversedConcat(a: seq<char>, b: seq<char>)
    ensures Reversed(a + b) == Reversed(b) + Reversed(a)
  {
  }

  lemma DigitsSplit(u: nat, base: nat, upcase: bool, rest: seq<char>)
    requires 2 <= base <= 16 && u >= base
    ensures Digits(u, base, upcase) + rest == Digits(u / base, base, upcase) + ([Digit(u % base, upcase)] + rest)
  {
  }

  lemma DigitStep(v: nat, base: nat, upcase: bool, done: seq<char>, all: seq<char>, q: nat, c: char)
    requires 2 <= base <= 16 && Digits(v, base, upcase) + done == all && q == v / base && c == Digit(v % base, upcase)
    ensures q == 0 ==> [c] + done == all
    ensures q > 0 ==> q < v && Digits(q, base, upcase) + ([c] + done) == all && |done| + 1 < |all|
  {
    if q == 0 {
      Smallest(v, base);
    } else {
      Larger(v, base);
      DigitsSplit(v, base, upcase, done);
    }
  }

  // The digits of u, least significant first, at the start of buf.
  method PutDigits(buf: array<char>, u: nat, base: nat, upcase: bool) returns (p: nat)
    requires 2 <= base <= 16 && u < ULONG && buf.Length >= 32
    modifies buf
    ensures p == |Digits(u, base, upcase)| <= 32 && Reversed(buf[..p]) == Digits(u, base, upcase)
  {
    Pow32();
    FewDigits(u, base, upcase, 32);
    ghost var all := Digits(u, base, upcase);
    var v: nat := u;
    p := 0;
    while true
      invariant p < |all| && Digits(v, base, upcase) + Reversed(buf[..p]) == all
      decreases v
    {
      ghost var before := buf[..p];
      var q: nat, c := v / base, Digit(v % base, upcase);
      DigitStep(v, base, upcase, Reversed(before), all, q, c);
      buf[p] := c;
      p := p + 1;
      assert buf[..p] == before + [c];
      ReversedConcat(before, [c]);
      assert Reversed([c]) == [c];
      v := q;
      if v == 0 { break; }
    }
  }

  lemma ReversedTwice(a: seq<char>)
    ensures Reversed(Reversed(a)) == a
  {
  }

  lemma ReversedFill(c: char, n: int)
    ensures Reversed(Fill(c, n)) == Fill(c, n)
  {
  }

  // Swaps buf[..n] end for end.
  method ReverseInPlace(buf: array<char>, n: nat)
    requires n <= buf.Length
    modifies buf
    ensures buf[..n] == Reversed(old(buf[..n])) && buf[n..] == old(buf[n..])
  {
    var begin, end := 0, n - 1;
    while end > begin
      invariant 0 <= begin && begin + end == n - 1 && end <= n - 1
      invariant begin <= end + 2
      invariant forall k :: 0 <= k < begin ==> buf[k] == old(buf[n - 1 - k]) && buf[n - 1 - k] == old(buf[k])
      invariant forall k :: begin <= k <= end ==> buf[k] == old(buf[k])
      invariant forall k :: n <= k < buf.Length ==> buf[k] == old(buf[k])
    {
      buf[begin], buf[end] := buf[end], buf[begin];
      begin := begin + 1;
      end := end - 1;
    }
    forall i | 0 <= i < n ensures buf[..n][i] == old(buf[..n])[n - 1 - i] {
      if i < begin {} else if n - 1 - i < begin { assert buf[n - 1 - (n - 1 - i)] == old(buf[n - 1 - i]); } else { assert i == n - 1 - i; }
    }
  }

  method PadFrom(buf: array<char>, from: nat, to: nat, c: char)
    requires from <= to <= buf.Length
    modifies buf
    ensures buf[..to] == old(buf[..from]) + Fill(c, to - from)
  {
    var i := from;
    while i < to
      invariant from <= i <= to && buf[..i] == old(buf[..from]) + Fill(c, i - from)
    {
      buf[i] := c;
      i := i + 1;
    }
  }

  function Backwards(d: seq<char>, neg: bool, ladjust: bool, padc: char, pad: int): seq<char> {
    if neg && !ladjust && padc == '0' then Reversed(d) + Fill('0', pad) + ['-']
    else Reversed(Signed(neg, d)) + Fill(if ladjust then ' ' else padc, pad)
  }

  // The text backwards: digits and sign, then the padding, the sign last when zeros go
  // between.
  method Build(buf: array<char>, u: nat, base: nat, neg: bool, length0: nat, ladjust: bool, padc: char, upcase: bool)
      returns (length: nat, actual: nat)
    requires 2 <= base <= 16 && u < ULONG && buf.Length == length0 + 70
    modifies buf
    ensures actual == |Signed(neg, Digits(u, base, upcase))| <= length <= buf.Length
    ensures length == if length0 < actual then actual else length0
    ensures buf[..length] == Backwards(Digits(u, base, upcase), neg, ladjust, padc, length - actual)
  {
    length := length0;
    var p := PutDigits(buf, u, base, upcase);
    ghost var d := Digits(u, base, upcase);
    ReversedTwice(buf[..p]);
    assert buf[..p] == Reversed(d);
    if neg {
      ReversedConcat(['-'], d);
      assert Reversed(['-']) == ['-'];
      buf[p] := '-';
      p := p + 1;
      assert buf[..p] == Reversed(d) + ['-'];
    }
    actual := p;
    if length < actual { length := actual; }
    if neg && !ladjust && padc == '0' {
      assert buf[..actual - 1] == Reversed(d);
      PadFrom(buf, actual - 1, length - 1, padc);
      buf[length - 1] := '-';
      assert buf[..length] == buf[..length - 1] + ['-'];
    } else {
      PadFrom(buf, actual, length, if ladjust then ' ' else padc);
    }
  }

  lemma SamePadding(c: char, n: nat, pad: int)
    requires n == if pad < 0 then 0 else pad
    ensures Fill(c, n) == Fill(c, pad)
  {
  }

  lemma TurnedLeft(body: seq<char>, pad: seq<char>, built: seq<char>)
    requires built == Reversed(body) + pad
    ensures Reversed(built[..|body|]) + built[|body|..] == body + pad
  {
    ReversedTwice(body);
    assert built[..|body|] == Reversed(body) && built[|body|..] == pad;
  }

  lemma TurnedZeros(d: seq<char>, n: int)
    ensures Reversed(Reversed(d) + Fill('0', n) + ['-']) == ['-'] + (Fill('0', n) + d)
  {
    ReversedTwice(d);
    ReversedConcat(Reversed(d) + Fill('0', n), ['-']);
    ReversedConcat(Reversed(d), Fill('0', n));
    ReversedFill('0', n);
    assert Reversed(['-']) == ['-'];
  }

  lemma TurnedRight(body: seq<char>, padc: char, n: int)
    ensures Reversed(Reversed(body) + Fill(padc, n)) == Fill(padc, n) + body
  {
    ReversedTwice(body);
    ReversedConcat(Reversed(body), Fill(padc, n));
    ReversedFill(padc, n);
  }

  // What was built, once turned around, is the text.
  lemma Turned(d: seq<char>, neg: bool, length0: nat, ladjust: bool, padc: char,
               built: seq<char>, text: seq<char>, length: nat, actual: nat)
    requires actual == |Signed(neg, d)| <= length == |built| == |text|
    requires length == if length0 < actual then actual else length0
    requires built == Backwards(d, neg, ladjust, padc, length - actual)
    requires text == if ladjust then Reversed(built[..actual]) + built[actual..] else Reversed(built)
    ensures text == Laid(d, neg, length0, ladjust, padc)
  {
    var n, pad := length - actual, length0 - actual;
    var c := if ladjust then ' ' else padc;
    SamePadding(c, n, pad);
    if ladjust {
      TurnedLeft(Signed(neg, d), Fill(' ', n), built);
    } else if padc == '0' && neg {
      TurnedZeros(d, n);
    } else {
      TurnedRight(Signed(neg, d), padc, n);
      if padc == '0' { assert Signed(neg, Fill('0', pad) + d) == Fill('0', pad) + d; }
    }
  }

  method PrintNum(u: nat, base: nat, neg: bool, length0: nat, ladjust: bool, padc: char, upcase: bool) returns (text: seq<char>)
    requires 2 <= base <= 16 && u < ULONG
    ensures text == Text(u, base, neg, length0, ladjust, padc, upcase)
  {
    var buf := new char[length0 + 70](_ => ' ');
    var length, actual := Build(buf, u, base, neg, length0, ladjust, padc, upcase);
    ghost var built := buf[..length];
    var n := if ladjust then actual else length;
    ReverseInPlace(buf, n);
    text := buf[..length];
    assert text == buf[..n] + buf[n..][..length - n] && built[n..] == buf[n..][..length - n] && built[..n] == built[..n];
    Turned(Digits(u, base, upcase), neg, length0, ladjust, padc, built, text, length, actual);
  }

  // ---- reading it back ----

  predicate IsDigit(c: char, base: nat) { '0' <= c <= '9' || (base > 10 && ('a' <= c <= 'f' || 'A' <= c <= 'F')) }

  function DigitValue(c: char): nat
    requires IsDigit(c, 16)
  {
    if '0' <= c <= '9' then (c - '0') as nat else if c >= 'a' then (c - 'a') as nat + 10 else (c - 'A') as nat + 10
  }

  function SkipBlanks(s: seq<char>): seq<char> { if s != [] && s[0] == ' ' then SkipBlanks(s[1..]) else s }

  // The digits up to the first other character, as a number on top of v.
  function Number(s: seq<char>, base: nat, v: nat): nat {
    if s == [] || !IsDigit(s[0], base) then v else Number(s[1..], base, v * base + DigitValue(s[0]))
  }

  // Blanks, a minus sign perhaps, digits.
  function Parse(s: seq<char>, base: nat): (bool, nat) {
    var t := SkipBlanks(s);
    if t != [] && t[0] == '-' then (true, Number(t[1..], base, 0)) else (false, Number(t, base, 0))
  }

  lemma DigitReads(v: nat, base: nat, upcase: bool)
    requires v < base <= 16
    ensures IsDigit(Digit(v, upcase), base) && DigitValue(Digit(v, upcase)) == v
    ensures Digit(v, upcase) != ' ' && Digit(v, upcase) != '-'
  {
  }

  lemma NumberStep(c: char, rest: seq<char>, base: nat, v: nat, v': nat)
    requires IsDigit(c, base) && v' == v * base + DigitValue(c)
    ensures Number([c] + rest, base, v) == Number(rest, base, v')
  {
    assert ([c] + rest)[1..] == rest;
  }

  lemma Recomposed(u: nat, base: nat)
    requires base > 0
    ensures u / base * base + u % base == u
  {
  }

  lemma {:induction false} NumberReads(u: nat, base: nat, upcase: bool, rest: seq<char>)
    requires 2 <= base <= 16
    ensures Number(Digits(u, base, upcase) + rest, base, 0) == Number(rest, base, u)
    decreases u
  {
    if u < base {
      DigitReads(u, base, upcase);
      NumberStep(Digit(u, upcase), rest, base, 0, u);
    } else {
      var q, c := u / base, Digit(u % base, upcase);
      DigitReads(u % base, base, upcase);
      Larger(u, base);
      DigitsSplit(u, base, upcase, rest);
      NumberReads(q, base, upcase, [c] + rest);
      Recomposed(u, base);
      NumberStep(c, rest, base, q, u);
    }
  }

  lemma {:induction false} ZerosRead(n: int, base: nat, s: seq<char>)
    ensures Number(Fill('0', n) + s, base, 0) == Number(s, base, 0)
  {
    if n > 0 {
      assert (Fill('0', n) + s)[1..] == Fill('0', n - 1) + s;
      ZerosRead(n - 1, base, s);
    } else {
      assert Fill('0', n) + s == s;
    }
  }

  lemma {:induction false} BlanksSkipped(n: int, s: seq<char>)
    requires s != [] && s[0] != ' '
    ensures SkipBlanks(Fill(' ', n) + s) == s
  {
    if n > 0 {
      assert (Fill(' ', n) + s)[1..] == Fill(' ', n - 1) + s;
      BlanksSkipped(n - 1, s);
    } else {
      assert Fill(' ', n) + s == s;
    }
  }

  lemma {:induction false} FirstIsDigit(u: nat, base: nat, upcase: bool)
    requires 2 <= base <= 16
    ensures IsDigit(Digits(u, base, upcase)[0], base) && Digits(u, base, upcase)[0] != '-' && Digits(u, base, upcase)[0] != ' '
    decreases u
  {
    if u < base { DigitReads(u, base, upcase); } else { Larger(u, base); FirstIsDigit(u / base, base, upcase); }
  }

  lemma BodyParses(d: seq<char>, tail: seq<char>, neg: bool, base: nat, u: nat)
    requires d != [] && d[0] != ' ' && d[0] != '-' && Number(d + tail, base, 0) == u
    ensures Parse(Signed(neg, d) + tail, base) == (neg, u)
  {
    var all := Signed(neg, d) + tail;
    BlanksSkipped(0, all);
    assert Fill(' ', 0) + all == all;
    if neg { assert all[1..] == d + tail; } else { assert all == d + tail; }
  }

  lemma LeftReadsBack(u: nat, base: nat, neg: bool, upcase: bool, tail: seq<char>)
    requires 2 <= base <= 16 && (tail == [] || tail[0] == ' ')
    ensures Parse(Signed(neg, Digits(u, base, upcase)) + tail, base) == (neg, u)
  {
    FirstIsDigit(u, base, upcase);
    NumberReads(u, base, upcase, tail);
    BodyParses(Digits(u, base, upcase), tail, neg, base, u);
  }

  lemma ZerosReadBack(u: nat, base: nat, neg: bool, upcase: bool, pad: int)
    requires 2 <= base <= 16
    ensures Parse(Signed(neg, Fill('0', pad) + Digits(u, base, upcase)), base) == (neg, u)
  {
    var d := Digits(u, base, upcase);
    var zeros := Fill('0', pad) + d;
    var all := Signed(neg, zeros);
    FirstIsDigit(u, base, upcase);
    BlanksSkipped(0, all);
    assert Fill(' ', 0) + all == all;
    ZerosRead(pad, base, d);
    NumberReads(u, base, upcase, []);
    assert d + [] == d;
    if neg { assert all[1..] == zeros; }
  }

  lemma BlanksReadBack(u: nat, base: nat, neg: bool, upcase: bool, pad: int)
    requires 2 <= base <= 16
    ensures Parse(Fill(' ', pad) + Signed(neg, Digits(u, base, upcase)), base) == (neg, u)
  {
    var d := Digits(u, base, upcase);
    var body := Signed(neg, d);
    FirstIsDigit(u, base, upcase);
    BlanksSkipped(pad, body);
    NumberReads(u, base, upcase, []);
    assert d + [] == d;
    if neg { assert body[1..] == d; }
  }

  function Max(a: nat, b: nat): nat { if a < b then b else a }

  // What print_num prints, padded with blanks or zeros, parses back to sign and value, and
  // is as long as asked for or as the number needs.
  lemma PrintedReadsBack(u: nat, base: nat, neg: bool, length: nat, ladjust: bool, padc: char, upcase: bool)
    requires 2 <= base <= 16 && (padc == ' ' || padc == '0')
    ensures Parse(Text(u, base, neg, length, ladjust, padc, upcase), base) == (neg, u)
    ensures |Text(u, base, neg, length, ladjust, padc, upcase)| == Max(length, |Digits(u, base, upcase)| + (if neg then 1 else 0))
  {
    var pad := length - |Signed(neg, Digits(u, base, upcase))|;
    if ladjust {
      LeftReadsBack(u, base, neg, upcase, Fill(' ', pad));
    } else if padc == '0' {
      ZerosReadBack(u, base, neg, upcase, pad);
    } else {
      BlanksReadBack(u, base, neg, upcase, pad);
    }
  }

  // Letters are of the case asked for.
  lemma {:induction false} CaseAsAsked(u: nat, base: nat, upcase: bool)
    requires 2 <= base <= 16
    ensures forall i :: 0 <= i < |Digits(u, base, upcase)| ==>
      ('0' <= Digits(u, base, upcase)[i] <= '9' || (if upcase then 'A' <= Digits(u, base, upcase)[i] <= 'F' else 'a' <= Digits(u, base, upcase)[i] <= 'f'))
    decreases u
  {
    if u >= base {
      Larger(u, base);
      CaseAsAsked(u / base, base, upcase);
    }
  }

  function Sign(neg: bool): seq<char> { if neg then ['-'] else [] }

  // t is a, then b, then c.
  predicate Parts(t: seq<char>, a: seq<char>, b: seq<char>, c: seq<char>) {
    |t| == |a| + |b| + |c| && t[..|a|] == a && t[|a|..|a| + |b|] == b && t[|a| + |b|..] == c
  }

  predicate AllAre(s: seq<char>, c: char) { forall i :: 0 <= i < |s| ==> s[i] == c }

  lemma InParts(a: seq<char>, b: seq<char>, c: seq<char>)
    ensures Parts(a + b + c, a, b, c) && Parts(a + (b + c), a, b, c)
  {
    assert a + b + c == a + (b + c);
  }

  lemma LeftPadding(d: seq<char>, neg: bool, length: nat, padc: char) returns (pad: seq<char>)
    ensures Parts(Laid(d, neg, length, true, padc), Sign(neg), d, pad) && AllAre(pad, ' ')
  {
    pad := Fill(' ', length - |Signed(neg, d)|);
    assert Signed(neg, d) == Sign(neg) + d;
    assert Laid(d, neg, length, true, padc) == Sign(neg) + d + pad;
    InParts(Sign(neg), d, pad);
  }

  lemma ZeroPadding(d: seq<char>, neg: bool, length: nat) returns (pad: seq<char>)
    ensures Parts(Laid(d, neg, length, false, '0'), Sign(neg), pad, d) && AllAre(pad, '0')
  {
    pad := Fill('0', length - |Signed(neg, d)|);
    assert Signed(neg, pad + d) == Sign(neg) + (pad + d);
    InParts(Sign(neg), pad, d);
  }

  lemma RightPadding(d: seq<char>, neg: bool, length: nat, padc: char) returns (pad: seq<char>)
    requires padc != '0'
    ensures Parts(Laid(d, neg, length, false, padc), pad, Sign(neg), d) && AllAre(pad, padc)
  {
    pad := Fill(padc, length - |Signed(neg, d)|);
    assert Signed(neg, d) == Sign(neg) + d;
    InParts(pad, Sign(neg), d);
  }

  // Where the padding stands: blanks after the digits when adjusted to the left; otherwise the
  // given character before the sign, but zeros between the sign and the digits.
  lemma PaddingStands(u: nat, base: nat, neg: bool, length: nat, ladjust: bool, padc: char, upcase: bool) returns (pad: seq<char>)
    requires 2 <= base <= 16
    ensures var t, d := Text(u, base, neg, length, ladjust, padc, upcase), Digits(u, base, upcase);
      |t| == Max(length, |Sign(neg)| + |d|) &&
      if ladjust then Parts(t, Sign(neg), d, pad) && AllAre(pad, ' ')
      else if padc == '0' then Parts(t, Sign(neg), pad, d) && AllAre(pad, '0')
      else Parts(t, pad, Sign(neg), d) && AllAre(pad, padc)
  {
    var d := Digits(u, base, upcase);
    if ladjust {
      pad := LeftPadding(d, neg, length, padc);
    } else if padc == '0' {
      pad := ZeroPadding(d, neg, length);
    } else {
      pad := RightPadding(d, neg, length, padc);
    }
  }
}
