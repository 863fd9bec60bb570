// Bitmaps held in 32-bit words, as asid_bitmap (kern/env.c) and the disk bitmap
// (fs/fs.c, tools/fsformat.c) keep them.  A word is its unsigned value.
module Bits {
  // w & (1 << i)
  predicate Test(w: nat, i: nat) {
    if i == 0 then w % 2 == 1 else Test(w / 2, i - 1)
  }

  // w | (1 << i)
  function Set(w: nat, i: nat): nat {
    if i == 0 then w - w % 2 + 1 else 2 * Set(w / 2, i - 1) + w % 2
  }

  // w & ~(1 << i)
  function Clear(w: nat, i: nat): nat {
    if i == 0 then w - w % 2 else 2 * Clear(w / 2, i - 1) + w % 2
  }

  // Bit b of a bitmap.
  predicate Bit(words: seq<nat>, b: nat)
    requires b / 32 < |words|
  {
    Test(words[b / 32], b % 32)
  }

  lemma {:induction false} SetBit(w: nat, i: nat, j: nat)
    ensures Test(Set(w, i), j) <==> i == j || Test(w, j)
  {
    if i > 0 {
      assert Set(w, i) / 2 == Set(w / 2, i - 1);
      if j > 0 { SetBit(w / 2, i - 1, j - 1); }
    } else {
      assert Set(w, 0) / 2 == w / 2;
    }
  }

  lemma {:induction false} ClearBit(w: nat, i: nat, j: nat)
    ensures Test(Clear(w, i), j) <==> i != j && Test(w, j)
  {
    if i > 0 {
      assert Clear(w, i) / 2 == Clear(w / 2, i - 1);
      if j > 0 { ClearBit(w / 2, i - 1, j - 1); }
    } else {
      assert Clear(w, 0) / 2 == w / 2;
    }
  }

  function Pow2(n: nat): (p: nat) ensures p >= 1 { if n == 0 then 1 else 2 * Pow2(n - 1) }

  // Setting or clearing one of the low n bits of an n-bit word leaves an n-bit word.
  lemma {:induction false} StaysAWord(w: nat, i: nat, n: nat)
    requires i < n && w < Pow2(n)
    ensures Set(w, i) < Pow2(n) && Clear(w, i) < Pow2(n)
  {
    if i > 0 { StaysAWord(w / 2, i - 1, n - 1); } else { assert Pow2(n) % 2 == 0; }
  }

  lemma {:induction false} AllOnes(n: nat, i: nat)
    requires i < n
    ensures Test(Pow2(n) - 1, i)
  {
    if i > 0 {
      assert (Pow2(n) - 1) / 2 == Pow2(n - 1) - 1;
      AllOnes(n - 1, i - 1);
    }
  }

  lemma {:induction false} AllZeros(i: nat)
    ensures !Test(0, i)
  {
    if i > 0 { AllZeros(i - 1); }
  }

  lemma SetInBitmap(words: seq<nat>, b: nat, c: nat)
    requires b / 32 < |words| && c / 32 < |words|
    ensures Bit(words[b / 32 := Set(words[b / 32], b % 32)], c) <==> b == c || Bit(words, c)
  {
    SetBit(words[b / 32], b % 32, c % 32);
  }

  lemma ClearInBitmap(words: seq<nat>, b: nat, c: nat)
    requires b / 32 < |words| && c / 32 < |words|
    ensures Bit(words[b / 32 := Clear(words[b / 32], b % 32)], c) <==> b != c && Bit(words, c)
  {
    ClearBit(words[b / 32], b % 32, c % 32);
  }
}
