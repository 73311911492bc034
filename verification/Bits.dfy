/**
  64-bit words as sequences of bits, least significant first, with the shifts and masks the BC7
  decoder uses.
*/
module Bits {
  type Word = w: seq<bool> | |w| == 64 witness seq(64, _ => false)

  function Zeros(n: nat): seq<bool> { seq(n, _ => false) }

  function Shr(w: Word, n: nat): Word
    requires n <= 64
  {
    w[n..] + Zeros(n)
  }

  function Shl(w: Word, n: nat): Word
    requires n <= 64
  {
    Zeros(n) + w[..64 - n]
  }

  function And(a: Word, b: Word): Word { seq(64, i requires 0 <= i < 64 => a[i] && b[i]) }
  function Or(a: Word, b: Word): Word { seq(64, i requires 0 <= i < 64 => a[i] || b[i]) }
  function Not(a: Word): Word { seq(64, i requires 0 <= i < 64 => !a[i]) }

  // (1 << n) - 1
  function LowMask(n: nat): Word { seq(64, i => i < n) }

  // The number a run of bits stands for.
  function Value(bits: seq<bool>): nat {
    if bits == [] then 0 else (if bits[0] then 1 else 0) + 2 * Value(bits[1..])
  }

  lemma {:induction false} ValueTrailingZeros(bits: seq<bool>, n: nat)
    ensures Value(bits + Zeros(n)) == Value(bits)
    decreases |bits| + n
  {
    if bits != [] {
      assert (bits + Zeros(n))[1..] == bits[1..] + Zeros(n);
      ValueTrailingZeros(bits[1..], n);
    } else if n > 0 {
      assert (bits + Zeros(n))[1..] == [] + Zeros(n - 1);
      ValueTrailingZeros([], n - 1);
    }
  }

  // word & ((1 << n) - 1) keeps the lowest n bits.
  lemma LowBits(w: Word, n: nat)
    requires n <= 64
    ensures And(w, LowMask(n)) == w[..n] + Zeros(64 - n)
    ensures Value(And(w, LowMask(n))) == Value(w[..n])
  {
    assert And(w, LowMask(n)) == w[..n] + Zeros(64 - n);
    ValueTrailingZeros(w[..n], 64 - n);
  }

  lemma ShrShr(w: Word, a: nat, b: nat)
    requires a + b <= 64
    ensures Shr(Shr(w, a), b) == Shr(w, a + b)
  {
  }

  // (word >> a) & ((1 << n) - 1)
  lemma ShiftedField(w: Word, a: nat, n: nat)
    requires a + n <= 64
    ensures Value(And(Shr(w, a), LowMask(n))) == Value(w[a..a + n])
  {
    LowBits(Shr(w, a), n);
    assert Shr(w, a)[..n] == w[a..a + n];
  }

  // Bits past the end of a block read as zero, as the shifts bring them in.
  function Bit(block: seq<bool>, i: nat): bool { i < |block| && block[i] }

  function Slice(block: seq<bool>, pos: nat, n: nat): seq<bool> { seq(n, k requires 0 <= k => Bit(block, pos + k)) }

  // The word's low n bits are the n bits of the block from position pos on.
  ghost predicate Window(w: Word, block: seq<bool>, pos: nat, n: nat) {
    n <= 64 && forall i :: 0 <= i < n ==> w[i] == Bit(block, pos + i)
  }

  lemma WindowShr(w: Word, block: seq<bool>, pos: nat, n: nat, k: nat)
    requires Window(w, block, pos, n) && k <= n
    ensures Window(Shr(w, k), block, pos + k, n - k)
  {
    var t := Shr(w, k);
    forall i | 0 <= i < n - k ensures t[i] == Bit(block, pos + k + i) {
      assert t[i] == w[k + i];
    }
  }

  // A stretch of the block that lies in its low word, in its high word, or
  // ((low >> k) | (high << (64 - k))) in both.
  lemma LowWindow(block: seq<bool>, k: nat)
    requires |block| == 128 && k <= 64
    ensures Window(Shr(block[..64], k), block, k, 64 - k)
  {
  }

  lemma HighWindow(block: seq<bool>, k: nat)
    requires |block| == 128 && k <= 64
    ensures Window(Shr(block[64..], k), block, 64 + k, 64)
  {
  }

  lemma SpanWindow(block: seq<bool>, k: nat)
    requires |block| == 128 && k <= 64
    ensures Window(Or(Shr(block[..64], k), Shl(block[64..], 64 - k)), block, k, 64)
  {
    var t := Or(Shr(block[..64], k), Shl(block[64..], 64 - k));
    forall i | 0 <= i < 64 ensures t[i] == Bit(block, k + i) {
      assert t[i] == (Shr(block[..64], k)[i] || Shl(block[64..], 64 - k)[i]);
    }
  }

  // One field of a window, by mask.
  lemma WindowField(w: Word, block: seq<bool>, pos: nat, n: nat, bits: nat)
    requires Window(w, block, pos, n) && bits <= n
    ensures Value(And(w, LowMask(bits))) == Value(Slice(block, pos, bits))
  {
    LowBits(w, bits);
    assert w[..bits] == Slice(block, pos, bits);
  }

  function Pow2(n: nat): (p: nat)
    ensures p > 0
  {
    if n == 0 then 1 else 2 * Pow2(n - 1)
  }

  lemma {:induction false} ValueBound(bits: seq<bool>)
    ensures Value(bits) < Pow2(|bits|)
  {
    if bits != [] {
      ValueBound(bits[1..]);
    }
  }

  // The position of the lowest set bit of the first byte, 8 when there is none.
  function LowestSetBit(b: seq<bool>): (n: nat)
    requires |b| >= 8
    ensures n <= 8 && (n < 8 ==> b[n]) && forall i :: 0 <= i < n && i < 8 ==> !b[i]
  {
    if b[0] then 0 else if b[1] then 1 else if b[2] then 2 else if b[3] then 3
    else if b[4] then 4 else if b[5] then 5 else if b[6] then 6 else if b[7] then 7 else 8
  }
}
