/**
  Masks on page numbers: the bitwise `and` of numbers, page masks, and the filter that the TLB
  page loops apply to every address they visit.
*/
module TlbMask {
  import opened Bits
  import opened Arithmetic

  // Bitwise and.
  function And(x: nat, y: nat): (r: nat) {
    if x == 0 || y == 0 then 0 else 2 * And(x / 2, y / 2) + Both(x, y)
  }

  // The lowest bit of the and.
  function Both(x: nat, y: nat): nat { if x % 2 == 1 && y % 2 == 1 then 1 else 0 }

  // Mask + 1 is a power of two: no clear bit below a set one.
  predicate Contiguous(mask: nat) {
    mask == 0 || (mask % 2 == 1 && Contiguous(mask / 2))
  }

  lemma {:induction false} ContiguousIsPow2(mask: nat) returns (k: nat)
    requires Contiguous(mask)
    ensures mask + 1 == Pow2(k)
  {
    if mask == 0 {
      k := 0;
    } else {
      var j := ContiguousIsPow2(mask / 2);
      k := j + 1;
    }
  }

  lemma {:induction false} Pow2IsContiguous(k: nat)
    ensures Contiguous(Pow2(k) - 1)
  {
    if k > 0 {
      Pow2IsContiguous(k - 1);
      assert (Pow2(k) - 1) / 2 == Pow2(k - 1) - 1;
    }
  }

  // ------------------------------------------------------------------ laws of And

  lemma {:induction false} AndZero(x: nat)
    ensures And(x, 0) == 0 && And(0, x) == 0
  {
  }

  lemma {:induction false} AndBelow(x: nat, y: nat)
    ensures And(x, y) <= x && And(x, y) <= y
  {
    if x != 0 && y != 0 {
      AndBelow(x / 2, y / 2);
    }
  }

  lemma {:induction false} AndTwice(x: nat, y: nat)
    ensures And(And(x, y), y) == And(x, y)
  {
    if x != 0 && y != 0 {
      AndTwice(x / 2, y / 2);
      var r := And(x, y);
      assert r / 2 == And(x / 2, y / 2) && r % 2 == Both(x, y);
    }
  }

  lemma AndDouble(x: nat, y: nat)
    ensures And(2 * x, 2 * y) == 2 * And(x, y)
  {
  }

  lemma HalfOfRemainder(y: nat, n: nat)
    requires n > 0
    ensures y % Pow2(n) / 2 == y / 2 % Pow2(n - 1) && y % Pow2(n) % 2 == y % 2
  {
    var p, q, r := Pow2(n - 1), y / 2 / Pow2(n - 1), y / 2 % Pow2(n - 1);
    assert y == q * (2 * p) + (2 * r + y % 2) by {
      assert y / 2 == q * p + r;
    }
    RemainderIs(y, 2 * p, q, 2 * r + y % 2);
  }

  // Only the bits of y below x's width matter.
  lemma {:induction false} AndTruncates(x: nat, y: nat, n: nat)
    requires x < Pow2(n)
    ensures And(x, y) == And(x, y % Pow2(n))
  {
    if x == 0 {
      AndZero(y);
    } else {
      assert n > 0;
      HalfOfRemainder(y, n);
      AndTruncates(x / 2, y / 2, n - 1);
      if y == 0 {
        AndZero(x);
      } else if y % Pow2(n) == 0 {
        AndZero(x / 2);
      }
    }
  }

  lemma {:induction false} AndAllOnes(x: nat, n: nat)
    requires x < Pow2(n)
    ensures And(x, Pow2(n) - 1) == x
  {
    if n > 0 {
      var ones := Pow2(n) - 1;
      assert ones / 2 == Pow2(n - 1) - 1 && ones % 2 == 1;
      AndAllOnes(x / 2, n - 1);
      AndByHalves(x, ones);
    }
  }

  // Clearing the low k bits.
  lemma {:induction false} AndClearsLow(x: nat, n: nat, k: nat)
    requires x < Pow2(n) && k <= n
    ensures Pow2(k) <= Pow2(n) && And(x, Pow2(n) - Pow2(k)) == x - x % Pow2(k)
    decreases n
  {
    if k == 0 {
      AndAllOnes(x, n);
    } else {
      AndClearsLow(x / 2, n - 1, k - 1);
      HalfOfRemainder(x, k);
      ClearStep(x, Pow2(n - 1), Pow2(k - 1), x % Pow2(k));
    }
  }

  lemma ClearStep(x: nat, top: nat, low: nat, rest: nat)
    requires low <= top && rest <= x && rest % 2 == x % 2
    requires And(x / 2, top - low) == x / 2 - rest / 2
    ensures And(x, 2 * top - 2 * low) == x - rest
  {
    var m := 2 * top - 2 * low;
    assert m / 2 == top - low && m % 2 == 0;
    AndByHalves(x, m);
  }

  // ------------------------------------------------------------------ the page filter

  // ((~mask) << 1) & (2^n - 1): every bit but the lowest and those of mask << 1.
  function FilterMask(n: nat, mask: nat): (m: nat)
    requires 2 * mask + 2 <= Pow2(n)
  {
    Pow2(n) - 2 - 2 * mask
  }

  lemma HalvesOfSubset(base: nat, m: nat)
    requires And(base, m) == base
    ensures And(base / 2, m / 2) == base / 2 && (m % 2 == 0 ==> base % 2 == 0)
  {
  }

  lemma AndByHalves(x: nat, y: nat)
    ensures And(x, y) == 2 * And(x / 2, y / 2) + Both(x, y)
  {
  }

  // A base with no bit outside the filter mask passes the filter with an offset added exactly
  // when the offset has no bit in the mask: a carry can never repair the bit it starts from.
  lemma {:induction false} OffsetPassesIff(base: nat, offset: nat, m: nat)
    requires And(base, m) == base
    ensures And(base + offset, m) == base <==> And(offset, m) == 0
    decreases m
  {
    if m == 0 {
      AndZero(base + offset);
      AndZero(offset);
    } else {
      HalvesOfSubset(base, m);
      OffsetPassesIff(base / 2, offset / 2, m / 2);
      AndByHalves(base + offset, m);
      AndByHalves(offset, m);
      if m % 2 == 0 || offset % 2 == 0 {
        assert (base + offset) / 2 == base / 2 + offset / 2;
      }
    }
  }

  // The filter passes every offset of a half exactly for contiguous masks; a mask with a hole
  // rejects an offset of the first half already.
  lemma ContiguousPassesAll(n: nat, mask: nat, offset: nat)
    requires 2 * mask + 2 <= Pow2(n) && Contiguous(mask) && offset <= 2 * mask + 1
    ensures And(offset, FilterMask(n, mask)) == 0
  {
    var k := ContiguousIsPow2(mask);
    assert offset < Pow2(k + 1) <= Pow2(n);
    Pow2Ordered(k + 1, n);
    AndClearsLow(offset, n, k + 1);
    RemainderIs(offset, Pow2(k + 1), 0, offset);
  }

  lemma {:induction false} Pow2Ordered(k: nat, n: nat)
    requires Pow2(k) <= Pow2(n)
    ensures k <= n
  {
    if k > 0 && n > 0 {
      Pow2Ordered(k - 1, n - 1);
    }
  }

  // With the lowest bit of the mask clear, offset 2 is the one.
  lemma EvenMaskRejectsTwo(n: nat, mask: nat)
    requires 2 * mask + 2 <= Pow2(n) && mask % 2 == 0 && mask > 0
    ensures And(2, FilterMask(n, mask)) != 0
  {
    var m := FilterMask(n, mask);
    assert And(1, m / 2) == 2 * And(0, m / 2 / 2) + m / 2 % 2;
    assert And(2, m) == 2 * And(1, m / 2);
    assert m / 2 % 2 == 1;
  }

  lemma {:induction false} HoleIsRejected(n: nat, mask: nat) returns (offset: nat)
    requires 2 * mask + 2 <= Pow2(n) && !Contiguous(mask)
    ensures offset <= mask && And(offset, FilterMask(n, mask)) != 0
  {
    var m := FilterMask(n, mask);
    if mask % 2 == 0 {
      offset := 2;
      EvenMaskRejectsTwo(n, mask);
    } else {
      var o := HoleIsRejected(n - 1, mask / 2);
      offset := 2 * o;
      assert m == 2 * FilterMask(n - 1, mask / 2);
      AndDouble(o, FilterMask(n - 1, mask / 2));
    }
  }
}
