/**
  What a TLB entry translates, as the architecture defines it from the registers, against the
  pages the map and unmap loops visit.  The loops know nothing of address spaces: an entry's pages
  are mapped whether or not its ASID is the current one.
*/
module TlbTranslate {
  import opened TlbMask
  import opened Tlb
  import Bits
  import opened Arithmetic

  // A page belongs to an entry when their numbers agree above the page pair; within the pair it
  // takes the even or the odd frame, and its place in that frame.  This is the translation in the
  // entry's own address space.
  function Translate(r: Registers, p: nat): (t: Option<Target>) {
    var n, hi := MaskOf(r) + 1, r.entryHi / 0x2000;
    if r.entryLo0 >= 0x8000_0000 then
      var page := (p - 2 * (hi / n * n)) % PAGES;
      if page < 4 then Some(Scratch(page)) else None
    else if p / (2 * n) != hi / n then None
    else
      var lo := if p / n % 2 == 0 then r.entryLo0 else r.entryLo1;
      if lo / 2 % 2 == 0 then None
      else Some(Phys((lo / 0x40 % PAGES / n * n + p % n) * 0x1000))
  }

  // Both G bits set: the entry holds in every address space.
  predicate Global(r: Registers) { r.entryLo0 % 2 == 1 && r.entryLo1 % 2 == 1 }

  predicate HoldsIn(r: Registers, asid: nat) { Global(r) || r.entryHi % 0x100 == asid }

  // The translation in the address space `asid`.
  function TranslateIn(r: Registers, asid: nat, p: nat): (t: Option<Target>) {
    if HoldsIn(r, asid) then Translate(r, p) else None
  }

  // ------------------------------------------------------------------ fields of a written entry

  lemma PowersUsed()
    ensures Bits.Pow2(19) == 0x8_0000 && Bits.Pow2(20) == PAGES
  {
    assert Bits.Pow2(10) == 0x400;
    assert Bits.Pow2(19) == 2 * Bits.Pow2(18) == 0x200 * Bits.Pow2(10);
  }

  lemma FilterIs(mask: nat)
    requires mask <= 0xfff
    ensures 2 * mask + 2 <= Bits.Pow2(20) && PageFilter(mask) == FilterMask(20, mask) == 2 * (0x7_ffff - mask)
  {
    PowersUsed();
  }

  // The mask on 32 bits does the same as the mask on the bits there are.
  lemma AndNotNarrow(x: nat, mask: nat)
    requires mask <= 0xfff
    ensures x < 0x8_0000 ==> AndNot(x, mask) == And(x, 0x7_ffff - mask)
    ensures x < PAGES ==> AndNot(x, mask) == And(x, 0xf_ffff - mask)
  {
    PowersUsed();
    var all := 0xffff_ffff - mask;
    if x < 0x8_0000 {
      AndTruncates(x, all, 19);
      assert all % 0x8_0000 == 0x7_ffff - mask;
    }
    if x < PAGES {
      AndTruncates(x, all, 20);
      assert all % PAGES == 0xf_ffff - mask;
    }
  }

  // For any mask at all, the first page has no bit outside the filter, and the last page of the
  // second half is still below the top of the address space.
  lemma FirstPage(r: Registers)
    ensures var e := Load(r);
      && e.First() == 2 * AndNot(r.entryHi / 0x2000, e.mask)
      && And(e.First(), PageFilter(e.mask)) == e.First()
      && e.Start(true) + e.mask + 1 <= PAGES
  {
    var e, hi := Load(r), r.entryHi / 0x2000;
    var c := 0x7_ffff - e.mask;
    AndNotNarrow(hi, e.mask);
    AndTwice(hi, c);
    AndBelow(hi, c);
    FilterIs(e.mask);
    AndDouble(And(hi, c), c);
  }

  lemma AcceptsIff(r: Registers, offset: nat)
    ensures var e := Load(r);
      Accepts(e, e.First() + offset) <==> And(offset, PageFilter(e.mask)) == 0
  {
    FirstPage(r);
    OffsetPassesIff(Load(r).First(), offset, PageFilter(Load(r).mask));
  }

  ghost predicate AcceptsHalf(e: Entry, second: bool)
    requires e.mask <= 0xfff
  {
    forall p :: e.Start(second) <= p <= e.Start(second) + e.mask ==> Accepts(e, p)
  }

  lemma ContiguousAcceptsHalf(r: Registers, second: bool)
    requires Contiguous(MaskOf(r))
    ensures AcceptsHalf(Load(r), second)
  {
    var e := Load(r);
    FilterIs(e.mask);
    forall p | e.Start(second) <= p <= e.Start(second) + e.mask ensures Accepts(e, p) {
      var offset := p - e.First();
      ContiguousPassesAll(20, e.mask, offset);
      AcceptsIff(r, offset);
    }
  }

  // The match filter accepts every page of both halves if and only if Mask + 1 is a power of
  // two; with a hole in the mask it drops a page of the first half already.
  lemma FilterAcceptsAllIff(r: Registers)
    ensures AcceptsHalf(Load(r), false) && AcceptsHalf(Load(r), true) <==> Contiguous(MaskOf(r))
    ensures AcceptsHalf(Load(r), false) <==> Contiguous(MaskOf(r))
  {
    var e := Load(r);
    if Contiguous(e.mask) {
      ContiguousAcceptsHalf(r, false);
      ContiguousAcceptsHalf(r, true);
    } else {
      FilterIs(e.mask);
      var offset := HoleIsRejected(20, e.mask);
      AcceptsIff(r, offset);
      assert !Accepts(e, e.First() + offset);
    }
  }

  // The two halves share no page and every page exists, whatever the mask.
  lemma HalvesApart(r: Registers, p: int)
    ensures p in HalfPages(Load(r), false) ==> p !in HalfPages(Load(r), true)
    ensures p in EntryPages(Load(r)) ==> 0 <= p < PAGES
  {
    FirstPage(r);
  }

  // ------------------------------------------------------------------ contiguous masks

  // A frame number without its low bits starts a group of mask + 1 frames.
  lemma AlignedFrame(x: nat, mask: nat)
    requires Contiguous(mask) && mask <= 0xfff && x < PAGES
    ensures AndNot(x, mask) == x / (mask + 1) * (mask + 1) <= PAGES - (mask + 1)
  {
    var k := ContiguousIsPow2(mask);
    AndNotNarrow(x, mask);
    ClearedBelow(x, k);
    AndBelow(x, 0xf_ffff - mask);
  }

  lemma ClearedBelow(x: nat, k: nat)
    requires x < PAGES && Bits.Pow2(k) <= 0x1000
    ensures And(x, PAGES - Bits.Pow2(k)) == x / Bits.Pow2(k) * Bits.Pow2(k)
  {
    PowersUsed();
    Pow2Ordered(k, 20);
    AndClearsLow(x, 20, k);
    FloorMultiple(x, Bits.Pow2(k));
  }

  lemma FloorMultiple(x: nat, d: nat)
    requires d > 0
    ensures x - x % d == x / d * d
  {
  }

  // Where a page stands within its pair.
  lemma PlaceInPair(p: nat, n: nat, q: nat, rest: nat)
    requires n > 0 && p == 2 * (q * n) + rest && rest < 2 * n
    ensures p / (2 * n) == q
    ensures p / n % 2 == (if rest < n then 0 else 1) && p % n == (if rest < n then rest else rest - n)
  {
    assert p == q * (2 * n) + rest;
    RemainderIs(p, 2 * n, q, rest);
    assert p == (2 * q) * n + rest;
    if rest < n {
      RemainderIs(p, n, 2 * q, rest);
    } else {
      assert p == (2 * q + 1) * n + (rest - n);
      RemainderIs(p, n, 2 * q + 1, rest - n);
    }
  }

  lemma ScratchTranslation(first: nat, p: nat)
    requires first < PAGES && p < PAGES
    ensures var page := (p - first) % PAGES;
      Lookup(ScratchPages(first), p) == if page < 4 then Some(Scratch(page)) else None
  {
  }

  lemma PairStart(r: Registers)
    requires Contiguous(MaskOf(r))
    ensures var n := MaskOf(r) + 1; Load(r).First() == 2 * (r.entryHi / 0x2000 / n * n)
  {
    FirstPage(r);
    AlignedFrame(r.entryHi / 0x2000, MaskOf(r));
  }

  lemma PlaceInHalf(r: Registers, second: bool, p: nat)
    requires Contiguous(MaskOf(r))
    requires var e := Load(r); e.Start(second) <= p <= e.Start(second) + e.mask
    ensures var n := MaskOf(r) + 1;
      && p / (2 * n) == r.entryHi / 0x2000 / n
      && p / n % 2 == (if second then 1 else 0)
      && p - Load(r).Start(second) == p % n
  {
    var e, n := Load(r), MaskOf(r) + 1;
    PairStart(r);
    PlaceInPair(p, n, r.entryHi / 0x2000 / n, p - e.First());
  }

  // The frame and a place in it add up without carry, so the sum does not wrap.
  lemma FrameAddress(x: nat, mask: nat, place: nat)
    requires Contiguous(mask) && mask <= 0xfff && x < PAGES && place <= mask
    ensures (AndNot(x, mask) * 0x1000 + place * 0x1000) % 0x1_0000_0000
            == (x / (mask + 1) * (mask + 1) + place) * 0x1000
  {
    AlignedFrame(x, mask);
  }

  function LoOf(r: Registers, second: bool): u32 { if second then r.entryLo1 else r.entryLo0 }

  // The target the loop gives a page of a half: its frame plus its place in the half.
  lemma HalfTarget(r: Registers, second: bool, p: nat)
    requires Contiguous(MaskOf(r))
    requires var e := Load(r); e.Start(second) <= p <= e.Start(second) + e.mask
    ensures var n, x := MaskOf(r) + 1, LoOf(r, second) / 0x40 % PAGES;
      PageTarget(Load(r), second, p) == Phys((x / n * n + p % n) * 0x1000)
  {
    var e, x := Load(r), LoOf(r, second) / 0x40 % PAGES;
    PlaceInHalf(r, second, p);
    FrameAddress(x, e.mask, p - e.Start(second));
    assert e.Pfn(second) == AndNot(x, e.mask) * 0x1000;
  }

  // A page of a live half leads there; a half that is not live maps nothing.
  lemma HalfTranslation(r: Registers, second: bool, p: nat)
    requires Contiguous(MaskOf(r))
    requires var e := Load(r); e.Start(second) <= p <= e.Start(second) + e.mask
    ensures Lookup(HalfPages(Load(r), second), p)
            == if LoOf(r, second) / 2 % 2 == 0 then None else Some(PageTarget(Load(r), second, p))
  {
    ContiguousAcceptsHalf(r, second);
    assert Accepts(Load(r), p);
  }

  lemma OutsidePair(p: nat, n: nat, q: nat)
    requires n > 0 && (p < 2 * (q * n) || 2 * (q * n) + 2 * n <= p)
    ensures p / (2 * n) != q
  {
    var a := p / (2 * n);
    assert p == a * (2 * n) + p % (2 * n);
    assert a * (2 * n) == 2 * (a * n);
  }

  lemma TranslateInHalf(r: Registers, second: bool, p: nat)
    requires Contiguous(MaskOf(r)) && r.entryLo0 < 0x8000_0000
    requires var e := Load(r); e.Start(second) <= p <= e.Start(second) + e.mask
    ensures Lookup(HalfPages(Load(r), second), p) == Translate(r, p)
  {
    PlaceInHalf(r, second, p);
    HalfTarget(r, second, p);
    HalfTranslation(r, second, p);
  }

  // Away from a half's stretch of pages the half maps nothing.
  lemma OneHalfOnly(r: Registers, p: nat)
    requires r.entryLo0 < 0x8000_0000
    ensures var e := Load(r);
      Lookup(EntryPages(e), p) == Lookup(HalfPages(e, p >= e.Start(true)), p)
    ensures var e := Load(r);
      p < e.First() || e.Start(true) + e.mask < p ==> Lookup(EntryPages(e), p) == None
  {
  }

  // The pages the loops map for an entry are exactly those the architecture translates through
  // it in its own address space, each to the right address, for every contiguous mask.
  lemma EntryIsTranslation(r: Registers, p: nat)
    requires Contiguous(MaskOf(r)) && p < PAGES
    ensures Lookup(EntryPages(Load(r)), p) == Translate(r, p)
  {
    var e := Load(r);
    if r.entryLo0 >= 0x8000_0000 {
      ScratchEntry(r, p);
    } else {
      OneHalfOnly(r, p);
      if p < e.First() || e.Start(true) + e.mask < p {
        TranslateOutside(r, p);
      } else {
        TranslateInHalf(r, p >= e.Start(true), p);
      }
    }
  }

  lemma TranslateOutside(r: Registers, p: nat)
    requires Contiguous(MaskOf(r)) && r.entryLo0 < 0x8000_0000
    requires p < Load(r).First() || Load(r).Start(true) + MaskOf(r) < p
    ensures Translate(r, p) == None
  {
    var n := MaskOf(r) + 1;
    var q := r.entryHi / 0x2000 / n;
    PairStart(r);
    assert Load(r).Start(true) + MaskOf(r) == 2 * (q * n) + 2 * n - 1;
    OutsidePair(p, n, q);
    TranslateOtherPair(r, p, q);
  }

  lemma TranslateOtherPair(r: Registers, p: nat, q: nat)
    requires r.entryLo0 < 0x8000_0000 && q == r.entryHi / 0x2000 / (MaskOf(r) + 1)
    requires p / (2 * (MaskOf(r) + 1)) != q
    ensures Translate(r, p) == None
  {
  }

  lemma ScratchEntry(r: Registers, p: nat)
    requires Contiguous(MaskOf(r)) && p < PAGES && r.entryLo0 >= 0x8000_0000
    ensures Lookup(EntryPages(Load(r)), p) == Translate(r, p)
  {
    FirstPage(r);
    PairStart(r);
    ScratchTranslation(Load(r).First(), p);
  }

  // In a given address space they are the architecture's if and only if the entry is global or of
  // that space, or does not translate the page at all.
  lemma EntryIsTranslationInIff(r: Registers, asid: nat, p: nat)
    requires Contiguous(MaskOf(r)) && p < PAGES
    ensures Lookup(EntryPages(Load(r)), p) == TranslateIn(r, asid, p) <==>
            HoldsIn(r, asid) || Translate(r, p).None?
  {
    EntryIsTranslation(r, p);
  }

  // An entry of address space 1 that the page map offers in space 0 as well.
  lemma ForeignEntryIsMapped(r: Registers)
    requires r == Registers(0, 1, 2, 0)
    ensures Lookup(EntryPages(Load(r)), 0) == Some(Phys(0)) && TranslateIn(r, 0, 0) == None
  {
    FirstOfZero(r, 0);
    EntryIsTranslation(r, 0);
  }

  // A four-kilobyte entry at address 0 with frame 0.
  lemma FirstOfZero(r: Registers, p: nat)
    requires p == 0 && MaskOf(r) == 0 && r.entryHi < 0x2000 && r.entryLo0 == 2
    ensures Translate(r, p) == Some(Phys(0))
  {
  }

  // With the lowest bit of the mask clear, the third page of the first half is passed over.
  lemma EvenMaskDropsPage(r: Registers)
    requires MaskOf(r) % 2 == 0 && MaskOf(r) > 0 && r.entryLo0 < 0x8000_0000
    ensures var e := Load(r);
      e.First() + 2 <= e.First() + e.mask && e.First() + 2 !in EntryPages(e)
  {
    FilterIs(MaskOf(r));
    EvenMaskRejectsTwo(20, MaskOf(r));
    AcceptsIff(r, 2);
  }

  // A page mask with a hole, Mask == 2, on an entry at address 0: page 2 is passed over.
  lemma HoleDropsPage(r: Registers)
    requires r == Registers(0x4000, 0, 2, 2)
    ensures MaskOf(r) == 2 && !Contiguous(MaskOf(r))
    ensures Load(r).First() == 0 && Load(r).Live(false) && 2 !in EntryPages(Load(r))
  {
    EvenMaskDropsPage(r);
  }

  // The fields of an entry that the loops do not look at say in which address spaces it holds.
  lemma EntryKnowsItsSpace(r: Registers, asid: nat)
    requires asid < 0x100
    ensures var e := Load(r);
      && (HoldsIn(r, asid) <==> e.g || e.asid % 0x100 == asid)
      && e.mask + e.nMask == 0xfff && e.regs == r
  {
  }
}
