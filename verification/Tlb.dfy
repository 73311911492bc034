/**
  The TLB writes of COP0.  Writing an entry unmaps the pages of the entry it replaces and maps its
  own, page by page, in the page map that every guest access goes through.

  Page numbers and registers are 32-bit words written as numbers; shifts are products and
  quotients, `& (2^n - 1)` is a remainder.
*/
module Tlb {
  import opened TlbMask

  type u32 = x: int | 0 <= x < 0x1_0000_0000
  const PAGES: nat := 0x10_0000
  const ENTRIES: nat := 48

  // What a page leads to: a physical address or a page of the scratchpad.
  datatype Target = Phys(paddr: int) | Scratch(page: nat)
  type PageMap = map<int, Target>

  datatype Option<T> = None | Some(value: T)
  function Lookup(pages: PageMap, p: int): Option<Target> { if p in pages then Some(pages[p]) else None }

  datatype Registers = Registers(pageMask: u32, entryHi: u32, entryLo0: u32, entryLo1: u32)

  datatype Entry = Entry(
    regs: Registers,                   // PageMask, EntryHi, EntryLo0, EntryLo1
    mask: u32, nMask: u32, vpn2: u32, asid: u32, g: bool, pfn0: u32, pfn1: u32, s: bool)
  {
    function First(): int { vpn2 / 0x1000 }
    function Start(second: bool): int { if second then First() + mask + 1 else First() }
    function Pfn(second: bool): int { if second then pfn1 else pfn0 }
    predicate Live(second: bool) { (if second then regs.entryLo1 else regs.entryLo0) / 2 % 2 == 1 }
  }

  const BLANK: Entry := Entry(Registers(0, 0, 0, 0), 0, 0, 0, 0, false, 0, 0, false)

  // ------------------------------------------------------------------ the fields of an entry

  function MaskOf(r: Registers): (m: nat)
    ensures m <= 0xfff
  {
    r.pageMask / 0x2000 % 0x1000
  }

  // x & ~mask on 32-bit words.
  function AndNot(x: nat, mask: nat): (r: nat)
    requires mask <= 0xfff
    ensures r <= x
  {
    AndBelow(x, 0xffff_ffff - mask);
    And(x, 0xffff_ffff - mask)
  }

  // The entry WriteTLB makes of the registers.
  function Load(r: Registers): (e: Entry) {
    var mask := MaskOf(r);
    Entry(r, mask, 0xfff - mask,
          AndNot(r.entryHi / 0x2000, mask) * 0x2000,
          r.entryHi % 0x1000,
          r.entryLo0 % 2 == 1 && r.entryLo1 % 2 == 1,
          AndNot(r.entryLo0 / 0x40 % PAGES, mask) * 0x1000,
          AndNot(r.entryLo1 / 0x40 % PAGES, mask) * 0x1000,
          r.entryLo0 >= 0x8000_0000)
  }

  // ((~mask) << 1) & 0xfffff
  function PageFilter(mask: nat): (m: nat)
    requires mask <= 0xfff
  {
    (0xffff_ffff - mask) * 2 % 0x1_0000_0000 % PAGES
  }

  predicate Accepts(e: Entry, p: nat)
    requires e.mask <= 0xfff
  {
    And(p, PageFilter(e.mask)) == And(e.First(), PageFilter(e.mask))
  }

  // ------------------------------------------------------------------ the pages of an entry

  // The pages of one half below `end`, as the loops visit them.
  function HalfUpTo(e: Entry, second: bool, end: int): PageMap
    requires e.mask <= 0xfff
  {
    map p | e.Start(second) <= p < end && Accepts(e, p) :: PageTarget(e, second, p)
  }

  function PageTarget(e: Entry, second: bool, p: int): Target {
    Phys((e.Pfn(second) + (p - e.Start(second)) * 0x1000) % 0x1_0000_0000)
  }

  lemma HalfGrows(e: Entry, second: bool, p: int)
    requires e.mask <= 0xfff && e.Start(second) <= p
    ensures HalfUpTo(e, second, p + 1)
            == if Accepts(e, p) then HalfUpTo(e, second, p)[p := PageTarget(e, second, p)]
               else HalfUpTo(e, second, p)
  {
  }

  lemma MergeOne(a: PageMap, b: PageMap, p: int, t: Target)
    ensures (a + b)[p := t] == a + b[p := t]
  {
  }

  lemma RemoveOne(a: PageMap, removed: set<int>, p: int)
    ensures a - removed - {p} == a - (removed + {p})
  {
  }

  lemma MergeTwice(a: PageMap, b: PageMap, c: PageMap)
    ensures a + b + c == a + (b + c)
  {
  }

  function HalfPages(e: Entry, second: bool): PageMap
    requires e.mask <= 0xfff
  {
    if e.Live(second) then HalfUpTo(e, second, e.Start(second) + e.mask + 1) else map[]
  }

  // The scratchpad's four pages; addresses wrap at the top of the address space.
  function ScratchPages(first: int): PageMap {
    map[first % PAGES := Scratch(0), (first + 1) % PAGES := Scratch(1),
        (first + 2) % PAGES := Scratch(2), (first + 3) % PAGES := Scratch(3)]
  }

  function EntryPages(e: Entry): PageMap
    requires e.mask <= 0xfff
  {
    if e.s then ScratchPages(e.First()) else HalfPages(e, false) + HalfPages(e, true)
  }

  // The page map when an entry is replaced: the pages of the old one go, those of the new come.
  function Replaced(pages: PageMap, before: Entry, after: Entry): PageMap
    requires before.mask <= 0xfff && after.mask <= 0xfff
  {
    pages - EntryPages(before).Keys + EntryPages(after)
  }

  // ------------------------------------------------------------------ the operations

  class Cop0 {
    var tlb: array<Entry>
    var pages: PageMap                 // vtlbdata.vmap, mapped pages only
    var regs: Registers
    var index: u32
    var random: u32

    ghost predicate Valid()
      reads this, tlb
    {
      tlb.Length == ENTRIES && forall i :: 0 <= i < ENTRIES ==> tlb[i].mask <= 0xfff
    }

    constructor (pages: PageMap)
      ensures Valid() && fresh(tlb) && this.pages == pages
      ensures tlb[..] == seq(ENTRIES, _ => BLANK)
    {
      this.pages := pages;
      tlb := new Entry[ENTRIES](_ => BLANK);
      regs, index, random := Registers(0, 0, 0, 0), 0, 0;
    }

    // One half of MapTLB.
    method MapHalf(e: Entry, second: bool)
      requires e.mask <= 0xfff
      modifies this`pages
      ensures pages == old(pages) + HalfPages(e, second)
    {
      if e.Live(second) {
        ghost var mapped: PageMap := map[];
        for addr := e.Start(second) to e.Start(second) + e.mask + 1
          invariant pages == old(pages) + mapped
          invariant mapped == HalfUpTo(e, second, addr)
        {
          HalfGrows(e, second, addr);
          if Accepts(e, addr) {
            var target := PageTarget(e, second, addr);
            MergeOne(old(pages), mapped, addr, target);
            pages := pages[addr := target];
            mapped := mapped[addr := target];
          }
        }
      }
    }

    method MapTlb(e: Entry)
      requires e.mask <= 0xfff
      modifies this`pages
      ensures pages == old(pages) + EntryPages(e)
    {
      if e.s {
        pages := pages + ScratchPages(e.First());
      } else {
        MergeTwice(pages, HalfPages(e, false), HalfPages(e, true));
        MapHalf(e, false);
        MapHalf(e, true);
      }
    }

    // One half of UnmapTLB.
    method UnmapHalf(e: Entry, second: bool)
      requires e.mask <= 0xfff
      modifies this`pages
      ensures pages == old(pages) - HalfPages(e, second).Keys
    {
      if e.Live(second) {
        ghost var removed: set<int> := {};
        for addr := e.Start(second) to e.Start(second) + e.mask + 1
          invariant pages == old(pages) - removed
          invariant removed == HalfUpTo(e, second, addr).Keys
        {
          HalfGrows(e, second, addr);
          if Accepts(e, addr) {
            RemoveOne(old(pages), removed, addr);
            pages := pages - {addr};
            removed := removed + {addr};
          }
        }
      }
    }

    method UnmapTlb(e: Entry)
      requires e.mask <= 0xfff
      modifies this`pages
      ensures pages == old(pages) - EntryPages(e).Keys
    {
      if e.s {
        pages := pages - ScratchPages(e.First()).Keys;
        return;
      }
      UnmapHalf(e, false);
      UnmapHalf(e, true);
    }

    method WriteTlb(i: nat)
      requires Valid() && i < ENTRIES
      modifies this`pages, tlb
      ensures Valid() && tlb[..] == old(tlb[..])[i := Load(regs)]
      ensures pages == old(pages) + EntryPages(Load(regs))
    {
      tlb[i] := Load(regs);
      MapTlb(tlb[i]);
    }

    // TLBWI; the table has 48 entries, so larger indices are not covered.
    method WriteIndexed()
      requires Valid() && index % 0x40 < ENTRIES
      modifies this`pages, tlb
      ensures Valid() && tlb[..] == old(tlb[..])[index % 0x40 := Load(regs)]
      ensures pages == Replaced(old(pages), old(tlb[index % 0x40]), Load(regs))
    {
      var j := index % 0x40;
      UnmapTlb(tlb[j]);
      WriteTlb(j);
    }

    // TLBWR
    method WriteRandom()
      requires Valid() && random % 0x40 < ENTRIES
      modifies this`pages, tlb
      ensures Valid() && tlb[..] == old(tlb[..])[random % 0x40 := Load(regs)]
      ensures pages == Replaced(old(pages), old(tlb[random % 0x40]), Load(regs))
    {
      var j := random % 0x40;
      UnmapTlb(tlb[j]);
      WriteTlb(j);
    }
  }
}
