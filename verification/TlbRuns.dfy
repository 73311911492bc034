/**
  Whole sequences of TLB writes: what the page map holds after them.
*/
module TlbRuns {
  import opened TlbMask
  import opened Tlb
  import opened TlbTranslate

  // The entries, the page map, and the pages any entry has ever covered.
  datatype Machine = Machine(entries: seq<Entry>, pages: PageMap, ever: set<int>)

  predicate WellFormed(entries: seq<Entry>) {
    |entries| == ENTRIES && forall i :: 0 <= i < |entries| ==> entries[i].mask <= 0xfff
  }

  function Start(base: PageMap): Machine { Machine(seq(ENTRIES, _ => BLANK), base, {}) }

  // One TLBWI, or one TLBWR, at this index with these registers.
  datatype Write = Write(random: bool, index: nat, regs: Registers)

  function Apply(m: Machine, w: Write): (n: Machine)
    requires WellFormed(m.entries) && w.index < ENTRIES
    ensures WellFormed(n.entries)
  {
    Machine(m.entries[w.index := Load(w.regs)],
            Replaced(m.pages, m.entries[w.index], Load(w.regs)),
            m.ever + EntryPages(Load(w.regs)).Keys)
  }

  ghost predicate Disjoint(entries: seq<Entry>)
    requires WellFormed(entries)
  {
    forall i, j :: 0 <= i < j < ENTRIES ==> EntryPages(entries[i]).Keys !! EntryPages(entries[j]).Keys
  }

  // The page map agrees with this entry on all its pages.
  ghost predicate Mapped(m: Machine, e: Entry)
    requires e.mask <= 0xfff
  {
    forall p :: p in EntryPages(e) ==> p in m.pages && m.pages[p] == EntryPages(e)[p]
  }

  // Everything else: unmapped if an entry once covered it, otherwise as it was at the start.
  ghost predicate RestFits(m: Machine, base: PageMap)
    requires WellFormed(m.entries)
  {
    && (forall i :: 0 <= i < ENTRIES ==> EntryPages(m.entries[i]).Keys <= m.ever)
    && (forall p :: p !in m.ever ==> Lookup(m.pages, p) == Lookup(base, p))
    && (forall p :: p in m.ever && p in m.pages ==> Covered(m, p))
  }

  ghost predicate Covered(m: Machine, p: int)
    requires WellFormed(m.entries)
  {
    exists i :: 0 <= i < ENTRIES && p in EntryPages(m.entries[i])
  }

  ghost predicate Inv(m: Machine, base: PageMap) {
    && WellFormed(m.entries)
    && (forall i :: 0 <= i < ENTRIES ==> Mapped(m, m.entries[i]))
    && RestFits(m, base)
  }

  // ------------------------------------------------------------------ one write

  // Exactly when a write leaves the pages of another entry alone: the old contents of the slot
  // must not take a shared page away, and the new contents must not redirect one.
  lemma WriteKeepsOtherEntryIff(m: Machine, w: Write, e: Entry)
    requires WellFormed(m.entries) && w.index < ENTRIES && e.mask <= 0xfff && Mapped(m, e)
    ensures Mapped(Apply(m, w), e) <==>
      forall p :: p in EntryPages(e) ==>
        Lookup(EntryPages(Load(w.regs)), p) == Lookup(EntryPages(e), p)
        || (p !in EntryPages(Load(w.regs)) && p !in EntryPages(m.entries[w.index]))
  {
    PagesAfter(m.pages, EntryPages(m.entries[w.index]), EntryPages(Load(w.regs)), EntryPages(e));
  }

  lemma PagesAfter(pages: PageMap, taken: PageMap, added: PageMap, e: PageMap)
    requires forall p :: p in e ==> p in pages && pages[p] == e[p]
    ensures var n := pages - taken.Keys + added;
      (forall p :: p in e ==> p in n && n[p] == e[p]) <==>
      (forall p :: p in e ==> Lookup(added, p) == Lookup(e, p) || (p !in added && p !in taken))
  {
    var n := pages - taken.Keys + added;
    forall p | p in e
      ensures (p in n && n[p] == e[p]) <==> (Lookup(added, p) == Lookup(e, p) || (p !in added && p !in taken))
    {}
  }

  lemma WriteKeepsMapped(m: Machine, w: Write, i: nat)
    requires WellFormed(m.entries) && w.index < ENTRIES && i < ENTRIES
    requires Disjoint(m.entries) && Disjoint(Apply(m, w).entries)
    requires Mapped(m, m.entries[i])
    ensures Mapped(Apply(m, w), Apply(m, w).entries[i])
  {
    var j, n := w.index, Apply(m, w);
    if i != j {
      assert EntryPages(m.entries[i]).Keys !! EntryPages(m.entries[j]).Keys;
      assert EntryPages(n.entries[i]).Keys !! EntryPages(n.entries[j]).Keys;
      WriteKeepsOtherEntryIff(m, w, m.entries[i]);
    }
  }

  lemma WriteKeepsRest(m: Machine, w: Write, base: PageMap)
    requires WellFormed(m.entries) && w.index < ENTRIES && RestFits(m, base)
    ensures RestFits(Apply(m, w), base)
  {
    var n := Apply(m, w);
    assert EntryPages(m.entries[w.index]).Keys <= m.ever;
    forall p | p in n.ever && p in n.pages ensures Covered(n, p) {
      if p in EntryPages(Load(w.regs)) {
        assert n.entries[w.index] == Load(w.regs);
      } else {
        assert p in m.pages && p !in EntryPages(m.entries[w.index]);
        assert Covered(m, p);
        var i :| 0 <= i < ENTRIES && p in EntryPages(m.entries[i]);
        assert n.entries[i] == m.entries[i];
      }
    }
  }

  // ------------------------------------------------------------------ whole runs

  predicate InRange(run: seq<Write>) {
    forall i :: 0 <= i < |run| ==> run[i].index < ENTRIES
  }

  function After(m: Machine, run: seq<Write>): (n: Machine)
    requires WellFormed(m.entries) && InRange(run)
    ensures WellFormed(n.entries)
    decreases |run|
  {
    if run == [] then m else After(Apply(m, run[0]), run[1..])
  }

  // No two entries ever cover the same page.
  ghost predicate DisjointRun(m: Machine, run: seq<Write>)
    requires WellFormed(m.entries) && InRange(run)
    decreases |run|
  {
    Disjoint(m.entries) && (run != [] ==> DisjointRun(Apply(m, run[0]), run[1..]))
  }

  lemma {:induction false} RunKeepsInv(m: Machine, run: seq<Write>, base: PageMap)
    requires Inv(m, base) && InRange(run) && DisjointRun(m, run)
    ensures Inv(After(m, run), base) && Disjoint(After(m, run).entries)
    decreases |run|
  {
    if run != [] {
      var n := Apply(m, run[0]);
      forall i | 0 <= i < ENTRIES ensures Mapped(n, n.entries[i]) { WriteKeepsMapped(m, run[0], i); }
      WriteKeepsRest(m, run[0], base);
      RunKeepsInv(n, run[1..], base);
    }
  }

  lemma StartKeepsInv(base: PageMap)
    ensures Inv(Start(base), base) && Disjoint(Start(base).entries)
  {
    assert EntryPages(BLANK) == map[];
  }

  // After any run of writes with entries that never overlap, every page leads where its entry
  // says; a page no entry covers any more is unmapped; and a page no entry ever covered is as it
  // was.  The map is the union of the live entries, over what was there before.
  lemma PageMapIsUnion(base: PageMap, run: seq<Write>, p: int)
    requires InRange(run) && DisjointRun(Start(base), run)
    ensures var m := After(Start(base), run);
      && (forall i :: 0 <= i < ENTRIES && p in EntryPages(m.entries[i]) ==>
            Lookup(m.pages, p) == Lookup(EntryPages(m.entries[i]), p))
      && (!Covered(m, p) ==> Lookup(m.pages, p) == if p in m.ever then None else Lookup(base, p))
  {
    StartKeepsInv(base);
    RunKeepsInv(Start(base), run, base);
    var m := After(Start(base), run);
    forall i | 0 <= i < ENTRIES && p in EntryPages(m.entries[i])
      ensures Lookup(m.pages, p) == Lookup(EntryPages(m.entries[i]), p)
    {
      assert Mapped(m, m.entries[i]);
    }
  }

  // ------------------------------------------------------------------ the architecture's view

  // Entries are as WriteTLB makes them, or never written.
  predicate Genuine(entries: seq<Entry>) {
    forall i :: 0 <= i < |entries| ==> entries[i] == Load(entries[i].regs) || entries[i] == BLANK
  }

  lemma {:induction false} RunKeepsGenuine(m: Machine, run: seq<Write>)
    requires WellFormed(m.entries) && InRange(run) && Genuine(m.entries)
    ensures Genuine(After(m, run).entries)
    decreases |run|
  {
    if run != [] {
      LoadKeepsRegisters(run[0].regs);
      RunKeepsGenuine(Apply(m, run[0]), run[1..]);
    }
  }

  lemma LoadKeepsRegisters(r: Registers)
    ensures Load(r).regs == r
  {
  }

  lemma GenuineIsTranslation(e: Entry, p: nat)
    requires (e == Load(e.regs) || e == BLANK) && e.mask <= 0xfff && Contiguous(MaskOf(e.regs)) && p < PAGES
    ensures Lookup(EntryPages(e), p) == Translate(e.regs, p)
  {
    if e == Load(e.regs) {
      EntryIsTranslation(e.regs, p);
    } else {
      assert EntryPages(BLANK) == map[];
    }
  }

  ghost predicate AllContiguous(entries: seq<Entry>) {
    forall i :: 0 <= i < |entries| ==> Contiguous(MaskOf(entries[i].regs))
  }

  // With contiguous masks the page map is the architecture's translation, each entry taken in its
  // own address space: a page some entry translates leads there; a page no entry translates is
  // unmapped if one ever covered it, and as it was if none did.
  lemma LookupIsTranslation(base: PageMap, run: seq<Write>, p: nat)
    requires InRange(run) && DisjointRun(Start(base), run) && p < PAGES
    requires AllContiguous(After(Start(base), run).entries)
    ensures var m := After(Start(base), run);
      && (forall i :: 0 <= i < ENTRIES && Translate(m.entries[i].regs, p).Some? ==>
            Lookup(m.pages, p) == Translate(m.entries[i].regs, p))
      && ((forall i :: 0 <= i < ENTRIES ==> Translate(m.entries[i].regs, p).None?) ==>
            Lookup(m.pages, p) == if p in m.ever then None else Lookup(base, p))
  {
    var m := After(Start(base), run);
    RunKeepsGenuine(Start(base), run);
    PageMapIsUnion(base, run, p);
    forall i | 0 <= i < ENTRIES ensures Lookup(EntryPages(m.entries[i]), p) == Translate(m.entries[i].regs, p) {
      GenuineIsTranslation(m.entries[i], p);
    }
  }

  // In the address space `asid`, a page that an entry translates leads where the architecture
  // says through that entry if and only if the entry is global or of that space.
  lemma LookupInSpaceIff(base: PageMap, run: seq<Write>, i: nat, asid: nat, p: nat)
    requires InRange(run) && DisjointRun(Start(base), run) && p < PAGES && i < ENTRIES
    requires AllContiguous(After(Start(base), run).entries)
    requires Translate(After(Start(base), run).entries[i].regs, p).Some?
    ensures var m := After(Start(base), run);
      Lookup(m.pages, p) == TranslateIn(m.entries[i].regs, asid, p) <==> HoldsIn(m.entries[i].regs, asid)
  {
    LookupIsTranslation(base, run, p);
  }

  // ------------------------------------------------------------------ the class through a run

  // The class and the machine agree.
  ghost predicate Shows(cop: Cop0, m: Machine)
    reads cop, cop.tlb
  {
    cop.Valid() && WellFormed(m.entries) && cop.tlb[..] == m.entries && cop.pages == m.pages
  }

  method PlayIndexed(cop: Cop0, w: Write, ghost m: Machine)
    requires Shows(cop, m) && w.index < ENTRIES
    modifies cop, cop.tlb
    ensures cop.tlb == old(cop.tlb) && Shows(cop, Apply(m, w))
  {
    ghost var j := w.index;
    assert cop.tlb[j] == m.entries[j];
    cop.regs := w.regs;
    cop.index := w.index;
    assert cop.index % 0x40 == j;
    cop.WriteIndexed();
  }

  method PlayRandom(cop: Cop0, w: Write, ghost m: Machine)
    requires Shows(cop, m) && w.index < ENTRIES
    modifies cop, cop.tlb
    ensures cop.tlb == old(cop.tlb) && Shows(cop, Apply(m, w))
  {
    ghost var j := w.index;
    assert cop.tlb[j] == m.entries[j];
    cop.regs := w.regs;
    cop.random := w.index;
    assert cop.random % 0x40 == j;
    cop.WriteRandom();
  }

  // The methods of Cop0, one write after the other, leave what After says.
  method PlayWrites(cop: Cop0, run: seq<Write>, ghost m: Machine)
    requires Shows(cop, m) && InRange(run)
    modifies cop, cop.tlb
    ensures cop.tlb == old(cop.tlb) && Shows(cop, After(m, run))
  {
    ghost var now := m;
    for k := 0 to |run|
      invariant cop.tlb == old(cop.tlb) && Shows(cop, now)
      invariant After(now, run[k..]) == After(m, run)
    {
      assert run[k..][1..] == run[k + 1..];
      if run[k].random {
        PlayRandom(cop, run[k], now);
      } else {
        PlayIndexed(cop, run[k], now);
      }
      now := Apply(now, run[k]);
    }
  }

  // ------------------------------------------------------------------ overlapping entries

  // Two entries for page 0; when the second is cleared the first one's page is gone.
  lemma OverlapTakesPage(r: Registers, none: Registers)
    requires r == Registers(0, 0, 2, 0) && none == Registers(0, 0, 0, 0)
    ensures var m := After(Start(map[]), [Write(false, 0, r), Write(false, 1, r), Write(false, 1, none)]);
      m.entries[0] == Load(r) && 0 in EntryPages(Load(r)) && 0 !in m.pages
  {
    FirstOfZero(r, 0);
    EntryIsTranslation(r, 0);
    EntryIsTranslation(none, 0);
    var w0, w1, w2 := Write(false, 0, r), Write(false, 1, r), Write(false, 1, none);
    var m0 := Start(map[]);
    var m1 := Apply(m0, w0);
    var m2 := Apply(m1, w1);
    var m3 := Apply(m2, w2);
    assert [w0, w1, w2][1..] == [w1, w2] && [w1, w2][1..] == [w2] && [w2][1..] == [];
    assert After(m3, []) == m3;
    assert After(m2, [w2]) == m3;
    assert After(m1, [w1, w2]) == m3;
    assert After(m0, [w0, w1, w2]) == m3;
  }
}
