/** Checkpoints of the simulated memory: dumping walks every bucket of the page table, and
    restoring writes the dumped bytes into an empty memory. */
module Checkpoint {
  import opened Bits
  import opened Memory
  import opened Eio
  import opened Wrappers
  import Exo
  import Numbers

  // ---------- what a dump says ----------

  predicate Touched(ts: seq<Touch>, a: nat) {
    exists k :: 0 <= k < |ts| && ts[k].addr == a
  }

  /** Records of 64-bit addresses and whole pages. */
  predicate AllPages(pages: seq<Term>) {
    AllRegular(pages) && NoEmpty(pages)
  }

  /** The records hold bytes of the flat memory, and all that were ever written. */
  ghost predicate Dumped(pages: seq<Term>, flat: map<nat, byte>) {
    && AllRecs(pages) && AllPages(pages) && Shows(flat, Flatten(pages))
    && forall a | a in flat :: Touched(Flatten(pages), a)
  }

  lemma TouchedAppend(ts: seq<Touch>, us: seq<Touch>, a: nat)
    ensures Touched(ts + us, a) <==> Touched(ts, a) || Touched(us, a)
  {
    if Touched(ts, a) {
      var k :| 0 <= k < |ts| && ts[k].addr == a;
      assert (ts + us)[k].addr == a;
    }
    if Touched(us, a) {
      var k :| 0 <= k < |us| && us[k].addr == a;
      assert (ts + us)[|ts| + k].addr == a;
    }
  }

  lemma ShowsAppend(m: map<nat, byte>, ts: seq<Touch>, us: seq<Touch>)
    requires Shows(m, ts) && Shows(m, us)
    ensures Shows(m, ts + us)
  {
  }

  /** Writing bytes of a memory makes those addresses, and no others, agree with it. */
  lemma {:induction false} AppliedAgrees(m: map<nat, byte>, ts: seq<Touch>, flat: map<nat, byte>, a: nat)
    requires Shows(flat, ts)
    ensures Get(Applied(m, ts), a) == if Touched(ts, a) then Get(flat, a) else Get(m, a)
  {
    if ts != [] {
      var front, last := ts[..|ts| - 1], ts[|ts| - 1];
      AppliedAgrees(m, front, flat, a);
      assert ts == front + [last];
      TouchedAppend(front, [last], a);
      assert Touched([last], a) <==> last.addr == a by {
        assert [last][0].addr == last.addr;
      }
    }
  }

  // ---------- dumping ----------

  /** The bytes of one page, and their addresses. */
  lemma PageTouches(mem: Mem, n: Pte)
    requires mem.Valid() && n in mem.nodes
    ensures var addr := PteAddr(n.tag, n.home);
            && addr < ADDR_SPACE && n.page.Length == MD_PAGE_SIZE
            && Shows(mem.flat, Touches(addr, n.page[..]))
            && forall a: nat | Mem.Covers(n, a) :: Touched(Touches(addr, n.page[..]), a)
  {
    hide MembersOk, Linked, Touches;
    mem.HomesInRange(n);
    var addr := PteAddr(n.tag, n.home);
    var ts := Touches(addr, n.page[..]);
    PageInSpace(n.tag, n.home, 0);
    forall k | 0 <= k < |ts| ensures ts[k].addr == addr + k && Get(mem.flat, ts[k].addr) == ts[k].val {
      PageInSpace(n.tag, n.home, k);
      assert Mem.ByteAddr(n, k) == addr + k;
    }
    forall a: nat | Mem.Covers(n, a) ensures Touched(ts, a) {
      SplitInverts(a, n.tag, n.home, Offset(a));
      assert ts[Offset(a)].addr == a;
    }
  }

  lemma PageInSpace(tag: nat, idx: nat, k: nat)
    requires tag < TAGS && idx < MEM_PTAB_SIZE && k < MD_PAGE_SIZE
    ensures Wrap(PteAddr(tag, idx) + k) == PteAddr(tag, idx) + k
    ensures PteAddr(tag, idx) + MD_PAGE_SIZE <= ADDR_SPACE
  {
  }

  /** What has been dumped after visiting some entries. */
  ghost predicate DumpedSo(mem: Mem, seen: set<Pte>, pages: seq<Term>)
    reads mem`nodes, mem`flat
  {
    && seen <= mem.nodes && |pages| == |seen|
    && AllRecs(pages) && AllPages(pages) && Shows(mem.flat, Flatten(pages))
    && forall n, a: nat | n in seen && Mem.Covers(n, a) :: Touched(Flatten(pages), a)
  }

  lemma DumpOne(mem: Mem, seen: set<Pte>, pages: seq<Term>, n: Pte)
    requires mem.Valid() && n in mem.nodes && n !in seen && DumpedSo(mem, seen, pages)
    ensures DumpedSo(mem, seen + {n}, pages + [MakeRec(PteAddr(n.tag, n.home), n.page[..])])
  {
    hide mem.TableOk, mem.PagesOk, mem.Agrees, Touches, Flatten, Shows, Touched, AllRecs, AllRegular, NoEmpty, PteAddr;
    PageTouches(mem, n);
    var addr, data := PteAddr(n.tag, n.home), n.page[..];
    Extended(pages, addr, data);
    ShowsAppend(mem.flat, Flatten(pages), Touches(addr, data));
    forall m, a: nat | m in seen + {n} && Mem.Covers(m, a)
      ensures Touched(Flatten(pages + [MakeRec(addr, data)]), a)
    {
      TouchedAppend(Flatten(pages), Touches(addr, data), a);
    }
  }

  /** MEM_FORALL: every bucket in turn, and every entry of its list. The pages are printed behind
      the terms that are there already. */
  method DumpPages(mem: Mem, printer: Exo.Printer, stray: bool, ghost lead: seq<Term>, ghost base: string)
      returns (ghost pages: seq<Term>)
    requires mem.Valid() && printer.out == base + Exo.PrintAll(stray, lead)
    modifies printer
    ensures mem.Valid() && Dumped(pages, mem.flat) && |pages| == mem.pageCount
    ensures printer.out == base + Exo.PrintAll(stray, lead + pages)
  {
    hide DumpedSo, mem.TableOk, mem.PagesOk, mem.Agrees, Exo.PrintAll;
    pages := [];
    assert lead + pages == lead;
    ghost var seen: set<Pte> := {};
    NothingDumped(mem);
    for i := 0 to MEM_PTAB_SIZE
      invariant mem.Valid() && DumpedSo(mem, seen, pages)
      invariant forall n | n in mem.nodes :: n in seen <==> n.home < i
      invariant printer.out == base + Exo.PrintAll(stray, lead + pages)
    {
      pages, seen := DumpBucket(mem, i, printer, stray, lead, base, pages, seen);
    }
    AllDumped(mem, seen, pages);
  }

  lemma NothingDumped(mem: Mem)
    ensures DumpedSo(mem, {}, [])
  {
  }

  lemma AllDumped(mem: Mem, seen: set<Pte>, pages: seq<Term>)
    requires mem.Valid() && DumpedSo(mem, seen, pages)
    requires forall n | n in mem.nodes :: n in seen <==> n.home < MEM_PTAB_SIZE
    ensures Dumped(pages, mem.flat) && |pages| == mem.pageCount
  {
    hide Linked, Touched;
    assert seen == mem.nodes;
    forall a | a in mem.flat ensures Touched(Flatten(pages), a) {
      assert mem.Mapped(a);
    }
  }

  /** The records of some entries of bucket i, in order. */
  ghost predicate InOrder(ts: seq<Term>, chain: seq<Pte>, i: nat)
    reads set n | n in chain :: n.page
  {
    |ts| == |chain| && forall j | 0 <= j < |ts| :: ts[j] == MakeRec(PteAddr(chain[j].tag, i), chain[j].page[..])
  }

  /** Printing does not touch memory. */
  lemma Apart(mem: Mem, printer: object)
    requires printer is Exo.Printer
    ensures printer != mem && printer != mem.ptab && printer !in mem.nodes && printer !in mem.Pages()
  {
  }

  /** The entries of one bucket. */
  method DumpBucket(mem: Mem, i: nat, printer: Exo.Printer, stray: bool, ghost lead: seq<Term>, ghost base: string,
                    ghost before: seq<Term>, ghost seenBefore: set<Pte>)
      returns (ghost pages: seq<Term>, ghost seen: set<Pte>)
    requires mem.Valid() && i < MEM_PTAB_SIZE && DumpedSo(mem, seenBefore, before)
    requires forall n | n in mem.nodes :: n in seenBefore <==> n.home < i
    requires printer.out == base + Exo.PrintAll(stray, lead + before)
    modifies printer
    ensures mem.Valid() && DumpedSo(mem, seen, pages)
    ensures forall n | n in mem.nodes :: n in seen <==> n.home < i + 1
    ensures i < |mem.chains| && before <= pages && InOrder(pages[|before|..], mem.chains[i], i)
    ensures printer.out == base + Exo.PrintAll(stray, lead + pages)
  {
    hide DumpedSo, InOrder, mem.TableOk, mem.PagesOk, mem.Agrees, Exo.PrintAll, Exo.Print, PteAddr;
    EmptyOrder(before, i);
    BucketOk(mem, i);
    ghost var chain := mem.chains[i];
    ghost var k := 0;
    pages, seen := before, seenBefore;
    var pte := mem.ptab[i];
    while pte != null
      invariant 0 <= k <= |chain| && pte == (if k < |chain| then chain[k] else null)
      invariant mem.Valid() && DumpedSo(mem, seen, pages)
      invariant forall n | n in mem.nodes :: n in seen <==> n.home < i || n in chain[..k]
      invariant before <= pages && InOrder(pages[|before|..], chain[..k], i)
      invariant printer.out == base + Exo.PrintAll(stray, lead + pages)
      decreases |chain| - k
    {
      NotYet(chain, k);
      DumpOne(mem, seen, pages, pte);
      NextInOrder(before, pages, chain, k, i);
      var exo := MakeRec(PteAddr(pte.tag, i), pte.page[..]);
      PrintedNext(stray, lead, pages, exo, base);
      Apart(mem, printer);
      printer.PrintLine(stray, exo);
      pages := pages + [exo];
      seen := seen + {pte};
      assert chain[k].next == if k + 1 < |chain| then chain[k + 1] else null;
      assert chain[..k + 1] == chain[..k] + [chain[k]];
      pte := pte.next;
      k := k + 1;
    }
    assert chain[..k] == chain;
  }

  lemma PrintedNext(stray: bool, lead: seq<Term>, pages: seq<Term>, t: Term, base: string)
    ensures base + Exo.PrintAll(stray, lead + (pages + [t])) ==
            base + Exo.PrintAll(stray, lead + pages) + (Exo.Print(stray, t) + "\n\n")
  {
    hide Exo.PrintAll, Exo.Print;
    assert lead + (pages + [t]) == (lead + pages) + [t];
    Exo.PrintAllNext(stray, lead + pages, t);
  }

  lemma EmptyOrder(before: seq<Term>, i: nat)
    ensures InOrder(before[|before|..], [], i)
  {
  }

  lemma NextInOrder(before: seq<Term>, pages: seq<Term>, chain: seq<Pte>, k: nat, i: nat)
    requires k < |chain| && before <= pages && InOrder(pages[|before|..], chain[..k], i)
    ensures var t := MakeRec(PteAddr(chain[k].tag, i), chain[k].page[..]);
            before <= pages + [t] && InOrder((pages + [t])[|before|..], chain[..k + 1], i)
  {
    hide MakeRec, PteAddr;
    var t := MakeRec(PteAddr(chain[k].tag, i), chain[k].page[..]);
    assert (pages + [t])[|before|..] == pages[|before|..] + [t];
  }

  lemma BucketOk(mem: Mem, i: nat)
    requires mem.Valid() && i < MEM_PTAB_SIZE
    ensures mem.ptab.Length == |mem.chains| == MEM_PTAB_SIZE
    ensures Linked(mem.ptab[i], mem.chains[i]) && ChainOk(mem.chains[i], i, mem.nodes)
    ensures forall n | n in mem.nodes && n.home == i :: n in mem.chains[i]
  {
  }

  lemma NotYet(chain: seq<Pte>, k: nat)
    requires k < |chain| && forall i, j | 0 <= i < j < |chain| :: chain[i].tag != chain[j].tag
    ensures chain[k] !in chain[..k]
  {
  }

  // ---------- the other terms ----------

  const HEAD_TERMS: nat := 8

  datatype Segment = Segment(base: nat, size: nat)

  /** The counters, and what the loader knows of the program. */
  datatype Globals = Globals(transIcnt: nat, icnt: nat, brk: nat, stackMin: nat,
                             text: Segment, data: Segment, stack: Segment)

  /** What a checkpoint holds besides memory. */
  datatype Image = Image(g: Globals, pc: nat, uniq: nat, arch: Arch)

  predicate SegmentOk(s: Segment) {
    s.base < WORD64 && s.size < WORD32
  }

  predicate ImageOk(im: Image) {
    && im.g.transIcnt < WORD64 && im.g.icnt < WORD64 && im.pc < WORD64 && im.uniq < WORD64
    && im.g.brk < WORD64 && im.g.stackMin < WORD64 && ArchOk(im.arch)
    && SegmentOk(im.g.text) && SegmentOk(im.g.data) && SegmentOk(im.g.stack)
  }

  function SegmentTerm(s: Segment): Term {
    Exo.List([Exo.Address(s.base), Exo.Integer(s.size)])
  }

  function MiscTerm(im: Image): Term {
    Exo.List([Exo.Integer(im.g.icnt), Exo.Address(im.pc), Exo.Address(im.arch.npc), Exo.Integer(im.arch.fpcr),
              Exo.Integer(im.uniq)])
  }

  function MemoryTerm(count: nat, brk: nat, stackMin: nat): Term {
    Exo.List([Exo.Integer(count), Exo.Address(brk), Exo.Address(stackMin)])
  }

  /** The terms in front of the pages. */
  function HeadTerms(im: Image, count: nat): (ts: seq<Term>)
    ensures |ts| == HEAD_TERMS
  {
    [Exo.Integer(im.g.transIcnt), MiscTerm(im), Exo.List(RegTerms(im.arch.r)), Exo.List(RegTerms(im.arch.f)),
     MemoryTerm(count, im.g.brk, im.g.stackMin), SegmentTerm(im.g.text), SegmentTerm(im.g.data),
     SegmentTerm(im.g.stack)]
  }

  predicate IsSegment(t: Term) {
    t.List? && |t.elts| == 2 && t.elts[0].Address? && t.elts[1].Integer?
  }

  /** The checks of the reader, one for each term. */
  predicate HeadOk(i: nat, t: Term) {
    if i == 0 then t.Integer?
    else if i == 1 then
      t.List? && |t.elts| == 5 && t.elts[0].Integer? && t.elts[1].Address? && t.elts[2].Address? &&
      t.elts[3].Integer? && t.elts[4].Integer?
    else if i == 2 then t.List? && |t.elts| == NUM_IREGS && AllAddresses(t.elts)
    else if i == 3 then t.List? && |t.elts| == NUM_FREGS && AllAddresses(t.elts)
    else if i == 4 then
      t.List? && |t.elts| == 3 && t.elts[0].Integer? && t.elts[1].Address? && t.elts[2].Address?
    else IsSegment(t)
  }

  predicate AllHeadOk(ts: seq<Term>) {
    forall i | 0 <= i < |ts| :: HeadOk(i, ts[i])
  }

  function Values(ts: seq<Term>): (vals: seq<nat>)
    requires AllAddresses(ts)
    ensures |vals| == |ts| && forall i | 0 <= i < |ts| :: vals[i] == ts[i].val
  {
    if ts == [] then [] else Values(ts[..|ts| - 1]) + [ts[|ts| - 1].val]
  }

  /** Sizes are unsigned ints in the loader. */
  function SegmentOf(t: Term): Segment
    requires IsSegment(t)
  {
    Segment(t.elts[0].val, t.elts[1].val % WORD32)
  }

  function ImageOf(h: seq<Term>): Image
    requires |h| == HEAD_TERMS && AllHeadOk(h)
  {
    assert HeadOk(0, h[0]) && HeadOk(1, h[1]) && HeadOk(2, h[2]) && HeadOk(3, h[3]) && HeadOk(4, h[4]);
    assert HeadOk(5, h[5]) && HeadOk(6, h[6]) && HeadOk(7, h[7]);
    var misc := h[1].elts;
    Image(Globals(h[0].val, misc[0].val, h[4].elts[1].val, h[4].elts[2].val,
                  SegmentOf(h[5]), SegmentOf(h[6]), SegmentOf(h[7])),
          misc[1].val, misc[4].val, Arch(Values(h[2].elts), Values(h[3].elts), misc[3].val, misc[2].val))
  }

  /** The number of pages to read: the count cut to an int, which may come out negative. */
  function PagesToRead(h: seq<Term>): nat
    requires |h| == HEAD_TERMS && AllHeadOk(h)
  {
    assert HeadOk(4, h[4]);
    var n := Numbers.ToInt32(h[4].elts[0].val);
    if n < 0 then 0 else n
  }

  /** A list of so many addresses. */
  predicate Addresses(t: Term, n: nat) {
    t.List? && |t.elts| == n && forall i | 0 <= i < n :: t.elts[i].Address?
  }

  /** The eight terms, by their places: the count of the last transaction; instruction count,
      program counter, next program counter, control register and unique value; the registers; the
      number of pages, break and stack; and the three segments, an address and a size each. */
  lemma HeadMeans(h: seq<Term>)
    requires |h| == 8
    ensures AllHeadOk(h) <==>
            && h[0].Integer?
            && h[1].List? && |h[1].elts| == 5 && h[1].elts[0].Integer? && h[1].elts[1].Address?
            && h[1].elts[2].Address? && h[1].elts[3].Integer? && h[1].elts[4].Integer?
            && Addresses(h[2], 32) && Addresses(h[3], 32)
            && h[4].List? && |h[4].elts| == 3 && h[4].elts[0].Integer? && h[4].elts[1].Address?
            && h[4].elts[2].Address?
            && forall k | 5 <= k < 8 ::
                 h[k].List? && |h[k].elts| == 2 && h[k].elts[0].Address? && h[k].elts[1].Integer?
    ensures AllHeadOk(h) ==>
              var im := ImageOf(h);
              && im.g.transIcnt == h[0].val && im.g.icnt == h[1].elts[0].val && im.pc == h[1].elts[1].val
              && im.arch.npc == h[1].elts[2].val && im.arch.fpcr == h[1].elts[3].val && im.uniq == h[1].elts[4].val
              && |im.arch.r| == |im.arch.f| == 32
              && (forall i | 0 <= i < 32 :: im.arch.r[i] == h[2].elts[i].val && im.arch.f[i] == h[3].elts[i].val)
              && im.g.brk == h[4].elts[1].val && im.g.stackMin == h[4].elts[2].val
              && im.g.text == Segment(h[5].elts[0].val, h[5].elts[1].val % 0x1_0000_0000)
              && im.g.data == Segment(h[6].elts[0].val, h[6].elts[1].val % 0x1_0000_0000)
              && im.g.stack == Segment(h[7].elts[0].val, h[7].elts[1].val % 0x1_0000_0000)
  {
    PlacesOk(h);
    if AllHeadOk(h) {
      assert HeadOk(2, h[2]) && HeadOk(3, h[3]);
    }
  }

  lemma PlacesOk(h: seq<Term>)
    requires |h| == 8
    ensures AllHeadOk(h) <==>
            && HeadOk(0, h[0]) && HeadOk(1, h[1]) && HeadOk(2, h[2]) && HeadOk(3, h[3])
            && HeadOk(4, h[4]) && HeadOk(5, h[5]) && HeadOk(6, h[6]) && HeadOk(7, h[7])
  {
    hide HeadOk;
  }

  lemma HeadReads(im: Image, count: nat)
    requires ImageOk(im) && count < WORD64
    ensures var h := HeadTerms(im, count);
            var n := Numbers.ToInt32(count);
            AllHeadOk(h) && ImageOf(h) == im && PagesToRead(h) == if n < 0 then 0 else n
  {
    var h := HeadTerms(im, count);
    assert Values(h[2].elts) == im.arch.r && Values(h[3].elts) == im.arch.f;
  }

  lemma HeadIs(im: Image, count: nat)
    requires ImageOk(im) && count < WORD64
    ensures forall i | 0 <= i < HEAD_TERMS :: Exo.WellFormed(HeadTerms(im, count)[i])
  {
  }

  /** The count of pages is an int to the reader: exactly from 2^31 pages on, some are lost. */
  lemma AllPagesRead(im: Image, count: nat)
    requires ImageOk(im) && count < WORD64
    ensures AllHeadOk(HeadTerms(im, count))
    ensures PagesToRead(HeadTerms(im, count)) == count <==> count < Exo.INT_LIMIT
  {
    hide HeadTerms, ImageOf, PagesToRead, AllHeadOk;
    HeadReads(im, count);
  }

  // ---------- writing ----------

  method RegisterList(vals: seq<nat>) returns (list: seq<Term>)
    ensures list == RegTerms(vals)
  {
    list := [];
    for i := 0 to |vals|
      invariant list == RegTerms(vals[..i])
    {
      list := list + [Exo.Address(vals[i])];
      assert vals[..i + 1] == vals[..i] + [vals[i]];
      RegTermsNext(vals[..i], vals[i]);
    }
    assert vals[..|vals|] == vals;
  }

  /** One more term of the head. */
  method WriteNext(printer: Exo.Printer, stray: bool, t: Term, ghost done: seq<Term>, ghost base: string)
      returns (ghost ts: seq<Term>)
    requires printer.out == base + Exo.PrintAll(stray, done)
    modifies printer
    ensures ts == done + [t] && printer.out == base + Exo.PrintAll(stray, ts)
  {
    hide Exo.PrintAll, Exo.Print;
    ts := done + [t];
    PrintedNext(stray, [], done, t, base);
    assert [] + ts == ts && [] + done == done;
    printer.PrintLine(stray, t);
  }

  method WriteHead(printer: Exo.Printer, stray: bool, regs: Regs, g: Globals, count: nat)
      returns (ghost ts: seq<Term>)
    requires regs.Valid()
    modifies printer
    ensures ts == HeadTerms(Image(g, regs.pc, regs.uniq, regs.Now()), count)
    ensures printer.out == old(printer.out) + Exo.PrintAll(stray, ts)
  {
    hide Exo.PrintAll, Exo.Print, RegTerms;
    ghost var base := printer.out;
    NothingPrinted(stray, base);
    ghost var im := Image(g, regs.pc, regs.uniq, regs.Now());
    var iregs := RegisterList(regs.r[..]);
    var fregs := RegisterList(regs.f);
    ts := WriteNext(printer, stray, Exo.Integer(g.transIcnt), [], base);
    ts := WriteNext(printer, stray,
                    Exo.List([Exo.Integer(g.icnt), Exo.Address(regs.pc), Exo.Address(regs.npc),
                              Exo.Integer(regs.fpcr), Exo.Integer(regs.uniq)]), ts, base);
    ts := WriteNext(printer, stray, Exo.List(iregs), ts, base);
    ts := WriteNext(printer, stray, Exo.List(fregs), ts, base);
    ts := WriteNext(printer, stray, MemoryTerm(count, g.brk, g.stackMin), ts, base);
    ts := WriteNext(printer, stray, SegmentTerm(g.text), ts, base);
    ts := WriteNext(printer, stray, SegmentTerm(g.data), ts, base);
    ts := WriteNext(printer, stray, SegmentTerm(g.stack), ts, base);
  }

  lemma NothingPrinted(stray: bool, base: string)
    ensures base + Exo.PrintAll(stray, []) == base
  {
  }

  /** eio_write_chkpt. */
  method WriteCheckpoint(printer: Exo.Printer, stray: bool, regs: Regs, g: Globals, mem: Mem)
      returns (ghost pages: seq<Term>)
    requires regs.Valid() && mem.Valid()
    modifies printer
    ensures mem.Valid() && Dumped(pages, mem.flat) && |pages| == mem.pageCount
    ensures var im := Image(g, regs.pc, regs.uniq, regs.Now());
            printer.out == old(printer.out) + Exo.PrintAll(stray, HeadTerms(im, |pages|) + pages)
  {
    hide mem.TableOk, mem.PagesOk, mem.Agrees, Dumped, HeadTerms, Exo.PrintAll;
    ghost var base := printer.out;
    Apart(mem, printer);
    ghost var head := WriteHead(printer, stray, regs, g, mem.pageCount);
    pages := DumpPages(mem, printer, stray, head, base);
  }

  // ---------- restoring ----------

  datatype Restoration = NotRestored | Restored(image: Image, mem: map<nat, byte>, st: Exo.State)

  /** What restoring from a text means. NotRestored is an error exit, or text with constructs
      that the printer never emits. */
  function Restoring(text: string, st: Exo.State, m: map<nat, byte>): Restoration
    requires st.pos <= |text|
  {
    var head := Exo.ReadMany(text, st, HEAD_TERMS);
    if head.None? || !AllHeadOk(head.value.ts) then NotRestored
    else
      var pages := Exo.ReadMany(text, head.value.st, PagesToRead(head.value.ts));
      if pages.None? || !AllRecs(pages.value.ts) then NotRestored
      else Restored(ImageOf(head.value.ts), Applied(m, Flatten(pages.value.ts)), pages.value.st)
  }

  /** The terms in front of the pages, each checked as it is read. */
  method ReadHead(reader: Exo.Reader) returns (head: Option<seq<Term>>)
    requires reader.Valid()
    modifies reader
    ensures reader.Valid()
    ensures var goal := Exo.ReadMany(reader.text, old(reader.st), HEAD_TERMS);
            match head
            case Some(ts) => goal == Some(Exo.Run(ts, reader.st)) && AllHeadOk(ts)
            case None => goal.None? || !AllHeadOk(goal.value.ts)
  {
    hide Exo.Read, HeadOk;
    var ts: seq<Term> := [];
    for i := 0 to HEAD_TERMS
      invariant reader.Valid() && AllHeadOk(ts)
      invariant Exo.ReadMany(reader.text, old(reader.st), i) == Some(Exo.Run(ts, reader.st))
    {
      Exo.ReadManyStops(reader.text, old(reader.st), i + 1, HEAD_TERMS);
      var r := reader.ReadTerm();
      if !r.Got? {
        return None;
      }
      ts := ts + [r.term];
      if !HeadOk(i, r.term) {
        NotAllHead(reader.text, old(reader.st), i);
        return None;
      }
    }
    head := Some(ts);
  }

  lemma NotAllHead(text: string, st: Exo.State, i: nat)
    requires st.pos <= |text| && i < HEAD_TERMS
    requires var r := Exo.ReadMany(text, st, i + 1); r.Some? && !HeadOk(i, r.value.ts[i])
    ensures var goal := Exo.ReadMany(text, st, HEAD_TERMS); goal.None? || !AllHeadOk(goal.value.ts)
  {
    hide Exo.ReadMany, HeadOk;
    Exo.ReadManyStops(text, st, i + 1, HEAD_TERMS);
  }

  /** The pages, each written to memory as it is read. */
  method ReadPages(reader: Exo.Reader, count: nat, mem: Mem) returns (ok: bool)
    requires reader.Valid() && mem.Valid()
    modifies reader, mem, mem.ptab, mem.nodes`next, mem.Pages()
    ensures reader.Valid() && mem.Valid() && mem.OnlyNewPages()
    ensures var goal := Exo.ReadMany(reader.text, old(reader.st), count);
            && (ok <==> goal.Some? && AllRecs(goal.value.ts))
            && (ok ==> goal.value.st == reader.st && mem.flat == Applied(old(mem.flat), Flatten(goal.value.ts)))
  {
    hide mem.TableOk, mem.PagesOk, mem.Agrees, Applied, Flatten, FlatWrite, Touches, Exo.Read;
    ghost var ts: seq<Term> := [];
    NothingApplied(mem.flat);
    for i := 0 to count
      invariant reader.Valid() && mem.Valid() && mem.OnlyNewPages() && AllRecs(ts)
      invariant Exo.ReadMany(reader.text, old(reader.st), i) == Some(Exo.Run(ts, reader.st))
      invariant mem.flat == Applied(old(mem.flat), Flatten(ts))
    {
      Exo.ReadManyStops(reader.text, old(reader.st), i + 1, count);
      var r := reader.ReadTerm();
      if !r.Got? {
        return false;
      }
      ghost var before := ts;
      ts := ts + [r.term];
      if !IsRec(r.term) {
        NotAllRecs(reader.text, old(reader.st), i, count);
        return false;
      }
      RestorePage(mem, r.term.elts[0].val, r.term.elts[1].data);
      assert ts[..i + 1] == ts && ts[..i] == before;
      NextApplied(old(mem.flat), ts, i);
    }
    ok := true;
  }

  lemma NotAllRecs(text: string, st: Exo.State, i: nat, count: nat)
    requires st.pos <= |text| && i < count
    requires var r := Exo.ReadMany(text, st, i + 1); r.Some? && !IsRec(r.value.ts[i])
    ensures var goal := Exo.ReadMany(text, st, count); goal.None? || !AllRecs(goal.value.ts)
  {
    hide Exo.ReadMany, IsRec;
    Exo.ReadManyStops(text, st, i + 1, count);
  }

  /** eio_read_chkpt. */
  method Restore(reader: Exo.Reader, regs: Regs, mem: Mem) returns (g: Option<Globals>)
    requires reader.Valid() && regs.Valid() && mem.Valid()
    modifies reader, regs, regs.r, mem, mem.ptab, mem.nodes`next, mem.Pages()
    ensures reader.Valid() && regs.Valid() && mem.Valid() && mem.OnlyNewPages()
    ensures var goal := Restoring(reader.text, old(reader.st), old(mem.flat));
            match g
            case Some(v) => goal == Restored(Image(v, regs.pc, regs.uniq, regs.Now()), mem.flat, reader.st)
            case None => goal == NotRestored
  {
    hide mem.TableOk, mem.PagesOk, mem.Agrees, Applied, Flatten, ImageOf, PagesToRead, AllHeadOk, Exo.ReadMany;
    var head := ReadHead(reader);
    if head.None? {
      return None;
    }
    var im := ImageOf(head.value);
    ImageSizes(head.value);
    regs.Set(im.arch);
    regs.pc, regs.uniq := im.pc, im.uniq;
    var ok := ReadPages(reader, PagesToRead(head.value), mem);
    g := if ok then Some(im.g) else None;
  }

  lemma ImageSizes(h: seq<Term>)
    requires |h| == HEAD_TERMS && AllHeadOk(h)
    ensures |ImageOf(h).arch.r| == NUM_IREGS
  {
    assert HeadOk(2, h[2]);
  }

  /** The bytes of one page, through MEM_WRITE_BYTE. */
  method RestorePage(mem: Mem, addr: nat, data: seq<byte>)
    requires mem.Valid()
    modifies mem, mem.ptab, mem.nodes`next, mem.Pages()
    ensures mem.Valid() && mem.OnlyNewPages() && mem.flat == FlatWrite(old(mem.flat), addr, data)
  {
    hide mem.TableOk, mem.PagesOk, mem.Agrees, Wrap, FlatWrite;
    var pageAddr := Wrap(addr);
    FlatWriteNothing(mem.flat, addr, data);
    for j := 0 to |data|
      invariant mem.Valid() && mem.OnlyNewPages() && pageAddr == Wrap(addr + j)
      invariant mem.flat == FlatWrite(old(mem.flat), addr, data[..j])
    {
      mem.WriteByte(pageAddr, data[j]);
      FlatWriteNext(old(mem.flat), addr, data, j);
      WrapTwice(addr + j, 1);
      pageAddr := Wrap(pageAddr + 1);
    }
    assert data[..|data|] == data;
  }

  lemma PagesAre(pages: seq<Term>)
    requires AllRecs(pages) && AllPages(pages)
    ensures forall i | 0 <= i < |pages| :: Exo.WellFormed(pages[i])
  {
    forall i | 0 <= i < |pages| ensures Exo.WellFormed(pages[i]) {
      RecordIs(pages[i]);
      Exo.WellFormedIs(pages[i]);
    }
  }

  /** Everything that m0 shows was written in flat, too. */
  ghost predicate Within(m0: map<nat, byte>, flat: map<nat, byte>) {
    forall a: nat | Get(m0, a) != 0 :: a in flat
  }

  lemma RestoreOver(pages: seq<Term>, m0: map<nat, byte>, flat: map<nat, byte>)
    requires Dumped(pages, flat) && Within(m0, flat)
    ensures Same(flat, Applied(m0, Flatten(pages)))
  {
    hide Applied, Flatten, Touched, AllPages, AllRecs, Shows;
    forall a ensures Get(Applied(m0, Flatten(pages)), a) == Get(flat, a) {
      if a >= 0 {
        AppliedAgrees(m0, Flatten(pages), flat, a);
      }
    }
  }

  /** A checkpoint printed anywhere in a text, whatever follows it, is restored as it was:
      counters, registers, and the byte at every address. The memory it is restored into may
      show bytes at addresses that were written in the dumped memory, too. The reader takes
      exactly the terms that were written. */
  lemma CheckpointRoundTrip(stray: bool, im: Image, pages: seq<Term>, rest: seq<Term>, flat: map<nat, byte>,
                            m0: map<nat, byte>, text: string, pos: nat, p: nat)
    requires ImageOk(im) && Dumped(pages, flat) && |pages| < Exo.INT_LIMIT && Within(m0, flat)
    requires Exo.Here(text, p, Exo.PrintAll(stray, HeadTerms(im, |pages|) + pages + rest)) && Exo.Sees(text, pos, p)
    ensures var ts := HeadTerms(im, |pages|) + pages + rest;
            var r := Restoring(text, Exo.State(pos, false), m0);
            && r.Restored? && r.image == im && Same(flat, r.mem)
            && r.st == Exo.State(Exo.Behind(stray, ts, pos, p, HEAD_TERMS + |pages|), false)
  {
    hide Applied, Flatten, HeadTerms, AllHeadOk, ImageOf, PagesToRead, AllPages, AllRecs, Shows, Within, Same;
    hide Exo.PrintAll, Exo.Here, Exo.ReadMany, Exo.Behind, Exo.WellFormed, ImageOk;
    var n, head := |pages|, HeadTerms(im, |pages|);
    var ts := head + pages + rest;
    HeadReads(im, n);
    HeadIs(im, n);
    PagesAre(pages);
    Exo.FirstBehind(stray, ts, pos, p);
    Exo.ManyRead(stray, ts, text, pos, p, 0, HEAD_TERMS);
    Exo.ManyRead(stray, ts, text, pos, p, HEAD_TERMS, n);
    assert ts[0..HEAD_TERMS] == head && ts[HEAD_TERMS..HEAD_TERMS + n] == pages;
    RestoreOver(pages, m0, flat);
  }

  /** Restoring a checkpoint, whatever follows it in the text, into a new machine. */
  method LoadMachine(reader: Exo.Reader, ghost stray: bool, ghost im: Image,
                     ghost pages: seq<Term>, ghost ts: seq<Term>, ghost flat: map<nat, byte>)
      returns (regs: Regs, g: Globals, mem: Mem)
    requires ImageOk(im) && Dumped(pages, flat) && |pages| < Exo.INT_LIMIT && reader.st == Exo.State(0, false)
    requires reader.text == Exo.PrintAll(stray, HeadTerms(im, |pages|) + pages + ts)
    modifies reader
    ensures fresh(regs) && fresh(regs.r) && regs.Valid() && Image(g, regs.pc, regs.uniq, regs.Now()) == im
    ensures fresh(mem) && fresh(mem.ptab) && fresh(mem.nodes) && fresh(mem.Pages())
    ensures mem.Valid() && Same(flat, mem.flat) && reader.Valid()
    ensures var all := HeadTerms(im, |pages|) + pages + ts;
            reader.st == Exo.State(Exo.Behind(stray, all, 0, 0, HEAD_TERMS + |pages|), false)
  {
    hide mem.TableOk, mem.PagesOk, mem.Agrees, Dumped, Restoring, HeadTerms, ImageOk;
    hide Exo.PrintAll, Exo.Here, Exo.Behind;
    Exo.HereIs(reader.text, reader.text);
    CheckpointRoundTrip(stray, im, pages, ts, flat, map[], reader.text, 0, 0);
    regs := new Regs(Arch(seq(NUM_IREGS, i => 0), seq(NUM_FREGS, i => 0), 0, 0), 0, 0);
    mem := new Mem();
    var g1 := Restore(reader, regs, mem);
    g := g1.value;
  }

  method Dump(stray: bool, regs: Regs, g: Globals, mem: Mem) returns (text: string, ghost pages: seq<Term>)
    requires regs.Valid() && mem.Valid()
    ensures mem.Valid() && Dumped(pages, mem.flat) && |pages| == mem.pageCount
    ensures text == Exo.PrintAll(stray, HeadTerms(Image(g, regs.pc, regs.uniq, regs.Now()), |pages|) + pages)
  {
    hide mem.TableOk, mem.PagesOk, mem.Agrees, Dumped, HeadTerms, Exo.PrintAll;
    var printer := new Exo.Printer();
    Apart(mem, printer);
    pages := WriteCheckpoint(printer, stray, regs, g, mem);
    ghost var ts := HeadTerms(Image(g, regs.pc, regs.uniq, regs.Now()), |pages|) + pages;
    assert "" + Exo.PrintAll(stray, ts) == Exo.PrintAll(stray, ts);
    text := printer.out;
  }

  /** Dumping a machine and restoring the dump into a new one. */
  method DumpThenRestore(stray: bool, regs: Regs, g: Globals, mem: Mem)
      returns (regs': Regs, g': Globals, mem': Mem)
    requires regs.Valid() && mem.Valid() && ImageOk(Image(g, regs.pc, regs.uniq, regs.Now()))
    requires mem.pageCount < Exo.INT_LIMIT
    ensures mem'.Valid() && fresh(mem') && Same(mem.flat, mem'.flat) && g' == g
    ensures regs'.Valid() && fresh(regs') && regs'.Now() == regs.Now() && regs'.pc == regs.pc && regs'.uniq == regs.uniq
  {
    hide mem.TableOk, mem.PagesOk, mem.Agrees, Dumped, Same, HeadTerms, ImageOk, Exo.PrintAll;
    var text;
    ghost var pages;
    text, pages := Dump(stray, regs, g, mem);
    ghost var im := Image(g, regs.pc, regs.uniq, regs.Now());
    assert HeadTerms(im, |pages|) + pages + [] == HeadTerms(im, |pages|) + pages;
    var reader := new Exo.Reader(text);
    regs', g', mem' := LoadMachine(reader, stray, im, pages, [], mem.flat);
  }
}
