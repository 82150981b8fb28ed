/** The simulated memory: an inverted page table whose buckets are linked lists with
    move-to-front, and pages allocated when they are first written. It must read back like a
    flat map from addresses to bytes that is zero where nothing was written. */
module Memory {
  import opened Bits
  import opened Wrappers

  const MD_LOG_PAGE_SIZE: nat := 13
  const MD_PAGE_SIZE: nat := 8192
  const MEM_LOG_PTAB_SIZE: nat := 15
  const MEM_PTAB_SIZE: nat := 32768
  /** MD_PAGE_SIZE * MEM_PTAB_SIZE: the reach of one tag. */
  const TAG_SPAN: nat := 268435456
  /** ADDR_SPACE / TAG_SPAN: the number of tags. */
  const TAGS: nat := 68719476736
  const ADDR_SPACE: nat := WORD64

  // ---------- addresses ----------

  function PtabSet(addr: nat): (s: nat)
    ensures s < MEM_PTAB_SIZE
  {
    (addr / MD_PAGE_SIZE) % MEM_PTAB_SIZE
  }

  function PtabTag(addr: nat): nat {
    addr / TAG_SPAN
  }

  function Offset(addr: nat): (o: nat)
    ensures o < MD_PAGE_SIZE
  {
    addr % MD_PAGE_SIZE
  }

  function PteAddr(tag: nat, idx: nat): nat {
    tag * TAG_SPAN + idx * MD_PAGE_SIZE
  }

  /** A 64-bit address after an increment. */
  function Wrap(addr: nat): (a: nat)
    ensures a < ADDR_SPACE
  {
    addr % ADDR_SPACE
  }

  /** The shift, mask and or expressions of MEM_PTAB_SET, MEM_PTAB_TAG, MEM_OFFSET and
      MEM_PTE_ADDR compute these functions. */
  lemma MacrosAreArithmetic(addr: nat, tag: nat, idx: nat)
    requires idx < MEM_PTAB_SIZE
    ensures And(Shr(addr, MD_LOG_PAGE_SIZE), MEM_PTAB_SIZE - 1) == PtabSet(addr)
    ensures Shr(addr, MD_LOG_PAGE_SIZE + MEM_LOG_PTAB_SIZE) == PtabTag(addr)
    ensures And(addr, MD_PAGE_SIZE - 1) == Offset(addr)
    ensures Or(Shl(tag, MD_LOG_PAGE_SIZE + MEM_LOG_PTAB_SIZE), Shl(idx, MD_LOG_PAGE_SIZE)) == PteAddr(tag, idx)
  {
    Powers();
    TruncateIsMod(addr, MD_LOG_PAGE_SIZE);
    TruncateIsMod(addr, MD_LOG_PAGE_SIZE + MEM_LOG_PTAB_SIZE);
    MaskIsTruncate(Shr(addr, MD_LOG_PAGE_SIZE), MEM_LOG_PTAB_SIZE);
    TruncateIsMod(Shr(addr, MD_LOG_PAGE_SIZE), MEM_LOG_PTAB_SIZE);
    MaskIsTruncate(addr, MD_LOG_PAGE_SIZE);
    ShlIsMul(tag, MD_LOG_PAGE_SIZE + MEM_LOG_PTAB_SIZE);
    ShlIsMul(idx, MD_LOG_PAGE_SIZE);
    OrIsAdd(tag, MD_LOG_PAGE_SIZE + MEM_LOG_PTAB_SIZE, Shl(idx, MD_LOG_PAGE_SIZE));
  }

  lemma Powers()
    ensures Pow2(13) == MD_PAGE_SIZE && Pow2(15) == MEM_PTAB_SIZE && Pow2(28) == TAG_SPAN
  {
    assert Pow2(5) == 32;
    assert Pow2(10) == 1024;
    assert Pow2(13) == 8192;
    assert Pow2(15) == 32768;
    assert Pow2(20) == 1048576;
    assert Pow2(24) == 16777216;
    assert Pow2(28) == 268435456;
  }

  /** MEM_PTE_ADDR is the exact inverse of the set/tag/offset split. */
  lemma SplitInverts(addr: nat, tag: nat, idx: nat, o: nat)
    requires idx < MEM_PTAB_SIZE && o < MD_PAGE_SIZE
    ensures PteAddr(PtabTag(addr), PtabSet(addr)) + Offset(addr) == addr
    ensures var a := PteAddr(tag, idx) + o; PtabTag(a) == tag && PtabSet(a) == idx && Offset(a) == o
    ensures PteAddr(tag, idx) + o == addr <==> tag == PtabTag(addr) && idx == PtabSet(addr) && o == Offset(addr)
  {
    var a := PteAddr(tag, idx) + o;
    assert a / MD_PAGE_SIZE == tag * MEM_PTAB_SIZE + idx;
  }

  // ---------- the flat map ----------

  function Get(m: map<nat, byte>, addr: nat): byte {
    if addr in m then m[addr] else 0
  }

  function FlatRead(m: map<nat, byte>, addr: nat, n: nat): (bs: seq<byte>)
    ensures |bs| == n && forall k | 0 <= k < n :: bs[k] == Get(m, Wrap(addr + k))
  {
    if n == 0 then [] else FlatRead(m, addr, n - 1) + [Get(m, Wrap(addr + n - 1))]
  }

  function FlatWrite(m: map<nat, byte>, addr: nat, bs: seq<byte>): map<nat, byte> {
    if bs == [] then m
    else FlatWrite(m, addr, bs[..|bs| - 1])[Wrap(addr + |bs| - 1) := bs[|bs| - 1]]
  }

  lemma {:induction false} FlatWriteAppend(m: map<nat, byte>, addr: nat, xs: seq<byte>, ys: seq<byte>)
    ensures FlatWrite(m, addr, xs + ys) == FlatWrite(FlatWrite(m, addr, xs), addr + |xs|, ys)
  {
    if ys == [] {
      assert xs + ys == xs;
    } else {
      assert (xs + ys)[..|xs + ys| - 1] == xs + ys[..|ys| - 1];
      FlatWriteAppend(m, addr, xs, ys[..|ys| - 1]);
    }
  }

  function Zeros(n: nat): (bs: seq<byte>)
    ensures |bs| == n && forall k | 0 <= k < n :: bs[k] == 0
  {
    if n == 0 then [] else Zeros(n - 1) + [0]
  }

  lemma WrapSmall(a: nat)
    requires a < ADDR_SPACE
    ensures Wrap(a) == a
  {
  }

  lemma WrapTwice(addr: nat, k: nat)
    ensures Wrap(Wrap(addr) + k) == Wrap(addr + k)
  {
    assert addr + k == (addr / ADDR_SPACE) * ADDR_SPACE + (addr % ADDR_SPACE + k);
  }

  lemma {:induction false} FlatWriteWraps(m: map<nat, byte>, addr: nat, bs: seq<byte>)
    ensures FlatWrite(m, Wrap(addr), bs) == FlatWrite(m, addr, bs)
  {
    if bs != [] {
      FlatWriteWraps(m, addr, bs[..|bs| - 1]);
      WrapTwice(addr, |bs| - 1);
    }
  }

  lemma {:induction false} FlatReadWraps(m: map<nat, byte>, addr: nat, k: nat, n: nat)
    ensures FlatRead(m, addr, k) + FlatRead(m, Wrap(addr + k), n) == FlatRead(m, addr, k + n)
  {
    if n > 0 {
      FlatReadWraps(m, addr, k, n - 1);
      WrapTwice(addr + k, n - 1);
    }
  }

  lemma FlatWriteNothing(m: map<nat, byte>, addr: nat, bs: seq<byte>)
    ensures FlatWrite(m, addr, bs[..0]) == m
  {
  }

  lemma FlatWriteNext(m: map<nat, byte>, addr: nat, bs: seq<byte>, k: nat)
    requires k < |bs|
    ensures FlatWrite(m, addr, bs[..k + 1]) == FlatWrite(m, addr, bs[..k])[Wrap(addr + k) := bs[k]]
  {
    assert bs[..k + 1][..k] == bs[..k];
  }

  /** Extending a write by one more block. */
  lemma FlatWriteExtends(m: map<nat, byte>, addr: nat, bs: seq<byte>, k: nat, n: nat)
    requires k + n <= |bs|
    ensures FlatWrite(FlatWrite(m, addr, bs[..k]), Wrap(addr + k), bs[k..k + n]) == FlatWrite(m, addr, bs[..k + n])
  {
    FlatWriteWraps(FlatWrite(m, addr, bs[..k]), addr + k, bs[k..k + n]);
    FlatWriteAppend(m, addr, bs[..k], bs[k..k + n]);
    assert bs[..k] + bs[k..k + n] == bs[..k + n];
  }

  // ---------- access checks ----------

  datatype Cmd = Read | Write

  datatype Fault = NoFault | FaultAccess | FaultAlignment

  /** Sizes are ints; the most negative one has no predecessor. */
  const INT_MIN: int := -2147483648

  /** The bits of an int, and of an int widened to an address. */
  function Bits32(n: int): nat
    requires INT_MIN <= n
  {
    if n < 0 then n + WORD32 else n
  }

  function Bits64(n: int): nat
    requires INT_MIN <= n
  {
    if n < 0 then n + WORD64 else n
  }

  /** The two tests of mem_access. */
  function AccessFault(addr: nat, nbytes: int): Fault
    requires nbytes > INT_MIN
  {
    if And(Bits32(nbytes), Bits32(nbytes - 1)) != 0 || nbytes > MD_PAGE_SIZE then FaultAccess
    else if And(addr, Bits64(nbytes - 1)) != 0 then FaultAlignment
    else NoFault
  }

  /** An access passes exactly when its size is a power of two up to a page and divides its
      address (or the access is empty and at address 0). Every negative size is refused. */
  lemma AccessPasses(addr: nat, nbytes: int)
    requires addr < ADDR_SPACE && nbytes > INT_MIN
    ensures AccessFault(addr, nbytes).NoFault? <==>
      if nbytes == 0 then addr == 0
      else nbytes > 0 && IsPow2(nbytes) && nbytes <= MD_PAGE_SIZE && addr % nbytes == 0
    ensures nbytes < 0 ==> AccessFault(addr, nbytes) == FaultAccess
  {
    if nbytes > 0 {
      LowBitTrick(nbytes);
      if IsPow2(nbytes) {
        var n := Log2(nbytes);
        MaskIsTruncate(addr, n);
        TruncateIsMod(addr, n);
      }
    } else if nbytes == 0 {
      AllOnes(addr);
    } else {
      NegativeFaults(nbytes);
    }
  }

  /** A size that is no power of two up to a page is an access fault, an address that such a size
      does not divide an alignment fault. */
  lemma FaultIs(addr: nat, nbytes: int)
    requires addr < ADDR_SPACE && nbytes > INT_MIN
    ensures AccessFault(addr, nbytes) ==
            if nbytes < 0 || nbytes > 8192 || (nbytes > 0 && !IsPow2(nbytes)) then FaultAccess
            else if (if nbytes == 0 then addr != 0 else addr % nbytes != 0) then FaultAlignment
            else NoFault
  {
    AccessPasses(addr, nbytes);
    if nbytes > 0 {
      LowBitTrick(nbytes);
    } else if nbytes == 0 {
      AllOnes(addr);
    }
  }

  lemma WidePowers()
    ensures Pow2(31) == 2147483648 && Pow2(32) == WORD32 && Pow2(64) == WORD64
  {
    Powers();
    assert Pow2(31) == 8 * Pow2(28);
    assert Pow2(40) == 1099511627776;
    assert Pow2(48) == 281474976710656;
    assert Pow2(56) == 72057594037927936;
  }

  /** An empty access has the mask of all ones. */
  lemma AllOnes(addr: nat)
    requires addr < ADDR_SPACE
    ensures And(addr, Bits64(-1)) == addr && And(Bits32(0), Bits32(-1)) == 0
  {
    hide Pow2, Truncate;
    WidePowers();
    MaskIsTruncate(addr, 64);
    TruncateShort(addr, 64, 64);
  }

  /** A negative size and the one below it have the sign bit in common. */
  lemma NegativeFaults(nbytes: int)
    requires INT_MIN < nbytes < 0
    ensures And(Bits32(nbytes), Bits32(nbytes - 1)) != 0
  {
    hide Pow2, And;
    WidePowers();
    AndTop(Bits32(nbytes), Bits32(nbytes - 1), 31);
  }

  /** Every access that passes the checks lies inside one page, and does not wrap. */
  lemma AccessInOnePage(addr: nat, nbytes: nat, k: nat)
    requires AccessFault(addr, nbytes).NoFault? && k < nbytes && addr < ADDR_SPACE
    ensures (addr + k) / MD_PAGE_SIZE == addr / MD_PAGE_SIZE && addr + k < ADDR_SPACE
  {
    AccessPasses(addr, nbytes);
    Powers();
    var n := Log2(nbytes);
    var d := Pow2Divides(n, MD_LOG_PAGE_SIZE);
    SamePage(addr, nbytes, d, k);
  }

  /** An aligned block whose size divides the page size does not cross a page. */
  lemma SamePage(addr: nat, n: nat, d: nat, k: nat)
    requires n > 0 && d * n == MD_PAGE_SIZE && addr % n == 0 && k < n && addr < ADDR_SPACE
    ensures (addr + k) / MD_PAGE_SIZE == addr / MD_PAGE_SIZE && addr + k < ADDR_SPACE
  {
    var q, r, m := addr / MD_PAGE_SIZE, addr % MD_PAGE_SIZE, addr / n;
    assert addr == m * n;
    assert q * MD_PAGE_SIZE == (q * d) * n;
    RoomLeft(m, q * d, d, n);
    assert r + n <= MD_PAGE_SIZE;
  }

  /** A multiple of n that is less than d * n above c * n leaves room for n more. */
  lemma RoomLeft(m: int, c: int, d: int, n: nat)
    requires n > 0 && m * n - c * n < d * n
    ensures m * n - c * n + n <= d * n
  {
    var a := d + c - m;
    assert a * n == d * n + c * n - m * n;
    assert a >= 1 ==> a * n >= n;
    assert a <= 0 ==> a * n <= 0;
  }

  lemma {:induction false} Pow2Divides(n: nat, m: nat) returns (d: nat)
    requires Pow2(n) <= Pow2(m)
    ensures d * Pow2(n) == Pow2(m)
    decreases m
  {
    if n > m { Pow2Grows(m, n); }
    if n < m {
      Pow2Monotone(n, m - 1);
      d := Pow2Divides(n, m - 1);
      assert (2 * d) * Pow2(n) == 2 * (d * Pow2(n));
      d := 2 * d;
    } else {
      d := 1;
    }
  }

  lemma {:induction false} Pow2Monotone(m: nat, n: nat)
    requires m <= n
    ensures Pow2(m) <= Pow2(n)
    decreases n - m
  {
    if m < n { Pow2Monotone(m, n - 1); }
  }

  lemma Pow2Grows(m: nat, n: nat)
    requires m < n
    ensures Pow2(m) < Pow2(n)
  {
    Pow2Monotone(m, n - 1);
  }

  // ---------- the page table ----------

  /** struct mem_pte_t. `home` is the bucket the entry was put in. */
  class Pte {
    var next: Pte?
    ghost const home: nat
    const tag: nat
    const page: array<byte>

    constructor (ghost home: nat, tag: nat, page: array<byte>)
      ensures this.home == home && this.tag == tag && this.page == page && next == null
    {
      this.home := home;
      this.tag := tag;
      this.page := page;
      next := null;
    }
  }

  ghost predicate Linked(head: Pte?, chain: seq<Pte>)
    reads chain
  {
    && head == (if chain == [] then null else chain[0])
    && forall i {:trigger chain[i].next} | 0 <= i < |chain| ::
         chain[i].next == if i + 1 < |chain| then chain[i + 1] else null
  }

  ghost predicate ChainOk(chain: seq<Pte>, s: nat, nodes: set<Pte>) {
    && (forall i | 0 <= i < |chain| :: chain[i] in nodes && chain[i].home == s)
    && (forall i, j | 0 <= i < j < |chain| :: chain[i].tag != chain[j].tag)
  }

  ghost predicate MembersOk(chains: seq<seq<Pte>>, nodes: set<Pte>) {
    && |chains| == MEM_PTAB_SIZE
    && (forall s | 0 <= s < MEM_PTAB_SIZE :: ChainOk(chains[s], s, nodes))
    && (forall n | n in nodes :: n.home < MEM_PTAB_SIZE && n in chains[n.home])
  }

  /** Each bucket keeps its entries, in some order. */
  ghost predicate Shuffled(before: seq<seq<Pte>>, after: seq<seq<Pte>>) {
    |before| == |after| && forall s | 0 <= s < |after| :: multiset(after[s]) == multiset(before[s])
  }

  lemma ToFrontAt<T>(chain: seq<T>, i: nat, k: nat)
    requires i < |chain| && k < |chain|
    ensures |ToFront(chain, i)| == |chain|
    ensures ToFront(chain, i)[k] == chain[if k == 0 then i else if k <= i then k - 1 else k]
  {
  }

  lemma ToFrontShuffles(chains: seq<seq<Pte>>, s: nat, i: nat)
    requires s < |chains| && i < |chains[s]|
    ensures Shuffled(chains, chains[s := ToFront(chains[s], i)])
  {
    var chain := chains[s];
    assert chain == chain[..i] + [chain[i]] + chain[i + 1..];
  }

  /** Move-to-front. */
  function ToFront<T>(chain: seq<T>, i: nat): seq<T>
    requires i < |chain|
  {
    [chain[i]] + chain[..i] + chain[i + 1..]
  }

  /** In bucket s the entry is the first now, and the others are behind it in the order they had;
      the other buckets are as they were. */
  ghost predicate MovedToFront(before: seq<seq<Pte>>, after: seq<seq<Pte>>, s: nat, node: Pte) {
    && |before| == |after| && s < |after| && (forall t | 0 <= t < |after| && t != s :: after[t] == before[t])
    && exists i :: 0 <= i < |before[s]| && before[s][i] == node &&
                   after[s] == [node] + before[s][..i] + before[s][i + 1..]
  }

  /** One more entry, in front of bucket s. */
  ghost predicate PutInFront(before: seq<seq<Pte>>, after: seq<seq<Pte>>, s: nat) {
    && |before| == |after| && s < |after| && (forall t | 0 <= t < |after| && t != s :: after[t] == before[t])
    && after[s] != [] && after[s][1..] == before[s]
  }

  lemma FrontIsMoved(chains: seq<seq<Pte>>, s: nat, i: nat)
    requires s < |chains| && i < |chains[s]|
    ensures MovedToFront(chains, chains[s := ToFront(chains[s], i)], s, chains[s][i])
  {
  }

  /** struct mem_t. `chains` are the bucket lists, `nodes` all entries, `flat` what has been
      written. */
  class Mem {
    const ptab: array<Pte?>
    var pageCount: nat
    var ptabMisses: nat
    var ptabAccesses: nat
    ghost var nodes: set<Pte>
    ghost var chains: seq<seq<Pte>>
    ghost var flat: map<nat, byte>

    /** Every bucket is a list of its own entries with distinct tags, every entry is in its
        bucket, and page_count counts the entries. */
    ghost predicate TableOk()
      reads this`chains, this`nodes, this`pageCount, ptab, nodes
    {
      && ptab.Length == MEM_PTAB_SIZE && MembersOk(chains, nodes)
      && (forall s | 0 <= s < MEM_PTAB_SIZE :: Linked(ptab[s], chains[s]))
      && pageCount == |nodes|
    }

    /** Pages are full-sized and not shared, and lie in the address space. */
    ghost predicate PagesOk()
      reads this`nodes
    {
      && (forall n | n in nodes :: n.page.Length == MD_PAGE_SIZE && n.tag < TAGS)
      && (forall n, m | n in nodes && m in nodes && n != m :: n.page != m.page)
    }

    /** The address of byte o of an entry's page. */
    static ghost function ByteAddr(n: Pte, o: int): int {
      n.tag * TAG_SPAN + n.home * MD_PAGE_SIZE + o
    }

    static ghost predicate Covers(n: Pte, addr: nat)
    {
      n.home == PtabSet(addr) && n.tag == PtabTag(addr)
    }

    ghost predicate Mapped(addr: nat)
      reads this`nodes
    {
      exists n :: n in nodes && Covers(n, addr)
    }

    /** Every page shows the flat map, and nothing was written outside the pages. */
    ghost predicate Agrees()
      requires PagesOk()
      reads this`nodes, this`flat, Pages()
    {
      && (forall n, o | n in nodes && 0 <= o < MD_PAGE_SIZE :: n.page[o] == Get(flat, ByteAddr(n, o)))
      && (forall a | a in flat :: Mapped(a))
    }

    ghost function Pages(): set<array<byte>>
      reads this`nodes
    {
      set n | n in nodes :: n.page
    }

    ghost predicate Valid()
      reads this`chains, this`nodes, this`pageCount, this`flat, ptab, nodes, Pages()
    {
      TableOk() && PagesOk() && Agrees()
    }

    /** mem_create and mem_init. */
    constructor ()
      ensures Valid() && flat == map[] && nodes == {} && pageCount == 0
      ensures fresh(ptab)
    {
      ptab := new Pte?[MEM_PTAB_SIZE](i => null);
      pageCount, ptabMisses, ptabAccesses := 0, 0, 0;
      nodes, flat := {}, map[];
      chains := seq(MEM_PTAB_SIZE, i => []);
    }

    lemma OneCoversAnAddress(n: Pte, m: Pte, addr: nat)
      requires TableOk() && n in nodes && m in nodes && Covers(n, addr) && Covers(m, addr)
      ensures n == m
    {
      var s := PtabSet(addr);
      assert ChainOk(chains[s], s, nodes);
      var i :| 0 <= i < |chains[s]| && chains[s][i] == n;
      var j :| 0 <= j < |chains[s]| && chains[s][j] == m;
    }

    /** mem_translate: the page of an address, or null. A hit moves the entry to the front of
        its bucket; nothing is allocated. */
    method Translate(addr: nat) returns (page: array?<byte>, ghost node: Pte?)
      requires TableOk()
      modifies this`chains, this`ptabMisses, this`ptabAccesses, ptab, nodes`next
      ensures TableOk()
      ensures page == null <==> node == null
      ensures node == null <==> !Mapped(addr)
      ensures node != null ==> node in nodes && Covers(node, addr) && page == node.page
      ensures Shuffled(old(chains), chains)
      ensures ptabMisses == old(ptabMisses) + 1 && ptabAccesses == old(ptabAccesses) + 1
      ensures node == null ==> chains == old(chains)
      ensures node != null ==> MovedToFront(old(chains), chains, PtabSet(addr), node) && ptab[PtabSet(addr)] == node
    {
      hide ToFront;
      ptabMisses := ptabMisses + 1;
      ptabAccesses := ptabAccesses + 1;
      var s := PtabSet(addr);
      ghost var chain := chains[s];
      ghost var i := 0;
      assert ChainOk(chain, s, nodes);
      var prev: Pte?, pte: Pte? := null, ptab[s];
      while pte != null && pte.tag != PtabTag(addr)
        invariant TableOk() && chains == old(chains) && Linked(ptab[s], chain)
        invariant 0 <= i <= |chain|
        invariant pte == (if i < |chain| then chain[i] else null)
        invariant prev == (if i == 0 then null else chain[i - 1])
        invariant forall k | 0 <= k < i :: chain[k].tag != PtabTag(addr)
        decreases |chain| - i
      {
        assert chain[i].next == if i + 1 < |chain| then chain[i + 1] else null;
        prev, pte := pte, pte.next;
        i := i + 1;
      }
      if pte == null {
        return null, null;
      }
      page, node := pte.page, pte;
      ToFrontShuffles(chains, s, i);
      FrontIsMoved(chains, s, i);
      MoveToFront(s, prev, pte, i);
    }

    /** MEM_PAGE: a first-entry hit, or the translation. */
    method Page(addr: nat) returns (page: array?<byte>, ghost node: Pte?)
      requires TableOk()
      modifies this`chains, this`ptabMisses, this`ptabAccesses, ptab, nodes`next
      ensures TableOk() && Shuffled(old(chains), chains)
      ensures page == null <==> node == null
      ensures node == null <==> !Mapped(addr)
      ensures node != null ==> node in nodes && Covers(node, addr) && page == node.page
      ensures ptabAccesses == old(ptabAccesses) + 1
      ensures ptabMisses == old(ptabMisses) + if node != null && node == old(ptab[PtabSet(addr)]) then 0 else 1
      ensures node != null ==> ptab[PtabSet(addr)] == node
    {
      var first := ptab[PtabSet(addr)];
      if first != null && first.tag == PtabTag(addr) {
        assert ChainOk(chains[PtabSet(addr)], PtabSet(addr), nodes);
        ptabAccesses := ptabAccesses + 1;
        page, node := first.page, first;
      } else {
        page, node := Translate(addr);
      }
    }

    /** mem_newpage, which MEM_TICKLE calls for an address without a page. */
    method NewPage(addr: nat)
      requires Valid() && !Mapped(addr) && addr < ADDR_SPACE
      modifies this`chains, this`nodes, this`pageCount, ptab
      ensures Valid() && flat == old(flat) && Mapped(addr)
      ensures pageCount == old(pageCount) + 1
      ensures old(nodes) <= nodes && fresh(nodes - old(nodes)) && fresh(Pages() - old(Pages()))
      ensures PutInFront(old(chains), chains, PtabSet(addr))
    {
      hide Linked, MembersOk, PutInFront;
      var page := new byte[MD_PAGE_SIZE](i => 0);
      var s := PtabSet(addr);
      var pte := new Pte(s, PtabTag(addr), page);
      UnwrittenPage(addr, pte);
      IsPutInFront(s, pte);
      InsertPte(s, pte);
      assert PagesOk();
      StillAgrees(old(nodes), pte);
      assert Covers(pte, addr);
    }

    lemma IsPutInFront(s: nat, pte: Pte)
      requires TableOk() && s < MEM_PTAB_SIZE
      ensures |chains| == MEM_PTAB_SIZE && PutInFront(chains, chains[s := [pte] + chains[s]], s)
    {
      hide Linked;
    }

    lemma StillAgrees(before: set<Pte>, pte: Pte)
      requires nodes == before + {pte} && PagesOk()
      requires forall n, o | n in before && 0 <= o < MD_PAGE_SIZE :: n.page[o] == Get(flat, ByteAddr(n, o))
      requires forall o | 0 <= o < MD_PAGE_SIZE :: pte.page[o] == 0 && ByteAddr(pte, o) !in flat
      requires forall a | a in flat :: exists n :: n in before && Covers(n, a)
      ensures Agrees()
    {
      forall a | a in flat ensures Mapped(a) {
        var n :| n in before && Covers(n, a);
      }
    }

    /** A page nobody wrote shows zeros. */
    lemma UnwrittenPage(addr: nat, pte: Pte)
      requires PagesOk() && (forall a | a in flat :: Mapped(a)) && !Mapped(addr) && Covers(pte, addr)
      ensures forall n | n in nodes && n.home == pte.home :: n.tag != pte.tag
      ensures forall o | 0 <= o < MD_PAGE_SIZE :: ByteAddr(pte, o) !in flat
    {
      forall n | n in nodes && n.home == pte.home ensures n.tag != pte.tag {
        assert !Covers(n, addr);
      }
      forall o | 0 <= o < MD_PAGE_SIZE ensures ByteAddr(pte, o) !in flat {
        var a := ByteAddr(pte, o);
        SplitInverts(0, pte.tag, pte.home, o);
        MappedByPage(a, addr);
      }
    }

    lemma MappedByPage(a: nat, b: nat)
      requires PtabSet(a) == PtabSet(b) && PtabTag(a) == PtabTag(b)
      ensures Mapped(a) == Mapped(b)
    {
      if Mapped(a) {
        var n :| n in nodes && Covers(n, a);
        assert Covers(n, b);
      }
      if Mapped(b) {
        var n :| n in nodes && Covers(n, b);
        assert Covers(n, a);
      }
    }

    /** The linking half of mem_newpage. */
    method InsertPte(s: nat, pte: Pte)
      requires TableOk() && s < MEM_PTAB_SIZE && pte.home == s && pte !in nodes
      requires forall n | n in nodes && n.home == s :: n.tag != pte.tag
      modifies this`chains, this`nodes, this`pageCount, ptab, pte`next
      ensures TableOk() && nodes == old(nodes) + {pte} && pageCount == old(pageCount) + 1
      ensures chains == old(chains)[s := [pte] + old(chains[s])]
    {
      hide Linked, MembersOk;
      ghost var before := nodes;
      NewKeepsMembers(chains, nodes, s, pte);
      pte.next := ptab[s];
      forall t | 0 <= t < MEM_PTAB_SIZE ensures Linked(ptab[t], chains[t]) {
        assert old(Linked(ptab[t], chains[t]));
      }
      PushLinked(ptab[s], chains[s], pte);
      ptab[s] := pte;
      nodes := nodes + {pte};
      chains := chains[s := [pte] + chains[s]];
      pageCount := pageCount + 1;
    }

    /** MEM_READ_BYTE: the macro looks the page up twice. */
    method ReadByte(addr: nat) returns (val: byte)
      requires Valid()
      modifies this`chains, this`ptabMisses, this`ptabAccesses, ptab, nodes`next
      ensures Valid() && Shuffled(old(chains), chains)
      ensures val == Get(flat, addr)
    {
      hide TableOk;
      var page, node := Page(addr);
      if page == null {
        return 0;
      }
      page, node := Page(addr);
      SplitInverts(addr, node.tag, node.home, Offset(addr));
      assert ByteAddr(node, Offset(addr)) == addr;
      val := page[Offset(addr)];
    }

    /** MEM_TICKLE: the page is allocated if there is none. */
    method Tickle(addr: nat)
      requires Valid() && addr < ADDR_SPACE
      modifies this`chains, this`nodes, this`pageCount, this`ptabMisses, this`ptabAccesses, ptab, nodes`next
      ensures Valid() && flat == old(flat) && Mapped(addr)
      ensures old(nodes) <= nodes && fresh(nodes - old(nodes)) && fresh(Pages() - old(Pages()))
      ensures old(Mapped(addr)) ==> nodes == old(nodes) && Shuffled(old(chains), chains)
      ensures pageCount == old(pageCount) + if old(Mapped(addr)) then 0 else 1
    {
      hide TableOk;
      var page, node := Page(addr);
      if page == null {
        NewPage(addr);
      }
    }

    /** MEM_WRITE_BYTE. */
    method WriteByte(addr: nat, val: byte)
      requires Valid() && addr < ADDR_SPACE
      modifies this, ptab, nodes`next, Pages()
      ensures Valid() && flat == old(flat)[addr := val] && Mapped(addr)
      ensures old(nodes) <= nodes && fresh(nodes - old(nodes)) && fresh(Pages() - old(Pages()))
      ensures old(Mapped(addr)) ==> nodes == old(nodes) && Shuffled(old(chains), chains)
      ensures pageCount == old(pageCount) + if old(Mapped(addr)) then 0 else 1
    {
      hide TableOk, PagesOk, Agrees, Shuffled;
      Tickle(addr);
      ghost var before := chains;
      var page, node := Page(addr);
      StoreByte(addr, val, page, node);
      ShuffledTwice(old(chains), before, chains);
    }

    lemma ShuffledTwice(a: seq<seq<Pte>>, b: seq<seq<Pte>>, c: seq<seq<Pte>>)
      ensures Shuffled(a, b) && Shuffled(b, c) ==> Shuffled(a, c)
    {
    }

    /** The store itself. */
    method StoreByte(addr: nat, val: byte, page: array<byte>, ghost node: Pte)
      requires Valid() && node in nodes && Covers(node, addr) && page == node.page
      modifies this`flat, page
      ensures Valid() && flat == old(flat)[addr := val]
    {
      hide MembersOk, Linked;
      SplitInverts(addr, node.tag, node.home, Offset(addr));
      page[Offset(addr)] := val;
      flat := flat[addr := val];
      forall n, o | n in nodes && 0 <= o < MD_PAGE_SIZE ensures n.page[o] == Get(flat, ByteAddr(n, o)) {
        assert n.home < MEM_PTAB_SIZE by { HomesInRange(n); }
        SplitInverts(addr, n.tag, n.home, o);
        if ByteAddr(n, o) == addr { OneCoversAnAddress(n, node, addr); }
      }
    }

    lemma HomesInRange(n: Pte)
      requires TableOk() && n in nodes
      ensures n.home < MEM_PTAB_SIZE
    {
    }

    /** The pages grow only by fresh ones. */
    twostate predicate OnlyNewPages()
      reads this`nodes
    {
      old(nodes) <= nodes && fresh(nodes - old(nodes)) && fresh(Pages() - old(Pages()))
    }

    /** The read loop of mem_access. */
    method ReadBytes(addr: nat, host: array<byte>, off: nat, nbytes: nat)
      requires Valid() && off + nbytes <= host.Length && host !in Pages()
      modifies this`chains, this`ptabMisses, this`ptabAccesses, ptab, nodes`next, host
      ensures Valid() && Shuffled(old(chains), chains)
      ensures host[off..off + nbytes] == FlatRead(flat, addr, nbytes)
      ensures forall i | 0 <= i < host.Length && !(off <= i < off + nbytes) :: host[i] == old(host[i])
    {
      hide TableOk, PagesOk, Agrees;
      var a, k := Wrap(addr), 0;
      while k < nbytes
        invariant 0 <= k <= nbytes && a == Wrap(addr + k)
        invariant Valid() && Shuffled(old(chains), chains)
        invariant host[off..off + k] == FlatRead(flat, addr, k)
        invariant forall i | 0 <= i < host.Length && !(off <= i < off + k) :: host[i] == old(host[i])
      {
        var val := ReadByte(a);
        ghost var before := host[off..off + k];
        host[off + k] := val;
        assert host[off..off + k + 1] == before + [val];
        WrapTwice(addr + k, 1);
        a := Wrap(a + 1);
        k := k + 1;
      }
    }

    /** The write loop of mem_access. */
    method WriteBytes(addr: nat, host: array<byte>, off: nat, nbytes: nat)
      requires Valid() && off + nbytes <= host.Length && host !in Pages()
      modifies this, ptab, nodes`next, Pages()
      ensures Valid() && OnlyNewPages()
      ensures flat == FlatWrite(old(flat), addr, host[off..off + nbytes])
    {
      hide TableOk, PagesOk, Agrees, FlatWrite;
      var a, k := Wrap(addr), 0;
      ghost var bs := host[off..off + nbytes];
      FlatWriteNothing(flat, addr, bs);
      while k < nbytes
        invariant 0 <= k <= nbytes && a == Wrap(addr + k)
        invariant Valid() && OnlyNewPages() && host !in Pages()
        invariant host[off..off + nbytes] == bs
        invariant flat == FlatWrite(old(flat), addr, bs[..k])
      {
        assert host[off + k] == bs[k];
        WriteByte(a, host[off + k]);
        FlatWriteNext(old(flat), addr, bs, k);
        WrapTwice(addr + k, 1);
        a := Wrap(a + 1);
        k := k + 1;
      }
      assert bs[..k] == bs;
    }

    /** mem_access. */
    method Access(cmd: Cmd, addr: nat, host: array<byte>, off: nat, nbytes: int) returns (fault: Fault)
      requires Valid() && addr < ADDR_SPACE && nbytes > INT_MIN && off + nbytes <= host.Length && host !in Pages()
      modifies this, ptab, nodes`next, Pages(), host
      ensures Valid() && OnlyNewPages() && host !in Pages()
      ensures fault == AccessFault(addr, nbytes)
      ensures cmd.Read? || !fault.NoFault? ==> flat == old(flat) && nodes == old(nodes)
      ensures cmd.Write? || !fault.NoFault? ==> host[..] == old(host[..])
      ensures fault.NoFault? ==> nbytes >= 0
      ensures cmd.Read? && fault.NoFault? ==> host[off..off + nbytes] == FlatRead(flat, addr, nbytes)
      ensures forall i | 0 <= i < host.Length && !(off <= i < off + nbytes) :: host[i] == old(host[i])
      ensures cmd.Write? && fault.NoFault? ==> flat == FlatWrite(old(flat), addr, host[off..off + nbytes])
    {
      hide TableOk, PagesOk, Agrees, FlatRead, FlatWrite, And;
      AccessPasses(addr, nbytes);
      if And(Bits32(nbytes), Bits32(nbytes - 1)) != 0 || nbytes > MD_PAGE_SIZE {
        return FaultAccess;
      }
      if And(addr, Bits64(nbytes - 1)) != 0 {
        return FaultAlignment;
      }
      if cmd == Read {
        ReadBytes(addr, host, off, nbytes);
      } else {
        WriteBytes(addr, host, off, nbytes);
      }
      fault := NoFault;
    }

    /** What a copy of n bytes does to memory and host buffer, from flat0 and host0. */
    ghost predicate Copied(flat0: map<nat, byte>, host0: seq<byte>, cmd: Cmd, addr: nat, host: array<byte>, n: nat)
      reads this`flat, host
    {
      && n <= host.Length == |host0|
      && match cmd
         case Read => flat == flat0 && host[..] == FlatRead(flat0, addr, n) + host0[n..]
         case Write => host[..] == host0 && flat == FlatWrite(flat0, addr, host0[..n])
    }

    /** One block of a copy: the access at byte p either faults, or extends the copy. */
    method CopyBlock(cmd: Cmd, addr: nat, host: array<byte>, p: nat, block: nat,
                     ghost flat0: map<nat, byte>, ghost host0: seq<byte>) returns (fault: Fault)
      requires Valid() && p + block <= host.Length && host !in Pages()
      requires block == 1 || block == 4
      requires Copied(flat0, host0, cmd, addr, host, p)
      modifies this, ptab, nodes`next, Pages(), host
      ensures Valid() && OnlyNewPages() && host !in Pages()
      ensures fault == if Wrap(addr + p) % block == 0 then NoFault else FaultAlignment
      ensures Copied(flat0, host0, cmd, addr, host, if fault.NoFault? then p + block else p)
    {
      hide TableOk, PagesOk, Agrees, AccessFault, FlatRead, FlatWrite;
      BlockFault(Wrap(addr + p), block);
      ghost var before := host[..];
      fault := Access(cmd, Wrap(addr + p), host, p, block);
      if fault == NoFault {
        if cmd == Read {
          FlatReadWraps(flat0, addr, p, block);
          BlockSpliced(before, host[..], host0, FlatRead(flat0, addr, p), p, block);
        } else {
          FlatWriteExtends(flat0, addr, host0, p, block);
        }
      }
    }

    lemma BlockSpliced(before: seq<byte>, after: seq<byte>, host0: seq<byte>, done: seq<byte>, p: nat, block: nat)
      requires |after| == |before| == |host0| && p + block <= |host0| && |done| == p
      requires before == done + host0[p..]
      requires forall i | 0 <= i < |after| && !(p <= i < p + block) :: after[i] == before[i]
      ensures after == done + after[p..p + block] + host0[p + block..]
    {
    }

    lemma BlockFault(addr: nat, block: nat)
      requires addr < ADDR_SPACE && (block == 1 || block == 4)
      ensures AccessFault(addr, block) == if addr % block == 0 then NoFault else FaultAlignment
    {
      AccessPasses(addr, block);
      LowBitTrick(block);
      assert IsPow2(2);
    }

    /** mem_bcopy with mem_access: one byte at a time. */
    method BCopy(cmd: Cmd, addr: nat, host: array<byte>, nbytes: nat) returns (fault: Fault)
      requires Valid() && addr < ADDR_SPACE && nbytes <= host.Length && host !in Pages()
      modifies this, ptab, nodes`next, Pages(), host
      ensures Valid() && OnlyNewPages() && fault == NoFault
      ensures Copied(old(flat), old(host[..]), cmd, addr, host, nbytes)
    {
      hide TableOk, PagesOk, Agrees, Copied;
      var p, left := 0, nbytes;
      NothingCopied(cmd, addr, host);
      while left > 0
        invariant Valid() && OnlyNewPages() && host !in Pages()
        invariant left >= 0 && p + left == nbytes
        invariant Copied(old(flat), old(host[..]), cmd, addr, host, p)
      {
        fault := CopyBlock(cmd, addr, host, p, 1, old(flat), old(host[..]));
        if fault != NoFault {
          return;
        }
        p := p + 1;
        left := left - 1;
      }
      fault := NoFault;
    }

    /** mem_bcopy4 with mem_access: the length is cut to whole words, and an unaligned
        address faults on the first word. */
    method BCopy4(cmd: Cmd, addr: nat, host: array<byte>, nbytes: nat) returns (fault: Fault)
      requires Valid() && addr < ADDR_SPACE && nbytes <= host.Length && host !in Pages()
      modifies this, ptab, nodes`next, Pages(), host
      ensures Valid() && OnlyNewPages()
      ensures fault == if addr % 4 == 0 || nbytes < 4 then NoFault else FaultAlignment
      ensures Copied(old(flat), old(host[..]), cmd, addr, host, if fault.NoFault? then nbytes / 4 * 4 else 0)
    {
      hide TableOk, PagesOk, Agrees, Copied;
      var p, words := 0, nbytes / 4;
      NothingCopied(cmd, addr, host);
      while words > 0
        invariant Valid() && OnlyNewPages() && host !in Pages()
        invariant words >= 0 && p + 4 * words == nbytes / 4 * 4
        invariant p == 0 || addr % 4 == 0
        invariant Copied(old(flat), old(host[..]), cmd, addr, host, p)
      {
        assert Wrap(addr + p) % 4 == addr % 4;
        fault := CopyBlock(cmd, addr, host, p, 4, old(flat), old(host[..]));
        if fault != NoFault {
          return;
        }
        p := p + 4;
        words := words - 1;
      }
      fault := NoFault;
    }

    /** mem_bzero with mem_access: one zero byte at a time. */
    method BZero(addr: nat, nbytes: nat) returns (fault: Fault)
      requires Valid() && addr < ADDR_SPACE
      modifies this, ptab, nodes`next, Pages()
      ensures Valid() && OnlyNewPages() && fault == NoFault
      ensures flat == FlatWrite(old(flat), addr, Zeros(nbytes))
    {
      hide TableOk, PagesOk, Agrees, FlatWrite, Copied, AccessFault, Zeros;
      var c := new byte[1](i => 0);
      ghost var zeros := Zeros(nbytes);
      FlatWriteNothing(flat, addr, zeros);
      var k := 0;
      while k < nbytes
        invariant 0 <= k <= nbytes && Valid() && OnlyNewPages() && c !in Pages() && c[0] == 0
        invariant flat == FlatWrite(old(flat), addr, zeros[..k])
      {
        BlockFault(Wrap(addr + k), 1);
        OneByte(old(flat), flat, addr, zeros, k, c[0..1]);
        fault := Access(Write, Wrap(addr + k), c, 0, 1);
        if fault != NoFault {
          return;
        }
        k := k + 1;
      }
      assert zeros[..nbytes] == zeros;
      fault := NoFault;
    }

    /** mem_strcpy, writing: the host string up to and with its terminator. */
    method StrCpyIn(addr: nat, host: array<byte>, ghost len: nat) returns (fault: Fault)
      requires Valid() && addr < ADDR_SPACE && host !in Pages()
      requires len < host.Length && host[len] == 0 && forall i | 0 <= i < len :: host[i] != 0
      modifies this, ptab, nodes`next, Pages(), host
      ensures Valid() && OnlyNewPages() && fault == NoFault
      ensures host[..] == old(host[..]) && flat == FlatWrite(old(flat), addr, host[..len + 1])
    {
      hide TableOk, PagesOk, Agrees, FlatWrite, Copied, AccessFault;
      ghost var bs := host[..];
      FlatWriteNothing(flat, addr, bs);
      var n, c := 0, 1;
      while c != 0
        invariant 0 <= n <= len + 1 && (c == 0 <==> n == len + 1)
        invariant Valid() && OnlyNewPages() && host !in Pages() && host[..] == bs
        invariant flat == FlatWrite(old(flat), addr, bs[..n])
        decreases len + 1 - n
      {
        c := host[n];
        BlockFault(Wrap(addr + n), 1);
        assert host[n..n + 1] == [bs[n]];
        OneByte(old(flat), flat, addr, bs, n, host[n..n + 1]);
        fault := Access(Write, Wrap(addr + n), host, n, 1);
        if fault != NoFault {
          return;
        }
        n := n + 1;
      }
      fault := NoFault;
    }

    /** mem_strcpy, reading: the simulated string up to and with its terminator, which must
        come before the end of the host buffer. */
    method StrCpyOut(addr: nat, host: array<byte>, ghost text: seq<byte>) returns (fault: Fault)
      requires Valid() && addr < ADDR_SPACE && host !in Pages()
      requires 0 < |text| <= host.Length && text == FlatRead(flat, addr, |text|)
      requires text[|text| - 1] == 0 && forall i | 0 <= i < |text| - 1 :: text[i] != 0
      modifies this, ptab, nodes`next, Pages(), host
      ensures Valid() && OnlyNewPages() && fault == NoFault && flat == old(flat)
      ensures host[..] == text + old(host[..])[|text|..]
    {
      hide TableOk, PagesOk, Agrees, FlatRead, FlatWrite, Copied, AccessFault, Wrap;
      ghost var host0 := host[..];
      var n, c := 0, 1;
      while c != 0
        invariant 0 <= n <= |text| && (c == 0 <==> n == |text|)
        invariant Valid() && OnlyNewPages() && host !in Pages() && flat == old(flat)
        invariant forall i | 0 <= i < host.Length :: host[i] == if i < n then text[i] else host0[i]
        decreases |text| - n
      {
        BlockFault(Wrap(addr + n), 1);
        WrapTwice(addr + n, 0);
        fault := Access(Read, Wrap(addr + n), host, n, 1);
        if fault != NoFault {
          return;
        }
        c := host[n];
        assert host[n..n + 1][0] == c;
        assert c == text[n];
        n := n + 1;
      }
      fault := NoFault;
    }

    lemma OneByte(before: map<nat, byte>, now: map<nat, byte>, addr: nat, bs: seq<byte>, k: nat, b: seq<byte>)
      requires k < |bs| && b == [bs[k]] && now == FlatWrite(before, addr, bs[..k])
      ensures FlatWrite(now, Wrap(addr + k), b) == FlatWrite(before, addr, bs[..k + 1])
    {
      assert bs[k..k + 1] == b;
      FlatWriteExtends(before, addr, bs, k, 1);
    }

    lemma NothingCopied(cmd: Cmd, addr: nat, host: array<byte>)
      ensures Copied(flat, host[..], cmd, addr, host, 0)
    {
    }

    /** The relinking in mem_translate: entry i of bucket s, after prev, goes to the front. */
    method MoveToFront(s: nat, prev: Pte?, pte: Pte, ghost i: nat)
      requires TableOk() && s < MEM_PTAB_SIZE && i < |chains[s]| && pte == chains[s][i]
      requires prev == if i == 0 then null else chains[s][i - 1]
      modifies this`chains, ptab, nodes`next
      ensures TableOk() && chains == old(chains)[s := ToFront(old(chains[s]), i)]
    {
      hide ToFront, Linked;
      ghost var chain := chains[s];
      MoveKeepsMembers(chains, nodes, s, i);
      ChainsApart(chains, nodes, s);
      Relink(s, prev, pte, chain, i);
      forall t | 0 <= t < MEM_PTAB_SIZE && t != s ensures Linked(ptab[t], chains[t]) {
        assert old(Linked(ptab[t], chains[t]));
      }
      chains := chains[s := ToFront(chain, i)];
    }

    /** The three pointer assignments. */
    method Relink(s: nat, prev: Pte?, pte: Pte, ghost chain: seq<Pte>, ghost i: nat)
      requires s < ptab.Length && Linked(ptab[s], chain) && i < |chain| && pte == chain[i]
      requires forall j, k | 0 <= j < k < |chain| :: chain[j].tag != chain[k].tag
      requires prev == if i == 0 then null else chain[i - 1]
      modifies ptab, (set n | n in chain)`next
      ensures Linked(ptab[s], ToFront(chain, i))
      ensures forall t | 0 <= t < ptab.Length && t != s :: ptab[t] == old(ptab[t])
    {
      hide ToFront, Linked;
      HeadIs(ptab[s], chain);
      ghost var nexts := Nexts(chain);
      LinkedNexts(ptab[s], chain);
      if prev != null {
        prev.next := pte.next;
        pte.next := ptab[s];
        ptab[s] := pte;
        FrontLinked(chain, i, nexts);
      } else {
        FirstStays(chain);
      }
    }

    lemma PushLinked(head: Pte?, chain: seq<Pte>, pte: Pte)
      requires Linked(head, chain) && pte.next == head
      ensures Linked(pte, [pte] + chain)
    {
      var longer := [pte] + chain;
      forall i | 0 <= i < |longer|
        ensures longer[i].next == if i + 1 < |longer| then longer[i + 1] else null
      {
        if i > 0 { assert longer[i] == chain[i - 1]; }
      }
    }

    lemma HeadIs(head: Pte?, chain: seq<Pte>)
      requires chain != [] && Linked(head, chain)
      ensures head == chain[0]
    {
    }

    lemma LinkedNexts(head: Pte?, chain: seq<Pte>)
      requires Linked(head, chain)
      ensures forall k | 0 <= k < |chain| :: Nexts(chain)[k] == if k + 1 < |chain| then chain[k + 1] else null
    {
      forall k | 0 <= k < |chain| ensures Nexts(chain)[k] == if k + 1 < |chain| then chain[k + 1] else null {
        assert Nexts(chain)[k] == chain[k].next;
      }
    }

    lemma FirstStays(chain: seq<Pte>)
      requires chain != []
      ensures ToFront(chain, 0) == chain
    {
    }

    ghost function Nexts(chain: seq<Pte>): (ns: seq<Pte?>)
      reads chain
      ensures |ns| == |chain| && forall k | 0 <= k < |chain| :: ns[k] == chain[k].next
    {
      if chain == [] then [] else Nexts(chain[..|chain| - 1]) + [chain[|chain| - 1].next]
    }

    /** Entry i, whose next is now the head, and its predecessor, whose next is now entry
        i + 1, complete the list with entry i in front. */
    lemma FrontLinked(chain: seq<Pte>, i: nat, nexts: seq<Pte?>)
      requires 0 < i < |chain| == |nexts|
      requires forall j, k | 0 <= j < k < |chain| :: chain[j].tag != chain[k].tag
      requires forall k | 0 <= k < |chain| :: nexts[k] == if k + 1 < |chain| then chain[k + 1] else null
      requires forall k | 0 <= k < |chain| && k != i && k != i - 1 :: chain[k].next == nexts[k]
      requires chain[i - 1].next == nexts[i] && chain[i].next == chain[0]
      ensures Linked(chain[i], ToFront(chain, i))
    {
      var moved := ToFront(chain, i);
      forall k | 0 <= k < |moved|
        ensures moved[k].next == if k + 1 < |moved| then moved[k + 1] else null
      {
        ToFrontAt(chain, i, k);
        if k + 1 < |moved| { ToFrontAt(chain, i, k + 1); }
        hide ToFront;
        if k == 0 {
          assert moved[0].next == chain[0];
        } else if k < i {
          assert chain[k - 1].next == nexts[k - 1];
        } else if k == i {
          assert chain[i - 1].next == nexts[i];
        } else {
          assert chain[k].next == nexts[k];
        }
      }
    }
  }

  lemma NewKeepsMembers(chains: seq<seq<Pte>>, nodes: set<Pte>, s: nat, pte: Pte)
    requires MembersOk(chains, nodes) && s < MEM_PTAB_SIZE && pte.home == s && pte !in nodes
    requires forall n | n in nodes && n.home == s :: n.tag != pte.tag
    ensures MembersOk(chains[s := [pte] + chains[s]], nodes + {pte})
    ensures |chains| == MEM_PTAB_SIZE && forall t | 0 <= t < MEM_PTAB_SIZE :: pte !in chains[t]
  {
    var after, all := chains[s := [pte] + chains[s]], nodes + {pte};
    forall t | 0 <= t < MEM_PTAB_SIZE ensures ChainOk(after[t], t, all) {
      assert ChainOk(chains[t], t, nodes);
    }
  }

  /** No entry is in two buckets. */
  lemma ChainsApart(chains: seq<seq<Pte>>, nodes: set<Pte>, s: nat)
    requires MembersOk(chains, nodes) && s < MEM_PTAB_SIZE
    ensures forall t, n | 0 <= t < MEM_PTAB_SIZE && t != s && n in chains[t] :: n !in chains[s]
  {
    forall t, n | 0 <= t < MEM_PTAB_SIZE && t != s && n in chains[t] ensures n !in chains[s] {
      assert ChainOk(chains[t], t, nodes) && ChainOk(chains[s], s, nodes);
    }
  }

  lemma MoveKeepsMembers(chains: seq<seq<Pte>>, nodes: set<Pte>, s: nat, i: nat)
    requires MembersOk(chains, nodes) && s < MEM_PTAB_SIZE && i < |chains[s]|
    ensures MembersOk(chains[s := ToFront(chains[s], i)], nodes)
  {
    var chain := chains[s];
    assert chain == chain[..i] + [chain[i]] + chain[i + 1..];
    assert forall n :: n in chain <==> n in ToFront(chain, i);
    assert ChainOk(chain, s, nodes);
  }
}
