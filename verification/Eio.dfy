/** External I/O traces: the memory traffic of a system call is coalesced into blobs and
    recorded with its register inputs and outputs; replaying the transaction later checks the
    inputs and reproduces the outputs. */
module Eio {
  import opened Bits
  import opened Memory
  import opened Wrappers
  import Exo
  import Numbers

  type Term = Exo.Term

  // ---------- single byte accesses ----------

  datatype Touch = Touch(addr: nat, val: byte)

  /** The bytes of one access, each at its own address. */
  function Touches(addr: nat, bs: seq<byte>): (ts: seq<Touch>)
    ensures |ts| == |bs| && forall k | 0 <= k < |ts| :: ts[k] == Touch(Wrap(addr + k), bs[k])
  {
    if bs == [] then [] else Touches(addr, bs[..|bs| - 1]) + [Touch(Wrap(addr + |bs| - 1), bs[|bs| - 1])]
  }

  /** Memory after writing the bytes in order. */
  function Applied(m: map<nat, byte>, ts: seq<Touch>): map<nat, byte> {
    if ts == [] then m else Applied(m, ts[..|ts| - 1])[ts[|ts| - 1].addr := ts[|ts| - 1].val]
  }

  /** Memory shows these bytes. */
  predicate Shows(m: map<nat, byte>, ts: seq<Touch>) {
    forall k | 0 <= k < |ts| :: Get(m, ts[k].addr) == ts[k].val
  }

  lemma {:induction false} AppliedAppend(m: map<nat, byte>, a: seq<Touch>, b: seq<Touch>)
    ensures Applied(m, a + b) == Applied(Applied(m, a), b)
  {
    if b == [] {
      assert a + b == a;
    } else {
      assert (a + b)[..|a + b| - 1] == a + b[..|b| - 1];
      AppliedAppend(m, a, b[..|b| - 1]);
    }
  }

  /** Other addresses keep their bytes. */
  lemma {:induction false} OtherBytesStay(m: map<nat, byte>, ts: seq<Touch>, a: nat)
    requires forall k | 0 <= k < |ts| :: ts[k].addr != a
    ensures Get(Applied(m, ts), a) == Get(m, a)
  {
    if ts != [] {
      OtherBytesStay(m, ts[..|ts| - 1], a);
    }
  }

  /** Of several bytes at one address the last one stays. */
  lemma {:induction false} LastByteStays(m: map<nat, byte>, ts: seq<Touch>, k: nat)
    requires k < |ts| && forall l | k < l < |ts| :: ts[l].addr != ts[k].addr
    ensures Get(Applied(m, ts), ts[k].addr) == ts[k].val
  {
    if k < |ts| - 1 {
      LastByteStays(m, ts[..|ts| - 1], k);
    }
  }

  lemma {:induction false} AppliedIsFlatWrite(m: map<nat, byte>, addr: nat, bs: seq<byte>)
    ensures Applied(m, Touches(addr, bs)) == FlatWrite(m, addr, bs)
  {
    hide Wrap;
    if bs != [] {
      var ts := Touches(addr, bs);
      assert ts[..|ts| - 1] == Touches(addr, bs[..|bs| - 1]);
      AppliedIsFlatWrite(m, addr, bs[..|bs| - 1]);
    }
  }

  /** Two adjacent accesses make one. */
  lemma {:induction false} TouchesAppend(addr: nat, a: seq<byte>, b: seq<byte>)
    ensures Touches(addr, a + b) == Touches(addr, a) + Touches(Wrap(addr + |a|), b)
  {
    hide Wrap, Touches;
    var whole, parts := Touches(addr, a + b), Touches(addr, a) + Touches(Wrap(addr + |a|), b);
    forall i | 0 <= i < |whole| ensures whole[i] == parts[i] {
      if i >= |a| {
        WrapTwice(addr + |a|, i - |a|);
      }
    }
  }

  // ---------- recorded blobs ----------

  /** An address and a blob. */
  predicate IsRec(t: Term) {
    t.List? && |t.elts| == 2 && t.elts[0].Address? && t.elts[1].Blob?
  }

  function RecTouches(t: Term): seq<Touch> {
    if IsRec(t) then Touches(t.elts[0].val, t.elts[1].data) else []
  }

  /** All the bytes of a list of records, in order. */
  function Flatten(recs: seq<Term>): seq<Touch> {
    if recs == [] then [] else Flatten(recs[..|recs| - 1]) + RecTouches(recs[|recs| - 1])
  }

  function MakeRec(addr: nat, data: seq<byte>): Term {
    Exo.List([Exo.Address(addr), Exo.Blob(data)])
  }

  lemma FlattenOne(recs: seq<Term>, addr: nat, data: seq<byte>)
    ensures Flatten(recs + [MakeRec(addr, data)]) == Flatten(recs) + Touches(addr, data)
  {
    assert (recs + [MakeRec(addr, data)])[..|recs|] == recs;
  }

  const BLOB_TAIL_SIZE: nat := 256

  /** struct mem_rec_t, without the pointers: `open` when there is a blob to add to, which is
      always the last of the list. */
  datatype Rec = Rec(open: bool, addr: nat, size: nat, maxsize: nat)

  const CLOSED := Rec(false, 0, 0, 0)

  predicate AllRecs(list: seq<Term>) {
    forall i | 0 <= i < |list| :: IsRec(list[i])
  }

  /** Addresses of 64 bits, sizes of an int. */
  predicate AllRegular(list: seq<Term>) {
    forall i | 0 <= i < |list| && IsRec(list[i]) ::
      list[i].elts[0].val < ADDR_SPACE && |list[i].elts[1].data| < Exo.INT_LIMIT
  }

  predicate NoEmpty(list: seq<Term>) {
    forall i | 0 <= i < |list| && IsRec(list[i]) :: list[i].elts[1].data != []
  }

  predicate RecOk(list: seq<Term>, rec: Rec) {
    && AllRecs(list)
    && (rec.open ==>
          list != [] && IsRec(list[|list| - 1]) &&
          list[|list| - 1].elts[0].val == rec.addr && |list[|list| - 1].elts[1].data| == rec.size)
  }

  predicate Sized(list: seq<Term>, rec: Rec) {
    AllRegular(list) && rec.maxsize <= MD_PAGE_SIZE + BLOB_TAIL_SIZE
  }

  lemma Extended(front: seq<Term>, addr: nat, data: seq<byte>)
    requires AllRecs(front)
    ensures AllRecs(front + [MakeRec(addr, data)])
    ensures AllRegular(front) && addr < ADDR_SPACE && |data| < Exo.INT_LIMIT ==>
              AllRegular(front + [MakeRec(addr, data)])
    ensures NoEmpty(front) && data != [] ==> NoEmpty(front + [MakeRec(addr, data)])
    ensures Flatten(front + [MakeRec(addr, data)]) == Flatten(front) + Touches(addr, data)
  {
    hide Touches, Flatten;
    FlattenOne(front, addr, data);
  }

  lemma LastOff(list: seq<Term>, rec: Rec)
    requires RecOk(list, rec) && rec.open
    ensures var front, last := list[..|list| - 1], list[|list| - 1];
            && AllRecs(front) && (AllRegular(list) ==> AllRegular(front) && rec.addr < ADDR_SPACE)
            && (NoEmpty(list) ==> NoEmpty(front))
            && Flatten(list) == Flatten(front) + Touches(rec.addr, last.elts[1].data)
  {
    hide Touches;
    SplitLast(list, rec.addr, list[|list| - 1].elts[1].data);
  }

  /** An access right behind the open record goes into it as long as there is room; any other one
      gets a record of its own, with room for 256 bytes more. */
  predicate Coalesced(list: seq<Term>, rec: Rec, addr: nat, data: seq<byte>, list': seq<Term>, rec': Rec)
    requires RecOk(list, rec)
  {
    if rec.open && (rec.addr + rec.size) % ADDR_SPACE == addr && rec.size + |data| < rec.maxsize then
      && list' == list[..|list| - 1] +
                  [Exo.List([Exo.Address(rec.addr), Exo.Blob(list[|list| - 1].elts[1].data + data)])]
      && rec' == Rec(true, rec.addr, rec.size + |data|, rec.maxsize)
    else
      && list' == list + [Exo.List([Exo.Address(addr), Exo.Blob(data)])]
      && rec' == Rec(true, addr, |data|, |data| + 256)
  }

  /** The coalescing of one access into the list of records. */
  method Coalesce(list: seq<Term>, rec: Rec, addr: nat, data: seq<byte>) returns (list': seq<Term>, rec': Rec)
    requires RecOk(list, rec) && addr < ADDR_SPACE
    ensures RecOk(list', rec')
    ensures Flatten(list') == Flatten(list) + Touches(addr, data)
    ensures Sized(list, rec) && |data| <= MD_PAGE_SIZE ==> Sized(list', rec')
    ensures NoEmpty(list) && data != [] ==> NoEmpty(list')
    ensures Coalesced(list, rec, addr, data, list', rec')
  {
    hide Touches, AllRecs, AllRegular, NoEmpty, Flatten;
    if rec.open && Wrap(rec.addr + rec.size) == addr && rec.size + |data| < rec.maxsize {
      var front, blob := list[..|list| - 1], list[|list| - 1].elts[1].data;
      list' := front + [MakeRec(rec.addr, blob + data)];
      rec' := rec.(size := rec.size + |data|);
      LastOff(list, rec);
      TouchesAppend(rec.addr, blob, data);
      Extended(front, rec.addr, blob + data);
      Assoc(Flatten(front), Touches(rec.addr, blob), Touches(addr, data));
    } else {
      list' := list + [MakeRec(addr, data)];
      rec' := Rec(true, addr, |data|, |data| + BLOB_TAIL_SIZE);
      Extended(list, addr, data);
    }
  }

  lemma Assoc(a: seq<Touch>, b: seq<Touch>, c: seq<Touch>)
    ensures (a + b) + c == a + (b + c)
  {
  }

  lemma SplitLast(list: seq<Term>, addr: nat, data: seq<byte>)
    requires list != [] && IsRec(list[|list| - 1])
    requires list[|list| - 1].elts[0].val == addr && list[|list| - 1].elts[1].data == data
    ensures Flatten(list) == Flatten(list[..|list| - 1]) + Touches(addr, data)
  {
  }

  // ---------- system calls ----------

  const NUM_IREGS: nat := 32
  const NUM_FREGS: nat := 32
  const NUM_TRACED: nat := 22
  const OSF_SYS_EXIT: nat := 1

  /** What a system call may change in the registers: the integer registers, the
      floating-point registers as a block, the floating-point control register, and the next
      program counter. No system call assigns the program counter itself. */
  datatype Arch = Arch(r: seq<nat>, f: seq<nat>, fpcr: nat, npc: nat)

  predicate ArchOk(a: Arch) {
    |a.r| == NUM_IREGS && |a.f| == NUM_FREGS && Words(a.r) && Words(a.f) && a.fpcr < ADDR_SPACE && a.npc < ADDR_SPACE
  }

  /** struct regs_t. */
  class Regs {
    const r: array<nat>
    var f: seq<nat>
    var fpcr: nat
    var uniq: nat
    var pc: nat
    var npc: nat

    ghost predicate Valid()
      reads this, r
    {
      r.Length == NUM_IREGS
    }

    function Now(): Arch
      reads this, r
    {
      Arch(r[..], f, fpcr, npc)
    }

    constructor (a: Arch, pc: nat, uniq: nat)
      requires |a.r| == NUM_IREGS
      ensures Valid() && fresh(r) && Now() == a && this.pc == pc && this.uniq == uniq
    {
      r := new nat[NUM_IREGS](i requires 0 <= i < NUM_IREGS => a.r[i]);
      f, fpcr, npc, this.pc, this.uniq := a.f, a.fpcr, a.npc, pc, uniq;
    }

    method Set(a: Arch)
      requires Valid() && |a.r| == NUM_IREGS
      modifies this`f, this`fpcr, this`npc, r
      ensures Valid() && Now() == a
    {
      forall k | 0 <= k < NUM_IREGS {
        r[k] := a.r[k];
      }
      f, fpcr, npc := a.f, a.fpcr, a.npc;
    }
  }

  /** One memory access of a system call. */
  datatype Op = Load(addr: nat, n: nat) | Store(addr: nat, data: seq<byte>)

  /** A system call: its memory accesses, and what it leaves in the registers and the break. */
  datatype Call = Call(ops: seq<Op>, after: Arch, brk: nat)

  function Size(op: Op): nat {
    if op.Load? then op.n else |op.data|
  }

  predicate Possible(ops: seq<Op>) {
    forall i | 0 <= i < |ops| :: ops[i].addr < ADDR_SPACE
  }

  predicate AllPass(ops: seq<Op>) {
    forall i | 0 <= i < |ops| :: AccessFault(ops[i].addr, Size(ops[i])).NoFault?
  }

  predicate Bounded(ops: seq<Op>) {
    forall i | 0 <= i < |ops| :: Size(ops[i]) <= MD_PAGE_SIZE
  }

  predicate NoneEmpty(ops: seq<Op>) {
    forall i | 0 <= i < |ops| :: Size(ops[i]) > 0
  }

  /** An access that passes is not larger than a page, and not empty unless it is at 0. */
  lemma PassingIsBounded(ops: seq<Op>)
    requires Possible(ops) && AllPass(ops)
    ensures Bounded(ops)
    ensures (forall i | 0 <= i < |ops| :: ops[i].addr != 0) ==> NoneEmpty(ops)
  {
    forall i | 0 <= i < |ops| ensures Size(ops[i]) <= MD_PAGE_SIZE && (Size(ops[i]) == 0 ==> ops[i].addr == 0) {
      AccessPasses(ops[i].addr, Size(ops[i]));
    }
  }

  /** No load behind a store. */
  predicate ReadsFirst(ops: seq<Op>) {
    forall i, j | 0 <= i < j < |ops| :: ops[i].Store? ==> ops[j].Store?
  }

  /** The bytes a call reads from memory m. */
  function Inputs(m: map<nat, byte>, ops: seq<Op>): seq<Touch> {
    if ops == [] then []
    else
      var op := ops[|ops| - 1];
      Inputs(m, ops[..|ops| - 1]) +
      if op.Load? then Touches(op.addr, FlatRead(m, op.addr, op.n)) else []
  }

  /** The bytes a call writes. */
  function Outputs(ops: seq<Op>): seq<Touch> {
    if ops == [] then []
    else
      var op := ops[|ops| - 1];
      Outputs(ops[..|ops| - 1]) + if op.Store? then Touches(op.addr, op.data) else []
  }

  datatype Service = Stopped | Served(fault: Fault)

  /** The transaction count of a machine that has made no call: -1, as an unsigned value. */
  const NO_CALL_YET: nat := 18446744073709551615

  /** The static state of eio.c. */
  class Tracer {
    var inputMem: seq<Term>
    var inputRec: Rec
    var outputMem: seq<Term>
    var outputRec: Rec
    var seenWrite: bool
    var brk: nat
    var transIcnt: nat

    constructor ()
      ensures Recording() && Empty() && brk == 0 && transIcnt == NO_CALL_YET
    {
      inputMem, inputRec, outputMem, outputRec := [], CLOSED, [], CLOSED;
      seenWrite, brk, transIcnt := false, 0, NO_CALL_YET;
    }

    ghost predicate Recording()
      reads this`inputMem, this`inputRec, this`outputMem, this`outputRec
    {
      RecOk(inputMem, inputRec) && RecOk(outputMem, outputRec)
    }

    ghost predicate Empty()
      reads this
    {
      inputMem == outputMem == [] && !inputRec.open && !outputRec.open && !seenWrite &&
      Sized(inputMem, inputRec) && Sized(outputMem, outputRec) && NoEmpty(inputMem) && NoEmpty(outputMem)
    }

    /** my_mem_fn: perform one access and record its bytes. */
    method MyMemFn(mem: Mem, cmd: Cmd, addr: nat, host: array<byte>, nbytes: nat) returns (s: Service)
      requires Recording() && mem.Valid() && addr < ADDR_SPACE && nbytes <= host.Length && host !in mem.Pages()
      modifies this, mem, mem.ptab, mem.nodes`next, mem.Pages(), host
      ensures s.Stopped? <==> cmd.Read? && old(seenWrite)
      ensures s.Served? ==> Recording() && mem.Valid() && mem.OnlyNewPages() && host !in mem.Pages()
      ensures s.Served? ==> s.fault == AccessFault(addr, nbytes) && seenWrite == (old(seenWrite) || cmd.Write?)
      ensures s.Served? && cmd.Read? ==>
                && Flatten(inputMem) == old(Flatten(inputMem)) + Touches(addr, host[..nbytes])
                && outputMem == old(outputMem) && outputRec == old(outputRec) && mem.flat == old(mem.flat)
                && (s.fault.NoFault? ==> host[..nbytes] == FlatRead(mem.flat, addr, nbytes))
      ensures s.Served? && cmd.Write? ==>
                && Flatten(outputMem) == old(Flatten(outputMem)) + Touches(addr, old(host[..nbytes]))
                && inputMem == old(inputMem) && inputRec == old(inputRec)
                && (s.fault.NoFault? ==> mem.flat == FlatWrite(old(mem.flat), addr, old(host[..nbytes])))
      ensures s.Served? && nbytes <= MD_PAGE_SIZE ==>
                && (old(Sized(inputMem, inputRec)) ==> Sized(inputMem, inputRec))
                && (old(Sized(outputMem, outputRec)) ==> Sized(outputMem, outputRec))
      ensures s.Served? && nbytes > 0 ==>
                && (old(NoEmpty(inputMem)) ==> NoEmpty(inputMem)) && (old(NoEmpty(outputMem)) ==> NoEmpty(outputMem))
      ensures brk == old(brk)
    {
      hide mem.TableOk, mem.PagesOk, mem.Agrees, RecOk, Sized, NoEmpty, Coalesced;
      hide Flatten, Touches, FlatRead, FlatWrite, AccessFault;
      if cmd == Cmd.Read && seenWrite {
        return Stopped;
      }
      if cmd == Cmd.Write {
        seenWrite := true;
      }
      var fault := NoFault;
      if cmd == Cmd.Read {
        fault := mem.Access(cmd, addr, host, 0, nbytes);
        assert host[0..nbytes] == host[..nbytes];
        inputMem, inputRec := Coalesce(inputMem, inputRec, addr, host[..nbytes]);
      } else {
        outputMem, outputRec := Coalesce(outputMem, outputRec, addr, host[..nbytes]);
        assert host[0..nbytes] == host[..nbytes];
        fault := mem.Access(cmd, addr, host, 0, nbytes);
      }
      s := Served(fault);
    }

    /** What the recording says after the first operations of a call. */
    ghost predicate Recorded(mem: Mem, ops: seq<Op>, flat0: map<nat, byte>)
      reads this`inputMem, this`inputRec, this`outputMem, this`outputRec, this`seenWrite, mem`flat
    {
      && Recording()
      && (seenWrite <==> HasStore(ops))
      && (AllPass(ops) ==>
            && mem.flat == Applied(flat0, Outputs(ops))
            && Flatten(inputMem) == Inputs(flat0, ops)
            && Flatten(outputMem) == Outputs(ops))
      && (Bounded(ops) ==> Sized(inputMem, inputRec) && Sized(outputMem, outputRec))
      && (NoneEmpty(ops) ==> NoEmpty(inputMem) && NoEmpty(outputMem))
    }

    /** The system call, through my_mem_fn. False is an error exit. */
    method SysCall(mem: Mem, ops: seq<Op>) returns (ok: bool)
      requires Recording() && Empty() && mem.Valid() && Possible(ops)
      modifies this, mem, mem.ptab, mem.nodes`next, mem.Pages()
      ensures ok <==> ReadsFirst(ops)
      ensures ok ==> mem.Valid() && mem.OnlyNewPages() && Recorded(mem, ops, old(mem.flat))
      ensures brk == old(brk)
    {
      hide mem.TableOk, mem.PagesOk, mem.Agrees, Recorded, ReadsFirst, AllPass;
      ghost var flat0 := mem.flat;
      NothingRecorded(mem);
      assert ops[..0] == [];
      for i := 0 to |ops|
        invariant mem.Valid() && mem.OnlyNewPages() && ReadsFirst(ops[..i])
        invariant Recorded(mem, ops[..i], flat0) && brk == old(brk)
      {
        var ok' := OneOp(mem, ops[i], ops[..i], flat0);
        assert ops[..i + 1] == ops[..i] + [ops[i]];
        FirstMore(ops, i);
        if !ok' {
          return false;
        }
      }
      assert ops[..|ops|] == ops;
      ok := true;
    }

    lemma NothingRecorded(mem: Mem)
      requires Recording() && Empty()
      ensures Recorded(mem, [], mem.flat) && ReadsFirst([])
    {
    }

    method OneOp(mem: Mem, op: Op, ghost done: seq<Op>, ghost flat0: map<nat, byte>) returns (ok: bool)
      requires mem.Valid() && op.addr < ADDR_SPACE && Recorded(mem, done, flat0)
      modifies this, mem, mem.ptab, mem.nodes`next, mem.Pages()
      ensures ok <==> op.Store? || !HasStore(done)
      ensures ok ==> mem.Valid() && mem.OnlyNewPages() && Recorded(mem, done + [op], flat0)
      ensures brk == old(brk)
    {
      hide mem.TableOk, mem.PagesOk, mem.Agrees, RecOk, Sized, NoEmpty, Inputs, Outputs, Flatten, Touches;
      hide HasStore, AllPass, Bounded, NoneEmpty, AccessFault, FlatRead, FlatWrite, Applied;
      var n := Size(op);
      var host := new byte[n](k => 0);
      if op.Store? {
        host := new byte[n](k requires 0 <= k < n => op.data[k]);
      }
      assert op.Store? ==> host[..n] == op.data;
      OneMoreChecked(done, op);
      OneMore(done, op, flat0);
      var s := MyMemFn(mem, if op.Load? then Cmd.Read else Cmd.Write, op.addr, host, n);
      ok := s.Served?;
    }

    /** The register terms of a list, from the first traced register on. */
    method RegList(list: seq<Term>, regs: Regs) returns (list': seq<Term>)
      requires regs.Valid()
      ensures list' == list + RegTerms(regs.r[..NUM_TRACED])
    {
      list' := list;
      for i := 0 to NUM_TRACED
        invariant list' == list + RegTerms(regs.r[..i])
      {
        list' := list' + [Exo.Address(regs.r[i])];
        assert regs.r[..i + 1] == regs.r[..i] + [regs.r[i]];
        RegTermsNext(regs.r[..i], regs.r[i]);
      }
    }

    /** eio_write_trace: perform a system call and return its transaction. */
    method WriteTrace(icnt: nat, regs: Regs, mem: Mem, call: Call) returns (t: Option<Term>)
      requires regs.Valid() && mem.Valid() && Possible(call.ops) && |call.after.r| == NUM_IREGS
      modifies this, regs`f, regs`fpcr, regs`npc, regs.r, mem, mem.ptab, mem.nodes`next, mem.Pages()
      ensures t.None? <==> !ReadsFirst(call.ops)
      ensures t.Some? ==>
                && mem.Valid() && mem.OnlyNewPages() && Recorded(mem, call.ops, old(mem.flat))
                && regs.Now() == call.after && brk == call.brk && transIcnt == icnt
                && t.value == Transaction(icnt, regs.pc, old(regs.r[..NUM_TRACED]), inputMem,
                                          call.brk, call.after.r[..NUM_TRACED], outputMem)
    {
      hide mem.TableOk, mem.PagesOk, mem.Agrees, RecOk, Sized, NoEmpty, AllPass, Flatten, Inputs, Outputs, Applied;
      hide ReadsFirst, RegTerms, HasStore, Bounded, NoneEmpty, Recorded, Recording;
      var inputRegs := Start(regs);
      var ok := SysCall(mem, call.ops);
      if !ok {
        return None;
      }
      t := Finish(icnt, regs, call, inputRegs);
    }

    /** The first half: the register inputs, and empty memory records. */
    method Start(regs: Regs) returns (inputRegs: seq<Term>)
      requires regs.Valid()
      modifies this`inputMem, this`inputRec, this`outputMem, this`outputRec, this`seenWrite
      ensures inputRegs == RegTerms(regs.r[..NUM_TRACED]) && Recording() && Empty()
    {
      inputRegs := RegList([], regs);
      assert inputRegs == RegTerms(regs.r[..NUM_TRACED]);
      inputMem, inputRec, outputMem, outputRec := [], CLOSED, [], CLOSED;
      seenWrite := false;
      StartsEmpty();
    }

    /** The second half: the outputs of the call, and the transaction. */
    method Finish(icnt: nat, regs: Regs, call: Call, inputRegs: seq<Term>) returns (t: Option<Term>)
      requires regs.Valid() && |call.after.r| == NUM_IREGS
      modifies this`brk, this`transIcnt, regs`f, regs`fpcr, regs`npc, regs.r
      ensures regs.Now() == call.after && brk == call.brk && transIcnt == icnt
      ensures t == Some(Exo.List([Exo.Integer(icnt), Exo.Address(regs.pc), Exo.List(inputRegs), Exo.List(inputMem),
                                  Exo.List([Exo.Address(call.brk)] + RegTerms(call.after.r[..NUM_TRACED])),
                                  Exo.List(outputMem)]))
    {
      regs.Set(call.after);
      brk := call.brk;
      assert regs.r[..] == regs.Now().r;
      assert regs.r[..NUM_TRACED] == regs.r[..][..NUM_TRACED] == call.after.r[..NUM_TRACED];
      var outputRegs := RegList([Exo.Address(brk)], regs);
      t := Some(Exo.List([Exo.Integer(icnt), Exo.Address(regs.pc), Exo.List(inputRegs), Exo.List(inputMem),
                          Exo.List(outputRegs), Exo.List(outputMem)]));
      transIcnt := icnt;
    }

    lemma StartsEmpty()
      requires inputMem == outputMem == [] && inputRec == outputRec == CLOSED && !seenWrite
      ensures Recording() && Empty()
    {
    }

    /** One byte through mem_access. */
    method ReadOne(mem: Mem, loc: nat) returns (val: byte)
      requires mem.Valid() && loc < ADDR_SPACE
      modifies mem, mem.ptab, mem.nodes`next, mem.Pages()
      ensures mem.Valid() && mem.OnlyNewPages() && mem.flat == old(mem.flat) && val == Get(mem.flat, loc)
    {
      hide mem.TableOk, mem.PagesOk, mem.Agrees, AccessFault, FlatRead, FlatWrite;
      var host := new byte[1](i => 0);
      mem.BlockFault(loc, 1);
      OneByteRead(mem.flat, loc);
      var _ := mem.Access(Cmd.Read, loc, host, 0, 1);
      val := host[0];
      assert host[0..1][0] == val;
    }

    method WriteOne(mem: Mem, loc: nat, val: byte)
      requires mem.Valid() && loc < ADDR_SPACE
      modifies mem, mem.ptab, mem.nodes`next, mem.Pages()
      ensures mem.Valid() && mem.OnlyNewPages() && mem.flat == old(mem.flat)[loc := val]
    {
      hide mem.TableOk, mem.PagesOk, mem.Agrees, AccessFault, FlatRead, FlatWrite;
      var host := new byte[1](i => val);
      mem.BlockFault(loc, 1);
      assert host[0..1] == [val];
      OneByteWrite(mem.flat, loc, val);
      var _ := mem.Access(Cmd.Write, loc, host, 0, 1);
    }

    /** The check of one input record, byte by byte. */
    method CheckRec(mem: Mem, addr: nat, data: seq<byte>) returns (ok: bool)
      requires mem.Valid()
      modifies mem, mem.ptab, mem.nodes`next, mem.Pages()
      ensures mem.Valid() && mem.OnlyNewPages() && mem.flat == old(mem.flat)
      ensures ok <==> Shows(mem.flat, Touches(addr, data))
    {
      hide mem.TableOk, mem.PagesOk, mem.Agrees, Wrap, Touches;
      var loc := Wrap(addr);
      for i := 0 to |data|
        invariant mem.Valid() && mem.OnlyNewPages() && mem.flat == old(mem.flat) && loc == Wrap(addr + i)
        invariant forall k | 0 <= k < i :: Get(mem.flat, Touches(addr, data)[k].addr) == Touches(addr, data)[k].val
      {
        var val := ReadOne(mem, loc);
        assert Touches(addr, data)[i] == Touch(loc, data[i]);
        if val != data[i] {
          return false;
        }
        WrapTwice(addr + i, 1);
        loc := Wrap(loc + 1);
      }
      ok := true;
    }

    method CheckInputs(mem: Mem, list: seq<Term>) returns (ok: bool)
      requires mem.Valid()
      modifies mem, mem.ptab, mem.nodes`next, mem.Pages()
      ensures mem.Valid() && mem.OnlyNewPages() && mem.flat == old(mem.flat)
      ensures ok <==> InputsMatch(list, mem.flat)
    {
      hide mem.TableOk, mem.PagesOk, mem.Agrees, Touches, Shows;
      for i := 0 to |list|
        invariant mem.Valid() && mem.OnlyNewPages() && mem.flat == old(mem.flat)
        invariant forall k | 0 <= k < i :: IsRec(list[k]) && Shows(mem.flat, RecTouches(list[k]))
      {
        var rec := list[i];
        if !IsRec(rec) {
          return false;
        }
        ok := CheckRec(mem, rec.elts[0].val, rec.elts[1].data);
        assert RecTouches(list[i]) == Touches(rec.elts[0].val, rec.elts[1].data);
        if !ok {
          return false;
        }
      }
      ok := true;
    }

    /** The stores of one output record. */
    method WriteRec(mem: Mem, addr: nat, data: seq<byte>)
      requires mem.Valid()
      modifies mem, mem.ptab, mem.nodes`next, mem.Pages()
      ensures mem.Valid() && mem.OnlyNewPages() && mem.flat == FlatWrite(old(mem.flat), addr, data)
    {
      hide mem.TableOk, mem.PagesOk, mem.Agrees, Wrap, FlatWrite;
      var loc := Wrap(addr);
      FlatWriteNothing(mem.flat, addr, data);
      for i := 0 to |data|
        invariant mem.Valid() && mem.OnlyNewPages() && loc == Wrap(addr + i)
        invariant mem.flat == FlatWrite(old(mem.flat), addr, data[..i])
      {
        WriteOne(mem, loc, data[i]);
        FlatWriteNext(old(mem.flat), addr, data, i);
        WrapTwice(addr + i, 1);
        loc := Wrap(loc + 1);
      }
      assert data[..|data|] == data;
    }

    method WriteOutputs(mem: Mem, list: seq<Term>) returns (ok: bool)
      requires mem.Valid()
      modifies mem, mem.ptab, mem.nodes`next, mem.Pages()
      ensures mem.Valid() && mem.OnlyNewPages() && (ok <==> AllRecs(list))
      ensures ok ==> mem.flat == Applied(old(mem.flat), Flatten(list))
    {
      hide mem.TableOk, mem.PagesOk, mem.Agrees, Applied, Flatten, FlatWrite, Touches;
      NothingApplied(mem.flat);
      assert list[..0] == [];
      for i := 0 to |list|
        invariant mem.Valid() && mem.OnlyNewPages()
        invariant forall k | 0 <= k < i :: IsRec(list[k])
        invariant mem.flat == Applied(old(mem.flat), Flatten(list[..i]))
      {
        var rec := list[i];
        if !IsRec(rec) {
          return false;
        }
        WriteRec(mem, rec.elts[0].val, rec.elts[1].data);
        NextApplied(old(mem.flat), list, i);
      }
      assert list[..|list|] == list;
      ok := true;
    }

    /** The comparison of the input registers. */
    method CheckRegs(list: seq<Term>, regs: Regs) returns (ok: bool)
      requires regs.Valid()
      ensures ok <==> RegsMatch(list, regs.r[..])
    {
      for i := 0 to NUM_TRACED
        invariant i <= |list| && forall k | 0 <= k < i :: list[k].Address? && list[k].val == regs.r[k]
      {
        if i == |list| || !list[i].Address? {
          return false;
        }
        if regs.r[i] != list[i].val {
          return false;
        }
      }
      ok := |list| == NUM_TRACED;
    }

    /** The break and the output registers. */
    method WriteRegs(list: seq<Term>, regs: Regs) returns (ok: bool)
      requires regs.Valid()
      modifies this`brk, regs.r
      ensures ok <==> |list| == NUM_TRACED + 1 && AllAddresses(list)
      ensures ok ==> brk == list[0].val && regs.r[..] == NewRegs(list[1..], old(regs.r[..]))
    {
      if list == [] || !list[0].Address? {
        return false;
      }
      brk := list[0].val;
      for i := 0 to NUM_TRACED
        invariant i < |list| && brk == list[0].val
        invariant forall k | 0 <= k <= i :: list[k].Address?
        invariant forall k | 0 <= k < NUM_IREGS :: regs.r[k] == if k < i then list[k + 1].val else old(regs.r[k])
      {
        if i + 1 == |list| || !list[i + 1].Address? {
          return false;
        }
        regs.r[i] := list[i + 1].val;
      }
      ok := |list| == NUM_TRACED + 1;
      if ok {
        assert regs.r[..] == NewRegs(list[1..], old(regs.r[..]));
      }
    }

    /** eio_read_trace: check the inputs of a transaction and write its outputs. */
    method ReadTrace(exo: Option<Term>, icnt: nat, regs: Regs, mem: Mem) returns (end: Ending)
      requires regs.Valid() && mem.Valid()
      modifies this`brk, this`transIcnt, regs.r, mem, mem.ptab, mem.nodes`next, mem.Pages()
      ensures var goal := old(Replayed(exo, icnt, regs.pc, regs.r[..], mem.flat));
              match end
              case Exiting => goal.Exits?
              case Failing => goal.Fatal?
              case Continuing =>
                mem.Valid() && mem.OnlyNewPages() && goal == Done(brk, regs.r[..], mem.flat) && transIcnt == icnt
    {
      hide mem.TableOk, mem.PagesOk, mem.Agrees, Applied, Flatten;
      hide RegsMatch, InputsMatch, AllAddresses, AllRecs, NewRegs;
      ghost var r0, flat0 := regs.r[..], mem.flat;
      if regs.r[0] == OSF_SYS_EXIT {
        return Exiting;
      }
      transIcnt := icnt;
      if exo.None? || !IsTransaction(exo.value) {
        return Failing;
      }
      var e := exo.value.elts;
      if icnt != e[0].val || regs.pc != e[1].val {
        return Failing;
      }
      var ok := CheckRegs(e[2].elts, regs);
      if !ok {
        return Failing;
      }
      ok := CheckInputs(mem, e[3].elts);
      if !ok {
        return Failing;
      }
      assert regs.r[..] == r0;
      ok := WriteRegs(e[4].elts, regs);
      if !ok {
        return Failing;
      }
      ghost var r1 := regs.r[..];
      ok := WriteOutputs(mem, e[5].elts);
      assert regs.r[..] == r1;
      end := if ok then Continuing else Failing;
    }
  }

  predicate HasStore(ops: seq<Op>) {
    exists i :: 0 <= i < |ops| && ops[i].Store?
  }

  lemma FirstMore(ops: seq<Op>, i: nat)
    requires i < |ops| && ReadsFirst(ops[..i])
    ensures ReadsFirst(ops[..i + 1]) <==> ops[i].Store? || !HasStore(ops[..i])
    ensures ReadsFirst(ops) ==> ReadsFirst(ops[..i + 1])
  {
  }

  lemma OneMoreChecked(done: seq<Op>, op: Op)
    ensures HasStore(done + [op]) <==> HasStore(done) || op.Store?
    ensures Bounded(done + [op]) <==> Bounded(done) && Size(op) <= MD_PAGE_SIZE
    ensures NoneEmpty(done + [op]) <==> NoneEmpty(done) && Size(op) > 0
    ensures AllPass(done + [op]) <==> AllPass(done) && AccessFault(op.addr, Size(op)).NoFault?
  {
    hide AccessFault;
    var ops := done + [op];
    assert forall i | 0 <= i < |done| :: ops[i] == done[i];
    assert ops[|done|] == op;
  }

  /** One more operation. A load that comes before every store sees the memory at the start. */
  lemma OneMore(done: seq<Op>, op: Op, flat0: map<nat, byte>)
    ensures !HasStore(done) ==> Outputs(done) == [] && Applied(flat0, Outputs(done)) == flat0
    ensures op.Load? ==>
              Inputs(flat0, done + [op]) == Inputs(flat0, done) + Touches(op.addr, FlatRead(flat0, op.addr, op.n))
    ensures op.Load? ==> Outputs(done + [op]) == Outputs(done)
    ensures op.Store? ==> Outputs(done + [op]) == Outputs(done) + Touches(op.addr, op.data)
    ensures op.Store? ==> Inputs(flat0, done + [op]) == Inputs(flat0, done)
    ensures op.Store? ==>
              Applied(flat0, Outputs(done + [op])) == FlatWrite(Applied(flat0, Outputs(done)), op.addr, op.data)
  {
    hide Touches, FlatRead, FlatWrite, HasStore;
    var ops := done + [op];
    assert ops[..|ops| - 1] == done && ops[|ops| - 1] == op;
    if !HasStore(done) {
      NoOutputs(done);
    }
    if op.Store? {
      AppliedAppend(flat0, Outputs(done), Touches(op.addr, op.data));
      AppliedIsFlatWrite(Applied(flat0, Outputs(done)), op.addr, op.data);
    }
  }

  lemma {:induction false} NoOutputs(ops: seq<Op>)
    requires !HasStore(ops)
    ensures Outputs(ops) == []
  {
    if ops != [] {
      var front := ops[..|ops| - 1];
      assert forall i | 0 <= i < |front| :: front[i] == ops[i];
      assert !ops[|ops| - 1].Store?;
      NoOutputs(front);
    }
  }

  // ---------- transactions ----------

  function RegTerms(vals: seq<nat>): (ts: seq<Term>)
    ensures |ts| == |vals| && forall i | 0 <= i < |vals| :: ts[i] == Exo.Address(vals[i])
  {
    if vals == [] then [] else RegTerms(vals[..|vals| - 1]) + [Exo.Address(vals[|vals| - 1])]
  }

  lemma RegTermsNext(vals: seq<nat>, v: nat)
    ensures RegTerms(vals + [v]) == RegTerms(vals) + [Exo.Address(v)]
  {
    assert (vals + [v])[..|vals|] == vals;
  }

  function Transaction(icnt: nat, pc: nat, inRegs: seq<nat>, inMem: seq<Term>,
                       brk: nat, outRegs: seq<nat>, outMem: seq<Term>): Term
  {
    Exo.List([Exo.Integer(icnt), Exo.Address(pc), Exo.List(RegTerms(inRegs)), Exo.List(inMem),
              Exo.List([Exo.Address(brk)] + RegTerms(outRegs)), Exo.List(outMem)])
  }

  predicate IsTransaction(t: Term) {
    && t.List? && |t.elts| == 6 && t.elts[0].Integer? && t.elts[1].Address?
    && t.elts[2].List? && t.elts[3].List? && t.elts[4].List? && t.elts[5].List?
  }

  /** Exactly the traced registers, as addresses with these values. */
  predicate RegsMatch(list: seq<Term>, r: seq<nat>)
    requires |r| == NUM_IREGS
  {
    |list| == NUM_TRACED && forall i | 0 <= i < |list| :: list[i].Address? && list[i].val == r[i]
  }

  predicate AllAddresses(list: seq<Term>) {
    forall i | 0 <= i < |list| :: list[i].Address?
  }

  /** Every record is well formed, and memory shows its bytes. */
  predicate InputsMatch(list: seq<Term>, m: map<nat, byte>) {
    forall i | 0 <= i < |list| :: IsRec(list[i]) && Shows(m, RecTouches(list[i]))
  }

  /** The end of a replay: the program exits, an error exit, or new break, registers and
      memory. */
  datatype Replay = Exits | Fatal | Done(brk: nat, regs: seq<nat>, mem: map<nat, byte>)

  function NewRegs(list: seq<Term>, r: seq<nat>): (s: seq<nat>)
    requires |list| == NUM_TRACED && AllAddresses(list) && |r| == NUM_IREGS
    ensures |s| == NUM_IREGS
  {
    seq(NUM_IREGS, i requires 0 <= i < NUM_IREGS => if i < NUM_TRACED then list[i].val else r[i])
  }

  /** What replaying a transaction means. */
  function Replayed(exo: Option<Term>, icnt: nat, pc: nat, r: seq<nat>, m: map<nat, byte>): (end: Replay)
    requires |r| == NUM_IREGS
    ensures end.Done? ==> |end.regs| == NUM_IREGS
  {
    if r[0] == OSF_SYS_EXIT then Exits
    else if exo.None? || !IsTransaction(exo.value) then Fatal
    else
      var e := exo.value.elts;
      var outs := e[4].elts;
      if e[0].val != icnt || e[1].val != pc then Fatal
      else if !RegsMatch(e[2].elts, r) || !InputsMatch(e[3].elts, m) then Fatal
      else if |outs| != NUM_TRACED + 1 || !AllAddresses(outs) || !AllRecs(e[5].elts) then Fatal
      else Done(outs[0].val, NewRegs(outs[1..], r), Applied(m, Flatten(e[5].elts)))
  }

  /** Memory shows the bytes of a record at its address. */
  predicate ShowsRecord(t: Term, m: map<nat, byte>) {
    && t.List? && |t.elts| == 2 && t.elts[0].Address? && t.elts[1].Blob?
    && forall k | 0 <= k < |t.elts[1].data| :: Get(m, (t.elts[0].val + k) % ADDR_SPACE) == t.elts[1].data[k]
  }

  /** Every condition on a transaction, and all that it leaves: it has the count and the program
      counter of the call, 22 registers with the values the registers have, input records that
      memory shows, a break and 22 registers to be written, and output records. */
  lemma ReplayIs(e: seq<Term>, icnt: nat, pc: nat, r: seq<nat>, m: map<nat, byte>)
    requires |r| == NUM_IREGS
    ensures var end := Replayed(Some(Exo.List(e)), icnt, pc, r, m);
            && (end.Exits? <==> r[0] == 1)
            && (end.Done? <==>
                  && r[0] != 1 && |e| == 6 && e[0] == Exo.Integer(icnt) && e[1] == Exo.Address(pc)
                  && e[2].List? && |e[2].elts| == 22 && (forall i | 0 <= i < 22 :: e[2].elts[i] == Exo.Address(r[i]))
                  && e[3].List? && (forall i | 0 <= i < |e[3].elts| :: ShowsRecord(e[3].elts[i], m))
                  && e[4].List? && |e[4].elts| == 23 && (forall i | 0 <= i < 23 :: e[4].elts[i].Address?)
                  && e[5].List? && (forall i | 0 <= i < |e[5].elts| :: IsRec(e[5].elts[i])))
            && (end.Done? ==>
                  && end.brk == e[4].elts[0].val && |end.regs| == 32
                  && (forall i | 0 <= i < 32 :: end.regs[i] == if i < 22 then e[4].elts[i + 1].val else r[i])
                  && end.mem == Applied(m, Flatten(e[5].elts)))
  {
    hide Touches, Applied, Flatten;
    if |e| == 6 && e[3].List? {
      forall i | 0 <= i < |e[3].elts|
        ensures ShowsRecord(e[3].elts[i], m) <==> IsRec(e[3].elts[i]) && Shows(m, RecTouches(e[3].elts[i]))
      {
        RecordIsShown(e[3].elts[i], m);
      }
    }
  }

  lemma RecordIsShown(t: Term, m: map<nat, byte>)
    ensures ShowsRecord(t, m) <==> IsRec(t) && Shows(m, RecTouches(t))
  {
    hide Touches;
    if IsRec(t) {
      var ts := Touches(t.elts[0].val, t.elts[1].data);
      assert RecTouches(t) == ts;
      assert forall k | 0 <= k < |ts| :: ts[k] == Touch((t.elts[0].val + k) % ADDR_SPACE, t.elts[1].data[k]);
    }
  }

  /** Without a term there is nothing to replay. */
  lemma NothingToReplay(icnt: nat, pc: nat, r: seq<nat>, m: map<nat, byte>)
    requires |r| == NUM_IREGS
    ensures Replayed(None, icnt, pc, r, m) == if r[0] == 1 then Exits else Fatal
  {
  }

  // ---------- replay undoes recording ----------

  lemma {:induction false} FlattenShows(list: seq<Term>, m: map<nat, byte>)
    requires AllRecs(list) && Shows(m, Flatten(list))
    ensures InputsMatch(list, m)
  {
    hide RecTouches;
    if list != [] {
      var front, last := list[..|list| - 1], list[|list| - 1];
      var a, b := Flatten(front), RecTouches(last);
      assert Flatten(list) == a + b;
      forall k | 0 <= k < |a| ensures Get(m, a[k].addr) == a[k].val {
        assert Flatten(list)[k] == a[k];
      }
      forall k | 0 <= k < |b| ensures Get(m, b[k].addr) == b[k].val {
        assert Flatten(list)[|a| + k] == b[k];
      }
      FlattenShows(front, m);
      assert forall i | 0 <= i < |front| :: front[i] == list[i];
    }
  }

  /** Memory shows what is read from it. */
  lemma {:induction false} InputsShow(m: map<nat, byte>, ops: seq<Op>)
    ensures Shows(m, Inputs(m, ops))
  {
    hide Touches, FlatRead;
    if ops != [] {
      InputsShow(m, ops[..|ops| - 1]);
    }
  }

  lemma ShowsSame(m: map<nat, byte>, m': map<nat, byte>, ts: seq<Touch>)
    requires Same(m, m') && Shows(m, ts)
    ensures Shows(m', ts)
  {
  }

  /** The same byte at every address. */
  ghost predicate Same(m: map<nat, byte>, m': map<nat, byte>) {
    forall a :: Get(m, a) == Get(m', a)
  }

  lemma {:induction false} AppliedSame(m: map<nat, byte>, m': map<nat, byte>, ts: seq<Touch>)
    requires Same(m, m')
    ensures Same(Applied(m, ts), Applied(m', ts))
  {
    if ts != [] {
      var front, last := ts[..|ts| - 1], ts[|ts| - 1];
      AppliedSame(m, m', front);
      forall a ensures Get(Applied(m, ts), a) == Get(Applied(m', ts), a) {
        assert Get(Applied(m, front), a) == Get(Applied(m', front), a);
      }
    }
  }

  /** For every system call whose accesses succeed and whose reads come first, replaying its
      transaction from the same registers and the same memory contents passes every check, and
      gives the same memory contents, break and traced registers. */
  lemma ReplayUndoesRecording(icnt: nat, pc: nat, r: seq<nat>, m: map<nat, byte>, m': map<nat, byte>, call: Call,
                              inMem: seq<Term>, outMem: seq<Term>)
    requires |r| == |call.after.r| == NUM_IREGS && r[0] != OSF_SYS_EXIT && Same(m, m')
    requires AllRecs(inMem) && Flatten(inMem) == Inputs(m, call.ops)
    requires AllRecs(outMem) && Flatten(outMem) == Outputs(call.ops)
    ensures var t := Transaction(icnt, pc, r[..NUM_TRACED], inMem, call.brk, call.after.r[..NUM_TRACED], outMem);
            Replayed(Some(t), icnt, pc, r, m') ==
            Done(call.brk, call.after.r[..NUM_TRACED] + r[NUM_TRACED..], Applied(m', Outputs(call.ops)))
    ensures Same(Applied(m, Outputs(call.ops)), Applied(m', Outputs(call.ops)))
  {
    hide Inputs, Outputs, Applied, Flatten, Shows, AllRecs, InputsMatch, Same;
    InputsShow(m, call.ops);
    ShowsSame(m, m', Inputs(m, call.ops));
    FlattenShows(inMem, m');
    AppliedSame(m, m', Outputs(call.ops));
    var outs := [Exo.Address(call.brk)] + RegTerms(call.after.r[..NUM_TRACED]);
    assert outs[1..] == RegTerms(call.after.r[..NUM_TRACED]);
    assert NewRegs(outs[1..], r) == call.after.r[..NUM_TRACED] + r[NUM_TRACED..];
  }

  /** The registers after a replay that ended in these integer registers: it touches no others. */
  function AfterReplay(before: Arch, r: seq<nat>): Arch {
    before.(r := r)
  }

  /** What a transaction does not hold. */
  predicate UntracedSame(a: Arch, b: Arch) {
    && |a.r| == |b.r| == NUM_IREGS && a.r[NUM_TRACED..] == b.r[NUM_TRACED..]
    && a.f == b.f && a.fpcr == b.fpcr && a.npc == b.npc
  }

  /** Replay gives the whole architected state if and only if the call leaves alone what a
      transaction does not hold: registers 22 to 31, the floating-point registers and their
      control register, and the next program counter. */
  lemma ReplayGivesWholeState(before: Arch, call: Call)
    requires |before.r| == |call.after.r| == NUM_IREGS
    ensures AfterReplay(before, call.after.r[..NUM_TRACED] + before.r[NUM_TRACED..]) == call.after <==>
            UntracedSame(before, call.after)
  {
    var r := call.after.r[..NUM_TRACED] + before.r[NUM_TRACED..];
    assert call.after.r == call.after.r[..NUM_TRACED] + call.after.r[NUM_TRACED..];
    assert r[NUM_TRACED..] == before.r[NUM_TRACED..];
  }

  predicate Words(vals: seq<nat>) {
    forall i | 0 <= i < |vals| :: vals[i] < ADDR_SPACE
  }

  lemma RecordIs(t: Term)
    requires IsRec(t) && t.elts[0].val < ADDR_SPACE && |t.elts[1].data| < Exo.INT_LIMIT
    ensures Exo.Regular(t) && (Exo.HasEmptyBlob(t) <==> t.elts[1].data == [])
  {
    var e := t.elts;
    assert Exo.Regular(e[0]) && !Exo.HasEmptyBlob(e[0]);
    assert Exo.Regular(e[1]) && (Exo.HasEmptyBlob(e[1]) <==> e[1].data == []);
  }

  lemma RecordsAre(list: seq<Term>)
    requires AllRecs(list) && AllRegular(list)
    ensures Exo.Regular(Exo.List(list)) && (Exo.HasEmptyBlob(Exo.List(list)) <==> !NoEmpty(list))
  {
    forall i | 0 <= i < |list|
      ensures Exo.Regular(list[i]) && (Exo.HasEmptyBlob(list[i]) <==> list[i].elts[1].data == [])
    {
      RecordIs(list[i]);
    }
    hide Exo.Regular, Exo.HasEmptyBlob;
    ListIsRegular(list);
  }

  lemma ListIsRegular(list: seq<Term>)
    ensures Exo.Regular(Exo.List(list)) <==> forall i | 0 <= i < |list| :: Exo.Regular(list[i])
    ensures Exo.HasEmptyBlob(Exo.List(list)) <==> exists i :: 0 <= i < |list| && Exo.HasEmptyBlob(list[i])
  {
  }

  lemma RegistersAre(list: seq<Term>)
    requires forall i | 0 <= i < |list| :: list[i].Address? && list[i].val < ADDR_SPACE
    ensures Exo.Regular(Exo.List(list)) && !Exo.HasEmptyBlob(Exo.List(list))
  {
    forall i | 0 <= i < |list| ensures Exo.Regular(list[i]) && !Exo.HasEmptyBlob(list[i]) {
    }
    hide Exo.Regular, Exo.HasEmptyBlob;
    ListIsRegular(list);
  }

  /** A transaction of 64-bit values is regular, and has an empty blob exactly when one of its
      records is empty. */
  lemma TransactionIs(icnt: nat, pc: nat, inRegs: seq<nat>, inMem: seq<Term>,
                      brk: nat, outRegs: seq<nat>, outMem: seq<Term>)
    requires icnt < ADDR_SPACE && pc < ADDR_SPACE && brk < ADDR_SPACE && Words(inRegs) && Words(outRegs)
    requires AllRecs(inMem) && AllRegular(inMem) && AllRecs(outMem) && AllRegular(outMem)
    ensures var t := Transaction(icnt, pc, inRegs, inMem, brk, outRegs, outMem);
            Exo.Regular(t) && (Exo.HasEmptyBlob(t) <==> !NoEmpty(inMem) || !NoEmpty(outMem))
  {
    var outs := [Exo.Address(brk)] + RegTerms(outRegs);
    assert forall i | 0 < i < |outs| :: outs[i] == Exo.Address(outRegs[i - 1]);
    RecordsAre(inMem);
    RecordsAre(outMem);
    RegistersAre(RegTerms(inRegs));
    RegistersAre(outs);
    SixAre(Exo.Integer(icnt), Exo.Address(pc), Exo.List(RegTerms(inRegs)), Exo.List(inMem), Exo.List(outs),
           Exo.List(outMem));
  }

  lemma SixAre(a: Term, b: Term, c: Term, d: Term, e: Term, f: Term)
    ensures var t := Exo.List([a, b, c, d, e, f]);
            && (Exo.Regular(t) <==>
                Exo.Regular(a) && Exo.Regular(b) && Exo.Regular(c) &&
                Exo.Regular(d) && Exo.Regular(e) && Exo.Regular(f))
            && (Exo.HasEmptyBlob(t) <==>
                Exo.HasEmptyBlob(a) || Exo.HasEmptyBlob(b) || Exo.HasEmptyBlob(c) || Exo.HasEmptyBlob(d) ||
                Exo.HasEmptyBlob(e) || Exo.HasEmptyBlob(f))
  {
    hide Exo.Regular, Exo.HasEmptyBlob;
    var list := [a, b, c, d, e, f];
    ListIsRegular(list);
    assert list[0] == a && list[1] == b && list[2] == c && list[3] == d && list[4] == e && list[5] == f;
  }

  /** A transaction of 64-bit values survives printing and reading exactly when none of its
      records is empty. */
  lemma TransactionPrints(stray: bool, icnt: nat, pc: nat, inRegs: seq<nat>, inMem: seq<Term>,
                          brk: nat, outRegs: seq<nat>, outMem: seq<Term>, rest: string)
    requires icnt < ADDR_SPACE && pc < ADDR_SPACE && brk < ADDR_SPACE && Words(inRegs) && Words(outRegs)
    requires AllRecs(inMem) && AllRegular(inMem) && AllRecs(outMem) && AllRegular(outMem)
    requires Exo.Ends(rest, 0)
    ensures var t := Transaction(icnt, pc, inRegs, inMem, brk, outRegs, outMem);
            var end := Exo.State(|Exo.Print(stray, t)|, false);
            Exo.Read(Exo.Print(stray, t) + rest, Exo.State(0, false)) == Exo.Got(t, end) <==>
            NoEmpty(inMem) && NoEmpty(outMem)
  {
    hide Exo.Read, Exo.Print, Exo.Regular, Exo.HasEmptyBlob, Transaction, NoEmpty;
    TransactionIs(icnt, pc, inRegs, inMem, brk, outRegs, outMem);
    Exo.ReadUndoesPrintExactly(stray, Transaction(icnt, pc, inRegs, inMem, brk, outRegs, outMem), rest);
  }

  datatype Ending = Exiting | Failing | Continuing

  lemma OneByteRead(m: map<nat, byte>, loc: nat)
    requires loc < ADDR_SPACE
    ensures FlatRead(m, loc, 1) == [Get(m, loc)]
  {
    hide Wrap, FlatRead;
    WrapSmall(loc);
    assert FlatRead(m, loc, 1)[0] == Get(m, Wrap(loc + 0));
  }

  lemma OneByteWrite(m: map<nat, byte>, loc: nat, val: byte)
    requires loc < ADDR_SPACE
    ensures FlatWrite(m, loc, [val]) == m[loc := val]
  {
    assert FlatWrite(m, loc, []) == m;
  }

  lemma NothingApplied(m: map<nat, byte>)
    ensures Applied(m, Flatten([])) == m
  {
  }

  lemma NextApplied(m: map<nat, byte>, list: seq<Term>, i: nat)
    requires i < |list| && IsRec(list[i])
    ensures Applied(m, Flatten(list[..i + 1])) ==
            FlatWrite(Applied(m, Flatten(list[..i])), list[i].elts[0].val, list[i].elts[1].data)
  {
    hide Touches, FlatWrite;
    var rec := list[i];
    assert list[..i + 1][..i] == list[..i];
    AppliedAppend(m, Flatten(list[..i]), RecTouches(rec));
    AppliedIsFlatWrite(Applied(m, Flatten(list[..i])), rec.elts[0].val, rec.elts[1].data);
  }
}
