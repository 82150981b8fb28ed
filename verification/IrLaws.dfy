/** What one instruction does to the detector, in terms of consumer counts and table entries. */
module IrLaws {
  import opened Bits
  import opened IrDetector
  import opened IrDefects

  // ---------- references ----------

  /** How many of the registers have slot k as their producer. */
  function Readers(regs: RegTable, rIn: seq<nat>, k: nat): nat
    requires forall j | 0 <= j < |rIn| :: rIn[j] < |regs|
  {
    if rIn == [] then 0
    else (if rIn[0] != 0 && regs[rIn[0]].producerIdx == k then 1 else 0) + Readers(regs, rIn[1..], k)
  }

  /** How many of the addresses have slot k as their producer. */
  function Loaders(mem: MemTable, loads: seq<nat>, k: nat): nat {
    if loads == [] then 0
    else
      var a := loads[0];
      (if a != 0 && a in mem && mem[a].valid && mem[a].producerIdx == k then 1 else 0) + Loaders(mem, loads[1..], k)
  }

  lemma {:induction false} ReadersIgnoreFlags(regs: RegTable, regs': RegTable, rIn: seq<nat>, k: nat)
    requires |regs| == |regs'| && forall j | 0 <= j < |rIn| :: rIn[j] < |regs|
    requires forall r | 0 <= r < |regs| :: regs'[r].producerIdx == regs[r].producerIdx
    ensures Readers(regs', rIn, k) == Readers(regs, rIn, k)
  {
    if rIn != [] {
      ReadersIgnoreFlags(regs, regs', rIn[1..], k);
    }
  }

  lemma {:induction false} LoadersIgnoreFlags(mem: MemTable, mem': MemTable, loads: seq<nat>, k: nat)
    requires mem.Keys == mem'.Keys
    requires forall a | a in mem :: mem'[a].producerIdx == mem[a].producerIdx && mem'[a].valid == mem[a].valid
    ensures Loaders(mem', loads, k) == Loaders(mem, loads, k)
  {
    if loads != [] {
      LoadersIgnoreFlags(mem, mem', loads[1..], k);
    }
  }

  lemma ReadOne(s: State, r: nat, k: nat)
    requires StateOk(s) && k < |s.window| && r < MD_TOTAL_REGS
    ensures var t := if r == 0 then s else RefReg(s, r);
            && StateOk(t) && |t.regs| == |s.regs| == MD_TOTAL_REGS && |t.window| == |s.window| && t.mem == s.mem
            && t.window[k].consumerCount ==
               s.window[k].consumerCount + (if r != 0 && s.regs[r].producerIdx == k then 1 else 0)
            && forall q | 0 <= q < MD_TOTAL_REGS ::
                 t.regs[q] == s.regs[q].(referenced := s.regs[q].referenced || (r != 0 && q == r))
  {
    hide WindowOk;
  }

  /** Every register read adds one to the count of its producer and is marked as referenced. */
  lemma {:induction false} ReadsCount(s: State, rIn: seq<nat>, k: nat)
    requires StateOk(s) && k < |s.window| && |s.regs| == MD_TOTAL_REGS
    requires forall j | 0 <= j < |rIn| :: rIn[j] < MD_TOTAL_REGS
    ensures var t := RefRegs(s, rIn);
            && |t.regs| == MD_TOTAL_REGS && |t.window| == |s.window| && t.mem == s.mem
            && t.window[k].consumerCount == s.window[k].consumerCount + Readers(s.regs, rIn, k)
            && forall q | 0 <= q < MD_TOTAL_REGS ::
                 t.regs[q] == s.regs[q].(referenced := s.regs[q].referenced || (q != 0 && q in rIn))
    decreases |rIn|
  {
    hide StateOk, RefReg;
    if rIn != [] {
      RefRegsUnfolds(s, rIn);
      ReadOne(s, rIn[0], k);
      var s1 := if rIn[0] == 0 then s else RefReg(s, rIn[0]);
      ReadsCount(s1, rIn[1..], k);
      ReadersIgnoreFlags(s.regs, s1.regs, rIn[1..], k);
      assert forall q :: q in rIn <==> q == rIn[0] || q in rIn[1..];
    }
  }

  /** Every address loaded that has a valid entry adds one to the count of its producer and is
      marked as referenced. */
  lemma {:induction false} LoadsCount(s: State, loads: seq<nat>, k: nat)
    requires StateOk(s) && k < |s.window|
    ensures var t := RefMems(s, loads);
            && t.window[k].consumerCount == s.window[k].consumerCount + Loaders(s.mem, loads, k)
            && t.regs == s.regs && t.mem.Keys == s.mem.Keys
            && forall a | a in s.mem ::
                 t.mem[a] == s.mem[a].(referenced := s.mem[a].referenced || (s.mem[a].valid && a != 0 && a in loads))
    decreases |loads|
  {
    hide WindowOk, TablesOk;
    if loads != [] {
      RefMemsUnfolds(s, loads);
      var a := loads[0];
      var s1 := if a in s.mem && s.mem[a].valid && a != 0 then RefMem(s, a) else s;
      LoadsCount(s1, loads[1..], k);
      LoadersIgnoreFlags(s.mem, s1.mem, loads[1..], k);
    }
  }

  // ---------- writes ----------

  /** Before an entry is overwritten, the producers of its instruction are released if its value was
      valid and never referenced, and not written together with another. */
  lemma OverwriteIs(s: State, e: OrtEntry)
    requires StateOk(s) && e.producerIdx < |s.window|
    ensures var p := s.window[e.producerIdx];
            && SourcesOk(s.window, SourcesOf(p))
            && Superseded(s, e) == if e.valid && !e.referenced && e.ortPair == 0 then Released(s, p) else s
  {
    hide Decremented, Lowered;
  }

  /** A register written, the pair it is written with, and what becomes of its old producer. */
  lemma RegWriteIs(s: State, r: nat, pair: nat)
    requires StateOk(s) && r < MD_TOTAL_REGS
    ensures var t := WriteReg(s, r, pair);
            && (r == 0 ==> t == s)
            && (r != 0 ==> t.regs == s.regs[r := OrtEntry(true, false, s.head, pair)])
            && (r != 0 ==> t == Superseded(s, s.regs[r]).(regs := t.regs))
  {
    hide Decremented, Lowered;
  }

  lemma MemWriteIs(s: State, a: nat, pair: nat)
    requires StateOk(s)
    ensures var t := WriteMem(s, a, pair);
            && (a == 0 ==> t == s)
            && (a != 0 ==> t.mem == s.mem[a := OrtEntry(true, false, s.head, pair % 0x1_0000_0000)])
            && (a != 0 ==> t == (if a in s.mem then Superseded(s, s.mem[a]) else s).(mem := t.mem))
  {
    hide Decremented, Lowered;
    assert Pow2(32) == 0x1_0000_0000 by { TwoTo32(); }
    TruncateIsMod(pair, 32);
  }

  lemma TwoTo32()
    ensures Pow2(32) == 0x1_0000_0000
  {
    assert Pow2(8) == 256;
    assert Pow2(16) == 0x1_0000;
    assert Pow2(24) == 0x100_0000;
  }

  /** How an entry is left by instruction i when nothing writes it. */
  function AfterReads(e: OrtEntry, referenced: bool): OrtEntry {
    OrtEntry(e.valid, e.referenced || referenced, e.producerIdx, e.ortPair)
  }

  /** An instruction removed on entry changes nothing. Another one that is no store renames the two
      registers it writes, each paired with the other, and no address. */
  lemma RenamesAre(s: State, i: Instr)
    requires StateOk(s) && InstrOk(i) && !i.store
    ensures RemovedOnEntry(i) ==> UpdateOrt(s, i) == s
    ensures var t := UpdateOrt(s, i);
            !RemovedOnEntry(i) ==>
              && t.mem.Keys == s.mem.Keys
              && (forall q: nat | q < MD_TOTAL_REGS ::
                    t.regs[q] ==
                    if q != 0 && q == i.rOut1 then OrtEntry(true, false, s.head, i.rOut0)
                    else if q != 0 && q == i.rOut0 then OrtEntry(true, false, s.head, i.rOut1)
                    else AfterReads(s.regs[q], q != 0 && q in i.rIn))
              && (forall a | a in s.mem ::
                    t.mem[a] == AfterReads(s.mem[a], s.mem[a].valid && a != 0 && a in i.loads))
  {
    hide RefRegs, RefMems, WriteReg, WindowOk, RemovedOnEntry, Superseded;
    if !RemovedOnEntry(i) {
      ReadsCount(s, i.rIn, 0);
      LoadsCount(RefRegs(s, i.rIn), i.loads, 0);
      var s1 := RefMems(RefRegs(s, i.rIn), i.loads);
      RegWriteIs(s1, i.rOut0, i.rOut1);
      RegWriteIs(WriteReg(s1, i.rOut0, i.rOut1), i.rOut1, i.rOut0);
    }
  }

  /** A store renames the two addresses it writes, and no register. */
  lemma StoresRename(s: State, i: Instr)
    requires StateOk(s) && InstrOk(i) && i.store
    ensures RemovedOnEntry(i) ==> UpdateOrt(s, i) == s
    ensures var t := UpdateOrt(s, i);
            !RemovedOnEntry(i) ==>
              && TwoStored(t.mem, s.head, i.store0, i.store1)
              && (forall a | a in s.mem && a != i.store0 && a != i.store1 ::
                    a in t.mem && t.mem[a] == AfterReads(s.mem[a], s.mem[a].valid && a != 0 && a in i.loads))
              && (forall a | a in t.mem :: a in s.mem || (a != 0 && (a == i.store0 || a == i.store1)))
              && (forall q: nat | q < MD_TOTAL_REGS :: t.regs[q] == AfterReads(s.regs[q], q != 0 && q in i.rIn))
  {
    hide RefRegs, RefMems, WriteMem, WindowOk, RemovedOnEntry, Superseded, TwoStored;
    if !RemovedOnEntry(i) {
      ReadsCount(s, i.rIn, 0);
      LoadsCount(RefRegs(s, i.rIn), i.loads, 0);
      TwoStores(RefMems(RefRegs(s, i.rIn), i.loads), i.store0, i.store1);
    }
  }

  /** Each of two addresses stored to names the head slot and, in 32 bits, the other address. */
  predicate TwoStored(mem: MemTable, head: nat, a: nat, b: nat) {
    && (b != 0 ==> b in mem && mem[b] == OrtEntry(true, false, head, a % 0x1_0000_0000))
    && (a != 0 && a != b ==> a in mem && mem[a] == OrtEntry(true, false, head, b % 0x1_0000_0000))
  }

  lemma TwoStores(s: State, a: nat, b: nat)
    requires StateOk(s)
    ensures var t := WriteMem(WriteMem(s, a, b), b, a);
            && t.regs == s.regs && TwoStored(t.mem, s.head, a, b)
            && (forall c | c in s.mem && c != a && c != b :: c in t.mem && t.mem[c] == s.mem[c])
            && (forall c | c in t.mem :: c in s.mem || (c != 0 && (c == a || c == b)))
  {
    hide WriteMem, WindowOk, TablesOk, Superseded;
    MemWriteIs(s, a, b);
    MemWriteIs(WriteMem(s, a, b), b, a);
  }

  /** Overwriting such an entry releases nothing, when i has referenced it or not. */
  predicate InUse(e: OrtEntry, referenced: bool) {
    !e.valid || e.referenced || referenced || e.ortPair != 0
  }

  predicate NothingUnused(s: State, i: Instr)
    requires StateOk(s) && InstrOk(i)
  {
    if i.store then
      && (i.store0 in s.mem && i.store0 != 0 ==> InUse(s.mem[i.store0], i.store0 in i.loads))
      && (i.store1 in s.mem && i.store1 != 0 && i.store1 != i.store0 ==>
            InUse(s.mem[i.store1], i.store1 in i.loads))
      && (i.store0 == i.store1 ==> i.store0 % 0x1_0000_0000 != 0)
    else
      && (i.rOut0 != 0 ==> InUse(s.regs[i.rOut0], i.rOut0 in i.rIn))
      && (i.rOut1 != 0 && i.rOut1 != i.rOut0 ==> InUse(s.regs[i.rOut1], i.rOut1 in i.rIn))
  }

  /** When no unused value is overwritten, every count goes up by the registers and addresses read
      of which the slot is the producer. */
  lemma CountsAre(s: State, i: Instr, k: nat)
    requires StateOk(s) && InstrOk(i) && k < |s.window| && NothingUnused(s, i)
    ensures var t := UpdateOrt(s, i);
            && |t.window| == |s.window|
            && t.window[k].consumerCount ==
               s.window[k].consumerCount +
               (if RemovedOnEntry(i) then 0 else Readers(s.regs, i.rIn, k) + Loaders(s.mem, i.loads, k))
  {
    hide RefRegs, RefMems, WriteMem, WriteReg, WindowOk, RemovedOnEntry, Superseded;
    if !RemovedOnEntry(i) {
      ReadsCount(s, i.rIn, k);
      LoadsCount(RefRegs(s, i.rIn), i.loads, k);
      var s1 := RefMems(RefRegs(s, i.rIn), i.loads);
      if i.store {
        MemWriteReleasesNothing(s1, i.store0, i.store1);
        MemWriteReleasesNothing(WriteMem(s1, i.store0, i.store1), i.store1, i.store0);
      } else {
        RegWriteReleasesNothing(s1, i.rOut0, i.rOut1);
        RegWriteReleasesNothing(WriteReg(s1, i.rOut0, i.rOut1), i.rOut1, i.rOut0);
      }
    }
  }

  lemma RegWriteReleasesNothing(s: State, r: nat, pair: nat)
    requires StateOk(s) && r < MD_TOTAL_REGS && (r != 0 ==> InUse(s.regs[r], false))
    ensures var t := WriteReg(s, r, pair);
            t == s.(regs := if r == 0 then s.regs else s.regs[r := OrtEntry(true, false, s.head, pair)])
  {
    hide Superseded, WindowOk;
    RegWriteIs(s, r, pair);
    if r != 0 {
      OverwriteIs(s, s.regs[r]);
    }
  }

  lemma MemWriteReleasesNothing(s: State, a: nat, pair: nat)
    requires StateOk(s) && (a != 0 && a in s.mem ==> InUse(s.mem[a], false))
    ensures var t, e := WriteMem(s, a, pair), OrtEntry(true, false, s.head, pair % 0x1_0000_0000);
            t == s.(mem := if a == 0 then s.mem else s.mem[a := e])
  {
    hide Superseded, WindowOk;
    MemWriteIs(s, a, pair);
    if a != 0 && a in s.mem {
      OverwriteIs(s, s.mem[a]);
    }
  }

  // ---------- what enters and what leaves ----------

  /** The entry of an instruction names what it writes, and the producers of what it reads; that of
      a conditional branch says whether the branch table has seen it go to the same place only. */
  lemma EntryIs(s: State, i: Instr)
    requires StateOk(s) && InstrOk(i)
    ensures var e := Incoming(s, i);
            && e.valid && e.consumerCount == 0 && e.regOut1 == i.rOut0 && e.regOut2 == i.rOut1
            && e.memOut1 == i.store0 && e.memOut2 == i.store1
            && e.srcIdx1 == (if i.rIn[0] == 0 then -1 else s.regs[i.rIn[0]].producerIdx)
            && e.srcIdx2 == (if i.rIn[1] == 0 then -1 else s.regs[i.rIn[1]].producerIdx)
            && e.srcIdx3 == (if i.rIn[2] == 0 then -1 else s.regs[i.rIn[2]].producerIdx)
            && e.branchPc == (if IsCondBranch(i) then i.pc else 0)
            && (e.chkIneffBr <==>
                IsCondBranch(i) && i.pc in s.btb &&
                s.btb[i.pc].validCnt > 0 && s.btb[i.pc].tgtAddr == i.nextPc && s.btb[i.pc].constTgt)
  {
  }

  /** The first class flag that is set decides how an instruction is checked on entry. Integer
      results are compared with what the registers held; floating-point results only with
      themselves; words stored with what memory held. */
  lemma EntryCheckIs(i: Instr)
    ensures var float := !i.iComp && (i.fComp || (i.load && 32 <= i.rOut0 <= 63));
            (i.iComp || i.fComp || i.load) && !float ==>
              (RemovedOnEntry(i) <==>
               i.rOut0 != 0 && i.reg0.before.r == i.reg0.after.r &&
               (i.rOut1 == 0 || i.reg1.before.r == i.reg1.after.r))
    ensures var float := !i.iComp && (i.fComp || (i.load && 32 <= i.rOut0 <= 63));
            float ==> (RemovedOnEntry(i) <==> i.rOut0 != 0 && IsNumber(i.reg0) && (i.rOut1 == 0 || IsNumber(i.reg1)))
    ensures !i.iComp && !i.fComp && !i.load && i.store ==>
              (RemovedOnEntry(i) <==>
               i.store0 != 0 && i.word0.before == i.word0.after && (i.store1 == 0 || i.word1.before == i.word1.after))
    ensures !i.iComp && !i.fComp && !i.load && !i.store ==> (RemovedOnEntry(i) <==> i.call || i.uncond)
    ensures IsCondBranch(i) <==> i.cond && !i.iComp && !i.fComp && !i.load && !i.store && !i.call && !i.uncond
  {
    FloatCheckSeesNoChange(i.rOut0, i.rOut1, i.reg0, i.reg1);
  }

  /** A conditional branch is entered with its target and a count of one, or counted once more,
      where another target than before is remembered. */
  lemma BranchIsSeen(btb: BranchTable, pc: nat, nextPc: nat)
    ensures var t := SeeBranch(btb, pc, nextPc);
            && t.Keys == btb.Keys + {pc} && (forall b | b in btb && b != pc :: t[b] == btb[b])
            && (pc !in btb || btb[pc].validCnt == 0 ==> t[pc] == BtbEntry(nextPc, true, 1))
            && (pc in btb && btb[pc].validCnt > 0 ==>
                  && t[pc].tgtAddr == btb[pc].tgtAddr && t[pc].validCnt == btb[pc].validCnt + 1
                  && (t[pc].constTgt <==> btb[pc].constTgt && btb[pc].tgtAddr == nextPc))
  {
  }

  /** A branch that leaves is counted once less, and nothing else is forgotten. */
  lemma BranchLeaves(btb: BranchTable, pc: nat)
    ensures var t := LeaveBranch(btb, pc);
            && t.Keys == btb.Keys && (forall b | b in btb && b != pc :: t[b] == btb[b])
            && (pc in btb ==> t[pc].tgtAddr == btb[pc].tgtAddr && t[pc].constTgt == btb[pc].constTgt)
            && (pc in btb ==>
                  t[pc].validCnt == if pc != 0 && btb[pc].validCnt > 0 then btb[pc].validCnt - 1 else btb[pc].validCnt)
  {
  }

  /** Exactly the valid rename entries that name the head slot, of what the oldest instruction of a
      full window writes, are invalidated. */
  lemma EvictionIs(s: State)
    requires StateOk(s)
    ensures var t, e, full := MakeRoom(s), s.window[s.head], s.count >= |s.window|;
            && t.count == (if full then s.count else s.count + 1)
            && t.window == s.window && t.btb == s.btb && t.head == s.head && t.mid == s.mid
            && (forall r: nat | r < MD_TOTAL_REGS ::
                  t.regs[r] == s.regs[r].(valid := s.regs[r].valid &&
                    !(full && s.regs[r].producerIdx == s.head && (r == e.regOut1 || r == e.regOut2))))
            && t.mem.Keys == s.mem.Keys
            && (forall a | a in s.mem ::
                  t.mem[a] == s.mem[a].(valid := s.mem[a].valid &&
                    !(full && s.mem[a].producerIdx == s.head && (a == e.memOut1 || a == e.memOut2))))
  {
    hide WindowOk;
  }

  /** The new entry takes the head slot, and both pointers go one slot on around the ring. */
  lemma InsertionIs(s: State, incoming: FifoEntry, nextPc: nat)
    requires StateOk(s)
    ensures var t := Insert(s, incoming, nextPc);
            && t.window == s.window[s.head := incoming] && t.count == MakeRoom(s).count
            && t.regs == MakeRoom(s).regs && t.mem == MakeRoom(s).mem
            && t.head == (s.head + 1) % |s.window| && t.mid == (s.mid + 1) % |s.window|
            && t.btb == LeaveBranch(s.btb, s.window[s.head].branchPc)
            && t.targets == s.targets[s.head := nextPc]
  {
    hide LeaveBranch, InvalidateReg, InvalidateMem, WindowOk;
    SmallMod(s.head + 1, |s.window|);
    SmallMod(s.mid + 1, |s.window|);
  }

  // ---------- one instruction as a whole ----------

  /** The branch table as it is when the tables are updated. */
  function Noted(s: State, i: Instr): State {
    if IsCondBranch(i) then s.(btb := SeeBranch(s.btb, i.pc, i.nextPc)) else s
  }

  /** The middle is checked behind the update of the tables, and the eviction comes last; the new
      entry is the one of the tables from before all that. */
  lemma StepIs(s: State, i: Instr)
    requires StateOk(s) && InstrOk(i)
    ensures StateOk(Noted(s, i))
    ensures var t, u := Step(s, i), CheckMiddle(UpdateOrt(Noted(s, i), i));
            && |u.window| == |s.window| && u.count == s.count && t.count == MakeRoom(u).count
            && t.window == u.window[s.head := Incoming(s, i)]
            && t.head == (s.head + 1) % |s.window| && t.mid == (s.mid + 1) % |s.window|
            && t.btb == LeaveBranch(u.btb, s.window[s.head].branchPc)
            && t.regs == MakeRoom(u).regs && t.mem == MakeRoom(u).mem
            && t.targets == s.targets[s.head := i.nextPc]
  {
    hide WindowOk, LeaveBranch, MakeRoom, Insert, SeeBranch, Incoming, UpdateOrt, CheckMiddle;
    var u := CheckMiddle(UpdateOrt(Noted(s, i), i));
    InsertionIs(u, Incoming(s, i), i.nextPc);
  }

  // ---------- a run with a branch in the middle ----------

  /** An instruction with one source and one target at most, and no access to memory. */
  predicate Plain(i: Instr, source: nat, target: nat) {
    && InstrOk(i) && !RemovedOnEntry(i) && !i.store && i.rIn == [source, DNA, DNA] && i.loads == [0, 0]
    && source < MD_TOTAL_REGS && target < MD_TOTAL_REGS && i.rOut0 == target && i.rOut1 == DNA
  }

  lemma PlainUpdate(s: State, i: Instr, source: nat, target: nat)
    requires StateOk(s) && Plain(i, source, target) && source != target && !s.regs[target].valid
    ensures var regs := Read(s.regs, source);
            UpdateOrt(s, i) ==
            s.(window := Counted(s.window, s.regs, source),
               regs := if target == 0 then regs else regs[target := OrtEntry(true, false, s.head, DNA)])
  {
    hide WindowOk, RefRegs, RefMems, WriteReg, RemovedOnEntry;
    ReferringIs(s, source);
    var s1 := Referring(s, source);
    RegWriteReleasesNothing(s1, target, DNA);
    RegWriteReleasesNothing(WriteReg(s1, target, DNA), DNA, target);
  }

  /** Such an instruction before the window is full, with no such branch in the middle. */
  lemma PlainStep(s: State, i: Instr, source: nat, target: nat)
    requires StateOk(s) && Plain(i, source, target) && source != target && !s.regs[target].valid
    requires s.count < |s.window| && !s.window[s.mid].chkIneffBr && s.window[s.head].branchPc == 0
    ensures var regs := Read(s.regs, source);
            Step(s, i) ==
            State(Counted(s.window, s.regs, source)[s.head := Incoming(s, i)],
                  if target == 0 then regs else regs[target := OrtEntry(true, false, s.head, DNA)], s.mem,
                  Noted(s, i).btb, (s.head + 1) % |s.window|, (s.mid + 1) % |s.window|, s.count + 1,
                  s.targets[s.head := i.nextPc])
  {
    hide WindowOk, UpdateOrt, SeeBranch, Incoming, RemovedOnEntry, Step, CheckMiddle;
    StepIs(s, i);
    var s1 := Noted(s, i);
    PlainUpdate(s1, i, source, target);
    MiddleIs(UpdateOrt(s1, i), 0);
  }

  /** A conditional branch at 100 that reads register 2 and goes to 200. */
  const BRANCH: Instr :=
    Instr(false, false, false, false, false, false, true, [2, DNA, DNA], DNA, DNA, SAME, SAME,
          [0, 0], 0, 0, Change(0, 0), Change(0, 0), 100, 200)

  /** Two operations that write registers 1 and 2, that branch twice, and operations that write
      registers 3, 4 and 5. */
  function Loop(): (trace: seq<Instr>)
    ensures |trace| == 7 && forall k | 0 <= k < 7 :: InstrOk(trace[k])
  {
    [Compute(DNA, 1), Compute(DNA, 2), BRANCH, BRANCH, Compute(DNA, 3), Compute(DNA, 4), Compute(DNA, 5)]
  }

  function Written(k: nat): nat
    requires k < 7
  {
    if k < 2 then k + 1 else if k < 4 then DNA else k - 1
  }

  /** The state when k of them are in a window of six, and of its slots and registers. */
  function LoopEntry(k: nat, j: nat): FifoEntry {
    if j >= k then EMPTY_SLOT
    else if j == 2 || j == 3 then FifoEntry(true, DNA, DNA, 0, 0, 1, -1, -1, 0, j == 3, 100)
    else if j == 1 then Entry(2, 0, 0, -1).(consumerCount := if k <= 2 then 0 else if k == 3 then 1 else 2)
    else Entry(if j == 0 then 1 else j - 1, 0, 0, -1)
  }

  function LoopReg(k: nat, r: nat): OrtEntry {
    var slot := if r <= 2 then r - 1 else r + 1;
    if 1 <= r <= 5 && slot < k then OrtEntry(true, r == 2 && k > 2, slot, DNA) else EMPTY_ORT
  }

  function LoopState(k: nat): State
    requires k <= 6
  {
    State(seq(6, j requires 0 <= j < 6 => LoopEntry(k, j)),
          seq(MD_TOTAL_REGS, r requires 0 <= r < MD_TOTAL_REGS => LoopReg(k, r)),
          map[], if k <= 2 then map[] else map[100 := BtbEntry(200, true, if k == 3 then 1 else 2)],
          k % 6, (k + 3) % 6, k,
          seq(6, j requires 0 <= j < 6 => if j >= k then 0 else if j == 2 || j == 3 then 200 else 8))
  }

  function LoopSource(k: nat): nat {
    if k == 2 || k == 3 then 2 else DNA
  }

  lemma LoopIsPlain(k: nat)
    requires k < 7
    ensures Plain(Loop()[k], LoopSource(k), Written(k)) && IsCondBranch(Loop()[k]) == (k == 2 || k == 3)
  {
  }

  lemma LoopEntryNext(k: nat)
    requires k < 6
    ensures Incoming(LoopState(k), Loop()[k]) == LoopEntry(k + 1, k)
  {
    var s, i := LoopState(k), Loop()[k];
    assert s.regs[2] == LoopReg(k, 2);
    if k == 3 {
      assert s.btb == map[100 := BtbEntry(200, true, 1)];
    }
  }

  lemma LoopWindowNext(k: nat)
    requires k < 6
    ensures var s, i := LoopState(k), Loop()[k];
            && Counted(s.window, s.regs, LoopSource(k))[s.head := Incoming(s, i)] == LoopState(k + 1).window
            && !s.window[s.mid].chkIneffBr && s.window[s.head].branchPc == 0
  {
    hide Incoming, Loop;
    LoopEntryNext(k);
    var s := LoopState(k);
    assert s.regs[2] == LoopReg(k, 2) && s.window[1] == LoopEntry(k, 1);
    assert s.window[s.mid] == LoopEntry(k, (k + 3) % 6);
    var w := Counted(s.window, s.regs, LoopSource(k));
    forall j | 0 <= j < 6 && j != k ensures w[j] == LoopEntry(k + 1, j) {
      assert s.window[j] == LoopEntry(k, j);
    }
  }

  lemma LoopRegsNext(k: nat)
    requires k < 6
    ensures var s, r := LoopState(k), Written(k);
            var regs := Read(s.regs, LoopSource(k));
            && !s.regs[r].valid
            && (if r == 0 then regs else regs[r := OrtEntry(true, false, s.head, DNA)]) == LoopState(k + 1).regs
  {
    var s, r := LoopState(k), Written(k);
    assert s.regs[r] == LoopReg(k, r) && s.regs[2] == LoopReg(k, 2);
  }

  lemma LoopRestNext(k: nat)
    requires k < 6
    ensures var s, i, t := LoopState(k), Loop()[k], LoopState(k + 1);
            && Noted(s, i).btb == t.btb && s.targets[s.head := i.nextPc] == t.targets
            && t.head == (s.head + 1) % 6 && t.mid == (s.mid + 1) % 6
  {
    hide RemovedOnEntry, LoopEntry, LoopReg;
    LoopIsPlain(k);
  }

  lemma LoopNext(k: nat)
    requires k < 6 && StateOk(LoopState(k))
    ensures Step(LoopState(k), Loop()[k]) == LoopState(k + 1)
  {
    hide StateOk, Step, LoopEntry, LoopReg, Counted, Read, RemovedOnEntry, Incoming, Noted, Plain, Loop;
    LoopIsPlain(k);
    LoopWindowNext(k);
    LoopRegsNext(k);
    LoopRestNext(k);
    PlainStep(LoopState(k), Loop()[k], LoopSource(k), Written(k));
  }

  lemma {:induction false} LoopRuns(k: nat)
    requires k <= 6
    ensures Run(6, Loop()[..k]) == LoopState(k) && Inv(LoopState(k)) && StateOk(LoopState(k))
  {
    hide Inv, Step, Run, StateOk, RemovedOnEntry, InstrOk, Loop;
    if k == 0 {
      SetupIs(6);
      RunNothing(6);
      assert LoopState(0).regs == REGS && LoopState(0).window == Setup(6).window;
      assert LoopState(0).targets == Setup(6).targets;
    } else {
      LoopRuns(k - 1);
      assert Loop()[..k - 1] + [Loop()[k - 1]] == Loop()[..k];
      RunNext(6, Loop()[..k - 1], Loop()[k - 1]);
      LoopNext(k - 1);
      StepKeepsInv(LoopState(k - 1), Loop()[k - 1]);
      InvIs(LoopState(k));
    }
  }

  /** As the seventh instruction enters, the second branch is in the middle, the first having gone
      to the same place: the producer of register 2 loses one of its two consumers. */
  lemma BranchIsPredicted()
    ensures |Run(6, Loop()[..6]).window| == 6 && Run(6, Loop()[..6]).window[1].consumerCount == 2
    ensures |Run(6, Loop()).window| == 6 && Run(6, Loop()).window[1].consumerCount == 1
  {
    hide Inv, Step, Run, StateOk, RemovedOnEntry, InstrOk, CheckMiddle, UpdateOrt, Incoming, Loop;
    LoopRuns(6);
    assert Loop()[..6] + [Loop()[6]] == Loop();
    RunNext(6, Loop()[..6], Loop()[6]);
    SeventhOfLoop();
  }

  lemma SeventhOfLoop()
    requires StateOk(LoopState(6))
    ensures |Step(LoopState(6), Loop()[6]).window| == 6
    ensures Step(LoopState(6), Loop()[6]).window[1].consumerCount == 1
  {
    hide Step, StateOk, RemovedOnEntry, InstrOk, CheckMiddle, UpdateOrt, Incoming;
    var s, i := LoopState(6), Loop()[6];
    LoopIsPlain(6);
    StepIs(s, i);
    PlainUpdate(s, i, DNA, 5);
    var u := UpdateOrt(s, i);
    assert u == s.(regs := u.regs);
    MiddleIs(u, 1);
  }
}
