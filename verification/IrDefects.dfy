/** Where the detector of ineffectual instructions departs from its own comments: when exactly
    it does, and runs on which it does. */
module IrDefects {
  import opened Bits
  import opened IrDetector

  // ---------- a written address that is forgotten at once ----------

  lemma StoreHappens(s: State, i: Instr, a: nat)
    requires StateOk(s) && InstrOk(i) && !RemovedOnEntry(i) && i.store && a != 0 && (a == i.store0 || a == i.store1)
    ensures var m := UpdateOrt(s, i).mem;
            a in m && m[a].valid && !m[a].referenced && m[a].producerIdx == s.head
  {
    hide RefRegs, RefMems, Superseded, WindowOk, SameButCounts;
  }

  lemma InsertForgetsMem(s: State, incoming: FifoEntry, nextPc: nat, a: nat)
    requires StateOk(s) && a in s.mem && s.mem[a].valid && s.mem[a].producerIdx == s.head
    ensures var m := Insert(s, incoming, nextPc).mem;
            && a in m && m[a] == s.mem[a].(valid := m[a].valid)
            && (m[a].valid <==> s.count < |s.window| || !ListsMem(s.window[s.head], a))
  {
  }

  /** An address just stored to has a valid ORT entry after the step if and only if the
      instruction leaving the window does not list the same address. */
  lemma WrittenAddressSurvives(s: State, i: Instr, a: nat)
    requires Inv(s) && InstrOk(i) && !RemovedOnEntry(i) && i.store
    requires a != 0 && (a == i.store0 || a == i.store1)
    ensures var m := Step(s, i).mem;
            && a in m && m[a].producerIdx == s.head && !m[a].referenced
            && (m[a].valid <==> s.count < |s.window| || !ListsMem(s.window[s.head], a))
  {
    hide Insert, UpdateOrt, SeeBranch, Incoming, OrtPending, OrtSettled, BranchesPending, RingOk, WindowOk, SourcesOk;
    var s1 := if IsCondBranch(i) then s.(btb := SeeBranch(s.btb, i.pc, i.nextPc)) else s;
    var s2 := BeforeInsert(s, i);
    StoreHappens(s1, i, a);
    BeforeInsertKeepsOrt(s, i);
    assert s2.mem == UpdateOrt(s1, i).mem;
    assert ListsMem(s2.window[s2.head], a) == ListsMem(s.window[s.head], a);
    InsertForgetsMem(s2, Incoming(s, i), i.nextPc, a);
  }

  // ---------- the memory output that is never tested ----------

  /** No ORT entry at all still names slot p: what the guard of the removal is meant to say. */
  predicate NotInOrtAtAll(e: FifoEntry, p: nat, regs: RegTable, mem: MemTable)
    requires e.regOut1 < |regs| && e.regOut2 < |regs|
  {
    NotInOrt(e, p, regs, mem) && MemAt(mem, e.memOut2).producerIdx != p
  }

  /** The removal with that guard. */
  function Meant(w: Window, regs: RegTable, mem: MemTable, ps: seq<int>): (r: Window)
    requires WindowOk(w) && SourcesOk(w, ps) && |regs| == MD_TOTAL_REGS
    ensures Lowered(w, r)
    decreases TotalCount(w), |ps|
  {
    if ps == [] then w
    else
      assert SourceOk(w, ps[0]);
      var w1 := MeantOne(w, regs, mem, ps[0]);
      LoweredKeepsSources(w, w1, ps);
      var r := Meant(w1, regs, mem, ps[1..]);
      LoweredTrans(w, w1, r);
      r
  }

  function MeantOne(w: Window, regs: RegTable, mem: MemTable, p: int): (r: Window)
    requires WindowOk(w) && SourceOk(w, p) && |regs| == MD_TOTAL_REGS
    ensures Lowered(w, r)
    decreases TotalCount(w), 0
  {
    if p <= 0 || w[p].consumerCount == 0 then w
    else
      var w1 := SetCount(w, p, w[p].consumerCount - 1);
      OneConsumerLess(w, p);
      if w[p].consumerCount == 1 && NotInOrtAtAll(w1[p], p, regs, mem) then
        var r := Meant(w1, regs, mem, SourcesOf(w1[p]));
        LoweredTrans(w, w1, r);
        r
      else w1
  }

  /** Slot k is named only by the ORT entry of its second memory output. */
  predicate Blind(w: Window, regs: RegTable, mem: MemTable, k: nat)
    requires k < |w| && w[k].regOut1 < |regs| && w[k].regOut2 < |regs|
  {
    NotInOrt(w[k], k, regs, mem) && !NotInOrtAtAll(w[k], k, regs, mem)
  }

  predicate NoneBlind(w: Window, regs: RegTable, mem: MemTable, reach: set<nat>)
    requires WindowOk(w) && |regs| == MD_TOTAL_REGS
  {
    forall k: nat | k in reach && k < |w| :: !Blind(w, regs, mem, k)
  }

  lemma CountsKeepBlind(v: Window, w: Window, regs: RegTable, mem: MemTable, reach: set<nat>)
    requires WindowOk(v) && WindowOk(w) && SameButCounts(v, w) && |regs| == MD_TOTAL_REGS
    requires NoneBlind(v, regs, mem, reach)
    ensures NoneBlind(w, regs, mem, reach)
  {
    forall k: nat | k in reach && k < |w| ensures !Blind(w, regs, mem, k) {
      assert !Blind(v, regs, mem, k);
    }
  }

  /** The missing test does not matter to a removal that can reach no such slot: one whose starting
      producers lie in a set that is closed under sources and holds none. */
  lemma {:induction false} GuardsAgree(w: Window, regs: RegTable, mem: MemTable, ps: seq<int>, reach: set<nat>)
    requires WindowOk(w) && SourcesOk(w, ps) && |regs| == MD_TOTAL_REGS
    requires NamesOnly(ps, reach) && ClosedUnderSources(w, reach) && NoneBlind(w, regs, mem, reach)
    ensures Meant(w, regs, mem, ps) == Decremented(w, regs, mem, ps)
    decreases TotalCount(w), |ps|
  {
    hide NoneBlind, Blind, NotInOrt, NotInOrtAtAll, ClosedUnderSources;
    if ps != [] {
      assert SourceOk(w, ps[0]);
      var w1 := DecrementedOne(w, regs, mem, ps[0]);
      GuardsAgreeOnce(w, regs, mem, ps[0], reach);
      LoweredKeepsSources(w, w1, ps);
      CountsKeepBlind(w, w1, regs, mem, reach);
      CountsKeepClosure(w, w1, reach);
      assert NamesOnly(ps[1..], reach);
      GuardsAgree(w1, regs, mem, ps[1..], reach);
    }
  }

  lemma {:induction false} GuardsAgreeOnce(w: Window, regs: RegTable, mem: MemTable, p: int, reach: set<nat>)
    requires WindowOk(w) && SourceOk(w, p) && |regs| == MD_TOTAL_REGS
    requires (p > 0 ==> p in reach) && ClosedUnderSources(w, reach) && NoneBlind(w, regs, mem, reach)
    ensures MeantOne(w, regs, mem, p) == DecrementedOne(w, regs, mem, p)
    decreases TotalCount(w), 0
  {
    hide NotInOrt, ClosedUnderSources;
    if p > 0 && w[p].consumerCount > 0 {
      var w1 := SetCount(w, p, w[p].consumerCount - 1);
      OneConsumerLess(w, p);
      CountsKeepBlind(w, w1, regs, mem, reach);
      CountsKeepClosure(w, w1, reach);
      assert !Blind(w1, regs, mem, p);
      if w[p].consumerCount == 1 && NotInOrt(w1[p], p, regs, mem) {
        ReachNames(w1, reach, p);
        GuardsAgree(w1, regs, mem, SourcesOf(w1[p]), reach);
      }
    }
  }

  // ---------- the check that compares a register with itself ----------

  /** What the comment on the check says: the registers written keep their values. */
  predicate Kept(isFloat: bool, c: Change<Reading>) {
    if isFloat then FloatEq(c.after.f, c.before.f) && FloatEq(c.after.d, c.before.d)
    else c.after.r == c.before.r
  }

  predicate NonModifying(isFloat: bool, rOut0: nat, rOut1: nat, reg0: Change<Reading>, reg1: Change<Reading>) {
    rOut0 != DNA && Kept(isFloat, reg0) && (rOut1 != DNA ==> Kept(isFloat, reg1))
  }

  predicate IsNumber(c: Change<Reading>) {
    c.after.f.Number? && c.after.d.Number?
  }

  /** The integer branch is right. The floating-point branch says yes to every instruction that
      writes a register, whatever it writes, as long as it writes numbers; so it is wrong
      exactly for the numbers that change a register. */
  lemma FloatCheckSeesNoChange(rOut0: nat, rOut1: nat, reg0: Change<Reading>, reg1: Change<Reading>)
    ensures NmodCheck(false, rOut0, rOut1, reg0, reg1) == NonModifying(false, rOut0, rOut1, reg0, reg1)
    ensures IsNumber(reg0) && IsNumber(reg1) ==> (NmodCheck(true, rOut0, rOut1, reg0, reg1) <==> rOut0 != DNA)
    ensures NmodCheck(true, rOut0, rOut1, reg0, reg1) != NonModifying(true, rOut0, rOut1, reg0, reg1) <==>
            rOut0 != DNA && IsNumber(reg0) && (rOut1 != DNA ==> IsNumber(reg1)) &&
            (!Kept(true, reg0) || (rOut1 != DNA && !Kept(true, reg1)))
  {
  }

  /** So no floating-point operation with numbers as its results is ever renamed: it leaves the
      tables and the consumer counts as they are. */
  lemma FloatWritesAreMissed(s: State, i: Instr)
    requires StateOk(s) && InstrOk(i) && WritesFloat(i) && i.rOut0 != DNA && IsNumber(i.reg0) && IsNumber(i.reg1)
    ensures RemovedOnEntry(i) && UpdateOrt(s, i) == s
  {
    FloatCheckSeesNoChange(i.rOut0, i.rOut1, i.reg0, i.reg1);
  }

  // ---------- runs that fail ----------

  const SAME: Change<Reading> := Change(Reading(0, NaN, NaN), Reading(0, NaN, NaN))
  const OTHER: Change<Reading> := Change(Reading(0, NaN, NaN), Reading(1, NaN, NaN))

  /** An integer operation that changes a register. */
  function Compute(source: nat, target: nat): (i: Instr)
    requires source < MD_TOTAL_REGS && target < MD_TOTAL_REGS
    ensures InstrOk(i) && !RemovedOnEntry(i)
  {
    Instr(true, false, false, false, false, false, false, [source, DNA, DNA], target, DNA, OTHER, SAME,
          [0, 0], 0, 0, Change(0, 0), Change(0, 0), 4, 8)
  }

  /** A store that changes a word. */
  function StoreTo(source: nat, a: nat, b: nat): (i: Instr)
    requires source < MD_TOTAL_REGS && a != 0
    ensures InstrOk(i) && !RemovedOnEntry(i)
  {
    Instr(false, false, false, true, false, false, false, [source, DNA, DNA], DNA, DNA, SAME, SAME,
          [0, 0], a, b, Change(0, 1), Change(0, 1), 4, 8)
  }

  /** Window of one instruction: the second of two writes to a register leaves it unnamed. */
  lemma RegisterIsLost()
    ensures !Run(1, [Compute(DNA, 1), Compute(DNA, 1)]).regs[1].valid
  {
    var i := Compute(DNA, 1);
    var trace := [i, i];
    assert trace[..1] == [i] && [i][..0] == [];
    var s0, s1 := Run(1, []), Run(1, [i]);
    assert s1 == Step(s0, i);
    assert s1.count == 1 && s1.head == 0 && ListsReg(s1.window[0], 1);
    WrittenRegisterSurvives(s1, i, 1);
    hide Step;
  }

  /** And the second of two stores to an address. */
  lemma AddressIsLost()
    ensures var s := Run(1, [StoreTo(DNA, 8, 0), StoreTo(DNA, 8, 0)]); 8 in s.mem && !s.mem[8].valid
  {
    var i := StoreTo(DNA, 8, 0);
    var trace := [i, i];
    assert trace[..1] == [i] && [i][..0] == [];
    var s0, s1 := Run(1, []), Run(1, [i]);
    assert s1 == Step(s0, i);
    assert s1.count == 1 && s1.head == 0 && ListsMem(s1.window[0], 8);
    WrittenAddressSurvives(s1, i, 8);
    hide Step;
  }

  lemma RunNext(size: nat, trace: seq<Instr>, i: Instr)
    requires size > 0 && InstrOk(i) && forall k | 0 <= k < |trace| :: InstrOk(trace[k])
    ensures Run(size, trace + [i]) == Step(Run(size, trace), i)
  {
    hide Step, Inv;
    assert (trace + [i])[..|trace|] == trace;
  }

  /** A floating-point operation that changes register 33 from zero to one. */
  const FLOAT_CHANGE: Instr :=
    Instr(false, true, false, false, false, false, false, [DNA, DNA, DNA], 33, DNA,
          Change(Reading(0, Number(0), Number(0)), Reading(0, Number(1), Number(1))), SAME,
          [0, 0], 0, 0, Change(0, 0), Change(0, 0), 4, 8)

  /** It is taken for one that changes nothing, and register 33 keeps its empty entry. */
  lemma FloatWriteIsLost()
    ensures InstrOk(FLOAT_CHANGE)
    ensures !NonModifying(true, FLOAT_CHANGE.rOut0, FLOAT_CHANGE.rOut1, FLOAT_CHANGE.reg0, FLOAT_CHANGE.reg1)
    ensures !Run(4, [FLOAT_CHANGE]).regs[33].valid
  {
    hide Step;
    var s := Setup(4);
    RunNothing(4);
    SetupInv(4);
    assert [] + [FLOAT_CHANGE] == [FLOAT_CHANGE];
    RunNext(4, [], FLOAT_CHANGE);
    StepKeepsEntry(s, FLOAT_CHANGE);
  }

  lemma StepKeepsEntry(s: State, i: Instr)
    requires Inv(s) && InstrOk(i) && RemovedOnEntry(i)
    ensures |Step(s, i).regs| == MD_TOTAL_REGS
    ensures forall r | 0 <= r < MD_TOTAL_REGS && !s.regs[r].valid :: !Step(s, i).regs[r].valid
  {
    hide BeforeInsert, Insert, Incoming, Inv;
    InvIs(s);
    BeforeInsertKeepsRegs(s, i);
    InsertKeepsInvalid(BeforeInsert(s, i), Incoming(s, i), i.nextPc);
  }

  lemma InsertKeepsInvalid(s: State, e: FifoEntry, nextPc: nat)
    requires StateOk(s)
    ensures |Insert(s, e, nextPc).regs| == MD_TOTAL_REGS
    ensures forall r | 0 <= r < MD_TOTAL_REGS && !s.regs[r].valid :: !Insert(s, e, nextPc).regs[r].valid
  {
    hide LeaveBranch, InvalidateMem;
  }

  lemma BeforeInsertKeepsRegs(s: State, i: Instr)
    requires StateOk(s) && InstrOk(i) && RemovedOnEntry(i)
    ensures BeforeInsert(s, i).regs == s.regs
  {
    hide SeeBranch, WindowOk, TablesOk;
    var s1 := if IsCondBranch(i) then s.(btb := SeeBranch(s.btb, i.pc, i.nextPc)) else s;
    assert UpdateOrt(s1, i) == s1;
    assert CheckMiddle(s1).regs == s1.regs;
  }

  /** The entry of an instruction without branch and with one source. */
  function Entry(out: nat, a: nat, b: nat, source: int): FifoEntry {
    FifoEntry(true, out, DNA, a, b, source, -1, -1, 0, false, 0)
  }

  /** The oldest entry out, the new one in, and both pointers on. */
  function Shifted(s: State, e: FifoEntry): State
    requires StateOk(s)
  {
    var t := MakeRoom(s);
    t.(window := t.window[t.head := e], targets := t.targets[t.head := 8],
       head := NextSlot(t.head, |t.window|), mid := NextSlot(t.mid, |t.window|))
  }

  /** No branch in the middle or at the head. */
  predicate NoBranches(s: State)
    requires StateOk(s)
  {
    forall k | 0 <= k < |s.window| :: !s.window[k].chkIneffBr && s.window[k].branchPc == 0
  }

  function Referring(s: State, source: nat): (t: State)
    requires StateOk(s) && source < MD_TOTAL_REGS
    ensures StateOk(t) && OnlyOrtChanges(s, t)
  {
    if source == DNA then s else RefReg(s, source)
  }

  /** One step of such an operation. */
  lemma ComputeStep(s: State, source: nat, target: nat)
    requires StateOk(s) && NoBranches(s) && source < MD_TOTAL_REGS && DNA < target < MD_TOTAL_REGS
    ensures Step(s, Compute(source, target)) ==
            Shifted(WriteReg(Referring(s, source), target, DNA), Entry(target, 0, 0, Source(s.regs, source)))
  {
    hide Superseded, SetCount, WindowOk, TablesOk, Decremented;
    ReferringIs(s, source);
    var i := Compute(source, target);
    var t := WriteReg(Referring(s, source), target, DNA);
    assert UpdateOrt(s, i) == t;
    assert !t.window[t.mid].chkIneffBr && t.window[t.head].branchPc == 0;
  }

  lemma ReferringIs(s: State, source: nat)
    requires StateOk(s) && source < MD_TOTAL_REGS
    ensures RefMems(RefRegs(s, [source, DNA, DNA]), [0, 0]) == Referring(s, source)
  {
    hide RefReg, WindowOk, TablesOk;
    var rIn := [source, DNA, DNA];
    var s1 := Referring(s, source);
    assert rIn[1..] == [DNA, DNA] && [DNA, DNA][1..] == [DNA] && [DNA][1..] == [];
    RefRegsUnfolds(s, rIn);
    RefRegsUnfolds(s1, [DNA, DNA]);
    RefRegsUnfolds(s1, [DNA]);
    assert [0, 0][1..] == [0] && [0][1..] == [];
    RefMemsUnfolds(s1, [0, 0]);
    RefMemsUnfolds(s1, [0]);
  }

  lemma StoreStep(s: State, source: nat, a: nat, b: nat)
    requires StateOk(s) && NoBranches(s) && source < MD_TOTAL_REGS && a != 0
    ensures Step(s, StoreTo(source, a, b)) ==
            Shifted(WriteMem(WriteMem(Referring(s, source), a, b), b, a), Entry(DNA, a, b, Source(s.regs, source)))
  {
    hide Superseded, SetCount, WindowOk, TablesOk, Decremented;
    ReferringIs(s, source);
    var i := StoreTo(source, a, b);
    var t := WriteMem(WriteMem(Referring(s, source), a, b), b, a);
    assert UpdateOrt(s, i) == t;
    assert !t.window[t.mid].chkIneffBr && t.window[t.head].branchPc == 0;
  }

  /** The window and the registers with one more reference to the producer of the source. */
  function Counted(w: Window, regs: RegTable, source: nat): Window
    requires source < |regs| && regs[source].producerIdx < |w|
  {
    var p := regs[source].producerIdx;
    if source == DNA then w else SetCount(w, p, w[p].consumerCount + 1)
  }

  function Read(regs: RegTable, source: nat): RegTable
    requires source < |regs|
  {
    if source == DNA then regs else regs[source := regs[source].(referenced := true)]
  }

  /** Such an operation before the window is full, when no old value of the target is unused. */
  predicate Quiet(s: State, source: nat, target: nat) {
    && StateOk(s) && NoBranches(s) && source < MD_TOTAL_REGS && DNA < target < MD_TOTAL_REGS
    && source != target && !s.regs[target].valid && s.count < |s.window|
  }

  function QuietState(s: State, source: nat, target: nat): State
    requires Quiet(s, source, target)
  {
    State(Counted(s.window, s.regs, source)[s.head := Entry(target, 0, 0, Source(s.regs, source))],
          Read(s.regs, source)[target := OrtEntry(true, false, s.head, DNA)], s.mem, s.btb,
          NextSlot(s.head, |s.window|), NextSlot(s.mid, |s.window|), s.count + 1, s.targets[s.head := 8])
  }

  lemma QuietCompute(s: State, source: nat, target: nat)
    requires Inv(s) && Quiet(s, source, target)
    ensures Step(s, Compute(source, target)) == QuietState(s, source, target)
    ensures Inv(QuietState(s, source, target)) && StateOk(QuietState(s, source, target))
    ensures NoBranches(QuietState(s, source, target))
  {
    hide WindowOk, Step, SetCount, Inv;
    StepKeepsInv(s, Compute(source, target));
    InvIs(Step(s, Compute(source, target)));
    ComputeStep(s, source, target);
    var t := WriteReg(Referring(s, source), target, DNA);
    assert t == s.(window := Counted(s.window, s.regs, source),
                   regs := Read(s.regs, source)[target := OrtEntry(true, false, s.head, DNA)]);
    CountedKeepsBranches(s, source);
  }

  lemma CountedKeepsBranches(s: State, source: nat)
    requires StateOk(s) && NoBranches(s) && source < MD_TOTAL_REGS
    ensures var w := Counted(s.window, s.regs, source);
            |w| == |s.window| && forall k | 0 <= k < |w| :: !w[k].chkIneffBr && w[k].branchPc == 0
  {
  }

  const REGS: RegTable := Repeat(EMPTY_ORT, MD_TOTAL_REGS)

  lemma InvIs(s: State)
    requires Inv(s)
    ensures StateOk(s)
  {
  }

  lemma SetupIs(size: nat)
    requires size > 0
    ensures Inv(Setup(size)) && StateOk(Setup(size)) && NoBranches(Setup(size))
    ensures Setup(size).regs == REGS && Setup(size).head == Setup(size).count == 0 && Setup(size).mid == size / 2
  {
    hide Repeat, Inv, WindowOk, TablesOk;
    SetupInv(size);
    InvIs(Setup(size));
  }

  /** An operation that writes register 1, and one that reads it and writes register 2, in an
      empty window of three. */
  function One(): State {
    State([Entry(1, 0, 0, -1), EMPTY_SLOT, EMPTY_SLOT], REGS[1 := OrtEntry(true, false, 0, DNA)], map[], map[],
          1, 2, 1, [8, 0, 0])
  }

  function Two(): State {
    State([Entry(1, 0, 0, -1).(consumerCount := 1), Entry(2, 0, 0, 0), EMPTY_SLOT],
          REGS[1 := OrtEntry(true, true, 0, DNA)][2 := OrtEntry(true, false, 1, DNA)], map[], map[],
          2, 0, 2, [8, 8, 0])
  }

  lemma OneIs()
    ensures Step(Setup(3), Compute(DNA, 1)) == One() && Inv(One()) && StateOk(One()) && NoBranches(One())
  {
    hide Inv, Step, Repeat, StateOk, RemovedOnEntry, InstrOk;
    var s := Setup(3);
    SetupIs(3);
    QuietCompute(s, DNA, 1);
    assert s.window[0 := Entry(1, 0, 0, -1)] == One().window;
    assert s.targets[0 := 8] == One().targets;
  }

  lemma TwoIs()
    ensures Step(One(), Compute(1, 2)) == Two() && Inv(Two()) && StateOk(Two()) && NoBranches(Two())
  {
    hide Inv, Step, Repeat, StateOk, RemovedOnEntry, InstrOk;
    var s := One();
    OneIs();
    QuietCompute(s, 1, 2);
    assert Counted(s.window, s.regs, 1)[1 := Entry(2, 0, 0, 0)] == Two().window;
    assert s.targets[1 := 8] == Two().targets;
    assert Read(s.regs, 1) == REGS[1 := OrtEntry(true, true, 0, DNA)];
  }

  /** The value in register 2 is overwritten unused, so that the one in register 1 loses its
      only consumer. Its producer, in slot 0, keeps the count of one. */
  lemma SlotZeroIsForgotten()
    ensures Run(3, [Compute(DNA, 1), Compute(1, 2), Compute(DNA, 2)]).window[0].consumerCount == 1
  {
    hide Step, Run, Repeat, Decremented, RemovedOnEntry, InstrOk, WindowOk, TablesOk;
    var i1, i2, i3 := Compute(DNA, 1), Compute(1, 2), Compute(DNA, 2);
    RunNothing(3);
    RunNext(3, [], i1);
    RunNext(3, [i1], i2);
    RunNext(3, [i1, i2], i3);
    assert [] + [i1] == [i1] && [i1] + [i2] == [i1, i2] && [i1, i2] + [i3] == [i1, i2, i3];
    OneIs();
    TwoIs();
    var s := Two();
    ComputeStep(s, DNA, 2);
    SlotZeroKeepsItsConsumers(s.window, s.regs, s.mem, SourcesOf(s.window[1]));
  }

  lemma RunNothing(size: nat)
    requires size > 0
    ensures Run(size, []) == Setup(size)
  {
  }

  // ---------- a run that meets the missing test ----------

  /** Five operations fill a window of five: they write registers 3, 1, 4, 5 and 2. */
  function Target(k: nat): (r: nat)
    requires k < 5
    ensures DNA < r < 6
  {
    if k == 0 then 3 else if k == 1 then 1 else if k == 2 then 4 else if k == 3 then 5 else 2
  }

  /** The slot of the operation that writes register r, or 5. */
  function Writer(r: nat): (k: nat)
    ensures k < 5 ==> Target(k) == r
    ensures forall j | 0 <= j < 5 && Target(j) == r :: k == j
  {
    if r == 3 then 0 else if r == 1 then 1 else if r == 4 then 2 else if r == 5 then 3 else if r == 2 then 4 else 5
  }

  function Operations(k: nat): (trace: seq<Instr>)
    requires k <= 5
    ensures |trace| == k && forall j | 0 <= j < k :: trace[j] == Compute(DNA, Target(j))
  {
    if k == 0 then [] else Operations(k - 1) + [Compute(DNA, Target(k - 1))]
  }

  /** The state when k of them are in the window. */
  function FilledRegs(k: nat): (regs: RegTable)
    ensures |regs| == MD_TOTAL_REGS
    ensures forall r | 0 <= r < MD_TOTAL_REGS ::
              regs[r] == if Writer(r) < k && Writer(r) < 5 then OrtEntry(true, false, Writer(r), DNA) else EMPTY_ORT
  {
    seq(MD_TOTAL_REGS, r requires 0 <= r < MD_TOTAL_REGS =>
      if Writer(r) < k && Writer(r) < 5 then OrtEntry(true, false, Writer(r), DNA) else EMPTY_ORT)
  }

  function Filled(k: nat): State
    requires k <= 5
  {
    State(seq(5, j requires 0 <= j < 5 => if j < k then Entry(Target(j), 0, 0, -1) else EMPTY_SLOT),
          FilledRegs(k), map[], map[], k % 5, (k + 2) % 5, k, seq(5, j => if j < k then 8 else 0))
  }

  lemma FilledNext(k: nat)
    requires k < 5 && StateOk(Filled(k)) && NoBranches(Filled(k))
    ensures Quiet(Filled(k), DNA, Target(k)) && QuietState(Filled(k), DNA, Target(k)) == Filled(k + 1)
  {
    hide StateOk, NoBranches, Target;
    var s, t := Filled(k), Target(k);
    assert s.window[k := Entry(t, 0, 0, -1)] == Filled(k + 1).window;
    assert s.regs[t := OrtEntry(true, false, k, DNA)] == Filled(k + 1).regs;
    assert s.targets[k := 8] == Filled(k + 1).targets;
  }

  lemma {:induction false} FilledIs(k: nat)
    requires k <= 5
    ensures Run(5, Operations(k)) == Filled(k) && Inv(Filled(k)) && StateOk(Filled(k)) && NoBranches(Filled(k))
  {
    hide Inv, Step, Run, StateOk, RemovedOnEntry, InstrOk, QuietState, Quiet, NoBranches;
    SetupIs(5);
    RunNothing(5);
    if k == 0 {
      assert Filled(0).regs == REGS && Filled(0).window == Setup(5).window && Filled(0).targets == Setup(5).targets;
    } else {
      FilledIs(k - 1);
      RunNext(5, Operations(k - 1), Compute(DNA, Target(k - 1)));
      FilledNext(k - 1);
      QuietCompute(Filled(k - 1), DNA, Target(k - 1));
    }
  }

  /** What the next steps need of a state: registers 0, 1 and 2, and two slots. */
  predicate Looks(s: State, head: nat, producer: FifoEntry, storing: FifoEntry) {
    && StateOk(s) && NoBranches(s) && |s.window| == s.count == 5 && s.head == head
    && s.regs[DNA] == EMPTY_ORT && s.regs[1].producerIdx == 1 && s.regs[2].producerIdx == 4
    && s.window[4] == producer && s.window[1] == storing
  }

  function Producer(count: nat): FifoEntry {
    Entry(2, 0, 0, -1).(consumerCount := count)
  }

  function Storing(count: nat): FifoEntry {
    Entry(DNA, 8, 16, 4).(consumerCount := count)
  }

  /** The sixth operation overwrites slot 0. */
  lemma SixthStep() returns (s: State)
    ensures s == Run(5, Operations(5) + [Compute(DNA, 6)]) && Inv(s)
    ensures Looks(s, 1, Producer(0), Entry(1, 0, 0, -1)) && s.mem == map[] && s.window[2] == Entry(4, 0, 0, -1)
  {
    hide Inv, Step, Run, RemovedOnEntry, InstrOk, WindowOk, TablesOk, Decremented;
    FilledIs(5);
    RunNext(5, Operations(5), Compute(DNA, 6));
    ComputeStep(Filled(5), DNA, 6);
    StepKeepsInv(Filled(5), Compute(DNA, 6));
    s := Step(Filled(5), Compute(DNA, 6));
    InvIs(s);
  }

  lemma Pairs()
    ensures Truncate(16, 32) == 16 && Truncate(8, 32) == 8 && Truncate(0, 32) == 0
  {
    hide Truncate;
    TruncateShort(16, 5, 32);
    TruncateShort(8, 5, 32);
    TruncateShort(0, 5, 32);
  }

  /** The seventh stores what register 2 holds at 8 and 16, in slot 1. */
  lemma SeventhStores(s: State) returns (t: State)
    requires Looks(s, 1, Producer(0), Entry(1, 0, 0, -1)) && s.mem == map[]
    ensures StateOk(s) && t == WriteMem(WriteMem(Referring(s, 2), 8, 16), 16, 8)
    ensures t == s.(window := s.window[4 := Producer(1)], regs := s.regs[2 := s.regs[2].(referenced := true)],
                    mem := map[8 := OrtEntry(true, false, 1, 16), 16 := OrtEntry(true, false, 1, 8)])
  {
    hide WindowOk, TablesOk, Decremented, Truncate;
    Pairs();
    t := WriteMem(WriteMem(Referring(s, 2), 8, 16), 16, 8);
    assert SetCount(s.window, 4, 1) == s.window[4 := Producer(1)];
  }

  lemma SeventhStep() returns (s: State)
    ensures s == Run(5, Operations(5) + [Compute(DNA, 6)] + [StoreTo(2, 8, 16)]) && Inv(s)
    ensures Looks(s, 2, Producer(1), Storing(0)) && s.window[2] == Entry(4, 0, 0, -1)
    ensures s.mem == map[8 := OrtEntry(true, false, 1, 16), 16 := OrtEntry(true, false, 1, 8)]
  {
    hide Inv, Step, Run, RemovedOnEntry, InstrOk, WindowOk, Decremented, WriteMem, Referring;
    var s6 := SixthStep();
    RunNext(5, Operations(5) + [Compute(DNA, 6)], StoreTo(2, 8, 16));
    StoreStep(s6, 2, 8, 16);
    var t := SeventhStores(s6);
    StepKeepsInv(s6, StoreTo(2, 8, 16));
    s := Step(s6, StoreTo(2, 8, 16));
    InvIs(s);
  }

  /** The eighth reads register 1, whose entry still names slot 1, and stores at 8. */
  lemma EighthStores(s: State) returns (t: State)
    requires Looks(s, 2, Producer(1), Storing(0))
    requires s.mem == map[8 := OrtEntry(true, false, 1, 16), 16 := OrtEntry(true, false, 1, 8)]
    ensures StateOk(s) && t == WriteMem(WriteMem(Referring(s, 1), 8, 0), 0, 8)
    ensures t == s.(window := s.window[1 := Storing(1)], regs := s.regs[1 := s.regs[1].(referenced := true)],
                    mem := s.mem[8 := OrtEntry(true, false, 2, 0)])
  {
    hide WindowOk, TablesOk, Decremented, Truncate;
    Pairs();
    t := WriteMem(WriteMem(Referring(s, 1), 8, 0), 0, 8);
    assert SetCount(s.window, 1, 1) == s.window[1 := Storing(1)];
  }

  /** Eight instructions in a window of five. */
  function EightInstructions(): (trace: seq<Instr>)
    ensures forall k | 0 <= k < |trace| :: InstrOk(trace[k])
  {
    Operations(5) + [Compute(DNA, 6)] + [StoreTo(2, 8, 16)] + [StoreTo(1, 8, 0)]
  }

  lemma EighthShifts(s: State, t: State)
    requires Looks(s, 2, Producer(1), Storing(0)) && s.window[2] == Entry(4, 0, 0, -1) && StateOk(t)
    requires s.mem == map[8 := OrtEntry(true, false, 1, 16), 16 := OrtEntry(true, false, 1, 8)]
    requires t == s.(window := s.window[1 := Storing(1)], regs := s.regs[1 := s.regs[1].(referenced := true)],
                     mem := s.mem[8 := OrtEntry(true, false, 2, 0)])
    ensures var u := Shifted(t, Entry(DNA, 8, 0, 1));
            && (StateOk(u) ==> Looks(u, 3, Producer(1), Storing(1))) && |u.window| == 5
            && u.window[2] == Entry(DNA, 8, 0, 1)
            && u.mem == map[8 := OrtEntry(true, false, 2, 0), 16 := OrtEntry(true, false, 1, 8)]
  {
    hide WindowOk;
  }

  lemma EighthStep() returns (s: State)
    ensures s == Run(5, EightInstructions()) && Inv(s)
    ensures Looks(s, 3, Producer(1), Storing(1)) && s.window[2] == Entry(DNA, 8, 0, 1)
    ensures s.mem == map[8 := OrtEntry(true, false, 2, 0), 16 := OrtEntry(true, false, 1, 8)]
  {
    hide Inv, Step, Run, RemovedOnEntry, InstrOk, WindowOk, TablesOk, Decremented, WriteMem, Referring, Shifted;
    var s7 := SeventhStep();
    RunNext(5, Operations(5) + [Compute(DNA, 6)] + [StoreTo(2, 8, 16)], StoreTo(1, 8, 0));
    StoreStep(s7, 1, 8, 0);
    var t := EighthStores(s7);
    EighthShifts(s7, t);
    StepKeepsInv(s7, StoreTo(1, 8, 0));
    s := Step(s7, StoreTo(1, 8, 0));
    InvIs(s);
  }

  /** The removal below the eighth state: slot 1 loses its consumer, and then slot 4 does. */
  lemma RemovalGoesOn(w: Window, regs: RegTable, mem: MemTable)
    requires WindowOk(w) && |w| == 5 && |regs| == MD_TOTAL_REGS && w[1] == Storing(1) && w[4] == Producer(1)
    requires regs[DNA] == EMPTY_ORT && regs[2].producerIdx == 4 && 8 in mem && mem[8].producerIdx == 2
    requires SourcesOk(w, [1, -1, -1])
    ensures Decremented(w, regs, mem, [1, -1, -1])[4].consumerCount == 0
  {
    hide TotalCount;
    var w1 := SetCount(w, 1, 0);
    RemoveFirst(w, regs, mem, [1, -1, -1]);
    OneConsumerLess(w, 1);
    assert SourcesOf(w1[1]) == [4, -1, -1];
    RemoveFirst(w1, regs, mem, [4, -1, -1]);
    OneConsumerLess(w1, 4);
    assert DecrementedOne(w1, regs, mem, 4) == SetCount(w1, 4, 0);
    assert Lowered(SetCount(w1, 4, 0), Decremented(w1, regs, mem, [4, -1, -1]));
  }

  lemma MeantUnused(w: Window, regs: RegTable, mem: MemTable, ps: seq<int>)
    requires WindowOk(w) && SourcesOk(w, ps) && |regs| == MD_TOTAL_REGS && forall k | 0 <= k < |ps| :: ps[k] == -1
    ensures Meant(w, regs, mem, ps) == w
  {
  }

  lemma MeantStops(w: Window, regs: RegTable, mem: MemTable)
    requires WindowOk(w) && |w| == 5 && |regs| == MD_TOTAL_REGS && w[1] == Storing(1)
    requires 16 in mem && mem[16].producerIdx == 1 && SourcesOk(w, [1, -1, -1])
    ensures Meant(w, regs, mem, [1, -1, -1])[4] == w[4]
  {
    hide TotalCount;
    OneConsumerLess(w, 1);
    var ps, w1 := [1, -1, -1], SetCount(w, 1, 0);
    assert ps[1..] == [-1, -1];
    assert MeantOne(w, regs, mem, 1) == w1;
    LoweredKeepsSources(w, w1, ps);
    MeantUnused(w1, regs, mem, [-1, -1]);
    assert Meant(w, regs, mem, ps) == Meant(w1, regs, mem, ps[1..]);
  }

  /** A run of eight instructions behind which slot 1 is named by the entry of its second memory
      output only. The next store to 8 takes the value behind it for dead: the producer in slot
      4 loses its consumer, and would keep it if the second output were tested. */
  lemma SecondOutputIsForgotten()
    ensures var s := Run(5, EightInstructions());
            && 8 in s.mem && |s.window| == 5 && StateOk(s) && SourcesOk(s.window, SourcesOf(s.window[2]))
            && Superseded(s, s.mem[8]).window[4].consumerCount == 0
            && Meant(s.window, s.regs, s.mem, SourcesOf(s.window[2]))[4].consumerCount == 1
  {
    hide Run, Inv, Decremented, Meant;
    var s := EighthStep();
    assert SourcesOf(s.window[2]) == [1, -1, -1];
    assert SourcesOk(s.window, SourcesOf(s.window[2]));
    RemovalGoesOn(s.window, s.regs, s.mem);
    MeantStops(s.window, s.regs, s.mem);
  }
}
