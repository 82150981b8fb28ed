/** The detector of ineffectual instructions: a circular instruction window, an operand
    rename table (ORT) for registers and memory, and a table of branch targets. The state
    and one step of it are first given as values; the class carries them out in place. */
module IrDetector {
  import opened Bits

  /** No register: DNA of sim-safe.c. */
  const DNA: nat := 0
  const MD_TOTAL_REGS: nat := 69

  datatype OrtEntry = OrtEntry(valid: bool, referenced: bool, producerIdx: nat, ortPair: nat)

  datatype FifoEntry = FifoEntry(
    valid: bool,
    regOut1: nat, regOut2: nat, memOut1: nat, memOut2: nat,
    srcIdx1: int, srcIdx2: int, srcIdx3: int,
    consumerCount: int,
    chkIneffBr: bool, branchPc: nat)

  datatype BtbEntry = BtbEntry(tgtAddr: nat, constTgt: bool, validCnt: nat)

  const EMPTY_ORT := OrtEntry(false, false, 0, 0)
  const EMPTY_SLOT := FifoEntry(false, 0, 0, 0, 0, 0, 0, 0, 0, false, 0)
  const EMPTY_BTB := BtbEntry(0, true, 0)

  /** A floating-point value: not-a-number is equal to nothing. */
  datatype Float = NaN | Number(x: int)

  predicate FloatEq(a: Float, b: Float) {
    a.Number? && a == b
  }

  /** What a register number reads as: an integer register, or one of two floating-point views. */
  datatype Reading = Reading(r: nat, f: Float, d: Float)

  /** A value before and after the instruction. */
  datatype Change<T> = Change(before: T, after: T)

  /** One retired instruction: its class flags, registers read and written, addresses loaded
      and stored (0: none), and what the registers and words written were and are. */
  datatype Instr = Instr(
    iComp: bool, fComp: bool, load: bool, store: bool, call: bool, uncond: bool, cond: bool,
    rIn: seq<nat>, rOut0: nat, rOut1: nat, reg0: Change<Reading>, reg1: Change<Reading>,
    loads: seq<nat>, store0: nat, store1: nat, word0: Change<nat>, word1: Change<nat>,
    pc: nat, nextPc: nat)

  predicate InstrOk(i: Instr) {
    && |i.rIn| == 3 && |i.loads| == 2
    && (forall k | 0 <= k < 3 :: i.rIn[k] < MD_TOTAL_REGS)
    && i.rOut0 < MD_TOTAL_REGS && i.rOut1 < MD_TOTAL_REGS
  }

  /** One register of _nmod_check. Its floating-point branch reads the new register file twice. */
  predicate Unmodified(isFloat: bool, c: Change<Reading>) {
    if isFloat then FloatEq(c.after.f, c.after.f) && FloatEq(c.after.d, c.after.d)
    else c.after.r == c.before.r
  }

  /** _nmod_check: of two registers written, both have to be unmodified. */
  predicate NmodCheck(isFloat: bool, rOut0: nat, rOut1: nat, reg0: Change<Reading>, reg1: Change<Reading>) {
    rOut0 != DNA && Unmodified(isFloat, reg0) && (rOut1 != DNA ==> Unmodified(isFloat, reg1))
  }

  /** _nmod_check_mem. */
  predicate NmodCheckMem(store0: nat, store1: nat, word0: Change<nat>, word1: Change<nat>) {
    store0 != 0 && word0.after == word0.before && (store1 != 0 ==> word1.after == word1.before)
  }

  /** A load runs the check of the register file it writes to. */
  predicate WritesFloat(i: Instr) {
    if i.iComp then false else if i.fComp then true else i.load && 31 < i.rOut0 < 64
  }

  /** Ineffectual as it enters: no producer or consumer is recorded for it. */
  predicate RemovedOnEntry(i: Instr) {
    if i.iComp || i.fComp || i.load then NmodCheck(WritesFloat(i), i.rOut0, i.rOut1, i.reg0, i.reg1)
    else if i.store then NmodCheckMem(i.store0, i.store1, i.word0, i.word1)
    else i.call || i.uncond
  }

  predicate IsCondBranch(i: Instr) {
    !(i.iComp || i.fComp || i.load || i.store || i.call || i.uncond) && i.cond
  }

  type Window = seq<FifoEntry>
  type RegTable = seq<OrtEntry>
  type MemTable = map<nat, OrtEntry>
  type BranchTable = map<nat, BtbEntry>

  /** operator[] of the unordered maps: a missing entry reads as the default one. */
  function MemAt(mem: MemTable, a: nat): OrtEntry {
    if a in mem then mem[a] else EMPTY_ORT
  }

  function BtbAt(btb: BranchTable, pc: nat): BtbEntry {
    if pc in btb then btb[pc] else EMPTY_BTB
  }

  /** `targets` is a history variable: where the branch in each slot went. */
  datatype State = State(
    window: Window, regs: RegTable, mem: MemTable, btb: BranchTable,
    head: nat, mid: nat, count: nat, targets: seq<nat>)

  // ---------- well-formed windows ----------

  predicate SourceOk(w: Window, p: int) {
    p <= 0 || (p < |w| && w[p].valid)
  }

  predicate SourcesOk(w: Window, ps: seq<int>) {
    forall k | 0 <= k < |ps| :: SourceOk(w, ps[k])
  }

  function SourcesOf(e: FifoEntry): seq<int> {
    [e.srcIdx1, e.srcIdx2, e.srcIdx3]
  }

  /** Counts are never negative, and every producer index names an occupied slot. */
  predicate WindowOk(w: Window) {
    forall k | 0 <= k < |w| ::
      && w[k].consumerCount >= 0
      && SourcesOk(w, SourcesOf(w[k]))
      && w[k].regOut1 < MD_TOTAL_REGS && w[k].regOut2 < MD_TOTAL_REGS
  }

  /** Two windows that differ in consumer counts only. */
  predicate SameButCounts(v: Window, w: Window) {
    |v| == |w| && forall k | 0 <= k < |w| :: w[k] == v[k].(consumerCount := w[k].consumerCount)
  }

  function TotalCount(w: Window): (n: int)
    requires forall k | 0 <= k < |w| :: w[k].consumerCount >= 0
    ensures n >= 0
  {
    if w == [] then 0 else TotalCount(w[..|w| - 1]) + w[|w| - 1].consumerCount
  }

  function SetCount(w: Window, p: nat, c: int): Window
    requires p < |w|
  {
    w[p := w[p].(consumerCount := c)]
  }

  lemma {:induction false} SetCountTotal(w: Window, p: nat, c: nat)
    requires p < |w| && forall k | 0 <= k < |w| :: w[k].consumerCount >= 0
    ensures TotalCount(SetCount(w, p, c)) == TotalCount(w) - w[p].consumerCount + c
  {
    var v, n := SetCount(w, p, c), |w| - 1;
    if p == n {
      assert v[..n] == w[..n];
    } else {
      assert v[..n] == SetCount(w[..n], p, c);
      SetCountTotal(w[..n], p, c);
    }
  }

  lemma SetCountOk(w: Window, p: nat, c: nat)
    requires WindowOk(w) && p < |w|
    ensures WindowOk(SetCount(w, p, c)) && SameButCounts(w, SetCount(w, p, c))
  {
    SameButCountsOk(w, SetCount(w, p, c));
  }

  lemma SameButCountsOk(v: Window, w: Window)
    requires WindowOk(v) && SameButCounts(v, w)
    requires forall k | 0 <= k < |w| :: w[k].consumerCount >= 0
    ensures WindowOk(w)
    ensures forall ps: seq<int> :: SourcesOk(v, ps) ==> SourcesOk(w, ps)
  {
    forall ps: seq<int> | SourcesOk(v, ps) ensures SourcesOk(w, ps) {
      forall k | 0 <= k < |ps| ensures SourceOk(w, ps[k]) {
        assert SourceOk(v, ps[k]);
      }
    }
    forall k | 0 <= k < |w| ensures SourcesOk(w, SourcesOf(w[k])) {
      assert SourcesOf(w[k]) == SourcesOf(v[k]);
    }
  }

  // ---------- the recursive removal ----------

  /** No ORT entry consulted still names slot p. (The source tests the first memory output
      twice and the second one never.) */
  predicate NotInOrt(e: FifoEntry, p: nat, regs: RegTable, mem: MemTable)
    requires e.regOut1 < |regs| && e.regOut2 < |regs|
  {
    && regs[e.regOut1].producerIdx != p
    && regs[e.regOut2].producerIdx != p
    && MemAt(mem, e.memOut1).producerIdx != p
  }

  /** r is w with some consumer counts lowered. */
  predicate Lowered(w: Window, r: Window) {
    && WindowOk(w) && WindowOk(r) && SameButCounts(w, r)
    && TotalCount(r) <= TotalCount(w)
    && forall k | 0 <= k < |w| :: r[k].consumerCount <= w[k].consumerCount
  }

  lemma LoweredTrans(u: Window, v: Window, w: Window)
    requires Lowered(u, v) && Lowered(v, w)
    ensures Lowered(u, w)
  {
  }

  lemma LoweredKeepsSources(w: Window, r: Window, ps: seq<int>)
    requires Lowered(w, r) && SourcesOk(w, ps)
    ensures SourcesOk(r, ps)
  {
    SameButCountsOk(w, r);
  }

  lemma OneConsumerLess(w: Window, p: nat)
    requires WindowOk(w) && p < |w| && w[p].consumerCount > 0
    ensures var w1 := SetCount(w, p, w[p].consumerCount - 1);
      && WindowOk(w1) && Lowered(w, w1) && TotalCount(w1) == TotalCount(w) - 1
      && SourcesOk(w1, SourcesOf(w1[p]))
  {
    SetCountOk(w, p, w[p].consumerCount - 1);
    SetCountTotal(w, p, w[p].consumerCount - 1);
  }

  /** _decrement_consumer. It ends on every window, cyclic or not: each recursive call comes
      after a count fell from one to zero, so the total count is smaller. */
  function Decremented(w: Window, regs: RegTable, mem: MemTable, ps: seq<int>): (r: Window)
    requires WindowOk(w) && SourcesOk(w, ps) && |regs| == MD_TOTAL_REGS
    ensures Lowered(w, r)
    decreases TotalCount(w), |ps|
  {
    if ps == [] then w
    else
      assert SourceOk(w, ps[0]);
      var w1 := DecrementedOne(w, regs, mem, ps[0]);
      LoweredKeepsSources(w, w1, ps);
      var r := Decremented(w1, regs, mem, ps[1..]);
      LoweredTrans(w, w1, r);
      r
  }

  function DecrementedOne(w: Window, regs: RegTable, mem: MemTable, p: int): (r: Window)
    requires WindowOk(w) && SourceOk(w, p) && |regs| == MD_TOTAL_REGS
    ensures Lowered(w, r)
    decreases TotalCount(w), 0
  {
    if p <= 0 || w[p].consumerCount == 0 then w
    else
      var w1 := SetCount(w, p, w[p].consumerCount - 1);
      OneConsumerLess(w, p);
      if w[p].consumerCount == 1 && NotInOrt(w1[p], p, regs, mem) then
        var r := Decremented(w1, regs, mem, SourcesOf(w1[p]));
        LoweredTrans(w, w1, r);
        r
      else w1
  }

  // ---------- the steps of process_new_instr, in its order ----------

  /** Every producer index stays inside the window. */
  predicate TablesOk(w: Window, regs: RegTable, mem: MemTable) {
    && |regs| == MD_TOTAL_REGS
    && (forall r | 0 <= r < MD_TOTAL_REGS :: regs[r].producerIdx < |w|)
    && (forall a | a in mem :: mem[a].producerIdx < |w|)
  }

  predicate StateOk(s: State) {
    && WindowOk(s.window) && TablesOk(s.window, s.regs, s.mem)
    && s.head < |s.window| && s.mid < |s.window| && |s.targets| == |s.window|
  }

  /** Consumer counts and the two ORT tables may change, nothing else. */
  predicate OnlyOrtChanges(s: State, t: State) {
    SameButCounts(s.window, t.window) && t == s.(window := t.window, regs := t.regs, mem := t.mem)
  }

  /** The entry built for the incoming instruction, before any table changes. */
  function Incoming(s: State, i: Instr): FifoEntry
    requires |s.regs| == MD_TOTAL_REGS && InstrOk(i)
  {
    var seen := BtbAt(s.btb, i.pc);
    FifoEntry(true, i.rOut0, i.rOut1, i.store0, i.store1,
      Source(s.regs, i.rIn[0]), Source(s.regs, i.rIn[1]), Source(s.regs, i.rIn[2]),
      0,
      IsCondBranch(i) && seen.validCnt > 0 && seen.tgtAddr == i.nextPc && seen.constTgt,
      if IsCondBranch(i) then i.pc else 0)
  }

  function Source(regs: RegTable, r: nat): int
    requires r < |regs|
  {
    if r != DNA then regs[r].producerIdx else -1
  }

  /** The branch table's view of one more instance of the branch at pc. */
  function SeeBranch(btb: BranchTable, pc: nat, nextPc: nat): BranchTable {
    var e := BtbAt(btb, pc);
    if e.validCnt == 0 then btb[pc := BtbEntry(nextPc, true, 1)]
    else btb[pc := BtbEntry(e.tgtAddr, e.constTgt && e.tgtAddr == nextPc, e.validCnt + 1)]
  }

  /** The state with one more reference to a register's producer. */
  function RefReg(s: State, r: nat): (t: State)
    requires StateOk(s) && r < MD_TOTAL_REGS
    ensures StateOk(t) && OnlyOrtChanges(s, t)
  {
    var p := s.regs[r].producerIdx;
    SetCountOk(s.window, p, s.window[p].consumerCount + 1);
    s.(window := SetCount(s.window, p, s.window[p].consumerCount + 1),
       regs := s.regs[r := s.regs[r].(referenced := true)])
  }

  function RefMem(s: State, a: nat): (t: State)
    requires StateOk(s) && a in s.mem
    ensures StateOk(t) && OnlyOrtChanges(s, t)
  {
    var p := s.mem[a].producerIdx;
    SetCountOk(s.window, p, s.window[p].consumerCount + 1);
    s.(window := SetCount(s.window, p, s.window[p].consumerCount + 1),
       mem := s.mem[a := s.mem[a].(referenced := true)])
  }

  /** _ref_update over the registers read, then over the addresses loaded. */
  function RefRegs(s: State, rIn: seq<nat>): (t: State)
    requires StateOk(s) && forall k | 0 <= k < |rIn| :: rIn[k] < MD_TOTAL_REGS
    ensures StateOk(t) && OnlyOrtChanges(s, t)
    decreases |rIn|
  {
    if rIn == [] then s
    else if rIn[0] == DNA then RefRegs(s, rIn[1..])
    else RefRegs(RefReg(s, rIn[0]), rIn[1..])
  }

  function RefMems(s: State, loads: seq<nat>): (t: State)
    requires StateOk(s)
    ensures StateOk(t) && OnlyOrtChanges(s, t)
    decreases |loads|
  {
    if loads == [] then s
    else if loads[0] in s.mem && s.mem[loads[0]].valid && loads[0] != 0 then
      RefMems(RefMem(s, loads[0]), loads[1..])
    else RefMems(s, loads[1..])
  }

  /** The old producer of an overwritten, never referenced value is removed. */
  function Superseded(s: State, e: OrtEntry): (t: State)
    requires StateOk(s) && e.producerIdx < |s.window|
    ensures StateOk(t) && OnlyOrtChanges(s, t) && t == s.(window := t.window)
  {
    if e.valid && !e.referenced && e.ortPair == DNA then
      assert SourcesOk(s.window, SourcesOf(s.window[e.producerIdx]));
      s.(window := Decremented(s.window, s.regs, s.mem, SourcesOf(s.window[e.producerIdx])))
    else s
  }

  /** One half of _uref_check: register r is written together with register pair. */
  function WriteReg(s: State, r: nat, pair: nat): (t: State)
    requires StateOk(s) && r < MD_TOTAL_REGS
    ensures StateOk(t) && OnlyOrtChanges(s, t)
  {
    if r == DNA then s
    else
      var t := Superseded(s, s.regs[r]);
      t.(regs := t.regs[r := OrtEntry(true, false, s.head, pair)])
  }

  /** One half of _uref_check_mem; the pair address is kept in a 32-bit int. */
  function WriteMem(s: State, a: nat, pair: nat): (t: State)
    requires StateOk(s)
    ensures StateOk(t) && OnlyOrtChanges(s, t)
  {
    if a == 0 then s
    else
      var t := if a in s.mem then Superseded(s, s.mem[a]) else s;
      t.(mem := t.mem[a := OrtEntry(true, false, s.head, Truncate(pair, 32))])
  }

  function UpdateOrt(s: State, i: Instr): (t: State)
    requires StateOk(s) && InstrOk(i)
    ensures StateOk(t) && OnlyOrtChanges(s, t)
  {
    if RemovedOnEntry(i) then s
    else
      var s1 := RefMems(RefRegs(s, i.rIn), i.loads);
      if i.store then WriteMem(WriteMem(s1, i.store0, i.store1), i.store1, i.store0)
      else WriteReg(WriteReg(s1, i.rOut0, i.rOut1), i.rOut1, i.rOut0)
  }

  /** A branch that reaches the middle with an unchanged target is taken to be removable. */
  function CheckMiddle(s: State): (t: State)
    requires StateOk(s)
    ensures StateOk(t) && OnlyOrtChanges(s, t)
  {
    var e := s.window[s.mid];
    if e.chkIneffBr && BtbAt(s.btb, e.branchPc).constTgt then
      assert SourcesOk(s.window, SourcesOf(e));
      s.(window := Decremented(s.window, s.regs, s.mem, SourcesOf(e)))
    else s
  }

  /** The branch leaving the window is taken off its count. */
  function LeaveBranch(btb: BranchTable, pc: nat): BranchTable {
    var e := BtbAt(btb, pc);
    if pc != 0 && e.validCnt > 0 then btb[pc := e.(validCnt := e.validCnt - 1)] else btb
  }

  function InvalidateReg(regs: RegTable, r: nat, head: nat): (t: RegTable)
    requires r < |regs|
    ensures |t| == |regs|
  {
    if regs[r].valid && regs[r].producerIdx == head then regs[r := regs[r].(valid := false)] else regs
  }

  function InvalidateMem(mem: MemTable, a: nat, head: nat): MemTable {
    if a in mem && mem[a].valid && mem[a].producerIdx == head then mem[a := mem[a].(valid := false)] else mem
  }

  /** Before the window is full nothing leaves; afterwards the ORT forgets the entry at the
      head. */
  function MakeRoom(s: State): (t: State)
    requires StateOk(s)
    ensures StateOk(t) && t.window == s.window
  {
    if s.count < |s.window| then s.(count := s.count + 1)
    else
      var e := s.window[s.head];
      s.(regs := InvalidateReg(InvalidateReg(s.regs, e.regOut1, s.head), e.regOut2, s.head),
         mem := InvalidateMem(InvalidateMem(s.mem, e.memOut1, s.head), e.memOut2, s.head))
  }

  function NextSlot(idx: nat, size: nat): nat
    requires idx < size
  {
    if idx < size - 1 then idx + 1 else 0
  }

  /** Everything before the incoming entry takes its slot: branch table, ORT update,
      mid-window check. */
  function BeforeInsert(s: State, i: Instr): (t: State)
    requires StateOk(s) && InstrOk(i)
    ensures StateOk(t)
  {
    CheckMiddle(UpdateOrt(if IsCondBranch(i) then s.(btb := SeeBranch(s.btb, i.pc, i.nextPc)) else s, i))
  }

  /** The rest: branch accounting of the oldest entry, ORT invalidation, slot overwrite. */
  function Insert(s: State, incoming: FifoEntry, nextPc: nat): State
    requires StateOk(s)
  {
    var t := MakeRoom(s.(btb := LeaveBranch(s.btb, s.window[s.head].branchPc)));
    t.(window := t.window[t.head := incoming],
       targets := t.targets[t.head := nextPc],
       head := NextSlot(t.head, |t.window|),
       mid := NextSlot(t.mid, |t.window|))
  }

  /** process_new_instr. */
  function Step(s: State, i: Instr): State
    requires StateOk(s) && InstrOk(i)
  {
    Insert(BeforeInsert(s, i), Incoming(s, i), i.nextPc)
  }

  // ---------- the invariant ----------

  predicate ListsReg(e: FifoEntry, r: nat) {
    e.regOut1 == r || e.regOut2 == r
  }

  predicate ListsMem(e: FifoEntry, a: nat) {
    e.memOut1 == a || e.memOut2 == a
  }

  /** While a step runs, the head slot is about to hold `incoming`: an ORT entry names an
      occupied slot, slot 0, or the head; a valid one names an instruction that writes it. */
  predicate RegEntryOk(w: Window, head: nat, incoming: FifoEntry, r: nat, e: OrtEntry)
    requires e.producerIdx < |w|
  {
    var p := e.producerIdx;
    && (p == 0 || p == head || w[p].valid)
    && (e.valid ==> (w[p].valid && ListsReg(w[p], r)) || (p == head && ListsReg(incoming, r)))
  }

  predicate MemEntryOk(w: Window, head: nat, incoming: FifoEntry, a: nat, e: OrtEntry)
    requires e.producerIdx < |w|
  {
    var p := e.producerIdx;
    && (p == 0 || p == head || w[p].valid)
    && (e.valid ==> (w[p].valid && ListsMem(w[p], a)) || (p == head && ListsMem(incoming, a)))
  }

  predicate OrtPending(s: State, incoming: FifoEntry)
    requires StateOk(s)
  {
    && (forall r | 0 <= r < MD_TOTAL_REGS :: RegEntryOk(s.window, s.head, incoming, r, s.regs[r]))
    && (forall a | a in s.mem :: MemEntryOk(s.window, s.head, incoming, a, s.mem[a]))
  }

  /** Between steps: each valid ORT entry names an occupied slot whose instruction lists
      that register or address among its outputs. */
  predicate OrtSettled(s: State)
    requires StateOk(s)
  {
    && (forall r | 0 <= r < MD_TOTAL_REGS :: RegEntrySettled(s.window, r, s.regs[r]))
    && (forall a | a in s.mem :: MemEntrySettled(s.window, a, s.mem[a]))
  }

  predicate RegEntrySettled(w: Window, r: nat, e: OrtEntry) {
    var p := e.producerIdx;
    && p < |w| && (p == 0 || w[p].valid)
    && (e.valid ==> w[p].valid && ListsReg(w[p], r))
  }

  predicate MemEntrySettled(w: Window, a: nat, e: OrtEntry) {
    var p := e.producerIdx;
    && p < |w| && (p == 0 || w[p].valid)
    && (e.valid ==> w[p].valid && ListsMem(w[p], a))
  }

  function CountPc(w: Window, pc: nat): nat {
    if w == [] then 0 else CountPc(w[..|w| - 1], pc) + if w[|w| - 1].branchPc == pc then 1 else 0
  }

  /** Conservation in the branch table, with one instance of pcIn (0: none) on its way in. */
  ghost predicate BranchesPending(w: Window, targets: seq<nat>, btb: BranchTable, pcIn: nat, nextPc: nat)
    requires |targets| == |w|
  {
    forall pc: nat | pc != 0 :: BranchPending(w, targets, BtbAt(btb, pc), pc, pcIn, nextPc)
  }

  predicate BranchPending(w: Window, targets: seq<nat>, e: BtbEntry, pc: nat, pcIn: nat, nextPc: nat)
    requires |targets| == |w|
  {
    && e.validCnt == CountPc(w, pc) + (if pc == pcIn then 1 else 0)
    && (e.constTgt ==> pc == pcIn ==> e.tgtAddr == nextPc)
    && (e.constTgt ==> forall k | 0 <= k < |w| && w[k].branchPc == pc :: targets[k] == e.tgtAddr)
  }

  /** The ring: the middle is half a window from the head, and slots fill in order. */
  predicate RingOk(s: State) {
    && s.head < |s.window|
    && s.mid == (s.head + |s.window| / 2) % |s.window|
    && s.count <= |s.window| && (s.count < |s.window| ==> s.head == s.count)
    && (forall k | 0 <= k < |s.window| :: s.window[k].valid <==> k < s.count)
    && (forall k | s.count <= k < |s.window| :: s.window[k].branchPc == 0)
  }

  ghost predicate Inv(s: State) {
    StateOk(s) && RingOk(s) && OrtSettled(s) && BranchesPending(s.window, s.targets, s.btb, 0, 0)
  }

  ghost predicate InvPending(s: State, incoming: FifoEntry, nextPc: nat) {
    && StateOk(s) && RingOk(s) && OrtPending(s, incoming)
    && BranchesPending(s.window, s.targets, s.btb, incoming.branchPc, nextPc)
  }

  // ---------- the ORT through one step ----------

  lemma CountsDoNotMatter(s: State, w: Window, incoming: FifoEntry)
    requires StateOk(s) && OrtPending(s, incoming)
    requires WindowOk(w) && SameButCounts(s.window, w)
    ensures OrtPending(s.(window := w), incoming)
  {
  }

  lemma RefRegKeepsOrt(s: State, r: nat, incoming: FifoEntry)
    requires StateOk(s) && OrtPending(s, incoming) && r < MD_TOTAL_REGS
    ensures OrtPending(RefReg(s, r), incoming)
  {
    CountsDoNotMatter(s, RefReg(s, r).window, incoming);
  }

  lemma RefMemKeepsOrt(s: State, a: nat, incoming: FifoEntry)
    requires StateOk(s) && OrtPending(s, incoming) && a in s.mem
    ensures OrtPending(RefMem(s, a), incoming)
  {
    CountsDoNotMatter(s, RefMem(s, a).window, incoming);
  }

  lemma {:induction false} RefRegsKeepsOrt(s: State, rIn: seq<nat>, incoming: FifoEntry)
    requires StateOk(s) && OrtPending(s, incoming)
    requires forall k | 0 <= k < |rIn| :: rIn[k] < MD_TOTAL_REGS
    ensures OrtPending(RefRegs(s, rIn), incoming)
    decreases |rIn|
  {
    hide OrtPending, RefReg;
    if rIn != [] {
      if rIn[0] == DNA {
        RefRegsKeepsOrt(s, rIn[1..], incoming);
      } else {
        RefRegKeepsOrt(s, rIn[0], incoming);
        RefRegsKeepsOrt(RefReg(s, rIn[0]), rIn[1..], incoming);
      }
    }
  }

  lemma {:induction false} RefMemsKeepsOrt(s: State, loads: seq<nat>, incoming: FifoEntry)
    requires StateOk(s) && OrtPending(s, incoming)
    ensures OrtPending(RefMems(s, loads), incoming)
    decreases |loads|
  {
    hide OrtPending, RefMem;
    if loads != [] {
      if loads[0] in s.mem && s.mem[loads[0]].valid && loads[0] != 0 {
        RefMemKeepsOrt(s, loads[0], incoming);
        RefMemsKeepsOrt(RefMem(s, loads[0]), loads[1..], incoming);
      } else {
        RefMemsKeepsOrt(s, loads[1..], incoming);
      }
    }
  }

  lemma WriteRegKeepsOrt(s: State, r: nat, pair: nat, incoming: FifoEntry)
    requires StateOk(s) && OrtPending(s, incoming) && r < MD_TOTAL_REGS && ListsReg(incoming, r)
    ensures OrtPending(WriteReg(s, r, pair), incoming)
  {
    if r != DNA { CountsDoNotMatter(s, Superseded(s, s.regs[r]).window, incoming); }
  }

  lemma WriteMemKeepsOrt(s: State, a: nat, pair: nat, incoming: FifoEntry)
    requires StateOk(s) && OrtPending(s, incoming) && ListsMem(incoming, a)
    ensures OrtPending(WriteMem(s, a, pair), incoming)
  {
    if a != 0 && a in s.mem { CountsDoNotMatter(s, Superseded(s, s.mem[a]).window, incoming); }
  }

  lemma UpdateOrtKeepsOrt(s: State, i: Instr, incoming: FifoEntry)
    requires StateOk(s) && InstrOk(i) && OrtPending(s, incoming)
    requires ListsReg(incoming, i.rOut0) && ListsReg(incoming, i.rOut1)
    requires ListsMem(incoming, i.store0) && ListsMem(incoming, i.store1)
    ensures OrtPending(UpdateOrt(s, i), incoming)
  {
    if !RemovedOnEntry(i) {
      RefRegsKeepsOrt(s, i.rIn, incoming);
      RefMemsKeepsOrt(RefRegs(s, i.rIn), i.loads, incoming);
      var s1 := RefMems(RefRegs(s, i.rIn), i.loads);
      if i.store {
        WriteMemKeepsOrt(s1, i.store0, i.store1, incoming);
        WriteMemKeepsOrt(WriteMem(s1, i.store0, i.store1), i.store1, i.store0, incoming);
      } else {
        WriteRegKeepsOrt(s1, i.rOut0, i.rOut1, incoming);
        WriteRegKeepsOrt(WriteReg(s1, i.rOut0, i.rOut1), i.rOut1, i.rOut0, incoming);
      }
    }
  }

  /** Making room at the head and filling it turns the pending invariant into the settled
      one. */
  lemma InsertSettlesOrt(s: State, incoming: FifoEntry)
    requires StateOk(s) && OrtPending(s, incoming) && incoming.valid
    requires s.count < |s.window| ==> !s.window[s.head].valid
    requires incoming.consumerCount >= 0 && SourcesOk(s.window, SourcesOf(incoming))
    requires incoming.regOut1 < MD_TOTAL_REGS && incoming.regOut2 < MD_TOTAL_REGS
    ensures var t := MakeRoom(s);
      var u := t.(window := t.window[t.head := incoming]);
      StateOk(u) && OrtSettled(u)
  {
    InsertKeepsWindow(s.window, s.head, incoming);
    var t := MakeRoom(s);
    forall r | 0 <= r < MD_TOTAL_REGS
      ensures RegEntrySettled(s.window[s.head := incoming], r, t.regs[r])
    {
      InsertSettlesReg(s, incoming, r);
    }
    forall a | a in t.mem
      ensures MemEntrySettled(s.window[s.head := incoming], a, t.mem[a])
    {
      InsertSettlesMem(s, incoming, a);
    }
  }

  lemma InsertSettlesReg(s: State, incoming: FifoEntry, r: nat)
    requires StateOk(s) && incoming.valid && r < MD_TOTAL_REGS
    requires RegEntryOk(s.window, s.head, incoming, r, s.regs[r])
    requires s.count < |s.window| ==> !s.window[s.head].valid
    ensures RegEntrySettled(s.window[s.head := incoming], r, MakeRoom(s).regs[r])
  {
  }

  lemma InsertSettlesMem(s: State, incoming: FifoEntry, a: nat)
    requires StateOk(s) && incoming.valid && a in MakeRoom(s).mem
    requires a in s.mem ==> MemEntryOk(s.window, s.head, incoming, a, s.mem[a])
    requires s.count < |s.window| ==> !s.window[s.head].valid
    ensures a in s.mem && MemEntrySettled(s.window[s.head := incoming], a, MakeRoom(s).mem[a])
  {
  }

  lemma InsertKeepsWindow(w: Window, head: nat, incoming: FifoEntry)
    requires WindowOk(w) && head < |w| && incoming.valid
    requires incoming.consumerCount >= 0 && SourcesOk(w, SourcesOf(incoming))
    requires incoming.regOut1 < MD_TOTAL_REGS && incoming.regOut2 < MD_TOTAL_REGS
    ensures WindowOk(w[head := incoming])
  {
    var v := w[head := incoming];
    forall k | 0 <= k < |v| ensures SourcesOk(v, SourcesOf(v[k])) {
      assert SourcesOk(w, SourcesOf(v[k]));
      forall j | 0 <= j < 3 ensures SourceOk(v, SourcesOf(v[k])[j]) {
        assert SourceOk(w, SourcesOf(v[k])[j]);
      }
    }
  }

  // ---------- the branch table through one step ----------

  lemma {:induction false} CountPcSame(v: Window, w: Window, pc: nat)
    requires |v| == |w| && forall k | 0 <= k < |w| :: v[k].branchPc == w[k].branchPc
    ensures CountPc(v, pc) == CountPc(w, pc)
  {
    if w != [] { CountPcSame(v[..|w| - 1], w[..|w| - 1], pc); }
  }

  lemma {:induction false} CountPcUpdate(w: Window, p: nat, e: FifoEntry, pc: nat)
    requires p < |w|
    ensures CountPc(w[p := e], pc) ==
      CountPc(w, pc) - (if w[p].branchPc == pc then 1 else 0) + (if e.branchPc == pc then 1 else 0)
  {
    var n := |w| - 1;
    if p == n {
      assert w[p := e][..n] == w[..n];
    } else {
      assert w[p := e][..n] == w[..n][p := e];
      CountPcUpdate(w[..n], p, e, pc);
    }
  }

  lemma {:induction false} CountPcZero(w: Window, pc: nat)
    ensures CountPc(w, pc) == 0 ==> forall k | 0 <= k < |w| :: w[k].branchPc != pc
    ensures (forall k | 0 <= k < |w| :: w[k].branchPc != pc) ==> CountPc(w, pc) == 0
  {
    if w != [] { CountPcZero(w[..|w| - 1], pc); }
  }

  lemma SeeBranchPends(w: Window, targets: seq<nat>, btb: BranchTable, pc: nat, nextPc: nat)
    requires |targets| == |w| && BranchesPending(w, targets, btb, 0, 0)
    ensures BranchesPending(w, targets, SeeBranch(btb, pc, nextPc), pc, nextPc)
  {
    forall q: nat | q != 0
      ensures BranchPending(w, targets, BtbAt(SeeBranch(btb, pc, nextPc), q), q, pc, nextPc)
    {
      assert BranchPending(w, targets, BtbAt(btb, q), q, 0, 0);
      CountPcZero(w, q);
    }
  }

  /** Removing the branch at the head and inserting the pending one completes the step. */
  lemma InsertSettlesBranches(w: Window, targets: seq<nat>, btb: BranchTable, head: nat,
                              incoming: FifoEntry, nextPc: nat)
    requires |targets| == |w| && head < |w|
    requires BranchesPending(w, targets, btb, incoming.branchPc, nextPc)
    ensures BranchesPending(w[head := incoming], targets[head := nextPc],
                            LeaveBranch(btb, w[head].branchPc), 0, 0)
  {
    var v, ts, after := w[head := incoming], targets[head := nextPc], LeaveBranch(btb, w[head].branchPc);
    forall q: nat | q != 0 ensures BranchPending(v, ts, BtbAt(after, q), q, 0, 0) {
      assert BranchPending(w, targets, BtbAt(btb, q), q, incoming.branchPc, nextPc);
      CountPcUpdate(w, head, incoming, q);
      CountPcZero(w, q);
    }
  }

  lemma BranchesIgnoreCounts(v: Window, w: Window, targets: seq<nat>, btb: BranchTable, pc: nat, nextPc: nat)
    requires |targets| == |v| && SameButCounts(v, w) && BranchesPending(v, targets, btb, pc, nextPc)
    ensures BranchesPending(w, targets, btb, pc, nextPc)
  {
    forall q: nat | q != 0 ensures BranchPending(w, targets, BtbAt(btb, q), q, pc, nextPc) {
      assert BranchPending(v, targets, BtbAt(btb, q), q, pc, nextPc);
      CountPcSame(v, w, q);
    }
  }

  // ---------- every run ----------

  lemma HalfWayRound(head: nat, size: nat)
    requires head < size
    ensures NextSlot((head + size / 2) % size, size) == (NextSlot(head, size) + size / 2) % size
  {
    SmallMod(head + size / 2, size);
    SmallMod(head + 1 + size / 2, size);
    SmallMod(size / 2, size);
  }

  lemma SmallMod(x: nat, size: nat)
    requires size > 0 && x < 2 * size
    ensures x % size == if x < size then x else x - size
  {
    if x < size { QuotientIs(x, size, 0, x); } else { QuotientIs(x, size, 1, x - size); }
  }

  lemma CheckMiddleKeepsOrt(s: State, incoming: FifoEntry)
    requires StateOk(s) && OrtPending(s, incoming)
    ensures OrtPending(CheckMiddle(s), incoming)
  {
    CountsDoNotMatter(s, CheckMiddle(s).window, incoming);
  }

  /** What the incoming entry's sources and outputs satisfy. */
  lemma IncomingOk(s: State, i: Instr)
    requires Inv(s) && InstrOk(i)
    ensures SourcesOk(s.window, SourcesOf(Incoming(s, i)))
    ensures OrtPending(s, Incoming(s, i))
  {
    forall k | 0 <= k < 3 ensures SourceOk(s.window, SourcesOf(Incoming(s, i))[k]) {
      assert SourcesOf(Incoming(s, i))[k] == Source(s.regs, i.rIn[k]);
    }
  }

  /** The first part of a step makes the invariant pend on the incoming instruction. */
  lemma BeforeInsertPends(s: State, i: Instr)
    requires Inv(s) && InstrOk(i)
    ensures InvPending(BeforeInsert(s, i), Incoming(s, i), i.nextPc)
    ensures SourcesOk(BeforeInsert(s, i).window, SourcesOf(Incoming(s, i)))
  {
    BeforeInsertKeepsOrt(s, i);
    IncomingLists(s, i);
    var s2, incoming := BeforeInsert(s, i), Incoming(s, i);
    hide OrtPending, OrtSettled, BranchesPending, BeforeInsert, SeeBranch, Incoming, SameButCounts, WindowOk;
    if IsCondBranch(i) {
      SeeBranchPends(s.window, s.targets, s.btb, i.pc, i.nextPc);
    } else {
      AnyTargetPends(s.window, s.targets, s.btb, i.nextPc);
    }
    BranchesIgnoreCounts(s.window, s2.window, s.targets, s2.btb, incoming.branchPc, i.nextPc);
    RingIgnoresCounts(s, s2);
  }

  lemma RingIgnoresCounts(s: State, t: State)
    requires RingOk(s) && SameButCounts(s.window, t.window)
    requires t.head == s.head && t.mid == s.mid && t.count == s.count
    ensures RingOk(t)
  {
  }

  lemma BeforeInsertKeepsOrt(s: State, i: Instr)
    requires Inv(s) && InstrOk(i)
    ensures var t := BeforeInsert(s, i);
      && OrtPending(t, Incoming(s, i)) && SourcesOk(t.window, SourcesOf(Incoming(s, i)))
      && OnlyOrtChanges(s, t.(btb := s.btb))
      && t.btb == if IsCondBranch(i) then SeeBranch(s.btb, i.pc, i.nextPc) else s.btb
  {
    hide OrtPending, OrtSettled, BranchesPending, RingOk, UpdateOrt, CheckMiddle, Incoming, SeeBranch;
    hide SourcesOk, SourcesOf, IsCondBranch;
    IncomingOk(s, i);
    var s1 := if IsCondBranch(i) then s.(btb := SeeBranch(s.btb, i.pc, i.nextPc)) else s;
    var incoming := Incoming(s, i);
    BtbDoesNotMatter(s, s1.btb, incoming);
    IncomingLists(s, i);
    UpdateOrtKeepsOrt(s1, i, incoming);
    CheckMiddleKeepsOrt(UpdateOrt(s1, i), incoming);
    SameButCountsOk(s.window, BeforeInsert(s, i).window);
  }

  lemma IncomingLists(s: State, i: Instr)
    requires |s.regs| == MD_TOTAL_REGS && InstrOk(i)
    ensures var e := Incoming(s, i);
      && ListsReg(e, i.rOut0) && ListsReg(e, i.rOut1) && ListsMem(e, i.store0) && ListsMem(e, i.store1)
      && e.branchPc == if IsCondBranch(i) then i.pc else 0
  {
  }

  lemma BtbDoesNotMatter(s: State, btb: BranchTable, incoming: FifoEntry)
    requires StateOk(s) && OrtPending(s, incoming)
    ensures StateOk(s.(btb := btb)) && OrtPending(s.(btb := btb), incoming)
  {
  }

  /** The second part settles it again. */
  lemma InsertSettles(s: State, incoming: FifoEntry, nextPc: nat)
    requires InvPending(s, incoming, nextPc) && incoming.valid
    requires incoming.consumerCount >= 0 && SourcesOk(s.window, SourcesOf(incoming))
    requires incoming.regOut1 < MD_TOTAL_REGS && incoming.regOut2 < MD_TOTAL_REGS
    ensures Inv(Insert(s, incoming, nextPc))
  {
    hide OrtPending, BranchesPending, InvalidateReg, InvalidateMem, WindowOk, SourcesOk, LeaveBranch, OrtSettled;
    var s' := s.(btb := LeaveBranch(s.btb, s.window[s.head].branchPc));
    BtbDoesNotMatter(s, s'.btb, incoming);
    InsertSettlesOrt(s', incoming);
    InsertSettlesBranches(s.window, s.targets, s.btb, s.head, incoming, nextPc);
    HalfWayRound(s.head, |s.window|);
    var t := MakeRoom(s');
    MovingOnKeepsOrt(t.(window := t.window[s.head := incoming]), Insert(s, incoming, nextPc));
  }

  lemma MovingOnKeepsOrt(s: State, t: State)
    requires StateOk(s) && OrtSettled(s)
    requires t.window == s.window && t.regs == s.regs && t.mem == s.mem
    requires t.head < |t.window| && t.mid < |t.window| && |t.targets| == |t.window|
    ensures StateOk(t) && OrtSettled(t)
  {
  }

  /** Every step keeps the invariant. */
  lemma StepKeepsInv(s: State, i: Instr)
    requires Inv(s) && InstrOk(i)
    ensures Inv(Step(s, i))
  {
    BeforeInsertPends(s, i);
    hide Inv, InvPending;
    InsertSettles(BeforeInsert(s, i), Incoming(s, i), i.nextPc);
  }

  lemma AnyTargetPends(w: Window, targets: seq<nat>, btb: BranchTable, nextPc: nat)
    requires |targets| == |w| && BranchesPending(w, targets, btb, 0, 0)
    ensures BranchesPending(w, targets, btb, 0, nextPc)
  {
    forall q: nat | q != 0 ensures BranchPending(w, targets, BtbAt(btb, q), q, 0, nextPc) {
      assert BranchPending(w, targets, BtbAt(btb, q), q, 0, 0);
    }
  }

  function Repeat<T>(x: T, n: nat): (s: seq<T>)
    ensures |s| == n && forall k | 0 <= k < n :: s[k] == x
  {
    if n == 0 then [] else Repeat(x, n - 1) + [x]
  }

  /** ir_detector_setup. */
  function Setup(size: nat): State {
    State(Repeat(EMPTY_SLOT, size), Repeat(EMPTY_ORT, MD_TOTAL_REGS), map[], map[], 0, size / 2, 0, Repeat(0, size))
  }

  lemma SetupInv(size: nat)
    requires size > 0
    ensures Inv(Setup(size))
  {
    var s := Setup(size);
    SmallMod(size / 2, size);
    forall q: nat | q != 0 ensures BranchPending(s.window, s.targets, BtbAt(s.btb, q), q, 0, 0) {
      CountPcZero(s.window, q);
    }
  }

  /** The state after a whole run of retired instructions, oldest first. */
  ghost function Run(size: nat, trace: seq<Instr>): (s: State)
    requires size > 0 && forall k | 0 <= k < |trace| :: InstrOk(trace[k])
    ensures Inv(s)
  {
    if trace == [] then
      SetupInv(size);
      Setup(size)
    else
      var past := Run(size, trace[..|trace| - 1]);
      StepKeepsInv(past, trace[|trace| - 1]);
      Step(past, trace[|trace| - 1])
  }

  // ---------- what a removal reaches, and what a write survives ----------

  predicate ClosedUnderSources(w: Window, reach: set<nat>) {
    forall k: nat | k in reach && k < |w| :: NamesOnly(SourcesOf(w[k]), reach)
  }

  predicate NamesOnly(ps: seq<int>, reach: set<nat>) {
    forall j | 0 <= j < |ps| && ps[j] > 0 :: ps[j] in reach
  }

  /** A removal only touches transitive producers: a slot outside a set that is closed under
      sources and contains the starting producers keeps its entry, count included. */
  lemma {:induction false} RemovalStaysInReach(w: Window, regs: RegTable, mem: MemTable, ps: seq<int>,
                                               reach: set<nat>, k: nat)
    requires WindowOk(w) && SourcesOk(w, ps) && |regs| == MD_TOTAL_REGS
    requires NamesOnly(ps, reach) && ClosedUnderSources(w, reach)
    requires k < |w| && k !in reach
    ensures Decremented(w, regs, mem, ps)[k] == w[k]
    decreases TotalCount(w), |ps|
  {
    hide NotInOrt, TotalCount, ClosedUnderSources;
    if ps != [] {
      assert SourceOk(w, ps[0]);
      var p := ps[0];
      var w1 := DecrementedOne(w, regs, mem, p);
      if p > 0 && w[p].consumerCount > 0 {
        var v := SetCount(w, p, w[p].consumerCount - 1);
        OneConsumerLess(w, p);
        CountsKeepClosure(w, v, reach);
        if w[p].consumerCount == 1 && NotInOrt(v[p], p, regs, mem) {
          ReachNames(w, reach, p);
          RemovalStaysInReach(v, regs, mem, SourcesOf(v[p]), reach, k);
        }
      }
      LoweredKeepsSources(w, w1, ps);
      CountsKeepClosure(w, w1, reach);
      assert NamesOnly(ps[1..], reach);
      RemovalStaysInReach(w1, regs, mem, ps[1..], reach, k);
    }
  }

  lemma ReachNames(w: Window, reach: set<nat>, p: nat)
    requires ClosedUnderSources(w, reach) && p in reach && p < |w|
    ensures NamesOnly(SourcesOf(w[p]), reach)
  {
  }

  lemma CountsKeepClosure(v: Window, w: Window, reach: set<nat>)
    requires SameButCounts(v, w) && ClosedUnderSources(v, reach)
    ensures ClosedUnderSources(w, reach)
  {
    forall k: nat | k in reach && k < |w| ensures NamesOnly(SourcesOf(w[k]), reach) {
      assert SourcesOf(w[k]) == SourcesOf(v[k]);
    }
  }

  function SlotsButZero(n: nat): (r: set<nat>)
    ensures forall k: nat :: k in r <==> 0 < k < n
  {
    if n <= 1 then {} else SlotsButZero(n - 1) + {n - 1}
  }

  /** Producer index 0 stands for "none" in a removal: slot 0 never loses a consumer. */
  lemma SlotZeroKeepsItsConsumers(w: Window, regs: RegTable, mem: MemTable, ps: seq<int>)
    requires WindowOk(w) && SourcesOk(w, ps) && |regs| == MD_TOTAL_REGS && |w| > 0
    ensures Decremented(w, regs, mem, ps)[0] == w[0]
  {
    var reach := SlotsButZero(|w|);
    forall k: nat | k in reach && k < |w| ensures NamesOnly(SourcesOf(w[k]), reach) {
      assert SourcesOk(w, SourcesOf(w[k]));
    }
    forall j | 0 <= j < |ps| && ps[j] > 0 ensures ps[j] in reach { assert SourceOk(w, ps[j]); }
    RemovalStaysInReach(w, regs, mem, ps, reach, 0);
  }

  /** A register just written has a valid ORT entry after the step if and only if the
      instruction leaving the window does not list the same register: the invalidation of
      the oldest entry runs after the update and cannot tell the two producers apart. */
  lemma WrittenRegisterSurvives(s: State, i: Instr, r: nat)
    requires Inv(s) && InstrOk(i) && !RemovedOnEntry(i) && !i.store
    requires r != DNA && (r == i.rOut0 || r == i.rOut1)
    ensures var e := Step(s, i).regs[r];
      && e.producerIdx == s.head && !e.referenced
      && (e.valid <==> s.count < |s.window| || !ListsReg(s.window[s.head], r))
  {
    hide Insert, UpdateOrt, SeeBranch, Incoming, OrtPending, OrtSettled, BranchesPending, RingOk, WindowOk, SourcesOk;
    var s1 := if IsCondBranch(i) then s.(btb := SeeBranch(s.btb, i.pc, i.nextPc)) else s;
    var s2 := BeforeInsert(s, i);
    WriteHappens(s1, i, r);
    BeforeInsertKeepsOrt(s, i);
    assert s2.regs == UpdateOrt(s1, i).regs;
    assert ListsReg(s2.window[s2.head], r) == ListsReg(s.window[s.head], r);
    InsertForgets(s2, Incoming(s, i), i.nextPc, r);
  }

  lemma InsertForgets(s: State, incoming: FifoEntry, nextPc: nat, r: nat)
    requires StateOk(s) && r < MD_TOTAL_REGS && s.regs[r].valid && s.regs[r].producerIdx == s.head
    ensures var e := Insert(s, incoming, nextPc).regs[r];
      && e == s.regs[r].(valid := e.valid)
      && (e.valid <==> s.count < |s.window| || !ListsReg(s.window[s.head], r))
  {
  }

  lemma WriteHappens(s: State, i: Instr, r: nat)
    requires StateOk(s) && InstrOk(i) && !RemovedOnEntry(i) && !i.store
    requires r != DNA && (r == i.rOut0 || r == i.rOut1)
    ensures var e := UpdateOrt(s, i).regs[r]; e.valid && !e.referenced && e.producerIdx == s.head
  {
    hide RefRegs, RefMems, Superseded, WindowOk, SameButCounts;
  }

  // ---------- the detector itself ----------

  ghost predicate TotalCountAtMost(v: Window, w: Window) {
    WindowOk(v) && WindowOk(w) && TotalCount(v) <= TotalCount(w)
  }

  lemma SourcesAre(e: FifoEntry)
    ensures SourcesOf(e) == [e.srcIdx1, e.srcIdx2, e.srcIdx3]
  {
  }

  lemma DecrementedOneUnfolds(w: Window, regs: RegTable, mem: MemTable, p: int)
    requires WindowOk(w) && SourceOk(w, p) && |regs| == MD_TOTAL_REGS
    ensures p <= 0 ==> DecrementedOne(w, regs, mem, p) == w
    ensures p > 0 ==> w[p].consumerCount >= 0 && w[p].regOut1 < |regs| && w[p].regOut2 < |regs|
    ensures p > 0 && w[p].consumerCount == 0 ==> DecrementedOne(w, regs, mem, p) == w
    ensures p > 0 && w[p].consumerCount > 1 ==>
      DecrementedOne(w, regs, mem, p) == SetCount(w, p, w[p].consumerCount - 1)
    ensures p > 0 && w[p].consumerCount == 1 ==>
      var w1 := SetCount(w, p, 0);
      && WindowOk(w1) && SourcesOk(w1, SourcesOf(w1[p])) && TotalCount(w1) < TotalCount(w)
      && DecrementedOne(w, regs, mem, p) ==
           if NotInOrt(w1[p], p, regs, mem) then Decremented(w1, regs, mem, SourcesOf(w1[p])) else w1
  {
    if p > 0 {
      assert w[p].consumerCount >= 0;
      if w[p].consumerCount == 1 {
        OneConsumerLess(w, p);
        hide Decremented, Lowered, WindowOk, SameButCounts, SourcesOk, TotalCount, SourcesOf;
        assert SetCount(w, p, w[p].consumerCount - 1) == SetCount(w, p, 0);
      }
    }
  }

  lemma RemoveFirst(w: Window, regs: RegTable, mem: MemTable, ps: seq<int>)
    requires WindowOk(w) && SourcesOk(w, ps) && |regs| == MD_TOTAL_REGS && ps != []
    ensures SourceOk(w, ps[0])
    ensures var w1 := DecrementedOne(w, regs, mem, ps[0]);
      && TotalCountAtMost(w1, w) && SourcesOk(w1, ps[1..])
      && Decremented(w1, regs, mem, ps[1..]) == Decremented(w, regs, mem, ps)
  {
    assert SourceOk(w, ps[0]);
    LoweredKeepsSources(w, DecrementedOne(w, regs, mem, ps[0]), ps);
  }

  lemma RefRegsUnfolds(s: State, rIn: seq<nat>)
    requires StateOk(s) && rIn != [] && forall k | 0 <= k < |rIn| :: rIn[k] < MD_TOTAL_REGS
    ensures RefRegs(s, rIn) == RefRegs(if rIn[0] == DNA then s else RefReg(s, rIn[0]), rIn[1..])
  {
  }

  lemma RefMemsUnfolds(s: State, loads: seq<nat>)
    requires StateOk(s) && loads != []
    ensures RefMems(s, loads) ==
      RefMems(if loads[0] in s.mem && s.mem[loads[0]].valid && loads[0] != 0 then RefMem(s, loads[0]) else s,
              loads[1..])
  {
  }

  // ---------- releasing the producers of an instruction ----------

  /** p is the only producer that the entry names. */
  predicate OnlySource(e: FifoEntry, p: nat) {
    && p > 0 && (e.srcIdx1 == p || e.srcIdx2 == p || e.srcIdx3 == p)
    && (e.srcIdx1 == p ==> e.srcIdx2 <= 0 && e.srcIdx3 <= 0)
    && (e.srcIdx2 == p ==> e.srcIdx1 <= 0 && e.srcIdx3 <= 0)
    && (e.srcIdx3 == p ==> e.srcIdx1 <= 0 && e.srcIdx2 <= 0)
  }

  predicate NoSource(e: FifoEntry) {
    e.srcIdx1 <= 0 && e.srcIdx2 <= 0 && e.srcIdx3 <= 0
  }

  /** A rename entry that the removal looks at names slot p. */
  predicate Named(w: Window, regs: RegTable, mem: MemTable, p: nat)
    requires p < |w| && w[p].regOut1 < |regs| && w[p].regOut2 < |regs|
  {
    || regs[w[p].regOut1].producerIdx == p || regs[w[p].regOut2].producerIdx == p
    || (w[p].memOut1 in mem && mem[w[p].memOut1].producerIdx == p)
  }

  /** Slot p has one consumer less, and nothing else differs. */
  function OneLess(s: State, p: nat): State
    requires p < |s.window|
  {
    s.(window := s.window[p := s.window[p].(consumerCount := s.window[p].consumerCount - 1)])
  }

  /** A removal from the producers of an entry. */
  function Released(s: State, e: FifoEntry): State
    requires StateOk(s) && SourcesOk(s.window, SourcesOf(e))
  {
    s.(window := Decremented(s.window, s.regs, s.mem, SourcesOf(e)))
  }

  lemma {:induction false} NothingToRelease(w: Window, regs: RegTable, mem: MemTable, ps: seq<int>)
    requires WindowOk(w) && SourcesOk(w, ps) && |regs| == MD_TOTAL_REGS && forall k | 0 <= k < |ps| :: ps[k] <= 0
    ensures Decremented(w, regs, mem, ps) == w
    decreases |ps|
  {
    hide WindowOk, Lowered;
    if ps != [] {
      RemoveFirst(w, regs, mem, ps);
      NothingToRelease(w, regs, mem, ps[1..]);
    }
  }

  lemma {:induction false} OneToRelease(w: Window, regs: RegTable, mem: MemTable, ps: seq<int>, k: nat)
    requires WindowOk(w) && SourcesOk(w, ps) && |regs| == MD_TOTAL_REGS && k < |ps|
    requires forall j | 0 <= j < |ps| && j != k :: ps[j] <= 0
    ensures SourceOk(w, ps[k]) && Decremented(w, regs, mem, ps) == DecrementedOne(w, regs, mem, ps[k])
    decreases |ps|
  {
    hide WindowOk, Lowered, DecrementedOne;
    RemoveFirst(w, regs, mem, ps);
    if k == 0 {
      NothingToRelease(DecrementedOne(w, regs, mem, ps[0]), regs, mem, ps[1..]);
    } else {
      DecrementedOneUnfolds(w, regs, mem, ps[0]);
      OneToRelease(w, regs, mem, ps[1..], k - 1);
    }
  }

  lemma OneRemoval(w: Window, regs: RegTable, mem: MemTable, p: nat)
    requires WindowOk(w) && |regs| == MD_TOTAL_REGS && 0 < p < |w| && w[p].valid
    ensures var r, n := DecrementedOne(w, regs, mem, p), w[p].consumerCount;
            var less := w[p := w[p].(consumerCount := n - 1)];
            && (n == 0 ==> r == w) && (n >= 2 ==> r == less) && (n == 1 && Named(w, regs, mem, p) ==> r == less)
            && (n == 1 && !Named(w, regs, mem, p) ==>
                  && WindowOk(less) && SourcesOk(less, SourcesOf(w[p]))
                  && r == Decremented(less, regs, mem, SourcesOf(w[p])))
  {
    hide Decremented, Lowered, TotalCount, SourcesOk;
    DecrementedOneUnfolds(w, regs, mem, p);
    var less := w[p := w[p].(consumerCount := 0)];
    assert less == SetCount(w, p, 0) && SourcesOf(less[p]) == SourcesOf(w[p]);
    assert NotInOrt(less[p], p, regs, mem) <==> !Named(w, regs, mem, p);
  }

  /** Without a producer nothing changes. With one that has several consumers, that has one less,
      and so has one that has none other but that a rename entry still names; one with no consumer
      left stays as it is. The last consumer of one that no rename entry names takes its producers
      with it. */
  lemma ReleaseIs(s: State, e: FifoEntry, p: nat)
    requires StateOk(s) && SourcesOk(s.window, SourcesOf(e))
    ensures NoSource(e) ==> Released(s, e) == s
    ensures OnlySource(e, p) ==>
              && p < |s.window|
              && var n, named := s.window[p].consumerCount, Named(s.window, s.regs, s.mem, p);
                 && (n == 0 ==> Released(s, e) == s)
                 && (n >= 2 || (n == 1 && named) ==> Released(s, e) == OneLess(s, p))
                 && (n == 1 && !named ==>
                       var t, f := OneLess(s, p), s.window[p];
                       StateOk(t) && SourcesOk(t.window, SourcesOf(f)) && Released(s, e) == Released(t, f))
  {
    hide Decremented, DecrementedOne, Lowered;
    var ps := SourcesOf(e);
    if NoSource(e) {
      NothingToRelease(s.window, s.regs, s.mem, ps);
    }
    if OnlySource(e, p) {
      var k := if e.srcIdx1 == p then 0 else if e.srcIdx2 == p then 1 else 2;
      OneToRelease(s.window, s.regs, s.mem, ps, k);
      OneRemoval(s.window, s.regs, s.mem, p);
    }
  }

  // ---------- the branch in the middle ----------

  /** The entry in the middle is a branch that may be removable, and its target is still constant. */
  predicate Predictable(s: State)
    requires s.mid < |s.window|
  {
    s.window[s.mid].chkIneffBr &&
    (s.window[s.mid].branchPc in s.btb ==> s.btb[s.window[s.mid].branchPc].constTgt)
  }

  /** Exactly then its producers are released; otherwise nothing changes. */
  lemma MiddleIs(s: State, p: nat)
    requires StateOk(s)
    ensures !Predictable(s) || NoSource(s.window[s.mid]) ==> CheckMiddle(s) == s
    ensures Predictable(s) ==> SourcesOk(s.window, SourcesOf(s.window[s.mid]))
    ensures Predictable(s) ==> CheckMiddle(s) == Released(s, s.window[s.mid])
    ensures Predictable(s) && OnlySource(s.window[s.mid], p) ==>
              p < |s.window| && (s.window[p].consumerCount >= 2 ==> CheckMiddle(s) == OneLess(s, p))
  {
    hide Decremented, DecrementedOne, Lowered;
    assert SourcesOk(s.window, SourcesOf(s.window[s.mid]));
    ReleaseIs(s, s.window[s.mid], p);
  }

  /** The globals of ir_detector.cpp. Statistics counters are not kept. */
  class Detector {
    const instrWindow: array<FifoEntry>
    const ortRegfile: array<OrtEntry>
    var ortMemory: MemTable
    var btbMap: BranchTable
    var fifoHead: nat
    var fifoMid: nat
    var wInstrCnt: nat
    ghost var targets: seq<nat>

    ghost function Abs(): State
      reads this, instrWindow, ortRegfile
    {
      State(instrWindow[..], ortRegfile[..], ortMemory, btbMap, fifoHead, fifoMid, wInstrCnt, targets)
    }

    /** ir_detector_setup. */
    constructor (wSize: nat)
      requires wSize > 0
      ensures Inv(Abs()) && Abs() == Setup(wSize)
    {
      instrWindow := new FifoEntry[wSize](k => EMPTY_SLOT);
      ortRegfile := new OrtEntry[MD_TOTAL_REGS](k => EMPTY_ORT);
      ortMemory, btbMap := map[], map[];
      fifoHead, fifoMid, wInstrCnt := 0, wSize / 2, 0;
      targets := Repeat(0, wSize);
      new;
      SetupInv(wSize);
      assert instrWindow[..] == Repeat(EMPTY_SLOT, wSize);
      assert ortRegfile[..] == Repeat(EMPTY_ORT, MD_TOTAL_REGS);
    }

    /** _decrement_consumer. */
    method DecrementConsumer(producers: seq<int>)
      requires WindowOk(instrWindow[..]) && SourcesOk(instrWindow[..], producers)
      requires ortRegfile.Length == MD_TOTAL_REGS
      modifies instrWindow
      ensures instrWindow[..] == Decremented(old(instrWindow[..]), ortRegfile[..], ortMemory, producers)
      decreases TotalCount(instrWindow[..]), 1
    {
      hide Lowered, WindowOk, SourcesOk, DecrementedOne, TotalCount;
      ghost var w0 := instrWindow[..];
      for k := 0 to |producers|
        invariant WindowOk(instrWindow[..]) && SourcesOk(instrWindow[..], producers[k..])
        invariant TotalCountAtMost(instrWindow[..], w0)
        invariant Decremented(instrWindow[..], ortRegfile[..], ortMemory, producers[k..])
               == Decremented(w0, ortRegfile[..], ortMemory, producers)
      {
        ghost var w := instrWindow[..];
        assert producers[k..][0] == producers[k] && producers[k..][1..] == producers[k + 1..];
        RemoveFirst(w, ortRegfile[..], ortMemory, producers[k..]);
        DecrementOne(producers[k]);
      }
    }

    /** The body of the source's loop, for one producer index. */
    method DecrementOne(p: int)
      requires WindowOk(instrWindow[..]) && SourceOk(instrWindow[..], p)
      requires ortRegfile.Length == MD_TOTAL_REGS
      modifies instrWindow
      ensures instrWindow[..] == DecrementedOne(old(instrWindow[..]), ortRegfile[..], ortMemory, p)
      decreases TotalCount(instrWindow[..]), 0
    {
      hide DecrementedOne, Decremented, WindowOk, Lowered, SameButCounts, SourcesOk, SourcesOf, TotalCount;
      ghost var w := instrWindow[..];
      DecrementedOneUnfolds(w, ortRegfile[..], ortMemory, p);
      if p > 0 {
        assert instrWindow[p].valid;
        if instrWindow[p].consumerCount > 1 {
          instrWindow[p] := instrWindow[p].(consumerCount := instrWindow[p].consumerCount - 1);
          assert instrWindow[..] == SetCount(w, p, w[p].consumerCount - 1);
        } else if instrWindow[p].consumerCount == 1 {
          OneConsumerLess(w, p);
          instrWindow[p] := instrWindow[p].(consumerCount := 0);
          assert instrWindow[..] == SetCount(w, p, 0);
          var e := instrWindow[p];
          if ortRegfile[e.regOut1].producerIdx != p && ortRegfile[e.regOut2].producerIdx != p
             && MemAt(ortMemory, e.memOut1).producerIdx != p && MemAt(ortMemory, e.memOut1).producerIdx != p {
            SourcesAre(e);
            DecrementConsumer([e.srcIdx1, e.srcIdx2, e.srcIdx3]);
          }
        }
      }
    }

    /** _ref_update. */
    method RefUpdate(rIn: seq<nat>, loads: seq<nat>)
      requires StateOk(Abs()) && forall k | 0 <= k < |rIn| :: rIn[k] < MD_TOTAL_REGS
      modifies this`ortMemory, instrWindow, ortRegfile
      ensures Abs() == RefMems(RefRegs(old(Abs()), rIn), loads)
    {
      hide StateOk;
      ghost var s0 := Abs();
      for k := 0 to |rIn|
        invariant StateOk(Abs()) && RefRegs(Abs(), rIn[k..]) == RefRegs(s0, rIn)
      {
        RefRegsUnfolds(Abs(), rIn[k..]);
        assert rIn[k..][1..] == rIn[k + 1..] && rIn[k..][0] == rIn[k];
        if rIn[k] != DNA {
          BumpReg(rIn[k]);
        }
      }
      RefMemUpdate(loads);
    }

    method RefMemUpdate(loads: seq<nat>)
      requires StateOk(Abs())
      modifies this`ortMemory, instrWindow
      ensures Abs() == RefMems(old(Abs()), loads)
    {
      hide StateOk;
      ghost var s0 := Abs();
      for k := 0 to |loads|
        invariant StateOk(Abs()) && RefMems(Abs(), loads[k..]) == RefMems(s0, loads)
      {
        RefMemsUnfolds(Abs(), loads[k..]);
        assert loads[k..][1..] == loads[k + 1..] && loads[k..][0] == loads[k];
        if loads[k] in ortMemory && ortMemory[loads[k]].valid && loads[k] != 0 {
          BumpMem(loads[k]);
        }
      }
    }

    method BumpReg(r: nat)
      requires StateOk(Abs()) && r < MD_TOTAL_REGS
      modifies instrWindow, ortRegfile
      ensures Abs() == RefReg(old(Abs()), r)
    {
      ghost var s := Abs();
      ortRegfile[r] := ortRegfile[r].(referenced := true);
      var p := ortRegfile[r].producerIdx;
      SetCountOk(s.window, p, s.window[p].consumerCount + 1);
      instrWindow[p] := instrWindow[p].(consumerCount := instrWindow[p].consumerCount + 1);
      assert instrWindow[..] == SetCount(s.window, p, s.window[p].consumerCount + 1);
      assert ortRegfile[..] == s.regs[r := s.regs[r].(referenced := true)];
    }

    method BumpMem(a: nat)
      requires StateOk(Abs()) && a in ortMemory
      modifies this`ortMemory, instrWindow
      ensures Abs() == RefMem(old(Abs()), a)
    {
      ghost var s := Abs();
      ortMemory := ortMemory[a := ortMemory[a].(referenced := true)];
      var p := ortMemory[a].producerIdx;
      SetCountOk(s.window, p, s.window[p].consumerCount + 1);
      instrWindow[p] := instrWindow[p].(consumerCount := instrWindow[p].consumerCount + 1);
      assert instrWindow[..] == SetCount(s.window, p, s.window[p].consumerCount + 1);
    }

    /** The check made before an ORT entry is overwritten. */
    method Supersede(e: OrtEntry)
      requires StateOk(Abs()) && e.producerIdx < instrWindow.Length
      modifies instrWindow
      ensures Abs() == Superseded(old(Abs()), e)
    {
      if e.valid && !e.referenced && e.ortPair == DNA {
        var p := instrWindow[e.producerIdx];
        assert SourcesOk(instrWindow[..], SourcesOf(p));
        DecrementConsumer([p.srcIdx1, p.srcIdx2, p.srcIdx3]);
      }
    }

    /** _uref_check. */
    method UrefCheck(rOut0: nat, rOut1: nat)
      requires StateOk(Abs()) && rOut0 < MD_TOTAL_REGS && rOut1 < MD_TOTAL_REGS
      modifies instrWindow, ortRegfile
      ensures Abs() == WriteReg(WriteReg(old(Abs()), rOut0, rOut1), rOut1, rOut0)
    {
      if rOut0 != DNA {
        Supersede(ortRegfile[rOut0]);
        ghost var t := Abs();
        ortRegfile[rOut0] := OrtEntry(true, false, fifoHead, rOut1);
        assert ortRegfile[..] == t.regs[rOut0 := OrtEntry(true, false, fifoHead, rOut1)];
      }
      assert Abs() == WriteReg(old(Abs()), rOut0, rOut1);
      if rOut1 != DNA {
        Supersede(ortRegfile[rOut1]);
        ghost var t := Abs();
        ortRegfile[rOut1] := OrtEntry(true, false, fifoHead, rOut0);
        assert ortRegfile[..] == t.regs[rOut1 := OrtEntry(true, false, fifoHead, rOut0)];
      }
    }

    /** _uref_check_mem. */
    method UrefCheckMem(store0: nat, store1: nat)
      requires StateOk(Abs())
      modifies this`ortMemory, instrWindow
      ensures Abs() == WriteMem(WriteMem(old(Abs()), store0, store1), store1, store0)
    {
      if store0 != 0 {
        if store0 in ortMemory { Supersede(ortMemory[store0]); }
        ortMemory := ortMemory[store0 := OrtEntry(true, false, fifoHead, Truncate(store1, 32))];
      }
      assert Abs() == WriteMem(old(Abs()), store0, store1);
      if store1 != 0 {
        if store1 in ortMemory { Supersede(ortMemory[store1]); }
        ortMemory := ortMemory[store1 := OrtEntry(true, false, fifoHead, Truncate(store0, 32))];
      }
    }

    /** p_incr_fifo_ptr: the value from before, and the pointer moved on. */
    method Advance(idx: nat) returns (retval: nat, next: nat)
      requires idx < instrWindow.Length
      ensures retval == idx
      ensures next == (idx + 1) % instrWindow.Length == NextSlot(idx, instrWindow.Length)
    {
      SmallMod(idx + 1, instrWindow.Length);
      retval := idx;
      next := if idx < instrWindow.Length - 1 then idx + 1 else 0;
    }

    /** The branch-table part of process_new_instr for a conditional branch; tells whether
        the branch may turn out removable. */
    method NoteBranch(pc: nat, nextPc: nat) returns (chkIneffBr: bool)
      modifies this`btbMap
      ensures btbMap == SeeBranch(old(btbMap), pc, nextPc)
      ensures chkIneffBr <==>
        var seen := BtbAt(old(btbMap), pc);
        seen.validCnt > 0 && seen.tgtAddr == nextPc && seen.constTgt
    {
      chkIneffBr := false;
      if pc !in btbMap || btbMap[pc].validCnt == 0 {
        btbMap := btbMap[pc := BtbEntry(nextPc, true, 1)];
      } else {
        if btbMap[pc].tgtAddr != nextPc {
          btbMap := btbMap[pc := btbMap[pc].(constTgt := false)];
        } else if btbMap[pc].constTgt {
          chkIneffBr := true;
        }
        btbMap := btbMap[pc := btbMap[pc].(validCnt := btbMap[pc].validCnt + 1)];
      }
    }

    /** The check at the middle of the window. */
    method MiddleCheck()
      requires StateOk(Abs())
      modifies instrWindow
      ensures Abs() == CheckMiddle(old(Abs()))
      ensures old(!Predictable(Abs()) || NoSource(instrWindow[fifoMid])) ==> Abs() == old(Abs())
      ensures forall p: nat | p < instrWindow.Length &&
                old(Predictable(Abs()) && OnlySource(instrWindow[fifoMid], p) && instrWindow[p].consumerCount >= 2) ::
                Abs() == OneLess(old(Abs()), p)
    {
      hide Decremented, Lowered;
      ghost var s := Abs();
      MiddleIs(s, 0);
      forall p: nat | p < |s.window| && Predictable(s) && OnlySource(s.window[s.mid], p) &&
                      s.window[p].consumerCount >= 2 ensures CheckMiddle(s) == OneLess(s, p) {
        MiddleIs(s, p);
      }
      var e := instrWindow[fifoMid];
      if e.chkIneffBr {
        if BtbAt(btbMap, e.branchPc).constTgt {
          assert SourcesOk(instrWindow[..], SourcesOf(e));
          DecrementConsumer([e.srcIdx1, e.srcIdx2, e.srcIdx3]);
        }
      }
    }

    /** The branch of the oldest entry is taken off its count. */
    method LeaveTable(branchPc: nat)
      modifies this`btbMap
      ensures btbMap == LeaveBranch(old(btbMap), branchPc)
    {
      if branchPc != 0 {
        if BtbAt(btbMap, branchPc).validCnt > 0 {
          btbMap := btbMap[branchPc := btbMap[branchPc].(validCnt := btbMap[branchPc].validCnt - 1)];
        }
      }
    }

    /** The window size check, and the eviction of the oldest entry. */
    method Evict()
      requires StateOk(Abs())
      modifies this`wInstrCnt, this`ortMemory, ortRegfile
      ensures Abs() == MakeRoom(old(Abs()))
    {
      hide InvalidateReg, InvalidateMem, SourcesOk;
      var e := instrWindow[fifoHead];
      if wInstrCnt < instrWindow.Length {
        wInstrCnt := wInstrCnt + 1;
      } else {
        ForgetReg(e.regOut1);
        ForgetReg(e.regOut2);
        ForgetMem(e.memOut1);
        ForgetMem(e.memOut2);
      }
    }

    /** The end of process_new_instr: the oldest entry leaves and the new one takes its slot. */
    method Enqueue(incoming: FifoEntry, ghost nextPc: nat)
      requires StateOk(Abs())
      modifies this, instrWindow, ortRegfile
      ensures Abs() == Insert(old(Abs()), incoming, nextPc)
    {
      hide LeaveBranch, MakeRoom, WindowOk, TablesOk;
      LeaveTable(instrWindow[fifoHead].branchPc);
      Evict();
      ghost var t := Abs();
      instrWindow[fifoHead] := incoming;
      targets := targets[fifoHead := nextPc];
      assert instrWindow[..] == t.window[t.head := incoming];
      var _, head := Advance(fifoHead);
      var _, mid := Advance(fifoMid);
      fifoHead, fifoMid := head, mid;
    }

    method ForgetReg(r: nat)
      requires r < ortRegfile.Length
      modifies ortRegfile
      ensures ortRegfile[..] == InvalidateReg(old(ortRegfile[..]), r, fifoHead)
    {
      if ortRegfile[r].valid && ortRegfile[r].producerIdx == fifoHead {
        ortRegfile[r] := ortRegfile[r].(valid := false);
      }
    }

    method ForgetMem(a: nat)
      modifies this`ortMemory
      ensures ortMemory == InvalidateMem(old(ortMemory), a, fifoHead)
    {
      if a in ortMemory && ortMemory[a].valid && ortMemory[a].producerIdx == fifoHead {
        ortMemory := ortMemory[a := ortMemory[a].(valid := false)];
      }
    }

    lemma NewBranchesKeepState(s: State, btb: BranchTable)
      requires Inv(s)
      ensures StateOk(s) && StateOk(s.(btb := btb))
    {
    }

    /** process_new_instr. */
    method ProcessNewInstr(i: Instr)
      requires Inv(Abs()) && InstrOk(i)
      modifies this, instrWindow, ortRegfile
      ensures Inv(Abs()) && Abs() == Step(old(Abs()), i)
    {
      hide Inv, Insert, UpdateOrt, CheckMiddle, SeeBranch, Incoming, StateOk, InstrOk, SameButCounts;
      ghost var s := Abs();
      StepKeepsInv(s, i);
      NewBranchesKeepState(s, if IsCondBranch(i) then SeeBranch(s.btb, i.pc, i.nextPc) else s.btb);
      var incoming := BuildEntry(i);
      RecordOperands(i);
      MiddleCheck();
      Enqueue(incoming, i.nextPc);
    }

    /** The entry for the incoming instruction, and the branch table's note of it. */
    method BuildEntry(i: Instr) returns (incoming: FifoEntry)
      requires StateOk(Abs()) && InstrOk(i)
      modifies this`btbMap
      ensures incoming == Incoming(old(Abs()), i)
      ensures btbMap == if IsCondBranch(i) then SeeBranch(old(btbMap), i.pc, i.nextPc) else old(btbMap)
    {
      var src1 := if i.rIn[0] != DNA then ortRegfile[i.rIn[0]].producerIdx else -1;
      var src2 := if i.rIn[1] != DNA then ortRegfile[i.rIn[1]].producerIdx else -1;
      var src3 := if i.rIn[2] != DNA then ortRegfile[i.rIn[2]].producerIdx else -1;
      incoming := FifoEntry(true, i.rOut0, i.rOut1, i.store0, i.store1, src1, src2, src3, 0, false, 0);
      if IsCondBranch(i) {
        var chk := NoteBranch(i.pc, i.nextPc);
        incoming := incoming.(branchPc := i.pc, chkIneffBr := chk);
      }
    }

    /** The ORT part of process_new_instr. */
    method RecordOperands(i: Instr)
      requires StateOk(Abs()) && InstrOk(i)
      modifies this`ortMemory, instrWindow, ortRegfile
      ensures Abs() == UpdateOrt(old(Abs()), i)
    {
      if !RemovedOnEntry(i) {
        RefUpdate(i.rIn, i.loads);
        if i.store {
          UrefCheckMem(i.store0, i.store1);
        } else {
          UrefCheck(i.rOut0, i.rOut1);
        }
      }
    }
  }
}
