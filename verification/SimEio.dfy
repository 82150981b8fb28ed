/** The instruction loop of the simulators, and the machine that it drives. The instruction set is
    a parameter; the answers to system calls come from the host or from a trace. */
module SimEio {
  import opened Bits
  import opened Memory
  import opened Eio
  import opened Sigreturn
  import opened Wrappers
  import Exo

  // ---------- instructions ----------

  const MD_REG_ZERO: nat := 31
  const INST_SIZE: nat := 4

  /** The registers. Between two instructions the next program counter is one behind. */
  datatype Cpu = Cpu(arch: Arch, uniq: nat, pc: nat)

  predicate Shaped(c: Cpu) {
    |c.arch.r| == NUM_IREGS && |c.arch.f| == NUM_FREGS
  }

  predicate CpuOk(c: Cpu) {
    ArchOk(c.arch) && c.uniq < ADDR_SPACE && c.pc < ADDR_SPACE
  }

  /** What an instruction comes to: stores and new registers, a system call, or a fault. */
  datatype Outcome = Goes(stores: seq<Touch>, arch: Arch, uniq: nat) | Traps | Faults

  /** An instruction set: where the instruction with these bytes loads its data from, and what it
      makes of registers and data. */
  datatype Isa = Isa(loads: (Cpu, seq<byte>) -> seq<nat>, exec: (Cpu, seq<byte>, seq<byte>) -> Outcome)

  predicate OutcomeOk(o: Outcome) {
    o.Goes? ==> ArchOk(o.arch) && o.uniq < ADDR_SPACE && forall k | 0 <= k < |o.stores| :: o.stores[k].addr < ADDR_SPACE
  }

  /** Registers and addresses are 64 bits wide. */
  ghost predicate IsaOk(isa: Isa) {
    forall c, inst, data :: OutcomeOk(isa.exec(c, inst, data))
  }

  /** The bytes at these addresses. */
  function Bytes(m: map<nat, byte>, addrs: seq<nat>): (bs: seq<byte>)
    ensures |bs| == |addrs| && forall k | 0 <= k < |bs| :: bs[k] == Get(m, Wrap(addrs[k]))
  {
    seq(|addrs|, k requires 0 <= k < |addrs| => Get(m, Wrap(addrs[k])))
  }

  function Fetched(c: Cpu): seq<nat> {
    seq(INST_SIZE, k => c.pc + k)
  }

  /** The instruction at the program counter. */
  function Instruction(isa: Isa, c: Cpu, m: map<nat, byte>): Outcome {
    var inst := Bytes(m, Fetched(c));
    isa.exec(c, inst, Bytes(m, isa.loads(c, inst)))
  }

  /** The two registers that read as zero. */
  function ZeroRegs(a: Arch): (z: Arch)
    requires |a.r| == NUM_IREGS && |a.f| == NUM_FREGS
    ensures |z.r| == NUM_IREGS && |z.f| == NUM_FREGS && z.npc == a.npc && z.fpcr == a.fpcr
  {
    a.(r := a.r[MD_REG_ZERO := 0], f := a.f[MD_REG_ZERO := 0])
  }

  function Zeroed(c: Cpu): (z: Cpu)
    requires Shaped(c)
    ensures Shaped(z) && z.pc == c.pc && z.uniq == c.uniq
  {
    c.(arch := ZeroRegs(c.arch))
  }

  /** The default next program counter. */
  function Started(c: Cpu): Cpu {
    c.(arch := c.arch.(npc := Wrap(c.pc + INST_SIZE)))
  }

  /** On to the next instruction. */
  function Onward(a: Arch, uniq: nat): Cpu {
    Cpu(a.(npc := Wrap(a.npc + INST_SIZE)), uniq, a.npc)
  }

  // ---------- system calls ----------

  /** Where a system call gets its answer: from the host, or from a trace. */
  datatype World = Live(calls: seq<Call>) | Trace(ts: seq<Term>)

  /** An answer; or exit(), an error exit, or an answer that no host gives. */
  datatype Answer = Answered(arch: Arch, brk: nat, mem: map<nat, byte>) | Quits | Fails | Unknown

  /** What hosts do: words of 64 bits, accesses that succeed, and sigreturn() sets what the signal
      context says. */
  predicate Lawful(call: Call, before: Arch, m: map<nat, byte>)
    requires |before.r| == NUM_IREGS
  {
    && ArchOk(call.after) && call.brk < ADDR_SPACE
    && Possible(call.ops) && AllPass(call.ops)
    && (Syscode(before.r[0], before.r[MD_REG_A0]) == OSF_SYS_SIGRETURN ==> call == SigreturnCall(m, before.r, call.brk))
  }

  /** Call k of a run, made by instruction icnt. On a host that is traced, a read behind a write is
      an error exit. */
  function AnswerTo(w: World, k: nat, c: Cpu, icnt: nat, m: map<nat, byte>): (a: Answer)
    requires Shaped(c)
    ensures a.Answered? ==> |a.arch.r| == NUM_IREGS && |a.arch.f| == NUM_FREGS
  {
    match w
    case Live(calls) =>
      if Syscode(c.arch.r[0], c.arch.r[MD_REG_A0]) == OSF_SYS_EXIT then Quits
      else if k >= |calls| || !Lawful(calls[k], c.arch, m) then Unknown
      else if !ReadsFirst(calls[k].ops) then Fails
      else Answered(calls[k].after, calls[k].brk, Applied(m, Outputs(calls[k].ops)))
    case Trace(ts) =>
      match Replayed(if k < |ts| then Some(ts[k]) else None, icnt, c.pc, c.arch.r, m)
      case Exits => Quits
      case Fatal => Fails
      case Done(brk, r, m') => Answered(AfterSyscall(c.arch, r, m'), brk, m')
  }

  // ---------- runs ----------

  /** A machine between two instructions: its registers, the instructions it has counted and those
      it had counted at the last call, break, memory contents, and the calls it has made. */
  datatype Machine = Machine(cpu: Cpu, icnt: nat, transIcnt: nat, brk: nat, mem: map<nat, byte>, calls: nat)

  /** A run goes on, or ends in exit() or in an error exit, or gets an answer that no host gives. */
  datatype Turn = Went(s: Machine) | Exited | Died | Unclaimed

  /** One instruction. */
  function Step(isa: Isa, w: World, s: Machine): (t: Turn)
    requires IsaOk(isa) && Shaped(s.cpu)
    ensures t.Went? ==> Shaped(t.s.cpu)
  {
    var c := Zeroed(s.cpu);
    match Instruction(isa, c, s.mem)
    case Faults => Died
    case Goes(stores, arch, uniq) =>
      assert OutcomeOk(Goes(stores, arch, uniq));
      Went(s.(cpu := Onward(arch, uniq), icnt := s.icnt + 1, mem := Applied(s.mem, stores)))
    case Traps =>
      match AnswerTo(w, s.calls, c, s.icnt + 1, s.mem)
      case Quits => Exited
      case Fails => Died
      case Unknown => Unclaimed
      case Answered(arch, brk, m) => Went(Machine(Onward(arch, c.uniq), s.icnt + 1, s.icnt + 1, brk, m, s.calls + 1))
  }

  /** Any number of instructions. */
  function Run(isa: Isa, w: World, s: Machine, n: nat): (t: Turn)
    requires IsaOk(isa) && Shaped(s.cpu)
    ensures t.Went? ==> Shaped(t.s.cpu)
  {
    if n == 0 then Went(s) else Then(isa, w, Run(isa, w, s, n - 1))
  }

  function Then(isa: Isa, w: World, t: Turn): (t': Turn)
    requires IsaOk(isa) && (t.Went? ==> Shaped(t.s.cpu))
    ensures t'.Went? ==> Shaped(t'.s.cpu)
  {
    if t.Went? then Step(isa, w, t.s) else t
  }

  /** A run goes on from any of its states as it would have gone on there. */
  lemma {:induction false} RunSplits(isa: Isa, w: World, s: Machine, i: nat, j: nat)
    requires IsaOk(isa) && Shaped(s.cpu) && Run(isa, w, s, i).Went?
    ensures Run(isa, w, s, i + j) == Run(isa, w, Run(isa, w, s, i).s, j)
  {
    hide Step;
    if j > 0 {
      RunSplits(isa, w, s, i, j - 1);
    }
  }

  lemma {:induction false} WentBefore(isa: Isa, w: World, s: Machine, i: nat, n: nat)
    requires IsaOk(isa) && Shaped(s.cpu) && i <= n && Run(isa, w, s, n).Went?
    ensures Run(isa, w, s, i).Went?
  {
    hide Step;
    if i < n {
      WentBefore(isa, w, s, i, n - 1);
    }
  }

  lemma {:induction false} EndsForGood(isa: Isa, w: World, s: Machine, i: nat, n: nat)
    requires IsaOk(isa) && Shaped(s.cpu) && i <= n && !Run(isa, w, s, i).Went?
    ensures Run(isa, w, s, n) == Run(isa, w, s, i)
  {
    hide Step;
    if i < n {
      EndsForGood(isa, w, s, i, n - 1);
    }
  }

  // ---------- one instruction, in terms of the register file ----------

  /** z is c with integer and floating-point register 31 cleared. */
  predicate ReadsZero(c: Cpu, z: Cpu) {
    && |c.arch.r| == |z.arch.r| == 32 && |c.arch.f| == |z.arch.f| == 32
    && z.arch.r[31] == 0 && z.arch.f[31] == 0
    && (forall i: nat | i < 31 :: z.arch.r[i] == c.arch.r[i] && z.arch.f[i] == c.arch.f[i])
    && z.arch.fpcr == c.arch.fpcr && z.arch.npc == c.arch.npc && z.uniq == c.uniq && z.pc == c.pc
  }

  lemma ReadsZeroIs(c: Cpu, z: Cpu)
    requires Shaped(c)
    ensures ReadsZero(c, z) <==> z == Zeroed(c)
  {
    if ReadsZero(c, z) {
      assert z.arch.r == c.arch.r[31 := 0] && z.arch.f == c.arch.f[31 := 0];
    }
  }

  /** The four bytes of the instruction at the program counter, and the data it loads. */
  predicate FetchedIs(isa: Isa, c: Cpu, m: map<nat, byte>, inst: seq<byte>, data: seq<byte>) {
    && |inst| == 4 && (forall k | 0 <= k < 4 :: inst[k] == Get(m, Wrap(c.pc + k)))
    && |data| == |isa.loads(c, inst)|
    && forall k | 0 <= k < |data| :: data[k] == Get(m, Wrap(isa.loads(c, inst)[k]))
  }

  lemma InstructionIs(isa: Isa, c: Cpu, m: map<nat, byte>, inst: seq<byte>, data: seq<byte>)
    requires FetchedIs(isa, c, m, inst, data)
    ensures Instruction(isa, c, m) == isa.exec(c, inst, data)
  {
    assert inst == Bytes(m, Fetched(c));
    assert data == Bytes(m, isa.loads(c, inst));
  }

  /** One instruction is what the instruction set makes of registers with zero in register 31,
      the four bytes at the program counter and the data; then the program counter becomes the
      next program counter, and that the address four bytes behind it. */
  lemma StepIs(isa: Isa, w: World, s: Machine, c: Cpu, inst: seq<byte>, data: seq<byte>)
    requires IsaOk(isa) && Shaped(s.cpu) && ReadsZero(s.cpu, c) && FetchedIs(isa, c, s.mem, inst, data)
    ensures match isa.exec(c, inst, data)
            case Faults => Step(isa, w, s) == Died
            case Goes(stores, arch, uniq) =>
              var cpu := Cpu(Arch(arch.r, arch.f, arch.fpcr, Wrap(arch.npc + 4)), uniq, arch.npc);
              Step(isa, w, s) ==
              Went(Machine(cpu, s.icnt + 1, s.transIcnt, s.brk, Applied(s.mem, stores), s.calls))
            case Traps =>
              Step(isa, w, s) ==
              match AnswerTo(w, s.calls, c, s.icnt + 1, s.mem)
              case Quits => Exited
              case Fails => Died
              case Unknown => Unclaimed
              case Answered(arch, brk, m) =>
                var cpu := Cpu(Arch(arch.r, arch.f, arch.fpcr, Wrap(arch.npc + 4)), c.uniq, arch.npc);
                Went(Machine(cpu, s.icnt + 1, s.icnt + 1, brk, m, s.calls + 1))
  {
    hide AnswerTo, Instruction, ZeroRegs, Applied, Wrap;
    ReadsZeroIs(s.cpu, c);
    InstructionIs(isa, c, s.mem, inst, data);
  }

  /** What is in register 31 does not matter. */
  lemma Register31DoesNotMatter(isa: Isa, w: World, s: Machine, c: Cpu)
    requires IsaOk(isa) && Shaped(s.cpu) && Shaped(c)
    requires forall i: nat | i < 31 :: c.arch.r[i] == s.cpu.arch.r[i] && c.arch.f[i] == s.cpu.arch.f[i]
    requires c == Cpu(Arch(c.arch.r, c.arch.f, s.cpu.arch.fpcr, s.cpu.arch.npc), s.cpu.uniq, s.cpu.pc)
    ensures Step(isa, w, s) == Step(isa, w, s.(cpu := c))
  {
    hide AnswerTo, Instruction, ZeroRegs, Applied, Onward;
    ReadsZeroIs(s.cpu, Zeroed(s.cpu));
    ReadsZeroIs(c, Zeroed(s.cpu));
  }

  /** exit() is called by its own number, or through syscall(). */
  lemma ExitIs(calls: seq<Call>, k: nat, c: Cpu, icnt: nat, m: map<nat, byte>)
    requires Shaped(c)
    ensures AnswerTo(Live(calls), k, c, icnt, m).Quits? <==> c.arch.r[0] == 1 || (c.arch.r[0] == 0 && c.arch.r[16] == 1)
  {
    hide Lawful, Applied, ReadsFirst;
  }

  /** sigreturn(), called in either way, sets every register from its context and leaves memory and
      break alone. */
  lemma SigreturnAnswers(calls: seq<Call>, k: nat, c: Cpu, icnt: nat, m: map<nat, byte>)
    requires Shaped(c) && (c.arch.r[0] == 103 || (c.arch.r[0] == 0 && c.arch.r[16] == 103))
    requires AnswerTo(Live(calls), k, c, icnt, m).Answered?
    ensures var a := AnswerTo(Live(calls), k, c, icnt, m);
            RestoredFrom(a.arch, m, c.arch.r[16]) && a.mem == m && k < |calls| && a.brk == calls[k].brk
  {
    hide RestoredFrom, AllPass, Possible, ReadsFirst, ArchOk, ContextAt, Applied, Outputs, Loads;
    SigreturnSets(m, c.arch.r, calls[k].brk);
    LoadsInputs(m, c.arch.r[16], CONTEXT_SIZE);
    NothingApplied(m);
  }

  // ---------- machines in the same state ----------

  /** The same state, but for registers that the next instruction finds cleared, and for how the
      memory contents are stored. */
  ghost predicate Alike(s: Machine, t: Machine) {
    && Shaped(s.cpu) && Shaped(t.cpu)
    && Zeroed(s.cpu) == Zeroed(t.cpu) && s.icnt == t.icnt && s.transIcnt == t.transIcnt && s.brk == t.brk
    && s.calls == t.calls && Same(s.mem, t.mem)
  }

  ghost predicate AlikeTurns(a: Turn, b: Turn) {
    if a.Went? && b.Went? then Alike(a.s, b.s) else a == b
  }

  lemma AlikeThrough(a: Turn, b: Turn, c: Turn)
    requires (AlikeTurns(a, b) || AlikeTurns(b, a)) && AlikeTurns(b, c)
    ensures AlikeTurns(a, c)
  {
    hide Zeroed;
  }

  /** An instruction sees memory contents only. */
  lemma SameInstruction(isa: Isa, c: Cpu, m: map<nat, byte>, m': map<nat, byte>)
    requires Same(m, m')
    ensures Instruction(isa, c, m) == Instruction(isa, c, m')
  {
    SameBytes(m, m', Fetched(c));
    SameBytes(m, m', isa.loads(c, Bytes(m, Fetched(c))));
  }

  lemma SameBytes(m: map<nat, byte>, m': map<nat, byte>, addrs: seq<nat>)
    requires Same(m, m')
    ensures Bytes(m, addrs) == Bytes(m', addrs)
  {
  }

  lemma SameContext(m: map<nat, byte>, m': map<nat, byte>, addr: nat)
    requires Same(m, m')
    ensures ContextAt(m, addr) == ContextAt(m', addr)
  {
    hide Context;
    assert FlatRead(m, addr, CONTEXT_SIZE) == FlatRead(m', addr, CONTEXT_SIZE);
  }

  lemma SameInputs(list: seq<Term>, m: map<nat, byte>, m': map<nat, byte>)
    requires Same(m, m')
    ensures InputsMatch(list, m) == InputsMatch(list, m')
  {
    hide RecTouches;
  }

  lemma SameReplay(exo: Option<Term>, icnt: nat, pc: nat, r: seq<nat>, m: map<nat, byte>, m': map<nat, byte>)
    requires |r| == NUM_IREGS && Same(m, m')
    ensures var a, b := Replayed(exo, icnt, pc, r, m), Replayed(exo, icnt, pc, r, m');
            if a.Done? then b.Done? && a.brk == b.brk && a.regs == b.regs && Same(a.mem, b.mem) else a == b
  {
    hide RegsMatch, InputsMatch, Same, Flatten, Applied, NewRegs, AllRecs, AllAddresses;
    if exo.Some? && IsTransaction(exo.value) {
      SameInputs(exo.value.elts[3].elts, m, m');
      AppliedSame(m, m', Flatten(exo.value.elts[5].elts));
    }
  }

  /** Neither a host nor a trace tells machines in the same state apart. */
  lemma SameAnswer(w: World, k: nat, c: Cpu, icnt: nat, m: map<nat, byte>, m': map<nat, byte>)
    requires Shaped(c) && Same(m, m')
    ensures var a, b := AnswerTo(w, k, c, icnt, m), AnswerTo(w, k, c, icnt, m');
            if a.Answered? then b.Answered? && a.arch == b.arch && a.brk == b.brk && Same(a.mem, b.mem) else a == b
  {
    hide Same, Replayed, ContextAt, Applied, AllPass, Possible, ReadsFirst, ArchOk;
    match w
    case Live(calls) =>
      SameContext(m, m', c.arch.r[MD_REG_A0]);
      if k < |calls| {
        AppliedSame(m, m', Outputs(calls[k].ops));
      }
    case Trace(ts) =>
      var exo := if k < |ts| then Some(ts[k]) else None;
      SameReplay(exo, icnt, c.pc, c.arch.r, m, m');
      var a, b := Replayed(exo, icnt, c.pc, c.arch.r, m), Replayed(exo, icnt, c.pc, c.arch.r, m');
      if a.Done? {
        SameContext(a.mem, b.mem, a.regs[MD_REG_A0]);
      }
  }

  lemma AlikeStep(isa: Isa, w: World, s: Machine, t: Machine)
    requires IsaOk(isa) && Alike(s, t)
    ensures AlikeTurns(Step(isa, w, s), Step(isa, w, t))
  {
    hide Same, AnswerTo, Instruction, Applied, Onward, ZeroRegs;
    var c := Zeroed(s.cpu);
    SameInstruction(isa, c, s.mem, t.mem);
    SameAnswer(w, s.calls, c, s.icnt + 1, s.mem, t.mem);
    var o := Instruction(isa, c, s.mem);
    if o.Goes? {
      AppliedSame(s.mem, t.mem, o.stores);
    }
  }

  /** Machines in the same state run alike. */
  lemma {:induction false} AlikeRuns(isa: Isa, w: World, s: Machine, t: Machine, n: nat)
    requires IsaOk(isa) && Alike(s, t)
    ensures AlikeTurns(Run(isa, w, s, n), Run(isa, w, t, n))
  {
    hide Step, Same, Zeroed;
    if n > 0 {
      AlikeRuns(isa, w, s, t, n - 1);
      var a, b := Run(isa, w, s, n - 1), Run(isa, w, t, n - 1);
      if a.Went? && b.Went? {
        AlikeStep(isa, w, a.s, b.s);
      }
    }
  }

  // ---------- what every run keeps ----------

  /** Words of 64 bits, and the next program counter one instruction behind the program counter. */
  predicate Sound(s: Machine) {
    CpuOk(s.cpu) && s.brk < ADDR_SPACE && s.cpu.arch.npc == Wrap(s.cpu.pc + INST_SIZE)
  }

  predicate RegularWorld(w: World) {
    w.Trace? ==> forall k | 0 <= k < |w.ts| :: Exo.Regular(w.ts[k])
  }

  predicate Grown(m: map<nat, byte>, m': map<nat, byte>) {
    forall a | a in m :: a in m'
  }

  lemma {:induction false} AppliedGrows(m: map<nat, byte>, ts: seq<Touch>)
    ensures Grown(m, Applied(m, ts))
  {
    if ts != [] {
      AppliedGrows(m, ts[..|ts| - 1]);
    }
  }

  lemma NewRegsFit(list: seq<Term>, r: seq<nat>)
    requires |list| == NUM_TRACED && AllAddresses(list) && |r| == NUM_IREGS && Words(r)
    requires forall i | 0 <= i < |list| :: Exo.Regular(list[i])
    ensures Words(NewRegs(list, r))
  {
    forall i | 0 <= i < NUM_IREGS ensures NewRegs(list, r)[i] < ADDR_SPACE {
      if i < NUM_TRACED {
        assert Exo.Regular(list[i]);
      }
    }
  }

  lemma ReplayFits(t: Term, icnt: nat, pc: nat, r: seq<nat>, m: map<nat, byte>)
    requires |r| == NUM_IREGS && Words(r) && Exo.Regular(t)
    ensures var end := Replayed(Some(t), icnt, pc, r, m);
            end.Done? ==> Words(end.regs) && end.brk < ADDR_SPACE && Grown(m, end.mem)
  {
    hide RegsMatch, InputsMatch, Flatten, Applied, NewRegs, AllRecs, Words, Grown;
    var end := Replayed(Some(t), icnt, pc, r, m);
    if end.Done? {
      var outs := t.elts[4].elts;
      assert Exo.Regular(t.elts[4]) && Exo.Regular(outs[0]);
      forall i | 0 <= i < NUM_TRACED ensures Exo.Regular(outs[1..][i]) {
        assert Exo.Regular(outs[i + 1]);
      }
      NewRegsFit(outs[1..], r);
      AppliedGrows(m, Flatten(t.elts[5].elts));
    }
  }

  lemma AnswerFits(w: World, k: nat, c: Cpu, icnt: nat, m: map<nat, byte>)
    requires CpuOk(c) && RegularWorld(w)
    ensures var a := AnswerTo(w, k, c, icnt, m);
            a.Answered? ==> ArchOk(a.arch) && a.brk < ADDR_SPACE && Grown(m, a.mem)
  {
    hide Replayed, ContextAt, Applied, AllPass, Possible, ReadsFirst, Words, Grown;
    match w
    case Live(calls) =>
      if k < |calls| {
        AppliedGrows(m, Outputs(calls[k].ops));
      }
    case Trace(ts) =>
      if k < |ts| {
        ReplayFits(ts[k], icnt, c.pc, c.arch.r, m);
        var end := Replayed(Some(ts[k]), icnt, c.pc, c.arch.r, m);
        if end.Done? {
          ContextFits(end.mem, end.regs[MD_REG_A0]);
        }
      } else {
        NoTransaction(icnt, c.pc, c.arch.r, m);
      }
  }

  lemma NoTransaction(icnt: nat, pc: nat, r: seq<nat>, m: map<nat, byte>)
    requires |r| == NUM_IREGS
    ensures !Replayed(None, icnt, pc, r, m).Done?
  {
  }

  lemma ZeroedFits(c: Cpu)
    requires CpuOk(c)
    ensures CpuOk(Zeroed(c))
  {
  }

  lemma StepKeeps(isa: Isa, w: World, s: Machine)
    requires IsaOk(isa) && Sound(s) && RegularWorld(w) && Step(isa, w, s).Went?
    ensures var x := Step(isa, w, s).s; Sound(x) && x.icnt == s.icnt + 1 && Grown(s.mem, x.mem)
  {
    hide AnswerTo, Instruction, Applied, Zeroed, Words, Grown;
    var c := Zeroed(s.cpu);
    ZeroedFits(s.cpu);
    var o := Instruction(isa, c, s.mem);
    AnswerFits(w, s.calls, c, s.icnt + 1, s.mem);
    if o.Goes? {
      InstructionOk(isa, c, s.mem);
      AppliedGrows(s.mem, o.stores);
    }
  }

  lemma InstructionOk(isa: Isa, c: Cpu, m: map<nat, byte>)
    requires IsaOk(isa)
    ensures OutcomeOk(Instruction(isa, c, m))
  {
  }

  /** Every run counts its instructions, keeps to words of 64 bits, and forgets no address. */
  lemma {:induction false} RunKeeps(isa: Isa, w: World, s: Machine, n: nat)
    requires IsaOk(isa) && Sound(s) && RegularWorld(w) && Run(isa, w, s, n).Went?
    ensures var x := Run(isa, w, s, n).s; Sound(x) && x.icnt == s.icnt + n && Grown(s.mem, x.mem)
  {
    hide Step, Sound, RegularWorld;
    assert Shaped(s.cpu) by { SoundIsShaped(s); }
    if n > 0 {
      WentBefore(isa, w, s, n - 1, n);
      RunKeeps(isa, w, s, n - 1);
      StepKeeps(isa, w, Run(isa, w, s, n - 1).s);
    }
  }

  lemma SoundIsShaped(s: Machine)
    requires Sound(s)
    ensures Shaped(s.cpu)
  {
  }

  // ---------- the simulator ----------

  /** The register file is no part of memory. */
  lemma RegsAside(mem: Mem, regs: object, r: object)
    requires regs is Regs && r is array<nat>
    ensures regs != mem && regs != mem.ptab && regs !in mem.nodes && regs !in mem.Pages()
    ensures r != mem && r != mem.ptab && r !in mem.nodes && r !in mem.Pages()
  {
  }

  /** The state of sim-eio.c. */
  class Simulator {
    const isa: Isa
    const regs: Regs
    const mem: Mem
    const eio: Tracer
    var icnt: nat
    ghost var calls: nat

    ghost predicate Valid()
      reads regs, regs.r, mem`chains, mem`nodes, mem`pageCount, mem`flat, mem.ptab, mem.nodes, mem.Pages()
    {
      regs.Valid() && Shaped(Registers()) && mem.Valid()
    }

    function Registers(): Cpu
      reads regs, regs.r
    {
      Cpu(regs.Now(), regs.uniq, regs.pc)
    }

    ghost function Now(): Machine
      reads this, regs, regs.r, mem`flat, eio`brk, eio`transIcnt
    {
      Machine(Registers(), icnt, eio.transIcnt, eio.brk, mem.flat, calls)
    }

    /** sim_main, up to its loop: the machine as a checkpoint or the loader left it, with the
        default next program counter. */
    constructor (isa: Isa, regs: Regs, mem: Mem, eio: Tracer, icnt: nat, ghost calls: nat)
      requires regs.Valid() && |regs.f| == NUM_FREGS && mem.Valid()
      modifies regs`npc
      ensures regs.npc == Wrap(regs.pc + 4)
      ensures Valid() && this.isa == isa && this.regs == regs && this.mem == mem && this.eio == eio
      ensures Registers() == Started(old(Cpu(regs.Now(), regs.uniq, regs.pc)))
      ensures Now() == Machine(Registers(), icnt, eio.transIcnt, eio.brk, mem.flat, calls)
    {
      hide mem.TableOk, mem.PagesOk, mem.Agrees;
      this.isa, this.regs, this.mem, this.eio, this.icnt, this.calls := isa, regs, mem, eio, icnt, calls;
      new;
      RegsAside(mem, regs, regs.r);
      regs.npc := Wrap(regs.pc + INST_SIZE);
    }

    /** The bytes at these addresses, one after the other. */
    method Load(addrs: seq<nat>) returns (bs: seq<byte>)
      requires mem.Valid()
      modifies mem, mem.ptab, mem.nodes`next, mem.Pages()
      ensures mem.Valid() && mem.OnlyNewPages() && mem.flat == old(mem.flat) && bs == Bytes(mem.flat, addrs)
    {
      hide mem.TableOk, mem.PagesOk, mem.Agrees, Wrap;
      bs := [];
      for k := 0 to |addrs|
        invariant mem.Valid() && mem.OnlyNewPages() && mem.flat == old(mem.flat) && bs == Bytes(mem.flat, addrs[..k])
      {
        var val := mem.ReadByte(Wrap(addrs[k]));
        assert addrs[..k + 1] == addrs[..k] + [addrs[k]];
        bs := bs + [val];
      }
      assert addrs[..|addrs|] == addrs;
    }

    method Store(stores: seq<Touch>)
      requires mem.Valid() && forall k | 0 <= k < |stores| :: stores[k].addr < ADDR_SPACE
      modifies mem, mem.ptab, mem.nodes`next, mem.Pages()
      ensures mem.Valid() && mem.OnlyNewPages() && mem.flat == Applied(old(mem.flat), stores)
    {
      hide mem.TableOk, mem.PagesOk, mem.Agrees;
      for i := 0 to |stores|
        invariant mem.Valid() && mem.OnlyNewPages() && mem.flat == Applied(old(mem.flat), stores[..i])
      {
        assert stores[..i + 1][..i] == stores[..i];
        mem.WriteByte(stores[i].addr, stores[i].val);
      }
      assert stores[..|stores|] == stores;
    }

    /** Maintain the registers that read as zero. */
    method Clear()
      requires Valid()
      modifies regs`f, regs.r
      ensures Valid() && Registers() == Zeroed(old(Registers()))
      ensures regs.r[31] == 0 && |regs.f| == 32 && regs.f[31] == 0
      ensures forall i: nat | i < 31 :: regs.r[i] == old(regs.r[i]) && regs.f[i] == old(regs.f[i])
    {
      hide mem.TableOk, mem.PagesOk, mem.Agrees;
      RegsAside(mem, regs, regs.r);
      regs.r[MD_REG_ZERO] := 0;
      regs.f := regs.f[MD_REG_ZERO := 0];
    }

    /** The instruction at the program counter, and its data. */
    method Decode(c: Cpu) returns (o: Outcome)
      requires mem.Valid() && IsaOk(isa)
      modifies mem, mem.ptab, mem.nodes`next, mem.Pages()
      ensures mem.Valid() && mem.OnlyNewPages() && mem.flat == old(mem.flat)
      ensures o == Instruction(isa, c, mem.flat) && OutcomeOk(o)
    {
      hide mem.TableOk, mem.PagesOk, mem.Agrees, Bytes, Fetched;
      var inst := Load(Fetched(c));
      var data := Load(isa.loads(c, inst));
      o := isa.exec(c, inst, data);
    }

    /** The stores and the new registers of an instruction. */
    method Effect(o: Outcome)
      requires Valid() && OutcomeOk(o) && o.Goes?
      modifies regs, regs.r, mem, mem.ptab, mem.nodes`next, mem.Pages()
      ensures Valid() && mem.OnlyNewPages()
      ensures Registers() == Cpu(o.arch, o.uniq, old(regs.pc)) && mem.flat == Applied(old(mem.flat), o.stores)
    {
      hide mem.TableOk, mem.PagesOk, mem.Agrees, Applied;
      Store(o.stores);
      RegsAside(mem, regs, regs.r);
      regs.Set(o.arch);
      regs.uniq := o.uniq;
    }

    /** One turn of the loop, up to a system call. */
    method Execute() returns (o: Outcome)
      requires Valid() && IsaOk(isa)
      modifies this`icnt, regs, regs.r, mem, mem.ptab, mem.nodes`next, mem.Pages()
      ensures Valid() && mem.OnlyNewPages() && icnt == old(icnt) + 1
      ensures o == Instruction(isa, Zeroed(old(Registers())), old(mem.flat))
      ensures var c := Zeroed(old(Registers()));
              if o.Goes? then Registers() == Cpu(o.arch, o.uniq, c.pc) && mem.flat == Applied(old(mem.flat), o.stores)
              else Registers() == c && ReadsZero(old(Registers()), c) && mem.flat == old(mem.flat)
    {
      hide mem.TableOk, mem.PagesOk, mem.Agrees, Applied, ZeroRegs, Bytes, Fetched;
      ReadsZeroIs(Registers(), Zeroed(Registers()));
      Clear();
      icnt := icnt + 1;
      var c := Registers();
      o := Decode(c);
      if o.Goes? {
        Effect(o);
      }
    }

    /** On to the next instruction. */
    method GoOn()
      requires Valid()
      modifies regs`pc, regs`npc
      ensures Valid() && Registers() == Onward(old(regs.Now()), regs.uniq)
      ensures regs.pc == old(regs.npc) && regs.npc == Wrap(old(regs.npc) + 4)
    {
      hide mem.TableOk, mem.PagesOk, mem.Agrees;
      RegsAside(mem, regs, regs.r);
      regs.pc := regs.npc;
      regs.npc := Wrap(regs.npc + INST_SIZE);
    }
  }
}
