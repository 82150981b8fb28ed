/** A program whose replay dies: sigreturn() in the middle of a run loses the floating-point control
    register, the program moves it into an integer register, and the next call finds that register
    different from the one in its transaction. */
module Divergence {
  import opened Bits
  import opened Memory
  import opened Eio
  import opened Sigreturn
  import opened SimEio
  import opened Lockstep
  import opened Wrappers
  import Exo

  /** An instruction set of two instructions: with V0 zero, V0 becomes four more than the control
      register, and otherwise it is a system call. */
  function Moved(c: Cpu, inst: seq<byte>, data: seq<byte>): (o: Outcome)
    ensures OutcomeOk(o)
  {
    if !CpuOk(c) then Faults
    else if c.arch.r[0] == 0 then Goes([], c.arch.(r := c.arch.r[0 := Wrap(c.arch.fpcr + 4)]), c.uniq)
    else Traps
  }

  function NoData(c: Cpu, inst: seq<byte>): seq<nat> {
    []
  }

  function Moves(): Isa {
    Isa(NoData, Moved)
  }

  lemma MovesIsOk()
    ensures IsaOk(Moves())
  {
  }

  function Idle(): Arch {
    Arch(Cleared(), Cleared(), 0, 0)
  }

  /** sigreturn(), and a call that only clears its registers. */
  function TwoCalls(brk: nat): seq<Call> {
    [SigreturnCall(ONE_BYTE, Caller().r, brk), Call([], Idle(), brk)]
  }

  function Start(brk: nat): Machine {
    Machine(Cpu(Arch(Caller().r, Caller().f, 0, 4), 0, 0), 0, NO_CALL_YET, brk, ONE_BYTE, 0)
  }

  /** The registers in front of the second and the third instruction, with this in the control
      register. */
  function Returned(fpcr: nat): Cpu {
    Cpu(Arch(Cleared(), Cleared(), fpcr, 4), 0, 0)
  }

  function MovedTo(fpcr: nat): Cpu {
    Cpu(Arch(Cleared()[0 := fpcr + 4], Cleared(), fpcr, 8), 0, 4)
  }

  /** The accesses of sigreturn() are those of a host. */
  lemma SigreturnIsLawful(before: Arch, m: map<nat, byte>, brk: nat)
    requires |before.r| == NUM_IREGS && brk < ADDR_SPACE
    ensures Lawful(SigreturnCall(m, before.r, brk), before, m)
  {
    hide ContextAt, Words, Wrap;
    ContextFits(m, before.r[MD_REG_A0]);
    var ops := Loads(before.r[MD_REG_A0], CONTEXT_SIZE);
    forall i | 0 <= i < |ops| ensures AccessFault(ops[i].addr, Size(ops[i])).NoFault? {
      AccessPasses(ops[i].addr, 1);
    }
  }

  /** A machine of this program on one-byte memory. */
  function OnOneByte(c: Cpu, icnt: nat, transIcnt: nat, brk: nat, calls: nat): Machine {
    Machine(c, icnt, transIcnt, brk, ONE_BYTE, calls)
  }

  lemma NothingZeroed(brk: nat, fpcr: nat)
    requires fpcr <= 1
    ensures Zeroed(Start(brk).cpu) == Start(brk).cpu && CpuOk(Start(brk).cpu)
    ensures Zeroed(Returned(fpcr)) == Returned(fpcr) && CpuOk(Returned(fpcr))
    ensures Zeroed(MovedTo(fpcr)) == MovedTo(fpcr) && CpuOk(MovedTo(fpcr)) && MovedTo(fpcr).arch.r[0] == fpcr + 4
  {
    assert Cleared()[MD_REG_ZERO := 0] == Cleared();
    var r := Start(brk).cpu.arch.r;
    assert r[MD_REG_ZERO := 0] == r;
    var q := MovedTo(fpcr).arch.r;
    assert q[MD_REG_ZERO := 0] == q;
  }

  /** On the host sigreturn() sets the control register; on the trace the repair clears it. */
  lemma FirstStep(brk: nat, ts: seq<Term>)
    requires brk < ADDR_SPACE && ts != [] && Traces(ts[0], TwoCalls(brk)[0], Start(brk).cpu, 1, ONE_BYTE)
    ensures IsaOk(Moves())
    ensures Step(Moves(), Live(TwoCalls(brk)), Start(brk)) == Went(OnOneByte(Returned(1), 1, 1, brk, 1))
    ensures Step(Moves(), Trace(ts), Start(brk)) == Went(OnOneByte(Returned(0), 1, 1, brk, 1))
  {
    hide Traces, ContextAt, Replayed, Lawful, Loads, Applied, Outputs, Cleared, CpuOk, ZeroRegs;
    NothingZeroed(brk, 0);
    MovesIsOk();
    var c, call := Start(brk).cpu, TwoCalls(brk)[0];
    assert c.arch.r == Caller().r;
    CallsSigreturn();
    OneByteContext(0);
    OneByteContext(8);
    NothingWritten(ONE_BYTE, 8);
    SigreturnIsLawful(c.arch, ONE_BYTE, brk);
    SameItself(ONE_BYTE);
    CallReplays(ts[0], call, c, 1, ONE_BYTE, ONE_BYTE);
  }

  lemma CallsSigreturn()
    ensures Caller().r[0] == OSF_SYS_SIGRETURN && Caller().r[MD_REG_A0] == 8 && Cleared()[MD_REG_A0] == 0
    ensures |Cleared()| == 32 && Cleared()[0] == 0
  {
  }

  lemma SameItself(m: map<nat, byte>)
    ensures Same(m, m)
  {
  }

  /** The control register moves into V0. */
  lemma SecondStep(w: World, brk: nat, fpcr: nat)
    requires fpcr <= 1
    ensures IsaOk(Moves())
    ensures Step(Moves(), w, OnOneByte(Returned(fpcr), 1, 1, brk, 1)) == Went(OnOneByte(MovedTo(fpcr), 2, 1, brk, 1))
  {
    hide CpuOk, ZeroRegs;
    NothingZeroed(brk, fpcr);
    MovesIsOk();
  }

  lemma IsCall(c: Cpu, m: map<nat, byte>)
    requires CpuOk(c) && c.arch.r[0] != 0
    ensures Instruction(Moves(), c, m) == Traps
  {
  }

  lemma MovedToIs(fpcr: nat)
    requires fpcr <= 1
    ensures var c := MovedTo(fpcr);
            && Shaped(c) && CpuOk(c) && Zeroed(c) == c && c.pc == 4 && c.uniq == 0
            && c.arch.r[0] == fpcr + 4 && c.arch.r[MD_REG_A0] == 0
  {
    NothingZeroed(0, fpcr);
  }

  lemma IdleIsLawful(before: Arch, brk: nat)
    requires |before.r| == NUM_IREGS && before.r[0] == 5 && brk < ADDR_SPACE
    ensures Lawful(TwoCalls(brk)[1], before, ONE_BYTE)
  {
    hide Caller, SigreturnCall;
  }

  /** The next call finds another register there than its transaction has. */
  lemma ThirdAnswers(brk: nat, ts: seq<Term>)
    requires brk < ADDR_SPACE && |ts| > 1 && Traces(ts[1], TwoCalls(brk)[1], MovedTo(1), 3, ONE_BYTE)
    ensures Shaped(MovedTo(1)) && AnswerTo(Live(TwoCalls(brk)), 1, MovedTo(1), 3, ONE_BYTE).Answered?
    ensures Shaped(MovedTo(0)) && AnswerTo(Trace(ts), 1, MovedTo(0), 3, ONE_BYTE) == Fails
  {
    hide Traces, Replayed, Lawful, MovedTo, Applied, SigreturnCall, Caller;
    MovedToIs(0);
    MovedToIs(1);
    IdleIsLawful(MovedTo(1).arch, brk);
    var r, r' := MovedTo(1).arch.r, MovedTo(0).arch.r;
    assert r[..NUM_TRACED][0] != r'[..NUM_TRACED][0];
    MismatchIsFatal(ts[1], TwoCalls(brk)[1], MovedTo(1), 3, ONE_BYTE, MovedTo(0), ONE_BYTE);
  }

  lemma ThirdStep(brk: nat, ts: seq<Term>)
    requires brk < ADDR_SPACE && |ts| > 1 && Traces(ts[1], TwoCalls(brk)[1], MovedTo(1), 3, ONE_BYTE)
    ensures IsaOk(Moves()) && Shaped(MovedTo(1)) && Shaped(MovedTo(0))
    ensures var t := Step(Moves(), Live(TwoCalls(brk)), OnOneByte(MovedTo(1), 2, 1, brk, 1)); t.Went? && t.s.calls == 2
    ensures Step(Moves(), Trace(ts), OnOneByte(MovedTo(0), 2, 1, brk, 1)) == Died
  {
    hide Traces, AnswerTo, MovedTo, Instruction, Zeroed, CpuOk, TwoCalls;
    MovesIsOk();
    MovedToIs(0);
    MovedToIs(1);
    IsCall(MovedTo(0), ONE_BYTE);
    IsCall(MovedTo(1), ONE_BYTE);
    ThirdAnswers(brk, ts);
  }


  lemma RunNext(isa: Isa, w: World, s: Machine, n: nat)
    requires IsaOk(isa) && Shaped(s.cpu) && n > 0 && Run(isa, w, s, n - 1).Went?
    ensures Run(isa, w, s, n) == Step(isa, w, Run(isa, w, s, n - 1).s)
  {
  }

  /** The transactions of the two calls. */
  ghost predicate Recorded(brk: nat, ts: seq<Term>) {
    && brk < ADDR_SPACE && |ts| == 2
    && Traces(ts[0], TwoCalls(brk)[0], Start(brk).cpu, 1, ONE_BYTE)
    && Traces(ts[1], TwoCalls(brk)[1], MovedTo(1), 3, ONE_BYTE)
  }

  lemma BothRuns(brk: nat, ts: seq<Term>)
    requires Recorded(brk, ts)
    ensures IsaOk(Moves()) && Shaped(Start(brk).cpu)
    ensures var isa, s, live := Moves(), Start(brk), Live(TwoCalls(brk));
            && Run(isa, live, s, 0) == Went(s) && Run(isa, live, s, 1) == Went(OnOneByte(Returned(1), 1, 1, brk, 1))
            && Run(isa, live, s, 2) == Went(OnOneByte(MovedTo(1), 2, 1, brk, 1))
            && Run(isa, live, s, 3).Went? && Run(isa, live, s, 3).s.calls == 2
    ensures var isa, s, w := Moves(), Start(brk), Trace(ts);
            Run(isa, w, s, 2) == Went(OnOneByte(MovedTo(0), 2, 1, brk, 1)) && Run(isa, w, s, 3) == Died
  {
    hide Step, Traces, TwoCalls, MovedTo, Returned;
    var isa, s, live, w := Moves(), Start(brk), Live(TwoCalls(brk)), Trace(ts);
    FirstStep(brk, ts);
    SecondStep(live, brk, 1);
    SecondStep(w, brk, 0);
    ThirdStep(brk, ts);
    RunNext(isa, live, s, 1);
    RunNext(isa, live, s, 2);
    RunNext(isa, live, s, 3);
    RunNext(isa, w, s, 1);
    RunNext(isa, w, s, 2);
    RunNext(isa, w, s, 3);
  }

  lemma AllTraced(brk: nat, ts: seq<Term>)
    requires Recorded(brk, ts)
    ensures Runs(Moves(), TwoCalls(brk), Start(brk), 3) && TraceOf(Moves(), TwoCalls(brk), Start(brk), 3, ts)
  {
    hide Run, Traces, TwoCalls, CpuOk, ZeroRegs;
    BothRuns(brk, ts);
    NothingZeroed(brk, 1);
    var isa, calls, s := Moves(), TwoCalls(brk), Start(brk);
    assert |calls| == 2 by { CallsAreTwo(brk); }
    forall i | 0 <= i <= 3 ensures Run(isa, Live(calls), s, i).Went? {
      assert i == 0 || i == 1 || i == 2 || i == 3;
    }
    forall i | 0 <= i < 3 ensures TracedAt(isa, calls, ts, At(isa, calls, s, i)) {
      assert i == 0 || i == 1 || i == 2;
    }
  }

  lemma CallsAreTwo(brk: nat)
    ensures |TwoCalls(brk)| == 2
  {
  }

  /** This run loses something at its first call, and the replay of any trace of it dies at its
      second. */
  lemma AnyTraceDies(brk: nat, ts: seq<Term>)
    requires Recorded(brk, ts)
    ensures Runs(Moves(), TwoCalls(brk), Start(brk), 3) && TraceOf(Moves(), TwoCalls(brk), Start(brk), 3, ts)
    ensures !Lossless(Moves(), TwoCalls(brk), Start(brk), 3)
    ensures Run(Moves(), Trace(ts), Start(brk), 2).Went? && Run(Moves(), Trace(ts), Start(brk), 3) == Died
  {
    hide Step, Traces, Run, TraceOf, TwoCalls, Recorded, Lossless, Alike;
    AllTraced(brk, ts);
    BothRuns(brk, ts);
    RecordedTwo(brk, ts);
    var isa, calls, s := Moves(), TwoCalls(brk), Start(brk);
    if Lossless(isa, calls, s, 3) {
      AlikeItself(s);
      ReplayEnds(isa, calls, ts, ts, s, s, 3, 3);
      assert false;
    }
  }

  lemma RecordedTwo(brk: nat, ts: seq<Term>)
    requires Recorded(brk, ts)
    ensures |ts| == 2
  {
  }

  /** A transaction of a call that stores nothing. */
  lemma MakeTrace(call: Call, c: Cpu, icnt: nat, m: map<nat, byte>, ins: seq<Term>) returns (t: Term)
    requires CpuOk(c) && ArchOk(call.after) && call.brk < ADDR_SPACE && icnt < ADDR_SPACE
    requires AllRecs(ins) && AllRegular(ins) && NoEmpty(ins)
    requires Flatten(ins) == Inputs(m, call.ops) && Outputs(call.ops) == []
    ensures Traces(t, call, c, icnt, m) && !Exo.HasEmptyBlob(t)
  {
    hide Inputs, Outputs, Exo.HasEmptyBlob, Exo.Regular, RegTerms;
    t := Transaction(icnt, c.pc, c.arch.r[..NUM_TRACED], ins, call.brk, call.after.r[..NUM_TRACED], []);
    TransactionIs(icnt, c.pc, c.arch.r[..NUM_TRACED], ins, call.brk, call.after.r[..NUM_TRACED], []);
  }

  /** Such a trace, with no empty blob. */
  lemma TheTrace(brk: nat) returns (ts: seq<Term>)
    requires brk < ADDR_SPACE
    ensures Recorded(brk, ts) && !Exo.SomeEmptyBlob(ts)
  {
    hide Inputs, Outputs, FlatRead, Traces, Exo.HasEmptyBlob, Touches, ContextAt, CpuOk, Words, Loads, Cleared;
    var calls, data := TwoCalls(brk), FlatRead(ONE_BYTE, 8, CONTEXT_SIZE);
    NothingZeroed(brk, 1);
    CallsSigreturn();
    LoadsInputs(ONE_BYTE, 8, CONTEXT_SIZE);
    ContextFits(ONE_BYTE, 8);
    IdleIsLawful(MovedTo(1).arch, brk);
    FlattenOne([], 8, data);
    assert [] + [MakeRec(8, data)] == [MakeRec(8, data)];
    NothingRead(ONE_BYTE);
    var a := MakeTrace(calls[0], Start(brk).cpu, 1, ONE_BYTE, [MakeRec(8, data)]);
    var b := MakeTrace(calls[1], MovedTo(1), 3, ONE_BYTE, []);
    ts := [a, b];
  }

  /** There is a run of three instructions that loses something at its first call, with a trace that
      can be read, whose replay from the same state dies at the second. */
  lemma LossIsFatal(brk: nat) returns (isa: Isa, calls: seq<Call>, s: Machine, ts: seq<Term>)
    requires brk < ADDR_SPACE
    ensures Runs(isa, calls, s, 3) && TraceOf(isa, calls, s, 3, ts) && Legible(ts) == ts && s.calls == 0
    ensures !Lossless(isa, calls, s, 3) && Run(isa, Trace(ts), s, 2).Went? && Run(isa, Trace(ts), s, 3) == Died
  {
    hide Run, Runs, TraceOf, Lossless, Legible, Exo.SomeEmptyBlob, Recorded, TwoCalls;
    ts := TheTrace(brk);
    AllLegible(ts);
    AnyTraceDies(brk, ts);
    isa, calls, s := Moves(), TwoCalls(brk), Start(brk);
  }

  lemma NothingRead(m: map<nat, byte>)
    ensures Inputs(m, []) == [] && Outputs([]) == []
  {
  }
}
