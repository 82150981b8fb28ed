/** A run on a live host, and the replay of its trace: how long the two machines stay in the same
    state. */
module Lockstep {
  import opened Bits
  import opened Memory
  import opened Eio
  import opened Sigreturn
  import opened SimEio
  import opened Wrappers
  import Exo

  // ---------- the trace of a run ----------

  /** The term is the transaction of a call. */
  ghost predicate Traces(t: Term, call: Call, c: Cpu, icnt: nat, m: map<nat, byte>)
    requires Shaped(c)
  {
    && IsTransaction(t) && |call.after.r| == NUM_IREGS
    && var inMem, outMem := t.elts[3].elts, t.elts[5].elts;
       && t == Transaction(icnt, c.pc, c.arch.r[..NUM_TRACED], inMem,
                           call.brk, call.after.r[..NUM_TRACED], outMem)
       && AllRecs(inMem) && AllRegular(inMem) && Flatten(inMem) == Inputs(m, call.ops)
       && AllRecs(outMem) && AllRegular(outMem) && Flatten(outMem) == Outputs(call.ops)
       && (NoneEmpty(call.ops) ==> NoEmpty(inMem) && NoEmpty(outMem))
  }

  /** The instruction of this state is a system call. */
  predicate CallAt(isa: Isa, s: Machine)
    requires Shaped(s.cpu)
  {
    Instruction(isa, Zeroed(s.cpu), s.mem).Traps?
  }

  ghost predicate TracedAt(isa: Isa, calls: seq<Call>, ts: seq<Term>, s: Machine)
    requires Shaped(s.cpu)
  {
    CallAt(isa, s) ==>
      s.calls < |ts| && s.calls < |calls| &&
      Traces(ts[s.calls], calls[s.calls], Zeroed(s.cpu), s.icnt + 1, s.mem)
  }

  /** The state of a run after i instructions. */
  ghost function At(isa: Isa, calls: seq<Call>, s: Machine, i: nat): (x: Machine)
    requires IsaOk(isa) && Shaped(s.cpu) && Run(isa, Live(calls), s, i).Went?
    ensures Shaped(x.cpu)
  {
    Run(isa, Live(calls), s, i).s
  }

  /** A run of n instructions on a host that answers its system calls with these. */
  ghost predicate Runs(isa: Isa, calls: seq<Call>, s: Machine, n: nat) {
    && IsaOk(isa) && Shaped(s.cpu)
    && forall i | 0 <= i <= n :: Run(isa, Live(calls), s, i).Went?
  }

  /** The terms are the transactions of its calls, in order. */
  ghost predicate TraceOf(isa: Isa, calls: seq<Call>, s: Machine, n: nat, ts: seq<Term>)
    requires Runs(isa, calls, s, n)
  {
    && |ts| == At(isa, calls, s, n).calls
    && forall i | 0 <= i < n :: TracedAt(isa, calls, ts, At(isa, calls, s, i))
  }

  // ---------- what a replay leaves of a call ----------

  /** The registers that a replay of a call leaves are those behind the call, as far as the next
      instruction can see. */
  predicate Restores(before: Arch, call: Call, m: map<nat, byte>)
    requires |before.r| == NUM_IREGS && |before.f| == NUM_FREGS
  {
    && |call.after.r| == NUM_IREGS && |call.after.f| == NUM_FREGS
    && var r := call.after.r[..NUM_TRACED] + before.r[NUM_TRACED..];
       ZeroRegs(AfterSyscall(before, r, Applied(m, Outputs(call.ops)))) == ZeroRegs(call.after)
  }

  /** That is so of sigreturn() if and only if the signal context at the place that A0 of the
      context names is the same, and of another call if and only if it leaves alone what a
      transaction does not hold. */
  lemma RestoresIs(before: Arch, call: Call, m: map<nat, byte>)
    requires |before.r| == NUM_IREGS && |before.f| == NUM_FREGS && Lawful(call, before, m)
    ensures Restores(before, call, m) <==>
            if Syscode(before.r[0], before.r[MD_REG_A0]) == OSF_SYS_SIGRETURN
            then ZeroRegs(ContextAt(m, call.after.r[MD_REG_A0])) == ZeroRegs(ContextAt(m, before.r[MD_REG_A0]))
            else UntracedSame(ZeroRegs(before), ZeroRegs(call.after))
  {
    hide Applied, Outputs, ContextAt, ZeroRegs, UntracedSame, Words, ReadsFirst, AllPass, Possible;
    if Syscode(before.r[0], before.r[MD_REG_A0]) == OSF_SYS_SIGRETURN {
      NothingWritten(m, before.r[MD_REG_A0]);
      assert call.after == ContextAt(m, before.r[MD_REG_A0]);
    } else {
      TracedAndUntraced(before, call.after);
    }
  }

  lemma NothingWritten(m: map<nat, byte>, addr: nat)
    ensures Applied(m, Outputs(Loads(addr, CONTEXT_SIZE))) == m
  {
    hide Inputs, Outputs, Loads, Touches, FlatRead;
    LoadsInputs(m, addr, CONTEXT_SIZE);
  }

  lemma TracedAndUntraced(a: Arch, b: Arch)
    requires |a.r| == |b.r| == NUM_IREGS && |a.f| == |b.f| == NUM_FREGS
    ensures ZeroRegs(AfterReplay(a, b.r[..NUM_TRACED] + a.r[NUM_TRACED..])) == ZeroRegs(b) <==>
            UntracedSame(ZeroRegs(a), ZeroRegs(b))
  {
    var za, zb := ZeroRegs(a), ZeroRegs(b);
    var z := ZeroRegs(AfterReplay(a, b.r[..NUM_TRACED] + a.r[NUM_TRACED..]));
    assert z.r == zb.r[..NUM_TRACED] + za.r[NUM_TRACED..];
    assert zb.r == zb.r[..NUM_TRACED] + zb.r[NUM_TRACED..];
    assert z.r[NUM_TRACED..] == za.r[NUM_TRACED..];
  }

  // ---------- one instruction ----------

  /** A transaction, replayed on a machine in the same state. */
  lemma CallReplays(t: Term, call: Call, c: Cpu, icnt: nat, m: map<nat, byte>, m': map<nat, byte>)
    requires Shaped(c) && Same(m, m') && Traces(t, call, c, icnt, m) && c.arch.r[0] != OSF_SYS_EXIT
    ensures Replayed(Some(t), icnt, c.pc, c.arch.r, m') ==
            Done(call.brk, call.after.r[..NUM_TRACED] + c.arch.r[NUM_TRACED..], Applied(m', Outputs(call.ops)))
    ensures Same(Applied(m, Outputs(call.ops)), Applied(m', Outputs(call.ops)))
  {
    hide Replayed, Flatten, Inputs, Outputs, Applied, Same, Transaction, AllRecs;
    ReplayUndoesRecording(icnt, c.pc, c.arch.r, m, m', call, t.elts[3].elts, t.elts[5].elts);
  }

  /** The answers of the host and of the trace to the next call. */
  lemma SameCall(calls: seq<Call>, ts: seq<Term>, k: nat, c: Cpu, icnt: nat, m: map<nat, byte>, m': map<nat, byte>)
    requires Shaped(c) && Same(m, m') && AnswerTo(Live(calls), k, c, icnt, m).Answered?
    requires k < |ts| ==> Traces(ts[k], calls[k], c, icnt, m)
    ensures k < |calls|
    ensures var a, b := AnswerTo(Live(calls), k, c, icnt, m), AnswerTo(Trace(ts), k, c, icnt, m');
            if k < |ts| then
              && b.Answered? && a.brk == b.brk && Same(a.mem, b.mem)
              && (Restores(c.arch, calls[k], m) <==> ZeroRegs(b.arch) == ZeroRegs(a.arch))
            else b == Fails
  {
    hide Same, ContextAt, Applied, AllPass, Possible, ReadsFirst, Traces;
    if k < |ts| {
      hide Replayed;
      var call := calls[k];
      CallReplays(ts[k], call, c, icnt, m, m');
      var r := call.after.r[..NUM_TRACED] + c.arch.r[NUM_TRACED..];
      SameContext(Applied(m, Outputs(call.ops)), Applied(m', Outputs(call.ops)), r[MD_REG_A0]);
    }
  }

  /** A call that finds another value in a traced register than its transaction has, or another
      program counter, is not replayed. */
  lemma MismatchIsFatal(t: Term, call: Call, c: Cpu, icnt: nat, m: map<nat, byte>, c': Cpu, m': map<nat, byte>)
    requires Shaped(c) && Shaped(c') && Traces(t, call, c, icnt, m) && c'.arch.r[0] != OSF_SYS_EXIT
    requires c'.pc != c.pc || c'.arch.r[..NUM_TRACED] != c.arch.r[..NUM_TRACED]
    ensures Replayed(Some(t), icnt, c'.pc, c'.arch.r, m') == Fatal
  {
    hide InputsMatch, Applied, NewRegs, Flatten, Inputs, Outputs, AllRecs, AllRegular, NoEmpty, NoneEmpty;
    var list, r, r' := t.elts[2].elts, c.arch.r[..NUM_TRACED], c'.arch.r[..NUM_TRACED];
    assert list == RegTerms(r);
    if RegsMatch(list, c'.arch.r) {
      forall i | 0 <= i < NUM_TRACED ensures r[i] == r'[i] {
        assert list[i].val == c'.arch.r[i];
      }
      assert r == r';
    }
  }

  lemma OnwardAlike(a: Arch, b: Arch, uniq: nat)
    requires |a.r| == |b.r| == NUM_IREGS && |a.f| == |b.f| == NUM_FREGS
    ensures Zeroed(Onward(a, uniq)) == Zeroed(Onward(b, uniq)) <==> ZeroRegs(a) == ZeroRegs(b)
  {
    hide Wrap;
  }

  /** Nothing is lost at this instruction: it is no call, or the trace has its transaction, and
      the replay leaves its registers. */
  ghost predicate KeptAt(isa: Isa, calls: seq<Call>, ts: seq<Term>, s: Machine)
    requires Shaped(s.cpu)
  {
    CallAt(isa, s) ==>
      s.calls < |ts| && s.calls < |calls| && Restores(Zeroed(s.cpu).arch, calls[s.calls], s.mem)
  }

  /** Machines in the same state are in the same state behind the next instruction if and only
      if nothing is lost at it; without a transaction for it the replay dies. */
  lemma NextInStep(isa: Isa, calls: seq<Call>, ts: seq<Term>, s: Machine, t: Machine)
    requires IsaOk(isa) && Alike(s, t) && Step(isa, Live(calls), s).Went?
    requires s.calls < |ts| ==> TracedAt(isa, calls, ts, s)
    ensures AlikeTurns(Step(isa, Live(calls), s), Step(isa, Trace(ts), t)) <==> KeptAt(isa, calls, ts, s)
    ensures CallAt(isa, s) && s.calls >= |ts| ==> Step(isa, Trace(ts), t) == Died
    ensures Step(isa, Live(calls), s).s.calls == s.calls + if CallAt(isa, s) then 1 else 0
  {
    hide Same, AnswerTo, Applied, Instruction, Onward, ZeroRegs, Traces, Restores;
    var c := Zeroed(s.cpu);
    SameInstruction(isa, c, s.mem, t.mem);
    var o := Instruction(isa, c, s.mem);
    if o.Goes? {
      AppliedSame(s.mem, t.mem, o.stores);
    } else {
      SameCall(calls, ts, s.calls, c, s.icnt + 1, s.mem, t.mem);
      var a := AnswerTo(Live(calls), s.calls, c, s.icnt + 1, s.mem);
      var b := AnswerTo(Trace(ts), t.calls, c, t.icnt + 1, t.mem);
      if b.Answered? {
        OnwardAlike(a.arch, b.arch, c.uniq);
      }
    }
  }

  // ---------- whole runs ----------

  /** After i instructions the machines are in the same state. */
  ghost predicate InStep(isa: Isa, calls: seq<Call>, ts: seq<Term>, s: Machine, t: Machine, i: nat)
    requires IsaOk(isa) && Shaped(s.cpu) && Shaped(t.cpu)
  {
    AlikeTurns(Run(isa, Live(calls), s, i), Run(isa, Trace(ts), t, i))
  }

  /** One more instruction of a run whose transactions, the first |some| of them, are these. */
  lemma OneMoreInStep(isa: Isa, calls: seq<Call>, ts: seq<Term>, some: seq<Term>, s: Machine, t: Machine,
                      n: nat, i: nat)
    requires Runs(isa, calls, s, n) && TraceOf(isa, calls, s, n, ts) && Shaped(t.cpu) && some <= ts && i < n
    requires InStep(isa, calls, some, s, t, i)
    ensures InStep(isa, calls, some, s, t, i + 1) <==> KeptAt(isa, calls, some, At(isa, calls, s, i))
    ensures var x := At(isa, calls, s, i);
            && (CallAt(isa, x) && x.calls >= |some| ==> Run(isa, Trace(some), t, i + 1) == Died)
            && At(isa, calls, s, i + 1).calls == x.calls + if CallAt(isa, x) then 1 else 0
  {
    hide Step, Zeroed, Same, KeptAt, Traces, CallAt;
    var x, y := Run(isa, Live(calls), s, i), Run(isa, Trace(some), t, i);
    assert Run(isa, Live(calls), s, i + 1) == Step(isa, Live(calls), x.s);
    assert TracedAt(isa, calls, ts, At(isa, calls, s, i));
    NextInStep(isa, calls, some, x.s, y.s);
  }

  /** The replay of a run stays in the same state at every instruction if and only if nothing is
      lost at any. */
  lemma {:induction false} Lockstep(isa: Isa, calls: seq<Call>, ts: seq<Term>, some: seq<Term>, s: Machine, t: Machine,
                                    n: nat, i: nat)
    requires Runs(isa, calls, s, n) && TraceOf(isa, calls, s, n, ts) && some <= ts && i <= n
    requires Shaped(t.cpu) && Alike(s, t)
    ensures (forall j | 0 <= j <= i :: InStep(isa, calls, some, s, t, j)) <==>
            (forall j | 0 <= j < i :: KeptAt(isa, calls, some, At(isa, calls, s, j)))
    decreases i
  {
    hide KeptAt, TraceOf, InStep, Run, At, Alike;
    if i == 0 {
      StartsInStep(isa, calls, some, s, t);
    } else {
      Lockstep(isa, calls, ts, some, s, t, n, i - 1);
      if forall j | 0 <= j <= i - 1 :: InStep(isa, calls, some, s, t, j) {
        OneMoreInStep(isa, calls, ts, some, s, t, n, i - 1);
      }
    }
  }

  lemma StartsInStep(isa: Isa, calls: seq<Call>, ts: seq<Term>, s: Machine, t: Machine)
    requires IsaOk(isa) && Alike(s, t)
    ensures InStep(isa, calls, ts, s, t, 0)
  {
    hide Zeroed, Same;
  }

  /** The replay of every call of a run leaves the right registers. */
  ghost predicate Lossless(isa: Isa, calls: seq<Call>, s: Machine, n: nat)
    requires Runs(isa, calls, s, n)
  {
    forall i | 0 <= i < n :: LosslessAt(isa, calls, At(isa, calls, s, i))
  }

  ghost predicate LosslessAt(isa: Isa, calls: seq<Call>, x: Machine)
    requires Shaped(x.cpu)
  {
    CallAt(isa, x) ==> x.calls < |calls| && Restores(Zeroed(x.cpu).arch, calls[x.calls], x.mem)
  }

  /** The replay is in the same state after i instructions, or else has died, when there were not
      as many transactions as calls. */
  ghost predicate EndsAt(isa: Isa, calls: seq<Call>, ts: seq<Term>, s: Machine, t: Machine, i: nat)
    requires Runs(isa, calls, s, i) && Shaped(t.cpu)
  {
    if At(isa, calls, s, i).calls <= |ts| then InStep(isa, calls, ts, s, t, i) else Run(isa, Trace(ts), t, i) == Died
  }

  lemma CallsGrow(isa: Isa, calls: seq<Call>, s: Machine, i: nat)
    requires Runs(isa, calls, s, i + 1)
    ensures var x := At(isa, calls, s, i);
            At(isa, calls, s, i + 1).calls == x.calls + if CallAt(isa, x) then 1 else 0
  {
    hide AnswerTo, Instruction, ZeroRegs, Applied;
    assert Run(isa, Live(calls), s, i + 1) == Step(isa, Live(calls), Run(isa, Live(calls), s, i).s);
  }

  lemma NextEnds(isa: Isa, calls: seq<Call>, ts: seq<Term>, some: seq<Term>, s: Machine, t: Machine, n: nat, i: nat)
    requires Runs(isa, calls, s, n) && TraceOf(isa, calls, s, n, ts) && Shaped(t.cpu) && some <= ts && i < n
    requires LosslessAt(isa, calls, At(isa, calls, s, i)) && EndsAt(isa, calls, some, s, t, i)
    ensures EndsAt(isa, calls, some, s, t, i + 1)
  {
    CallsGrow(isa, calls, s, i);
    hide Restores, CallAt, TraceOf, InStep, At;
    if At(isa, calls, s, i).calls <= |some| {
      hide Run;
      OneMoreInStep(isa, calls, ts, some, s, t, n, i);
    }
  }

  /** If nothing is lost of any call, the replay ends in the same state, if and only if there are
      as many transactions as calls. */
  lemma {:induction false} ReplayEnds(isa: Isa, calls: seq<Call>, ts: seq<Term>, some: seq<Term>, s: Machine,
                                      t: Machine, n: nat, i: nat)
    requires Runs(isa, calls, s, n) && TraceOf(isa, calls, s, n, ts) && some <= ts && i <= n
    requires Shaped(t.cpu) && Alike(s, t) && Lossless(isa, calls, s, n) && s.calls <= |some|
    ensures EndsAt(isa, calls, some, s, t, i)
    decreases i
  {
    hide LosslessAt, TraceOf, Alike, EndsAt, Run, At;
    if i == 0 {
      EndsAtStart(isa, calls, some, s, t);
    } else {
      ReplayEnds(isa, calls, ts, some, s, t, n, i - 1);
      assert LosslessAt(isa, calls, At(isa, calls, s, i - 1));
      NextEnds(isa, calls, ts, some, s, t, n, i - 1);
    }
  }

  lemma EndsAtStart(isa: Isa, calls: seq<Call>, ts: seq<Term>, s: Machine, t: Machine)
    requires IsaOk(isa) && Alike(s, t) && s.calls <= |ts|
    ensures Runs(isa, calls, s, 0) && InStep(isa, calls, ts, s, t, 0) && EndsAt(isa, calls, ts, s, t, 0)
  {
    StartsInStep(isa, calls, ts, s, t);
    assert Run(isa, Live(calls), s, 0).Went?;
  }

  // ---------- runs on the host of this repository ----------

  predicate IsSigreturn(before: Arch)
    requires |before.r| == NUM_IREGS
  {
    Syscode(before.r[0], before.r[MD_REG_A0]) == OSF_SYS_SIGRETURN
  }

  /** No call but sigreturn() touches what a transaction does not hold. */
  ghost predicate OthersLeaveAlone(isa: Isa, calls: seq<Call>, x: Machine)
    requires Shaped(x.cpu)
  {
    var before := Zeroed(x.cpu).arch;
    CallAt(isa, x) && !IsSigreturn(before) && x.calls < |calls| ==>
      UntracedSame(before, calls[x.calls].after)
  }

  lemma ZeroRegsSame(a: Arch, b: Arch)
    requires |a.r| == |b.r| == NUM_IREGS && |a.f| == |b.f| == NUM_FREGS && UntracedSame(a, b)
    ensures UntracedSame(ZeroRegs(a), ZeroRegs(b))
  {
    var i := MD_REG_ZERO - NUM_TRACED;
    assert ZeroRegs(a).r[NUM_TRACED..] == a.r[NUM_TRACED..][i := 0];
    assert ZeroRegs(b).r[NUM_TRACED..] == b.r[NUM_TRACED..][i := 0];
  }

  /** The context of a sigreturn() is also at the place that its A0 names. */
  ghost predicate ContextAgain(isa: Isa, x: Machine)
    requires Shaped(x.cpu)
  {
    var before := Zeroed(x.cpu).arch;
    CallAt(isa, x) && IsSigreturn(before) ==>
      var own := ContextAt(x.mem, before.r[MD_REG_A0]);
      ZeroRegs(ContextAt(x.mem, own.r[MD_REG_A0])) == ZeroRegs(own)
  }

  lemma AfterIsShaped(call: Call, before: Arch, m: map<nat, byte>)
    requires |before.r| == NUM_IREGS && Lawful(call, before, m)
    ensures |call.after.r| == NUM_IREGS && |call.after.f| == NUM_FREGS
  {
    hide SigreturnCall;
  }

  lemma SigreturnDecidesAt(isa: Isa, calls: seq<Call>, x: Machine)
    requires IsaOk(isa) && Shaped(x.cpu) && Step(isa, Live(calls), x).Went? && OthersLeaveAlone(isa, calls, x)
    ensures LosslessAt(isa, calls, x) <==> ContextAgain(isa, x)
  {
    hide ContextAt, ZeroRegs, Step, UntracedSame, Restores, AllPass, Possible, ArchOk;
    if CallAt(isa, x) {
      LiveCall(isa, calls, x);
      AfterIsShaped(calls[x.calls], Zeroed(x.cpu).arch, x.mem);
      if !IsSigreturn(Zeroed(x.cpu).arch) {
        ZeroRegsSame(Zeroed(x.cpu).arch, calls[x.calls].after);
      }
      RestoresIs(Zeroed(x.cpu).arch, calls[x.calls], x.mem);
    }
  }

  /** On such a host nothing is lost of a run if and only if the context of every sigreturn() is
      also at the place that its A0 names; in particular nothing is lost without sigreturn(). */
  lemma SigreturnDecides(isa: Isa, calls: seq<Call>, s: Machine, n: nat)
    requires Runs(isa, calls, s, n)
    requires forall i | 0 <= i < n :: OthersLeaveAlone(isa, calls, At(isa, calls, s, i))
    ensures Lossless(isa, calls, s, n) <==> forall i | 0 <= i < n :: ContextAgain(isa, At(isa, calls, s, i))
  {
    hide Step, OthersLeaveAlone, ContextAgain, LosslessAt;
    forall i | 0 <= i < n
      ensures LosslessAt(isa, calls, At(isa, calls, s, i)) <==> ContextAgain(isa, At(isa, calls, s, i))
    {
      assert Run(isa, Live(calls), s, i + 1) == Step(isa, Live(calls), At(isa, calls, s, i));
      SigreturnDecidesAt(isa, calls, At(isa, calls, s, i));
    }
  }

  // ---------- exit() ----------

  /** exit() ends a run without a transaction. Behind the same calls the replay exits, too, if and
      only if exit() was called by its own number and not through syscall(). */
  lemma ExitReplays(isa: Isa, calls: seq<Call>, ts: seq<Term>, s: Machine, t: Machine)
    requires IsaOk(isa) && Alike(s, t) && s.calls == |ts|
    requires Step(isa, Live(calls), s) == Exited
    ensures Step(isa, Trace(ts), t) == if s.cpu.arch.r[0] == OSF_SYS_EXIT then Exited else Died
  {
    hide Same, Instruction, Lawful;
    SameInstruction(isa, Zeroed(s.cpu), s.mem, t.mem);
    assert Zeroed(s.cpu).arch.r[0] == s.cpu.arch.r[0];
  }

  /** An instruction that faults, or a call that the recording does not survive, has no transaction;
      the replay dies there, too. */
  lemma DeathReplays(isa: Isa, calls: seq<Call>, ts: seq<Term>, s: Machine, t: Machine)
    requires IsaOk(isa) && Alike(s, t) && s.calls == |ts|
    requires Step(isa, Live(calls), s) == Died
    ensures Step(isa, Trace(ts), t) == Died
  {
    hide Same, Instruction, Lawful, Applied;
    SameInstruction(isa, Zeroed(s.cpu), s.mem, t.mem);
  }

  // ---------- the terms of a trace ----------

  predicate HasCount(t: Term) {
    t.List? && t.elts != [] && t.elts[0].Integer?
  }

  /** The term can be printed, and has a count below the one that stands for none. */
  predicate Counted(t: Term) {
    HasCount(t) && t.elts[0].val < NO_CALL_YET && Exo.Regular(t)
  }

  predicate AllCounted(ts: seq<Term>) {
    forall k | 0 <= k < |ts| :: Counted(ts[k])
  }

  /** A transaction has an empty blob only if its call makes an empty access. */
  lemma TransactionOf(t: Term, call: Call, c: Cpu, icnt: nat, m: map<nat, byte>)
    requires CpuOk(c) && Lawful(call, c.arch, m) && Traces(t, call, c, icnt, m) && icnt < NO_CALL_YET
    ensures Counted(t) && (NoneEmpty(call.ops) ==> !Exo.HasEmptyBlob(t))
  {
    hide Exo.Regular, Exo.HasEmptyBlob, Flatten, Inputs, Outputs, NoEmpty, NoneEmpty, AllPass, Possible, ReadsFirst;
    hide SigreturnCall;
    var inMem, outMem := t.elts[3].elts, t.elts[5].elts;
    var ins, outs := c.arch.r[..NUM_TRACED], call.after.r[..NUM_TRACED];
    TransactionIs(icnt, c.pc, ins, inMem, call.brk, outs, outMem);
  }

  lemma LiveCall(isa: Isa, calls: seq<Call>, x: Machine)
    requires IsaOk(isa) && Shaped(x.cpu) && CallAt(isa, x) && Step(isa, Live(calls), x).Went?
    ensures x.calls < |calls| && Lawful(calls[x.calls], Zeroed(x.cpu).arch, x.mem)
  {
    hide Lawful, Instruction, Applied, ZeroRegs;
  }

  lemma FewerRun(isa: Isa, calls: seq<Call>, s: Machine, n: nat)
    requires Runs(isa, calls, s, n)
    ensures IsaOk(isa) && Shaped(s.cpu) && Runs(isa, calls, s, 0) && At(isa, calls, s, 0) == s
    ensures n > 0 ==> Runs(isa, calls, s, n - 1)
  {
    hide Step;
  }

  /** The instruction that makes call k of a run. */
  lemma {:induction false} WhichCall(isa: Isa, calls: seq<Call>, s: Machine, n: nat, k: nat) returns (i: nat)
    requires Runs(isa, calls, s, n) && s.calls <= k < At(isa, calls, s, n).calls
    ensures i < n && CallAt(isa, At(isa, calls, s, i)) && At(isa, calls, s, i).calls == k
  {
    hide CallAt, Run, At;
    FewerRun(isa, calls, s, n);
    if n > 0 {
      CallsGrow(isa, calls, s, n - 1);
      i := n - 1;
      if At(isa, calls, s, n - 1).calls > k {
        i := WhichCall(isa, calls, s, n - 1, k);
      }
    }
  }

  /** Term k of the trace of a run. */
  lemma TermOf(isa: Isa, calls: seq<Call>, s: Machine, n: nat, ts: seq<Term>, k: nat)
    requires Runs(isa, calls, s, n) && TraceOf(isa, calls, s, n, ts) && k < |ts|
    requires Sound(s) && s.calls == 0 && s.icnt + n < NO_CALL_YET
    ensures Counted(ts[k]) && k < |calls| && (NoneEmpty(calls[k].ops) ==> !Exo.HasEmptyBlob(ts[k]))
  {
    hide Step, Lawful, Traces, Counted, CallAt, NoneEmpty, Exo.HasEmptyBlob, CpuOk, Wrap;
    var i := WhichCall(isa, calls, s, n, k);
    var x := At(isa, calls, s, i);
    assert Run(isa, Live(calls), s, i + 1) == Step(isa, Live(calls), x);
    assert TracedAt(isa, calls, ts, x);
    RunKeeps(isa, Live(calls), s, i);
    LiveCall(isa, calls, x);
    ZeroedFits(x.cpu);
    TransactionOf(ts[k], calls[k], Zeroed(x.cpu), x.icnt + 1, x.mem);
  }

  /** The trace of a run can be printed, and no transaction has an empty blob unless a call made
      an empty access. */
  lemma TraceIs(isa: Isa, calls: seq<Call>, s: Machine, n: nat, ts: seq<Term>)
    requires Runs(isa, calls, s, n) && TraceOf(isa, calls, s, n, ts)
    requires Sound(s) && s.calls == 0 && s.icnt + n < NO_CALL_YET
    ensures AllCounted(ts)
    ensures (forall k | 0 <= k < |calls| :: NoneEmpty(calls[k].ops)) ==> !Exo.SomeEmptyBlob(ts)
  {
    hide TraceOf, Counted, NoneEmpty, Exo.HasEmptyBlob, Sound;
    forall k | 0 <= k < |ts|
      ensures Counted(ts[k]) && k < |calls| && (NoneEmpty(calls[k].ops) ==> !Exo.HasEmptyBlob(ts[k]))
    {
      TermOf(isa, calls, s, n, ts, k);
    }
  }

  // ---------- what a replay comes to ----------

  /** What a replay can read of a trace: the terms in front of the first with an empty blob. */
  function Legible(ts: seq<Term>): (some: seq<Term>)
    ensures some <= ts && forall i | 0 <= i < |some| :: !Exo.HasEmptyBlob(some[i])
    ensures |some| < |ts| ==> Exo.HasEmptyBlob(ts[|some|])
  {
    if ts == [] || Exo.HasEmptyBlob(ts[0]) then [] else [ts[0]] + Legible(ts[1..])
  }

  lemma AllLegible(ts: seq<Term>)
    ensures Legible(ts) == ts <==> !Exo.SomeEmptyBlob(ts)
    ensures |Legible(ts)| == |ts| <==> !Exo.SomeEmptyBlob(ts)
  {
    hide Exo.HasEmptyBlob;
    if |Legible(ts)| == |ts| {
      assert Legible(ts) == ts;
    }
  }

  lemma AlikeItself(s: Machine)
    requires Shaped(s.cpu)
    ensures Alike(s, s)
  {
  }

  /** The replay of a run whose calls it restores, from the same state: it dies if a transaction
      has an empty blob, and else goes on, exits or dies as the run does, except that it dies of an
      exit() made through syscall(). */
  lemma ReplayOf(isa: Isa, calls: seq<Call>, s: Machine, done: nat, n: nat, ts: seq<Term>)
    requires Runs(isa, calls, s, done) && TraceOf(isa, calls, s, done, ts) && s.calls == 0
    requires Lossless(isa, calls, s, done)
    requires done == n || (done < n && !Run(isa, Live(calls), s, done + 1).Went?)
    requires !Run(isa, Live(calls), s, n).Unclaimed?
    ensures var live, replay := Run(isa, Live(calls), s, n), Run(isa, Trace(Legible(ts)), s, n);
            if Exo.SomeEmptyBlob(ts) then replay == Died
            else if live.Exited? && At(isa, calls, s, done).cpu.arch.r[0] != OSF_SYS_EXIT then replay == Died
            else AlikeTurns(live, replay)
  {
    hide Step, Lossless, Alike, Legible, CallAt;
    var some := Legible(ts);
    AlikeItself(s);
    AllLegible(ts);
    ReplayEnds(isa, calls, ts, some, s, s, done, done);
    if Exo.SomeEmptyBlob(ts) {
      EndsForGood(isa, Trace(some), s, done, n);
    } else if done < n {
      EndsForGood(isa, Live(calls), s, done + 1, n);
      if Run(isa, Live(calls), s, n).Exited? {
        ExitReplays(isa, calls, some, At(isa, calls, s, done), Run(isa, Trace(some), s, done).s);
      } else {
        DeathReplays(isa, calls, some, At(isa, calls, s, done), Run(isa, Trace(some), s, done).s);
      }
      EndsForGood(isa, Trace(some), s, done + 1, n);
    }
  }
}
