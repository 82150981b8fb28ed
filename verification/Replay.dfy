/** Trace files, end to end: a simulator writes a checkpoint and the transactions of the system
    calls that follow; a second one restores the checkpoint and runs the program on the
    transactions. */
module Replay {
  import opened Bits
  import opened Memory
  import opened Eio
  import opened Sigreturn
  import opened SimEio
  import opened Lockstep
  import opened Checkpoint
  import opened Wrappers
  import Exo

  /** How a run ended, and in which state. */
  ghost function TurnOf(end: Ending, s: Machine): Turn {
    match end
    case Continuing => Went(s)
    case Exiting => Exited
    case Failing => Died
  }

  // ---------- recording ----------

  lemma FromRecording(recorder: Tracer, mem: Mem, t: Term, call: Call, c: Cpu, icnt: nat, m: map<nat, byte>)
    requires Shaped(c) && Lawful(call, c.arch, m) && recorder.Recorded(mem, call.ops, m)
    requires t == Transaction(icnt, c.pc, c.arch.r[..NUM_TRACED], recorder.inputMem,
                              call.brk, call.after.r[..NUM_TRACED], recorder.outputMem)
    ensures Traces(t, call, c, icnt, m) && mem.flat == Applied(m, Outputs(call.ops))
  {
    hide AllPass, AllRecs, AllRegular, NoEmpty, NoneEmpty, Flatten, Inputs, Outputs, Applied, HasStore, RegTerms;
    hide ReadsFirst, Possible, Bounded, SigreturnCall;
    PassingIsBounded(call.ops);
  }

  /** A system call, and its transaction behind what is printed already. False is an error exit. */
  method RecordCall(sim: Simulator, printer: Exo.Printer, stray: bool, call: Call) returns (ok: bool, ghost t: Term)
    requires sim.Valid() && Lawful(call, sim.regs.Now(), sim.mem.flat)
    modifies sim.regs`f, sim.regs`fpcr, sim.regs`npc, sim.regs.r, sim.eio, printer
    modifies sim.mem, sim.mem.ptab, sim.mem.nodes`next, sim.mem.Pages()
    ensures ok <==> ReadsFirst(call.ops)
    ensures ok ==> sim.Valid() && sim.mem.OnlyNewPages()
    ensures ok ==> sim.regs.Now() == call.after && sim.eio.brk == call.brk && sim.eio.transIcnt == sim.icnt
    ensures ok ==> sim.mem.flat == Applied(old(sim.mem.flat), Outputs(call.ops))
    ensures ok ==> Traces(t, call, old(sim.Registers()), sim.icnt, old(sim.mem.flat))
    ensures printer.out == old(printer.out) + if ok then Exo.Print(stray, t) + "\n\n" else ""
  {
    hide Mem.TableOk, Mem.PagesOk, Mem.Agrees, AllPass, Inputs, Outputs, Applied, Flatten, Transaction;
    hide Exo.Print, sim.eio.Recorded, Traces, ReadsFirst, SigreturnCall, Words;
    var exo := sim.eio.WriteTrace(sim.icnt, sim.regs, sim.mem, call);
    ok, t := exo.Some?, Exo.Integer(0);
    if ok {
      FromRecording(sim.eio, sim.mem, exo.value, call, old(sim.Registers()), sim.icnt, old(sim.mem.flat));
      t := exo.value;
      Apart(sim.mem, printer);
      printer.PrintLine(stray, exo.value);
    }
  }

  /** exit(), which is not recorded, or another call. */
  method RecordTrap(sim: Simulator, printer: Exo.Printer, stray: bool, calls: seq<Call>, k: nat)
      returns (end: Ending, k': nat, ghost t: Option<Term>)
    requires sim.Valid() && k == sim.calls
    requires !AnswerTo(Live(calls), k, sim.Registers(), sim.icnt, sim.mem.flat).Unknown?
    modifies sim`calls, sim.regs`f, sim.regs`fpcr, sim.regs`npc, sim.regs.r, sim.eio, printer
    modifies sim.mem, sim.mem.ptab, sim.mem.nodes`next, sim.mem.Pages()
    ensures end.Continuing? ==> sim.Valid() && sim.mem.OnlyNewPages() && k' == sim.calls
    ensures match old(AnswerTo(Live(calls), k, sim.Registers(), sim.icnt, sim.mem.flat))
            case Quits => end.Exiting?
            case Fails => end.Failing?
            case Unknown => false
            case Answered(arch, brk, m) =>
              && end.Continuing? && sim.calls == old(sim.calls) + 1 && sim.eio.transIcnt == sim.icnt
              && sim.regs.Now() == arch && sim.eio.brk == brk && sim.mem.flat == m
    ensures t.Some? <==> end.Continuing?
    ensures t.Some? ==>
              k < |calls| && Traces(t.value, calls[k], old(sim.Registers()), sim.icnt, old(sim.mem.flat))
    ensures printer.out == old(printer.out) + if t.Some? then Exo.Print(stray, t.value) + "\n\n" else ""
  {
    hide Mem.TableOk, Mem.PagesOk, Mem.Agrees, Lawful, Outputs, Applied, Traces, Exo.Print, ReadsFirst;
    assert sim.regs.r[..] == sim.regs.Now().r;
    end, k', t := Exiting, k, None;
    if Syscode(sim.regs.r[0], sim.regs.r[MD_REG_A0]) == OSF_SYS_EXIT {
      return;
    }
    ghost var u;
    var ok;
    ok, u := RecordCall(sim, printer, stray, calls[k]);
    if !ok {
      return Failing, k, None;
    }
    sim.calls := sim.calls + 1;
    end, k', t := Continuing, k + 1, Some(u);
  }

  /** One turn of the loop while a trace is written. */
  method RecordNext(sim: Simulator, printer: Exo.Printer, stray: bool, calls: seq<Call>, k: nat)
      returns (end: Ending, k': nat, ghost t: Option<Term>)
    requires sim.Valid() && IsaOk(sim.isa) && k == sim.calls && !Step(sim.isa, Live(calls), sim.Now()).Unclaimed?
    modifies sim, sim.regs, sim.regs.r, sim.eio, printer
    modifies sim.mem, sim.mem.ptab, sim.mem.nodes`next, sim.mem.Pages()
    ensures end.Continuing? ==> sim.Valid() && sim.mem.OnlyNewPages() && k' == sim.calls
    ensures TurnOf(end, sim.Now()) == old(Step(sim.isa, Live(calls), sim.Now()))
    ensures t.Some? <==> end.Continuing? && old(CallAt(sim.isa, sim.Now()))
    ensures t.Some? ==> k < |calls| && sim.icnt == old(sim.icnt) + 1
    ensures t.Some? ==> Traces(t.value, calls[k], old(Zeroed(sim.Registers())), sim.icnt, old(sim.mem.flat))
    ensures printer.out == old(printer.out) + if t.Some? then Exo.Print(stray, t.value) + "\n\n" else ""
  {
    hide Mem.TableOk, Mem.PagesOk, Mem.Agrees, AnswerTo, Applied, Traces, Instruction, ZeroRegs;
    hide Exo.Print;
    RegsAside(sim.mem, sim.regs, sim.regs.r);
    var o := sim.Execute();
    end, k', t := Continuing, k, None;
    if o.Faults? {
      return Failing, k', t;
    }
    if o.Traps? {
      end, k', t := RecordTrap(sim, printer, stray, calls, k);
      if !end.Continuing? {
        return;
      }
    }
    sim.GoOn();
  }

  function More(ts: seq<Term>, t: Option<Term>): seq<Term> {
    if t.Some? then ts + [t.value] else ts
  }

  lemma PrintedMore(stray: bool, lead: seq<Term>, ts: seq<Term>, t: Option<Term>)
    ensures Exo.PrintAll(stray, lead + More(ts, t)) ==
            Exo.PrintAll(stray, lead + ts) + if t.Some? then Exo.Print(stray, t.value) + "\n\n" else ""
  {
    hide Exo.PrintAll, Exo.Print;
    if t.Some? {
      PrintedNext(stray, lead, ts, t.value, "");
      assert "" + Exo.PrintAll(stray, lead + More(ts, t)) == Exo.PrintAll(stray, lead + More(ts, t));
    }
  }

  lemma NothingTraced(isa: Isa, calls: seq<Call>, s: Machine)
    requires IsaOk(isa) && Shaped(s.cpu) && s.calls == 0
    ensures Runs(isa, calls, s, 0) && TraceOf(isa, calls, s, 0, [])
  {
  }

  /** A trace grows by the transaction of the next instruction, if that is a call. */
  lemma NextTraced(isa: Isa, calls: seq<Call>, s: Machine, i: nat, ts: seq<Term>, t: Option<Term>)
    requires Runs(isa, calls, s, i) && TraceOf(isa, calls, s, i, ts) && Run(isa, Live(calls), s, i + 1).Went?
    requires t.Some? <==> CallAt(isa, At(isa, calls, s, i))
    requires var x := At(isa, calls, s, i);
             t.Some? ==>
               x.calls < |calls| && Traces(t.value, calls[x.calls], Zeroed(x.cpu), x.icnt + 1, x.mem)
    ensures Runs(isa, calls, s, i + 1) && TraceOf(isa, calls, s, i + 1, More(ts, t))
  {
    hide Traces, CallAt, At, Step, Zeroed;
    CallsGrow(isa, calls, s, i);
    hide Run;
    var more := More(ts, t);
    forall j | 0 <= j < i + 1 ensures TracedAt(isa, calls, more, At(isa, calls, s, j)) {
      if j < i {
        assert TracedAt(isa, calls, ts, At(isa, calls, s, j));
        StillTraced(isa, calls, ts, more, At(isa, calls, s, j));
      }
    }
  }

  lemma StillTraced(isa: Isa, calls: seq<Call>, ts: seq<Term>, more: seq<Term>, x: Machine)
    requires Shaped(x.cpu) && TracedAt(isa, calls, ts, x) && ts <= more
    ensures TracedAt(isa, calls, more, x)
  {
    hide Traces, CallAt;
  }

  /** sim_main, while a trace is written: any number of instructions, as far as it gets. */
  method Record(sim: Simulator, printer: Exo.Printer, stray: bool, calls: seq<Call>, n: nat, ghost lead: seq<Term>)
      returns (end: Ending, ghost done: nat, ghost ts: seq<Term>)
    requires sim.Valid() && IsaOk(sim.isa) && sim.calls == 0 && !Run(sim.isa, Live(calls), sim.Now(), n).Unclaimed?
    requires printer.out == Exo.PrintAll(stray, lead)
    modifies sim, sim.regs, sim.regs.r, sim.eio, printer
    modifies sim.mem, sim.mem.ptab, sim.mem.nodes`next, sim.mem.Pages()
    ensures end.Continuing? ==> sim.Valid()
    ensures TurnOf(end, sim.Now()) == old(Run(sim.isa, Live(calls), sim.Now(), n))
    ensures Runs(sim.isa, calls, old(sim.Now()), done) && TraceOf(sim.isa, calls, old(sim.Now()), done, ts)
    ensures if end.Continuing? then done == n
            else done < n && !Run(sim.isa, Live(calls), old(sim.Now()), done + 1).Went?
    ensures printer.out == Exo.PrintAll(stray, lead + ts)
  {
    hide Mem.TableOk, Mem.PagesOk, Mem.Agrees, Exo.PrintAll, Exo.Print, TraceOf, Runs, Traces, CallAt;
    hide Step, Zeroed, More;
    ghost var s := sim.Now();
    ts, done := [], 0;
    var k := 0;
    assert lead + ts == lead;
    NothingTraced(sim.isa, calls, s);
    for i := 0 to n
      invariant sim.Valid() && sim.mem.OnlyNewPages() && k == sim.calls && done == i
      invariant Run(sim.isa, Live(calls), s, i) == Went(sim.Now())
      invariant Runs(sim.isa, calls, s, i) && TraceOf(sim.isa, calls, s, i, ts)
      invariant printer.out == Exo.PrintAll(stray, lead + ts)
    {
      Forth(sim.isa, Live(calls), s, i, n);
      ghost var t;
      ghost var before := sim.Now();
      end, k, t := RecordNext(sim, printer, stray, calls, k);
      if !end.Continuing? {
        return;
      }
      PrintedMore(stray, lead, ts, t);
      NextTraced(sim.isa, calls, s, i, ts, t);
      ts, done := More(ts, t), i + 1;
    }
    end := Continuing;
  }

  lemma Forth(isa: Isa, w: World, s: Machine, i: nat, n: nat)
    requires IsaOk(isa) && Shaped(s.cpu) && i < n && Run(isa, w, s, i).Went?
    ensures Run(isa, w, s, i + 1) == Step(isa, w, Run(isa, w, s, i).s)
    ensures !Run(isa, w, s, i + 1).Went? ==> Run(isa, w, s, n) == Run(isa, w, s, i + 1)
  {
    hide Step;
    if !Run(isa, w, s, i + 1).Went? {
      EndsForGood(isa, w, s, i + 1, n);
    }
  }

  // ---------- replaying ----------

  /** Lists of values that the printer can print. */
  predicate Printable(ts: seq<Term>) {
    forall i | 0 <= i < |ts| :: ts[i].List? && Exo.Regular(ts[i])
  }

  /** Reading does not touch memory. */
  lemma Aside(mem: Mem, reader: object)
    requires reader is Exo.Reader
    ensures reader != mem && reader != mem.ptab && reader !in mem.nodes && reader !in mem.Pages()
  {
  }

  /** The read of term k of a trace file. */
  lemma NextList(stray: bool, all: seq<Term>, k: nat)
    requires k < |all| && all[k].List? && Exo.Regular(all[k])
    ensures Exo.Behind(stray, all, 0, 0, k) <= |Exo.PrintAll(stray, all)|
    ensures Exo.Read(Exo.PrintAll(stray, all), Exo.State(Exo.Behind(stray, all, 0, 0, k), false)) ==
            if Exo.HasEmptyBlob(all[k]) then Exo.Failed
            else Exo.Got(all[k], Exo.State(Exo.Behind(stray, all, 0, 0, k + 1), false))
  {
    hide Exo.PrintAll, Exo.Print, Exo.Read, Exo.Behind, Exo.HasEmptyBlob, Exo.Regular, Exo.WellFormed, Exo.Here;
    hide Exo.SkipBlanks;
    var text, t := Exo.PrintAll(stray, all), all[k];
    Exo.HereIs(text, text);
    Exo.WellFormedIs(t);
    Exo.TermHere(stray, all, text, 0, 0, k);
    if Exo.HasEmptyBlob(t) {
      Exo.EmptyBlobFails(stray, t, text, Exo.Behind(stray, all, 0, 0, k), |Exo.PrintAll(stray, all[..k])|);
    } else {
      Exo.TermReads(stray, all, text, 0, 0, k);
    }
  }

  /** The read of the next transaction, behind k of those that follow term j. */
  lemma NextTransaction(stray: bool, all: seq<Term>, j: nat, k: nat)
    requires j <= |all| && Printable(all[j..]) && k <= |Legible(all[j..])|
    ensures j + k <= |all|
    ensures var text, some := Exo.PrintAll(stray, all), Legible(all[j..]);
            && Exo.Behind(stray, all, 0, 0, j + k) <= |text|
            && var r := Exo.Read(text, Exo.State(Exo.Behind(stray, all, 0, 0, j + k), false));
               if k < |some| then
                 j + k < |all| && r == Exo.Got(some[k], Exo.State(Exo.Behind(stray, all, 0, 0, j + k + 1), false))
               else !r.Got?
  {
    hide Exo.PrintAll, Exo.Read, Exo.Behind, Exo.HasEmptyBlob, Exo.Regular;
    if k < |all[j..]| {
      assert all[j..][k] == all[j + k];
      NextList(stray, all, j + k);
    } else {
      Exo.NoMoreTerms(stray, all, Exo.PrintAll(stray, all));
    }
  }

  /** The reader stands behind the transactions of k calls. */
  ghost predicate Ready(reader: Exo.Reader, stray: bool, all: seq<Term>, j: nat, k: nat)
    requires j <= |all|
    reads reader
  {
    && reader.Valid() && reader.text == Exo.PrintAll(stray, all) && Printable(all[j..])
    && k <= |Legible(all[j..])| && reader.st == Exo.State(Exo.Behind(stray, all, 0, 0, j + k), false)
  }

  /** The next transaction, if there is one that can be read. */
  method ReadTransaction(reader: Exo.Reader, ghost stray: bool, ghost all: seq<Term>, ghost j: nat, ghost k: nat)
      returns (exo: Option<Term>)
    requires j <= |all| && Ready(reader, stray, all, j, k)
    modifies reader
    ensures var some := Legible(all[j..]); exo == if k < |some| then Some(some[k]) else None
    ensures exo.Some? ==> Ready(reader, stray, all, j, k + 1)
  {
    hide Exo.PrintAll, Exo.Read, Exo.Behind, Legible, Printable;
    NextTransaction(stray, all, j, k);
    var r := reader.ReadTerm();
    exo := if r.Got? then Some(r.term) else None;
  }

  /** exit() is not read from a trace, and no other call goes without. */
  lemma ExitsUnread(exo: Option<Term>, icnt: nat, pc: nat, r: seq<nat>, m: map<nat, byte>)
    requires |r| == NUM_IREGS
    ensures Replayed(exo, icnt, pc, r, m).Exits? <==> r[0] == OSF_SYS_EXIT
    ensures exo.None? ==> !Replayed(exo, icnt, pc, r, m).Done?
  {
  }

  /** System call k, while a trace is consumed. */
  method ReplayCall(eio: Tracer, reader: Exo.Reader, regs: Regs, mem: Mem, icnt: nat,
                    ghost stray: bool, ghost all: seq<Term>, ghost j: nat, ghost k: nat)
      returns (end: Ending)
    requires regs.Valid() && |regs.f| == NUM_FREGS && mem.Valid() && j <= |all| && Ready(reader, stray, all, j, k)
    modifies reader, eio`brk, eio`transIcnt, regs`f, regs`fpcr, regs`npc, regs.r
    modifies mem, mem.ptab, mem.nodes`next, mem.Pages()
    ensures match old(AnswerTo(Trace(Legible(all[j..])), k, Cpu(regs.Now(), regs.uniq, regs.pc), icnt, mem.flat))
            case Quits => end.Exiting?
            case Fails => end.Failing?
            case Unknown => false
            case Answered(arch, brk, m) =>
              && end.Continuing? && eio.transIcnt == icnt
              && regs.Now() == arch && eio.brk == brk && mem.flat == m
    ensures end.Continuing? ==> mem.Valid() && mem.OnlyNewPages() && Ready(reader, stray, all, j, k + 1)
  {
    hide Mem.TableOk, Mem.PagesOk, Mem.Agrees, AfterSyscall, Replayed, Ready, Legible;
    ghost var some := Legible(all[j..]);
    ghost var goal := if k < |some| then Some(some[k]) else None;
    var exo := None;
    assert regs.r[..] == regs.Now().r;
    ExitsUnread(goal, icnt, regs.pc, regs.Now().r, mem.flat);
    ExitsUnread(None, icnt, regs.pc, regs.Now().r, mem.flat);
    if regs.r[0] != OSF_SYS_EXIT {
      Aside(mem, reader);
      exo := ReadTransaction(reader, stray, all, j, k);
    }
    end := SysSyscall(eio, exo, icnt, regs, mem);
  }

  /** The next system call of a simulator, while a trace is consumed. */
  method ReplayTrap(sim: Simulator, reader: Exo.Reader, ghost stray: bool, ghost all: seq<Term>, ghost j: nat)
      returns (end: Ending)
    requires sim.Valid() && j <= |all| && Ready(reader, stray, all, j, sim.calls)
    modifies reader, sim`calls, sim.eio`brk, sim.eio`transIcnt, sim.regs`f, sim.regs`fpcr, sim.regs`npc, sim.regs.r
    modifies sim.mem, sim.mem.ptab, sim.mem.nodes`next, sim.mem.Pages()
    ensures match old(AnswerTo(Trace(Legible(all[j..])), sim.calls, sim.Registers(), sim.icnt, sim.mem.flat))
            case Quits => end.Exiting?
            case Fails => end.Failing?
            case Unknown => false
            case Answered(arch, brk, m) =>
              && end.Continuing? && sim.calls == old(sim.calls) + 1 && sim.eio.transIcnt == sim.icnt
              && sim.regs.Now() == arch && sim.eio.brk == brk && sim.mem.flat == m
    ensures end.Continuing? ==> sim.Valid() && sim.mem.OnlyNewPages() && Ready(reader, stray, all, j, sim.calls)
  {
    hide Mem.TableOk, Mem.PagesOk, Mem.Agrees, AnswerTo, Ready, Legible;
    end := ReplayCall(sim.eio, reader, sim.regs, sim.mem, sim.icnt, stray, all, j, sim.calls);
    sim.calls := sim.calls + 1;
  }

  /** One turn of the loop while a trace is consumed. */
  method ReplayNext(sim: Simulator, reader: Exo.Reader, ghost stray: bool, ghost all: seq<Term>, ghost j: nat)
      returns (end: Ending)
    requires sim.Valid() && IsaOk(sim.isa) && j <= |all| && Ready(reader, stray, all, j, sim.calls)
    modifies sim, reader, sim.regs, sim.regs.r, sim.eio`brk, sim.eio`transIcnt
    modifies sim.mem, sim.mem.ptab, sim.mem.nodes`next, sim.mem.Pages()
    ensures TurnOf(end, sim.Now()) == old(Step(sim.isa, Trace(Legible(all[j..])), sim.Now()))
    ensures end.Continuing? ==> sim.Valid() && sim.mem.OnlyNewPages() && Ready(reader, stray, all, j, sim.calls)
  {
    hide Mem.TableOk, Mem.PagesOk, Mem.Agrees, AnswerTo, Applied, Instruction, ZeroRegs;
    hide Ready, Legible;
    RegsAside(sim.mem, sim.regs, sim.regs.r);
    Aside(sim.mem, reader);
    var o := sim.Execute();
    if o.Faults? {
      return Failing;
    }
    end := Continuing;
    if o.Traps? {
      end := ReplayTrap(sim, reader, stray, all, j);
      if !end.Continuing? {
        return;
      }
    }
    sim.GoOn();
  }

  /** sim_main, while a trace is consumed: any number of instructions, as far as it gets. */
  method ReplayAll(sim: Simulator, reader: Exo.Reader, n: nat, ghost stray: bool, ghost all: seq<Term>, ghost j: nat)
      returns (end: Ending)
    requires sim.Valid() && IsaOk(sim.isa) && j <= |all| && Ready(reader, stray, all, j, sim.calls)
    modifies sim, reader, sim.regs, sim.regs.r, sim.eio`brk, sim.eio`transIcnt
    modifies sim.mem, sim.mem.ptab, sim.mem.nodes`next, sim.mem.Pages()
    ensures TurnOf(end, sim.Now()) == old(Run(sim.isa, Trace(Legible(all[j..])), sim.Now(), n))
    ensures end.Continuing? ==> sim.Valid() && sim.mem.OnlyNewPages() && Ready(reader, stray, all, j, sim.calls)
  {
    hide Mem.TableOk, Mem.PagesOk, Mem.Agrees, Ready, Legible, Step;
    ghost var s, w := sim.Now(), Trace(Legible(all[j..]));
    for i := 0 to n
      invariant sim.Valid() && sim.mem.OnlyNewPages() && Ready(reader, stray, all, j, sim.calls)
      invariant Run(sim.isa, w, s, i) == Went(sim.Now())
    {
      Forth(sim.isa, w, s, i, n);
      end := ReplayNext(sim, reader, stray, all, j);
      if !end.Continuing? {
        return;
      }
    }
    end := Continuing;
  }

  // ---------- the whole file ----------

  /** The machine at the beginning of a simulation, from what a checkpoint holds. */
  function Booted(im: Image, mem: map<nat, byte>, calls: nat): Machine {
    Machine(Started(Cpu(im.arch, im.uniq, im.pc)), im.g.icnt, im.g.transIcnt, im.g.brk, mem, calls)
  }

  lemma BootedIsSound(im: Image, mem: map<nat, byte>, calls: nat)
    requires ImageOk(im)
    ensures var s := Booted(im, mem, calls);
            Sound(s) && Shaped(s.cpu) && s.calls == calls && s.icnt == im.g.icnt && s.mem == mem
  {
  }

  /** A simulation with a trace file: the initial checkpoint, which must come before every call,
      and then the transactions of a run. */
  method WriteTraceFile(stray: bool, isa: Isa, regs: Regs, g: Globals, mem: Mem, eio: Tracer, calls: seq<Call>, n: nat)
      returns (end: Ending, sim: Simulator, text: string, ghost pages: seq<Term>, ghost done: nat, ghost ts: seq<Term>)
    requires regs.Valid() && |regs.f| == NUM_FREGS && mem.Valid() && IsaOk(isa)
    requires g.transIcnt == eio.transIcnt == NO_CALL_YET && g.brk == eio.brk
    requires var s := Booted(Image(g, regs.pc, regs.uniq, regs.Now()), mem.flat, 0);
             !Run(isa, Live(calls), s, n).Unclaimed?
    modifies eio, regs, regs.r, mem, mem.ptab, mem.nodes`next, mem.Pages()
    ensures Dumped(pages, old(mem.flat)) && |pages| == old(mem.pageCount)
    ensures text == Exo.PrintAll(stray, HeadTerms(old(Image(g, regs.pc, regs.uniq, regs.Now())), |pages|) + pages + ts)
    ensures var s := old(Booted(Image(g, regs.pc, regs.uniq, regs.Now()), mem.flat, 0));
            && (end.Continuing? ==> sim.Valid()) && TurnOf(end, sim.Now()) == Run(isa, Live(calls), s, n)
            && Runs(isa, calls, s, done) && TraceOf(isa, calls, s, done, ts)
            && if end.Continuing? then done == n else done < n && !Run(isa, Live(calls), s, done + 1).Went?
  {
    hide Mem.TableOk, Mem.PagesOk, Mem.Agrees, Dumped, HeadTerms, Run, Runs, TraceOf, Exo.PrintAll;
    var printer := new Exo.Printer();
    Apart(mem, printer);
    ghost var im := Image(g, regs.pc, regs.uniq, regs.Now());
    pages := WriteCheckpoint(printer, stray, regs, g, mem);
    ghost var head := HeadTerms(im, |pages|) + pages;
    assert "" + Exo.PrintAll(stray, head) == Exo.PrintAll(stray, head);
    sim := new Simulator(isa, regs, mem, eio, g.icnt, 0);
    end, done, ts := Record(sim, printer, stray, calls, n, head);
    text := printer.out;
  }

  /** The text is a checkpoint, of these registers and globals and of memory contents flat, with
      these terms behind it. */
  ghost predicate Holds(text: string, stray: bool, im: Image, pages: seq<Term>, ts: seq<Term>, flat: map<nat, byte>) {
    && ImageOk(im) && Dumped(pages, flat) && |pages| < Exo.INT_LIMIT
    && text == Exo.PrintAll(stray, HeadTerms(im, |pages|) + pages + ts)
  }

  /** A machine loaded from a trace file, whose initial checkpoint must have been made before every
      call, and the reader behind that checkpoint. */
  method LoadTrace(text: string, ghost stray: bool, ghost im: Image, ghost pages: seq<Term>, ghost ts: seq<Term>,
                   ghost flat: map<nat, byte>)
      returns (ok: bool, regs: Regs, g: Globals, mem: Mem, eio: Tracer, reader: Exo.Reader)
    requires Holds(text, stray, im, pages, ts, flat)
    ensures fresh(regs) && fresh(regs.r) && regs.Valid() && |regs.f| == NUM_FREGS
    ensures Image(g, regs.pc, regs.uniq, regs.Now()) == im
    ensures fresh(mem) && fresh(mem.ptab) && fresh(mem.nodes) && fresh(mem.Pages())
    ensures mem.Valid() && Same(flat, mem.flat)
    ensures fresh(eio) && eio.transIcnt == NO_CALL_YET && eio.brk == g.brk
    ensures fresh(reader) && reader.Valid() && reader.text == text
    ensures var all := HeadTerms(im, |pages|) + pages + ts;
            reader.st == Exo.State(Exo.Behind(stray, all, 0, 0, HEAD_TERMS + |pages|), false)
    ensures ok <==> im.g.transIcnt == NO_CALL_YET
  {
    hide Dumped, Same, HeadTerms, ImageOk, Exo.PrintAll, Exo.Behind, Mem.TableOk, Mem.PagesOk, Mem.Agrees;
    BootedIsSound(im, flat, 0);
    reader := new Exo.Reader(text);
    regs, g, mem := LoadMachine(reader, stray, im, pages, ts, flat);
    eio := new Tracer();
    eio.brk := g.brk;
    ok := g.transIcnt == NO_CALL_YET;
  }

  lemma SameBoot(im: Image, flat: map<nat, byte>, m: map<nat, byte>)
    requires ImageOk(im) && Same(flat, m)
    ensures Shaped(Booted(im, flat, 0).cpu) && Shaped(Booted(im, m, 0).cpu)
    ensures Alike(Booted(im, flat, 0), Booted(im, m, 0))
  {
    hide Same;
  }

  /** A simulator at the beginning of a trace file. */
  method Boot(text: string, isa: Isa, ghost stray: bool, ghost im: Image, ghost pages: seq<Term>, ghost ts: seq<Term>,
              ghost flat: map<nat, byte>)
      returns (ok: bool, sim: Simulator, reader: Exo.Reader, g: Globals)
    requires Holds(text, stray, im, pages, ts, flat) && Printable(ts)
    ensures fresh(sim) && fresh(sim.regs) && fresh(sim.regs.r) && fresh(sim.eio) && fresh(reader) && g == im.g
    ensures fresh(sim.mem) && fresh(sim.mem.ptab) && fresh(sim.mem.nodes) && fresh(sim.mem.Pages())
    ensures sim.isa == isa && sim.Valid() && Same(flat, sim.mem.flat)
    ensures ok <==> im.g.transIcnt == NO_CALL_YET
    ensures ok ==> sim.Now() == Booted(im, sim.mem.flat, 0)
    ensures Ready(reader, stray, HeadTerms(im, |pages|) + pages + ts, HEAD_TERMS + |pages|, sim.calls)
  {
    hide Dumped, Same, HeadTerms, ImageOk, Legible, Exo.PrintAll, Exo.Behind, Printable;
    hide Mem.TableOk, Mem.PagesOk, Mem.Agrees;
    assert (HeadTerms(im, |pages|) + pages + ts)[HEAD_TERMS + |pages|..] == ts;
    var regs, mem, eio;
    ok, regs, g, mem, eio, reader := LoadTrace(text, stray, im, pages, ts, flat);
    sim := new Simulator(isa, regs, mem, eio, g.icnt, 0);
  }

  /** Loading a trace file, and a simulation on it. */
  method ReadTraceFile(text: string, isa: Isa, n: nat, ghost stray: bool, ghost im: Image,
                       ghost pages: seq<Term>, ghost ts: seq<Term>, ghost flat: map<nat, byte>)
      returns (end: Ending, sim: Simulator)
    requires Holds(text, stray, im, pages, ts, flat) && Printable(ts) && IsaOk(isa)
    ensures fresh(sim) && (end.Continuing? ==> sim.Valid()) && Shaped(Booted(im, flat, 0).cpu)
    ensures if im.g.transIcnt != NO_CALL_YET then end.Failing?
            else AlikeTurns(Run(isa, Trace(Legible(ts)), Booted(im, flat, 0), n), TurnOf(end, sim.Now()))
  {
    hide Dumped, HeadTerms, Same, Run, Legible, Exo.PrintAll, Ready, IsaOk, Printable, Alike, Booted;
    hide Mem.TableOk, Mem.PagesOk, Mem.Agrees;
    BootedIsSound(im, flat, 0);
    ghost var all, j := HeadTerms(im, |pages|) + pages + ts, HEAD_TERMS + |pages|;
    assert all[j..] == ts;
    var ok, reader, g;
    ok, sim, reader, g := Boot(text, isa, stray, im, pages, ts, flat);
    if !ok {
      return Failing, sim;
    }
    SameBoot(im, flat, sim.mem.flat);
    AlikeRuns(isa, Trace(Legible(ts)), Booted(im, flat, 0), sim.Now(), n);
    end := ReplayAll(sim, reader, n, stray, all, j);
  }

  // ---------- end to end ----------

  /** A simulation with a trace file, and a simulation of the same instruction set on that file, on
      a new machine. The second runs on what it computes itself; of the first it has the text. If
      the replay of every call leaves the right registers, it ends as the first does, and in the
      same state, unless a transaction has an empty blob or exit() was called through syscall(),
      when it dies. */
  method RecordThenReplay(stray: bool, isa: Isa, regs: Regs, g: Globals, mem: Mem, eio: Tracer, calls: seq<Call>,
                          n: nat)
      returns (end: Ending, sim: Simulator, end': Ending, sim': Simulator, ghost done: nat, ghost ts: seq<Term>)
    requires regs.Valid() && mem.Valid() && mem.pageCount < Exo.INT_LIMIT && IsaOk(isa)
    requires ImageOk(Image(g, regs.pc, regs.uniq, regs.Now())) && g.icnt + n < NO_CALL_YET
    requires g.transIcnt == eio.transIcnt == NO_CALL_YET && g.brk == eio.brk
    requires var s := Booted(Image(g, regs.pc, regs.uniq, regs.Now()), mem.flat, 0);
             !Run(isa, Live(calls), s, n).Unclaimed?
    modifies eio, regs, regs.r, mem, mem.ptab, mem.nodes`next, mem.Pages()
    ensures (end.Continuing? ==> sim.Valid()) && (end'.Continuing? ==> sim'.Valid())
    ensures var s := old(Booted(Image(g, regs.pc, regs.uniq, regs.Now()), mem.flat, 0));
            && Shaped(s.cpu) && TurnOf(end, sim.Now()) == Run(isa, Live(calls), s, n)
            && AlikeTurns(Run(isa, Trace(Legible(ts)), s, n), TurnOf(end', sim'.Now()))
            && Runs(isa, calls, s, done) && TraceOf(isa, calls, s, done, ts)
            && (Lossless(isa, calls, s, done) ==>
                  if Exo.SomeEmptyBlob(ts) then end'.Failing?
                  else if end.Exiting? && At(isa, calls, s, done).cpu.arch.r[0] != OSF_SYS_EXIT then end'.Failing?
                  else AlikeTurns(TurnOf(end, sim.Now()), TurnOf(end', sim'.Now())))
    ensures (forall k | 0 <= k < |calls| :: NoneEmpty(calls[k].ops)) ==> !Exo.SomeEmptyBlob(ts)
  {
    hide Mem.TableOk, Mem.PagesOk, Mem.Agrees, Dumped, HeadTerms, Run, Runs, TraceOf, Lossless, Exo.PrintAll, Legible;
    hide Exo.SomeEmptyBlob, Booted, Alike;
    ghost var im, flat := Image(g, regs.pc, regs.uniq, regs.Now()), mem.flat;
    ghost var s := Booted(im, flat, 0);
    BootedIsSound(im, flat, 0);
    var text;
    ghost var pages;
    end, sim, text, pages, done, ts := WriteTraceFile(stray, isa, regs, g, mem, eio, calls, n);
    TraceIs(isa, calls, s, done, ts);
    ghost var x := sim.Now();
    RegsAside(sim.mem, sim.regs, sim.regs.r);
    end', sim' := ReadTraceFile(text, isa, n, stray, im, pages, ts, flat);
    assert sim.Now() == x;
    if Lossless(isa, calls, s, done) {
      ReplayOf(isa, calls, s, done, n, ts);
      if AlikeTurns(TurnOf(end, x), Run(isa, Trace(Legible(ts)), s, n)) {
        AlikeThrough(TurnOf(end, x), Run(isa, Trace(Legible(ts)), s, n), TurnOf(end', sim'.Now()));
      }
    }
  }
}
