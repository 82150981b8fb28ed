/** Later checkpoints: a simulator loads a trace file and a checkpoint that was made while the
    trace was consumed, skips the transactions of the calls made before, and goes on. */
module Resume {
  import opened Bits
  import opened Memory
  import opened Eio
  import opened SimEio
  import opened Lockstep
  import opened Checkpoint
  import opened Replay
  import opened Wrappers
  import Exo

  // ---------- fast forward ----------

  /** eio_fast_forward: where the reader stands behind the first transaction with this count;
      without one, or in front of something that is no transaction, the program ends. */
  function Forwarded(text: string, st: Exo.State, icnt: nat): (r: Option<Exo.State>)
    requires st.pos <= |text|
    ensures r.Some? ==> st.pos < r.value.pos <= |text|
    decreases |text| - st.pos
  {
    var r := Exo.Read(text, st);
    if !r.Got? || !HasCount(r.term) then None
    else if r.term.elts[0].val == icnt then Some(r.st)
    else Forwarded(text, r.st, icnt)
  }

  method FastForward(reader: Exo.Reader, eio: Tracer, icnt: nat) returns (ok: bool)
    requires reader.Valid()
    modifies reader, eio`transIcnt
    ensures reader.Valid() && (ok ==> eio.transIcnt == icnt)
    ensures Forwarded(reader.text, old(reader.st), icnt) == if ok then Some(reader.st) else None
  {
    hide Exo.Read;
    ghost var goal := Forwarded(reader.text, reader.st, icnt);
    var found := false;
    while !found
      invariant reader.Valid() && (found ==> eio.transIcnt == icnt)
      invariant goal == if found then Some(reader.st) else Forwarded(reader.text, reader.st, icnt)
      decreases !found, |reader.text| - reader.st.pos
    {
      var r := reader.ReadTerm();
      if !r.Got? {
        return false;
      }
      eio.transIcnt := icnt;
      if !HasCount(r.term) {
        return false;
      }
      found := r.term.elts[0].val == icnt;
    }
    ok := true;
  }

  function CountOf(t: Term): nat {
    if HasCount(t) then t.elts[0].val else NO_CALL_YET
  }

  /** Fast forward stops right behind the first transaction with the count, if all up to it can
      be read. */
  lemma {:induction false} ForwardTo(stray: bool, all: seq<Term>, j: nat, k: nat, icnt: nat)
    requires j <= k < |all| && forall i | j <= i <= k :: Counted(all[i])
    requires CountOf(all[k]) == icnt && forall i | j <= i < k :: CountOf(all[i]) != icnt
    ensures var text := Exo.PrintAll(stray, all);
            && Exo.Behind(stray, all, 0, 0, j) <= |text|
            && Forwarded(text, Exo.State(Exo.Behind(stray, all, 0, 0, j), false), icnt) ==
               if Exo.SomeEmptyBlob(all[j..k + 1]) then None
               else Some(Exo.State(Exo.Behind(stray, all, 0, 0, k + 1), false))
    decreases k - j
  {
    hide Exo.PrintAll, Exo.Read, Exo.Behind, Exo.HasEmptyBlob, Exo.Regular, Exo.SomeEmptyBlob;
    assert Counted(all[j]);
    NextList(stray, all, j);
    var some := all[j..k + 1];
    Exo.EmptyFrom(some, 0);
    assert some[0..] == some && some[0] == all[j] && some[1..] == all[j + 1..k + 1];
    if j == k {
      assert !Exo.SomeEmptyBlob(some[1..]) by { NoBlobIn(some[1..]); }
    } else if !Exo.HasEmptyBlob(all[j]) {
      ForwardTo(stray, all, j + 1, k, icnt);
    }
  }

  lemma NoBlobIn(ts: seq<Term>)
    requires ts == []
    ensures !Exo.SomeEmptyBlob(ts)
  {
  }

  /** Without a transaction of that count it finds nothing. */
  lemma {:induction false} NeverForward(stray: bool, all: seq<Term>, j: nat, icnt: nat)
    requires j <= |all| && forall i | j <= i < |all| :: Counted(all[i]) && CountOf(all[i]) != icnt
    ensures var text := Exo.PrintAll(stray, all);
            && Exo.Behind(stray, all, 0, 0, j) <= |text|
            && Forwarded(text, Exo.State(Exo.Behind(stray, all, 0, 0, j), false), icnt) == None
    decreases |all| - j
  {
    hide Exo.PrintAll, Exo.Read, Exo.Behind, Exo.HasEmptyBlob, Exo.Regular;
    if j == |all| {
      Exo.NoMoreTerms(stray, all, Exo.PrintAll(stray, all));
    } else {
      assert Counted(all[j]);
      NextList(stray, all, j);
      if !Exo.HasEmptyBlob(all[j]) {
        NeverForward(stray, all, j + 1, icnt);
      }
    }
  }

  // ---------- the counts of a replay ----------

  /** The calls so far took the first transactions, whose counts go up to that of the last call. */
  predicate CountsTo(ts: seq<Term>, x: Machine) {
    && x.calls <= |ts| && (forall k | 0 <= k < x.calls :: HasCount(ts[k]))
    && (forall k, l | 0 <= k < l < x.calls :: CountOf(ts[k]) < CountOf(ts[l]))
    && (if x.calls == 0 then x.transIcnt == NO_CALL_YET else CountOf(ts[x.calls - 1]) == x.transIcnt <= x.icnt)
  }

  lemma AnsweredIs(ts: seq<Term>, k: nat, c: Cpu, icnt: nat, m: map<nat, byte>)
    requires Shaped(c) && AnswerTo(Trace(ts), k, c, icnt, m).Answered?
    ensures k < |ts| && HasCount(ts[k]) && CountOf(ts[k]) == icnt
  {
    hide RegsMatch, InputsMatch, NewRegs, Applied;
  }

  lemma CountsUp(isa: Isa, ts: seq<Term>, s: Machine)
    requires IsaOk(isa) && Shaped(s.cpu) && CountsTo(ts, s) && Step(isa, Trace(ts), s).Went?
    ensures CountsTo(ts, Step(isa, Trace(ts), s).s)
  {
    hide AnswerTo, Instruction, ZeroRegs, HasCount, CountOf, Applied;
    var c := Zeroed(s.cpu);
    if Instruction(isa, c, s.mem).Traps? {
      AnsweredIs(ts, s.calls, c, s.icnt + 1, s.mem);
    }
  }

  lemma {:induction false} RunCounts(isa: Isa, ts: seq<Term>, s: Machine, n: nat)
    requires IsaOk(isa) && Shaped(s.cpu) && CountsTo(ts, s) && Run(isa, Trace(ts), s, n).Went?
    ensures CountsTo(ts, Run(isa, Trace(ts), s, n).s)
  {
    hide Step, CountsTo;
    if n > 0 {
      WentBefore(isa, Trace(ts), s, n - 1, n);
      RunCounts(isa, ts, s, n - 1);
      CountsUp(isa, ts, Run(isa, Trace(ts), s, n - 1).s);
    }
  }

  /** Fast forward on a trace file, from behind its initial checkpoint, to the count that a replay
      of it has come to: it finds the place where that replay stands, if and only if that has made
      a call. */
  lemma ForwardInTrace(stray: bool, lead: seq<Term>, ts: seq<Term>, x: Machine)
    requires AllCounted(ts) && CountsTo(Legible(ts), x)
    ensures var text, all, j := Exo.PrintAll(stray, lead + ts), lead + ts, |lead|;
            && j + x.calls <= |all| && Exo.Behind(stray, all, 0, 0, j) <= |text|
            && Forwarded(text, Exo.State(Exo.Behind(stray, all, 0, 0, j), false), x.transIcnt) ==
               if x.calls == 0 then None else Some(Exo.State(Exo.Behind(stray, all, 0, 0, j + x.calls), false))
  {
    hide Exo.PrintAll, Exo.Behind, Exo.SomeEmptyBlob, Forwarded, CountsTo, Counted, CountOf, Legible;
    var all, j := lead + ts, |lead|;
    BehindLead(lead, ts);
    CallsFit(ts, x);
    if x.calls == 0 {
      NoCallYet(ts, x);
      NeverForward(stray, all, j, NO_CALL_YET);
    } else {
      LastCall(lead, ts, x);
      ForwardTo(stray, all, j, j + x.calls - 1, x.transIcnt);
      NoneLegible(lead, ts, x.calls);
    }
  }

  lemma BehindLead(lead: seq<Term>, ts: seq<Term>)
    requires AllCounted(ts)
    ensures var all := lead + ts;
            forall i | |lead| <= i < |all| :: Counted(all[i]) && CountOf(all[i]) != NO_CALL_YET
  {
    hide Counted, CountOf;
    var all := lead + ts;
    forall i | |lead| <= i < |all| ensures Counted(all[i]) && CountOf(all[i]) != NO_CALL_YET {
      CountIs(ts[i - |lead|]);
    }
  }

  lemma CallsFit(ts: seq<Term>, x: Machine)
    requires CountsTo(Legible(ts), x)
    ensures x.calls <= |Legible(ts)|
  {
  }

  lemma NoCallYet(ts: seq<Term>, x: Machine)
    requires CountsTo(Legible(ts), x) && x.calls == 0
    ensures x.transIcnt == NO_CALL_YET
  {
  }

  /** The transaction of the last call is the first with its count. */
  lemma LastCall(lead: seq<Term>, ts: seq<Term>, x: Machine)
    requires CountsTo(Legible(ts), x) && x.calls > 0
    ensures var all, k := lead + ts, |lead| + x.calls - 1;
            k < |all| && CountOf(all[k]) == x.transIcnt && forall i | |lead| <= i < k :: CountOf(all[i]) != x.transIcnt
  {
    hide CountOf, HasCount, Exo.HasEmptyBlob;
    var all, k, some := lead + ts, |lead| + x.calls - 1, Legible(ts);
    forall i | |lead| <= i <= k ensures all[i] == some[i - |lead|] {
    }
    forall i | |lead| <= i < k ensures CountOf(all[i]) != x.transIcnt {
      assert CountOf(some[i - |lead|]) < CountOf(some[x.calls - 1]);
    }
  }

  lemma CountIs(t: Term)
    requires Counted(t)
    ensures CountOf(t) < NO_CALL_YET
  {
  }

  lemma NoneLegible(lead: seq<Term>, ts: seq<Term>, n: nat)
    requires n <= |Legible(ts)|
    ensures !Exo.SomeEmptyBlob((lead + ts)[|lead|..|lead| + n])
  {
    hide Exo.HasEmptyBlob;
    assert (lead + ts)[|lead|..|lead| + n] == Legible(ts)[..n];
  }

  // ---------- going on ----------

  /** A checkpoint holds the state of a machine, as the loop finds it. */
  predicate HoldsImage(im: Image, x: Machine)
    requires Shaped(x.cpu)
  {
    && Cpu(im.arch, im.uniq, im.pc) == Zeroed(x.cpu)
    && im.g.icnt == x.icnt && im.g.transIcnt == x.transIcnt && im.g.brk == x.brk
  }

  /** A simulator that starts from it is in the same state. */
  lemma SameAgain(im: Image, x: Machine, m: map<nat, byte>)
    requires Sound(x) && Shaped(x.cpu) && HoldsImage(im, x) && Same(x.mem, m)
    ensures Shaped(Booted(im, m, x.calls).cpu) && Alike(x, Booted(im, m, x.calls))
  {
    hide Same, Wrap, Words;
  }

  /** Memory after loading shows nothing that was not written by the time of a later checkpoint. */
  lemma WithinGrown(m: map<nat, byte>, m0: map<nat, byte>, m1: map<nat, byte>)
    requires Same(m, m0) && Grown(m, m1)
    ensures Within(m0, m1)
  {
    forall a: nat | Get(m0, a) != 0 ensures a in m1 {
      assert Get(m, a) == Get(m0, a);
    }
  }

  /** A checkpoint on top of a loaded machine. */
  method LoadCheckpoint(chkpt: string, regs: Regs, mem: Mem, ghost stray: bool, ghost im: Image,
                        ghost pages: seq<Term>, ghost flat: map<nat, byte>)
      returns (g: Globals)
    requires regs.Valid() && mem.Valid() && Holds(chkpt, stray, im, pages, [], flat) && Within(mem.flat, flat)
    modifies regs, regs.r, mem, mem.ptab, mem.nodes`next, mem.Pages()
    ensures regs.Valid() && Image(g, regs.pc, regs.uniq, regs.Now()) == im
    ensures mem.Valid() && mem.OnlyNewPages() && Same(flat, mem.flat)
  {
    hide mem.TableOk, mem.PagesOk, mem.Agrees, Dumped, Restoring, HeadTerms, ImageOk, Within;
    hide Exo.PrintAll, Exo.Here, Exo.Behind;
    Exo.HereIs(chkpt, chkpt);
    CheckpointRoundTrip(stray, im, pages, [], flat, mem.flat, chkpt, 0, 0);
    var reader := new Exo.Reader(chkpt);
    Aside(mem, reader);
    var g1 := Restore(reader, regs, mem);
    g := g1.value;
  }

  /** What a replay has come to after i instructions, from the checkpoint of a trace file loaded
      into memory m. */
  ghost predicate Reaches(isa: Isa, im: Image, m: map<nat, byte>, ts: seq<Term>, i: nat, x: Machine) {
    && IsaOk(isa) && ImageOk(im) && Shaped(Booted(im, m, 0).cpu)
    && Run(isa, Trace(Legible(ts)), Booted(im, m, 0), i) == Went(x)
  }

  lemma LegibleIsRegular(ts: seq<Term>)
    requires AllCounted(ts)
    ensures RegularWorld(Trace(Legible(ts))) && Printable(ts)
  {
    forall k | 0 <= k < |ts| ensures ts[k].List? && Exo.Regular(ts[k]) {
      assert Counted(ts[k]);
    }
  }

  /** Such a state is one of 64-bit words, with the transactions of its calls behind it and every
      address of its memory still there. */
  lemma ReachesIs(isa: Isa, im: Image, m: map<nat, byte>, ts: seq<Term>, i: nat, x: Machine)
    requires Reaches(isa, im, m, ts, i, x) && AllCounted(ts) && im.g.transIcnt == NO_CALL_YET
    ensures Sound(x) && Shaped(x.cpu) && Grown(m, x.mem) && x.icnt == im.g.icnt + i
    ensures CountsTo(Legible(ts), x) && x.calls <= |Legible(ts)|
  {
    hide Legible, AllCounted, RegularWorld, Words, Wrap, Grown, Run;
    var s := Booted(im, m, 0);
    BootedIsSound(im, m, 0);
    LegibleIsRegular(ts);
    RunKeeps(isa, Trace(Legible(ts)), s, i);
    RunCounts(isa, Legible(ts), s, i);
  }

  lemma ImageIs(im: Image, x: Machine)
    requires Shaped(x.cpu) && HoldsImage(im, x)
    ensures im.g.transIcnt == x.transIcnt && |im.arch.f| == NUM_FREGS
  {
  }

  lemma SameThrough(m: map<nat, byte>, flat: map<nat, byte>, m0: map<nat, byte>)
    requires Same(flat, m) && Same(flat, m0)
    ensures Same(m, m0)
  {
  }

  /** A machine loaded from a trace file, and on top of it from a checkpoint of a machine that has
      come to state x on that file. The reader ends where that machine had it, if and only if a
      call had been made. A checkpoint made before the first call cannot be used: fast forward
      looks for the transaction of a call that was never made. */
  method LoadBoth(text: string, chkpt: string, ghost isa: Isa, ghost stray: bool,
                  ghost im: Image, ghost pages: seq<Term>, ghost ts: seq<Term>, ghost flat: map<nat, byte>,
                  ghost m: map<nat, byte>, ghost i: nat, ghost x: Machine,
                  ghost stray1: bool, ghost im1: Image, ghost pages1: seq<Term>)
      returns (ok: bool, regs: Regs, g: Globals, mem: Mem, eio: Tracer, reader: Exo.Reader)
    requires Holds(text, stray, im, pages, ts, flat) && AllCounted(ts)
    requires Same(flat, m) && Reaches(isa, im, m, ts, i, x)
    requires Shaped(x.cpu) && HoldsImage(im1, x) && Holds(chkpt, stray1, im1, pages1, [], x.mem)
    ensures fresh(regs) && fresh(regs.r) && fresh(eio) && fresh(reader)
    ensures fresh(mem) && fresh(mem.ptab) && fresh(mem.nodes) && fresh(mem.Pages())
    ensures regs.Valid() && |regs.f| == NUM_FREGS && mem.Valid()
    ensures ok <==> im.g.transIcnt == NO_CALL_YET && x.calls > 0
    ensures ok ==> Image(g, regs.pc, regs.uniq, regs.Now()) == im1 && Same(x.mem, mem.flat)
    ensures ok ==> eio.transIcnt == x.transIcnt && eio.brk == g.brk && x.calls <= |Legible(ts)|
    ensures var all := HeadTerms(im, |pages|) + pages + ts;
            ok ==>
              && reader.Valid() && reader.text == text && HEAD_TERMS + |pages| + x.calls <= |all|
              && reader.st == Exo.State(Exo.Behind(stray, all, 0, 0, HEAD_TERMS + |pages| + x.calls), false)
  {
    hide Dumped, HeadTerms, Same, Run, Legible, Within, Grown, Exo.PrintAll, Exo.Behind, Printable, AllCounted;
    hide Alike, CountsTo, Forwarded, ImageOk, Reaches, HoldsImage, Mem.TableOk, Mem.PagesOk, Mem.Agrees;
    ghost var lead := HeadTerms(im, |pages|) + pages;
    ok, regs, g, mem, eio, reader := LoadTrace(text, stray, im, pages, ts, flat);
    if !ok {
      return;
    }
    ReachesIs(isa, im, m, ts, i, x);
    SameThrough(m, flat, mem.flat);
    WithinGrown(m, mem.flat, x.mem);
    ForwardInTrace(stray, lead, ts, x);
    g := LoadCheckpoint(chkpt, regs, mem, stray1, im1, pages1, x.mem);
    ImageIs(im1, x);
    ok := FastForward(reader, eio, g.transIcnt);
    eio.brk := g.brk;
  }

  /** Whatever the program does, a simulator that resumes goes on as the machine does that made the
      checkpoint, if and only if that had made a call by then. */
  method ResumeFromCheckpoint(text: string, chkpt: string, isa: Isa, n: nat, ghost stray: bool,
                              ghost im: Image, ghost pages: seq<Term>, ghost ts: seq<Term>, ghost flat: map<nat, byte>,
                              ghost m: map<nat, byte>, ghost i: nat, ghost x: Machine,
                              ghost stray1: bool, ghost im1: Image, ghost pages1: seq<Term>)
      returns (end: Ending, sim: Simulator)
    requires Holds(text, stray, im, pages, ts, flat) && AllCounted(ts)
    requires Same(flat, m) && Reaches(isa, im, m, ts, i, x)
    requires Shaped(x.cpu) && HoldsImage(im1, x) && Holds(chkpt, stray1, im1, pages1, [], x.mem)
    ensures fresh(sim) && (end.Continuing? ==> sim.Valid())
    ensures if im.g.transIcnt == NO_CALL_YET && x.calls > 0
            then AlikeTurns(Run(isa, Trace(Legible(ts)), Booted(im, m, 0), i + n), TurnOf(end, sim.Now()))
            else end.Failing?
  {
    hide HeadTerms, Same, Run, Legible, AllCounted, Alike, ImageOk, HoldsImage, IsaOk, Dumped, Sound;
    hide Exo.PrintAll, Exo.Behind, Printable, Grown, CountsTo, Mem.TableOk, Mem.PagesOk, Mem.Agrees;
    ghost var lead := HeadTerms(im, |pages|) + pages;
    ghost var all, j, w := lead + ts, |lead|, Trace(Legible(ts));
    assert all[j..] == ts;
    var ok, regs, g, mem, eio, reader :=
      LoadBoth(text, chkpt, isa, stray, im, pages, ts, flat, m, i, x, stray1, im1, pages1);
    sim := new Simulator(isa, regs, mem, eio, g.icnt, x.calls);
    if !ok {
      return Failing, sim;
    }
    LegibleIsRegular(ts);
    ReachesIs(isa, im, m, ts, i, x);
    ImageIs(im1, x);
    SameAgain(im1, x, mem.flat);
    assert sim.Now() == Booted(im1, mem.flat, x.calls);
    RunSplits(isa, w, Booted(im, m, 0), i, n);
    AlikeRuns(isa, w, x, sim.Now(), n);
    end := ReplayAll(sim, reader, n, stray, all, j);
  }

  // ---------- end to end ----------

  /** The globals of a simulation that started with these. */
  function Current(g: Globals, transIcnt: nat, icnt: nat, brk: nat): Globals {
    g.(transIcnt := transIcnt, icnt := icnt, brk := brk)
  }

  lemma CheckpointFits(g: Globals, x: Machine)
    requires Shaped(x.cpu) && Sound(x) && x.icnt < WORD64 && x.transIcnt < WORD64 && g.stackMin < WORD64
    requires SegmentOk(g.text) && SegmentOk(g.data) && SegmentOk(g.stack)
    ensures var z := Zeroed(x.cpu);
            var im := Image(Current(g, x.transIcnt, x.icnt, x.brk), z.pc, z.uniq, z.arch);
            ImageOk(im) && HoldsImage(im, x)
  {
    ZeroedFits(x.cpu);
  }

  lemma ReachesFits(isa: Isa, im: Image, m: map<nat, byte>, ts: seq<Term>, i: nat, x: Machine)
    requires Reaches(isa, im, m, ts, i, x) && AllCounted(ts) && im.g.transIcnt == NO_CALL_YET
    requires im.g.icnt + i < WORD64
    ensures Sound(x) && Shaped(x.cpu) && x.icnt < WORD64 && x.transIcnt < WORD64 && im.g.stackMin < WORD64
    ensures SegmentOk(im.g.text) && SegmentOk(im.g.data) && SegmentOk(im.g.stack)
  {
    hide Legible, AllCounted, Words, Wrap, Grown, Run;
    ReachesIs(isa, im, m, ts, i, x);
  }

  /** The checkpoint that the loop writes before an instruction. */
  method MakeCheckpoint(sim: Simulator, stray: bool, g: Globals, ghost im: Image, ghost m: map<nat, byte>,
                        ghost ts: seq<Term>, ghost i: nat)
      returns (chkpt: string, small: bool, ghost im1: Image, ghost pages: seq<Term>)
    requires sim.Valid() && Reaches(sim.isa, im, m, ts, i, sim.Now()) && AllCounted(ts) && g == im.g
    requires im.g.transIcnt == NO_CALL_YET && im.g.icnt + i < WORD64
    modifies sim.regs`f, sim.regs.r
    ensures sim.Valid() && Alike(old(sim.Now()), sim.Now())
    ensures HoldsImage(im1, old(sim.Now())) && (small <==> |pages| < Exo.INT_LIMIT)
    ensures small ==> Holds(chkpt, stray, im1, pages, [], old(sim.mem.flat))
  {
    hide Dumped, Same, HeadTerms, ImageOk, Exo.PrintAll, Sound, HoldsImage, ZeroRegs, Reaches, AllCounted, SegmentOk;
    hide Mem.TableOk, Mem.PagesOk, Mem.Agrees;
    ReachesFits(sim.isa, im, m, ts, i, sim.Now());
    CheckpointFits(g, sim.Now());
    ClearedIsAlike(sim.Now());
    sim.Clear();
    RegsAside(sim.mem, sim.regs, sim.regs.r);
    var g1 := Current(g, sim.eio.transIcnt, sim.icnt, sim.eio.brk);
    im1 := Image(g1, sim.regs.pc, sim.regs.uniq, sim.regs.Now());
    chkpt, pages := Dump(stray, sim.regs, g1, sim.mem);
    small := sim.mem.pageCount < Exo.INT_LIMIT;
    assert HeadTerms(im1, |pages|) + pages + [] == HeadTerms(im1, |pages|) + pages;
  }

  lemma ClearedIsAlike(x: Machine)
    requires Shaped(x.cpu)
    ensures Alike(x, x.(cpu := Zeroed(x.cpu)))
  {
  }

  /** The run of a loaded machine, whatever its memory, from the state in front of instruction i. */
  lemma GoesOn(isa: Isa, im: Image, flat: map<nat, byte>, m: map<nat, byte>, ts: seq<Term>, i: nat, n: nat,
               x: Machine, y: Machine)
    requires Same(flat, m) && Reaches(isa, im, m, ts, i, x) && Shaped(y.cpu) && Alike(x, y)
    ensures Shaped(Booted(im, flat, 0).cpu)
    ensures var w := Trace(Legible(ts));
            && AlikeTurns(Run(isa, w, Booted(im, flat, 0), i + n), Run(isa, w, y, n))
            && AlikeTurns(Run(isa, w, Booted(im, m, 0), i + n), Run(isa, w, y, n))
            && Run(isa, w, Booted(im, flat, 0), i).Went? && Alike(Run(isa, w, Booted(im, flat, 0), i).s, x)
  {
    hide Legible, Same, ImageOk, IsaOk, Alike, Run;
    var w, s, s' := Trace(Legible(ts)), Booted(im, flat, 0), Booted(im, m, 0);
    SameBoot(im, flat, m);
    AlikeRuns(isa, w, s, s', i);
    AlikeRuns(isa, w, s, s', i + n);
    RunSplits(isa, w, s', i, n);
    AlikeRuns(isa, w, x, y, n);
    AlikeThrough(Run(isa, w, s, i + n), Run(isa, w, s', i + n), Run(isa, w, y, n));
  }

  /** And if it ends before. */
  lemma EndsBefore(isa: Isa, im: Image, flat: map<nat, byte>, m: map<nat, byte>, ts: seq<Term>, i: nat, n: nat)
    requires Same(flat, m) && ImageOk(im) && IsaOk(isa) && i <= n
    ensures Shaped(Booted(im, flat, 0).cpu) && Shaped(Booted(im, m, 0).cpu)
    ensures var w := Trace(Legible(ts));
            var a, b := Run(isa, w, Booted(im, flat, 0), i), Run(isa, w, Booted(im, m, 0), i);
            !b.Went? ==> a == b && Run(isa, w, Booted(im, flat, 0), n) == b
  {
    hide Legible, Same, ImageOk, IsaOk, Alike, Run;
    var w := Trace(Legible(ts));
    SameBoot(im, flat, m);
    AlikeRuns(isa, w, Booted(im, flat, 0), Booted(im, m, 0), i);
    if !Run(isa, w, Booted(im, flat, 0), i).Went? {
      EndsForGood(isa, w, Booted(im, flat, 0), i, n);
    }
  }

  /** A simulation of i instructions on a trace file. */
  method RunTo(text: string, isa: Isa, i: nat, ghost stray: bool, ghost im: Image, ghost pages: seq<Term>,
               ghost ts: seq<Term>, ghost flat: map<nat, byte>)
      returns (end: Ending, sim: Simulator, reader: Exo.Reader, g: Globals, ghost m: map<nat, byte>)
    requires Holds(text, stray, im, pages, ts, flat) && AllCounted(ts) && IsaOk(isa) && im.g.transIcnt == NO_CALL_YET
    ensures fresh(sim) && fresh(sim.regs) && fresh(sim.regs.r) && fresh(sim.eio) && fresh(reader)
    ensures fresh(sim.mem) && fresh(sim.mem.ptab)
    ensures end.Continuing? ==> fresh(sim.mem.nodes) && fresh(sim.mem.Pages())
    ensures sim.isa == isa && g == im.g && Same(flat, m) && Shaped(Booted(im, m, 0).cpu)
    ensures Run(isa, Trace(Legible(ts)), Booted(im, m, 0), i) == TurnOf(end, sim.Now())
    ensures end.Continuing? ==> sim.Valid()
    ensures end.Continuing? ==>
              Ready(reader, stray, HeadTerms(im, |pages|) + pages + ts, HEAD_TERMS + |pages|, sim.calls)
  {
    hide HeadTerms, Same, Run, Legible, AllCounted, ImageOk, IsaOk, Dumped, Ready, Sound;
    hide Exo.PrintAll, Printable, Mem.TableOk, Mem.PagesOk, Mem.Agrees;
    LegibleIsRegular(ts);
    ghost var all, j := HeadTerms(im, |pages|) + pages + ts, HEAD_TERMS + |pages|;
    assert all[j..] == ts;
    var ok;
    ok, sim, reader, g := Boot(text, isa, stray, im, pages, ts, flat);
    m := sim.mem.flat;
    BootedIsSound(im, m, 0);
    end := ReplayAll(sim, reader, i, stray, all, j);
  }

  /** A simulation of i + n instructions on a trace file that writes a checkpoint in front of
      instruction i, and a second one that resumes from it. The checkpoint does not disturb the
      first, and the second ends as the first does, if a call had been made by then; otherwise it
      cannot start. */
  method CheckpointThenResume(text: string, isa: Isa, i: nat, n: nat, stray1: bool, ghost stray: bool, ghost im: Image,
                              ghost pages: seq<Term>, ghost ts: seq<Term>, ghost flat: map<nat, byte>)
      returns (made: bool, end: Ending, sim: Simulator, resumed: Ending, sim': Simulator, ghost x: Machine,
               ghost count: nat)
    requires Holds(text, stray, im, pages, ts, flat) && AllCounted(ts) && IsaOk(isa)
    requires im.g.transIcnt == NO_CALL_YET && im.g.icnt + i < WORD64
    ensures Shaped(Booted(im, flat, 0).cpu)
    ensures var w, s := Trace(Legible(ts)), Booted(im, flat, 0);
            && AlikeTurns(Run(isa, w, s, i + n), TurnOf(end, sim.Now()))
            && (made <==> Run(isa, w, s, i).Went? && count < Exo.INT_LIMIT)
            && (made ==> Alike(Run(isa, w, s, i).s, x))
            && (made ==>
                  if x.calls > 0 then AlikeTurns(TurnOf(end, sim.Now()), TurnOf(resumed, sim'.Now()))
                  else resumed.Failing?)
  {
    hide HeadTerms, Same, Run, Legible, AllCounted, Alike, ImageOk, HoldsImage, IsaOk, Dumped, Booted, Ready;
    hide Exo.PrintAll, Printable, Mem.TableOk, Mem.PagesOk, Mem.Agrees;
    ghost var all, j, w := HeadTerms(im, |pages|) + pages + ts, HEAD_TERMS + |pages|, Trace(Legible(ts));
    assert all[j..] == ts;
    var reader, chkpt, g;
    ghost var m, im1, pages1;
    end, sim, reader, g, m := RunTo(text, isa, i, stray, im, pages, ts, flat);
    x := sim.Now();
    sim', resumed, made, count := sim, Failing, false, 0;
    EndsBefore(isa, im, flat, m, ts, i, i + n);
    if !end.Continuing? {
      return;
    }
    chkpt, made, im1, pages1 := MakeCheckpoint(sim, stray1, g, im, m, ts, i);
    count := |pages1|;
    GoesOn(isa, im, flat, m, ts, i, n, x, sim.Now());
    end := ReplayAll(sim, reader, n, stray, all, j);
    if made {
      ghost var y := sim.Now();
      resumed, sim' :=
        ResumeFromCheckpoint(text, chkpt, isa, n, stray, im, pages, ts, flat, m, i, x, stray1, im1, pages1);
      assert sim.Now() == y;
      if x.calls > 0 {
        AlikeThrough(TurnOf(end, y), Run(isa, w, Booted(im, m, 0), i + n), TurnOf(resumed, sim'.Now()));
      }
    }
  }
}
