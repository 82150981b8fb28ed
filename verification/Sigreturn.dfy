/** sigreturn() under a trace: the call that sets registers a transaction does not hold, and the
    repair of it in sys_syscall(). */
module Sigreturn {
  import opened Bits
  import opened Memory
  import opened Eio
  import opened Wrappers

  // ---------- the signal context ----------

  const CONTEXT_SIZE: nat := 568
  const MD_REG_A0: nat := 16
  const OSF_SYS_SYSCALL: nat := 0
  const OSF_SYS_SIGRETURN: nat := 103

  /** The first n bytes from o on, the low one first. */
  function Word(bytes: seq<byte>, o: nat, n: nat): nat
    requires o + n <= |bytes|
    decreases n
  {
    if n == 0 then 0 else bytes[o] + 256 * Word(bytes, o + 1, n - 1)
  }

  function Words8(bytes: seq<byte>, o: nat, n: nat): (vals: seq<nat>)
    requires o + 8 * n <= |bytes|
    ensures |vals| == n && forall i | 0 <= i < n :: vals[i] == Word(bytes, o + 8 * i, 8)
  {
    if n == 0 then [] else Words8(bytes, o, n - 1) + [Word(bytes, o + 8 * (n - 1), 8)]
  }

  /** struct osf_sigcontext, as far as it is used. */
  function Context(bytes: seq<byte>): (a: Arch)
    requires |bytes| == CONTEXT_SIZE
    ensures |a.r| == NUM_IREGS && |a.f| == NUM_FREGS
  {
    Arch(Words8(bytes, 32, NUM_IREGS), Words8(bytes, 296, NUM_FREGS), Word(bytes, 552, 8), Word(bytes, 16, 8))
  }

  function ContextAt(m: map<nat, byte>, addr: nat): (a: Arch)
    ensures |a.r| == NUM_IREGS && |a.f| == NUM_FREGS
  {
    Context(FlatRead(m, addr, CONTEXT_SIZE))
  }

  function Power256(n: nat): (p: nat)
    ensures p > 0
  {
    if n == 0 then 1 else 256 * Power256(n - 1)
  }

  lemma {:induction false} WordFits(bytes: seq<byte>, o: nat, n: nat)
    requires o + n <= |bytes|
    ensures Word(bytes, o, n) < Power256(n)
    decreases n
  {
    if n > 0 {
      WordFits(bytes, o + 1, n - 1);
    }
  }

  lemma EightBytes()
    ensures Power256(8) == ADDR_SPACE
  {
    assert Power256(4) == 0x1_0000_0000;
  }

  lemma WordsFit(bytes: seq<byte>, o: nat, n: nat)
    requires o + 8 * n <= |bytes|
    ensures Words(Words8(bytes, o, n))
  {
    hide Word, Power256, Words8;
    EightBytes();
    forall i | 0 <= i < n ensures Words8(bytes, o, n)[i] < ADDR_SPACE {
      WordFits(bytes, o + 8 * i, 8);
    }
  }

  /** The fields of a signal context are words of 64 bits. */
  lemma ContextFits(m: map<nat, byte>, addr: nat)
    ensures ArchOk(ContextAt(m, addr))
  {
    hide Word, Power256, Words, Words8;
    var bytes := FlatRead(m, addr, CONTEXT_SIZE);
    EightBytes();
    WordsFit(bytes, 32, NUM_IREGS);
    WordsFit(bytes, 296, NUM_FREGS);
    WordFits(bytes, 552, 8);
    WordFits(bytes, 16, 8);
  }

  // ---------- the signal context, byte by byte ----------

  /** The value is the eight bytes from a on, the low one first. */
  predicate QwordAt(v: nat, m: map<nat, byte>, a: nat) {
    v < ADDR_SPACE && forall k: nat | k < 8 :: v / Power256(k) % 256 == Get(m, Wrap(a + k))
  }

  /** struct osf_sigcontext at an address: where each register is restored from. */
  predicate RestoredFrom(a: Arch, m: map<nat, byte>, addr: nat) {
    && |a.r| == |a.f| == 32
    && (forall i: nat | i < 32 :: QwordAt(a.r[i], m, addr + 32 + 8 * i))
    && (forall i: nat | i < 32 :: QwordAt(a.f[i], m, addr + 296 + 8 * i))
    && QwordAt(a.fpcr, m, addr + 552)
    && QwordAt(a.npc, m, addr + 16)
  }

  lemma DigitsBehind(b: nat, w: nat, p: nat)
    requires b < 256 && p > 0
    ensures 256 * p > 0 && (b + 256 * w) / (256 * p) == w / p
  {
    var q, r := w / p, w % p;
    assert w == p * q + r;
    assert b + 256 * w == (256 * p) * q + (256 * r + b) by {
      assert 256 * (p * q) == (256 * p) * q;
    }
    assert 256 * r + b < 256 * p;
    QuotientIs(b + 256 * w, 256 * p, q, 256 * r + b);
  }

  /** A word has its bytes as digits. */
  lemma {:induction false} WordDigit(bytes: seq<byte>, o: nat, n: nat, k: nat)
    requires o + n <= |bytes| && k < n
    ensures Word(bytes, o, n) / Power256(k) % 256 == bytes[o + k]
    decreases n
  {
    var w := Word(bytes, o + 1, n - 1);
    if k == 0 {
      assert Word(bytes, o, n) == bytes[o] + 256 * w;
    } else {
      WordDigit(bytes, o + 1, n - 1, k - 1);
      DigitsBehind(bytes[o] as nat, w, Power256(k - 1));
    }
  }

  lemma WordIsQword(m: map<nat, byte>, addr: nat, o: nat)
    requires o + 8 <= CONTEXT_SIZE
    ensures QwordAt(Word(FlatRead(m, addr, CONTEXT_SIZE), o, 8), m, addr + o)
  {
    hide Word, Power256, FlatRead, Wrap;
    var bytes := FlatRead(m, addr, CONTEXT_SIZE);
    EightBytes();
    WordFits(bytes, o, 8);
    forall k: nat | k < 8
      ensures Word(bytes, o, 8) / Power256(k) % 256 == Get(m, Wrap(addr + o + k))
    {
      WordDigit(bytes, o, 8, k);
    }
  }

  /** Where each byte of a restored register comes from, for every memory and address. */
  lemma ContextBytes(m: map<nat, byte>, addr: nat)
    ensures RestoredFrom(ContextAt(m, addr), m, addr)
  {
    hide Word, Words8, QwordAt, FlatRead;
    var a := ContextAt(m, addr);
    forall i: nat | i < 32 ensures QwordAt(a.r[i], m, addr + 32 + 8 * i) && QwordAt(a.f[i], m, addr + 296 + 8 * i) {
      WordIsQword(m, addr, 32 + 8 * i);
      WordIsQword(m, addr, 296 + 8 * i);
    }
    WordIsQword(m, addr, 552);
    WordIsQword(m, addr, 16);
  }

  // ---------- the call ----------

  /** mem_bcopy() reads byte by byte. */
  function Loads(addr: nat, n: nat): (ops: seq<Op>)
    ensures |ops| == n && forall k | 0 <= k < n :: ops[k] == Op.Load(Wrap(addr + k), 1)
  {
    if n == 0 then [] else Loads(addr, n - 1) + [Op.Load(Wrap(addr + n - 1), 1)]
  }

  /** The call from these registers and this memory. */
  function SigreturnCall(m: map<nat, byte>, r: seq<nat>, brk: nat): Call
    requires |r| == NUM_IREGS
  {
    Call(Loads(r[MD_REG_A0], CONTEXT_SIZE), ContextAt(m, r[MD_REG_A0]), brk)
  }

  /** The registers behind the call come from the context, wherever it is. */
  lemma SigreturnSets(m: map<nat, byte>, r: seq<nat>, brk: nat)
    requires |r| == NUM_IREGS
    ensures var call := SigreturnCall(m, r, brk); RestoredFrom(call.after, m, r[16]) && call.brk == brk
  {
    hide RestoredFrom, ContextAt;
    ContextBytes(m, r[16]);
  }

  /** What it reads is the context. */
  lemma {:induction false} LoadsInputs(m: map<nat, byte>, addr: nat, n: nat)
    ensures Inputs(m, Loads(addr, n)) == Touches(addr, FlatRead(m, addr, n)) && Outputs(Loads(addr, n)) == []
  {
    hide Wrap, Touches, FlatRead;
    if n > 0 {
      LoadsInputs(m, addr, n - 1);
      var ops := Loads(addr, n);
      assert ops[..n - 1] == Loads(addr, n - 1);
      OneByte(m, addr + n - 1);
      LastByte(m, addr, n);
    } else {
      assert Touches(addr, FlatRead(m, addr, 0)) == [];
    }
  }

  lemma OneByte(m: map<nat, byte>, a: nat)
    ensures Touches(Wrap(a), FlatRead(m, Wrap(a), 1)) == [Touch(Wrap(a), Get(m, Wrap(a)))]
  {
    hide Wrap, FlatRead, Touches;
    var b := Wrap(a);
    OneByteRead(m, b);
    WrapSmall(b);
    assert Touches(b, [Get(m, b)])[0] == Touch(Wrap(b + 0), Get(m, b));
  }

  lemma LastByte(m: map<nat, byte>, addr: nat, n: nat)
    requires n > 0
    ensures var a := Wrap(addr + n - 1);
            Touches(addr, FlatRead(m, addr, n)) == Touches(addr, FlatRead(m, addr, n - 1)) + [Touch(a, Get(m, a))]
  {
    hide Wrap;
    var bs := FlatRead(m, addr, n);
    assert bs[..n - 1] == FlatRead(m, addr, n - 1);
  }

  // ---------- what a replay makes of it ----------

  /** Behind the replay of the transaction, the registers that it does not hold are those from
      before the call: the replay is right if and only if the context has the same there. */
  lemma SigreturnByTrace(before: Arch, m: map<nat, byte>, brk: nat)
    requires |before.r| == NUM_IREGS
    ensures var after := SigreturnCall(m, before.r, brk).after;
            AfterReplay(before, after.r[..NUM_TRACED] + before.r[NUM_TRACED..]) == after <==>
            UntracedSame(before, ContextAt(m, before.r[MD_REG_A0]))
  {
    hide ContextAt, UntracedSame;
    ReplayGivesWholeState(before, SigreturnCall(m, before.r, brk));
  }

  /** The registers behind sys_syscall() on a trace: it reads the context again, from where A0
      points by then. */
  function Repaired(m: map<nat, byte>, replayed: Arch): Arch
    requires |replayed.r| == NUM_IREGS
  {
    ContextAt(m, replayed.r[MD_REG_A0])
  }

  /** By then A0 holds what the context has for it, not where the context is: the repair is right
      if and only if the context at that other place is the same. */
  lemma SigreturnRepaired(before: Arch, m: map<nat, byte>, brk: nat)
    requires |before.r| == NUM_IREGS
    ensures var after := SigreturnCall(m, before.r, brk).after;
            var replayed := AfterReplay(before, after.r[..NUM_TRACED] + before.r[NUM_TRACED..]);
            && Repaired(m, replayed) == ContextAt(m, after.r[MD_REG_A0])
            && (Repaired(m, replayed) == after <==>
                ContextAt(m, after.r[MD_REG_A0]) == ContextAt(m, before.r[MD_REG_A0]))
  {
    hide ContextAt;
  }

  /** syscall() makes the call that its argument names. */
  function Syscode(v0: nat, a0: nat): nat {
    if v0 == OSF_SYS_SYSCALL then a0 else v0
  }

  /** The registers behind sys_syscall() on a trace, when the replay of the transaction left these
      integer registers and this memory. */
  function AfterSyscall(before: Arch, r: seq<nat>, m: map<nat, byte>): (after: Arch)
    requires |before.r| == |r| == NUM_IREGS
    ensures |after.r| == NUM_IREGS && (|before.f| == NUM_FREGS ==> |after.f| == NUM_FREGS)
  {
    var replayed := AfterReplay(before, r);
    if Syscode(before.r[0], before.r[MD_REG_A0]) == OSF_SYS_SIGRETURN then Repaired(m, replayed) else replayed
  }

  /** sys_syscall() while a trace is consumed. */
  method SysSyscall(player: Tracer, exo: Option<Term>, icnt: nat, regs: Regs, mem: Mem) returns (end: Ending)
    requires regs.Valid() && mem.Valid()
    modifies player`brk, player`transIcnt, regs`f, regs`fpcr, regs`npc, regs.r
    modifies mem, mem.ptab, mem.nodes`next, mem.Pages()
    ensures var goal := old(Replayed(exo, icnt, regs.pc, regs.r[..], mem.flat));
            match end
            case Exiting => goal.Exits?
            case Failing => goal.Fatal?
            case Continuing =>
              && mem.Valid() && mem.OnlyNewPages() && goal.Done? && |goal.regs| == NUM_IREGS
              && mem.flat == goal.mem && player.brk == goal.brk && player.transIcnt == icnt
              && regs.Now() == AfterSyscall(old(regs.Now()), goal.regs, mem.flat)
              && var v0, a0 := old(regs.r[0]), old(regs.r[16]);
                 if v0 == 103 || (v0 == 0 && a0 == 103) then RestoredFrom(regs.Now(), mem.flat, goal.regs[16])
                 else regs.r[..] == goal.regs && regs.f == old(regs.f) && regs.fpcr == old(regs.fpcr) &&
                      regs.npc == old(regs.npc)
  {
    hide mem.TableOk, mem.PagesOk, mem.Agrees, Replayed, Context, RestoredFrom;
    var syscode := Syscode(regs.r[0], regs.r[MD_REG_A0]);
    assert regs.r[..][0] == regs.r[0];
    ghost var before := regs.Now();
    end := player.ReadTrace(exo, icnt, regs, mem);
    if end.Continuing? && syscode == OSF_SYS_SIGRETURN {
      assert regs.r[..][MD_REG_A0] == regs.r[MD_REG_A0];
      var sc := ReadContext(regs.r[MD_REG_A0], mem);
      assert regs.Now() == AfterReplay(before, regs.r[..]);
      regs.Set(sc);
      assert regs.r[..] == sc.r;
    }
  }

  method ReadContext(addr: nat, mem: Mem) returns (sc: Arch)
    requires mem.Valid()
    modifies mem, mem.ptab, mem.nodes`next, mem.Pages()
    ensures mem.Valid() && mem.OnlyNewPages() && mem.flat == old(mem.flat)
    ensures sc == ContextAt(mem.flat, addr) && RestoredFrom(sc, mem.flat, addr)
  {
    hide mem.TableOk, mem.PagesOk, mem.Agrees, Context, RestoredFrom;
    var host := new byte[CONTEXT_SIZE](i => 0);
    var _ := mem.BCopy(Cmd.Read, Wrap(addr), host, CONTEXT_SIZE);
    ReadWraps(mem.flat, addr, CONTEXT_SIZE);
    assert host[..] == FlatRead(mem.flat, addr, CONTEXT_SIZE);
    sc := Context(host[..]);
    ContextBytes(mem.flat, addr);
  }

  lemma ReadWraps(m: map<nat, byte>, addr: nat, n: nat)
    ensures FlatRead(m, Wrap(addr), n) == FlatRead(m, addr, n)
  {
    hide Wrap;
    forall k | 0 <= k < n ensures FlatRead(m, Wrap(addr), n)[k] == FlatRead(m, addr, n)[k] {
      WrapTwice(addr, k);
    }
  }

  // ---------- an input that fails both ways, and one that the repair is right for ----------

  lemma {:induction false} ZeroWord(bytes: seq<byte>, o: nat, n: nat)
    requires o + n <= |bytes| && forall k | o <= k < o + n :: bytes[k] == 0
    ensures Word(bytes, o, n) == 0
    decreases n
  {
    if n > 0 {
      ZeroWord(bytes, o + 1, n - 1);
    }
  }

  lemma SmallWord(bytes: seq<byte>, o: nat)
    requires o + 8 <= |bytes| && forall k | o < k < o + 8 :: bytes[k] == 0
    ensures Word(bytes, o, 8) == bytes[o]
  {
    hide Word;
    ZeroWord(bytes, o + 1, 7);
    WordIs(bytes, o, 8);
  }

  lemma WordIs(bytes: seq<byte>, o: nat, n: nat)
    requires 0 < n && o + n <= |bytes|
    ensures Word(bytes, o, n) == bytes[o] + 256 * Word(bytes, o + 1, n - 1)
  {
  }

  function Cleared(): (z: seq<nat>)
    ensures |z| == 32 && forall i | 0 <= i < 32 :: z[i] == 0
  {
    seq(32, i => 0)
  }

  lemma ZeroWords(bytes: seq<byte>, o: nat)
    requires o + 256 <= |bytes| && forall k | o <= k < o + 256 :: bytes[k] == 0
    ensures Words8(bytes, o, 32) == Cleared()
  {
    hide Word, Words8;
    forall i | 0 <= i < 32 ensures Words8(bytes, o, 32)[i] == 0 {
      ZeroWord(bytes, o + 8 * i, 8);
    }
  }

  /** Memory that is zero but for the low byte of the floating-point control register of a
      context at 8, and registers that call sigreturn() on it. */
  const ONE_BYTE: map<nat, byte> := map[560 := 1]
  function Caller(): (a: Arch)
    ensures |a.r| == NUM_IREGS && |a.f| == NUM_FREGS
  {
    Arch(Cleared()[0 := OSF_SYS_SIGRETURN][MD_REG_A0 := 8], Cleared(), 0, 0)
  }

  lemma OneByteContext(addr: nat)
    requires addr == 0 || addr == 8
    ensures ContextAt(ONE_BYTE, addr) == Arch(Cleared(), Cleared(), if addr == 8 then 1 else 0, 0)
  {
    hide Word, Words8, FlatRead;
    var bytes := FlatRead(ONE_BYTE, addr, CONTEXT_SIZE);
    forall k | 0 <= k < CONTEXT_SIZE ensures bytes[k] == if addr + k == 560 then 1 else 0 {
      SmallRead(ONE_BYTE, addr, k);
    }
    ZeroWords(bytes, 32);
    ZeroWords(bytes, 296);
    SmallWord(bytes, 552);
    ZeroWord(bytes, 16, 8);
  }

  lemma SmallRead(m: map<nat, byte>, addr: nat, k: nat)
    requires addr <= 8 && k < CONTEXT_SIZE
    ensures FlatRead(m, addr, CONTEXT_SIZE)[k] == Get(m, addr + k)
  {
    hide FlatRead, Wrap;
    WrapSmall(addr + k);
  }

  /** Neither the replay of the transaction nor the repair gives the control register 1. */
  lemma SigreturnFails(brk: nat)
    ensures var after := SigreturnCall(ONE_BYTE, Caller().r, brk).after;
            var replayed := AfterReplay(Caller(), after.r[..NUM_TRACED] + Caller().r[NUM_TRACED..]);
            after.fpcr == 1 && replayed.fpcr == 0 && Repaired(ONE_BYTE, replayed).fpcr == 0
  {
    hide ContextAt;
    OneByteContext(0);
    OneByteContext(8);
    SigreturnRepaired(Caller(), ONE_BYTE, brk);
  }

  /** The next program counter comes from the third word of the context, here 4096. */
  lemma SigreturnJumps(brk: nat)
    ensures SigreturnCall(map[25 := 16, 168 := 8], Caller().r, brk).after.npc == 4096
  {
    hide Word, Words8, FlatRead;
    var m: map<nat, byte> := map[25 := 16, 168 := 8];
    var bytes := FlatRead(m, 8, CONTEXT_SIZE);
    forall k | 16 <= k < 24 ensures bytes[k] == if k == 17 then 16 else 0 {
      SmallRead(m, 8, k);
    }
    SmallWord7(bytes, 17);
    WordIs(bytes, 16, 8);
  }

  lemma SmallWord7(bytes: seq<byte>, o: nat)
    requires o + 7 <= |bytes| && forall k | o < k < o + 7 :: bytes[k] == 0
    ensures Word(bytes, o, 7) == bytes[o]
  {
    hide Word;
    ZeroWord(bytes, o + 1, 6);
    WordIs(bytes, o, 7);
  }

  /** The same context, with its own address for A0. */
  const TWO_BYTES: map<nat, byte> := map[168 := 8, 560 := 1]

  /** Here the transaction is not enough, and the repair gives every register. */
  lemma SigreturnHolds(brk: nat)
    ensures var after := SigreturnCall(TWO_BYTES, Caller().r, brk).after;
            var replayed := AfterReplay(Caller(), after.r[..NUM_TRACED] + Caller().r[NUM_TRACED..]);
            !UntracedSame(Caller(), after) && replayed != after && Repaired(TWO_BYTES, replayed) == after
  {
    hide Word, Words8, FlatRead;
    var bytes, after := FlatRead(TWO_BYTES, 8, CONTEXT_SIZE), ContextAt(TWO_BYTES, 8);
    forall k | 0 <= k < CONTEXT_SIZE ensures bytes[k] == if k == 160 then 8 else if k == 552 then 1 else 0 {
      SmallRead(TWO_BYTES, 8, k);
    }
    SmallWord(bytes, 160);
    SmallWord(bytes, 552);
    assert after.r[MD_REG_A0] == 8 && after.fpcr == 1;
    hide ContextAt;
    SigreturnRepaired(Caller(), TWO_BYTES, brk);
  }
}
