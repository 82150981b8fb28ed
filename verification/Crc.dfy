/** The table-driven CRC of misc.c, against long division over GF(2). */
module Crc {
  /** The generator polynomial of IEEE Std 802.3, section 3.2.9, without its leading term. */
  const POLYNOMIAL: bv32 := 0x04c11db7

  // ---------- division over GF(2) ----------

  /** Exclusive or, and the two looks at the top of the register, by name: the algebra below
      does not need to see single bits. */
  function Xor(a: bv32, b: bv32): bv32 {
    a ^ b
  }

  function Up(a: bv32): bv32 {
    a << 1
  }

  predicate Top(a: bv32) {
    a & 0x80000000 != 0
  }

  /** Multiply by x and reduce: one step of the shift register. */
  function Times(a: bv32): bv32 {
    if Top(a) then Xor(Up(a), POLYNOMIAL) else Up(a)
  }

  function TimesN(a: bv32, n: nat): bv32 {
    if n == 0 then a else Times(TimesN(a, n - 1))
  }

  function BitAt0(b: bool): bv32 {
    if b then 1 else 0
  }

  /** Long division, one dividend bit at a time: the remainder so far is shifted up, the next
      bit of the dividend is brought down, and the generator is subtracted when it fits. */
  function Remainder(dividend: seq<bool>): bv32 {
    if dividend == [] then 0
    else Xor(Times(Remainder(dividend[..|dividend| - 1])), BitAt0(dividend[|dividend| - 1]))
  }

  function Zeros(n: nat): (s: seq<bool>)
    ensures |s| == n && forall i | 0 <= i < n :: !s[i]
  {
    if n == 0 then [] else Zeros(n - 1) + [false]
  }

  /** Sum of two polynomials of the same length. */
  function Sum(s: seq<bool>, t: seq<bool>): (r: seq<bool>)
    requires |s| == |t|
    ensures |r| == |s|
  {
    seq(|s|, i requires 0 <= i < |s| => s[i] != t[i])
  }

  function Down(a: bv32): bv32 {
    a >> 1
  }

  function Down8(r: bv32): bv32 {
    r >> 8
  }

  predicate Odd(a: bv32) {
    a & 1 != 0
  }

  /** The low k bits of r, highest first. */
  function LowBits(r: bv32, k: nat): (s: seq<bool>)
    ensures |s| == k
    decreases k
  {
    if k == 0 then [] else LowBits(Down(r), k - 1) + [Odd(r)]
  }

  /** Byte j of a data word, counted from the low end (with higher bytes still above it). */
  function Lane(data: bv32, j: nat): bv32
  {
    if j == 0 then data else Down8(Lane(data, j - 1))
  }

  /** The first j bytes of a data word as they are consumed: low byte first, each byte high
      bit first. */
  function LaneBits(w: bv32, j: nat): (s: seq<bool>)
    requires j <= 4
    ensures |s| == 8 * j
  {
    if j == 0 then [] else LaneBits(w, j - 1) + LowBits(Lane(w, j - 1), 8)
  }

  function MessageBits(words: seq<bv32>): (s: seq<bool>)
    ensures |s| == 32 * |words|
  {
    if words == [] then [] else MessageBits(words[..|words| - 1]) + LaneBits(words[|words| - 1], 4)
  }

  // ---------- the code ----------

  function Up8(a: bv32): bv32 {
    a << 8
  }

  function Up24(a: bv32): bv32 {
    a << 24
  }

  /** The remainder that the table holds for a byte. */
  function Entry(b: bv32): bv32 {
    TimesN(Up24(b), 8)
  }

  function Index(acc: bv32, b: bv32): (i: bv32)
    ensures i <= 0xff
  {
    ((acc >> 24) ^ b) & 0xff
  }

  function NextByte(acc: bv32, b: bv32): bv32 {
    Xor(Up8(acc), Entry(Index(acc, b)))
  }

  function NextBytes(acc: bv32, data: bv32, j: nat): bv32
    requires j <= 4
  {
    if j == 0 then acc else NextByte(NextBytes(acc, data, j - 1), Lane(data, j - 1))
  }

  function NextWord(acc: bv32, data: bv32): bv32 {
    NextBytes(acc, data, 4)
  }

  function CrcOf(acc: bv32, words: seq<bv32>): bv32 {
    if words == [] then acc else NextWord(CrcOf(acc, words[..|words| - 1]), words[|words| - 1])
  }

  class Generator {
    var init: bool
    const table: array<bv32>

    ghost predicate Valid()
      reads this, table
    {
      table.Length == 256 && (init ==> forall i | 0 <= i < 256 :: table[i] == Entry(i as bv32))
    }

    constructor ()
      ensures Valid() && fresh(table)
    {
      init := false;
      table := new bv32[256];
    }

    method GenTab()
      requires table.Length == 256
      modifies table
      ensures forall i | 0 <= i < 256 :: table[i] == Entry(i as bv32)
    {
      hide Times, Up24;
      for i := 0 to 256
        invariant forall k | 0 <= k < i :: table[k] == Entry(k as bv32)
      {
        var accum := Up24(i as bv32);
        for j := 0 to 8
          invariant accum == TimesN(Up24(i as bv32), j)
          invariant forall k | 0 <= k < i :: table[k] == Entry(k as bv32)
        {
          accum := Times(accum);
        }
        table[i] := accum;
      }
    }

    method Update(acc: bv32, data: bv32) returns (r: bv32)
      requires Valid()
      modifies this, table
      ensures Valid() && init && r == NextWord(acc, data)
    {
      hide Entry, Lane, Index, Xor, Up8;
      if !init {
        GenTab();
        init := true;
      }
      r := acc;
      for j := 0 to 4
        invariant Valid() && init && r == NextBytes(acc, data, j)
      {
        var i := Index(r, Lane(data, j));
        ByteIndex(i);
        assert table[i as int] == Entry(i);
        r := Xor(Up8(r), table[i as int]);
      }
    }
  }

  lemma ByteIndex(i: bv32)
    requires i <= 0xff
    ensures i as int < 256 && (i as int) as bv32 == i
  {
  }

  // ---------- exclusive or ----------

  lemma XorZero(a: bv32)
    ensures Xor(a, 0) == a
  {
  }

  lemma XorAssoc(a: bv32, b: bv32, c: bv32)
    ensures Xor(Xor(a, b), c) == Xor(a, Xor(b, c))
  {
  }

  lemma XorSelf(a: bv32)
    ensures Xor(a, a) == 0
  {
  }

  lemma XorComm(a: bv32, b: bv32)
    ensures Xor(a, b) == Xor(b, a)
  {
  }

  lemma XorMove(a: bv32, b: bv32, c: bv32)
    ensures Xor(Xor(a, c), b) == Xor(Xor(a, b), c) == Xor(a, Xor(b, c))
  {
    hide Xor;
    XorAssoc(a, c, b);
    XorAssoc(a, b, c);
    XorComm(b, c);
  }

  lemma XorSwap(a: bv32, b: bv32, c: bv32, d: bv32)
    ensures Xor(Xor(a, b), Xor(c, d)) == Xor(Xor(a, c), Xor(b, d))
  {
    hide Xor;
    XorAssoc(Xor(a, b), c, d);
    XorMove(a, c, b);
    XorAssoc(Xor(a, c), b, d);
  }

  lemma XorCancel(a: bv32, b: bv32, c: bv32)
    ensures Xor(Xor(a, c), Xor(b, c)) == Xor(a, b)
  {
    hide Xor;
    XorSwap(a, c, b, c);
    XorSelf(c);
    XorZero(Xor(a, b));
  }

  // ---------- the shift register is linear ----------

  lemma TimesLinear(a: bv32, b: bv32)
    ensures Times(Xor(a, b)) == Xor(Times(a), Times(b))
  {
    hide Xor, Up, Top;
    UpLinear(a, b);
    TopLinear(a, b);
    XorCancel(Up(a), Up(b), POLYNOMIAL);
    XorMove(Up(a), Up(b), POLYNOMIAL);
  }

  lemma UpLinear(a: bv32, b: bv32)
    ensures Up(Xor(a, b)) == Xor(Up(a), Up(b))
  {
  }

  lemma TopLinear(a: bv32, b: bv32)
    ensures Top(Xor(a, b)) == (Top(a) != Top(b))
  {
  }

  lemma {:induction false} TimesNLinear(a: bv32, b: bv32, n: nat)
    ensures TimesN(Xor(a, b), n) == Xor(TimesN(a, n), TimesN(b, n))
  {
    hide Times, Xor;
    if n > 0 {
      TimesNLinear(a, b, n - 1);
      TimesLinear(TimesN(a, n - 1), TimesN(b, n - 1));
    }
  }

  lemma {:induction false} TimesNAdds(a: bv32, m: nat, n: nat)
    ensures TimesN(TimesN(a, m), n) == TimesN(a, m + n)
  {
    hide Times;
    if n > 0 {
      TimesNAdds(a, m, n - 1);
    }
  }

  lemma {:induction false} TimesNZero(n: nat)
    ensures TimesN(0, n) == 0
  {
    hide Times;
    ZeroTimes();
    if n > 0 {
      TimesNZero(n - 1);
    }
  }

  lemma ZeroTimes()
    ensures Times(0) == 0
  {
  }

  /** Shifting bits out of a part of the register that is empty needs no reduction. */
  predicate Clear(a: bv32, k: nat)
    decreases k
  {
    k == 0 || (!Top(a) && Clear(Up(a), k - 1))
  }

  function UpN(a: bv32, k: nat): bv32
    decreases k
  {
    if k == 0 then a else UpN(Up(a), k - 1)
  }

  lemma {:induction false} PlainShifts(a: bv32, k: nat)
    requires Clear(a, k)
    ensures TimesN(a, k) == UpN(a, k)
    decreases k
  {
    hide Up, Top;
    if k > 0 {
      PlainShifts(Up(a), k - 1);
      TimesNAdds(a, 1, k - 1);
      assert TimesN(a, 1) == Times(TimesN(a, 0)) == Up(a);
    }
  }

  /** A register whose high byte is empty takes eight steps without reduction. */
  lemma EightPlainShifts(a: bv32)
    requires a <= 0x00ffffff
    ensures TimesN(a, 8) == Up8(a)
  {
    hide TimesN, Clear, UpN;
    EightUps(a);
    PlainShifts(a, 8);
  }

  lemma EightUps(a: bv32)
    requires a <= 0x00ffffff
    ensures Clear(a, 8) && UpN(a, 8) == Up8(a)
  {
    hide Up, Top;
    var a1 := Up(a);
    var a2 := Up(a1);
    var a3 := Up(a2);
    var a4 := Up(a3);
    UpBound(a, 0x00ffffff);
    UpBound(a1, 0x01ffffff);
    UpBound(a2, 0x03ffffff);
    UpBound(a3, 0x07ffffff);
    UpBound(a4, 0x0fffffff);
    var a5 := Up(a4);
    UpBound(a5, 0x1fffffff);
    var a6 := Up(a5);
    UpBound(a6, 0x3fffffff);
    var a7 := Up(a6);
    UpBound(a7, 0x7fffffff);
    UpsAreShift(a);
    assert UpN(a, 8) == UpN(a1, 7) == UpN(a2, 6) == UpN(a3, 5) == UpN(a4, 4);
    assert UpN(a4, 4) == UpN(a5, 3) == UpN(a6, 2) == UpN(a7, 1) == Up(a7);
    assert Clear(a4, 4) <== Clear(a5, 3) <== Clear(a6, 2) <== Clear(a7, 1);
    assert Clear(a, 8) <== Clear(a1, 7) <== Clear(a2, 6) <== Clear(a3, 5) <== Clear(a4, 4);
  }

  lemma UpBound(a: bv32, m: bv32)
    requires a <= m <= 0x7fffffff
    ensures !Top(a) && Up(a) <= (m << 1) + 1
  {
  }

  lemma UpsAreShift(a: bv32)
    ensures Up(Up(Up(Up(Up(Up(Up(Up(a)))))))) == Up8(a)
  {
  }

  /** Three bytes of plain shifts bring a low byte to the top. */
  lemma LowByteUp(b: bv32)
    requires b <= 0xff
    ensures TimesN(b, 24) == Up24(b)
  {
    hide TimesN;
    LowByteBounds(b);
    EightPlainShifts(b);
    EightPlainShifts(Up8(b));
    EightPlainShifts(Up8(Up8(b)));
    TimesNAdds(b, 8, 8);
    TimesNAdds(b, 16, 8);
  }

  lemma LowByteBounds(b: bv32)
    requires b <= 0xff
    ensures Up8(b) <= 0x00ffffff && Up8(Up8(b)) <= 0x00ffffff && Up8(Up8(Up8(b))) == Up24(b)
  {
  }

  // ---------- long division ----------

  lemma {:induction false} RemainderAppend(s: seq<bool>, t: seq<bool>)
    ensures Remainder(s + t) == Xor(TimesN(Remainder(s), |t|), Remainder(t))
    decreases |t|
  {
    hide Times, BitAt0, Xor;
    var n := |t|;
    if n == 0 {
      assert s + t == s;
      XorZero(Remainder(s));
    } else {
      var t' := t[..n - 1];
      assert (s + t)[..|s + t| - 1] == s + t';
      assert (s + t)[|s + t| - 1] == t[n - 1];
      RemainderAppend(s, t');
      TimesLinear(TimesN(Remainder(s), n - 1), Remainder(t'));
      XorAssoc(TimesN(Remainder(s), n), Times(Remainder(t')), BitAt0(t[n - 1]));
    }
  }

  lemma {:induction false} RemainderOfZeros(n: nat)
    ensures Remainder(Zeros(n)) == 0
  {
    hide Times, Xor;
    if n > 0 {
      RemainderOfZeros(n - 1);
      assert Zeros(n)[..n - 1] == Zeros(n - 1);
      ZeroTimes();
      XorZero(0);
    }
  }

  /** Bits that fit the register are their own remainder. */
  lemma {:induction false} RemainderOfBits(r: bv32, k: nat)
    requires k <= 32 && Rest(r, k) == 0
    ensures Remainder(LowBits(r, k)) == r
    decreases k
  {
    hide Times, BitAt0, Xor, Down, Odd;
    if k > 0 {
      RemainderOfBits(Down(r), k - 1);
      var s := LowBits(r, k);
      assert s[..k - 1] == LowBits(Down(r), k - 1);
      BringDown(r);
    }
  }

  lemma BringDown(r: bv32)
    ensures Xor(Times(Down(r)), BitAt0(Odd(r))) == r
  {
    hide Xor, BitAt0;
    DownThenUp(r);
  }

  lemma DownThenUp(r: bv32)
    ensures !Top(Down(r)) && Xor(Up(Down(r)), BitAt0(Odd(r))) == r
  {
  }

  /** What lies above the low k bits. */
  function Rest(r: bv32, k: nat): bv32
    decreases k
  {
    if k == 0 then r else Rest(Down(r), k - 1)
  }

  lemma EightDown(r: bv32, k: nat)
    ensures Rest(r, k + 8) == Rest(Down8(r), k)
  {
    hide Down;
    var r4 := Down(Down(Down(Down(r))));
    assert Rest(r, k + 8) == Rest(Down(r), k + 7) == Rest(Down(Down(r)), k + 6);
    assert Rest(r, k + 8) == Rest(Down(Down(Down(r))), k + 5) == Rest(r4, k + 4);
    assert Rest(r4, k + 4) == Rest(Down(r4), k + 3) == Rest(Down(Down(r4)), k + 2);
    assert Rest(r4, k + 4) == Rest(Down(Down(Down(r4))), k + 1) == Rest(Down(Down(Down(Down(r4)))), k);
    DownsAreShift(r);
  }

  lemma DownsAreShift(r: bv32)
    ensures Down(Down(Down(Down(Down(Down(Down(Down(r)))))))) == Down8(r)
    ensures Down8(Down8(Down8(Down8(r)))) == 0
    ensures r <= 0xff ==> Down8(r) == 0
  {
  }

  lemma RegisterHas32Bits(r: bv32)
    ensures Rest(r, 32) == 0
  {
    hide Down8, Rest;
    EightDown(r, 24);
    EightDown(Down8(r), 16);
    EightDown(Down8(Down8(r)), 8);
    EightDown(Down8(Down8(Down8(r))), 0);
    DownsAreShift(r);
    assert Rest(Down8(Down8(Down8(Down8(r)))), 0) == Down8(Down8(Down8(Down8(r)))) by {
      NothingBelow(Down8(Down8(Down8(Down8(r)))));
    }
  }

  lemma NothingBelow(r: bv32)
    ensures Rest(r, 0) == r
  {
  }

  function LowByte(b: bv32): bv32 {
    b & 0xff
  }

  /** Only the low byte of a lane is looked at. */
  lemma LowBitsMasked(b: bv32)
    ensures LowBits(b, 8) == LowBits(LowByte(b), 8)
  {
    hide Covers;
    OnesCover();
    MaskedDown(b, 0xff, 8);
  }

  predicate Covers(m: bv32, k: nat)
    decreases k
  {
    k == 0 || (Odd(m) && Covers(Down(m), k - 1))
  }

  lemma OnesCover()
    ensures Covers(0xff, 8)
  {
    assert Covers(0x01, 1) && Covers(0x03, 2) && Covers(0x07, 3) && Covers(0x0f, 4);
    assert Covers(0x1f, 5) && Covers(0x3f, 6) && Covers(0x7f, 7);
  }

  lemma {:induction false} MaskedDown(r: bv32, m: bv32, k: nat)
    requires Covers(m, k)
    ensures LowBits(r, k) == LowBits(r & m, k)
    decreases k
  {
    hide Down, Odd;
    if k > 0 {
      MaskedDown(Down(r), Down(m), k - 1);
      MaskStep(r, m);
    }
  }

  lemma MaskStep(r: bv32, m: bv32)
    ensures Down(r & m) == Down(r) & Down(m)
    ensures Odd(m) ==> Odd(r & m) == Odd(r)
  {
  }

  lemma RemainderOfLane(b: bv32)
    ensures Remainder(LowBits(b, 8)) == LowByte(b)
  {
    hide Remainder, LowBits;
    LowBitsMasked(b);
    EightDown(LowByte(b), 0);
    DownsAreShift(LowByte(b));
    NothingBelow(0);
    RemainderOfBits(LowByte(b), 8);
  }

  // ---------- the table-driven code divides ----------

  /** One table look-up is eight steps of the register with the byte added at the top. */
  lemma ByteIsEightSteps(acc: bv32, b: bv32)
    ensures NextByte(acc, b) == Xor(TimesN(acc, 8), TimesN(LowByte(b), 32))
  {
    hide TimesN, Xor, Index, Up8, Up24, LowByte;
    var low, top, byte := acc & 0x00ffffff, acc & 0xff000000, Up24(LowByte(b));
    SplitRegister(acc, b);
    EightPlainShifts(low);
    TimesNLinear(low, top, 8);
    TimesNLinear(top, byte, 8);
    LowByteUp(LowByte(b));
    TimesNAdds(LowByte(b), 24, 8);
    XorAssoc(Up8(low), TimesN(top, 8), TimesN(byte, 8));
  }

  lemma SplitRegister(acc: bv32, b: bv32)
    ensures Xor(acc & 0x00ffffff, acc & 0xff000000) == acc && Up8(acc & 0x00ffffff) == Up8(acc)
    ensures Up24(Index(acc, b)) == Xor(acc & 0xff000000, Up24(LowByte(b)))
    ensures acc & 0x00ffffff <= 0x00ffffff && LowByte(b) <= 0xff
  {
  }

  /** The accumulator after some bits: what it was, moved up past them, plus their own
      remainder moved up by the width of the register. */
  function Divided(acc: bv32, bits: seq<bool>): bv32 {
    Xor(TimesN(acc, |bits|), TimesN(Remainder(bits), 32))
  }

  lemma ByteDivides(acc: bv32, bits: seq<bool>, b: bv32)
    ensures NextByte(Divided(acc, bits), b) == Divided(acc, bits + LowBits(b, 8))
  {
    hide TimesN, Remainder, NextByte, LowBits, Xor, LowByte;
    var r := Remainder(bits);
    var x, y, z := TimesN(acc, |bits|), TimesN(r, 32), LowByte(b);
    ByteIsEightSteps(Xor(x, y), b);
    TimesNLinear(x, y, 8);
    TimesNAdds(acc, |bits|, 8);
    TimesNAdds(r, 32, 8);
    TimesNAdds(r, 8, 32);
    RemainderAppend(bits, LowBits(b, 8));
    RemainderOfLane(b);
    TimesNLinear(TimesN(r, 8), z, 32);
    XorAssoc(TimesN(acc, |bits| + 8), TimesN(r, 40), TimesN(z, 32));
  }

  lemma {:induction false} WordDivides(acc: bv32, bits: seq<bool>, w: bv32, j: nat)
    requires j <= 4
    ensures NextBytes(Divided(acc, bits), w, j) == Divided(acc, bits + LaneBits(w, j))
  {
    hide Divided, NextByte, Lane, LowBits;
    if j == 0 {
      assert bits + LaneBits(w, 0) == bits;
    } else {
      WordDivides(acc, bits, w, j - 1);
      ByteDivides(acc, bits + LaneBits(w, j - 1), Lane(w, j - 1));
      assert bits + LaneBits(w, j) == bits + LaneBits(w, j - 1) + LowBits(Lane(w, j - 1), 8);
    }
  }

  lemma {:induction false} MessageDivides(acc: bv32, words: seq<bv32>)
    ensures CrcOf(acc, words) == Divided(acc, MessageBits(words))
  {
    hide Divided, LaneBits, NextBytes;
    var n := |words|;
    if n == 0 {
      NothingDivided(acc);
    } else {
      MessageDivides(acc, words[..n - 1]);
      WordDivides(acc, MessageBits(words[..n - 1]), words[n - 1], 4);
    }
  }

  lemma NothingDivided(acc: bv32)
    ensures Divided(acc, []) == acc
  {
    TimesNZero(32);
    XorZero(acc);
  }

  /** The dividend: the message, with the starting value added to its front, and as many zeros
      behind it as the register is wide. */
  function Dividend(acc: bv32, words: seq<bv32>): (s: seq<bool>)
    ensures |s| == 32 * |words| + 32
  {
    Sum(LowBits(acc, 32) + Zeros(32 * |words|), MessageBits(words) + Zeros(32))
  }

  /** For every starting value and every sequence of words, the table-driven code computes the
      remainder of long division by the generator polynomial. */
  lemma CrcIsRemainder(acc: bv32, words: seq<bv32>)
    ensures CrcOf(acc, words) == Remainder(Dividend(acc, words))
  {
    hide TimesN, Remainder, CrcOf, LowBits, MessageBits, Xor, Rest, Zeros, Sum;
    var n, m := 32 * |words|, MessageBits(words);
    RemainderOfSum(LowBits(acc, 32) + Zeros(n), m + Zeros(32));
    RemainderAppend(LowBits(acc, 32), Zeros(n));
    RemainderAppend(m, Zeros(32));
    RemainderOfZeros(n);
    RemainderOfZeros(32);
    RegisterHas32Bits(acc);
    RemainderOfBits(acc, 32);
    XorZero(TimesN(acc, n));
    XorZero(TimesN(Remainder(m), 32));
    MessageDivides(acc, words);
  }

  lemma {:induction false} RemainderOfSum(s: seq<bool>, t: seq<bool>)
    requires |s| == |t|
    ensures Remainder(Sum(s, t)) == Xor(Remainder(s), Remainder(t))
  {
    hide Times, BitAt0, Xor;
    var n := |s|;
    if n > 0 {
      var s', t' := s[..n - 1], t[..n - 1];
      RemainderOfSum(s', t');
      assert Sum(s, t)[..n - 1] == Sum(s', t');
      TimesLinear(Remainder(s'), Remainder(t'));
      BitsAdd(s[n - 1], t[n - 1]);
      XorSwap(Times(Remainder(s')), Times(Remainder(t')), BitAt0(s[n - 1]), BitAt0(t[n - 1]));
    } else {
      XorZero(0);
    }
  }

  lemma BitsAdd(b: bool, c: bool)
    ensures BitAt0(b != c) == Xor(BitAt0(b), BitAt0(c))
  {
  }

  // ---------- linearity of the CRC ----------

  function SumWords(v: seq<bv32>, w: seq<bv32>): (s: seq<bv32>)
    requires |v| == |w|
    ensures |s| == |v|
  {
    seq(|v|, i requires 0 <= i < |v| => Xor(v[i], w[i]))
  }

  /** A change of the input changes the result by the CRC of the change. */
  lemma {:induction false} CrcIsLinear(a: bv32, b: bv32, v: seq<bv32>, w: seq<bv32>)
    requires |v| == |w|
    ensures CrcOf(Xor(a, b), SumWords(v, w)) == Xor(CrcOf(a, v), CrcOf(b, w))
  {
    hide NextBytes, Xor;
    var n := |v|;
    if n > 0 {
      CrcIsLinear(a, b, v[..n - 1], w[..n - 1]);
      assert SumWords(v, w)[..n - 1] == SumWords(v[..n - 1], w[..n - 1]);
      WordIsLinear(CrcOf(a, v[..n - 1]), CrcOf(b, w[..n - 1]), v[n - 1], w[n - 1], 4);
    }
  }

  lemma {:induction false} WordIsLinear(a: bv32, b: bv32, v: bv32, w: bv32, j: nat)
    requires j <= 4
    ensures NextBytes(Xor(a, b), Xor(v, w), j) == Xor(NextBytes(a, v, j), NextBytes(b, w, j))
  {
    hide NextByte, Lane, Xor;
    if j > 0 {
      WordIsLinear(a, b, v, w, j - 1);
      ByteIsLinear(NextBytes(a, v, j - 1), NextBytes(b, w, j - 1), Lane(v, j - 1), Lane(w, j - 1));
      LaneIsLinear(v, w, j - 1);
    }
  }

  lemma LinearDown8(v: bv32, w: bv32)
    ensures Down8(Xor(v, w)) == Xor(Down8(v), Down8(w))
  {
  }

  lemma {:induction false} LaneIsLinear(v: bv32, w: bv32, j: nat)
    ensures Lane(Xor(v, w), j) == Xor(Lane(v, j), Lane(w, j))
  {
    hide Xor, Down8;
    if j > 0 {
      LaneIsLinear(v, w, j - 1);
      LinearDown8(Lane(v, j - 1), Lane(w, j - 1));
    }
  }

  /** The lanes are the shifts data >> (j * 8) of the code. */
  lemma LanesAreShifts(v: bv32)
    ensures Lane(v, 0) == v && Lane(v, 1) == v >> 8 && Lane(v, 2) == v >> 16 && Lane(v, 3) == v >> 24
  {
    hide Down8;
    assert Lane(v, 1) == Down8(Lane(v, 0));
    assert Lane(v, 2) == Down8(Lane(v, 1));
    assert Lane(v, 3) == Down8(Lane(v, 2));
    DownsByBytes(v);
  }

  lemma DownsByBytes(v: bv32)
    ensures v >> 8 == Down8(v) && v >> 16 == Down8(Down8(v)) && v >> 24 == Down8(Down8(Down8(v)))
  {
  }

  lemma ByteIsLinear(a: bv32, b: bv32, c: bv32, d: bv32)
    ensures NextByte(Xor(a, b), Xor(c, d)) == Xor(NextByte(a, c), NextByte(b, d))
  {
    hide TimesN, NextByte, Xor, LowByte;
    ByteIsEightSteps(a, c);
    ByteIsEightSteps(b, d);
    ByteIsEightSteps(Xor(a, b), Xor(c, d));
    TimesNLinear(a, b, 8);
    MaskIsLinear(c, d);
    TimesNLinear(LowByte(c), LowByte(d), 32);
    XorSwap(TimesN(a, 8), TimesN(b, 8), TimesN(LowByte(c), 32), TimesN(LowByte(d), 32));
  }

  lemma MaskIsLinear(c: bv32, d: bv32)
    ensures LowByte(Xor(c, d)) == Xor(LowByte(c), LowByte(d))
  {
  }

  /** The table entry of the byte 1 is the generator. */
  lemma TableAtOne()
    ensures Entry(1) == 0x04c11db7
  {
    assert TimesN(0x01000000, 2) == 0x04000000;
    assert TimesN(0x01000000, 4) == 0x10000000;
    assert TimesN(0x01000000, 6) == 0x40000000;
    assert TimesN(0x01000000, 8) == 0x04c11db7;
  }

  /** The remainder of x^32 by the generator is the generator without its leading term. */
  lemma GeneratorIs()
    ensures Remainder([true] + Zeros(32)) == 0x04c11db7
  {
    hide TimesN, Zeros, Entry;
    RemainderAppend([true], Zeros(32));
    RemainderOfZeros(32);
    assert [true][..0] == [];
    assert Remainder([true]) == 1;
    LowByteUp(1);
    TimesNAdds(1, 24, 8);
    TableAtOne();
    EntryOfOne();
    XorZero(0x04c11db7);
  }

  lemma EntryOfOne()
    ensures Entry(1) == TimesN(Up24(1), 8)
  {
  }
}
