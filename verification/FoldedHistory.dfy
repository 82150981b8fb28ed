/** The compressed branch history of the tagged predictor tables.

    The register is updated by one outcome at a time. What it must hold is stated
    from scratch: the exclusive or, over the last o outcomes, of outcome i placed at
    bit i mod c. */
module FoldedHistories {
  import opened Bits

  const MAX_HIST_LEN: nat := 128
  const WORD_BITS: nat := 32

  /** The global history: a shift register of 128 outcomes, the newest at index 0. */
  type History = h: seq<bool> | |h| == MAX_HIST_LEN witness NotTaken(MAX_HIST_LEN)

  const NO_HISTORY: History := NotTaken(MAX_HIST_LEN)

  function NotTaken(n: nat): (s: seq<bool>)
    ensures |s| == n && forall i | 0 <= i < n :: !s[i]
  {
    if n == 0 then [] else NotTaken(n - 1) + [false]
  }

  function Push(h: History, taken: bool): History {
    [taken] + h[..MAX_HIST_LEN - 1]
  }

  function BitValue(b: bool): nat {
    if b then 1 else 0
  }

  /** The specification: the last o outcomes folded into c bits, computed from scratch. */
  function FoldFromScratch(h: History, o: nat, c: nat): nat
    requires o <= MAX_HIST_LEN && c >= 1
  {
    if o == 0 then 0
    else Xor(FoldFromScratch(h, o - 1, c), Shl(BitValue(h[o - 1]), (o - 1) % c))
  }

  /** (folded << 1) | b in 32 bits; the low bit of the shifted word is clear. */
  function ShiftIn(folded: nat, b: bool): nat {
    Truncate(Shl(folded, 1), WORD_BITS) + BitValue(b)
  }

  /** The outcome that leaves the window, at the bit it was folded into. */
  function Leaving(b: bool, m: nat): nat {
    Truncate(Shl(BitValue(b), m), WORD_BITS)
  }

  /** One update of the register: the four statements of folded_history::update. */
  function FoldStep(folded: nat, h: History, o: nat, c: nat): nat
    requires o < MAX_HIST_LEN && 1 <= c < WORD_BITS
  {
    var shifted := Xor(ShiftIn(folded, h[0]), Leaving(h[o], o % c));
    And(Xor(shifted, Shr(shifted, c)), Pow2(c) - 1)
  }

  /** The history, and the register, after a whole run of outcomes (oldest first). */
  function HistoryOf(outcomes: seq<bool>): History {
    if outcomes == [] then NO_HISTORY
    else Push(HistoryOf(outcomes[..|outcomes| - 1]), outcomes[|outcomes| - 1])
  }

  function RegisterOf(outcomes: seq<bool>, o: nat, c: nat): nat
    requires o < MAX_HIST_LEN && 1 <= c < WORD_BITS
  {
    if outcomes == [] then 0
    else FoldStep(RegisterOf(outcomes[..|outcomes| - 1], o, c), HistoryOf(outcomes), o, c)
  }

  // ---------- the specification, bit by bit ----------

  /** Bit j of the fold: the parity of the outcomes whose index is j mod c. */
  function FoldBit(h: seq<bool>, n: nat, c: nat, j: nat): bool
    requires n <= |h| && c >= 1
  {
    if n == 0 then false
    else FoldBit(h, n - 1, c, j) != (h[n - 1] && (n - 1) % c == j)
  }

  lemma {:induction false} BitOfBitValue(b: bool, m: nat, k: nat)
    ensures Bit(Shl(BitValue(b), m), k) == (b && k == m)
  {
    BitShl(BitValue(b), m, k);
    if k > m { BitZero(k - m - 1); }
    if !b && k >= m { BitZero(k - m); }
  }

  lemma {:induction false} FoldFromScratchBit(h: History, n: nat, c: nat, j: nat)
    requires n <= MAX_HIST_LEN && c >= 1
    ensures Bit(FoldFromScratch(h, n, c), j) == FoldBit(h, n, c, j)
  {
    if n == 0 {
      BitZero(j);
    } else {
      FoldFromScratchBit(h, n - 1, c, j);
      BitXor(FoldFromScratch(h, n - 1, c), Shl(BitValue(h[n - 1]), (n - 1) % c), j);
      BitOfBitValue(h[n - 1], (n - 1) % c, j);
    }
  }

  lemma {:induction false} FoldBitAboveWidth(h: seq<bool>, n: nat, c: nat, j: nat)
    requires n <= |h| && 1 <= c <= j
    ensures !FoldBit(h, n, c, j)
  {
    if n > 0 { FoldBitAboveWidth(h, n - 1, c, j); }
  }

  lemma NextResidue(k: nat, c: nat, j: nat)
    requires c >= 1 && j < c
    ensures (k + 1) % c == j <==> k % c == (if j == 0 then c - 1 else j - 1)
  {
    var q, r := k / c, k % c;
    if r + 1 < c {
      QuotientIs(k + 1, c, q, r + 1);
    } else {
      assert k + 1 == (q + 1) * c;
      QuotientIs(k + 1, c, q + 1, 0);
    }
  }

  /** Pushing one outcome rotates the fold by one bit. */
  lemma {:induction false} PushRotatesFold(h: seq<bool>, b: bool, n: nat, c: nat, j: nat)
    requires n <= |h| && 1 <= c && j < c
    ensures FoldBit([b] + h, n + 1, c, j) ==
            ((b && j == 0) != FoldBit(h, n, c, if j == 0 then c - 1 else j - 1))
  {
    if n == 0 {
      assert FoldBit([b] + h, 0, c, j) == false;
      assert 0 % c == 0;
    } else {
      PushRotatesFold(h, b, n - 1, c, j);
      NextResidue(n - 1, c, j);
      assert ([b] + h)[n] == h[n - 1];
    }
  }

  lemma {:induction false} FoldBitPrefix(g: seq<bool>, h: seq<bool>, n: nat, c: nat, j: nat)
    requires n <= |g| && n <= |h| && c >= 1 && g[..n] == h[..n]
    ensures FoldBit(g, n, c, j) == FoldBit(h, n, c, j)
  {
    if n > 0 {
      assert g[n - 1] == g[..n][n - 1] == h[..n][n - 1] == h[n - 1];
      assert g[..n - 1] == g[..n][..n - 1] == h[..n][..n - 1] == h[..n - 1];
      FoldBitPrefix(g, h, n - 1, c, j);
    }
  }

  // ---------- the update, bit by bit ----------

  lemma BitShiftIn(folded: nat, b: bool, k: nat)
    ensures Bit(ShiftIn(folded, b), k) == if k == 0 then b else k < WORD_BITS && Bit(folded, k - 1)
  {
    var t := Truncate(Shl(folded, 1), WORD_BITS);
    assert t % 2 == 0;
    assert ShiftIn(folded, b) / 2 == t / 2;
    BitTruncate(Shl(folded, 1), WORD_BITS, k);
    BitShl(folded, 1, k);
  }

  lemma BitLeaving(b: bool, m: nat, k: nat)
    requires m < WORD_BITS
    ensures Bit(Leaving(b, m), k) == (b && k == m)
  {
    BitTruncate(Shl(BitValue(b), m), WORD_BITS, k);
    BitOfBitValue(b, m, k);
  }

  lemma FoldBackBit(shifted: nat, c: nat, j: nat)
    ensures Bit(And(Xor(shifted, Shr(shifted, c)), Pow2(c) - 1), j)
         == (j < c && Bit(shifted, j) != Bit(shifted, c + j))
  {
    MaskIsTruncate(Xor(shifted, Shr(shifted, c)), c);
    BitTruncate(Xor(shifted, Shr(shifted, c)), c, j);
    BitXor(shifted, Shr(shifted, c), j);
    BitShr(shifted, c, j);
  }

  /** One update rotates the register by one bit and exchanges the leaving outcome for
      the new one. */
  lemma FoldStepBit(folded: nat, h: History, o: nat, c: nat, j: nat)
    requires o < MAX_HIST_LEN && 1 <= c < WORD_BITS
    requires forall k: nat | k >= c :: !Bit(folded, k)
    ensures Bit(FoldStep(folded, h, o, c), j) ==
            (j < c && ((h[0] && j == 0) != Bit(folded, if j == 0 then c - 1 else j - 1)) != (h[o] && o % c == j))
  {
    hide Bit, Xor, ShiftIn, Leaving, And, Shr, Pow2;
    var m := o % c;
    var shifted := Xor(ShiftIn(folded, h[0]), Leaving(h[o], m));
    FoldBackBit(shifted, c, j);
    forall k: nat ensures Bit(shifted, k) ==
        ((if k == 0 then h[0] else k < WORD_BITS && Bit(folded, k - 1)) != (h[o] && k == m))
    {
      BitXor(ShiftIn(folded, h[0]), Leaving(h[o], m), k);
      BitShiftIn(folded, h[0], k);
      BitLeaving(h[o], m, k);
    }
  }

  /** The incremental update is the from-scratch fold of the shifted history. */
  lemma FoldStepTracks(g: History, taken: bool, o: nat, c: nat)
    requires o < MAX_HIST_LEN && 1 <= c < WORD_BITS
    ensures FoldStep(FoldFromScratch(g, o, c), Push(g, taken), o, c)
         == FoldFromScratch(Push(g, taken), o, c)
  {
    var folded, h := FoldFromScratch(g, o, c), Push(g, taken);
    var next, spec := FoldStep(folded, h, o, c), FoldFromScratch(h, o, c);
    forall k: nat | k >= c ensures !Bit(folded, k) {
      FoldFromScratchBit(g, o, c, k);
      FoldBitAboveWidth(g, o, c, k);
    }
    forall j: nat ensures Bit(next, j) == Bit(spec, j) {
      FoldFromScratchBit(h, o, c, j);
      FoldStepBit(folded, h, o, c, j);
      if j >= c {
        FoldBitAboveWidth(h, o, c, j);
      } else {
        FoldFromScratchBit(g, o, c, if j == 0 then c - 1 else j - 1);
        PushRotatesFold(g, taken, o, c, j);
        FoldBitPrefix([taken] + g, h, o, c, j);
      }
    }
    BitsDetermine(next, spec);
  }

  lemma {:induction false} EmptyFold(o: nat, c: nat)
    requires o <= MAX_HIST_LEN && c >= 1
    ensures FoldFromScratch(NO_HISTORY, o, c) == 0
  {
    if o > 0 {
      EmptyFold(o - 1, c);
      ShlZero((o - 1) % c);
    }
  }

  lemma {:induction false} ShlZero(n: nat)
    ensures Shl(0, n) == 0
  {
    if n > 0 { ShlZero(n - 1); }
  }

  /** Over every run of outcomes from the zero state, the register is the fold. */
  lemma {:induction false} RegisterIsFold(outcomes: seq<bool>, o: nat, c: nat)
    requires o < MAX_HIST_LEN && 1 <= c < WORD_BITS
    ensures RegisterOf(outcomes, o, c) == FoldFromScratch(HistoryOf(outcomes), o, c)
  {
    if outcomes == [] {
      EmptyFold(o, c);
    } else {
      var past := outcomes[..|outcomes| - 1];
      RegisterIsFold(past, o, c);
      FoldStepTracks(HistoryOf(past), outcomes[|outcomes| - 1], o, c);
    }
  }

  /** Entry i of the history is the outcome i branches ago, or not-taken before the start. */
  lemma {:induction false} HistoryIsRecent(outcomes: seq<bool>, i: nat)
    requires i < MAX_HIST_LEN
    ensures HistoryOf(outcomes)[i] == (i < |outcomes| && outcomes[|outcomes| - 1 - i])
  {
    if outcomes != [] {
      var past := outcomes[..|outcomes| - 1];
      assert HistoryOf(outcomes) == Push(HistoryOf(past), outcomes[|outcomes| - 1]);
      if i > 0 {
        HistoryIsRecent(past, i - 1);
        assert HistoryOf(outcomes)[i] == HistoryOf(past)[i - 1];
      }
    }
  }

  /** struct folded_history. */
  class FoldedHistory {
    var folded: nat
    var cLength: nat
    var oLength: nat
    var mLength: nat

    ghost predicate Valid()
      reads this
    {
      && 1 <= cLength < WORD_BITS
      && oLength < MAX_HIST_LEN
      && mLength == oLength % cLength
    }

    /** The register holds the fold of this history. */
    ghost predicate Tracks(h: History)
      reads this
    {
      Valid() && folded == FoldFromScratch(h, oLength, cLength)
    }

    /** setup(). A compressed length of 0 divides by zero, one of 32 or more shifts past
        the word, and setup asserts that the original length is below 128. */
    constructor Setup(origLen: nat, comLen: nat)
      requires origLen < MAX_HIST_LEN && 1 <= comLen < WORD_BITS
      ensures Tracks(NO_HISTORY)
      ensures oLength == origLen && cLength == comLen
    {
      folded := 0;
      oLength := origLen;
      cLength := comLen;
      mLength := origLen % comLen;
      EmptyFold(origLen, comLen);
    }

    method Update(h: History, ghost before: History)
      requires Tracks(before) && h == Push(before, h[0])
      modifies this`folded
      ensures Tracks(h)
    {
      hide FoldFromScratch, Xor, Shr, And, ShiftIn, Leaving, Pow2;
      FoldStepTracks(before, h[0], oLength, cLength);
      folded := ShiftIn(folded, h[0]);
      folded := Xor(folded, Leaving(h[oLength], mLength));
      folded := Xor(folded, Shr(folded, cLength));
      folded := And(folded, Pow2(cLength) - 1);
    }
  }
}
