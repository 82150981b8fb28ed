/** The tagged branch predictor: provider selection, allocation and saturating counters
    over four tagged banks and a bimodal base table. Bank 0 has the longest history. */
module TagePredictor {
  import opened Bits
  import opened FoldedHistories

  const LOG_BASE: nat := 13
  const BASE_T_SIZE: nat := 8192
  const LOG_TAGGED: nat := 13
  const TAGGED_T_SIZE: nat := 8192
  const NUM_BANKS: nat := 4
  const TAG_BITS: nat := 10
  const SAT_L_BOUND: int := -8
  const SAT_U_BOUND: int := 7

  datatype TEntry = TEntry(pred: int, tag: nat, ubit: int)

  const EMPTY_ENTRY := TEntry(0, 0, 0)

  lemma EmptyInRange()
    ensures EntryInRange(EMPTY_ENTRY)
  {
  }

  /** The ranges every counter stays in over all runs. */
  predicate EntryInRange(e: TEntry) {
    && SAT_L_BOUND <= e.pred <= SAT_U_BOUND
    && e.tag < Pow2(TAG_BITS)
    && 0 <= e.ubit <= 3
  }

  predicate RowInRange(row: seq<TEntry>) {
    |row| == NUM_BANKS && forall b | 0 <= b < NUM_BANKS :: EntryInRange(row[b])
  }

  // ---------- pure parts ----------

  function SatCount(cnt: int, incr: bool, bound: int): int {
    if incr then (if cnt < bound then cnt + 1 else cnt)
    else (if cnt > bound then cnt - 1 else cnt)
  }

  predicate WeakPred(cnt: int) {
    cnt == 0 || cnt == -1
  }

  function RotateLeft(x: nat, bank: nat): nat
    requires bank < NUM_BANKS
  {
    And(Shl(x, bank), Pow2(LOG_TAGGED) - 1) + Shr(x, LOG_TAGGED - bank)
  }

  function PathHistHash(pathHistory: nat, size: nat, bank: nat): nat
    requires bank < NUM_BANKS
  {
    var hist := And(pathHistory, Pow2(size) - 1);
    var temp1 := And(hist, Pow2(LOG_TAGGED) - 1);
    var temp2 := RotateLeft(Shr(hist, LOG_TAGGED), bank);
    RotateLeft(Xor(temp1, temp2), bank)
  }

  function TableIndex(pc: nat, bank: nat, folded: nat, pathHistory: nat, histLength: nat): (idx: nat)
    requires bank < NUM_BANKS
    ensures idx < TAGGED_T_SIZE
  {
    var idx := Truncate(Xor(Xor(pc, Shr(pc, LOG_TAGGED - (NUM_BANKS - bank - 1))), folded), WORD_BITS);
    var pHistLength := if histLength >= LOG_TAGGED then LOG_TAGGED else histLength;
    var hashed := Xor(idx, PathHistHash(pathHistory, pHistLength, bank));
    MaskIsTruncate(hashed, LOG_TAGGED);
    assert Pow2(13) == 8192 by { PowersOfTwo(); }
    And(hashed, Pow2(LOG_TAGGED) - 1)
  }

  function BaseIndex(pc: nat): (idx: nat)
    ensures idx < BASE_T_SIZE
  {
    MaskIsTruncate(pc, LOG_BASE);
    assert Pow2(13) == 8192 by { PowersOfTwo(); }
    And(pc, Pow2(LOG_BASE) - 1)
  }

  function Tag(pc: nat, folded0: nat, folded1: nat): (tag: nat)
    ensures tag < Pow2(TAG_BITS)
  {
    var tag := Truncate(Xor(Xor(pc, folded0), Truncate(Shl(folded1, 1), WORD_BITS)), WORD_BITS);
    MaskIsTruncate(tag, TAG_BITS);
    And(tag, Pow2(TAG_BITS) - 1)
  }

  lemma PowersOfTwo()
    ensures Pow2(0) == 1 && Pow2(13) == 8192 && Pow2(10) == 1024
  {
    assert Pow2(4) == 16;
    assert Pow2(8) == 256;
    assert Pow2(10) == 1024;
    assert Pow2(12) == 4096;
  }

  /** The low thirteen bits of the address. */
  lemma BaseIndexIs(pc: nat)
    ensures BaseIndex(pc) == pc % 8192
  {
    hide And, Truncate, Pow2;
    PowersOfTwo();
    MaskIsTruncate(pc, 13);
    TruncateIsMod(pc, 13);
  }

  /** A tag bit is an address bit, a bit of the first register, and the bit before it of the
      second. */
  lemma TagBit(pc: nat, folded0: nat, folded1: nat, k: nat)
    ensures Bit(Tag(pc, folded0, folded1), k) <==>
            k < 10 && ((Bit(pc, k) != Bit(folded0, k)) != (k > 0 && Bit(folded1, k - 1)))
  {
    hide And, Xor, Truncate, Shl, Bit, Pow2;
    var inner := Xor(pc, folded0);
    var outer := Truncate(Shl(folded1, 1), WORD_BITS);
    var tag := Truncate(Xor(inner, outer), WORD_BITS);
    MaskIsTruncate(tag, TAG_BITS);
    BitTruncate(tag, TAG_BITS, k);
    BitTruncate(Xor(inner, outer), WORD_BITS, k);
    BitXor(inner, outer, k);
    BitXor(pc, folded0, k);
    BitTruncate(Shl(folded1, 1), WORD_BITS, k);
    BitShl(folded1, 1, k);
  }

  /** Thirteen bits rotate. */
  lemma RotateLeftBit(x: nat, bank: nat, k: nat)
    requires bank < NUM_BANKS && x < Pow2(LOG_TAGGED)
    ensures Bit(RotateLeft(x, bank), k) <==> k < 13 && Bit(x, if k >= bank then k - bank else k + 13 - bank)
  {
    hide And, Truncate, Shl, Shr, Bit, Pow2;
    MaskIsTruncate(Shl(x, bank), LOG_TAGGED);
    TruncateShl(x, bank, LOG_TAGGED);
    ShrFits(x, LOG_TAGGED - bank, LOG_TAGGED);
    BitJoined(Truncate(x, LOG_TAGGED - bank), bank, Shr(x, LOG_TAGGED - bank), k);
    BitTruncate(x, LOG_TAGGED - bank, if k >= bank then k - bank else 0);
    BitShr(x, LOG_TAGGED - bank, k);
  }

  /** With thirteen bits or less of the path, the hash is these, rotated by the bank number. */
  lemma PathHistHashBit(pathHistory: nat, size: nat, bank: nat, k: nat)
    requires bank < NUM_BANKS && size <= 13
    ensures var j := if k >= bank then k - bank else k + 13 - bank;
            Bit(PathHistHash(pathHistory, size, bank), k) <==> k < 13 && j < size && Bit(pathHistory, j)
  {
    hide And, Xor, Truncate, Shl, Shr, Bit, Pow2, RotateLeft;
    var hist := Truncate(pathHistory, size);
    MaskIsTruncate(pathHistory, size);
    TruncateFits(pathHistory, size, LOG_TAGGED);
    MaskIsTruncate(hist, LOG_TAGGED);
    TruncateShort(hist, LOG_TAGGED, LOG_TAGGED);
    ShrFits(hist, LOG_TAGGED, LOG_TAGGED);
    assert Pow2(0) == 1 by { PowersOfTwo(); }
    assert Shr(hist, LOG_TAGGED) == 0;
    RotateZero(bank);
    XorZero(hist);
    RotateLeftBit(hist, bank, k);
    BitTruncate(pathHistory, size, if k >= bank then k - bank else k + 13 - bank);
  }

  lemma {:induction false} TruncateFits(x: nat, n: nat, width: nat)
    requires n <= width
    ensures Truncate(x, n) < Pow2(width)
    decreases n
  {
    if n > 0 { TruncateFits(x / 2, n - 1, width - 1); }
  }

  lemma RotateZero(bank: nat)
    requires bank < NUM_BANKS
    ensures RotateLeft(0, bank) == 0
  {
    hide And;
    ShlZero(bank);
    ShrZero(LOG_TAGGED - bank);
    assert And(0, Pow2(LOG_TAGGED) - 1) == 0 by { AndFromZero(Pow2(LOG_TAGGED) - 1); }
  }

  lemma {:induction false} ShrZero(n: nat)
    ensures Shr(0, n) == 0
  {
    if n > 0 { ShrZero(n - 1); }
  }

  lemma AndFromZero(y: nat)
    ensures And(0, y) == 0
  {
  }

  lemma {:induction false} XorZero(x: nat)
    ensures Xor(x, 0) == x
  {
    if x > 0 { XorZero(x / 2); }
  }

  /** A bit of a table index: two address bits, a bit of the folded history, and a bit of the path,
      as far as the history of the bank is long. */
  lemma TableIndexBit(pc: nat, bank: nat, folded: nat, pathHistory: nat, histLength: nat, k: nat)
    requires bank < NUM_BANKS
    ensures var j := if k >= bank then k - bank else k + 13 - bank;
            var path := j < histLength && Bit(pathHistory, j);
            Bit(TableIndex(pc, bank, folded, pathHistory, histLength), k) <==>
            k < 13 && (((Bit(pc, k) != Bit(pc, k + 10 + bank)) != Bit(folded, k)) != path)
  {
    hide And, Xor, Truncate, Shl, Shr, Bit, Pow2, PathHistHash;
    var shifted := Shr(pc, LOG_TAGGED - (NUM_BANKS - bank - 1));
    var idx := Truncate(Xor(Xor(pc, shifted), folded), WORD_BITS);
    var size := if histLength >= LOG_TAGGED then LOG_TAGGED else histLength;
    var path := PathHistHash(pathHistory, size, bank);
    MaskIsTruncate(Xor(idx, path), LOG_TAGGED);
    BitTruncate(Xor(idx, path), LOG_TAGGED, k);
    BitXor(idx, path, k);
    BitTruncate(Xor(Xor(pc, shifted), folded), WORD_BITS, k);
    BitXor(Xor(pc, shifted), folded, k);
    BitXor(pc, shifted, k);
    BitShr(pc, LOG_TAGGED - (NUM_BANKS - bank - 1), k);
    PathHistHashBit(pathHistory, size, bank, k);
  }

  /** The shift of the path history. The mask's width argument is `LOG_TAGGED << 1`, which
      the unparenthesised macro expands to (1 << 13 << 1) - 1: fourteen bits. */
  function NextPath(pathHistory: nat, pc: nat): nat {
    And(Shl(pathHistory, 1) + (if And(pc, 2) == 2 then 1 else 0), Pow2(LOG_TAGGED + 1) - 1)
  }

  /** The path history behind some branches, from whatever it was before the first. */
  function PathAfter(start: nat, pcs: seq<nat>): nat {
    if pcs == [] then start else NextPath(PathAfter(start, pcs[..|pcs| - 1]), pcs[|pcs| - 1])
  }

  lemma SecondBit(pc: nat)
    ensures And(pc, 2) == if Bit(pc, 1) then 2 else 0
  {
    assert And(pc / 2 / 2, 0) == 0 by { AndZero(pc / 2 / 2); }
    assert And(pc / 2, 1) == (pc / 2) % 2;
  }

  /** The bits of a word with one more bit at its low end. */
  lemma BitOfShifted(x: nat, low: bool, k: nat)
    ensures Bit(Shl(x, 1) + (if low then 1 else 0), k) == if k == 0 then low else Bit(x, k - 1)
  {
    assert Shl(x, 1) == 2 * x;
  }

  lemma NextPathBit(path: nat, pc: nat, k: nat)
    ensures Bit(NextPath(path, pc), k) <==> k < 14 && if k == 0 then Bit(pc, 1) else Bit(path, k - 1)
    ensures NextPath(path, pc) < Pow2(14)
  {
    hide And, Truncate, Shl, Bit, Pow2;
    SecondBit(pc);
    BitOfShifted(path, Bit(pc, 1), k);
    var x := Shl(path, 1) + if Bit(pc, 1) then 1 else 0;
    MaskIsTruncate(x, 14);
    BitTruncate(x, 14, k);
  }

  /** It holds one bit of each of the last fourteen branches, the last one lowest. */
  lemma {:induction false} PathBit(start: nat, pcs: seq<nat>, k: nat)
    requires pcs != []
    ensures Bit(PathAfter(start, pcs), k) <==>
            k < 14 && if k < |pcs| then Bit(Ago(pcs, k), 1) else Bit(start, k - |pcs|)
    ensures PathAfter(start, pcs) < Pow2(14)
    decreases |pcs|
  {
    hide NextPath, Bit, Pow2;
    var front := pcs[..|pcs| - 1];
    NextPathBit(PathAfter(start, front), pcs[|pcs| - 1], k);
    if k > 0 && front != [] {
      PathBit(start, front, k - 1);
    }
  }

  /** The branch k branches before the last. */
  function Ago(pcs: seq<nat>, k: nat): nat
    requires k < |pcs|
  {
    pcs[|pcs| - 1 - k]
  }

  lemma {:induction false} NoHighBit(x: nat, n: nat, k: nat)
    requires x < Pow2(n) && k >= n
    ensures !Bit(x, k)
    decreases k
  {
    if n == 0 {
      BitZero(k);
    } else {
      NoHighBit(x / 2, n - 1, k - 1);
    }
  }

  lemma {:induction false} HighBit(x: nat, n: nat) returns (k: nat)
    requires x >= Pow2(n)
    ensures k >= n && Bit(x, k)
    decreases x
  {
    if x == 1 {
      k := 0;
    } else {
      k := HighBit(x / 2, if n > 0 then n - 1 else 0);
      k := k + 1;
    }
  }

  /** The comment calls it a vector of ten bits. Behind fourteen branches it is one exactly when
      the second address bit of the branches ten to thirteen before the last is clear. */
  lemma PathFitsTenBits(start: nat, pcs: seq<nat>)
    requires |pcs| >= 14
    ensures PathAfter(start, pcs) < 1024 <==> forall k | 10 <= k < 14 :: !Bit(Ago(pcs, k), 1)
  {
    hide Bit, PathAfter, Ago;
    PowersOfTwo();
    var path := PathAfter(start, pcs);
    if path < 1024 {
      forall k | 10 <= k < 14 ensures !Bit(Ago(pcs, k), 1) {
        NoHighBit(path, 10, k);
        PathBit(start, pcs, k);
      }
    } else {
      var k := HighBit(path, 10);
      PathBit(start, pcs, k);
      assert Bit(Ago(pcs, k), 1);
    }
  }

  /** Eleven branches at addresses with that bit set are enough to leave the ten bits. */
  lemma PathOutgrowsTenBits(start: nat, pcs: seq<nat>)
    requires |pcs| >= 11 && forall k | 0 <= k < |pcs| :: Bit(pcs[k], 1)
    ensures PathAfter(start, pcs) >= 1024
  {
    hide Bit, PathAfter;
    PowersOfTwo();
    PathBit(start, pcs, 10);
    if PathAfter(start, pcs) < 1024 {
      NoHighBit(PathAfter(start, pcs), 10, 10);
    }
  }

  // ---------- one row: the four entries a PC selects, and its four tags ----------

  /** The first bank from `from` on whose entry carries the PC's tag; NUM_BANKS if none. */
  function FirstMatch(row: seq<TEntry>, tags: seq<nat>, from: nat): (b: nat)
    requires |row| == |tags| && from <= |row|
    ensures from <= b <= |row|
    ensures b < |row| ==> row[b].tag == tags[b]
    ensures forall k | from <= k < b :: row[k].tag != tags[k]
    decreases |row| - from
  {
    if from == |row| || row[from].tag == tags[from] then from
    else FirstMatch(row, tags, from + 1)
  }

  function AlternateOf(row: seq<TEntry>, tags: seq<nat>, provider: nat): (b: nat)
    requires |row| == |tags| && provider <= |row|
  {
    if provider == |row| then |row| else FirstMatch(row, tags, provider + 1)
  }

  /** The first candidate (bank below the provider) that is not useful; |row| if none. */
  function FirstUseless(row: seq<TEntry>, provider: nat, from: nat): (b: nat)
    requires from <= provider <= |row|
    ensures b == |row| || (from <= b < provider && row[b].ubit == 0)
    ensures forall k | from <= k < provider && k < b :: row[k].ubit != 0
    decreases provider - from
  {
    if from == provider then |row|
    else if row[from].ubit == 0 then from
    else FirstUseless(row, provider, from + 1)
  }

  function FreshEntry(tag: nat, taken: bool): TEntry {
    TEntry(if taken then 0 else -1, tag, 0)
  }

  /** The row after an allocation attempt: one useless candidate is overwritten, or, if all
      candidates are useful, every one of them loses one unit of usefulness. */
  function Allocated(row: seq<TEntry>, tags: seq<nat>, provider: nat, taken: bool): (r: seq<TEntry>)
    requires |row| == |tags| && provider <= |row|
    ensures |r| == |row|
  {
    var b := FirstUseless(row, provider, 0);
    if b < |row| then
      row[b := FreshEntry(tags[b], taken)]
    else
      seq(|row|, k requires 0 <= k < |row| =>
        if k < provider then row[k].(ubit := row[k].ubit - 1) else row[k])
  }

  predicate IsRecent(e: TEntry) {
    WeakPred(e.pred) && e.ubit == 0
  }

  predicate Allocates(row: seq<TEntry>, provider: nat, resolveDir: bool, predDir: bool)
    requires provider <= |row|
  {
    && predDir != resolveDir
    && provider > 0
    && !(provider < |row| && IsRecent(row[provider]) && resolveDir == (row[provider].pred >= 0))
  }

  function Trained(e: TEntry, resolveDir: bool, predDir: bool, alternativePred: bool): TEntry {
    var e1 := e.(pred := SatCount(e.pred, resolveDir, if resolveDir then SAT_U_BOUND else SAT_L_BOUND));
    if alternativePred == predDir then e1
    else e1.(ubit := SatCount(e.ubit, predDir == resolveDir, if predDir == resolveDir then 3 else 0))
  }

  /** The selected row after one resolved branch. */
  function UpdatedRow(row: seq<TEntry>, tags: seq<nat>, provider: nat,
                      resolveDir: bool, predDir: bool, alternativePred: bool): (r: seq<TEntry>)
    requires |row| == |tags| && provider <= |row|
    ensures |r| == |row|
  {
    var row1 := if Allocates(row, provider, resolveDir, predDir)
                then Allocated(row, tags, provider, resolveDir) else row;
    if provider < |row| then row1[provider := Trained(row1[provider], resolveDir, predDir, alternativePred)]
    else row1
  }

  // ---------- what a row update does ----------

  lemma TrainedInRange(e: TEntry, resolveDir: bool, predDir: bool, alternativePred: bool)
    requires EntryInRange(e)
    ensures EntryInRange(Trained(e, resolveDir, predDir, alternativePred))
  {
    hide Pow2;
  }

  /** One resolved branch, as the entry that provided for it sees it. */
  datatype Training = Training(resolveDir: bool, predDir: bool, alternativePred: bool)

  function TrainedBy(e: TEntry, branches: seq<Training>): TEntry {
    if branches == [] then e
    else
      var t := branches[|branches| - 1];
      Trained(TrainedBy(e, branches[..|branches| - 1]), t.resolveDir, t.predDir, t.alternativePred)
  }

  /** One training, in numbers. */
  lemma TrainedIs(e: TEntry, resolveDir: bool, predDir: bool, alternativePred: bool)
    requires EntryInRange(e)
    ensures var t := Trained(e, resolveDir, predDir, alternativePred);
            && t.tag == e.tag
            && (resolveDir ==> t.pred == if e.pred < 7 then e.pred + 1 else 7)
            && (!resolveDir ==> t.pred == if e.pred > -8 then e.pred - 1 else -8)
            && (alternativePred == predDir ==> t.ubit == e.ubit)
            && (alternativePred != predDir && predDir == resolveDir ==> t.ubit == if e.ubit < 3 then e.ubit + 1 else 3)
            && (alternativePred != predDir && predDir != resolveDir ==> t.ubit == if e.ubit > 0 then e.ubit - 1 else 0)
  {
    hide Pow2;
  }

  /** Trained with one outcome n times, the counter moves n steps towards it, as far as it goes. */
  lemma {:induction false} OutcomeIsLearned(e: TEntry, branches: seq<Training>, taken: bool)
    requires EntryInRange(e) && forall k | 0 <= k < |branches| :: branches[k].resolveDir == taken
    ensures var t := TrainedBy(e, branches);
            && EntryInRange(t) && t.tag == e.tag
            && (taken ==> t.pred == if e.pred + |branches| < 7 then e.pred + |branches| else 7)
            && (!taken ==> t.pred == if e.pred - |branches| > -8 then e.pred - |branches| else -8)
    ensures |branches| >= 8 ==> (TrainedBy(e, branches).pred >= 0 <==> taken)
    decreases |branches|
  {
    hide EntryInRange, Trained;
    if branches != [] {
      var front, t := branches[..|branches| - 1], branches[|branches| - 1];
      OutcomeIsLearned(e, front, taken);
      var f := TrainedBy(e, front);
      TrainedIs(f, t.resolveDir, t.predDir, t.alternativePred);
      TrainedInRange(f, t.resolveDir, t.predDir, t.alternativePred);
    }
    EntryRange(e);
  }

  lemma EntryRange(e: TEntry)
    requires EntryInRange(e)
    ensures -8 <= e.pred <= 7 && 0 <= e.ubit <= 3
  {
  }

  /** Its usefulness counts the right predictions among the branches on which the alternate said
      otherwise: three of them in a row make it 3. */
  lemma {:induction false} UsefulnessIsLearned(e: TEntry, branches: seq<Training>, right: bool)
    requires EntryInRange(e)
    requires forall k | 0 <= k < |branches| ::
               branches[k].predDir != branches[k].alternativePred &&
               (branches[k].predDir == branches[k].resolveDir) == right
    ensures var t := TrainedBy(e, branches);
            && EntryInRange(t)
            && (right ==> t.ubit == if e.ubit + |branches| < 3 then e.ubit + |branches| else 3)
            && (!right ==> t.ubit == if e.ubit > |branches| then e.ubit - |branches| else 0)
    decreases |branches|
  {
    hide EntryInRange, Trained;
    EntryRange(e);
    if branches != [] {
      var front, t := branches[..|branches| - 1], branches[|branches| - 1];
      UsefulnessIsLearned(e, front, right);
      var f := TrainedBy(e, front);
      TrainedIs(f, t.resolveDir, t.predDir, t.alternativePred);
      TrainedInRange(f, t.resolveDir, t.predDir, t.alternativePred);
      EntryRange(f);
    }
  }

  /** On a misprediction that allocates: either exactly one longer-history entry, useless
      before, is overwritten, or every candidate loses one unit of usefulness. */
  lemma AllocationIsExclusive(row: seq<TEntry>, tags: seq<nat>, p: nat, taken: bool)
    requires RowInRange(row) && |tags| == NUM_BANKS && p <= NUM_BANKS
    ensures var r := Allocated(row, tags, p, taken);
      if exists b :: 0 <= b < p && row[b].ubit == 0 then
        exists b :: 0 <= b < p && row[b].ubit == 0 && r == row[b := TEntry(if taken then 0 else -1, tags[b], 0)]
      else
        forall k | 0 <= k < NUM_BANKS ::
          r[k] == if k < p then row[k].(ubit := row[k].ubit - 1) else row[k]
  {
    var b := FirstUseless(row, p, 0);
    if exists b :: 0 <= b < p && row[b].ubit == 0 {
      assert b < |row|;
    }
  }

  /** After an allocating update, and before the histories shift, looking the PC up again
      finds the new entry as provider and the old provider as alternate. */
  lemma AllocationIsFound(row: seq<TEntry>, tags: seq<nat>, p: nat,
                          resolveDir: bool, predDir: bool, alternativePred: bool)
    requires |row| == |tags| && p == FirstMatch(row, tags, 0)
    requires Allocates(row, p, resolveDir, predDir)
    requires exists b :: 0 <= b < p && row[b].ubit == 0
    ensures var r := UpdatedRow(row, tags, p, resolveDir, predDir, alternativePred);
      var b := FirstMatch(r, tags, 0);
      && b < p && row[b].ubit == 0 && r[b] == TEntry(if resolveDir then 0 else -1, tags[b], 0)
      && AlternateOf(r, tags, b) == p
  {
    var r := UpdatedRow(row, tags, p, resolveDir, predDir, alternativePred);
    var b := FirstUseless(row, p, 0);
    assert b < p && r[b] == FreshEntry(tags[b], resolveDir);
    assert forall k | 0 <= k < |row| && k != b :: r[k].tag == row[k].tag;
    FirstMatchIs(r, tags, 0, b);
    FirstMatchIs(r, tags, b + 1, p);
  }

  lemma {:induction false} FirstMatchIs(row: seq<TEntry>, tags: seq<nat>, from: nat, b: nat)
    requires |row| == |tags| && from <= b <= |row|
    requires b < |row| ==> row[b].tag == tags[b]
    requires forall k | from <= k < b :: row[k].tag != tags[k]
    ensures FirstMatch(row, tags, from) == b
    decreases b - from
  {
    if from < b { FirstMatchIs(row, tags, from + 1, b); }
  }

  /** Without an allocation, and also after a failed one, every bank keeps its tag, so the
      same PC finds the same provider and alternate. */
  lemma OtherwiseTagsStay(row: seq<TEntry>, tags: seq<nat>, p: nat,
                          resolveDir: bool, predDir: bool, alternativePred: bool)
    requires |row| == |tags| && p == FirstMatch(row, tags, 0)
    requires !Allocates(row, p, resolveDir, predDir) || forall b | 0 <= b < p :: row[b].ubit != 0
    ensures var r := UpdatedRow(row, tags, p, resolveDir, predDir, alternativePred);
      FirstMatch(r, tags, 0) == p && AlternateOf(r, tags, p) == AlternateOf(row, tags, p)
  {
    var r := UpdatedRow(row, tags, p, resolveDir, predDir, alternativePred);
    assert forall k | 0 <= k < |row| :: r[k].tag == row[k].tag;
    FirstMatchIs(r, tags, 0, p);
    if p < |row| {
      FirstMatchIs(r, tags, p + 1, FirstMatch(row, tags, p + 1));
    }
  }

  /** What looking the PC up again finds in the row behind an update, before the histories shift:
      the one entry that was overwritten as provider and the old provider as alternate, or the
      provider and alternate from before. No other entry but the provider changes, except that
      all candidates lose one unit of usefulness when none could be overwritten. */
  ghost predicate FoundAgain(row: seq<TEntry>, tags: seq<nat>, p: nat, r: seq<TEntry>, resolveDir: bool, predDir: bool)
    requires |row| == |tags| == |r| && p <= |row|
  {
    if Allocates(row, p, resolveDir, predDir) && exists b :: 0 <= b < p && row[b].ubit == 0 then
      var b := FirstMatch(r, tags, 0);
      && b < p && row[b].ubit == 0 && r[b] == TEntry(if resolveDir then 0 else -1, tags[b], 0)
      && AlternateOf(r, tags, b) == p
      && forall k | 0 <= k < |row| && k != b && k != p :: r[k] == row[k]
    else
      && FirstMatch(r, tags, 0) == p && AlternateOf(r, tags, p) == AlternateOf(row, tags, p)
      && forall k | 0 <= k < |row| && k != p ::
           r[k] == if Allocates(row, p, resolveDir, predDir) && k < p then row[k].(ubit := row[k].ubit - 1) else row[k]
  }

  lemma UpdatedRowIsFound(row: seq<TEntry>, tags: seq<nat>, p: nat,
                          resolveDir: bool, predDir: bool, alternativePred: bool)
    requires RowInRange(row) && |tags| == NUM_BANKS && p == FirstMatch(row, tags, 0)
    ensures var r := UpdatedRow(row, tags, p, resolveDir, predDir, alternativePred);
            FoundAgain(row, tags, p, r, resolveDir, predDir)
  {
    hide Trained, EntryInRange, AlternateOf, FirstMatch, Allocated, FirstUseless;
    AllocationIsExclusive(row, tags, p, resolveDir);
    if Allocates(row, p, resolveDir, predDir) && exists b :: 0 <= b < p && row[b].ubit == 0 {
      AllocationIsFound(row, tags, p, resolveDir, predDir, alternativePred);
      OnlyOneChanges(row, tags, p, resolveDir, predDir, alternativePred);
    } else {
      OtherwiseTagsStay(row, tags, p, resolveDir, predDir, alternativePred);
    }
  }

  /** The entry found is the one that was overwritten. */
  lemma OnlyOneChanges(row: seq<TEntry>, tags: seq<nat>, p: nat,
                       resolveDir: bool, predDir: bool, alternativePred: bool)
    requires RowInRange(row) && |tags| == NUM_BANKS && p == FirstMatch(row, tags, 0)
    requires Allocates(row, p, resolveDir, predDir) && exists b :: 0 <= b < p && row[b].ubit == 0
    ensures var r := UpdatedRow(row, tags, p, resolveDir, predDir, alternativePred);
            forall k | 0 <= k < |row| && k != FirstMatch(r, tags, 0) && k != p :: r[k] == row[k]
  {
    hide Trained, FreshEntry, EntryInRange, AlternateOf, FirstMatch, FirstUseless;
    var r := UpdatedRow(row, tags, p, resolveDir, predDir, alternativePred);
    var b := FirstUseless(row, p, 0);
    AllocationIsFound(row, tags, p, resolveDir, predDir, alternativePred);
    var c := FirstMatch(r, tags, 0);
    assert r[c].tag == tags[c] && row[c].tag != tags[c];
    assert c == b;
  }

  /** The whole row, in numbers. It allocates on a wrong prediction of a bank other than the first,
      unless the entry that provides is as good as new and was right. The first candidate with
      usefulness 0 is overwritten; without one, all candidates lose one. */
  lemma UpdatedRowIs(row: seq<TEntry>, tags: seq<nat>, p: nat,
                     resolveDir: bool, predDir: bool, alternativePred: bool)
    requires RowInRange(row) && |tags| == NUM_BANKS && p <= NUM_BANKS
    ensures var r := UpdatedRow(row, tags, p, resolveDir, predDir, alternativePred);
            && |r| == NUM_BANKS && (forall k | p < k < NUM_BANKS :: r[k] == row[k])
            && (p < NUM_BANKS ==> r[p] == Trained(row[p], resolveDir, predDir, alternativePred))
    ensures var r := UpdatedRow(row, tags, p, resolveDir, predDir, alternativePred);
            var excused := p < NUM_BANKS && row[p].pred in {-1, 0} && row[p].ubit == 0 &&
                           resolveDir == (row[p].pred >= 0);
            if predDir == resolveDir || p == 0 || excused then forall k | 0 <= k < p :: r[k] == row[k]
            else
              && (forall b | 0 <= b < p && row[b].ubit == 0 && (forall k | 0 <= k < b :: row[k].ubit > 0) ::
                    && r[b] == TEntry(if resolveDir then 0 else -1, tags[b], 0)
                    && forall k | 0 <= k < p && k != b :: r[k] == row[k])
              && ((forall b | 0 <= b < p :: row[b].ubit > 0) ==>
                    forall k | 0 <= k < p :: r[k] == TEntry(row[k].pred, row[k].tag, row[k].ubit - 1))
  {
    hide Trained, Pow2;
    var u := FirstUseless(row, p, 0);
    if u < |row| {
      assert forall b | 0 <= b < p && row[b].ubit == 0 && (forall k | 0 <= k < b :: row[k].ubit > 0) :: b == u;
    }
  }

  lemma UpdatedRowInRange(row: seq<TEntry>, tags: seq<nat>, p: nat,
                          resolveDir: bool, predDir: bool, alternativePred: bool)
    requires RowInRange(row) && |tags| == NUM_BANKS && p <= NUM_BANKS
    requires forall b | 0 <= b < NUM_BANKS :: tags[b] < Pow2(TAG_BITS)
    ensures RowInRange(UpdatedRow(row, tags, p, resolveDir, predDir, alternativePred))
  {
    var b := FirstUseless(row, p, 0);
    if b == |row| {
      assert forall k | 0 <= k < p :: row[k].ubit >= 1;
    }
  }

  ghost predicate AllDistinct(hi: seq<FoldedHistory>, h0: seq<FoldedHistory>, h1: seq<FoldedHistory>)
    requires |hi| == |h0| == |h1| == NUM_BANKS
  {
    && (forall b, c | 0 <= b < NUM_BANKS && 0 <= c < NUM_BANKS ::
          hi[b] != h0[c] && hi[b] != h1[c] && h0[b] != h1[c])
    && (forall b, c | 0 <= b < c < NUM_BANKS :: hi[b] != hi[c] && h0[b] != h0[c] && h1[b] != h1[c])
  }

  /** class PREDICTOR. */
  class Predictor {
    const idxLengths: seq<nat>
    const baseTable: array<int>
    const taggedTable: array2<TEntry>
    const histI: seq<FoldedHistory>
    const histT0: seq<FoldedHistory>
    const histT1: seq<FoldedHistory>
    var tIndices: seq<nat>
    var globalHistory: History
    var pathHistory: nat
    var providerIdx: nat
    var alternativeIdx: nat
    var alternativePred: bool
    var pBias: int
    /** Every resolved branch so far, oldest first. */
    ghost var outcomes: seq<bool>
    /** Every direction predicted so far, oldest first. */
    ghost var predictions: seq<bool>

    /** The shape that nothing changes: table sizes and twelve distinct registers. */
    ghost predicate Shape() {
      && baseTable.Length == BASE_T_SIZE
      && taggedTable.Length0 == NUM_BANKS && taggedTable.Length1 == TAGGED_T_SIZE
      && |histI| == |histT0| == |histT1| == |idxLengths| == NUM_BANKS
      && AllDistinct(histI, histT0, histT1)
    }

    /** The three registers of a bank fold history h to the bank's lengths. */
    ghost predicate BankTracks(b: nat, h: History)
      requires Shape() && b < NUM_BANKS
      reads histI[b], histT0[b], histT1[b]
    {
      && histI[b].Tracks(h) && histT0[b].Tracks(h) && histT1[b].Tracks(h)
      && histI[b].oLength == histT0[b].oLength == histT1[b].oLength == idxLengths[b]
      && histI[b].cLength == LOG_TAGGED && histT0[b].cLength == TAG_BITS && histT1[b].cLength == TAG_BITS - 1
    }

    ghost predicate HistoriesValid()
      requires Shape()
      reads this`globalHistory, this`outcomes, histI, histT0, histT1
    {
      && globalHistory == HistoryOf(outcomes)
      && forall b | 0 <= b < NUM_BANKS :: BankTracks(b, globalHistory)
    }

    ghost predicate BaseInRange()
      requires Shape()
      reads baseTable
    {
      forall i | 0 <= i < BASE_T_SIZE :: -2 <= baseTable[i] <= 1
    }

    ghost predicate TaggedInRange()
      requires Shape()
      reads taggedTable
    {
      forall b, i | 0 <= b < NUM_BANKS && 0 <= i < TAGGED_T_SIZE :: EntryInRange(taggedTable[b, i])
    }

    ghost predicate IndicesInRange()
      reads this`tIndices
    {
      |tIndices| == NUM_BANKS && forall b | 0 <= b < NUM_BANKS :: tIndices[b] < TAGGED_T_SIZE
    }

    /** The invariant of every run: all registers fold the outcomes seen, and every counter
        and index is in range. */
    ghost predicate Valid()
      reads this, baseTable, taggedTable, histI, histT0, histT1
    {
      && Shape() && HistoriesValid() && BaseInRange() && TaggedInRange() && IndicesInRange()
      && SAT_L_BOUND <= pBias <= SAT_U_BOUND
      && providerIdx <= NUM_BANKS && alternativeIdx <= NUM_BANKS
    }

    /** The four selected entries. */
    ghost function Row(): (row: seq<TEntry>)
      requires Shape() && IndicesInRange()
      reads this`tIndices, taggedTable
      ensures |row| == NUM_BANKS
    {
      [taggedTable[0, tIndices[0]], taggedTable[1, tIndices[1]],
       taggedTable[2, tIndices[2]], taggedTable[3, tIndices[3]]]
    }

    /** The entry that provides. */
    ghost function Provider(): TEntry
      requires Shape() && IndicesInRange() && providerIdx < NUM_BANKS
      reads this`tIndices, this`providerIdx, taggedTable
    {
      taggedTable[providerIdx, tIndices[providerIdx]]
    }

    /** The entry that would provide otherwise. */
    ghost function Alternate(): TEntry
      requires Shape() && IndicesInRange() && alternativeIdx < NUM_BANKS
      reads this`tIndices, this`alternativeIdx, taggedTable
    {
      taggedTable[alternativeIdx, tIndices[alternativeIdx]]
    }

    ghost function BankTag(pc: nat, b: nat): (tag: nat)
      requires Shape() && b < NUM_BANKS
      reads histT0[b], histT1[b]
      ensures tag < Pow2(TAG_BITS)
    {
      Tag(pc, histT0[b].folded, histT1[b].folded)
    }

    ghost function Tags(pc: nat): (tags: seq<nat>)
      requires Shape()
      reads histT0, histT1
      ensures |tags| == NUM_BANKS && forall b | 0 <= b < NUM_BANKS :: tags[b] == BankTag(pc, b)
    {
      [BankTag(pc, 0), BankTag(pc, 1), BankTag(pc, 2), BankTag(pc, 3)]
    }

    /** What a prediction for pc leaves behind for the update that follows it. */
    ghost predicate Located(pc: nat)
      requires Shape() && IndicesInRange() && providerIdx <= NUM_BANKS
      reads this`tIndices, this`pathHistory, this`providerIdx, this`alternativeIdx
      reads taggedTable, histI, histT0, histT1
    {
      && (forall b | 0 <= b < NUM_BANKS ::
            tIndices[b] == TableIndex(pc, b, histI[b].folded, pathHistory, idxLengths[b]))
      && providerIdx == FirstMatch(Row(), Tags(pc), 0)
      && alternativeIdx == AlternateOf(Row(), Tags(pc), providerIdx)
    }

    /** Cells outside the selected row keep their entries. */
    twostate predicate OnlyRowChanges()
      requires Shape() && IndicesInRange()
      reads this`tIndices, taggedTable
    {
      forall b, i | 0 <= b < NUM_BANKS && 0 <= i < TAGGED_T_SIZE && i != tIndices[b] ::
        taggedTable[b, i] == old(taggedTable[b, i])
    }

    /** The history lengths are parameters: the source computes two of them with pow().
        The path history is never initialised, so its first value is arbitrary. */
    constructor (lengths: seq<nat>, strayPath: nat)
      requires |lengths| == NUM_BANKS && forall b | 0 <= b < NUM_BANKS :: lengths[b] < MAX_HIST_LEN
      ensures Valid() && outcomes == predictions == [] && idxLengths == lengths && pBias == 0
      ensures pathHistory == strayPath && forall i | 0 <= i < BASE_T_SIZE :: baseTable[i] == 0
      ensures forall b, i | 0 <= b < NUM_BANKS && 0 <= i < TAGGED_T_SIZE :: taggedTable[b, i] == TEntry(0, 0, 0)
      ensures fresh(baseTable) && fresh(taggedTable)
    {
      hide FoldFromScratch, AllDistinct, Pow2, FoldedHistory.Tracks, HistoriesValid, BaseInRange, TaggedInRange;
      idxLengths := lengths;
      baseTable := new int[BASE_T_SIZE](i => 0);
      taggedTable := new TEntry[NUM_BANKS, TAGGED_T_SIZE]((b, i) => EMPTY_ENTRY);
      var hi, h0, h1 := NewBanks(lengths);
      histI, histT0, histT1 := hi, h0, h1;
      tIndices := [0, 0, 0, 0];
      globalHistory := NO_HISTORY;
      pathHistory := strayPath;
      providerIdx, alternativeIdx, alternativePred := NUM_BANKS, NUM_BANKS, false;
      pBias := 0;
      outcomes, predictions := [], [];
      new;
      TablesStart();
      HistoriesStart();
    }

    lemma TablesStart()
      requires Shape() && (forall i | 0 <= i < BASE_T_SIZE :: baseTable[i] == 0)
      requires forall b, i | 0 <= b < NUM_BANKS && 0 <= i < TAGGED_T_SIZE :: taggedTable[b, i] == EMPTY_ENTRY
      ensures BaseInRange() && TaggedInRange()
    {
      hide AllDistinct, EntryInRange;
      EmptyInRange();
    }

    lemma HistoriesStart()
      requires Shape() && globalHistory == NO_HISTORY && outcomes == []
      requires forall b | 0 <= b < NUM_BANKS :: BankTracks(b, NO_HISTORY)
      ensures HistoriesValid()
    {
      hide AllDistinct, BankTracks;
    }

    /** The twelve registers. */
    static method NewBanks(lengths: seq<nat>)
        returns (hi: seq<FoldedHistory>, h0: seq<FoldedHistory>, h1: seq<FoldedHistory>)
      requires |lengths| == NUM_BANKS && forall b | 0 <= b < NUM_BANKS :: lengths[b] < MAX_HIST_LEN
      ensures |hi| == |h0| == |h1| == NUM_BANKS && AllDistinct(hi, h0, h1)
      ensures forall b | 0 <= b < NUM_BANKS ::
                && hi[b].Tracks(NO_HISTORY) && h0[b].Tracks(NO_HISTORY) && h1[b].Tracks(NO_HISTORY)
                && hi[b].oLength == h0[b].oLength == h1[b].oLength == lengths[b]
                && hi[b].cLength == LOG_TAGGED && h0[b].cLength == TAG_BITS && h1[b].cLength == TAG_BITS - 1
    {
      hide FoldFromScratch, FoldedHistory.Tracks;
      hi := NewRegisters(lengths, LOG_TAGGED);
      h0 := NewRegisters(lengths, TAG_BITS);
      h1 := NewRegisters(lengths, TAG_BITS - 1);
    }

    static method NewRegisters(lengths: seq<nat>, width: nat) returns (regs: seq<FoldedHistory>)
      requires 1 <= width < WORD_BITS
      requires |lengths| == NUM_BANKS && forall b | 0 <= b < NUM_BANKS :: lengths[b] < MAX_HIST_LEN
      ensures |regs| == NUM_BANKS
      ensures forall b | 0 <= b < NUM_BANKS ::
        fresh(regs[b]) && regs[b].Tracks(NO_HISTORY) && regs[b].oLength == lengths[b] && regs[b].cLength == width
      ensures forall b, c | 0 <= b < c < NUM_BANKS :: regs[b] != regs[c]
    {
      hide FoldFromScratch;
      regs := [];
      for b := 0 to NUM_BANKS
        invariant |regs| == b
        invariant forall k | 0 <= k < b ::
          fresh(regs[k]) && regs[k].Tracks(NO_HISTORY) && regs[k].oLength == lengths[k] && regs[k].cLength == width
        invariant forall k, m | 0 <= k < m < b :: regs[k] != regs[m]
      {
        var reg := new FoldedHistory.Setup(lengths[b], width);
        regs := regs + [reg];
      }
    }

    /** find_t_pred. */
    method FindTPred(pc: nat)
      requires Shape() && IndicesInRange()
      modifies this`providerIdx, this`alternativeIdx
      ensures providerIdx == FirstMatch(Row(), Tags(pc), 0)
      ensures alternativeIdx == AlternateOf(Row(), Tags(pc), providerIdx)
    {
      hide Tag;
      ghost var row, tags := Row(), Tags(pc);
      providerIdx := NUM_BANKS;
      alternativeIdx := NUM_BANKS;
      for i := 0 to NUM_BANKS
        invariant forall k | 0 <= k < i :: row[k].tag != tags[k]
        invariant providerIdx == NUM_BANKS
      {
        assert row[i] == taggedTable[i, tIndices[i]] && tags[i] == BankTag(pc, i);
        if taggedTable[i, tIndices[i]].tag == Tag(pc, histT0[i].folded, histT1[i].folded) {
          providerIdx := i;
          break;
        }
      }
      FirstMatchIs(row, tags, 0, providerIdx);
      var i := providerIdx + 1;
      while i < NUM_BANKS
        invariant forall k | providerIdx < k < i && k < NUM_BANKS :: row[k].tag != tags[k]
        invariant alternativeIdx == NUM_BANKS
      {
        assert row[i] == taggedTable[i, tIndices[i]] && tags[i] == BankTag(pc, i);
        if taggedTable[i, tIndices[i]].tag == Tag(pc, histT0[i].folded, histT1[i].folded) {
          alternativeIdx := i;
          break;
        }
        i := i + 1;
      }
      if providerIdx < NUM_BANKS {
        FirstMatchIs(row, tags, providerIdx + 1, alternativeIdx);
      }
    }

    /** The first loop of GetPrediction. */
    method SelectIndices(pc: nat)
      requires Shape() && |tIndices| == NUM_BANKS
      modifies this`tIndices
      ensures IndicesInRange()
      ensures forall b | 0 <= b < NUM_BANKS ::
        tIndices[b] == TableIndex(pc, b, histI[b].folded, pathHistory, idxLengths[b])
    {
      hide TableIndex;
      for b := 0 to NUM_BANKS
        invariant |tIndices| == NUM_BANKS
        invariant forall k | 0 <= k < b ::
          tIndices[k] == TableIndex(pc, k, histI[k].folded, pathHistory, idxLengths[k])
      {
        tIndices := tIndices[b := TableIndex(pc, b, histI[b].folded, pathHistory, idxLengths[b])];
      }
    }

    /** The first half of GetPrediction. */
    method LookUp(pc: nat)
      requires Shape() && |tIndices| == NUM_BANKS
      modifies this`tIndices, this`providerIdx, this`alternativeIdx
      ensures IndicesInRange() && providerIdx <= NUM_BANKS && alternativeIdx <= NUM_BANKS
      ensures Located(pc) && (providerIdx == NUM_BANKS ==> alternativeIdx == NUM_BANKS)
    {
      hide TableIndex, Row, Tags;
      SelectIndices(pc);
      FindTPred(pc);
    }

    /** GetPrediction. With a provider but no alternate bank and a non-negative bias the
        source reads a table entry that does not exist; `stray` stands for what it finds. */
    method GetPrediction(pc: nat, stray: bool) returns (predDir: bool)
      requires Valid()
      modifies this`tIndices, this`providerIdx, this`alternativeIdx, this`alternativePred, this`predictions
      ensures Valid() && Located(pc)
      ensures alternativePred == AlternativeDirection(pc)
      ensures predDir == Direction(pc, stray) && predictions == old(predictions) + [Direction(pc, stray)]
      ensures alternativePred ==
                if alternativeIdx < NUM_BANKS then Alternate().pred >= 0 else baseTable[pc % 8192] >= 0
      ensures providerIdx == NUM_BANKS ==> predDir == alternativePred
      ensures providerIdx < NUM_BANKS && pBias < 0 ==> predDir == (Provider().pred >= 0)
      ensures providerIdx < NUM_BANKS && pBias >= 0 && alternativeIdx < NUM_BANKS ==>
                predDir == if Alternate().pred in {-1, 0} && Alternate().ubit == 0 then alternativePred
                           else Provider().pred >= 0
      ensures providerIdx < NUM_BANKS && pBias >= 0 && alternativeIdx == NUM_BANKS ==>
                predDir == if stray then Provider().pred >= 0 else alternativePred
    {
      hide HistoriesValid, BaseInRange, TaggedInRange, BaseIndex, Located, Provider, Alternate;
      LookUp(pc);
      predDir := ChooseDirection(pc, stray);
      predictions := predictions + [predDir];
    }

    /** The direction of the alternate: its own counter, or the base table's. */
    ghost predicate AlternativeDirection(pc: nat)
      requires Valid()
      reads this, baseTable, taggedTable, histI, histT0, histT1
    {
      if alternativeIdx == NUM_BANKS then baseTable[BaseIndex(pc)] >= 0 else Row()[alternativeIdx].pred >= 0
    }

    /** The predicted direction: the provider's unless the bias prefers the alternate and
        the alternate's entry is recent. */
    ghost predicate Direction(pc: nat, stray: bool)
      requires Valid()
      reads this, baseTable, taggedTable, histI, histT0, histT1
    {
      var settled := if alternativeIdx == NUM_BANKS then stray else !IsRecent(Row()[alternativeIdx]);
      if providerIdx < NUM_BANKS && (pBias < 0 || settled) then Row()[providerIdx].pred >= 0
      else AlternativeDirection(pc)
    }

    /** The second half of GetPrediction. */
    method ChooseDirection(pc: nat, stray: bool) returns (predDir: bool)
      requires Valid() && (providerIdx == NUM_BANKS ==> alternativeIdx == NUM_BANKS)
      modifies this`alternativePred
      ensures Valid() && alternativePred == AlternativeDirection(pc) && predDir == Direction(pc, stray)
      ensures alternativePred ==
                if alternativeIdx < NUM_BANKS then Alternate().pred >= 0 else baseTable[pc % 8192] >= 0
      ensures providerIdx == NUM_BANKS ==> predDir == alternativePred
      ensures providerIdx < NUM_BANKS && pBias < 0 ==> predDir == (Provider().pred >= 0)
      ensures providerIdx < NUM_BANKS && pBias >= 0 && alternativeIdx < NUM_BANKS ==>
                predDir == if Alternate().pred in {-1, 0} && Alternate().ubit == 0 then alternativePred
                           else Provider().pred >= 0
      ensures providerIdx < NUM_BANKS && pBias >= 0 && alternativeIdx == NUM_BANKS ==>
                predDir == if stray then Provider().pred >= 0 else alternativePred
    {
      hide HistoriesValid, BaseInRange, TaggedInRange, BaseIndex;
      BaseIndexIs(pc);
      assert forall b | 0 <= b < NUM_BANKS :: Row()[b] == taggedTable[b, tIndices[b]];
      if providerIdx == NUM_BANKS {
        alternativePred := baseTable[BaseIndex(pc)] >= 0;
      } else {
        alternativePred := if alternativeIdx == NUM_BANKS then baseTable[BaseIndex(pc)] >= 0
                           else taggedTable[alternativeIdx, tIndices[alternativeIdx]].pred >= 0;
        if pBias < 0 {
          return taggedTable[providerIdx, tIndices[providerIdx]].pred >= 0;
        }
        var strong := stray;
        if alternativeIdx < NUM_BANKS {
          var e := taggedTable[alternativeIdx, tIndices[alternativeIdx]];
          strong := !WeakPred(e.pred) || e.ubit != 0;
        }
        if strong {
          return taggedTable[providerIdx, tIndices[providerIdx]].pred >= 0;
        }
      }
      return alternativePred;
    }

    /** The search loop of alloc_tagged_entry: the first candidate of least usefulness. */
    method LeastUseful() returns (minU: int, minIdx: nat)
      requires Shape() && TaggedInRange() && IndicesInRange() && providerIdx <= NUM_BANKS
      ensures FirstUseless(Row(), providerIdx, 0) == if minU > 0 then NUM_BANKS else minIdx
      ensures minIdx < NUM_BANKS
    {
      ghost var row := Row();
      assert forall b | 0 <= b < NUM_BANKS :: row[b] == taggedTable[b, tIndices[b]] && row[b].ubit >= 0;
      minU, minIdx := NUM_BANKS - 1, 0;
      for i := 0 to providerIdx
        invariant 0 <= minU <= NUM_BANKS - 1 && minIdx < NUM_BANKS
        invariant forall k | 0 <= k < i :: minU <= row[k].ubit
        invariant minU == NUM_BANKS - 1 || (minIdx < i && row[minIdx].ubit == minU)
        invariant forall k | 0 <= k < minIdx :: minU < row[k].ubit
      {
        if taggedTable[i, tIndices[i]].ubit < minU {
          minU, minIdx := taggedTable[i, tIndices[i]].ubit, i;
        }
      }
    }

    /** The decrement loop of alloc_tagged_entry. */
    method DecrementCandidates()
      requires Shape() && TaggedInRange() && IndicesInRange() && providerIdx <= NUM_BANKS
      requires FirstUseless(Row(), providerIdx, 0) == NUM_BANKS
      modifies taggedTable
      ensures TaggedInRange() && OnlyRowChanges()
      ensures forall b | 0 <= b < NUM_BANKS ::
        var e := old(Row())[b];
        Row()[b] == if b < providerIdx then e.(ubit := e.ubit - 1) else e
    {
      hide AllDistinct, FirstUseless;
      ghost var row := Row();
      assert forall b | 0 <= b < NUM_BANKS :: row[b] == taggedTable[b, tIndices[b]] && EntryInRange(row[b]);
      for i := 0 to providerIdx
        invariant OnlyRowChanges()
        invariant forall k | 0 <= k < NUM_BANKS ::
          taggedTable[k, tIndices[k]] == if k < i then row[k].(ubit := row[k].ubit - 1) else row[k]
      {
        taggedTable[i, tIndices[i]] :=
          taggedTable[i, tIndices[i]].(ubit := taggedTable[i, tIndices[i]].ubit - 1);
      }
    }

    /** alloc_tagged_entry. */
    method AllocTaggedEntry(pc: nat, brTaken: bool)
      requires Shape() && TaggedInRange() && IndicesInRange() && providerIdx <= NUM_BANKS
      modifies taggedTable
      ensures TaggedInRange() && OnlyRowChanges()
      ensures Row() == Allocated(old(Row()), Tags(pc), providerIdx, brTaken)
    {
      hide FirstUseless, Tags, Tag, EntryInRange;
      ghost var row, tags := Row(), Tags(pc);
      var minU, minIdx := LeastUseful();
      if minU > 0 {
        DecrementCandidates();
      } else {
        var tag := Tag(pc, histT0[minIdx].folded, histT1[minIdx].folded);
        assert tag == tags[minIdx] == BankTag(pc, minIdx);
        Overwrite(minIdx, tag, brTaken);
      }
    }

    /** The three assignments to the entry that alloc_tagged_entry replaces. */
    method Overwrite(b: nat, tag: nat, brTaken: bool)
      requires Shape() && TaggedInRange() && IndicesInRange() && b < NUM_BANKS && tag < Pow2(TAG_BITS)
      modifies taggedTable
      ensures TaggedInRange() && OnlyRowChanges()
      ensures Row() == old(Row())[b := FreshEntry(tag, brTaken)]
    {
      ghost var row := Row();
      assert forall b | 0 <= b < NUM_BANKS :: row[b] == taggedTable[b, tIndices[b]];
      var i := tIndices[b];
      taggedTable[b, i] := taggedTable[b, i].(pred := if brTaken then 0 else -1);
      taggedTable[b, i] := taggedTable[b, i].(tag := tag);
      taggedTable[b, i] := taggedTable[b, i].(ubit := 0);
    }

    /** update_base_table. */
    method UpdateBaseTable(pc: nat, brTaken: bool)
      requires Shape() && BaseInRange()
      modifies baseTable
      ensures BaseInRange()
      ensures brTaken ==>
                baseTable[pc % 8192] == if old(baseTable[pc % 8192]) < 1 then old(baseTable[pc % 8192]) + 1 else 1
      ensures !brTaken ==>
                baseTable[pc % 8192] == if old(baseTable[pc % 8192]) > -2 then old(baseTable[pc % 8192]) - 1 else -2
      ensures forall i | 0 <= i < BASE_T_SIZE && i != pc % 8192 :: baseTable[i] == old(baseTable[i])
    {
      hide BaseIndex;
      BaseIndexIs(pc);
      var idx := BaseIndex(pc);
      if brTaken {
        if baseTable[idx] < 1 { baseTable[idx] := baseTable[idx] + 1; }
      } else {
        if baseTable[idx] > -2 { baseTable[idx] := baseTable[idx] - 1; }
      }
    }

    /** update_history. */
    method UpdateHistory(pc: nat, brTaken: bool)
      requires Shape() && HistoriesValid()
      modifies this`pathHistory, this`globalHistory, this`outcomes, histI, histT0, histT1
      ensures HistoriesValid()
      ensures outcomes == old(outcomes) + [brTaken]
      ensures globalHistory == Push(old(globalHistory), brTaken)
      ensures pathHistory == NextPath(old(pathHistory), pc)
    {
      hide FoldFromScratch, NextPath, FoldedHistory.Tracks;
      pathHistory := NextPath(pathHistory, pc);
      ghost var before := globalHistory;
      globalHistory := Push(globalHistory, brTaken);
      var h := globalHistory;
      outcomes := outcomes + [brTaken];
      assert outcomes[..|outcomes| - 1] == old(outcomes);
      for i := 0 to NUM_BANKS
        modifies histI, histT0, histT1
        invariant forall b | 0 <= b < i :: BankTracks(b, h)
        invariant forall b | i <= b < NUM_BANKS :: BankTracks(b, before)
      {
        UpdateBank(i, h, before);
      }
    }

    /** One turn of update_history's loop. */
    method UpdateBank(i: nat, h: History, ghost before: History)
      requires Shape() && i < NUM_BANKS && BankTracks(i, before) && h == Push(before, h[0])
      modifies histI[i], histT0[i], histT1[i]
      ensures BankTracks(i, h)
    {
      hide FoldFromScratch;
      histT0[i].Update(h, before);
      histT1[i].Update(h, before);
      histI[i].Update(h, before);
    }

    /** The bias part of UpdatePredictor; says whether a recent provider was right. */
    method UpdateBias(resolveDir: bool) returns (providerCorrect: bool)
      requires Shape() && IndicesInRange() && providerIdx <= NUM_BANKS
      modifies this`pBias
      ensures providerIdx == NUM_BANKS || Provider().pred !in {-1, 0} || Provider().ubit != 0 ==> pBias == old(pBias)
      ensures providerIdx < NUM_BANKS && Provider().pred in {-1, 0} && Provider().ubit == 0 ==>
                && (alternativePred == (Provider().pred >= 0) ==>
                      pBias == if old(pBias) > -8 then old(pBias) - 1 else old(pBias))
                && (alternativePred != (Provider().pred >= 0) && alternativePred == resolveDir ==>
                      pBias == if old(pBias) < 7 then old(pBias) + 1 else old(pBias))
                && (alternativePred != (Provider().pred >= 0) && alternativePred != resolveDir ==>
                      pBias == old(pBias))
      ensures providerCorrect <==>
        && providerIdx < NUM_BANKS && Provider().pred in {-1, 0} && Provider().ubit == 0
        && resolveDir == (Provider().pred >= 0)
    {
      providerCorrect := false;
      if providerIdx < NUM_BANKS {
        var e := taggedTable[providerIdx, tIndices[providerIdx]];
        assert e == Row()[providerIdx];
        var pPred := e.pred >= 0;
        if WeakPred(e.pred) && e.ubit == 0 {
          if resolveDir == pPred { providerCorrect := true; }
          if alternativePred != pPred {
            if alternativePred == resolveDir { pBias := SatCount(pBias, true, SAT_U_BOUND); }
          } else {
            pBias := SatCount(pBias, false, SAT_L_BOUND);
          }
        }
      }
    }

    /** The training of the providing entry in UpdatePredictor. */
    method TrainProvider(resolveDir: bool, predDir: bool)
      requires Shape() && TaggedInRange() && IndicesInRange() && providerIdx < NUM_BANKS
      modifies taggedTable
      ensures TaggedInRange() && OnlyRowChanges()
      ensures Row() == old(Row())[providerIdx :=
        Trained(old(Row())[providerIdx], resolveDir, predDir, alternativePred)]
      ensures Provider().tag == old(Provider().tag)
      ensures resolveDir ==>
                Provider().pred == if old(Provider().pred) < 7 then old(Provider().pred) + 1 else 7
      ensures !resolveDir ==>
                Provider().pred == if old(Provider().pred) > -8 then old(Provider().pred) - 1 else -8
      ensures predDir == alternativePred ==> Provider().ubit == old(Provider().ubit)
      ensures predDir != alternativePred && predDir == resolveDir ==>
                Provider().ubit == if old(Provider().ubit) < 3 then old(Provider().ubit) + 1 else 3
      ensures predDir != alternativePred && predDir != resolveDir ==>
                Provider().ubit == if old(Provider().ubit) > 0 then old(Provider().ubit) - 1 else 0
    {
      hide AllDistinct, EntryInRange, SatCount;
      ghost var row := Row();
      assert forall b | 0 <= b < NUM_BANKS :: row[b] == taggedTable[b, tIndices[b]] && EntryInRange(row[b]);
      TrainedInRange(row[providerIdx], resolveDir, predDir, alternativePred);
      TrainedIs(row[providerIdx], resolveDir, predDir, alternativePred);
      var i := tIndices[providerIdx];
      var e := taggedTable[providerIdx, i];
      taggedTable[providerIdx, i] :=
        e.(pred := SatCount(e.pred, resolveDir, if resolveDir then SAT_U_BOUND else SAT_L_BOUND));
      if alternativePred != predDir {
        e := taggedTable[providerIdx, i];
        taggedTable[providerIdx, i] :=
          if predDir == resolveDir then e.(ubit := SatCount(e.ubit, true, 3))
          else e.(ubit := SatCount(e.ubit, false, 0));
      }
    }

    /** The tables in UpdatePredictor: allocation, and training of the base table or the provider. */
    method UpdateTables(pc: nat, resolveDir: bool, predDir: bool, providerCorrect: bool)
      requires Shape() && BaseInRange() && TaggedInRange() && IndicesInRange() && providerIdx <= NUM_BANKS
      requires providerCorrect <==>
        && providerIdx < NUM_BANKS && Provider().pred in {-1, 0} && Provider().ubit == 0
        && resolveDir == (Provider().pred >= 0)
      modifies baseTable, taggedTable
      ensures BaseInRange() && TaggedInRange() && OnlyRowChanges()
      ensures Row() == UpdatedRow(old(Row()), Tags(pc), providerIdx, resolveDir, predDir, alternativePred)
      ensures forall i | 0 <= i < BASE_T_SIZE && i != pc % 8192 :: baseTable[i] == old(baseTable[i])
      ensures providerIdx < NUM_BANKS ==> baseTable[pc % 8192] == old(baseTable[pc % 8192])
      ensures providerIdx == NUM_BANKS && resolveDir ==>
                baseTable[pc % 8192] == if old(baseTable[pc % 8192]) < 1 then old(baseTable[pc % 8192]) + 1 else 1
      ensures providerIdx == NUM_BANKS && !resolveDir ==>
                baseTable[pc % 8192] == if old(baseTable[pc % 8192]) > -2 then old(baseTable[pc % 8192]) - 1 else -2
    {
      hide BaseInRange, TaggedInRange, Tags, FirstUseless, Allocated, Trained, BaseIndex, SatCount, AllDistinct;
      assert providerIdx < NUM_BANKS ==> Row()[providerIdx] == Provider();
      if predDir != resolveDir && providerIdx > 0 && !providerCorrect {
        AllocTaggedEntry(pc, resolveDir);
      }
      if providerIdx == NUM_BANKS {
        UpdateBaseTable(pc, resolveDir);
      } else {
        TrainProvider(resolveDir, predDir);
      }
    }

    lemma RowIsFound(pc: nat, resolveDir: bool, predDir: bool)
      requires Valid() && Located(pc)
      ensures var r := UpdatedRow(Row(), Tags(pc), providerIdx, resolveDir, predDir, alternativePred);
              FoundAgain(Row(), Tags(pc), providerIdx, r, resolveDir, predDir)
    {
      hide HistoriesValid, BaseInRange, Tags, FoundAgain, UpdatedRow, AllDistinct, EntryInRange;
      UpdatedRowIsFound(Row(), Tags(pc), providerIdx, resolveDir, predDir, alternativePred);
    }

    lemma RowProvides()
      requires Shape() && IndicesInRange() && providerIdx < NUM_BANKS
      ensures Row()[providerIdx] == Provider()
    {
      hide AllDistinct;
    }

    lemma ProviderIs(pc: nat, resolveDir: bool, predDir: bool)
      requires Valid()
      ensures var r := UpdatedRow(Row(), Tags(pc), providerIdx, resolveDir, predDir, alternativePred);
              providerIdx < NUM_BANKS ==>
                && r[providerIdx] == Trained(Provider(), resolveDir, predDir, alternativePred)
                && EntryInRange(Provider())
    {
      hide HistoriesValid, BaseInRange, Tags, UpdatedRow, AllDistinct, EntryInRange;
      UpdatedRowIs(Row(), Tags(pc), providerIdx, resolveDir, predDir, alternativePred);
    }

    /** UpdatePredictor, called after the prediction for the same branch. */
    method UpdatePredictor(pc: nat, resolveDir: bool, predDir: bool)
      requires Valid() && Located(pc)
      modifies this`pBias, this`pathHistory, this`globalHistory, this`outcomes
      modifies baseTable, taggedTable, histI, histT0, histT1
      ensures Valid()
      ensures Row() == UpdatedRow(old(Row()), old(Tags(pc)), providerIdx, resolveDir, predDir, alternativePred)
      ensures FoundAgain(old(Row()), old(Tags(pc)), providerIdx, Row(), resolveDir, predDir)
      ensures OnlyRowChanges()
      ensures providerIdx < NUM_BANKS ==>
                && Provider().tag == old(Provider().tag)
                && (resolveDir ==> Provider().pred == if old(Provider().pred) < 7 then old(Provider().pred) + 1 else 7)
                && (!resolveDir ==>
                      Provider().pred == if old(Provider().pred) > -8 then old(Provider().pred) - 1 else -8)
                && (predDir == alternativePred ==> Provider().ubit == old(Provider().ubit))
                && (predDir != alternativePred && predDir == resolveDir ==>
                      Provider().ubit == if old(Provider().ubit) < 3 then old(Provider().ubit) + 1 else 3)
                && (predDir != alternativePred && predDir != resolveDir ==>
                      Provider().ubit == if old(Provider().ubit) > 0 then old(Provider().ubit) - 1 else 0)
      ensures forall i | 0 <= i < BASE_T_SIZE && i != pc % 8192 :: baseTable[i] == old(baseTable[i])
      ensures providerIdx < NUM_BANKS ==> baseTable[pc % 8192] == old(baseTable[pc % 8192])
      ensures providerIdx == NUM_BANKS && resolveDir ==>
                baseTable[pc % 8192] == if old(baseTable[pc % 8192]) < 1 then old(baseTable[pc % 8192]) + 1 else 1
      ensures providerIdx == NUM_BANKS && !resolveDir ==>
                baseTable[pc % 8192] == if old(baseTable[pc % 8192]) > -2 then old(baseTable[pc % 8192]) - 1 else -2
      ensures providerIdx == NUM_BANKS || old(Provider().pred !in {-1, 0} || Provider().ubit != 0) ==>
                pBias == old(pBias)
      ensures providerIdx < NUM_BANKS && old(Provider().pred in {-1, 0} && Provider().ubit == 0) ==>
                && (alternativePred == (old(Provider().pred) >= 0) ==>
                      pBias == if old(pBias) > -8 then old(pBias) - 1 else -8)
                && (alternativePred != (old(Provider().pred) >= 0) && alternativePred == resolveDir ==>
                      pBias == if old(pBias) < 7 then old(pBias) + 1 else 7)
                && (alternativePred != (old(Provider().pred) >= 0) && alternativePred != resolveDir ==>
                      pBias == old(pBias))
      ensures outcomes == old(outcomes) + [resolveDir]
      ensures globalHistory == Push(old(globalHistory), resolveDir)
      ensures pathHistory == NextPath(old(pathHistory), pc)
    {
      hide HistoriesValid, BaseInRange, TaggedInRange, Tags, Row, Located, UpdatedRow, FoundAgain, AllDistinct;
      hide BaseIndex, NextPath, Trained, Provider, EntryInRange;
      RowIsFound(pc, resolveDir, predDir);
      ProviderIs(pc, resolveDir, predDir);
      if providerIdx < NUM_BANKS {
        TrainedIs(Provider(), resolveDir, predDir, alternativePred);
      }
      var providerCorrect := UpdateBias(resolveDir);
      UpdateTables(pc, resolveDir, predDir, providerCorrect);
      if providerIdx < NUM_BANKS {
        RowProvides();
      }
      UpdateHistory(pc, resolveDir);
    }
  }
}
