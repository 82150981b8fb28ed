/** The windowed reader of a branch trace: a ring buffer over the edge sequence of the
    trace file, shifted forward by half its size when the iterator runs past its end. */
module Bt9Reader {
  import opened Bits

  lemma DistinctSlots(i: nat, j: nat, size: nat)
    requires size > 0 && i < j < i + size
    ensures i % size != j % size
  {
    var q, r := i / size, i % size;
    if r + (j - i) < size {
      QuotientIs(j, size, q, r + (j - i));
    } else {
      assert (q + 1) * size == q * size + size;
      QuotientIs(j, size, q + 1, r + (j - i) - size);
    }
  }

  /** The loop ends by the exception rather than by the end iterator exactly when the
      trace is empty, or runs out just as a full window has been consumed. */
  predicate EndsByException(n: nat, size: nat)
    requires size >= 2
  {
    n == 0 || (n >= size && (n - size) % (size / 2) == 0)
  }

  /** The sequence ends within half a window after the s-th shift's beginning. */
  lemma LastShift(n: nat, size: nat, s: nat)
    requires size >= 2
    requires s * (size / 2) + size <= n < (s + 1) * (size / 2) + size
    ensures EndsByException(n, size) <==> n == s * (size / 2) + size
  {
    var half := size / 2;
    assert (s + 1) * half == s * half + half;
    QuotientIs(n - size, half, s, n - size - s * half);
  }

  /** The part of class BT9Reader that serves the edge sequence. `entries` is what the
      stream still held when the sequence began, `position` how much of it was read. */
  class Reader {
    const entries: seq<nat>
    const buffer: array<nat>
    var position: nat
    var bufferBegin: nat
    var bufferEnd: nat
    var reachEof: bool

    /** The window is the segment [bufferBegin, bufferEnd) of the sequence, entry i in slot
        i % size; it is full unless the end of the sequence has been reached. */
    ghost predicate Valid()
      reads this, buffer
    {
      && buffer.Length > 0
      && position == bufferEnd <= |entries|
      && bufferBegin <= bufferEnd <= bufferBegin + buffer.Length
      && (if reachEof then bufferEnd == |entries| < bufferBegin + buffer.Length
          else bufferEnd == bufferBegin + buffer.Length)
      && Holds(bufferBegin, bufferEnd)
    }

    ghost predicate Holds(lo: nat, hi: nat)
      requires buffer.Length > 0 && hi <= |entries|
      reads buffer
    {
      forall i | lo <= i < hi :: buffer[i % buffer.Length] == entries[i]
    }

    /** readNextEdgeSequenceListEntry_. */
    method ReadNextEntry() returns (ok: bool, edgeId: nat)
      requires position <= |entries|
      modifies this`position
      ensures ok == (old(position) < |entries|)
      ensures ok ==> edgeId == entries[old(position)] && position == old(position) + 1
      ensures !ok ==> position == old(position)
    {
      if position == |entries| { return false, 0; }
      ok, edgeId := true, entries[position];
      position := position + 1;
    }

    /** One more entry at the end of the window. */
    method Store(edgeId: nat)
      requires buffer.Length > 0 && bufferEnd < |entries| && edgeId == entries[bufferEnd]
      requires bufferBegin <= bufferEnd < bufferBegin + buffer.Length && Holds(bufferBegin, bufferEnd)
      modifies this`bufferEnd, buffer
      ensures bufferEnd == old(bufferEnd) + 1 && Holds(bufferBegin, bufferEnd)
    {
      var slot := bufferEnd % buffer.Length;
      forall i | bufferBegin <= i < bufferEnd ensures i % buffer.Length != slot {
        DistinctSlots(i, bufferEnd, buffer.Length);
      }
      buffer[slot] := edgeId;
      bufferEnd := bufferEnd + 1;
    }

    /** The loop shared by the initialisation and the shift of the window. */
    method Fill()
      requires buffer.Length > 0 && position == bufferEnd <= |entries| && !reachEof
      requires bufferBegin <= bufferEnd <= bufferBegin + buffer.Length && Holds(bufferBegin, bufferEnd)
      modifies this`position, this`bufferEnd, this`reachEof, buffer
      ensures Valid()
    {
      hide Holds;
      while bufferEnd < bufferBegin + buffer.Length
        invariant position == bufferEnd <= |entries| && !reachEof
        invariant bufferBegin <= bufferEnd <= bufferBegin + buffer.Length && Holds(bufferBegin, bufferEnd)
      {
        var ok, edgeId := ReadNextEntry();
        if !ok {
          reachEof := true;
          break;
        }
        Store(edgeId);
      }
    }

    /** initBT9EdgeSeqListAccessWindow_, run by the constructor. */
    constructor (sequence: seq<nat>, size: nat)
      requires size > 0
      ensures Valid() && fresh(buffer) && entries == sequence && buffer.Length == size
      ensures bufferBegin == 0
    {
      entries := sequence;
      buffer := new nat[size](i => 0);
      position, bufferBegin, bufferEnd, reachEof := 0, 0, 0, false;
      new;
      Fill();
    }

    /** shiftBT9EdgeSeqListAccessWindow_; its assert(!reach_eof_) is the precondition.
        Valid() fixes the new end and end-of-file flag from the new beginning. */
    method ShiftWindow()
      requires Valid() && !reachEof
      modifies this`position, this`bufferBegin, this`bufferEnd, this`reachEof, buffer
      ensures Valid() && bufferBegin == old(bufferBegin) + buffer.Length / 2
    {
      bufferBegin := bufferBegin + buffer.Length / 2;
      Fill();
    }

    /** moveToNextEdgeSeqListEntry_. */
    method MoveToNext(idx: nat) returns (more: bool, next: nat)
      requires Valid()
      modifies this`position, this`bufferBegin, this`bufferEnd, this`reachEof, buffer
      ensures Valid() && next == idx + 1
      ensures more <==> !(next >= old(bufferEnd) && old(reachEof))
      ensures bufferBegin == old(bufferBegin) +
        if more && next >= old(bufferEnd) then buffer.Length / 2 else 0
      ensures reachEof == (|entries| < bufferBegin + buffer.Length)
    {
      next := idx + 1;
      if next >= bufferEnd {
        if reachEof { return false, next; }
        ShiftWindow();
      }
      more := true;
    }

    /** loadBT9BranchInstance_; `thrown` stands for the out_of_range exception. */
    method Load(idx: nat) returns (thrown: bool, edgeId: nat)
      requires Valid()
      ensures thrown <==> idx < bufferBegin || (reachEof && idx >= bufferEnd)
      ensures !thrown ==> edgeId == buffer[idx % buffer.Length]
      ensures !thrown && idx < bufferEnd ==> edgeId == entries[idx]
    {
      if idx < bufferBegin { return true, 0; }
      if reachEof && idx >= bufferEnd { return true, 0; }
      return false, buffer[idx % buffer.Length];
    }
  }

  /** A window of size 1 is moved by 0: on a sequence that is not empty the loop over it loads
      the first entry again and again, and after any number of rounds has not come to an end. */
  method WindowOfOne(sequence: seq<nat>, rounds: nat) returns (loaded: seq<nat>, more: bool)
    requires sequence != []
    ensures more && |loaded| == rounds && forall k | 0 <= k < rounds :: loaded[k] == sequence[0]
  {
    var reader := new Reader(sequence, 1);
    loaded, more := [], true;
    var idx := 0;
    while more && |loaded| < rounds
      invariant fresh(reader) && fresh(reader.buffer) && reader.Valid() && reader.entries == sequence
      invariant reader.buffer.Length == 1 && reader.bufferBegin == 0 && reader.bufferEnd == 1 && !reader.reachEof
      invariant more && |loaded| <= rounds && forall k | 0 <= k < |loaded| :: loaded[k] == sequence[0]
      decreases rounds - |loaded|
    {
      var thrown, edgeId := reader.Load(idx);
      OneSlot(idx);
      assert !thrown && reader.buffer[0 % 1] == sequence[0];
      loaded := loaded + [edgeId];
      more, idx := reader.MoveToNext(idx);
    }
  }

  lemma OneSlot(idx: nat)
    ensures idx % 1 == 0
  {
  }
}
