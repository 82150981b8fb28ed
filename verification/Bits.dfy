/** Bitwise operators of C's unsigned integers, on natural numbers.

    A word of any width is a `nat`; a width only enters where the source truncates,
    as `Truncate(x, width)`, the remainder of x by 2^width (TruncateIsMod). Every
    operator works from the low bit up, one bit a step. */
module Bits {
  type byte = x: int | 0 <= x < 256

  function Pow2(n: nat): (p: nat)
    ensures p > 0
  {
    if n == 0 then 1 else 2 * Pow2(n - 1)
  }

  function Xor(x: nat, y: nat): nat
    decreases x + y
  {
    if x == 0 && y == 0 then 0
    else (if x % 2 == y % 2 then 0 else 1) + 2 * Xor(x / 2, y / 2)
  }

  function And(x: nat, y: nat): nat
    decreases x
  {
    if x == 0 then 0
    else (if x % 2 == 1 && y % 2 == 1 then 1 else 0) + 2 * And(x / 2, y / 2)
  }

  function Or(x: nat, y: nat): nat
    decreases x + y
  {
    if x == 0 && y == 0 then 0
    else (if x % 2 == 1 || y % 2 == 1 then 1 else 0) + 2 * Or(x / 2, y / 2)
  }

  function Shl(x: nat, n: nat): nat {
    if n == 0 then x else 2 * Shl(x, n - 1)
  }

  function Shr(x: nat, n: nat): nat {
    if n == 0 then x else Shr(x / 2, n - 1)
  }

  /** Keeping the low n bits: what masking with (1 << n) - 1 does (MaskIsTruncate). */
  function Truncate(x: nat, n: nat): (r: nat)
    ensures r < Pow2(n)
  {
    if n == 0 then 0 else x % 2 + 2 * Truncate(x / 2, n - 1)
  }

  /** Bit k of x, counted from the low end. */
  predicate Bit(x: nat, k: nat)
    decreases k
  {
    if k == 0 then x % 2 == 1 else Bit(x / 2, k - 1)
  }

  predicate IsPow2(x: nat)
  {
    x > 0 && (x == 1 || (x % 2 == 0 && IsPow2(x / 2)))
  }

  // ---------- what each operator does to one bit ----------

  lemma {:induction false} BitXor(x: nat, y: nat, k: nat)
    ensures Bit(Xor(x, y), k) == (Bit(x, k) != Bit(y, k))
    decreases k
  {
    assert Xor(x, y) / 2 == Xor(x / 2, y / 2);
    if k > 0 { BitXor(x / 2, y / 2, k - 1); }
  }

  lemma {:induction false} BitShl(x: nat, n: nat, k: nat)
    ensures Bit(Shl(x, n), k) == (k >= n && Bit(x, k - n))
    decreases n
  {
    if n > 0 && k > 0 { BitShl(x, n - 1, k - 1); }
  }

  lemma {:induction false} BitShr(x: nat, n: nat, k: nat)
    ensures Bit(Shr(x, n), k) == Bit(x, n + k)
    decreases n
  {
    if n > 0 { BitShr(x / 2, n - 1, k); }
  }

  lemma {:induction false} BitTruncate(x: nat, n: nat, k: nat)
    ensures Bit(Truncate(x, n), k) == (k < n && Bit(x, k))
    decreases n
  {
    if n == 0 {
      BitZero(k);
    } else if k > 0 {
      BitTruncate(x / 2, n - 1, k - 1);
    }
  }

  /** A shifted word with the gap at its low end filled. */
  lemma {:induction false} BitJoined(x: nat, n: nat, y: nat, k: nat)
    requires y < Pow2(n)
    ensures Bit(Shl(x, n) + y, k) == if k < n then Bit(y, k) else Bit(x, k - n)
    decreases n
  {
    if n > 0 {
      assert (Shl(x, n) + y) / 2 == Shl(x, n - 1) + y / 2;
      if k > 0 { BitJoined(x, n - 1, y / 2, k - 1); }
    }
  }

  lemma {:induction false} TruncateShl(x: nat, n: nat, width: nat)
    requires n <= width
    ensures Truncate(Shl(x, n), width) == Shl(Truncate(x, width - n), n)
    decreases n
  {
    if n > 0 { TruncateShl(x, n - 1, width - 1); }
  }

  lemma {:induction false} ShrFits(x: nat, n: nat, width: nat)
    requires n <= width && x < Pow2(width)
    ensures Shr(x, n) < Pow2(width - n)
    decreases n
  {
    if n > 0 { ShrFits(x / 2, n - 1, width - 1); }
  }

  lemma {:induction false} BitZero(k: nat)
    ensures !Bit(0, k)
  {
    if k > 0 { BitZero(k - 1); }
  }

  /** Two words with the same bits are the same word. */
  lemma {:induction false} BitsDetermine(x: nat, y: nat)
    requires forall k: nat :: Bit(x, k) == Bit(y, k)
    ensures x == y
    decreases x + y
  {
    if x + y > 0 {
      assert Bit(x, 0) == Bit(y, 0);
      forall k: nat ensures Bit(x / 2, k) == Bit(y / 2, k) {
        assert Bit(x, k + 1) == Bit(y, k + 1);
      }
      BitsDetermine(x / 2, y / 2);
    }
  }

  // ---------- masks and powers of two ----------

  lemma {:induction false} TruncateIsMod(x: nat, n: nat)
    ensures Truncate(x, n) == x % Pow2(n) && Shr(x, n) == x / Pow2(n)
    decreases n
  {
    if n > 0 {
      TruncateIsMod(x / 2, n - 1);
      HalfDivides(x, Pow2(n - 1));
    }
  }

  /** Dividing the half of a word. */
  lemma HalfDivides(x: nat, p: nat)
    requires p > 0
    ensures x / (2 * p) == (x / 2) / p && x % (2 * p) == 2 * ((x / 2) % p) + x % 2
  {
    var h := x / 2;
    var q, r := h / p, h % p;
    assert h == q * p + r;
    TwiceProduct(q, p);
    assert x == q * (2 * p) + (2 * r + x % 2);
    QuotientIs(x, 2 * p, q, 2 * r + x % 2);
  }

  lemma TwiceProduct(q: int, p: int)
    ensures q * (2 * p) == 2 * (q * p)
  {
  }

  lemma QuotientIs(x: int, d: nat, q: int, r: nat)
    requires d > 0 && r < d && x == q * d + r
    ensures x / d == q && x % d == r
  {
    var q', r' := x / d, x % d;
    assert (q - q') * d == r' - r;
    assert q - q' >= 1 ==> (q - q') * d >= d;
    assert q' - q >= 1 ==> (q' - q) * d >= d;
  }

  lemma {:induction false} MaskIsTruncate(x: nat, n: nat)
    ensures And(x, Pow2(n) - 1) == Truncate(x, n)
    decreases n
  {
    if n == 0 {
      AndZero(x);
    } else {
      assert (Pow2(n) - 1) % 2 == 1 && (Pow2(n) - 1) / 2 == Pow2(n - 1) - 1;
      MaskIsTruncate(x / 2, n - 1);
    }
  }

  /** A short word is not changed. */
  lemma {:induction false} TruncateShort(x: nat, k: nat, n: nat)
    requires x < Pow2(k) && k <= n
    ensures Truncate(x, n) == x
    decreases n
  {
    if n > 0 {
      TruncateShort(x / 2, if k > 0 then k - 1 else 0, n - 1);
    }
  }

  /** Words with the same top bit have it in common. */
  lemma {:induction false} AndTop(x: nat, y: nat, n: nat)
    requires Pow2(n) <= x < Pow2(n + 1) && Pow2(n) <= y < Pow2(n + 1)
    ensures And(x, y) >= Pow2(n)
  {
    if n > 0 {
      AndTop(x / 2, y / 2, n - 1);
    } else {
      assert And(1, 1) == 1;
    }
  }

  lemma {:induction false} AndZero(x: nat)
    ensures And(x, 0) == 0
  {
    if x > 0 { AndZero(x / 2); }
  }

  lemma {:induction false} AndSelf(x: nat)
    ensures And(x, x) == x
  {
    if x > 0 { AndSelf(x / 2); }
  }

  /** Or-ing in a value below the shifted word's low end adds it. */
  lemma {:induction false} OrIsAdd(x: nat, n: nat, y: nat)
    requires y < Pow2(n)
    ensures Or(Shl(x, n), y) == Shl(x, n) + y
    decreases n
  {
    if n == 0 {
      OrZero(x);
    } else {
      OrIsAdd(x, n - 1, y / 2);
    }
  }

  lemma {:induction false} OrZero(x: nat)
    ensures Or(x, 0) == x
  {
    if x > 0 { OrZero(x / 2); }
  }

  lemma {:induction false} ShlIsMul(x: nat, n: nat)
    ensures Shl(x, n) == x * Pow2(n)
    decreases n
  {
    if n > 0 { ShlIsMul(x, n - 1); }
  }

  lemma {:induction false} Log2(x: nat) returns (n: nat)
    requires IsPow2(x)
    ensures x == Pow2(n)
  {
    if x == 1 { n := 0; } else { n := Log2(x / 2); n := n + 1; }
  }

  /** The bit trick x & (x - 1): zero exactly on the powers of two. */
  lemma {:induction false} LowBitTrick(x: nat)
    requires x > 0
    ensures And(x, x - 1) == 0 <==> IsPow2(x)
  {
    if x == 1 {
    } else if x % 2 == 0 {
      assert (x - 1) / 2 == x / 2 - 1;
      LowBitTrick(x / 2);
    } else {
      assert (x - 1) / 2 == x / 2;
      AndSelf(x / 2);
    }
  }
}
