/** 64-bit integers to text and back: the %lu and %lx conversions of the portable printf,
    and the overflow-checked parser. */
module Numbers {
  import opened Bits
  import opened Wrappers

  const ULL_MAX: int := 18446744073709551615
  const LL_MAX: int := 9223372036854775807
  const MAXDIGS: nat := 22

  // ---------- machine integers ----------

  /** The value a 32-bit, or 64-bit, signed integer takes for x. */
  function ToInt32(x: int): int {
    (x + WORD32 / 2) % WORD32 - WORD32 / 2
  }

  function ToInt64(x: int): int {
    (x + WORD63) % WORD64 - WORD63
  }

  /** (x >> 1) & ~HIBITL on a signed 64-bit x: the top bit of the shifted pattern cleared. */
  function HalfCleared(x: int): nat {
    ((x / 2) % WORD64) % WORD63
  }

  lemma HalfClearedIsHalf(u: nat)
    requires u < WORD64
    ensures HalfCleared(ToInt64(u)) == u / 2
  {
    hide HalfCleared, ToInt64;
    SignedOf(u);
    HalfClearedOf(u);
  }

  /** The signed value of a 64-bit pattern. */
  lemma SignedOf(u: nat)
    requires u < WORD64
    ensures ToInt64(u) == if u < WORD63 then u else u - WORD64
  {
    if u < WORD63 {
      QuotientIs(u + WORD63, WORD64, 0, u + WORD63);
    } else {
      QuotientIs(u + WORD63, WORD64, 1, u - WORD63);
    }
  }

  lemma HalfClearedOf(u: nat)
    requires u < WORD64
    ensures HalfCleared(if u < WORD63 then u else u - WORD64) == u / 2
  {
    var half := u / 2;
    QuotientIs(half, WORD63, 0, half);
    if u < WORD63 {
      QuotientIs(half, WORD64, 0, half);
    } else {
      var x := u - WORD64;
      QuotientIs(x, 2, half - WORD63, u % 2);
      QuotientIs(half - WORD63, WORD64, -1, half + WORD63);
      QuotientIs(half + WORD63, WORD63, 1, half);
    }
  }

  /** A digit computed from two values truncated to 32 bits, with wrap-around, is exact. */
  lemma WrappedDigit(q: nat)
    ensures ToInt32(ToInt32(q) - ToInt32(ToInt32(q / 10) * 10)) == q % 10
  {
    var n, m := ToInt32(q), ToInt32(q / 10);
    var a, b := (q + WORD32 / 2) / WORD32, (q / 10 + WORD32 / 2) / WORD32;
    assert n == q - a * WORD32 && m == q / 10 - b * WORD32;
    var c := (m * 10 + WORD32 / 2) / WORD32;
    assert ToInt32(m * 10) == m * 10 - c * WORD32;
    var k := -a + 10 * b + c;
    assert n - ToInt32(m * 10) == q % 10 + k * WORD32;
    SmallAfterWraps(q % 10, k);
  }

  lemma SmallAfterWraps(d: nat, k: int)
    requires d < 10
    ensures ToInt32(d + k * WORD32) == d
  {
    QuotientIs(d + k * WORD32 + WORD32 / 2, WORD32, k, d + WORD32 / 2);
  }

  // ---------- digits ----------

  function DigitChar(d: nat): char
    requires d < 16
  {
    if d < 10 then '0' + d as char else 'a' + (d - 10) as char
  }

  /** Division by the base, named so that proofs need not unfold it. */
  function Quot(n: nat, base: nat): (q: nat)
    requires base >= 2
    ensures q <= n && (n >= base ==> 0 < q < n)
  {
    assert n == n / base * base + n % base;
    QuotientShrinks(n / base, base);
    n / base
  }

  function Rem(n: nat, base: nat): (r: nat)
    requires base >= 2
    ensures r < base
  {
    n % base
  }

  lemma QuotientShrinks(q: nat, base: nat)
    requires base >= 2
    ensures q * base >= 2 * q
  {
  }

  lemma QuotRem(n: nat, base: nat)
    requires base >= 2
    ensures n == Quot(n, base) * base + Rem(n, base)
  {
  }

  /** The canonical digits of n, most significant first. */
  function Digits(n: nat, base: nat): (s: string)
    requires 2 <= base <= 16
    ensures |s| > 0
    decreases n
  {
    if n < base then [DigitChar(n)] else Digits(Quot(n, base), base) + [DigitChar(Rem(n, base))]
  }

  function Power(b: nat, k: nat): nat {
    if k == 0 then 1 else b * Power(b, k - 1)
  }

  lemma {:induction false} DigitsFit(n: nat, base: nat, k: nat)
    requires 2 <= base <= 16 && k >= 1 && n < Power(base, k)
    ensures |Digits(n, base)| <= k
    decreases k
  {
    hide Quot, Rem, DigitChar, Power;
    PowerSteps(base, k);
    if n >= base {
      QuotRem(n, base);
      Below(Quot(n, base), base, Rem(n, base), Power(base, k - 1));
      DigitsFit(Quot(n, base), base, k - 1);
    }
  }

  lemma PowerSteps(b: nat, k: nat)
    requires k >= 1
    ensures k == 1 ==> Power(b, k) == b
    ensures Power(b, k) == Power(b, k - 1) * b
  {
  }

  lemma Below(q: nat, d: nat, r: nat, p: nat)
    requires q * d + r < p * d
    ensures q < p
  {
    assert q >= p ==> q * d >= p * d;
  }

  // ---------- printing ----------

  lemma SignedPattern(u: nat)
    requires u < WORD64
    ensures var val := ToInt64(u);
            -WORD63 <= val < WORD63 && u == if val < 0 then val + WORD64 else val
  {
  }

  lemma LowDigitParts(val: int)
    requires -WORD63 <= val < 0
    ensures var u, v := val + WORD64, HalfCleared(val);
            v % 5 * 2 + val % 2 == u % 10 && v / 5 == u / 10 && v % 5 * 2 + val % 2 < 10
  {
    hide HalfCleared;
    var u := val + WORD64;
    HalfClearedIsHalf(u);
    assert ToInt64(u) == val;
    assert val % 2 == u % 2;
    QuotientIs(u, 10, u / 2 / 5, u / 2 % 5 * 2 + u % 2);
  }

  /** _lowdigit: the low decimal digit of a negative (high bit set) 64-bit value, and the
      rest. */
  function LowDigit(val: int): (r: (char, int))
    requires -WORD63 <= val < 0
    ensures var u := val + WORD64; r.0 == DigitChar(u % 10) && r.1 == u / 10
  {
    var lowbit := val % 2;
    var value := HalfCleared(val);
    LowDigitParts(val);
    ('0' + (value % 5 * 2 + lowbit) as char, value / 5)
  }

  /** The `decimal:` part of myvsprintf: digits of qval into buf, downwards from bp0. */
  method DecimalDigits(val: nat, buf: array<char>, bp0: nat) returns (bp: nat)
    requires val < WORD63 && |Digits(val, 10)| <= bp0 <= buf.Length
    modifies buf
    ensures bp == bp0 - |Digits(val, 10)| && buf[bp..bp0] == Digits(val, 10)
    ensures forall i | 0 <= i < buf.Length && !(bp <= i < bp0) :: buf[i] == old(buf[i])
  {
    hide Digits, ToInt32;
    var qval := val;
    bp := bp0;
    while qval > 9
      invariant 0 <= qval && |Digits(qval, 10)| <= bp <= bp0
      invariant Digits(qval, 10) + buf[bp..bp0] == Digits(val, 10)
      invariant forall i | 0 <= i < buf.Length && !(bp <= i < bp0) :: buf[i] == old(buf[i])
    {
      WrappedDigit(qval);
      LastDigit(qval, 10);
      var n := ToInt32(qval);
      ghost var q0, tail := qval, buf[bp..bp0];
      qval := qval / 10;
      bp := bp - 1;
      buf[bp] := '0' + ToInt32(n - ToInt32(ToInt32(qval) * 10)) as char;
      assert buf[bp..bp0] == [DigitChar(q0 % 10)] + tail;
    }
    OneDigit(qval);
    ghost var tail := buf[bp..bp0];
    bp := bp - 1;
    buf[bp] := '0' + qval as char;
    assert buf[bp..bp0] == [DigitChar(qval)] + tail;
  }

  /** %lu of a 64-bit value: the text that myvsprintf leaves in its buffer. The buffer
      position MAXDIGS is enough for every value. */
  method FormatUnsigned(u: nat, buf: array<char>) returns (bp: nat)
    requires u < WORD64 && buf.Length == 4 * MAXDIGS
    modifies buf
    ensures 0 < bp < MAXDIGS && buf[bp..MAXDIGS] == Digits(u, 10)
  {
    hide Digits, DigitChar, ToInt64;
    TwentyDigits(u);
    var val := ToInt64(u);
    SignedPattern(u);
    bp := MAXDIGS;
    if val < 0 {
      var low := LowDigit(val);
      bp := bp - 1;
      buf[bp] := low.0;
      ghost var last := bp;
      TwentyDigits(u / 10);
      LastDigit(u, 10);
      bp := DecimalDigits(low.1, buf, bp);
      assert buf[bp..MAXDIGS] == buf[bp..last] + [buf[last]];
    } else {
      bp := DecimalDigits(val, buf, bp);
    }
  }

  function SignedText(v: int): string {
    if v < 0 then "-" + Digits(-v, 10) else Digits(v, 10)
  }

  /** %ld of a 64-bit value: the sign prefix, and the text in the buffer. The most negative
      value has no opposite; its last digit is taken off first. */
  method FormatSigned(v: int, buf: array<char>) returns (bp: nat, prefix: string)
    requires -WORD63 <= v < WORD63 && buf.Length == 4 * MAXDIGS
    modifies buf
    ensures 0 < bp < MAXDIGS && prefix + buf[bp..MAXDIGS] == SignedText(v)
  {
    hide Digits, DigitChar;
    var val := v;
    prefix, bp := "", MAXDIGS;
    TwentyDigits(if v < 0 then -v else v);
    if val < 0 {
      prefix := "-";
      if val != -WORD63 {
        val := -val;
      } else {
        var low := LowDigit(val);
        bp, val := bp - 1, low.1;
        buf[bp] := low.0;
        LastDigit(WORD63, 10);
        TwentyDigits(WORD63 / 10);
      }
    }
    ghost var last := bp;
    ghost var tail := buf[last..MAXDIGS];
    bp := DecimalDigits(val, buf, bp);
    assert buf[last..MAXDIGS] == tail;
    assert buf[bp..MAXDIGS] == buf[bp..last] + tail;
  }

  lemma OneDigit(d: nat)
    requires d < 10
    ensures Digits(d, 10) == [DigitChar(d)]
  {
  }

  lemma LastDigit(u: nat, base: nat)
    requires base <= u && 2 <= base <= 16
    ensures Digits(u, base) == Digits(u / base, base) + [DigitChar(u % base)]
  {
  }

  lemma TwentyDigits(u: nat)
    requires u < WORD64
    ensures |Digits(u, 10)| <= 20 && |Digits(u, 16)| <= 16
  {
    assert Power(10, 4) == 10000;
    assert Power(10, 8) == 100000000;
    assert Power(10, 12) == 1000000000000;
    assert Power(10, 16) == 10000000000000000;
    assert Power(10, 20) == 100000000000000000000;
    assert Power(16, 4) == 65536;
    assert Power(16, 8) == 4294967296;
    assert Power(16, 12) == 281474976710656;
    assert Power(16, 16) == 18446744073709551616;
    DigitsFit(u, 10, 20);
    DigitsFit(u, 16, 16);
  }

  /** %lx of a 64-bit value. For zero the buffer stays empty and one zero is padded in. */
  method FormatHex(u: nat, buf: array<char>) returns (bp: nat, lzero: nat)
    requires u < WORD64 && buf.Length == 4 * MAXDIGS
    modifies buf
    ensures 0 < bp <= MAXDIGS && (if u == 0 then lzero == 1 && bp == MAXDIGS
                                  else lzero == 0 && buf[bp..MAXDIGS] == Digits(u, 16))
  {
    hide Quot, DigitChar, ToInt64, HalfCleared;
    TwentyDigits(u);
    bp, lzero := MAXDIGS, 0;
    var qval := ToInt64(u);
    ZeroPattern(u);
    if qval == 0 {
      lzero := 1;
      return;
    }
    ghost var q := u;
    var first := true;
    while first || qval != 0
      invariant 0 <= q < WORD64 && qval == ToInt64(q) && (qval == 0 <==> q == 0)
      invariant 0 < bp <= MAXDIGS && (q > 0 ==> |Digits(q, 16)| < bp)
      invariant first ==> q == u && bp == MAXDIGS
      invariant !first && q == 0 ==> buf[bp..MAXDIGS] == Digits(u, 16)
      invariant q > 0 ==> Digits(q, 16) + buf[bp..MAXDIGS] == Digits(u, 16)
      decreases q, first
    {
      ghost var q0, tail := q, buf[bp..MAXDIGS];
      bp := bp - 1;
      HexStep(q);
      buf[bp] := DigitChar(qval % 16);
      qval := HalfCleared(qval) / 8;
      q := Quot(q, 16);
      ZeroPattern(q);
      first := false;
      assert buf[bp..MAXDIGS] == [DigitChar(Rem(q0, 16))] + tail;
    }
  }

  lemma ZeroPattern(u: nat)
    requires u < WORD64
    ensures ToInt64(u) == 0 <==> u == 0
  {
  }

  /** One turn of the loop: the low four bits, and the pattern shifted right by four. */
  lemma HexStep(u: nat)
    requires u < WORD64
    ensures ToInt64(u) % 16 == Rem(u, 16)
    ensures HalfCleared(ToInt64(u)) / 8 == ToInt64(Quot(u, 16))
    ensures u < 16 ==> Quot(u, 16) == 0 && Rem(u, 16) == u
  {
    hide HalfCleared, ToInt64;
    HalfClearedIsHalf(u);
    SignedOf(u);
    SignedOf(u / 16);
    SixteenthOf(u);
    SameLowDigit(u);
  }

  lemma SixteenthOf(u: nat)
    requires u < WORD64
    ensures u / 2 / 8 == u / 16 < WORD63 && (u < 16 ==> u / 16 == 0 && u % 16 == u)
  {
  }

  lemma SameLowDigit(u: nat)
    requires u < WORD64
    ensures (u - WORD64) % 16 == u % 16
  {
    QuotientIs(u - WORD64, 16, u / 16 - WORD64 / 16, u % 16);
  }

  // ---------- parsing ----------

  /** What myatoq does: stop the program, report that nothing was converted, or return a value,
      where it stopped, and whether errno says ERANGE. */
  datatype Parse<V> =
    | Panic
    | NoConversion
    | Converted(value: V, end: nat, erange: bool)

  /** A C string: reading at the end gives the terminator. */
  function At(s: string, i: nat): char {
    if i < |s| then s[i] else '\0'
  }

  predicate IsSpace(c: char) {
    c == ' ' || '\t' <= c <= '\r'
  }

  predicate IsDigit(c: char) {
    '0' <= c <= '9'
  }

  predicate IsAlpha(c: char) {
    'a' <= c <= 'z' || 'A' <= c <= 'Z'
  }

  function ToUpper(c: char): char {
    if 'a' <= c <= 'z' then c - 32 as char else c
  }

  /** The digit a character stands for; 36 when it stands for none. */
  function DigitValue(c: char): (d: nat)
    ensures d <= 36 && (c == '\0' ==> d == 36)
  {
    if IsDigit(c) then (c - '0') as nat
    else if IsAlpha(c) then (ToUpper(c) - 'A') as nat + 10
    else 36
  }

  function SkipSpace(s: string, i: nat): (j: nat)
    ensures i <= j && !IsSpace(At(s, j))
    ensures forall k | i <= k < j :: IsSpace(At(s, k))
    decreases |s| - i
  {
    if IsSpace(At(s, i)) then SkipSpace(s, i + 1) else i
  }

  /** The end of the longest run of digits of the base that starts at i. */
  function DigitRun(s: string, i: nat, base: nat): (j: nat)
    requires base <= 36
    ensures i <= j && DigitValue(At(s, j)) >= base
    ensures forall k | i <= k < j :: DigitValue(At(s, k)) < base
    decreases |s| - i
  {
    if DigitValue(At(s, i)) < base then DigitRun(s, i + 1, base) else i
  }

  /** One more digit. */
  function WithDigit(value: nat, base: nat, digit: nat): nat {
    value * base + digit
  }

  /** The number written at [i, j) of s. */
  function ValueOf(s: string, i: nat, j: nat, base: nat): nat
    requires i <= j
  {
    if i == j then 0 else WithDigit(ValueOf(s, i, j - 1, base), base, DigitValue(At(s, j - 1)))
  }

  predicate HexPrefix(s: string, i: nat) {
    At(s, i) == '0' && ToUpper(At(s, i + 1)) == 'X'
  }

  function RealBase(s: string, i: nat, base: int): int {
    if base != 0 then base else if HexPrefix(s, i) then 16 else 10
  }

  /** How a conversion starts: with a null string or a base out of range, with a blank string,
      or with the position behind the blanks and the base settled. */
  datatype Opening = Bad | Blank | Ready(pos: nat, base: nat)

  function Opened(s: string, base: int): (o: Opening)
    ensures o.Ready? ==> 2 <= o.base <= 36
  {
    var i := SkipSpace(s, 0);
    var b := RealBase(s, i, base);
    if At(s, 0) == '\0' then Bad
    else if At(s, i) == '\0' then Blank
    else if b <= 1 || b > 36 then Bad
    else Ready(i, b)
  }

  function SkipPrefix(s: string, i: nat, base: nat): nat {
    if base == 16 && HexPrefix(s, i) then i + 2 else i
  }

  /** The meaning of a string: the value of its digits if that fits 64 bits, the maximum with
      ERANGE otherwise. */
  function Parsed(s: string, base: int): Parse<nat> {
    match Opened(s, base)
    case Bad => Panic
    case Blank => NoConversion
    case Ready(i, b) =>
      var start := SkipPrefix(s, i, b);
      var end := DigitRun(s, start, b);
      var value := ValueOf(s, start, end, b);
      if end == start then NoConversion
      else if value <= ULL_MAX then Converted(value, end, false)
      else Converted(ULL_MAX, end, true)
  }

  /** The accumulator overflows at a digit exactly when the cut-off test says so. */
  lemma CutoffIsExact(i: nat, c: nat, base: nat, max: nat)
    requires 2 <= base <= 36 && c < base
    ensures i * base >= 0
    ensures i > max / base || (i == max / base && c > max % base) <==> i * base + c > max
  {
    CutoffStep(i, c, base, max / base, max % base);
  }

  lemma CutoffStep(i: nat, c: nat, base: nat, q: nat, r: nat)
    requires c < base && r < base
    ensures i * base >= 0
    ensures i > q || (i == q && c > r) <==> i * base + c > q * base + r
  {
    if i > q {
      assert i * base >= (q + 1) * base;
    } else if i < q {
      assert (i + 1) * base <= q * base;
    }
  }

  /** Once too large, always too large. */
  lemma ValueGrows(s: string, i: nat, j: nat, base: nat)
    requires i <= j && base >= 2
    ensures ValueOf(s, i, j, base) <= ValueOf(s, i, j, base) * base
  {
    hide DigitValue;
    GrowsBy(ValueOf(s, i, j, base), base);
  }

  lemma GrowsBy(v: nat, base: nat)
    requires base >= 2
    ensures v <= v * base
  {
  }

  method SkipBlanks(nptr: string) returns (s: nat)
    ensures s == SkipSpace(nptr, 0)
  {
    s := 0;
    while IsSpace(At(nptr, s))
      invariant SkipSpace(nptr, s) == SkipSpace(nptr, 0)
      decreases |nptr| - s
    {
      s := s + 1;
    }
  }

  /** The checks that myatoq and myatosq begin with. */
  method Open(nptr: string, base: int) returns (o: Opening)
    ensures o == Opened(nptr, base)
  {
    hide HexPrefix, SkipSpace, IsSpace, At;
    if At(nptr, 0) == '\0' {
      return Bad;
    }
    var s := SkipBlanks(nptr);
    if At(nptr, s) == '\0' {
      return Blank;
    }
    var b := base;
    if b == 0 {
      b := if HexPrefix(nptr, s) then 16 else 10;
    }
    if b <= 1 || b > 36 {
      return Bad;
    }
    o := Ready(s, b);
  }

  /** The digit loop of myatoq and myatosq, with its sticky overflow flag. */
  method Accumulate(nptr: string, start: nat, base: nat, max: nat) returns (s: nat, i: nat, overflow: bool)
    requires 2 <= base <= 36
    ensures s == DigitRun(nptr, start, base)
    ensures overflow <==> ValueOf(nptr, start, s, base) > max
    ensures !overflow ==> i == ValueOf(nptr, start, s, base)
  {
    hide DigitValue;
    var cutoff, cutlim := max / base, max % base;
    s, overflow, i := start, false, 0;
    while At(nptr, s) != '\0'
      invariant start <= s && DigitRun(nptr, s, base) == DigitRun(nptr, start, base)
      invariant overflow <==> ValueOf(nptr, start, s, base) > max
      invariant !overflow ==> i == ValueOf(nptr, start, s, base)
      decreases |nptr| - s
    {
      var c := DigitValue(At(nptr, s));
      if c >= base {
        break;
      }
      CutoffIsExact(i, c, base, max);
      ValueGrows(nptr, start, s, base);
      if i > cutoff || (i == cutoff && c > cutlim) {
        overflow := true;
      } else {
        i := i * base + c;
      }
      s := s + 1;
    }
  }

  method Atoq(nptr: string, base: int) returns (r: Parse<nat>)
    ensures r == Parsed(nptr, base)
  {
    hide HexPrefix, DigitValue, ValueOf, DigitRun, Opened, At;
    var o := Open(nptr, base);
    if o.Bad? {
      return Panic;
    } else if o.Blank? {
      return NoConversion;
    }
    var s, b := o.pos, o.base;
    if b == 16 && HexPrefix(nptr, s) {
      s := s + 2;
    }
    var end, i, overflow := Accumulate(nptr, s, b, ULL_MAX);
    if end == s {
      return NoConversion;
    }
    r := Converted(if overflow then ULL_MAX else i, end, overflow);
  }

  function Signed(negative: bool, magnitude: int): int {
    if negative then -magnitude else magnitude
  }

  /** A sign is skipped, after the base has been settled. */
  function SkipSign(s: string, i: nat): nat {
    if At(s, i) == '-' || At(s, i) == '+' then i + 1 else i
  }

  /** The meaning of a signed string: the magnitude must fit 63 bits, with either sign. */
  function ParsedSigned(s: string, base: int): Parse<int> {
    match Opened(s, base)
    case Bad => Panic
    case Blank => NoConversion
    case Ready(i, b) =>
      var start := SkipPrefix(s, SkipSign(s, i), b);
      var end := DigitRun(s, start, b);
      var value := ValueOf(s, start, end, b);
      var negative := At(s, i) == '-';
      if end == start then NoConversion
      else if value <= LL_MAX then Converted(Signed(negative, value), end, false)
      else Converted(if negative then -WORD63 else LL_MAX, end, true)
  }

  method Atosq(nptr: string, base: int) returns (r: Parse<int>)
    ensures r == ParsedSigned(nptr, base)
  {
    hide HexPrefix, DigitValue, ValueOf, DigitRun, Opened, At;
    var o := Open(nptr, base);
    if o.Bad? {
      return Panic;
    } else if o.Blank? {
      return NoConversion;
    }
    var s, b := o.pos, o.base;
    var negative := false;
    if At(nptr, s) == '-' {
      negative := true;
      s := s + 1;
    } else if At(nptr, s) == '+' {
      s := s + 1;
    }
    if b == 16 && HexPrefix(nptr, s) {
      s := s + 2;
    }
    var end, i, overflow := Accumulate(nptr, s, b, LL_MAX);
    if end == s {
      return NoConversion;
    }
    if overflow {
      r := Converted(if negative then -WORD63 else LL_MAX, end, true);
    } else {
      r := Converted(Signed(negative, i), end, false);
    }
  }

  // ---------- parsing, character by character ----------

  /** The sixteen digits that are printed. */
  lemma DigitCharIs(d: nat)
    requires d < 16
    ensures DigitChar(d) == "0123456789abcdef"[d]
  {
  }

  /** What is printed has no leading zero. */
  lemma {:induction false} NoLeadingZero(n: nat, base: nat)
    requires 2 <= base <= 16
    ensures Digits(n, base)[0] == '0' <==> n == 0
    decreases n
  {
    hide Rem;
    if n >= base {
      NoLeadingZero(Quot(n, base), base);
    }
  }

  /** The digit a character stands for: letters of either case go on from ten. */
  predicate IsDigitFor(c: char, d: nat) {
    || ('0' <= c <= '9' && d == (c - '0') as nat)
    || ('a' <= c <= 'z' && d == (c - 'a') as nat + 10)
    || ('A' <= c <= 'Z' && d == (c - 'A') as nat + 10)
  }

  /** From i to j there are digits of the base, and v is the number they make. */
  predicate Spells(s: string, i: nat, j: nat, base: nat, v: nat)
    requires i <= j <= |s| && base >= 2
    decreases j - i
  {
    if i == j then v == 0 else IsDigitFor(s[j - 1], Rem(v, base)) && Spells(s, i, j - 1, base, Quot(v, base))
  }

  ghost predicate RunEnds(s: string, j: nat, base: nat) {
    j >= |s| || forall d: nat | IsDigitFor(s[j], d) :: d >= base
  }

  predicate White(c: char) {
    c == ' ' || 9 <= c as int <= 13
  }

  /** White space up to i, and something else there. */
  predicate Spaces(s: string, i: nat) {
    i < |s| && (forall k | 0 <= k < i :: White(s[k])) && !White(s[i]) && s[i] != '\0'
  }

  predicate HexAt(s: string, i: nat) {
    i + 1 < |s| && s[i] == '0' && s[i + 1] in "xX"
  }

  lemma DigitValueIs(c: char, base: nat)
    requires base <= 36
    ensures DigitValue(c) < base ==> IsDigitFor(c, DigitValue(c))
    ensures forall d: nat | IsDigitFor(c, d) :: d == DigitValue(c)
  {
  }

  lemma {:induction false} SpacesEnd(s: string, p: nat, i: nat)
    requires Spaces(s, i) && p <= i
    ensures SkipSpace(s, p) == i
    decreases i - p
  {
    if p < i {
      assert White(s[p]);
      SpacesEnd(s, p + 1, i);
    }
  }

  lemma {:induction false} SpellsIs(s: string, i: nat, j: nat, base: nat, v: nat)
    requires i <= j <= |s| && 2 <= base <= 36 && Spells(s, i, j, base, v)
    ensures ValueOf(s, i, j, base) == v && forall k | i <= k < j :: DigitValue(At(s, k)) < base
    decreases j - i
  {
    hide DigitValue, IsDigitFor, Quot, Rem;
    if i < j {
      DigitValueIs(s[j - 1], base);
      SpellsIs(s, i, j - 1, base, Quot(v, base));
      QuotRem(v, base);
    }
  }

  /** A run of digits that ends at e has the value it spells. */
  lemma RunIs(s: string, start: nat, e: nat, base: nat, v: nat)
    requires start <= e <= |s| && 2 <= base <= 36 && Spells(s, start, e, base, v) && RunEnds(s, e, base)
    ensures DigitRun(s, start, base) == e && ValueOf(s, start, e, base) == v
  {
    hide IsDigitFor, Spells;
    SpellsIs(s, start, e, base, v);
    if e < |s| {
      DigitValueIs(s[e], base);
    }
    DigitRunEnds(s, start, e, base);
  }

  lemma PartsAre(w: nat, base: nat, d: nat)
    requires base >= 2 && d < base
    ensures Quot(WithDigit(w, base, d), base) == w && Rem(WithDigit(w, base, d), base) == d
  {
    QuotientIs(w * base + d, base, w, d);
  }

  /** Every run spells something. */
  lemma {:induction false} RunSpells(s: string, i: nat, j: nat, base: nat)
    requires i <= j <= |s| && 2 <= base <= 36 && forall k | i <= k < j :: DigitValue(At(s, k)) < base
    ensures Spells(s, i, j, base, ValueOf(s, i, j, base))
    decreases j - i
  {
    hide DigitValue, IsDigitFor, Quot, Rem, WithDigit;
    if i < j {
      assert At(s, j - 1) == s[j - 1];
      DigitValueIs(s[j - 1], base);
      RunSpells(s, i, j - 1, base);
      PartsAre(ValueOf(s, i, j - 1, base), base, DigitValue(s[j - 1]));
    }
  }

  /** Behind white space, a string means the number that its digits spell: hexadecimal digits
      behind 0x if the base is 16, or open; there are no octal numbers. The end is behind the last
      digit, and a number of more than 64 bits is cut to the largest one. */
  lemma ParsedIs(s: string, base: int, i: nat, e: nat, v: nat)
    requires Spaces(s, i) && i <= e <= |s| && (base == 0 || 2 <= base <= 36)
    requires var b := if base == 0 then (if HexAt(s, i) then 16 else 10) else base;
             var start := if b == 16 && HexAt(s, i) then i + 2 else i;
             start <= e && Spells(s, start, e, b, v) && RunEnds(s, e, b)
    ensures var start := if (base == 0 || base == 16) && HexAt(s, i) then i + 2 else i;
            Parsed(s, base) == if e == start then NoConversion
                               else if v < 0x1_0000_0000_0000_0000 then Converted(v, e, false)
                               else Converted(0xFFFF_FFFF_FFFF_FFFF, e, true)
  {
    hide Spells, RunEnds, DigitRun, ValueOf, Spaces;
    SpacesAre(s, i);
    var b := if base == 0 then (if HexAt(s, i) then 16 else 10) else base;
    RunIs(s, if b == 16 && HexAt(s, i) then i + 2 else i, e, b, v);
  }

  lemma SpacesAre(s: string, i: nat)
    requires Spaces(s, i)
    ensures i < |s| && SkipSpace(s, 0) == i && At(s, 0) != '\0' && At(s, i) != '\0'
    ensures HexPrefix(s, i) <==> HexAt(s, i)
  {
    SpacesEnd(s, 0, i);
    if i > 0 {
      assert White(s[0]);
    }
  }

  lemma SignIs(s: string, i: nat)
    requires i < |s|
    ensures (At(s, i) == '-' <==> s[i] == '-') && SkipSign(s, i) == if s[i] in "+-" then i + 1 else i
    ensures HexPrefix(s, SkipSign(s, i)) <==> HexAt(s, SkipSign(s, i))
  {
  }

  /** A signed string has one sign at most in front of its digits, and of 0x; an open base is
      decided by what comes first, so that a sign makes it decimal. A number of more than 63 bits
      is cut to the largest or smallest one. */
  lemma ParsedSignedIs(s: string, base: int, i: nat, e: nat, v: nat)
    requires Spaces(s, i) && i <= e <= |s| && (base == 0 || 2 <= base <= 36)
    requires var b := if base == 0 then (if HexAt(s, i) then 16 else 10) else base;
             var k := if s[i] in "+-" then i + 1 else i;
             var start := if b == 16 && HexAt(s, k) then k + 2 else k;
             start <= e && Spells(s, start, e, b, v) && RunEnds(s, e, b)
    ensures var k := if s[i] in "+-" then i + 1 else i;
            var hex := base == 16 || (base == 0 && HexAt(s, i));
            var start := if hex && HexAt(s, k) then k + 2 else k;
            ParsedSigned(s, base) ==
            if e == start then NoConversion
            else if v < 0x8000_0000_0000_0000 then Converted(if s[i] == '-' then 0 - v else v, e, false)
            else Converted(if s[i] == '-' then -0x8000_0000_0000_0000 else 0x7FFF_FFFF_FFFF_FFFF, e, true)
  {
    hide Spells, RunEnds, DigitRun, ValueOf, Spaces, HexAt, HexPrefix, At, SkipSpace, DigitValue;
    SpacesAre(s, i);
    SignIs(s, i);
    var b := if base == 0 then (if HexAt(s, i) then 16 else 10) else base;
    var k := if s[i] in "+-" then i + 1 else i;
    RunIs(s, if b == 16 && HexAt(s, k) then k + 2 else k, e, b, v);
  }

  /** So a hexadecimal number with a sign is not read when the base is open. */
  lemma SignMakesDecimal()
    ensures ParsedSigned("0x10", 0) == Converted(16, 4, false)
    ensures ParsedSigned("-0x10", 0) == Converted(0, 2, false)
  {
    hide ParsedSigned;
    assert Spells("0x10", 2, 4, 16, 16);
    ParsedSignedIs("0x10", 0, 0, 4, 16);
    assert Spells("-0x10", 1, 2, 10, 0);
    ParsedSignedIs("-0x10", 0, 0, 2, 0);
  }

  /** An empty string, or a base out of range, stops the program; a blank one converts nothing. */
  lemma NotParsed(s: string, base: int)
    ensures s == "" || s[0] == '\0' ==> Parsed(s, base) == Panic && ParsedSigned(s, base) == Panic
    ensures s != "" && s[0] != '\0' && (forall k | 0 <= k < |s| :: White(s[k])) ==>
              Parsed(s, base) == NoConversion && ParsedSigned(s, base) == NoConversion
    ensures (exists i :: Spaces(s, i)) && base != 0 && !(2 <= base <= 36) ==>
              Parsed(s, base) == Panic && ParsedSigned(s, base) == Panic
  {
    hide Spaces;
    if s != "" && s[0] != '\0' && forall k | 0 <= k < |s| :: White(s[k]) {
      AllBlank(s);
    }
    if i :| Spaces(s, i) && base != 0 && !(2 <= base <= 36) {
      SpacesAre(s, i);
    }
  }

  lemma AllBlank(s: string)
    requires forall k | 0 <= k < |s| :: White(s[k])
    ensures At(s, SkipSpace(s, 0)) == '\0'
  {
    assert forall k | 0 <= k < |s| :: IsSpace(At(s, k));
  }

  // ---------- printing and parsing undo each other ----------

  lemma {:induction false} DigitsAreDigits(n: nat, base: nat, i: nat)
    requires 2 <= base <= 16 && i < |Digits(n, base)|
    ensures IsDigitChar(Digits(n, base)[i], base)
    decreases n
  {
    hide Quot, Rem, DigitChar, IsDigitChar;
    if n < base {
      DigitCharIsDigit(n, base);
    } else {
      DigitCharIsDigit(Rem(n, base), base);
      if i < |Digits(Quot(n, base), base)| {
        DigitsAreDigits(Quot(n, base), base, i);
      }
    }
  }

  predicate IsDigitChar(c: char, base: nat) {
    DigitValue(c) < base && c != '\0' && !IsSpace(c) && ToUpper(c) != 'X'
  }

  lemma DigitCharIsDigit(d: nat, base: nat)
    requires d < base <= 16
    ensures IsDigitChar(DigitChar(d), base) && DigitValue(DigitChar(d)) == d
  {
  }

  lemma PrefixOfSlice(s: string, i: nat, e: nat, m: nat)
    requires i <= e <= |s| && m <= e - i
    ensures s[i..e][..m] == s[i..i + m]
  {
  }

  lemma {:induction false} DigitsMean(s: string, i: nat, n: nat, base: nat)
    requires 2 <= base <= 16 && i + |Digits(n, base)| <= |s|
    requires s[i..i + |Digits(n, base)|] == Digits(n, base)
    ensures ValueOf(s, i, i + |Digits(n, base)|, base) == n
    decreases n
  {
    hide Quot, Rem, DigitChar, IsDigitChar, DigitValue;
    var d := Digits(n, base);
    var e := i + |d|;
    assert s[e - 1] == s[i..e][|d| - 1];
    if n < base {
      DigitCharIsDigit(n, base);
      assert ValueOf(s, i, i, base) == 0;
    } else {
      var h := Digits(Quot(n, base), base);
      assert d == h + [DigitChar(Rem(n, base))];
      assert d[..|h|] == h;
      PrefixOfSlice(s, i, e, |h|);
      DigitsMean(s, i, Quot(n, base), base);
      DigitCharIsDigit(Rem(n, base), base);
      QuotRem(n, base);
    }
  }

  lemma DigitRunEnds(s: string, i: nat, j: nat, base: nat)
    requires base <= 36 && i <= j && DigitValue(At(s, j)) >= base
    requires forall k | i <= k < j :: DigitValue(At(s, k)) < base
    ensures DigitRun(s, i, base) == j
    decreases j - i
  {
    hide DigitValue, At;
    if i < j {
      DigitRunEnds(s, i + 1, j, base);
    }
  }

  /** What %lu and %lx print reads back as the same value, in its own base or with the base
      left open (after 0x for hexadecimal), stopping at the first character behind it. */
  lemma RoundTrip(u: nat, tail: string)
    requires u < WORD64
    ensures DigitValue(At(tail, 0)) >= 10 && (u == 0 ==> ToUpper(At(tail, 0)) != 'X') ==>
              var s := Digits(u, 10) + tail;
              Parsed(s, 10) == Parsed(s, 0) == Converted(u, |Digits(u, 10)|, false)
    ensures DigitValue(At(tail, 0)) >= 16 && (u == 0 ==> ToUpper(At(tail, 0)) != 'X') ==>
              Parsed(Digits(u, 16) + tail, 16) == Converted(u, |Digits(u, 16)|, false)
    ensures DigitValue(At(tail, 0)) >= 16 ==>
              var s := "0x" + Digits(u, 16) + tail;
              Parsed(s, 16) == Parsed(s, 0) == Converted(u, 2 + |Digits(u, 16)|, false)
  {
    if DigitValue(At(tail, 0)) >= 10 && (u == 0 ==> ToUpper(At(tail, 0)) != 'X') {
      PlainRoundTrip(u, 10, tail);
    }
    if DigitValue(At(tail, 0)) >= 16 {
      if u == 0 ==> ToUpper(At(tail, 0)) != 'X' {
        PlainRoundTrip(u, 16, tail);
      }
      PrefixedRoundTrip(u, tail);
    }
  }

  lemma NoHexPrefix(u: nat, base: nat, tail: string)
    requires 2 <= base <= 16 && (u == 0 ==> ToUpper(At(tail, 0)) != 'X')
    ensures var s := Digits(u, base) + tail;
            At(s, 0) != '\0' && SkipSpace(s, 0) == 0 && !HexPrefix(s, 0)
  {
    var d := Digits(u, base);
    var s := d + tail;
    hide Quot, Rem;
    DigitsAreDigits(u, base, 0);
    assert At(s, 0) == d[0];
    if |d| > 1 {
      DigitsAreDigits(u, base, 1);
      assert At(s, 1) == d[1];
    } else {
      assert At(s, 1) == At(tail, 0);
    }
  }

  lemma PlainRoundTrip(u: nat, base: nat, tail: string)
    requires u < WORD64 && (base == 10 || base == 16) && DigitValue(At(tail, 0)) >= base
    requires u == 0 ==> ToUpper(At(tail, 0)) != 'X'
    ensures Parsed(Digits(u, base) + tail, base) == Converted(u, |Digits(u, base)|, false)
    ensures base == 10 ==> Parsed(Digits(u, base) + tail, 0) == Converted(u, |Digits(u, base)|, false)
  {
    hide Digits, DigitValue, ValueOf, HexPrefix;
    assert "" + Digits(u, base) + tail == Digits(u, base) + tail;
    RoundTripAt("", u, base, tail);
    NoHexPrefix(u, base, tail);
  }

  lemma PrefixedRoundTrip(u: nat, tail: string)
    requires u < WORD64 && DigitValue(At(tail, 0)) >= 16
    ensures var s := "0x" + Digits(u, 16) + tail;
            Parsed(s, 16) == Parsed(s, 0) == Converted(u, 2 + |Digits(u, 16)|, false)
  {
    hide Digits, DigitValue, ValueOf;
    var s := "0x" + Digits(u, 16) + tail;
    RoundTripAt("0x", u, 16, tail);
    assert At(s, 0) == '0' && At(s, 1) == 'x';
  }

  lemma RoundTripAt(head: string, u: nat, base: nat, tail: string)
    requires 2 <= base <= 16
    requires DigitValue(At(tail, 0)) >= base
    ensures var s := head + Digits(u, base) + tail;
            var e := |head| + |Digits(u, base)|;
            DigitRun(s, |head|, base) == e && ValueOf(s, |head|, e, base) == u
  {
    hide Digits, DigitValue, ValueOf;
    var d := Digits(u, base);
    var s := head + d + tail;
    var e := |head| + |d|;
    assert At(s, e) == At(tail, 0);
    forall k | |head| <= k < e ensures DigitValue(At(s, k)) < base {
      DigitsAreDigits(u, base, k - |head|);
      assert At(s, k) == d[k - |head|];
      assert IsDigitChar(d[k - |head|], base);
    }
    DigitRunEnds(s, |head|, e, base);
    assert s[|head|..e] == d;
    DigitsMean(s, |head|, u, base);
  }

  /** What %ld prints reads back as the same value; but errno says ERANGE exactly for the most
      negative value, although it was representable. */
  lemma SignedRoundTrip(v: int, tail: string)
    requires -WORD63 <= v < WORD63 && DigitValue(At(tail, 0)) >= 10
    ensures ParsedSigned(SignedText(v) + tail, 10) == Converted(v, |SignedText(v)|, v == -WORD63)
    ensures (v == 0 ==> ToUpper(At(tail, 0)) != 'X') ==>
              ParsedSigned(SignedText(v) + tail, 0) == Converted(v, |SignedText(v)|, v == -WORD63)
  {
    hide Digits, DigitValue, ValueOf, HexPrefix;
    var s, u := SignedText(v) + tail, if v < 0 then -v else v;
    if v < 0 {
      assert s == "-" + Digits(u, 10) + tail;
      RoundTripAt("-", u, 10, tail);
      SignFirst(s);
    } else {
      assert s == "" + Digits(u, 10) + tail;
      RoundTripAt("", u, 10, tail);
      DigitFirst(u, tail);
      if v == 0 ==> ToUpper(At(tail, 0)) != 'X' {
        NoHexPrefix(u, 10, tail);
      }
    }
  }

  lemma SignFirst(s: string)
    requires At(s, 0) == '-'
    ensures SkipSpace(s, 0) == 0 && !HexPrefix(s, 0) && SkipSign(s, 0) == 1
  {
  }

  lemma DigitFirst(u: nat, tail: string)
    ensures var s := Digits(u, 10) + tail;
            At(s, 0) != '\0' && SkipSpace(s, 0) == 0 && SkipSign(s, 0) == 0 && At(s, 0) != '-'
  {
    hide Digits;
    DigitsAreDigits(u, 10, 0);
    assert At(Digits(u, 10) + tail, 0) == Digits(u, 10)[0];
  }
}
