/** The text of terms, character by character: what the printer puts where, what the lexer makes of
    any text, and which texts are lists, arrays and blobs. */
module ExoLaws {
  import opened Bits
  import opened Exo
  import opened Numbers
  import opened Wrappers

  // ---------- the layout of printed terms ----------

  /** Texts with a comma and a space in between. */
  function Joined(parts: seq<string>): string {
    if |parts| == 0 then ""
    else if |parts| == 1 then parts[0]
    else Joined(parts[..|parts| - 1]) + ", " + parts[|parts| - 1]
  }

  /** Numbers are decimal, addresses hexadecimal behind 0x, and tokens are themselves. */
  lemma AtomTextIs(stray: bool, v: nat, name: string)
    ensures Print(stray, Integer(v)) == Digits(v, 10)
    ensures Print(stray, Address(v)) == "0x" + Digits(v, 16)
    ensures Print(stray, Token(name)) == name
  {
  }

  /** A list is its elements, joined, in parentheses. */
  lemma ListTextIs(stray: bool, elts: seq<Term>, parts: seq<string>)
    requires |parts| == |elts| && forall i | 0 <= i < |elts| :: parts[i] == Print(stray, elts[i])
    ensures Print(stray, List(elts)) == "(" + Joined(parts) + ")"
  {
    hide Print, ItemsText, Joined;
    ItemsAreJoined(stray, List(elts), parts, |elts|);
    assert parts[..|elts|] == parts;
    ListIs(stray, List(elts));
  }

  lemma {:induction false} ItemsAreJoined(stray: bool, t: Term, parts: seq<string>, n: nat)
    requires t.List? && n <= |t.elts| == |parts| && forall i | 0 <= i < |parts| :: parts[i] == Print(stray, t.elts[i])
    ensures ItemsText(stray, t, n) == Joined(parts[..n])
    decreases n
  {
    hide Print;
    if n > 0 {
      ItemsAreJoined(stray, t, parts, n - 1);
      assert parts[..n][..n - 1] == parts[..n - 1];
    }
  }

  /** An array is its size in braces and, in brackets, its slots up to the last that is not empty;
      an empty one is a space. */
  lemma ArrayTextIs(stray: bool, slots: seq<Slot>, parts: seq<string>)
    requires |parts| <= |slots| && (parts != [] ==> slots[|parts| - 1].Full?)
    requires forall i | |parts| <= i < |slots| :: slots[i].Hole?
    requires forall i | 0 <= i < |parts| :: parts[i] == if slots[i].Hole? then " " else Print(stray, slots[i].term)
    ensures Print(stray, Array(slots)) == "{" + Digits(|slots|, 10) + "}[" + Joined(parts) + "]"
  {
    hide Print, SlotsText, Joined, Digits;
    UsedIs(slots, |parts|);
    SlotsAreJoined(stray, Array(slots), parts, |parts|);
    assert parts[..|parts|] == parts;
    ArrayIs(stray, Array(slots));
  }

  lemma UsedIs(slots: seq<Slot>, n: nat)
    requires n <= |slots| && (n > 0 ==> slots[n - 1].Full?) && forall i | n <= i < |slots| :: slots[i].Hole?
    ensures Used(slots) == n
  {
  }

  lemma {:induction false} SlotsAreJoined(stray: bool, t: Term, parts: seq<string>, n: nat)
    requires t.Array? && n <= |parts| <= |t.slots|
    requires forall i | 0 <= i < |parts| :: parts[i] == if t.slots[i].Hole? then " " else Print(stray, t.slots[i].term)
    ensures SlotsText(stray, t, n) == Joined(parts[..n])
    decreases n
  {
    hide Print;
    if n > 0 {
      SlotsAreJoined(stray, t, parts, n - 1);
      assert parts[..n][..n - 1] == parts[..n - 1];
      assert SlotText(stray, t, n - 1) == parts[n - 1];
    }
  }

  /** The bytes of a blob are two digits each, 38 to a line. */
  lemma {:induction false} BytesAre(data: seq<byte>, n: nat, i: nat)
    requires i < n <= |data|
    ensures var h, p := HexText(data, n), 2 * i + i / 38;
            && |h| == 2 * n + (n - 1) / 38
            && h[p] == "0123456789abcdef"[data[i] / 16] && h[p + 1] == "0123456789abcdef"[data[i] % 16]
            && (i > 0 && i % 38 == 0 ==> h[p - 1] == '\n')
    decreases n
  {
    hide DigitChar, HexText;
    HexTextNext(data, n - 1);
    LengthIs(data, n - 1);
    DigitCharIs(data[n - 1] / 16);
    DigitCharIs(data[n - 1] % 16);
    if i < n - 1 {
      BytesAre(data, n - 1, i);
    }
  }

  lemma {:induction false} LengthIs(data: seq<byte>, n: nat)
    requires n <= |data|
    ensures |HexText(data, n)| == if n == 0 then 0 else 2 * n + (n - 1) / 38
    decreases n
  {
    hide DigitChar;
    if n > 0 {
      LengthIs(data, n - 1);
    }
  }

  /** In front of them are the size and the opening delimiter on a line of its own, and behind them
      the closing one; it is on a new line unless the last byte began one. */
  lemma BlobTextIs(stray: bool, data: seq<byte>)
    ensures var n := |data|;
            var same := if n == 0 then stray else n > 1 && (n - 1) % 38 == 0;
            Print(stray, Blob(data)) ==
            "{" + Digits(n, 10) + "}<\n" + HexText(data, n) + (if same then ">" else "\n>")
  {
    hide HexText, Digits;
  }

  // ---------- tokens by their characters ----------

  predicate White(c: char) {
    c == ' ' || 9 <= c as int <= 12
  }

  /** Only white space from pos to p, and something else, or the end, there. */
  predicate Skips(text: string, pos: nat, p: nat) {
    pos <= p <= |text| && (forall k | pos <= k < p :: White(text[k])) && (p < |text| ==> !White(text[p]))
  }

  predicate Letter(c: char) {
    'a' <= c <= 'z' || 'A' <= c <= 'Z' || c == '_'
  }

  predicate Decimal(c: char) {
    '0' <= c <= '9'
  }

  predicate Hexadecimal(c: char) {
    Decimal(c) || 'a' <= c <= 'f' || 'A' <= c <= 'F'
  }

  /** The longest run, from p, of such characters ends at e. */
  predicate RunsTo(text: string, p: nat, e: nat, f: char -> bool) {
    p <= e <= |text| && (forall k | p <= k < e :: f(text[k])) && (e < |text| ==> !f(text[e]))
  }

  /** What makes a number of the digits in front of e a floating point one. */
  predicate Floats(text: string, e: nat) {
    || (e < |text| && text[e] == '.')
    || (e + 1 < |text| && text[e] in "eE" && Decimal(text[e + 1]))
    || (e + 2 < |text| && text[e] in "eE" && text[e + 1] in "+-" && Decimal(text[e + 2]))
  }

  lemma {:induction false} WhiteIsSkipped(text: string, pos: nat, p: nat)
    requires Skips(text, pos, p)
    ensures Exo.SkipBlanks(text, pos) == p
    decreases p - pos
  {
    if pos < p {
      WhiteIsSkipped(text, pos + 1, p);
    }
  }

  lemma RunIsTo(text: string, p: nat, e: nat)
    ensures RunsTo(text, p, e, Decimal) ==> DigitRun(text, p, 10) == e
    ensures RunsTo(text, p, e, Hexadecimal) ==> DigitRun(text, p, 16) == e
    ensures RunsTo(text, p, e, c => Letter(c) || Decimal(c)) ==> NameRun(text, p) == e
  {
    if RunsTo(text, p, e, Decimal) {
      DigitRunEnds(text, p, e, 10);
    }
    if RunsTo(text, p, e, Hexadecimal) {
      DigitRunEnds(text, p, e, 16);
    }
    if RunsTo(text, p, e, c => Letter(c) || Decimal(c)) {
      NameRunIs(text, p, e);
    }
  }

  lemma {:induction false} NameRunIs(text: string, p: nat, e: nat)
    requires RunsTo(text, p, e, c => Letter(c) || Decimal(c))
    ensures NameRun(text, p) == e
    decreases e - p
  {
    if p < e {
      NameRunIs(text, p + 1, e);
    }
  }

  /** In a blob: two hexadecimal digits are a byte, and > ends it; anything else is an error. */
  lemma BlobTokenIs(text: string, pos: nat, p: nat)
    requires Skips(text, pos, p)
    ensures var l, two := Lex(text, State(pos, true)),
                          p + 1 < |text| && Hexadecimal(text[p]) && Hexadecimal(text[p + 1]);
            l == if p == |text| then Lexeme(Eof, p, State(p, true))
                 else if two then Lexeme(ByteLit, p, State(p + 2, true))
                 else if text[p] == '>' then Lexeme(Punct('>'), p, State(p + 1, false))
                 else Lexeme(Bogus, p, State(p + 1, true))
  {
    WhiteIsSkipped(text, pos, p);
  }

  /** 0x and a hexadecimal digit. */
  predicate StartsAddress(text: string, p: nat) {
    p + 2 < |text| && text[p] == '0' && text[p + 1] in "xX" && Hexadecimal(text[p + 2])
  }

  /** Elsewhere: an address is as long as it can be. */
  lemma AddressTokenIs(text: string, pos: nat, p: nat, e: nat)
    requires Skips(text, pos, p) && StartsAddress(text, p) && RunsTo(text, p + 2, e, Hexadecimal)
    ensures Lex(text, State(pos, false)) == Lexeme(AddrLit, p, State(e, false))
  {
    hide DigitRun, RunsTo;
    WhiteIsSkipped(text, pos, p);
    RunIsTo(text, p + 2, e);
  }

  /** So is a number, which what is behind it may make a floating point one. */
  lemma NumberTokenIs(text: string, pos: nat, p: nat, e: nat)
    requires Skips(text, pos, p) && !StartsAddress(text, p)
    requires p < |text| && Decimal(text[p]) && RunsTo(text, p, e, Decimal)
    ensures Lex(text, State(pos, false)) == Lexeme(if Floats(text, e) then Other else IntLit, p, State(e, false))
  {
    hide DigitRun, RunsTo;
    WhiteIsSkipped(text, pos, p);
    RunIsTo(text, p, e);
    FloatsIs(text, e);
    assert IsHex(At(text, p + 2)) ==> p + 2 < |text| && Hexadecimal(text[p + 2]);
  }

  lemma FloatsIs(text: string, e: nat)
    ensures FloatHere(text, e) <==> Floats(text, e)
  {
  }

  /** And a name. */
  lemma NameTokenIs(text: string, pos: nat, p: nat, e: nat)
    requires Skips(text, pos, p) && p < |text| && Letter(text[p])
    requires RunsTo(text, p, e, c => Letter(c) || Decimal(c))
    ensures Lex(text, State(pos, false)) == Lexeme(Name, p, State(e, false))
  {
    hide NameRun, RunsTo;
    WhiteIsSkipped(text, pos, p);
    RunIsTo(text, p, e);
  }

  /** The delimiters are one character; only < begins a blob. */
  lemma DelimiterIs(text: string, pos: nat, p: nat)
    requires Skips(text, pos, p)
    ensures p == |text| ==> Lex(text, State(pos, false)) == Lexeme(Eof, p, State(p, false))
    ensures p < |text| && text[p] in "{},()[]" ==>
              Lex(text, State(pos, false)) == Lexeme(Punct(text[p]), p, State(p + 1, false))
    ensures p < |text| && text[p] == '<' ==> Lex(text, State(pos, false)) == Lexeme(Punct('<'), p, State(p + 1, true))
    ensures p < |text| && text[p] in ">:;=`" ==> Lex(text, State(pos, false)) == Lexeme(Bogus, p, State(p + 1, false))
  {
    hide DigitRun, NameRun, FloatHere;
    WhiteIsSkipped(text, pos, p);
  }

  // ---------- what is read ----------

  /** A number or an address has the value that its digits spell, if that fits 64 bits. */
  lemma NumberIs(text: string, pos: nat, p: nat, e: nat, v: nat)
    requires Skips(text, pos, p) && !StartsAddress(text, p)
    requires p < |text| && Decimal(text[p]) && RunsTo(text, p, e, Decimal) && !Floats(text, e)
    requires Spells(text[p..e], 0, e - p, 10, v)
    ensures Read(text, State(pos, false)) ==
            if v < 0x1_0000_0000_0000_0000 then Got(Integer(v), State(e, false)) else Failed
  {
    hide Spells, Spaces, Parsed, Lex;
    NumberTokenIs(text, pos, p, e);
    NumeralBegins(text, p, e, 10);
    ParsedIs(text[p..e], 10, 0, e - p, v);
  }

  lemma AddressIs(text: string, pos: nat, p: nat, e: nat, v: nat)
    requires Skips(text, pos, p) && StartsAddress(text, p) && RunsTo(text, p + 2, e, Hexadecimal)
    requires Spells(text[p..e], 2, e - p, 16, v)
    ensures Read(text, State(pos, false)) ==
            if v < 0x1_0000_0000_0000_0000 then Got(Address(v), State(e, false)) else Failed
  {
    hide Spells, Spaces, Parsed, Lex;
    AddressTokenIs(text, pos, p, e);
    NumeralBegins(text, p, e, 16);
    ParsedIs(text[p..e], 16, 0, e - p, v);
  }

  lemma NumeralBegins(text: string, p: nat, e: nat, base: nat)
    requires p < e <= |text| && Decimal(text[p])
    ensures var s := text[p..e];
            && Spaces(s, 0) && RunEnds(s, |s|, base)
            && (HexAt(s, 0) <==> p + 1 < e && text[p] == '0' && text[p + 1] in "xX")
  {
  }

  /** Where reading goes on behind an element: behind white space, one comma if there is one, and
      white space. In a blob that is still open a comma is an error. */
  ghost predicate GoesOn(text: string, m: State, q: State) {
    && q.blob == m.blob
    && exists a: nat :: Skips(text, m.pos, a) &&
         if a < |text| && text[a] == ',' then !m.blob && Skips(text, a + 1, q.pos) else q.pos == a
  }

  /** From st on, where there is no white space, come these elements and the closing delimiter. */
  ghost predicate Listed(text: string, st: State, ts: seq<Term>, e: State)
    requires st.pos <= |text|
    decreases |ts|
  {
    if ts == [] then !st.blob && st.pos < |text| && text[st.pos] == ')' && e == State(st.pos + 1, false)
    else
      && !(st.pos < |text| && text[st.pos] == ')')
      && exists m: State, q: State ::
           Read(text, st) == Got(ts[0], m) && GoesOn(text, m, q) && q.pos <= |text| && Listed(text, q, ts[1..], e)
  }

  predicate NoWhite(text: string, st: State) {
    st.pos <= |text| && (st.pos < |text| ==> !White(text[st.pos]))
  }

  /** The optional comma, and what comes behind it. */
  lemma GoesOnIs(text: string, m: State, q: State)
    requires m.pos <= |text|
    ensures GoesOn(text, m, q) <==> !SkipComma(text, m).Failed? && q == Next(text, SkipComma(text, m).st)
    ensures GoesOn(text, m, q) ==> NoWhite(text, q) && m.pos <= q.pos
  {
    hide Lex, Skips, White;
    var a := Exo.SkipBlanks(text, m.pos);
    AllSkipped(text, m.pos);
    if a < |text| && text[a] == ',' {
      CommaToken(text, a, m.blob);
      AllSkipped(text, a + 1);
    }
    if GoesOn(text, m, q) {
      var b: nat :| Skips(text, m.pos, b) &&
        if b < |text| && text[b] == ',' then !m.blob && Skips(text, b + 1, q.pos) else q.pos == b;
      WhiteIsSkipped(text, m.pos, b);
      if b < |text| && text[b] == ',' {
        WhiteIsSkipped(text, b + 1, q.pos);
      }
      NothingWhite(text, q);
    }
  }

  lemma NothingWhite(text: string, q: State)
    ensures (exists pos :: Skips(text, pos, q.pos)) ==> NoWhite(text, q)
  {
  }

  lemma AllSkipped(text: string, pos: nat)
    requires pos <= |text|
    ensures pos <= Exo.SkipBlanks(text, pos) <= |text| && Skips(text, pos, Exo.SkipBlanks(text, pos))
    ensures Exo.SkipBlanks(text, Exo.SkipBlanks(text, pos)) == Exo.SkipBlanks(text, pos)
  {
    WhiteIsSkipped(text, Exo.SkipBlanks(text, pos), Exo.SkipBlanks(text, pos));
  }

  lemma CommaToken(text: string, a: nat, blob: bool)
    requires a < |text| && text[a] == ','
    ensures Lex(text, State(a, blob)).st == State(a + 1, blob)
    ensures Lex(text, State(a, blob)).kind.Punct? <==> !blob
  {
    DelimiterIs(text, a, a);
    BlobTokenIs(text, a, a);
  }

  // ---------- lists ----------

  /** At a closing delimiter that is not inside a blob. */
  predicate AtDelimiter(text: string, st: State, c: char) {
    !st.blob && st.pos < |text| && text[st.pos] == c
  }

  lemma CloseIs(text: string, st: State, c: char, t: Term)
    requires st.pos < |text| && text[st.pos] == c && c in ")]"
    ensures Close(text, st, c, t) == if st.blob then Failed else Got(t, State(st.pos + 1, false))
  {
    DelimiterIs(text, st.pos, st.pos);
    BlobTokenIs(text, st.pos, st.pos);
  }

  /** Elements read stay the first of the list. */
  lemma {:induction false} ItemsStay(text: string, st: State, items: seq<Term>)
    requires st.pos <= |text|
    ensures var r := ReadItems(text, st, items); r.Got? ==> r.term.List? && items <= r.term.elts
    decreases |text| - st.pos
  {
    hide Read, SkipComma, Lex, Next;
    if At(text, st.pos) != ')' {
      var r := Read(text, st);
      if r.Got? && !SkipComma(text, r.st).Failed? {
        ItemsStay(text, Next(text, SkipComma(text, r.st).st), items + [r.term]);
      }
    }
  }

  /** The loop over elements reads these, and stops at e, exactly if they are listed there. */
  lemma {:induction false} ItemsAre(text: string, st: State, items: seq<Term>, ts: seq<Term>, e: State)
    requires NoWhite(text, st)
    ensures ReadItems(text, st, items) == Got(List(items + ts), e) <==> Listed(text, st, ts, e)
    decreases |text| - st.pos
  {
    hide Read, SkipComma, Lex, Next, GoesOn, Close;
    if st.pos < |text| && text[st.pos] == ')' {
      CloseIs(text, st, ')', List(items));
      assert items == items + ts <==> ts == [];
    } else {
      var r := Read(text, st);
      if r.Got? {
        var s := SkipComma(text, r.st);
        var q := if s.Failed? then r.st else Next(text, s.st);
        forall x: State ensures GoesOn(text, r.st, x) <==> !s.Failed? && x == q {
          GoesOnIs(text, r.st, x);
        }
        if !s.Failed? {
          GoesOnIs(text, r.st, q);
          ItemsStay(text, q, items + [r.term]);
          if ts == [] {
            assert items + ts == items;
          } else {
            ItemsAre(text, q, items + [r.term], ts[1..], e);
            assert ts == [ts[0]] + ts[1..];
            FirstOf(items, r.term, ts);
          }
        }
      }
    }
  }

  /** What one more element that was read says of all of them. */
  lemma FirstOf<T>(done: seq<T>, x: T, ts: seq<T>)
    requires ts != []
    ensures done + [x] <= done + ts <==> ts[0] == x
    ensures |done + [x] + ts[1..]| == |done + ts|
    ensures ts[0] == x ==> done + [x] + ts[1..] == done + ts
  {
    assert (done + ts)[|done|] == ts[0];
    assert (done + [x])[|done|] == x;
    assert ts == [ts[0]] + ts[1..];
  }

  /** Behind an opening parenthesis. */
  lemma ListReads(text: string, pos: nat, p: nat, q: nat, ts: seq<Term>, e: State)
    requires Skips(text, pos, p) && p < |text| && text[p] == '(' && Skips(text, p + 1, q)
    ensures Read(text, State(pos, false)) == Got(List(ts), e) <==> Listed(text, State(q, false), ts, e)
  {
    hide ReadItems, Listed, Lex;
    DelimiterIs(text, pos, p);
    WhiteIsSkipped(text, p + 1, q);
    ItemsAre(text, State(q, false), [], ts, e);
    assert [] + ts == ts;
  }

  // ---------- arrays and blobs ----------

  /** From st on come these slots, commas without an element being empty ones, and the closing
      bracket; the slots it leaves out are empty. */
  ghost predicate Slotted(text: string, st: State, slots: seq<Slot>, e: State)
    requires st.pos <= |text|
    decreases |slots|
  {
    if st.pos < |text| && text[st.pos] == ']' then
      !st.blob && e == State(st.pos + 1, false) && forall i | 0 <= i < |slots| :: slots[i].Hole?
    else if slots == [] then false
    else if st.pos < |text| && text[st.pos] == ',' then
      slots[0].Hole? && exists q: State :: GoesOn(text, st, q) && q.pos <= |text| && Slotted(text, q, slots[1..], e)
    else
      && slots[0].Full?
      && exists m: State, q: State ::
           && Read(text, st) == Got(slots[0].term, m) && GoesOn(text, m, q) && q.pos <= |text|
           && Slotted(text, q, slots[1..], e)
  }

  lemma {:induction false} SlotsStay(text: string, st: State, size: nat, slots: seq<Slot>)
    requires st.pos <= |text| && |slots| <= size
    ensures var r := ReadSlots(text, st, size, slots);
            r.Got? ==> r.term.Array? && |r.term.slots| == size && slots <= r.term.slots
    decreases |text| - st.pos
  {
    hide Read, SkipComma, Lex, Next, Holes;
    if At(text, st.pos) != ']' && |slots| < size {
      var r := if At(text, st.pos) == ',' then Nothing(st) else Read(text, st);
      if (r.Got? || At(text, st.pos) == ',') && !SkipComma(text, r.st).Failed? {
        SlotsStay(text, Next(text, SkipComma(text, r.st).st), size, slots + [if r.Got? then Full(r.term) else Hole]);
      }
    }
  }

  lemma {:induction false} SlotsAre(text: string, st: State, done: seq<Slot>, slots: seq<Slot>, e: State)
    requires NoWhite(text, st)
    ensures ReadSlots(text, st, |done + slots|, done) == Got(Array(done + slots), e) <==> Slotted(text, st, slots, e)
    decreases |text| - st.pos
  {
    hide Read, SkipComma, Lex, Next, GoesOn, Close, Holes;
    var size := |done + slots|;
    if st.pos < |text| && text[st.pos] == ']' {
      CloseIs(text, st, ']', Array(done + Holes(size - |done|)));
      HolesAre(done, slots);
    } else if slots != [] {
      var comma := st.pos < |text| && text[st.pos] == ',';
      var r := if comma then Nothing(st) else Read(text, st);
      if r.Got? || comma {
        SlotGoesOn(text, st, r, done, slots, e);
      }
    }
  }

  lemma HolesAre(done: seq<Slot>, slots: seq<Slot>)
    ensures done + Holes(|done + slots| - |done|) == done + slots <==> forall i | 0 <= i < |slots| :: slots[i].Hole?
  {
    var holes := Holes(|slots|);
    assert (done + holes)[|done|..] == holes && (done + slots)[|done|..] == slots;
    if forall i | 0 <= i < |slots| :: slots[i].Hole? {
      assert slots == holes;
    }
  }

  lemma {:induction false} SlotGoesOn(text: string, st: State, r: Outcome, done: seq<Slot>, slots: seq<Slot>, e: State)
    requires NoWhite(text, st) && slots != [] && !(st.pos < |text| && text[st.pos] == ']')
    requires var comma := st.pos < |text| && text[st.pos] == ',';
             r == (if comma then Nothing(st) else Read(text, st)) && (r.Got? || comma)
    ensures ReadSlots(text, st, |done + slots|, done) == Got(Array(done + slots), e) <==> Slotted(text, st, slots, e)
    decreases |text| - st.pos, 0
  {
    hide Read, SkipComma, Lex, Next, GoesOn, Holes;
    var size, x := |done + slots|, if r.Got? then Full(r.term) else Hole;
    var s := SkipComma(text, r.st);
    var q := if s.Failed? then r.st else Next(text, s.st);
    forall y: State ensures GoesOn(text, r.st, y) <==> !s.Failed? && y == q {
      GoesOnIs(text, r.st, y);
    }
    if !s.Failed? {
      GoesOnIs(text, r.st, q);
      SlotsStay(text, q, size, done + [x]);
      FirstOf(done, x, slots);
      if !r.Got? {
        CommaAhead(text, st);
      }
      SlotsAre(text, q, done + [x], slots[1..], e);
    }
  }

  /** From pos on come these bytes, two digits each, and the closing delimiter; the bytes it leaves
      out are zero. */
  ghost predicate Hexed(text: string, pos: nat, data: seq<byte>, e: State)
    decreases |data|, 1
  {
    exists p: nat :: Skips(text, pos, p) && HexedAt(text, p, data, e)
  }

  ghost predicate HexedAt(text: string, p: nat, data: seq<byte>, e: State)
    decreases |data|, 0
  {
    if p < |text| && text[p] == '>' then e == State(p + 1, false) && forall i | 0 <= i < |data| :: data[i] == 0
    else
      && data != [] && p + 1 < |text| && Hexadecimal(text[p]) && Hexadecimal(text[p + 1])
      && IsDigitFor(text[p], data[0] / 16) && IsDigitFor(text[p + 1], data[0] % 16)
      && Hexed(text, p + 2, data[1..], e)
  }

  lemma {:induction false} BytesStay(text: string, st: State, size: nat, data: seq<byte>)
    requires st.pos <= |text| && |data| <= size
    ensures var r := ReadBytes(text, st, size, data);
            r.Got? ==> r.term.Blob? && |r.term.data| == size && data <= r.term.data
    decreases |text| - st.pos
  {
    hide Lex, ByteValue;
    var l := Lex(text, st);
    if l.kind == Punct('>') {
      assert Padded(data, size)[..|data|] == data;
    } else if l.kind == ByteLit && |data| < size {
      BytesStay(text, l.st, size, data + [ByteValue(text, l.start)]);
    }
  }

  lemma ByteIsTwoDigits(text: string, p: nat, b: byte)
    requires p + 1 < |text| && Hexadecimal(text[p]) && Hexadecimal(text[p + 1])
    ensures IsHex(At(text, p)) && IsHex(At(text, p + 1))
    ensures ByteValue(text, p) == b <==> IsDigitFor(text[p], b / 16) && IsDigitFor(text[p + 1], b % 16)
  {
    DigitValueIs(text[p], 16);
    DigitValueIs(text[p + 1], 16);
  }

  lemma ZerosAre(done: seq<byte>, data: seq<byte>)
    ensures Padded(done, |done + data|) == done + data <==> forall i | 0 <= i < |data| :: data[i] == 0
  {
    var padded := Padded(done, |done + data|);
    assert padded == done + padded[|done|..];
    assert (done + data)[|done|..] == data;
  }

  lemma HexedIs(text: string, pos: nat, p: nat, data: seq<byte>, e: State)
    requires Skips(text, pos, p)
    ensures Hexed(text, pos, data, e) <==> HexedAt(text, p, data, e)
  {
    hide HexedAt, Skips;
    forall x: nat | Skips(text, pos, x) ensures x == p {
      WhiteIsSkipped(text, pos, x);
      WhiteIsSkipped(text, pos, p);
    }
  }

  /** The loop over bytes reads these, and stops at e, exactly if they are spelled there. */
  lemma {:induction false} BytesAreRead(text: string, pos: nat, done: seq<byte>, data: seq<byte>, e: State)
    requires pos <= |text|
    ensures ReadBytes(text, State(pos, true), |done + data|, done) == Got(Blob(done + data), e) <==>
            Hexed(text, pos, data, e)
    decreases |text| - pos
  {
    hide Lex, ByteValue, Padded, Skips, White, Hexadecimal, IsDigitFor, Hexed;
    var p := Exo.SkipBlanks(text, pos);
    AllSkipped(text, pos);
    BlobTokenIs(text, pos, p);
    HexedIs(text, pos, p, data, e);
    if p < |text| {
      if text[p] == '>' {
        NotHex();
        ZerosAre(done, data);
      } else if p + 1 < |text| && Hexadecimal(text[p]) && Hexadecimal(text[p + 1]) && data != [] {
        ByteIsTwoDigits(text, p, data[0]);
        var x := ByteValue(text, p);
        BytesStay(text, State(p + 2, true), |done + data|, done + [x]);
        FirstOf(done, x, data);
        BytesAreRead(text, p + 2, done + [x], data[1..], e);
      }
    }
  }

  lemma NotHex()
    ensures !Hexadecimal('>')
  {
  }

  /** Behind an opening brace comes a size, a closing brace and an opening delimiter: at b. */
  ghost predicate Sized(text: string, pos: nat, p: nat, n: nat, b: nat) {
    && Skips(text, pos, p) && p < |text| && text[p] == '{' && n < 0x8000_0000
    && exists m: nat, a: nat ::
         && Read(text, State(p + 1, false)) == Got(Integer(n), State(m, false))
         && Skips(text, m, a) && a < |text| && text[a] == '}' && Skips(text, a + 1, b)
  }

  lemma SizedIs(text: string, pos: nat, p: nat, n: nat, b: nat)
    requires Sized(text, pos, p, n, b) && b < |text| && text[b] in "[<"
    ensures var q := Next(text, State(b + 1, text[b] == '<'));
            Read(text, State(pos, false)) ==
            if text[b] == '[' then ReadSlots(text, q, n, [])
            else if At(text, q.pos) == '>' then Got(Blob(Padded([], n)), q)
            else ReadBytes(text, q, n, [])
  {
    hide Lex, Read, ReadSized, ReadSlots, ReadBytes, Padded, Next, Skips;
    DelimiterIs(text, pos, p);
    var m: nat, a: nat :|
      && Read(text, State(p + 1, false)) == Got(Integer(n), State(m, false))
      && Skips(text, m, a) && a < |text| && text[a] == '}' && Skips(text, a + 1, b);
    DelimiterIs(text, m, a);
    DelimiterIs(text, a + 1, b);
    SizedOnly(text, pos, p);
    SizeIs(text, p + 1, n, m, a, b);
  }

  lemma SizeIs(text: string, p: nat, n: nat, m: nat, a: nat, b: nat)
    requires p <= |text| && n < 0x8000_0000 && Read(text, State(p, false)) == Got(Integer(n), State(m, false))
    requires Lex(text, State(m, false)) == Lexeme(Punct('}'), a, State(a + 1, false))
    requires a + 1 <= |text| && b < |text| && text[b] in "[<"
    requires Lex(text, State(a + 1, false)) == Lexeme(Punct(text[b]), b, State(b + 1, text[b] == '<'))
    ensures var q := Next(text, State(b + 1, text[b] == '<'));
            ReadSized(text, State(p, false)) ==
            if text[b] == '[' then ReadSlots(text, q, n, [])
            else if At(text, q.pos) == '>' then Got(Blob(Padded([], n)), q)
            else ReadBytes(text, q, n, [])
  {
    hide Lex, Read, ReadSlots, ReadBytes, Padded, Next;
    assert ToInt32(n) == n;
  }

  lemma SizedOnly(text: string, pos: nat, p: nat)
    requires pos <= |text| && p < |text| && Lex(text, State(pos, false)) == Lexeme(Punct('{'), p, State(p + 1, false))
    ensures Read(text, State(pos, false)) == ReadSized(text, State(p + 1, false))
  {
    hide Lex, ReadSized;
  }

  /** In brackets, as many slots as the size says. */
  lemma ArrayReads(text: string, pos: nat, p: nat, b: nat, q: nat, slots: seq<Slot>, e: State)
    requires Sized(text, pos, p, |slots|, b) && b < |text| && text[b] == '[' && Skips(text, b + 1, q)
    ensures Read(text, State(pos, false)) == Got(Array(slots), e) <==> Slotted(text, State(q, false), slots, e)
  {
    hide Read, ReadSlots, Slotted, Sized, ReadBytes, Padded;
    SizedIs(text, pos, p, |slots|, b);
    WhiteIsSkipped(text, b + 1, q);
    SlotsAre(text, State(q, false), [], slots, e);
    assert [] + slots == slots;
  }

  /** In angle brackets, as many bytes; if there are none at all, the closing one is not read. */
  lemma BlobReads(text: string, pos: nat, p: nat, b: nat, q: nat, data: seq<byte>, e: State)
    requires Sized(text, pos, p, |data|, b) && b < |text| && text[b] == '<' && Skips(text, b + 1, q)
    ensures Read(text, State(pos, false)) == Got(Blob(data), e) <==>
            if q < |text| && text[q] == '>' then e == State(q, true) && forall i | 0 <= i < |data| :: data[i] == 0
            else Hexed(text, q, data, e)
  {
    hide Read, ReadSlots, Hexed, Sized, ReadBytes, Padded;
    SizedIs(text, pos, p, |data|, b);
    WhiteIsSkipped(text, b + 1, q);
    BytesAreRead(text, q, [], data, e);
    ZerosAre([], data);
    assert [] + data == data;
  }
}
