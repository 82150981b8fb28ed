/** EXO terms: the printer, the lexer for what it prints, and the reader. Printing a term and
    reading it back must give the same term and stop exactly behind it. */
module Exo {
  import opened Bits
  import opened Numbers
  import opened Wrappers

  // ---------- terms ----------

  datatype Slot = Hole | Full(term: Term)

  datatype Term =
    | Integer(val: nat)
    | Address(val: nat)
    | Token(name: string)
    | List(elts: seq<Term>)
    | Array(slots: seq<Slot>)
    | Blob(data: seq<byte>)

  predicate IsLetter(c: char) {
    IsAlpha(c) || c == '_'
  }

  predicate IsName(s: string) {
    s != "" && IsLetter(s[0]) && forall i | 0 <= i < |s| :: IsLetter(s[i]) || IsDigit(s[i])
  }

  /** Sizes are ints in the code. */
  const INT_LIMIT: nat := 2147483648

  /** The terms that survive printing. */
  predicate WellFormed(t: Term) {
    match t
    case Integer(v) => v < WORD64
    case Address(v) => v < WORD64
    case Token(s) => IsName(s)
    case List(elts) => forall i | 0 <= i < |elts| :: WellFormed(elts[i])
    case Array(slots) =>
      |slots| < INT_LIMIT && forall i | 0 <= i < |slots| :: slots[i].Full? ==> WellFormed(slots[i].term)
    case Blob(data) => 0 < |data| < INT_LIMIT
  }

  /** The same, but with empty blobs allowed. */
  predicate Regular(t: Term) {
    match t
    case Integer(v) => v < WORD64
    case Address(v) => v < WORD64
    case Token(s) => IsName(s)
    case List(elts) => forall i | 0 <= i < |elts| :: Regular(elts[i])
    case Array(slots) =>
      |slots| < INT_LIMIT && forall i | 0 <= i < |slots| :: slots[i].Full? ==> Regular(slots[i].term)
    case Blob(data) => |data| < INT_LIMIT
  }

  predicate HasEmptyBlob(t: Term) {
    match t
    case List(elts) => exists i :: 0 <= i < |elts| && HasEmptyBlob(elts[i])
    case Array(slots) => exists i :: 0 <= i < |slots| && slots[i].Full? && HasEmptyBlob(slots[i].term)
    case Blob(data) => data == []
    case _ => false
  }

  lemma {:induction false} WellFormedIs(t: Term)
    ensures WellFormed(t) <==> Regular(t) && !HasEmptyBlob(t)
  {
    match t
    case List(elts) =>
      forall i | 0 <= i < |elts| ensures WellFormed(elts[i]) <==> Regular(elts[i]) && !HasEmptyBlob(elts[i]) {
        WellFormedIs(elts[i]);
      }
    case Array(slots) =>
      forall i | 0 <= i < |slots| && slots[i].Full?
        ensures WellFormed(slots[i].term) <==> Regular(slots[i].term) && !HasEmptyBlob(slots[i].term)
      {
        WellFormedIs(slots[i].term);
      }
    case _ =>
  }

  // ---------- printing ----------

  /** The number of slots up to the last one that is not empty. */
  function Used(slots: seq<Slot>): (n: nat)
    ensures n <= |slots| && (n > 0 ==> slots[n - 1].Full?)
    ensures forall i | n <= i < |slots| :: slots[i].Hole?
  {
    if slots == [] || slots[|slots| - 1].Full? then |slots| else Used(slots[..|slots| - 1])
  }

  function Hex2(b: byte): (s: string)
    ensures |s| == 2
  {
    [DigitChar(b / 16), DigitChar(b % 16)]
  }

  /** A line break comes before every byte whose number is a multiple of 38, except the first. */
  predicate Breaks(i: nat) {
    i != 0 && i % 38 == 0
  }

  function HexText(data: seq<byte>, n: nat): string
    requires n <= |data|
  {
    if n == 0 then ""
    else HexText(data, n - 1) + (if Breaks(n - 1) then "\n" else "") + Hex2(data[n - 1])
  }

  /** The flag cr behind n bytes: whether the last of them began a line. Without any byte it is
      never set, and `stray` stands for what it happens to hold. */
  predicate Cr(stray: bool, n: nat) {
    if n == 0 then stray else Breaks(n - 1)
  }

  /** What follows the last byte: a line break, unless that byte began a line. */
  function BlobTail(stray: bool, n: nat): string {
    (if Cr(stray, n) then "" else "\n") + ">"
  }

  function BlobText(stray: bool, data: seq<byte>): string {
    "{" + Digits(|data|, 10) + "}<\n" + HexText(data, |data|) + BlobTail(stray, |data|)
  }

  function Print(stray: bool, t: Term): string
    decreases t, 1, 0
  {
    match t
    case Integer(v) => Digits(v, 10)
    case Address(v) => "0x" + Digits(v, 16)
    case Token(s) => s
    case List(elts) => "(" + ItemsText(stray, t, |elts|) + ")"
    case Array(slots) => "{" + Digits(|slots|, 10) + "}[" + SlotsText(stray, t, Used(slots)) + "]"
    case Blob(data) => BlobText(stray, data)
  }

  function Comma(n: nat): string {
    if n > 0 then ", " else ""
  }

  /** The first n elements of a list. */
  function ItemsText(stray: bool, t: Term, n: nat): string
    requires t.List? && n <= |t.elts|
    decreases t, 0, n
  {
    if n == 0 then "" else ItemsText(stray, t, n - 1) + Comma(n - 1) + Print(stray, t.elts[n - 1])
  }

  function SlotText(stray: bool, t: Term, i: nat): string
    requires t.Array? && i < |t.slots|
    decreases t, 0, 0
  {
    if t.slots[i].Hole? then " " else Print(stray, t.slots[i].term)
  }

  function SlotsText(stray: bool, t: Term, n: nat): string
    requires t.Array? && n <= |t.slots|
    decreases t, 0, n
  {
    if n == 0 then "" else SlotsText(stray, t, n - 1) + Comma(n - 1) + SlotText(stray, t, n - 1)
  }

  /** The output stream of exo_print. */
  class Printer {
    var out: string

    constructor ()
      ensures out == ""
    {
      out := "";
    }

    method Put(s: string)
      modifies this
      ensures out == old(out) + s
    {
      out := out + s;
    }

    method PrintBlob(stray: bool, data: seq<byte>)
      modifies this
      ensures out == old(out) + BlobText(stray, data)
    {
      hide Digits, Hex2, Breaks, HexText, BlobText, Cr;
      BlobPieces(stray, data, out);
      CrNext(stray, 0);
      Put("{");
      Put(Digits(|data|, 10));
      Put("}<\n");
      ghost var head := out;
      var cr := stray;
      for i := 0 to |data|
        invariant out == head + HexText(data, i) && cr == Cr(stray, i)
      {
        CrNext(stray, i);
        HexAppended(data, i, head);
        cr := false;
        if Breaks(i) {
          Put("\n");
          cr := true;
        }
        Put(Hex2(data[i]));
      }
      BlobEnds(head, data, stray);
      if !cr {
        Put("\n");
      }
      Put(">");
    }

    method PrintTerm(stray: bool, t: Term)
      modifies this
      ensures out == old(out) + Print(stray, t)
      decreases t
    {
      match t
      case Integer(v) => Put(Digits(v, 10));
      case Address(v) =>
        Put("0x");
        Put(Digits(v, 16));
      case Token(s) => Put(s);
      case List(elts) => PrintItems(stray, t);
      case Array(slots) => PrintSlots(stray, t);
      case Blob(data) => PrintBlob(stray, data);
    }

    method PrintItems(stray: bool, t: Term)
      requires t.List?
      modifies this
      ensures out == old(out) + Print(stray, t)
      decreases t, 0
    {
      hide Print, ItemsText;
      var n := |t.elts|;
      ListText(stray, t, old(out));
      Put("(");
      for i := 0 to n
        invariant out == old(out) + "(" + ItemsText(stray, t, i) + (if i < n then Comma(i) else "")
      {
        ItemAppended(stray, t, i, old(out) + "(");
        PrintTerm(stray, t.elts[i]);
        if i + 1 < n {
          Put(", ");
        }
      }
      Put(")");
    }

    /** exo_print, and the empty line that eio.c writes behind every term. */
    method PrintLine(stray: bool, t: Term)
      modifies this
      ensures out == old(out) + (Print(stray, t) + "\n\n")
    {
      hide Print;
      PrintTerm(stray, t);
      Put("\n\n");
    }

    /** The search for the last slot that is not empty. */
    method LastUsed(slots: seq<Slot>) returns (last: int)
      ensures last == Used(slots) - 1
    {
      last := |slots| - 1;
      while last >= 0
        invariant -1 <= last < |slots|
        invariant Used(slots[..last + 1]) == Used(slots)
      {
        if slots[last].Full? {
          break;
        }
        assert slots[..last + 1][..last] == slots[..last];
        last := last - 1;
      }
    }

    method PrintSlots(stray: bool, t: Term)
      requires t.Array?
      modifies this
      ensures out == old(out) + Print(stray, t)
      decreases t, 0
    {
      hide Print, SlotsText, Digits, Used;
      var size := |t.slots|;
      var last := LastUsed(t.slots);
      ArrayText(stray, t, old(out));
      Put("{");
      Put(Digits(size, 10));
      Put("}[");
      ghost var head := out;
      var i := 0;
      while i < size && i <= last
        invariant 0 <= i <= last + 1
        invariant out == head + SlotsText(stray, t, i) + (if i <= last then Comma(i) else "")
      {
        SlotAppended(stray, t, i, head);
        match t.slots[i] {
          case Full(e) => PrintTerm(stray, e);
          case Hole => Put(" ");
        }
        if i != size - 1 && i != last {
          Put(", ");
        }
        i := i + 1;
      }
      Put("]");
    }
  }

  lemma CrNext(stray: bool, i: nat)
    ensures Cr(stray, i + 1) == Breaks(i) && Cr(stray, 0) == stray
  {
  }

  lemma BlobEnds(head: string, data: seq<byte>, stray: bool)
    ensures var n := |data|;
            head + HexText(data, n) + (if Cr(stray, n) then "" else "\n") + ">" ==
            head + HexText(data, n) + BlobTail(stray, n)
  {
    hide HexText, Cr;
    Append3(head + HexText(data, |data|), if Cr(stray, |data|) then "" else "\n", ">");
  }

  lemma BlobPieces(stray: bool, data: seq<byte>, before: string)
    ensures var head := before + "{" + Digits(|data|, 10) + "}<\n";
            && head + HexText(data, 0) == head
            && head + HexText(data, |data|) + BlobTail(stray, |data|) == before + BlobText(stray, data)
  {
    hide HexText, Digits, BlobTail;
    NoBytes(data);
    var n := |data|;
    var d, h := Digits(n, 10), HexText(data, n);
    Append3(before, "{", d);
    Append3(before, "{" + d, "}<\n");
    Append3(before, "{" + d + "}<\n", h);
    Append3(before, "{" + d + "}<\n" + h, BlobTail(stray, n));
  }

  lemma Append3(a: string, b: string, c: string)
    ensures a + b + c == a + (b + c)
  {
  }

  lemma HexAppended(data: seq<byte>, i: nat, head: string)
    requires i < |data|
    ensures head + HexText(data, i) + Break(i) + Hex2(data[i]) == head + HexText(data, i + 1)
    ensures head + HexText(data, i) + "" == head + HexText(data, i)
  {
    hide Hex2, HexText;
    HexTextNext(data, i);
    Append4(head, HexText(data, i), Break(i), Hex2(data[i]));
  }

  lemma ListText(stray: bool, t: Term, before: string)
    requires t.List?
    ensures before + "(" + ItemsText(stray, t, 0) + Comma(0) == before + "("
    ensures before + "(" + ItemsText(stray, t, |t.elts|) + ")" == before + Print(stray, t)
  {
    hide ItemsText;
    assert ItemsText(stray, t, 0) == "" by { NoItems(stray, t); }
    assert before + ("(" + ItemsText(stray, t, |t.elts|) + ")") == before + "(" + ItemsText(stray, t, |t.elts|) + ")";
  }

  lemma NoItems(stray: bool, t: Term)
    ensures t.List? ==> ItemsText(stray, t, 0) == ""
    ensures t.Array? ==> SlotsText(stray, t, 0) == ""
  {
  }

  lemma ItemAppended(stray: bool, t: Term, i: nat, head: string)
    requires t.List? && i < |t.elts|
    ensures head + ItemsText(stray, t, i) + Comma(i) + Print(stray, t.elts[i]) == head + ItemsText(stray, t, i + 1)
  {
    hide Print;
    Append4(head, ItemsText(stray, t, i), Comma(i), Print(stray, t.elts[i]));
  }

  lemma Append4(a: string, b: string, c: string, d: string)
    ensures a + b + c + d == a + (b + c + d)
  {
  }

  lemma ArrayText(stray: bool, t: Term, before: string)
    requires t.Array?
    ensures var head := before + "{" + Digits(|t.slots|, 10) + "}[";
            && head + SlotsText(stray, t, 0) + Comma(0) == head
            && head + SlotsText(stray, t, Used(t.slots)) + "]" == before + Print(stray, t)
  {
    hide SlotsText, Digits;
    assert SlotsText(stray, t, 0) == "" by { NoItems(stray, t); }
    var d, s := Digits(|t.slots|, 10), SlotsText(stray, t, Used(t.slots));
    assert before + ("{" + d + "}[" + s + "]") == before + "{" + d + "}[" + s + "]";
  }

  lemma SlotAppended(stray: bool, t: Term, i: nat, head: string)
    requires t.Array? && i < |t.slots|
    ensures head + SlotsText(stray, t, i) + Comma(i) + SlotText(stray, t, i) == head + SlotsText(stray, t, i + 1)
  {
    hide SlotText;
    Append4(head, SlotsText(stray, t, i), Comma(i), SlotText(stray, t, i));
  }

  // ---------- the lexer ----------

  /** Where the lexer is, and whether it is inside a blob. */
  datatype State = State(pos: nat, blob: bool)

  datatype Kind = IntLit | AddrLit | Name | ByteLit | Punct(c: char) | Eof | Bogus | Other

  /** A token at [start, st.pos) of the text. */
  datatype Lexeme = Lexeme(kind: Kind, start: nat, st: State)

  predicate Blank(c: char) {
    c == ' ' || c == '\t' || c == '\n' || c == 11 as char || c == 12 as char
  }

  function SkipBlanks(text: string, pos: nat): (p: nat)
    requires pos <= |text|
    ensures pos <= p <= |text| && !Blank(At(text, p))
    ensures forall k | pos <= k < p :: Blank(text[k])
    decreases |text| - pos
  {
    if pos < |text| && Blank(text[pos]) then SkipBlanks(text, pos + 1) else pos
  }

  predicate IsHex(c: char) {
    DigitValue(c) < 16
  }

  /** A digit string goes on as a floating point literal here. */
  predicate FloatHere(text: string, p: nat) {
    || At(text, p) == '.'
    || (ToUpper(At(text, p)) == 'E' &&
        (IsDigit(At(text, p + 1)) || (At(text, p + 1) in "+-" && IsDigit(At(text, p + 2)))))
  }

  function NameRun(text: string, p: nat): (q: nat)
    requires p <= |text|
    ensures p <= q <= |text|
    ensures q < |text| ==> !IsLetter(text[q]) && !IsDigit(text[q])
    ensures forall k | p <= k < q :: IsLetter(text[k]) || IsDigit(text[k])
    decreases |text| - p
  {
    if p < |text| && (IsLetter(text[p]) || IsDigit(text[p])) then NameRun(text, p + 1) else p
  }

  /** The longest match of the rules for what the printer emits. What starts another rule
      (signed and floating point numbers, characters, strings, operators, comments) is Other;
      what no rule matches is Bogus. */
  function Lex(text: string, st: State): (l: Lexeme)
    requires st.pos <= |text|
    ensures st.pos <= l.start <= l.st.pos <= |text|
    ensures l.kind != Eof ==> l.start < l.st.pos
    ensures l.kind == Eof <==> SkipBlanks(text, st.pos) == |text|
    ensures l.kind == ByteLit ==> IsHex(At(text, l.start)) && IsHex(At(text, l.start + 1))
  {
    var p := SkipBlanks(text, st.pos);
    var c := At(text, p);
    if p == |text| then Lexeme(Eof, p, State(p, st.blob))
    else if st.blob then
      if IsHex(c) && IsHex(At(text, p + 1)) then Lexeme(ByteLit, p, State(p + 2, true))
      else if c == '>' then Lexeme(Punct(c), p, State(p + 1, false))
      else Lexeme(Bogus, p, State(p + 1, true))
    else if c == '0' && ToUpper(At(text, p + 1)) == 'X' && IsHex(At(text, p + 2)) then
      RunInText(text, p + 2, 16);
      Lexeme(AddrLit, p, State(DigitRun(text, p + 2, 16), false))
    else if IsDigit(c) then
      RunInText(text, p, 10);
      var e := DigitRun(text, p, 10);
      Lexeme(if FloatHere(text, e) then Other else IntLit, p, State(e, false))
    else if IsLetter(c) then Lexeme(Name, p, State(NameRun(text, p), false))
    else if c in "{},()[]" then Lexeme(Punct(c), p, State(p + 1, false))
    else if c == '<' then Lexeme(Punct(c), p, State(p + 1, true))
    else Lexeme(if c in "~!@#$%^&*-+|/?.'\"" then Other else Bogus, p, State(p + 1, false))
  }

  lemma {:induction false} RunInText(text: string, p: nat, base: nat)
    requires p <= |text| && base <= 36
    ensures DigitRun(text, p, base) <= |text|
    ensures p < |text| && DigitValue(text[p]) < base ==> DigitRun(text, p, base) > p
    decreases |text| - p
  {
    if p < |text| && DigitValue(text[p]) < base {
      RunInText(text, p + 1, base);
    }
  }

  /** yy_nextchar: blanks are consumed, the next character is only looked at. */
  function Next(text: string, st: State): (r: State)
    requires st.pos <= |text|
    ensures st.pos <= r.pos <= |text| && r.blob == st.blob
  {
    State(SkipBlanks(text, st.pos), st.blob)
  }

  // ---------- the reader ----------

  /** A term, nothing because the text ended, an error exit, or a construct the printer never
      emits and this model does not read. */
  datatype Outcome =
    | Got(term: Term, st: State)
    | Nothing(st: State)
    | Failed
    | Unmodelled

  function Numeral(tok: string, base: nat, address: bool, st: State): (r: Outcome)
    ensures !r.Nothing? && (r.Got? ==> r.st == st)
  {
    match Parsed(tok, base)
    case Converted(v, end, erange) =>
      if erange || end != |tok| then Failed
      else Got(if address then Address(v) else Integer(v), st)
    case _ => Failed
  }

  /** One optional comma; in a blob it is a bogus character. */
  function SkipComma(text: string, st: State): (r: Outcome)
    requires st.pos <= |text|
    ensures r.Failed? || (r.Nothing? && st.pos <= r.st.pos <= |text|)
    ensures r.Nothing? && At(text, SkipBlanks(text, st.pos)) == ',' ==> r.st.pos > SkipBlanks(text, st.pos)
  {
    var n := Next(text, st);
    if At(text, n.pos) != ',' then Nothing(n)
    else
      var l := Lex(text, n);
      if l.kind.Punct? then Nothing(l.st) else Failed
  }

  function Read(text: string, st: State): (r: Outcome)
    requires st.pos <= |text|
    ensures r.Got? ==> st.pos < r.st.pos <= |text|
    decreases |text| - st.pos, 0
  {
    var l := Lex(text, st);
    match l.kind
    case IntLit => Numeral(text[l.start..l.st.pos], 10, false, l.st)
    case AddrLit => Numeral(text[l.start..l.st.pos], 16, true, l.st)
    case Name => Got(Token(text[l.start..l.st.pos]), l.st)
    case Eof => Nothing(l.st)
    case Other => Unmodelled
    case Punct(c) =>
      if c == '(' then ReadItems(text, Next(text, l.st), [])
      else if c == '{' then ReadSized(text, l.st)
      else if c == '[' then Unmodelled
      else Failed
    case _ => Failed
  }

  /** The loop over list elements, from a look at the next character on. */
  function ReadItems(text: string, st: State, items: seq<Term>): (r: Outcome)
    requires st.pos <= |text|
    ensures !r.Nothing? && (r.Got? ==> st.pos < r.st.pos <= |text|)
    decreases |text| - st.pos, 1
  {
    if At(text, st.pos) == ')' then
      Close(text, st, ')', List(items))
    else
      var r := Read(text, st);
      if r.Got? then
        var s := SkipComma(text, r.st);
        if s.Failed? then Failed else ReadItems(text, Next(text, s.st), items + [r.term])
      else if r.Unmodelled? then r else Failed
  }

  /** The tail delimiter. */
  function Close(text: string, st: State, c: char, t: Term): (r: Outcome)
    requires st.pos <= |text|
    ensures !r.Nothing? && (r.Got? ==> st.pos < r.st.pos <= |text|)
  {
    var l := Lex(text, st);
    if l.kind == Punct(c) then Got(t, l.st) else Failed
  }

  /** What follows an opening brace: the size, then an array or a blob. */
  function ReadSized(text: string, st: State): (r: Outcome)
    requires st.pos <= |text|
    ensures !r.Nothing? && (r.Got? ==> st.pos < r.st.pos <= |text|)
    decreases |text| - st.pos, 1
  {
    var r := Read(text, st);
    if r.Unmodelled? then r
    else if !r.Got? || !r.term.Integer? then Failed
    else
      var size := ToInt32(r.term.val);
      var close := Lex(text, r.st);
      if close.kind != Punct('}') then Failed
      else
        var open := Lex(text, close.st);
        if open.kind != Punct('[') && open.kind != Punct('<') then Failed
        else if size < 0 then Unmodelled
        else if open.kind == Punct('[') then ReadSlots(text, Next(text, open.st), size, [])
        else
          var n := Next(text, open.st);
          if At(text, n.pos) == '>' then Got(Blob(Padded([], size)), n)
          else ReadBytes(text, n, size, [])
  }

  function Holes(n: nat): (s: seq<Slot>)
    ensures |s| == n && forall i | 0 <= i < n :: s[i].Hole?
  {
    if n == 0 then [] else Holes(n - 1) + [Hole]
  }

  /** The loop over array slots. */
  function ReadSlots(text: string, st: State, size: nat, slots: seq<Slot>): (r: Outcome)
    requires st.pos <= |text| && |slots| <= size
    ensures !r.Nothing? && (r.Got? ==> st.pos < r.st.pos <= |text|)
    decreases |text| - st.pos, 1
  {
    if At(text, st.pos) == ']' then
      Close(text, st, ']', Array(slots + Holes(size - |slots|)))
    else if |slots| == size then Failed
    else
      var r := if At(text, st.pos) == ',' then Nothing(st) else Read(text, st);
      if r.Got? || At(text, st.pos) == ',' then
        var s := SkipComma(text, r.st);
        if s.Failed? then Failed
        else ReadSlots(text, Next(text, s.st), size, slots + [if r.Got? then Full(r.term) else Hole])
      else if r.Unmodelled? then r else Failed
  }

  /** A blob is allocated full of zeros. */
  function Padded(data: seq<byte>, size: nat): (s: seq<byte>)
    requires |data| <= size
    ensures |s| == size && s[..|data|] == data && forall i | |data| <= i < size :: s[i] == 0
  {
    if size == |data| then data else Padded(data, size - 1) + [0]
  }

  function ByteValue(text: string, p: nat): (b: byte)
    requires IsHex(At(text, p)) && IsHex(At(text, p + 1))
  {
    DigitValue(At(text, p)) * 16 + DigitValue(At(text, p + 1))
  }

  /** The loop over blob bytes. */
  function ReadBytes(text: string, st: State, size: nat, data: seq<byte>): (r: Outcome)
    requires st.pos <= |text| && |data| <= size
    ensures !r.Nothing? && (r.Got? ==> st.pos < r.st.pos <= |text|)
    decreases |text| - st.pos
  {
    var l := Lex(text, st);
    if l.kind == Punct('>') then Got(Blob(Padded(data, size)), l.st)
    else if l.kind != ByteLit || |data| == size then Failed
    else ReadBytes(text, l.st, size, data + [ByteValue(text, l.start)])
  }

  /** The input stream of exo_read: the text, and the state of the lexer, which every call
      moves on. An Outcome without a term is the end of the program. */
  class Reader {
    const text: string
    var st: State

    constructor (text: string)
      ensures this.text == text && st == State(0, false)
    {
      this.text := text;
      st := State(0, false);
    }

    ghost predicate Valid()
      reads this
    {
      st.pos <= |text|
    }

    method NextToken() returns (l: Lexeme)
      requires Valid()
      modifies this
      ensures Valid() && l == Lex(text, old(st)) && st == l.st
    {
      l := Lex(text, st);
      st := l.st;
    }

    method NextChar() returns (c: char)
      requires Valid()
      modifies this
      ensures Valid() && st == Next(text, old(st)) && c == At(text, st.pos)
    {
      st := Next(text, st);
      c := At(text, st.pos);
    }

    /** Consumes an optional comma, and looks at what follows; false is an error exit. */
    method ConsumeComma() returns (ok: bool)
      requires Valid()
      modifies this
      ensures Valid() && ok == !SkipComma(text, old(st)).Failed?
      ensures ok ==> st == Next(text, SkipComma(text, old(st)).st)
    {
      hide Lex;
      var c := NextChar();
      if c == ',' {
        var l := NextToken();
        if !l.kind.Punct? {
          return false;
        }
      }
      ok := true;
      NextTwice(text, st);
      var _ := NextChar();
    }

    method ReadTerm() returns (r: Outcome)
      requires Valid()
      modifies this
      ensures Valid() && r == Read(text, old(st)) && (r.Got? || r.Nothing? ==> st == r.st)
      decreases |text| - st.pos, 0
    {
      hide Lex, Numeral, ReadItems, ReadSized;
      var l := NextToken();
      match l.kind
      case IntLit => r := Numeral(text[l.start..l.st.pos], 10, false, l.st);
      case AddrLit => r := Numeral(text[l.start..l.st.pos], 16, true, l.st);
      case Name => r := Got(Token(text[l.start..l.st.pos]), l.st);
      case Eof => r := Nothing(l.st);
      case Other => r := Unmodelled;
      case Punct(c) =>
        if c == '(' {
          r := ReadListTail();
        } else if c == '{' {
          r := ReadSizedTail();
        } else {
          r := if c == '[' then Unmodelled else Failed;
        }
      case _ => r := Failed;
    }

    method ReadListTail() returns (r: Outcome)
      requires Valid()
      modifies this
      ensures Valid() && r == ReadItems(text, Next(text, old(st)), []) && (r.Got? ==> st == r.st)
      decreases |text| - st.pos, 1
    {
      hide Read, SkipComma, Lex, Next;
      var c := NextChar();
      var items: seq<Term> := [];
      ghost var goal := ReadItems(text, st, []);
      while c != ')'
        invariant Valid() && st.pos >= old(st).pos && c == At(text, st.pos)
        invariant ReadItems(text, st, items) == goal
        decreases |text| - st.pos
      {
        var elt := ReadTerm();
        if !elt.Got? {
          return if elt.Unmodelled? then elt else Failed;
        }
        var ok := ConsumeComma();
        if !ok {
          return Failed;
        }
        items := items + [elt.term];
        c := At(text, st.pos);
      }
      r := ReadClose(')', List(items));
    }

    method ReadClose(c: char, t: Term) returns (r: Outcome)
      requires Valid()
      modifies this
      ensures Valid() && r == Close(text, old(st), c, t) && (r.Got? ==> st == r.st)
    {
      hide Lex;
      var l := NextToken();
      r := if l.kind == Punct(c) then Got(t, l.st) else Failed;
    }

    method ReadSizedTail() returns (r: Outcome)
      requires Valid()
      modifies this
      ensures Valid() && r == ReadSized(text, old(st)) && (r.Got? ==> st == r.st)
      decreases |text| - st.pos, 1
    {
      hide Read, Lex, ReadSlots, ReadBytes, Padded;
      var elt := ReadTerm();
      if elt.Unmodelled? {
        return elt;
      } else if !elt.Got? || !elt.term.Integer? {
        return Failed;
      }
      var size := ToInt32(elt.term.val);
      var close := NextToken();
      if close.kind != Punct('}') {
        return Failed;
      }
      var open := NextToken();
      if open.kind != Punct('[') && open.kind != Punct('<') {
        return Failed;
      } else if size < 0 {
        return Unmodelled;
      }
      var c := NextChar();
      if open.kind == Punct('[') {
        r := ReadSlotsTail(size);
      } else if c == '>' {
        r := Got(Blob(Padded([], size)), st);
      } else {
        r := ReadBytesTail(size);
      }
    }

    method ReadSlotsTail(size: nat) returns (r: Outcome)
      requires Valid()
      modifies this
      ensures Valid() && r == ReadSlots(text, old(st), size, []) && (r.Got? ==> st == r.st)
      decreases |text| - st.pos, 1
    {
      hide Read, SkipComma, Lex, Next;
      var c := At(text, st.pos);
      var slots: seq<Slot> := [];
      ghost var goal := ReadSlots(text, st, size, []);
      while c != ']'
        invariant Valid() && st.pos >= old(st).pos && c == At(text, st.pos) && |slots| <= size
        invariant ReadSlots(text, st, size, slots) == goal
        decreases |text| - st.pos
      {
        if |slots| == size {
          return Failed;
        }
        var slot := Hole;
        if c != ',' {
          var elt := ReadTerm();
          if !elt.Got? {
            return if elt.Unmodelled? then elt else Failed;
          }
          slot := Full(elt.term);
        } else {
          CommaAhead(text, st);
        }
        var ok := ConsumeComma();
        if !ok {
          return Failed;
        }
        slots := slots + [slot];
        c := At(text, st.pos);
      }
      r := ReadClose(']', Array(slots + Holes(size - |slots|)));
    }

    method ReadBytesTail(size: nat) returns (r: Outcome)
      requires Valid()
      modifies this
      ensures Valid() && r == ReadBytes(text, old(st), size, []) && (r.Got? ==> st == r.st)
    {
      hide Lex, ByteValue;
      var data: seq<byte> := [];
      ghost var goal := ReadBytes(text, st, size, []);
      while true
        invariant Valid() && |data| <= size && ReadBytes(text, st, size, data) == goal
        decreases |text| - st.pos
      {
        var l := NextToken();
        if l.kind == Punct('>') {
          return Got(Blob(Padded(data, size)), st);
        } else if l.kind != ByteLit || |data| == size {
          return Failed;
        }
        data := data + [ByteValue(text, l.start)];
      }
    }
  }

  lemma NextTwice(text: string, st: State)
    requires st.pos <= |text|
    ensures Next(text, Next(text, st)) == Next(text, st)
  {
    hide SkipBlanks;
    SkipNothing(text, SkipBlanks(text, st.pos));
  }

  lemma CommaAhead(text: string, st: State)
    requires st.pos <= |text| && At(text, st.pos) == ','
    ensures Next(text, st) == st
    ensures !SkipComma(text, st).Failed? ==> SkipComma(text, st).st.pos > st.pos
  {
    hide SkipBlanks, Lex;
    SkipNothing(text, st.pos);
  }

  // ---------- reading undoes printing ----------

  /** The text has s at p. */
  predicate Here(text: string, p: nat, s: string) {
    p + |s| <= |text| && text[p..p + |s|] == s
  }

  lemma HereSplit(text: string, p: nat, a: string, b: string)
    ensures Here(text, p, a + b) <==> Here(text, p, a) && Here(text, p + |a|, b)
  {
    if Here(text, p, a + b) {
      var t := text[p..p + |a + b|];
      assert t[..|a|] == a && t[|a|..] == b;
      assert text[p..p + |a|] == t[..|a|];
      assert text[p + |a|..p + |a| + |b|] == t[|a|..];
    }
    if Here(text, p, a) && Here(text, p + |a|, b) {
      assert text[p..p + |a + b|] == text[p..p + |a|] + text[p + |a|..p + |a| + |b|];
    }
  }

  lemma HereAt(text: string, p: nat, s: string, i: nat)
    requires Here(text, p, s) && i < |s|
    ensures p + i < |text| && At(text, p + i) == text[p + i] == s[i]
  {
    assert text[p..p + |s|][i] == s[i];
  }

  /** The character at p does not go on with a number or name that ends here. */
  predicate Ends(text: string, p: nat) {
    var c := At(text, p);
    !IsLetter(c) && !IsDigit(c) && c != '.'
  }

  /** Lexing from pos sees the text from p on. */
  predicate Sees(text: string, pos: nat, p: nat) {
    pos <= p <= |text| && SkipBlanks(text, pos) == SkipBlanks(text, p)
  }

  lemma SkipNothing(text: string, p: nat)
    requires p <= |text| && !Blank(At(text, p))
    ensures SkipBlanks(text, p) == p
  {
  }

  lemma {:induction false} SkipSkips(text: string, pos: nat, p: nat)
    requires pos <= p <= |text| && forall k | pos <= k < p :: Blank(text[k])
    ensures SkipBlanks(text, pos) == SkipBlanks(text, p)
    decreases p - pos
  {
    if pos < p {
      SkipSkips(text, pos + 1, p);
    }
  }

  lemma RunHere(text: string, p: nat, v: nat, base: nat)
    requires 2 <= base <= 16 && Here(text, p, Digits(v, base)) && DigitValue(At(text, p + |Digits(v, base)|)) >= base
    ensures DigitRun(text, p, base) == p + |Digits(v, base)|
    ensures p < |text| && IsDigitChar(text[p], base)
  {
    hide Digits, DigitRun, DigitValue, Here;
    var d := Digits(v, base);
    forall k | p <= k < p + |d| ensures DigitValue(At(text, k)) < base {
      DigitsAreDigits(v, base, k - p);
      HereAt(text, p, d, k - p);
    }
    DigitRunEnds(text, p, p + |d|, base);
    DigitsAreDigits(v, base, 0);
    HereAt(text, p, d, 0);
  }

  lemma LexNumber(text: string, pos: nat, p: nat, v: nat)
    requires v < WORD64 && Here(text, p, Digits(v, 10)) && Sees(text, pos, p)
    requires Ends(text, p + |Digits(v, 10)|)
    ensures var e := p + |Digits(v, 10)|;
            Lex(text, State(pos, false)) == Lexeme(IntLit, p, State(e, false)) &&
            Numeral(text[p..e], 10, false, State(e, false)) == Got(Integer(v), State(e, false))
  {
    hide Digits, DigitRun, Parsed, SkipBlanks;
    var d := Digits(v, 10);
    var e := p + |d|;
    RunHere(text, p, v, 10);
    SkipNothing(text, p);
    SecondNotX(text, p, v);
    PlainRoundTrip(v, 10, "");
    assert d + "" == d;
  }

  lemma SecondNotX(text: string, p: nat, v: nat)
    requires Here(text, p, Digits(v, 10)) && Ends(text, p + |Digits(v, 10)|)
    ensures ToUpper(At(text, p + 1)) != 'X'
  {
    hide Digits;
    var d := Digits(v, 10);
    if |d| > 1 {
      DigitsAreDigits(v, 10, 1);
      HereAt(text, p, d, 1);
    }
  }

  lemma LexAddress(text: string, pos: nat, p: nat, v: nat)
    requires v < WORD64 && Here(text, p, "0x" + Digits(v, 16)) && Sees(text, pos, p)
    requires Ends(text, p + 2 + |Digits(v, 16)|)
    ensures var e := p + 2 + |Digits(v, 16)|;
            Lex(text, State(pos, false)) == Lexeme(AddrLit, p, State(e, false)) &&
            Numeral(text[p..e], 16, true, State(e, false)) == Got(Address(v), State(e, false))
  {
    hide Digits, DigitRun, Parsed, SkipBlanks;
    var d := Digits(v, 16);
    var e := p + 2 + |d|;
    HereSplit(text, p, "0x", d);
    HereAt(text, p, "0x", 0);
    HereAt(text, p, "0x", 1);
    RunHere(text, p + 2, v, 16);
    SkipNothing(text, p);
    PrefixedRoundTrip(v, "");
    assert "0x" + d + "" == "0x" + d;
  }

  lemma LexName(text: string, pos: nat, p: nat, s: string)
    requires IsName(s) && Here(text, p, s) && Sees(text, pos, p) && Ends(text, p + |s|)
    ensures Lex(text, State(pos, false)) == Lexeme(Name, p, State(p + |s|, false))
    ensures text[p..p + |s|] == s
  {
    hide SkipBlanks, DigitRun;
    forall k | p <= k < p + |s| ensures IsLetter(text[k]) || IsDigit(text[k]) {
      HereAt(text, p, s, k - p);
    }
    HereAt(text, p, s, 0);
    NameRunEnds(text, p, p + |s|);
    SkipNothing(text, p);
  }

  lemma {:induction false} NameRunEnds(text: string, p: nat, q: nat)
    requires p <= q <= |text| && Ends(text, q)
    requires forall k | p <= k < q :: IsLetter(text[k]) || IsDigit(text[k])
    ensures NameRun(text, p) == q
    decreases q - p
  {
    if p < q {
      NameRunEnds(text, p + 1, q);
    }
  }

  lemma LexPunct(text: string, pos: nat, p: nat, c: char)
    requires p < |text| && text[p] == c && c in "{},()[]<" && Sees(text, pos, p)
    ensures Lex(text, State(pos, false)) == Lexeme(Punct(c), p, State(p + 1, c == '<'))
  {
    hide SkipBlanks, DigitRun;
    SkipNothing(text, p);
  }

  lemma HerePrefix(text: string, p: nat, s: string, a: string)
    requires Here(text, p, s) && a <= s
    ensures Here(text, p, a)
  {
    assert text[p..p + |a|] == text[p..p + |s|][..|a|];
  }

  // ---------- blobs ----------

  lemma {:induction false} HexTextGrows(data: seq<byte>, i: nat, n: nat)
    requires i <= n <= |data|
    ensures HexText(data, i) <= HexText(data, n)
    decreases n - i
  {
    if i < n {
      HexTextGrows(data, i, n - 1);
    }
  }

  /** The digits of a byte are at p. */
  predicate ByteIs(text: string, p: nat, b: byte) {
    IsHex(At(text, p)) && IsHex(At(text, p + 1)) && ByteValue(text, p) == b
  }

  lemma LexByte(text: string, pos: nat, p: nat, b: byte)
    requires Here(text, p, Hex2(b)) && Sees(text, pos, p)
    ensures Lex(text, State(pos, true)) == Lexeme(ByteLit, p, State(p + 2, true))
    ensures ByteIs(text, p, b)
  {
    hide SkipBlanks, DigitRun;
    HereAt(text, p, Hex2(b), 0);
    HereAt(text, p, Hex2(b), 1);
    DigitCharIsDigit(b / 16, 16);
    DigitCharIsDigit(b % 16, 16);
    SkipNothing(text, p);
  }

  /** From byte i of a printed blob on. */
  lemma {:induction false} BytesRoundTrip(stray: bool, text: string, q: nat, data: seq<byte>, i: nat)
    requires i <= |data| && Here(text, q, HexText(data, |data|) + BlobTail(stray, |data|))
    ensures q + |HexText(data, i)| <= |text|
    ensures ReadBytes(text, State(q + |HexText(data, i)|, true), |data|, data[..i]) ==
            Got(Blob(data), State(q + |HexText(data, |data|)| + |BlobTail(stray, |data|)|, false))
    decreases |data| - i
  {
    hide Lex, SkipBlanks, Hex2, HexText, Breaks, ByteIs, ReadBytes, BlobTail, Here;
    var n := |data|;
    HereSplit(text, q, HexText(data, n), BlobTail(stray, n));
    if i == n {
      LexBlobEnd(stray, text, q + |HexText(data, n)|, n);
      assert data[..n] == data;
      NoMoreBytes(text, q + |HexText(data, n)|, data);
    } else {
      HexTextGrows(data, i + 1, n);
      HerePrefix(text, q, HexText(data, n), HexText(data, i + 1));
      ByteHere(text, q, data, i);
      BytesRoundTrip(stray, text, q, data, i + 1);
      ReadOneByte(text, q + |HexText(data, i)|, n, data[..i], data[i]);
      assert data[..i + 1] == data[..i] + [data[i]];
    }
  }

  /** The branches of the byte loop, one at a time. */
  lemma ReadOneByte(text: string, pos: nat, size: nat, data: seq<byte>, b: byte)
    requires pos <= |text| && |data| < size && Lex(text, State(pos, true)).kind == ByteLit
    requires ByteIs(text, Lex(text, State(pos, true)).start, b)
    ensures ReadBytes(text, State(pos, true), size, data) ==
            ReadBytes(text, Lex(text, State(pos, true)).st, size, data + [b])
  {
    hide Lex, ByteValue;
  }

  lemma NoMoreBytes(text: string, pos: nat, data: seq<byte>)
    requires pos <= |text| && Lex(text, State(pos, true)).kind == Punct('>')
    ensures ReadBytes(text, State(pos, true), |data|, data) == Got(Blob(data), Lex(text, State(pos, true)).st)
  {
    hide Lex;
  }

  lemma LexBlobEnd(stray: bool, text: string, p: nat, n: nat)
    requires Here(text, p, BlobTail(stray, n))
    ensures p <= |text| && Lex(text, State(p, true)).kind == Punct('>')
    ensures Lex(text, State(p, true)).st == State(p + |BlobTail(stray, n)|, false)
  {
    hide SkipBlanks, DigitRun, Cr;
    var e := p + |BlobTail(stray, n)| - 1;
    HereAt(text, p, BlobTail(stray, n), 0);
    HereAt(text, p, BlobTail(stray, n), |BlobTail(stray, n)| - 1);
    SkipSkips(text, p, e);
    SkipNothing(text, e);
  }

  function Break(i: nat): string {
    if Breaks(i) then "\n" else ""
  }

  lemma HexTextNext(data: seq<byte>, i: nat)
    requires i < |data|
    ensures HexText(data, i + 1) == HexText(data, i) + Break(i) + Hex2(data[i])
  {
  }

  lemma ByteHere(text: string, q: nat, data: seq<byte>, i: nat)
    requires i < |data| && Here(text, q, HexText(data, i + 1))
    ensures var pos, b := q + |HexText(data, i)|, q + |HexText(data, i)| + |Break(i)|;
            && b + 2 == q + |HexText(data, i + 1)| <= |text|
            && Lex(text, State(pos, true)) == Lexeme(ByteLit, b, State(b + 2, true))
            && ByteIs(text, b, data[i])
  {
    hide SkipBlanks, Lex, Hex2, HexText, ByteIs, Here;
    var h, br := HexText(data, i), Break(i);
    HexTextNext(data, i);
    HereSplit(text, q, h + br, Hex2(data[i]));
    HereSplit(text, q, h, br);
    var pos, b := q + |h|, q + |h| + |br|;
    if br != "" {
      HereAt(text, pos, br, 0);
    }
    HereAt(text, b, Hex2(data[i]), 0);
    HereAt(text, b, Hex2(data[i]), 1);
    SkipSkips(text, pos, b);
    LexByte(text, pos, b, data[i]);
  }

  // ---------- whole terms ----------

  lemma FirstChar(stray: bool, t: Term)
    requires Regular(t)
    ensures Print(stray, t) != "" && FirstOk(Print(stray, t)[0])
  {
    match t
    case Integer(v) => DigitsAreDigits(v, 10, 0);
    case _ =>
  }

  /** Not a blank and not a delimiter that a reader loop looks for. */
  predicate FirstOk(c: char) {
    !Blank(c) && c != ',' && c != ')' && c != ']' && c != '>'
  }

  lemma {:induction false} ItemsGrow(stray: bool, t: Term, i: nat, n: nat)
    requires t.List? && i <= n <= |t.elts|
    ensures ItemsText(stray, t, i) <= ItemsText(stray, t, n)
    decreases n - i
  {
    hide Print;
    if i < n {
      ItemsGrow(stray, t, i, n - 1);
    }
  }

  /** Where element i starts. */
  function ItemPos(stray: bool, t: Term, p: nat, i: nat): nat
    requires t.List? && i <= |t.elts|
  {
    p + 1 + |ItemsText(stray, t, i)| + if 0 < i < |t.elts| then 2 else 0
  }

  /** Where the parts of a printed list are. */
  lemma ListHere(stray: bool, t: Term, text: string, p: nat, m: nat)
    requires t.List? && m <= |t.elts| && Here(text, p, Print(stray, t))
    ensures Here(text, p + 1, ItemsText(stray, t, m))
    ensures var e := p + 1 + |ItemsText(stray, t, |t.elts|)|; e < |text| && text[e] == ')'
  {
    hide Print, ItemsText, Here;
    var all := ItemsText(stray, t, |t.elts|);
    ListIs(stray, t);
    HereSplit(text, p, "(" + all, ")");
    HereSplit(text, p, "(", all);
    HereAt(text, p + 1 + |all|, ")", 0);
    ItemsGrow(stray, t, m, |t.elts|);
    HerePrefix(text, p + 1, all, ItemsText(stray, t, m));
  }

  lemma ItemHere(stray: bool, t: Term, text: string, p: nat, i: nat)
    requires t.List? && i < |t.elts| && Here(text, p, Print(stray, t))
    ensures var q := ItemPos(stray, t, p, i);
            var e := q + |Print(stray, t.elts[i])|;
            && Here(text, q, Print(stray, t.elts[i])) && e < |text|
            && (if i + 1 < |t.elts| then Here(text, e, ", ") && ItemPos(stray, t, p, i + 1) == e + 2
                else text[e] == ')' && ItemPos(stray, t, p, i + 1) == e)
  {
    hide Print, ItemsText, Here;
    ListHere(stray, t, text, p, i + 1);
    ItemsAre(stray, t, i);
    HereSplit(text, p + 1, ItemsText(stray, t, i) + Comma(i), Print(stray, t.elts[i]));
    if i + 1 < |t.elts| {
      ListHere(stray, t, text, p, i + 2);
      ItemsAre(stray, t, i + 1);
      HereSplit(text, p + 1, ItemsText(stray, t, i + 1) + Comma(i + 1), Print(stray, t.elts[i + 1]));
      HereSplit(text, p + 1, ItemsText(stray, t, i + 1), Comma(i + 1));
      HereAt(text, p + 1 + |ItemsText(stray, t, i + 1)|, ", ", 0);
    }
  }

  lemma ListIs(stray: bool, t: Term)
    requires t.List?
    ensures Print(stray, t) == "(" + ItemsText(stray, t, |t.elts|) + ")"
  {
  }

  lemma ItemsAre(stray: bool, t: Term, i: nat)
    requires t.List? && i < |t.elts|
    ensures ItemsText(stray, t, i + 1) == ItemsText(stray, t, i) + Comma(i) + Print(stray, t.elts[i])
    ensures i == 0 ==> ItemsText(stray, t, i) == ""
  {
  }

  /** The comma between two elements, or none before the delimiter. */
  lemma CommaSkipped(text: string, e: nat)
    requires e < |text| && !Blank(text[e])
    ensures Here(text, e, ", ") ==> SkipComma(text, State(e, false)) == Nothing(State(e + 1, false))
    ensures Here(text, e, ", ") ==> SkipBlanks(text, e + 1) == SkipBlanks(text, e + 2)
    ensures text[e] != ',' ==> SkipComma(text, State(e, false)) == Nothing(State(e, false))
  {
    hide SkipBlanks, Lex;
    SkipNothing(text, e);
    if Here(text, e, ", ") {
      HereAt(text, e, ", ", 0);
      HereAt(text, e, ", ", 1);
      LexPunct(text, e, e, ',');
      SkipSkips(text, e + 1, e + 2);
    }
  }

  /** One element of a printed list, from a look at its first character to a look at what
      follows it. */
  lemma ItemStep(stray: bool, t: Term, text: string, p: nat, i: nat)
    requires t.List? && i < |t.elts| && WellFormed(t.elts[i]) && Here(text, p, Print(stray, t))
    ensures ItemPos(stray, t, p, i) <= |text| && ItemPos(stray, t, p, i + 1) <= |text|
    ensures ReadItems(text, State(SkipBlanks(text, ItemPos(stray, t, p, i)), false), t.elts[..i]) ==
            ReadItems(text, State(SkipBlanks(text, ItemPos(stray, t, p, i + 1)), false), t.elts[..i + 1])
    decreases t, 0, 0
  {
    hide Print, SkipBlanks, Read, Lex, SkipComma, ItemPos, Here, ReadItems;
    var q := ItemPos(stray, t, p, i);
    ItemHere(stray, t, text, p, i);
    var x := t.elts[i];
    var e := q + |Print(stray, x)|;
    WellFormedIs(x);
    ItemSeen(stray, t, text, p, i);
    AfterItem(text, e);
    RoundTrip(stray, x, text, q, q);
    CommaSkipped(text, e);
    SkipNothing(text, e);
    ReadItem(text, q, e, if text[e] == ',' then e + 1 else e, t.elts[..i], x);
    assert t.elts[..i + 1] == t.elts[..i] + [x];
  }

  lemma ItemSeen(stray: bool, t: Term, text: string, p: nat, i: nat)
    requires t.List? && i < |t.elts| && Regular(t.elts[i]) && Here(text, p, Print(stray, t))
    ensures var q := ItemPos(stray, t, p, i);
            q < |text| && SkipBlanks(text, q) == q && At(text, q) != ')' && Sees(text, q, q)
  {
    hide Print, SkipBlanks, ItemPos, Here;
    var q := ItemPos(stray, t, p, i);
    ItemHere(stray, t, text, p, i);
    FirstChar(stray, t.elts[i]);
    HereAt(text, q, Print(stray, t.elts[i]), 0);
    SkipNothing(text, q);
  }

  /** From element i of a printed list on. */
  lemma {:induction false} ItemsRoundTrip(stray: bool, t: Term, text: string, p: nat, i: nat)
    requires t.List? && WellFormed(t) && i <= |t.elts| && Here(text, p, Print(stray, t))
    ensures ItemPos(stray, t, p, i) <= |text|
    ensures ReadItems(text, State(SkipBlanks(text, ItemPos(stray, t, p, i)), false), t.elts[..i]) ==
            Got(t, State(p + |Print(stray, t)|, false))
    decreases t, 1, |t.elts| - i
  {
    hide Print, SkipBlanks, Lex, ItemPos, Here, ReadItems;
    var n := |t.elts|;
    if i == n {
      ListEnd(stray, t, text, p);
      assert t.elts[..n] == t.elts;
      NoMoreItems(text, ItemPos(stray, t, p, i), t.elts);
    } else {
      ItemStep(stray, t, text, p, i);
      ItemsRoundTrip(stray, t, text, p, i + 1);
    }
  }

  /** The branches of the element loop, one at a time. */
  lemma ReadItem(text: string, a: nat, e: nat, s: nat, items: seq<Term>, x: Term)
    requires a <= e <= s <= |text| && At(text, a) != ')'
    requires Read(text, State(a, false)) == Got(x, State(e, false))
    requires SkipComma(text, State(e, false)) == Nothing(State(s, false))
    ensures ReadItems(text, State(a, false), items) ==
            ReadItems(text, State(SkipBlanks(text, s), false), items + [x])
  {
    hide SkipBlanks, Read, SkipComma;
  }

  lemma NoMoreItems(text: string, q: nat, items: seq<Term>)
    requires q < |text| && text[q] == ')'
    requires Lex(text, State(q, false)) == Lexeme(Punct(')'), q, State(q + 1, false))
    ensures ReadItems(text, State(q, false), items) == Got(List(items), State(q + 1, false))
  {
    hide SkipBlanks, Read, SkipComma, Lex;
  }

  lemma AfterItem(text: string, e: nat)
    requires e < |text| && (Here(text, e, ", ") || text[e] == ')' || text[e] == ']')
    ensures Ends(text, e) && !Blank(text[e])
    ensures Here(text, e, ", ") ==> text[e] == ','
  {
    if Here(text, e, ", ") {
      HereAt(text, e, ", ", 0);
    }
  }

  lemma ListEnd(stray: bool, t: Term, text: string, p: nat)
    requires t.List? && Here(text, p, Print(stray, t))
    ensures var q := ItemPos(stray, t, p, |t.elts|);
            q < |text| && q + 1 == p + |Print(stray, t)| && text[q] == ')' && SkipBlanks(text, q) == q &&
            Lex(text, State(q, false)) == Lexeme(Punct(')'), q, State(q + 1, false))
  {
    hide ItemsText, Lex;
    ListIs(stray, t);
    var q := ItemPos(stray, t, p, |t.elts|);
    HereAt(text, p, Print(stray, t), |Print(stray, t)| - 1);
    LexPunct(text, q, q, ')');
  }

  lemma AtomRoundTrip(stray: bool, t: Term, text: string, pos: nat, p: nat)
    requires t.Integer? || t.Address? || t.Token?
    requires WellFormed(t) && Here(text, p, Print(stray, t)) && Sees(text, pos, p) && Ends(text, p + |Print(stray, t)|)
    ensures Read(text, State(pos, false)) == Got(t, State(p + |Print(stray, t)|, false))
  {
    hide Digits, Lex, Numeral, Here, Ends, SkipBlanks;
    match t
    case Integer(v) => LexNumber(text, pos, p, v);
    case Address(v) => LexAddress(text, pos, p, v);
    case Token(s) => LexName(text, pos, p, s);
  }

  lemma {:induction false} RoundTrip(stray: bool, t: Term, text: string, pos: nat, p: nat)
    requires WellFormed(t) && Here(text, p, Print(stray, t)) && Sees(text, pos, p) && Ends(text, p + |Print(stray, t)|)
    ensures Read(text, State(pos, false)) == Got(t, State(p + |Print(stray, t)|, false))
    decreases t, 3, 0
  {
    hide Print, Read, Here, Ends, Sees, WellFormed;
    match t
    case Integer(_) => AtomRoundTrip(stray, t, text, pos, p);
    case Address(_) => AtomRoundTrip(stray, t, text, pos, p);
    case Token(_) => AtomRoundTrip(stray, t, text, pos, p);
    case List(elts) => ListRoundTrip(stray, t, text, pos, p);
    case Array(slots) => ArrayRoundTrip(stray, t, text, pos, p);
    case Blob(data) => BlobRoundTrip(stray, t, text, pos, p);
  }

  lemma ListRoundTrip(stray: bool, t: Term, text: string, pos: nat, p: nat)
    requires t.List? && WellFormed(t) && Here(text, p, Print(stray, t)) && Sees(text, pos, p)
    ensures Read(text, State(pos, false)) == Got(t, State(p + |Print(stray, t)|, false))
    decreases t, 2, 0
  {
    hide Print, SkipBlanks, Lex, ReadItems, ItemsText;
    ListIs(stray, t);
    HereAt(text, p, Print(stray, t), 0);
    LexPunct(text, pos, p, '(');
    ItemsRoundTrip(stray, t, text, p, 0);
    NoItems(stray, t);
    assert t.elts[..0] == [];
  }

  // ---------- sized terms ----------

  /** The size in braces, and the opening delimiter behind it. */
  function SizeHead(n: nat, c: char): (h: string)
    ensures |h| == |Digits(n, 10)| + 3
  {
    "{" + Digits(n, 10) + "}" + [c]
  }

  lemma SizeHeadHere(text: string, p: nat, n: nat, c: char)
    requires Here(text, p, SizeHead(n, c))
    ensures var e := p + |SizeHead(n, c)|;
            && e <= |text| && text[p] == '{' && Here(text, p + 1, Digits(n, 10))
            && text[e - 2] == '}' && text[e - 1] == c
  {
    hide Digits, Here;
    var d := Digits(n, 10);
    HereSplit(text, p, "{" + d + "}", [c]);
    HereSplit(text, p, "{" + d, "}");
    HereSplit(text, p, "{", d);
    HereAt(text, p, "{", 0);
    HereAt(text, p + 1 + |d|, "}", 0);
    HereAt(text, p + 2 + |d|, [c], 0);
  }

  lemma SizeRoundTrip(text: string, p: nat, n: nat, c: char)
    requires n < INT_LIMIT && c in "[<" && Here(text, p, SizeHead(n, c))
    ensures var e := p + |SizeHead(n, c)|;
            && e <= |text| && text[p] == '{'
            && Read(text, State(p + 1, false)) == Got(Integer(n), State(e - 2, false))
            && Lex(text, State(e - 2, false)) == Lexeme(Punct('}'), e - 2, State(e - 1, false))
            && Lex(text, State(e - 1, false)) == Lexeme(Punct(c), e - 1, State(e, c == '<'))
  {
    hide Lex, Digits, SkipBlanks, Here, Numeral, SizeHead;
    var e := p + |SizeHead(n, c)|;
    SizeHeadHere(text, p, n, c);
    LexNumber(text, p + 1, p + 1, n);
    LexPunct(text, e - 2, e - 2, '}');
    LexPunct(text, e - 1, e - 1, c);
  }

  /** The branches of the reader, one at a time. */
  lemma ReadOpen(text: string, pos: nat, p: nat, c: char)
    requires pos <= p < |text| && Lex(text, State(pos, false)) == Lexeme(Punct(c), p, State(p + 1, false))
    ensures c == '{' ==> Read(text, State(pos, false)) == ReadSized(text, State(p + 1, false))
    ensures c == '(' ==> Read(text, State(pos, false)) == ReadItems(text, State(SkipBlanks(text, p + 1), false), [])
  {
    hide Lex, SkipBlanks, ReadSized, ReadItems;
  }

  lemma ReadBody(text: string, p: nat, e: nat, n: nat, c: char)
    requires p < e <= |text| && e >= 2 && n < INT_LIMIT && (c == '[' || c == '<')
    requires Read(text, State(p, false)) == Got(Integer(n), State(e - 2, false))
    requires Lex(text, State(e - 2, false)) == Lexeme(Punct('}'), e - 2, State(e - 1, false))
    requires Lex(text, State(e - 1, false)) == Lexeme(Punct(c), e - 1, State(e, c == '<'))
    ensures ReadSized(text, State(p, false)) == Body(text, SkipBlanks(text, e), n, c)
  {
    hide Lex, SkipBlanks, Read, ReadBytes, ReadSlots;
  }

  /** What is read behind the opening delimiter. */
  function Body(text: string, q: nat, n: nat, c: char): Outcome
    requires q <= |text|
  {
    if c == '[' then ReadSlots(text, State(q, false), n, [])
    else if At(text, q) == '>' then Got(Blob(Padded([], n)), State(q, true))
    else ReadBytes(text, State(q, true), n, [])
  }

  lemma SizedOpens(text: string, pos: nat, p: nat, n: nat, c: char)
    requires n < INT_LIMIT && (c == '[' || c == '<') && Here(text, p, SizeHead(n, c)) && Sees(text, pos, p)
    ensures p + |SizeHead(n, c)| <= |text|
    ensures Read(text, State(pos, false)) == Body(text, SkipBlanks(text, p + |SizeHead(n, c)|), n, c)
  {
    hide SkipBlanks, Lex, Read, Here, SizeHead, ReadSized, Body;
    SizeRoundTrip(text, p, n, c);
    LexPunct(text, pos, p, '{');
    ReadOpen(text, pos, p, '{');
    ReadBody(text, p + 1, p + |SizeHead(n, c)|, n, c);
  }

  lemma BlobIs(stray: bool, t: Term)
    requires t.Blob?
    ensures var n := |t.data|;
            Print(stray, t) == SizeHead(n, '<') + "\n" + (HexText(t.data, n) + BlobTail(stray, n))
  {
    hide Digits, HexText, BlobTail;
  }

  /** Where the parts of a printed blob are. */
  lemma BlobHere(stray: bool, t: Term, text: string, p: nat)
    requires t.Blob? && Here(text, p, Print(stray, t))
    ensures var n := |t.data|;
            var q := p + |SizeHead(n, '<')|;
            && Here(text, p, SizeHead(n, '<')) && q < |text| && text[q] == '\n'
            && Here(text, q + 1, HexText(t.data, n) + BlobTail(stray, n))
            && p + |Print(stray, t)| == q + 1 + |HexText(t.data, n)| + |BlobTail(stray, n)|
  {
    hide HexText, BlobTail, Here, Print, SizeHead, Digits;
    var n := |t.data|;
    BlobIs(stray, t);
    HereSplit(text, p, SizeHead(n, '<') + "\n", HexText(t.data, n) + BlobTail(stray, n));
    HereSplit(text, p, SizeHead(n, '<'), "\n");
    HereAt(text, p + |SizeHead(n, '<')|, "\n", 0);
  }

  lemma BlobRoundTrip(stray: bool, t: Term, text: string, pos: nat, p: nat)
    requires t.Blob? && WellFormed(t) && Here(text, p, Print(stray, t)) && Sees(text, pos, p)
    ensures Read(text, State(pos, false)) == Got(t, State(p + |Print(stray, t)|, false))
  {
    hide SkipBlanks, Lex, ReadBytes, HexText, BlobTail, Digits, Read, Here, Print, SizeHead;
    var n := |t.data|;
    BlobHere(stray, t, text, p);
    SizedOpens(text, pos, p, n, '<');
    var q := p + |SizeHead(n, '<')|;
    SkipSkips(text, q, q + 1);
    FirstByte(stray, text, q + 1, t.data);
    BytesRoundTrip(stray, text, q + 1, t.data, 0);
    NoBytes(t.data);
  }

  lemma NoBytes(data: seq<byte>)
    ensures HexText(data, 0) == "" && data[..0] == []
  {
  }

  lemma FirstHex(data: seq<byte>)
    requires data != []
    ensures HexText(data, 1) != "" && !Blank(HexText(data, 1)[0]) && HexText(data, 1)[0] != '>'
  {
    assert HexText(data, 0) == "";
    DigitCharIsDigit(data[0] / 16, 16);
  }

  lemma FirstByte(stray: bool, text: string, q: nat, data: seq<byte>)
    requires data != [] && Here(text, q, HexText(data, |data|) + BlobTail(stray, |data|))
    ensures q < |text| && SkipBlanks(text, q) == q && text[q] != '>'
  {
    hide SkipBlanks, Breaks, Here, HexText, Hex2, BlobTail, DigitChar;
    HereSplit(text, q, HexText(data, |data|), BlobTail(stray, |data|));
    HexTextGrows(data, 1, |data|);
    HerePrefix(text, q, HexText(data, |data|), HexText(data, 1));
    FirstHex(data);
    HereAt(text, q, HexText(data, 1), 0);
    SkipNothing(text, q);
  }

  lemma {:induction false} SlotsGrow(stray: bool, t: Term, i: nat, n: nat)
    requires t.Array? && i <= n <= |t.slots|
    ensures SlotsText(stray, t, i) <= SlotsText(stray, t, n)
    decreases n - i
  {
    hide SlotText;
    if i < n {
      SlotsGrow(stray, t, i, n - 1);
    }
  }

  /** Where slot i starts. */
  function SlotPos(stray: bool, t: Term, p: nat, i: nat): nat
    requires t.Array? && i <= Used(t.slots)
  {
    p + |SizeHead(|t.slots|, '[')| + |SlotsText(stray, t, i)| + if 0 < i < Used(t.slots) then 2 else 0
  }

  lemma ArrayIs(stray: bool, t: Term)
    requires t.Array?
    ensures Print(stray, t) == SizeHead(|t.slots|, '[') + SlotsText(stray, t, Used(t.slots)) + "]"
  {
  }

  lemma SlotsAre(stray: bool, t: Term, i: nat)
    requires t.Array? && i < |t.slots|
    ensures SlotsText(stray, t, i + 1) == SlotsText(stray, t, i) + Comma(i) + SlotText(stray, t, i)
    ensures i == 0 ==> SlotsText(stray, t, i) == ""
  {
  }

  /** Where the parts of a printed array are. */
  lemma ArrayHere(stray: bool, t: Term, text: string, p: nat, m: nat)
    requires t.Array? && m <= Used(t.slots) && Here(text, p, Print(stray, t))
    ensures var q := p + |SizeHead(|t.slots|, '[')|;
            var e := q + |SlotsText(stray, t, Used(t.slots))|;
            && Here(text, p, SizeHead(|t.slots|, '[')) && Here(text, q, SlotsText(stray, t, m))
            && e < |text| && text[e] == ']'
  {
    hide Print, SlotsText, SizeHead, Here;
    var head, all := SizeHead(|t.slots|, '['), SlotsText(stray, t, Used(t.slots));
    ArrayIs(stray, t);
    HereSplit(text, p, head + all, "]");
    HereSplit(text, p, head, all);
    HereAt(text, p + |head| + |all|, "]", 0);
    SlotsGrow(stray, t, m, Used(t.slots));
    HerePrefix(text, p + |head|, all, SlotsText(stray, t, m));
  }

  lemma SlotHere(stray: bool, t: Term, text: string, p: nat, i: nat)
    requires t.Array? && i < Used(t.slots) && Here(text, p, Print(stray, t))
    ensures var q := SlotPos(stray, t, p, i);
            var e := q + |SlotText(stray, t, i)|;
            && Here(text, q, SlotText(stray, t, i)) && e < |text|
            && (if i + 1 < Used(t.slots) then Here(text, e, ", ") && SlotPos(stray, t, p, i + 1) == e + 2
                else text[e] == ']' && SlotPos(stray, t, p, i + 1) == e)
  {
    hide Print, SlotsText, SizeHead, SlotText, Used, Here;
    var s := p + |SizeHead(|t.slots|, '[')|;
    ArrayHere(stray, t, text, p, i + 1);
    SlotsAre(stray, t, i);
    HereSplit(text, s, SlotsText(stray, t, i) + Comma(i), SlotText(stray, t, i));
    if i + 1 < Used(t.slots) {
      ArrayHere(stray, t, text, p, i + 2);
      SlotsAre(stray, t, i + 1);
      HereSplit(text, s, SlotsText(stray, t, i + 1) + Comma(i + 1), SlotText(stray, t, i + 1));
      HereSplit(text, s, SlotsText(stray, t, i + 1), Comma(i + 1));
      HereAt(text, s + |SlotsText(stray, t, i + 1)|, ", ", 0);
    }
  }

  /** One slot of a printed array. */
  lemma SlotStep(stray: bool, t: Term, text: string, p: nat, i: nat)
    requires t.Array? && i < Used(t.slots) && Here(text, p, Print(stray, t))
    requires t.slots[i].Full? ==> WellFormed(t.slots[i].term)
    ensures SlotPos(stray, t, p, i) <= |text| && SlotPos(stray, t, p, i + 1) <= |text|
    ensures ReadSlots(text, State(SkipBlanks(text, SlotPos(stray, t, p, i)), false), |t.slots|, t.slots[..i]) ==
            ReadSlots(text, State(SkipBlanks(text, SlotPos(stray, t, p, i + 1)), false), |t.slots|, t.slots[..i + 1])
    decreases t, 0, 0
  {
    hide Print, SkipBlanks, Read, Lex, SkipComma, SlotPos, Here, Used, SlotText, ReadSlots;
    var q := SlotPos(stray, t, p, i);
    SlotHere(stray, t, text, p, i);
    var e := q + |SlotText(stray, t, i)|;
    AfterItem(text, e);
    CommaSkipped(text, e);
    SkipNothing(text, e);
    if t.slots[i].Full? {
      SlotIs(stray, t, i);
      WellFormedIs(t.slots[i].term);
      FullSlot(stray, t, text, q, i);
      RoundTrip(stray, t.slots[i].term, text, q, q);
    } else {
      HoleSlot(stray, t, text, q, i);
    }
    var s := if text[e] == ',' then e + 1 else e;
    ReadSlot(text, SkipBlanks(text, q), e, s, |t.slots|, t.slots[..i], t.slots[i]);
    assert t.slots[..i + 1] == t.slots[..i] + [t.slots[i]];
  }

  lemma SlotIs(stray: bool, t: Term, i: nat)
    requires t.Array? && i < |t.slots| && t.slots[i].Full?
    ensures SlotText(stray, t, i) == Print(stray, t.slots[i].term)
  {
  }

  /** From slot i of a printed array on. */
  lemma {:induction false} SlotsRoundTrip(stray: bool, t: Term, text: string, p: nat, i: nat)
    requires t.Array? && WellFormed(t) && i <= Used(t.slots) && Here(text, p, Print(stray, t))
    ensures SlotPos(stray, t, p, i) <= |text|
    ensures ReadSlots(text, State(SkipBlanks(text, SlotPos(stray, t, p, i)), false), |t.slots|, t.slots[..i]) ==
            Got(t, State(p + |Print(stray, t)|, false))
    decreases t, 1, |t.slots| - i
  {
    hide Print, SkipBlanks, Lex, SlotPos, Here, Used, ReadSlots;
    if i == Used(t.slots) {
      ArrayEnd(stray, t, text, p);
      assert t.slots == t.slots[..i] + Holes(|t.slots| - i);
      NoMoreSlots(text, SlotPos(stray, t, p, i), t.slots, i);
    } else {
      SlotStep(stray, t, text, p, i);
      SlotsRoundTrip(stray, t, text, p, i + 1);
    }
  }

  lemma FullSlot(stray: bool, t: Term, text: string, q: nat, i: nat)
    requires t.Array? && i < |t.slots| && t.slots[i].Full? && Regular(t.slots[i].term)
    requires q + |SlotText(stray, t, i)| < |text| && Here(text, q, SlotText(stray, t, i))
    ensures SkipBlanks(text, q) == q && At(text, q) != ',' && At(text, q) != ']' && Sees(text, q, q)
  {
    hide Print, SkipBlanks, Here;
    var x := t.slots[i].term;
    FirstChar(stray, x);
    HereAt(text, q, Print(stray, x), 0);
    SkipNothing(text, q);
  }

  lemma HoleSlot(stray: bool, t: Term, text: string, q: nat, i: nat)
    requires t.Array? && i < Used(t.slots) && t.slots[i].Hole? && Here(text, q, SlotText(stray, t, i))
    requires var e := q + |SlotText(stray, t, i)|; e < |text| && !Blank(text[e])
    ensures SkipBlanks(text, q) == q + |SlotText(stray, t, i)| && i + 1 < Used(t.slots)
  {
    HereAt(text, q, " ", 0);
    SkipSkips(text, q, q + 1);
    SkipNothing(text, q + 1);
  }

  /** The branches of the slot loop, one at a time. */
  lemma ReadSlot(text: string, a: nat, e: nat, s: nat, size: nat, slots: seq<Slot>, x: Slot)
    requires a <= e <= s <= |text| && |slots| < size && At(text, a) != ']'
    requires x.Full? ==> At(text, a) != ',' && Read(text, State(a, false)) == Got(x.term, State(e, false))
    requires x.Hole? ==> a == e && At(text, a) == ','
    requires SkipComma(text, State(e, false)) == Nothing(State(s, false))
    ensures ReadSlots(text, State(a, false), size, slots) ==
            ReadSlots(text, State(SkipBlanks(text, s), false), size, slots + [x])
  {
    hide SkipBlanks, Read, SkipComma;
  }

  lemma NoMoreSlots(text: string, q: nat, slots: seq<Slot>, i: nat)
    requires q < |text| && text[q] == ']' && i <= |slots| && slots == slots[..i] + Holes(|slots| - i)
    requires Lex(text, State(q, false)) == Lexeme(Punct(']'), q, State(q + 1, false))
    ensures ReadSlots(text, State(q, false), |slots|, slots[..i]) == Got(Array(slots), State(q + 1, false))
  {
    hide SkipBlanks, Read, SkipComma, Lex;
  }

  lemma ArrayEnd(stray: bool, t: Term, text: string, p: nat)
    requires t.Array? && Here(text, p, Print(stray, t))
    ensures var q := SlotPos(stray, t, p, Used(t.slots));
            q < |text| && q + 1 == p + |Print(stray, t)| && text[q] == ']' && SkipBlanks(text, q) == q &&
            Lex(text, State(q, false)) == Lexeme(Punct(']'), q, State(q + 1, false))
  {
    hide SlotsText, Lex, SizeHead;
    ArrayIs(stray, t);
    var q := SlotPos(stray, t, p, Used(t.slots));
    HereAt(text, p, Print(stray, t), |Print(stray, t)| - 1);
    LexPunct(text, q, q, ']');
  }

  lemma FirstSlotPos(stray: bool, t: Term, p: nat)
    requires t.Array?
    ensures SlotPos(stray, t, p, 0) == p + |SizeHead(|t.slots|, '[')|
  {
    hide SizeHead, Used;
    NoItems(stray, t);
  }

  /** The size and the opening bracket of a printed array. */
  lemma ArrayOpens(stray: bool, t: Term, text: string, pos: nat, p: nat)
    requires t.Array? && |t.slots| < INT_LIMIT && Here(text, p, Print(stray, t)) && Sees(text, pos, p)
    ensures var q := SlotPos(stray, t, p, 0);
            q <= |text| && Read(text, State(pos, false)) ==
            ReadSlots(text, State(SkipBlanks(text, q), false), |t.slots|, [])
  {
    hide Print, SkipBlanks, ReadSlots, SlotsText, SizeHead, Read, Here, SlotPos;
    ArrayHere(stray, t, text, p, 0);
    FirstSlotPos(stray, t, p);
    SizedOpens(text, pos, p, |t.slots|, '[');
  }

  lemma ArrayRoundTrip(stray: bool, t: Term, text: string, pos: nat, p: nat)
    requires t.Array? && WellFormed(t) && Here(text, p, Print(stray, t)) && Sees(text, pos, p)
    ensures Read(text, State(pos, false)) == Got(t, State(p + |Print(stray, t)|, false))
    decreases t, 2, 0
  {
    hide Print, SkipBlanks, ReadSlots, Used, Read, Here, SlotPos;
    ArrayOpens(stray, t, text, pos, p);
    SlotsRoundTrip(stray, t, text, p, 0);
    assert t.slots[..0] == [];
  }

  // ---------- the main result ----------

  /** Reading at the start of a printed term gives the term and stops exactly behind it, and
      the next read starts there. */
  lemma ReadUndoesPrint(stray: bool, t: Term, rest: string)
    requires WellFormed(t) && Ends(rest, 0)
    ensures Read(Print(stray, t) + rest, State(0, false)) == Got(t, State(|Print(stray, t)|, false))
  {
    var text := Print(stray, t) + rest;
    assert At(text, |Print(stray, t)|) == At(rest, 0);
    RoundTrip(stray, t, text, 0, 0);
  }

  // ---------- empty blobs ----------

  /** An empty blob is not consumed: the reader leaves its delimiter unread and the lexer inside
      the blob, so that the next read fails. It does not matter what the flag happens to hold. */
  lemma EmptyBlobIsNotConsumed(stray: bool, text: string, pos: nat, p: nat)
    requires Here(text, p, Print(stray, Blob([]))) && Sees(text, pos, p)
    ensures var e := p + |Print(stray, Blob([]))| - 1;
            && e < |text| && Read(text, State(pos, false)) == Got(Blob([]), State(e, true))
            && At(text, e) == '>' && Next(text, State(e, true)) == State(e, true)
            && Read(text, State(e, true)) == Failed
  {
    hide SkipBlanks, Lex, HexText, BlobTail, Digits, Read, Here, Print, SizeHead, ReadSized;
    BlobHere(stray, Blob([]), text, p);
    NoBytes([]);
    SizedOpens(text, pos, p, 0, '<');
    var q := p + |SizeHead(0, '<')|;
    var e := q + |BlobTail(stray, 0)|;
    EmptyTail(stray, text, q);
    LexEnd(text, e);
    ReadFailsAtEnd(text, State(e, true));
  }

  lemma EmptyTail(stray: bool, text: string, q: nat)
    requires q < |text| && text[q] == '\n' && Here(text, q + 1, HexText([], 0) + BlobTail(stray, 0))
    ensures var e := q + |BlobTail(stray, 0)|; q < e < |text| && text[e] == '>' && SkipBlanks(text, q) == e
    ensures SkipBlanks(text, q + |BlobTail(stray, 0)|) == q + |BlobTail(stray, 0)|
  {
    hide SkipBlanks, Here;
    var t := BlobTail(stray, 0);
    assert HexText([], 0) + t == t;
    HereAt(text, q + 1, t, 0);
    HereAt(text, q + 1, t, |t| - 1);
    SkipSkips(text, q, q + |t|);
    SkipNothing(text, q + |t|);
  }

  lemma ReadFailsAtEnd(text: string, st: State)
    requires st.pos <= |text| && Lex(text, st).kind == Punct('>')
    ensures Read(text, st) == Failed
  {
    hide Lex, SkipBlanks, ReadSized, ReadItems;
  }

  lemma LexEnd(text: string, p: nat)
    requires p < |text| && text[p] == '>'
    ensures Lex(text, State(p, true)) == Lexeme(Punct('>'), p, State(p + 1, false))
  {
    hide DigitRun, SkipBlanks;
    SkipNothing(text, p);
  }

  /** A list or array with an empty blob anywhere inside cannot be read. */
  lemma {:induction false} EmptyBlobFails(stray: bool, t: Term, text: string, pos: nat, p: nat)
    requires Regular(t) && HasEmptyBlob(t) && !t.Blob?
    requires Here(text, p, Print(stray, t)) && Sees(text, pos, p)
    ensures Read(text, State(pos, false)) == Failed
    decreases t, 3, 0
  {
    match t
    case List(elts) => ListFails(stray, t, text, pos, p);
    case Array(slots) => ArrayFails(stray, t, text, pos, p);
  }

  lemma ListFails(stray: bool, t: Term, text: string, pos: nat, p: nat)
    requires t.List? && Regular(t) && HasEmptyBlob(t) && Here(text, p, Print(stray, t)) && Sees(text, pos, p)
    ensures Read(text, State(pos, false)) == Failed
    decreases t, 2, 0
  {
    hide Print, SkipBlanks, Lex, ReadItems, ItemsText, Here;
    ListIs(stray, t);
    HereAt(text, p, Print(stray, t), 0);
    LexPunct(text, pos, p, '(');
    ReadOpen(text, pos, p, '(');
    ItemsFail(stray, t, text, p, 0);
    NoItems(stray, t);
    assert t.elts[..0] == [];
  }

  /** The elements before the first one with an empty blob are read, and then the reader fails. */
  lemma {:induction false} ItemsFail(stray: bool, t: Term, text: string, p: nat, i: nat)
    requires t.List? && Regular(t) && i <= |t.elts| && Here(text, p, Print(stray, t))
    requires exists k :: i <= k < |t.elts| && HasEmptyBlob(t.elts[k])
    ensures ItemPos(stray, t, p, i) <= |text|
    ensures ReadItems(text, State(SkipBlanks(text, ItemPos(stray, t, p, i)), false), t.elts[..i]) == Failed
    decreases t, 1, |t.elts| - i
  {
    hide Print, SkipBlanks, Read, Lex, ItemPos, Here, ReadItems;
    var x, q := t.elts[i], ItemPos(stray, t, p, i);
    ItemHere(stray, t, text, p, i);
    ItemSeen(stray, t, text, p, i);
    WellFormedIs(x);
    if !HasEmptyBlob(x) {
      ItemStep(stray, t, text, p, i);
      ItemsFail(stray, t, text, p, i + 1);
    } else if x.Blob? {
      EmptyBlobIsNotConsumed(stray, text, q, q);
      StuckItems(text, q, q + |Print(stray, x)| - 1, t.elts[..i]);
    } else {
      EmptyBlobFails(stray, x, text, q, q);
      FailedItem(text, q, t.elts[..i]);
    }
  }

  lemma FailedItem(text: string, q: nat, items: seq<Term>)
    requires q <= |text| && At(text, q) != ')' && Read(text, State(q, false)) == Failed
    ensures ReadItems(text, State(q, false), items) == Failed
  {
    hide Read;
  }

  /** The element loop behind an unconsumed delimiter. */
  lemma StuckItems(text: string, q: nat, e: nat, items: seq<Term>)
    requires q < e < |text| && At(text, q) != ')' && At(text, e) == '>'
    requires Read(text, State(q, false)) == Got(Blob([]), State(e, true)) && Read(text, State(e, true)) == Failed
    requires Next(text, State(e, true)) == State(e, true)
    ensures ReadItems(text, State(q, false), items) == Failed
  {
    hide Read, SkipBlanks, Lex, Next;
    assert ReadItems(text, State(e, true), items + [Blob([])]) == Failed;
  }

  lemma ArrayFails(stray: bool, t: Term, text: string, pos: nat, p: nat)
    requires t.Array? && Regular(t) && HasEmptyBlob(t) && Here(text, p, Print(stray, t)) && Sees(text, pos, p)
    ensures Read(text, State(pos, false)) == Failed
    decreases t, 2, 0
  {
    hide Print, SkipBlanks, Lex, ReadSlots, SlotsText, SizeHead, Used, Read, Here, SlotPos;
    ArrayOpens(stray, t, text, pos, p);
    SlotsFail(stray, t, text, p, 0);
    assert t.slots[..0] == [];
  }

  lemma {:induction false} SlotsFail(stray: bool, t: Term, text: string, p: nat, i: nat)
    requires t.Array? && Regular(t) && i <= Used(t.slots) && Here(text, p, Print(stray, t))
    requires exists k :: i <= k < |t.slots| && t.slots[k].Full? && HasEmptyBlob(t.slots[k].term)
    ensures SlotPos(stray, t, p, i) <= |text|
    ensures ReadSlots(text, State(SkipBlanks(text, SlotPos(stray, t, p, i)), false), |t.slots|, t.slots[..i]) == Failed
    decreases t, 1, |t.slots| - i
  {
    hide Print, SkipBlanks, Read, Lex, SlotPos, Here, ReadSlots, SlotText, Used;
    var x, q := t.slots[i], SlotPos(stray, t, p, i);
    SlotHere(stray, t, text, p, i);
    if x.Full? {
      WellFormedIs(x.term);
      SlotIs(stray, t, i);
      FullSlot(stray, t, text, q, i);
    }
    if x.Hole? || !HasEmptyBlob(x.term) {
      SlotStep(stray, t, text, p, i);
      SlotsFail(stray, t, text, p, i + 1);
    } else if x.term.Blob? {
      EmptyBlobIsNotConsumed(stray, text, q, q);
      StuckSlots(text, q, q + |Print(stray, x.term)| - 1, |t.slots|, t.slots[..i]);
    } else {
      EmptyBlobFails(stray, x.term, text, q, q);
      FailedSlot(text, q, |t.slots|, t.slots[..i]);
    }
  }

  lemma FailedSlot(text: string, q: nat, size: nat, slots: seq<Slot>)
    requires q <= |text| && |slots| < size && At(text, q) != ']' && At(text, q) != ','
    requires Read(text, State(q, false)) == Failed
    ensures ReadSlots(text, State(q, false), size, slots) == Failed
  {
    hide Read;
  }

  lemma StuckSlots(text: string, q: nat, e: nat, size: nat, slots: seq<Slot>)
    requires q < e < |text| && |slots| < size && At(text, q) != ']' && At(text, q) != ',' && At(text, e) == '>'
    requires Read(text, State(q, false)) == Got(Blob([]), State(e, true)) && Read(text, State(e, true)) == Failed
    requires Next(text, State(e, true)) == State(e, true)
    ensures ReadSlots(text, State(q, false), size, slots) == Failed
  {
    hide Read, SkipBlanks, Lex, Next;
    assert ReadSlots(text, State(e, true), size, slots + [Full(Blob([]))]) == Failed;
  }

  /** The exact condition of the round trip: of all terms of representable size, exactly those
      without an empty blob read back, whatever the flag holds when one is printed. */
  lemma ReadUndoesPrintExactly(stray: bool, t: Term, rest: string)
    requires Regular(t) && Ends(rest, 0)
    ensures Read(Print(stray, t) + rest, State(0, false)) == Got(t, State(|Print(stray, t)|, false)) <==>
            !HasEmptyBlob(t)
  {
    hide Read, Print, Ends, Regular, Here;
    WellFormedIs(t);
    var text := Print(stray, t) + rest;
    HereIs(text, Print(stray, t));
    if !HasEmptyBlob(t) {
      ReadUndoesPrint(stray, t, rest);
    } else if t.Blob? {
      EmptyBlobIsNotConsumed(stray, text, 0, 0);
    } else {
      EmptyBlobFails(stray, t, text, 0, 0);
    }
  }

  lemma HereIs(text: string, s: string)
    requires |s| <= |text| && text[..|s|] == s
    ensures Here(text, 0, s) && Sees(text, 0, 0)
  {
  }

  // ---------- many terms in one text ----------

  /** Terms printed one after the other, each followed by an empty line. */
  function PrintAll(stray: bool, ts: seq<Term>): string {
    if ts == [] then "" else PrintAll(stray, ts[..|ts| - 1]) + (Print(stray, ts[|ts| - 1]) + "\n\n")
  }

  lemma PrintAllNext(stray: bool, ts: seq<Term>, t: Term)
    ensures PrintAll(stray, ts + [t]) == PrintAll(stray, ts) + (Print(stray, t) + "\n\n")
  {
    hide Print;
    assert (ts + [t])[..|ts|] == ts;
  }

  lemma {:induction false} PrintAllGrows(stray: bool, ts: seq<Term>, i: nat)
    requires i <= |ts|
    ensures PrintAll(stray, ts[..i]) <= PrintAll(stray, ts)
    decreases |ts| - i
  {
    hide Print;
    if i < |ts| {
      var front := ts[..|ts| - 1];
      PrintAllGrows(stray, front, i);
      assert front[..i] == ts[..i];
    } else {
      assert ts[..i] == ts;
    }
  }

  /** Where the reader stands before term i of a printed sequence that begins at p, when it
      was at pos before the first: right behind the term before. */
  function Behind(stray: bool, ts: seq<Term>, pos: nat, p: nat, i: nat): nat
    requires i <= |ts|
  {
    if i == 0 then pos else p + |PrintAll(stray, ts[..i - 1])| + |Print(stray, ts[i - 1])|
  }

  /** Where term i begins. */
  lemma TermHere(stray: bool, ts: seq<Term>, text: string, pos: nat, p: nat, i: nat)
    requires i < |ts| && Here(text, p, PrintAll(stray, ts)) && Sees(text, pos, p)
    ensures var q := p + |PrintAll(stray, ts[..i])|;
            && Here(text, q, Print(stray, ts[i])) && Sees(text, Behind(stray, ts, pos, p, i), q)
            && Here(text, q + |Print(stray, ts[i])|, "\n\n")
            && Behind(stray, ts, pos, p, i + 1) == q + |Print(stray, ts[i])|
  {
    hide Print, SkipBlanks, Here, Sees, PrintAll;
    var before := PrintAll(stray, ts[..i]);
    assert ts[..i + 1] == ts[..i] + [ts[i]];
    PrintAllNext(stray, ts[..i], ts[i]);
    PrintAllGrows(stray, ts, i + 1);
    HerePrefix(text, p, PrintAll(stray, ts), PrintAll(stray, ts[..i + 1]));
    HereSplit(text, p, before, Print(stray, ts[i]) + "\n\n");
    HereSplit(text, p + |before|, Print(stray, ts[i]), "\n\n");
    if i == 0 {
      assert before == "" by { NoTerms(stray); }
    } else {
      LineSkipped(stray, ts, text, pos, p, i);
    }
  }

  lemma NoTerms(stray: bool)
    ensures PrintAll(stray, []) == ""
  {
  }

  lemma LineSkipped(stray: bool, ts: seq<Term>, text: string, pos: nat, p: nat, i: nat)
    requires 0 < i <= |ts| && Here(text, p, PrintAll(stray, ts))
    ensures Sees(text, Behind(stray, ts, pos, p, i), p + |PrintAll(stray, ts[..i])|)
  {
    hide Print, SkipBlanks, Here, PrintAll;
    var e := Behind(stray, ts, pos, p, i);
    assert ts[..i] == ts[..i - 1] + [ts[i - 1]];
    PrintAllNext(stray, ts[..i - 1], ts[i - 1]);
    PrintAllGrows(stray, ts, i);
    HerePrefix(text, p, PrintAll(stray, ts), PrintAll(stray, ts[..i]));
    HereSplit(text, p, PrintAll(stray, ts[..i - 1]), Print(stray, ts[i - 1]) + "\n\n");
    HereSplit(text, p + |PrintAll(stray, ts[..i - 1])|, Print(stray, ts[i - 1]), "\n\n");
    HereAt(text, e, "\n\n", 0);
    HereAt(text, e, "\n\n", 1);
    SkipSkips(text, e, e + 2);
  }

  /** Each read gives the next of the printed terms, and leaves the reader behind it. */
  lemma TermReads(stray: bool, ts: seq<Term>, text: string, pos: nat, p: nat, i: nat)
    requires i < |ts| && WellFormed(ts[i]) && Here(text, p, PrintAll(stray, ts)) && Sees(text, pos, p)
    ensures Behind(stray, ts, pos, p, i) <= Behind(stray, ts, pos, p, i + 1) <= |text|
    ensures Read(text, State(Behind(stray, ts, pos, p, i), false)) ==
            Got(ts[i], State(Behind(stray, ts, pos, p, i + 1), false))
  {
    hide Print, SkipBlanks, PrintAll, Here, Read, Behind, WellFormed;
    TermHere(stray, ts, text, pos, p, i);
    var q := p + |PrintAll(stray, ts[..i])|;
    HereAt(text, q + |Print(stray, ts[i])|, "\n\n", 0);
    RoundTrip(stray, ts[i], text, Behind(stray, ts, pos, p, i), q);
  }

  /** The first n terms of a text, and where the reader stands behind them. */
  datatype Run = Run(ts: seq<Term>, st: State)

  function ReadMany(text: string, st: State, n: nat): (r: Option<Run>)
    requires st.pos <= |text|
    ensures r.Some? ==> |r.value.ts| == n && st.pos <= r.value.st.pos <= |text|
  {
    if n == 0 then Some(Run([], st))
    else
      var front := ReadMany(text, st, n - 1);
      if front.None? then None
      else
        var r := Read(text, front.value.st);
        if r.Got? then Some(Run(front.value.ts + [r.term], r.st)) else None
  }

  /** A shorter reading gives the same terms as far as it goes. */
  lemma {:induction false} ReadManyStops(text: string, st: State, i: nat, n: nat)
    requires st.pos <= |text| && i <= n
    ensures ReadMany(text, st, n).Some? ==>
              ReadMany(text, st, i).Some? && ReadMany(text, st, i).value.ts == ReadMany(text, st, n).value.ts[..i]
    decreases n - i
  {
    hide Read;
    if i < n {
      ReadManyStops(text, st, i, n - 1);
      if ReadMany(text, st, n).Some? {
        var a, b := ReadMany(text, st, n - 1).value.ts, ReadMany(text, st, n).value.ts;
        assert a[..i] == b[..i];
      }
    }
  }

  /** Terms i to i + n of a printed sequence, read from behind term i. */
  lemma {:induction false} ManyRead(stray: bool, ts: seq<Term>, text: string, pos: nat, p: nat, i: nat, n: nat)
    requires i + n <= |ts| && Here(text, p, PrintAll(stray, ts)) && Sees(text, pos, p)
    requires forall k | i <= k < i + n :: WellFormed(ts[k])
    requires Behind(stray, ts, pos, p, i) <= |text|
    ensures ReadMany(text, State(Behind(stray, ts, pos, p, i), false), n) ==
            Some(Run(ts[i..i + n], State(Behind(stray, ts, pos, p, i + n), false)))
  {
    hide Print, PrintAll, Here, Sees, Read, Behind, WellFormed;
    if n == 0 {
      assert ts[i..i] == [];
    } else {
      ManyRead(stray, ts, text, pos, p, i, n - 1);
      TermReads(stray, ts, text, pos, p, i + n - 1);
      assert ts[i..i + n] == ts[i..i + n - 1] + [ts[i + n - 1]];
    }
  }

  /** Reading terms until the text ends. */
  function ReadAll(text: string, st: State, ts: seq<Term>): (all: Option<seq<Term>>)
    requires st.pos <= |text|
    decreases |text| - st.pos
  {
    var r := Read(text, st);
    if r.Got? then ReadAll(text, r.st, ts + [r.term])
    else if r.Nothing? then Some(ts)
    else None
  }

  predicate AllRegular(ts: seq<Term>) {
    forall i | 0 <= i < |ts| :: Regular(ts[i])
  }

  predicate SomeEmptyBlob(ts: seq<Term>) {
    exists i :: 0 <= i < |ts| && HasEmptyBlob(ts[i])
  }

  lemma NoMoreTerms(stray: bool, ts: seq<Term>, text: string)
    requires text == PrintAll(stray, ts)
    ensures Behind(stray, ts, 0, 0, |ts|) <= |text|
    ensures Read(text, State(Behind(stray, ts, 0, 0, |ts|), false)).Nothing?
  {
    hide Print, Here, PrintAll, Behind;
    HereIs(text, text);
    assert ts[..|ts|] == ts;
    var b := Behind(stray, ts, 0, 0, |ts|);
    assert Sees(text, b, |text|) by {
      if ts == [] {
        FirstBehind(stray, ts, 0, 0);
        NoTerms(stray);
      } else {
        LineSkipped(stray, ts, text, 0, 0, |ts|);
      }
    }
    assert SkipBlanks(text, |text|) == |text|;
  }

  lemma FirstBehind(stray: bool, ts: seq<Term>, pos: nat, p: nat)
    ensures Behind(stray, ts, pos, p, 0) == pos
  {
  }

  /** The empty blob ends every reading, even when it is the last term. */
  lemma EmptyBlobStops(stray: bool, ts: seq<Term>, text: string, i: nat, done: seq<Term>)
    requires i < |ts| && Regular(ts[i]) && HasEmptyBlob(ts[i]) && text == PrintAll(stray, ts)
    ensures Behind(stray, ts, 0, 0, i) <= |text|
    ensures ReadAll(text, State(Behind(stray, ts, 0, 0, i), false), done) == None
  {
    hide Print, SkipBlanks, PrintAll, Here, Read, Behind, Regular, HasEmptyBlob;
    HereIs(text, text);
    TermHere(stray, ts, text, 0, 0, i);
    var q := |PrintAll(stray, ts[..i])|;
    if ts[i].Blob? {
      assert ts[i] == Blob([]) by { EmptyIs(ts[i]); }
      EmptyBlobIsNotConsumed(stray, text, Behind(stray, ts, 0, 0, i), q);
    } else {
      EmptyBlobFails(stray, ts[i], text, Behind(stray, ts, 0, 0, i), q);
    }
  }

  lemma EmptyIs(t: Term)
    requires t.Blob? && HasEmptyBlob(t)
    ensures t == Blob([])
  {
  }

  lemma {:induction false} AllFrom(stray: bool, ts: seq<Term>, text: string, i: nat)
    requires i <= |ts| && AllRegular(ts) && text == PrintAll(stray, ts)
    ensures Behind(stray, ts, 0, 0, i) <= |text|
    ensures ReadAll(text, State(Behind(stray, ts, 0, 0, i), false), ts[..i]) ==
            if SomeEmptyBlob(ts[i..]) then None else Some(ts)
    decreases |ts| - i
  {
    hide Print, SkipBlanks, PrintAll, Here, Sees, Read, Behind, Regular, HasEmptyBlob;
    if i == |ts| {
      NoMoreTerms(stray, ts, text);
      assert ts[..i] == ts;
    } else {
      EmptyFrom(ts, i);
      if HasEmptyBlob(ts[i]) {
        EmptyBlobStops(stray, ts, text, i, ts[..i]);
      } else {
        WellFormedIs(ts[i]);
        HereIs(text, text);
        TermReads(stray, ts, text, 0, 0, i);
        AllFrom(stray, ts, text, i + 1);
        assert ts[..i + 1] == ts[..i] + [ts[i]];
      }
    }
  }

  lemma EmptyFrom(ts: seq<Term>, i: nat)
    requires i < |ts|
    ensures SomeEmptyBlob(ts[i..]) <==> HasEmptyBlob(ts[i]) || SomeEmptyBlob(ts[i + 1..])
  {
    hide HasEmptyBlob;
    var a, b := ts[i..], ts[i + 1..];
    assert forall k | 0 <= k < |b| :: b[k] == a[k + 1];
    assert forall k | 0 < k < |a| :: a[k] == b[k - 1];
  }

  /** Terms printed into one text come back one after the other, all of them and no more, if
      and only if none has an empty blob anywhere inside. */
  lemma AllReadBack(stray: bool, ts: seq<Term>)
    requires AllRegular(ts)
    ensures ReadAll(PrintAll(stray, ts), State(0, false), []) == Some(ts) <==> !SomeEmptyBlob(ts)
  {
    hide PrintAll, ReadAll, SomeEmptyBlob, AllRegular, Behind;
    AllFrom(stray, ts, PrintAll(stray, ts), 0);
    FirstBehind(stray, ts, 0, 0);
    assert ts[..0] == [] && ts[0..] == ts;
  }
}
