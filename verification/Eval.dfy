/** The expression evaluator: a recursive descent over a string with a one-token peek buffer,
    against a grammar in which operators of one level group to the right. A character that
    starts no token marks the peek buffer as empty, and is passed over by the peek. */
module Eval {
  import opened Wrappers

  // ---------- values ----------

  datatype Error = UParen | NoTerm | Div0 | BadConst | BadExpr | UndefVar | Extra

  /** A value is a symbol, or a number of some numeric type. */
  datatype Value<+N> = Symbol | Num(n: N)

  datatype Result<+N> = Val(value: Value<N>) | Err(error: Error)

  /** The arithmetic on numbers, the identifiers and the numeric literals: parameters. `zero`
      is err_value. */
  datatype Env<!N> = Env(add: (N, N) -> N, sub: (N, N) -> N, mult: (N, N) -> N, div: (N, N) -> N,
                         neg: N -> N, isZero: N -> bool, zero: N,
                         ident: string -> Result<N>, literal: string -> Result<N>)

  /** f_add, f_sub, f_mult and f_div: symbols are not allowed. */
  function Binary<N>(op: (N, N) -> N, v: Value<N>, w: Value<N>): Result<N> {
    if v.Symbol? || w.Symbol? then Err(BadExpr) else Val(Num(op(v.n, w.n)))
  }

  /** f_neg. */
  function Negated<N>(env: Env<N>, v: Value<N>): Result<N> {
    if v.Symbol? then Err(BadExpr) else Val(Num(env.neg(v.n)))
  }

  /** The right operand is evaluated first; when it fails, the operation is still done, on
      err_value, and may replace the error. */
  function Combined<N>(op: (N, N) -> N, v: Value<N>, r: Result<N>, zero: N): Result<N> {
    match r
    case Val(w) => Binary(op, v, w)
    case Err(e) => if Binary(op, v, Num(zero)).Err? then Binary(op, v, Num(zero)) else Err(e)
  }

  /** A division looks at a failed or zero divisor before it looks at the dividend. */
  function Quotient<N>(env: Env<N>, v: Value<N>, r: Result<N>): Result<N> {
    match r
    case Err(e) => Err(e)
    case Val(w) => if w.Num? && env.isZero(w.n) then Err(Div0) else Binary(env.div, v, w)
  }

  // ---------- tokens ----------

  datatype Kind = Ident | Const | Plus | Minus | Mult | Div | Oparen | Cparen | Eof | Whitespace | Invalid

  /** A token, and the position behind it. */
  datatype Token = Token(kind: Kind, text: string)

  datatype Lexed = Lexed(tok: Token, end: nat)

  /** tok_map. */
  function Class(c: char): Kind {
    if 'a' <= c <= 'z' || 'A' <= c <= 'Z' || c == '_' || c == '$' then Ident
    else if '0' <= c <= '9' || c == '.' then Const
    else if c == '+' then Plus
    else if c == '-' then Minus
    else if c == '*' then Mult
    else if c == '/' then Div
    else if c == '(' then Oparen
    else if c == ')' then Cparen
    else if c == ' ' || c == '\t' then Whitespace
    else Invalid
  }

  function Lower(c: char): char {
    if 'A' <= c <= 'Z' then c + 32 as char else c
  }

  /** The characters that go on with a numeric literal. */
  predicate NumberChar(c: char, last: char, hex: bool) {
    || Class(c) == Const
    || (c == '-' && last == 'e')
    || (c == '+' && last == 'e')
    || Lower(c) == 'e' || Lower(c) == 'x'
    || (hex && 'a' <= Lower(c) <= 'f')
  }

  function SkipWhite(s: string, p: nat): (q: nat)
    requires p <= |s|
    ensures p <= q <= |s| && (q < |s| ==> Class(s[q]) != Whitespace)
    decreases |s| - p
  {
    if p < |s| && Class(s[p]) == Whitespace then SkipWhite(s, p + 1) else p
  }

  function IdentEnd(s: string, p: nat): (q: nat)
    requires p <= |s|
    ensures p <= q <= |s|
    decreases |s| - p
  {
    if p < |s| && (Class(s[p]) == Ident || Class(s[p]) == Const) then IdentEnd(s, p + 1) else p
  }

  function NumberEnd(s: string, p: nat, last: char, hex: bool): (q: nat)
    requires p <= |s|
    ensures p <= q <= |s|
    decreases |s| - p
  {
    if p < |s| && NumberChar(s[p], last, hex)
    then NumberEnd(s, p + 1, Lower(s[p]), hex || Lower(s[p]) == 'x')
    else p
  }

  /** The next token from p on. */
  function Next(s: string, p: nat): (l: Lexed)
    requires p <= |s|
    ensures p <= l.end <= |s| && (l.tok.kind != Eof ==> p < l.end) && l.tok.kind != Whitespace
  {
    var q := SkipWhite(s, p);
    if q == |s| then Lexed(Token(Eof, ""), q)
    else
      var k := Class(s[q]);
      var e := if k == Ident then IdentEnd(s, q + 1)
               else if k == Const then NumberEnd(s, q + 1, '\0', false) else q + 1;
      Lexed(Token(k, s[q..e]), e)
  }

  // ---------- the recursive descent on positions ----------

  datatype Outcome<+N> = Ok(value: Value<N>, pos: nat) | Fail(error: Error)

  function At<N>(r: Result<N>, pos: nat): Outcome<N> {
    match r
    case Val(v) => Ok(v, pos)
    case Err(e) => Fail(e)
  }

  function Plain<N>(o: Outcome<N>): Result<N> {
    match o
    case Ok(v, _) => Val(v)
    case Fail(e) => Err(e)
  }

  function Pos<N>(o: Outcome<N>): nat {
    if o.Ok? then o.pos else 0
  }

  function DoExpr<N>(env: Env<N>, s: string, p: nat): (o: Outcome<N>)
    requires p <= |s|
    ensures o.Ok? ==> p < o.pos <= |s|
    decreases |s| - p, 2
  {
    var o := DoTerm(env, s, p);
    if o.Fail? then o
    else
      var t := Next(s, o.pos);
      if t.tok.kind == Plus then
        var r := DoExpr(env, s, t.end);
        At(Combined(env.add, o.value, Plain(r), env.zero), Pos(r))
      else if t.tok.kind == Minus then
        var r := DoExpr(env, s, t.end);
        At(Combined(env.sub, o.value, Plain(r), env.zero), Pos(r))
      else Looked(o, t)
  }

  /** No operator goes on: a token stays in the peek buffer, but an invalid character is lost. */
  function Looked<N>(o: Outcome<N>, t: Lexed): Outcome<N> {
    if o.Ok? && t.tok.kind == Invalid then Ok(o.value, t.end) else o
  }

  function DoTerm<N>(env: Env<N>, s: string, p: nat): (o: Outcome<N>)
    requires p <= |s|
    ensures o.Ok? ==> p < o.pos <= |s|
    decreases |s| - p, 1
  {
    var o := DoFactor(env, s, p);
    if o.Fail? then o
    else
      var t := Next(s, o.pos);
      if t.tok.kind == Mult then
        var r := DoTerm(env, s, t.end);
        At(Combined(env.mult, o.value, Plain(r), env.zero), Pos(r))
      else if t.tok.kind == Div then
        var r := DoTerm(env, s, t.end);
        At(Quotient(env, o.value, Plain(r)), Pos(r))
      else Looked(o, t)
  }

  function DoFactor<N>(env: Env<N>, s: string, p: nat): (o: Outcome<N>)
    requires p <= |s|
    ensures o.Ok? ==> p < o.pos <= |s|
    decreases |s| - p, 0
  {
    var t := Next(s, p);
    match t.tok.kind
    case Oparen => DoParen(env, s, t.end)
    case Minus =>
      var o := DoFactor(env, s, t.end);
      if o.Fail? then o else At(Negated(env, o.value), o.pos)
    case Ident => At(env.ident(t.tok.text), t.end)
    case Const => At(env.literal(t.tok.text), t.end)
    case _ => Fail(NoTerm)
  }

  /** Behind an opening parenthesis. */
  function DoParen<N>(env: Env<N>, s: string, p: nat): (o: Outcome<N>)
    requires p <= |s|
    ensures o.Ok? ==> p < o.pos <= |s|
    decreases |s| - p, 3
  {
    var o := DoExpr(env, s, p);
    if o.Fail? then o
    else
      var t := Next(s, o.pos);
      if t.tok.kind != Cparen then Fail(UParen) else Ok(o.value, t.end)
  }

  // ---------- the grammar ----------

  /** Where no operator goes on, one invalid character may come. */
  datatype Expr = Sum(left: Term, plus: bool, right: Expr) | OneTerm(term: Term, junk: Option<string>)
  datatype Term = Prod(left: Factor, times: bool, right: Term) | OneFactor(factor: Factor, junk: Option<string>)
  datatype Factor = Paren(expr: Expr) | Neg(factor: Factor) | Name(text: string) | Literal(text: string)

  function Sign(plus: bool): Token {
    if plus then Token(Plus, "+") else Token(Minus, "-")
  }

  function Times(times: bool): Token {
    if times then Token(Mult, "*") else Token(Div, "/")
  }

  function Junk(junk: Option<string>): seq<Token> {
    if junk.Some? then [Token(Invalid, junk.value)] else []
  }

  function ExprTokens(e: Expr): seq<Token> {
    match e
    case Sum(t, plus, r) => TermTokens(t) + [Sign(plus)] + ExprTokens(r)
    case OneTerm(t, junk) => TermTokens(t) + Junk(junk)
  }

  function TermTokens(t: Term): seq<Token> {
    match t
    case Prod(f, times, r) => FactorTokens(f) + [Times(times)] + TermTokens(r)
    case OneFactor(f, junk) => FactorTokens(f) + Junk(junk)
  }

  function FactorTokens(f: Factor): seq<Token> {
    match f
    case Paren(e) => [Token(Oparen, "(")] + ExprTokens(e) + [Token(Cparen, ")")]
    case Neg(g) => [Token(Minus, "-")] + FactorTokens(g)
    case Name(x) => [Token(Ident, x)]
    case Literal(x) => [Token(Const, x)]
  }

  /** A token that makes a term, or an expression, longer. */
  predicate GoesOn(k: Kind, expr: bool) {
    k == Invalid || if expr then k == Plus || k == Minus else k == Mult || k == Div
  }

  /** The sentence ends in front of a token of this kind, and its parts end where they do. */
  predicate ExprEnds(e: Expr, k: Kind) {
    match e
    case Sum(t, plus, r) => TermEnds(t, Sign(plus).kind) && ExprEnds(r, k)
    case OneTerm(t, junk) => if junk.Some? then TermEnds(t, Invalid) else TermEnds(t, k) && !GoesOn(k, true)
  }

  predicate TermEnds(t: Term, k: Kind) {
    match t
    case Prod(f, times, r) => FactorEnds(f) && TermEnds(r, k)
    case OneFactor(f, junk) => FactorEnds(f) && (junk.Some? || !GoesOn(k, false))
  }

  predicate FactorEnds(f: Factor) {
    match f
    case Paren(e) => ExprEnds(e, Cparen)
    case Neg(g) => FactorEnds(g)
    case _ => true
  }

  function ExprValue<N>(env: Env<N>, e: Expr): Result<N> {
    match e
    case Sum(t, plus, r) =>
      var v := TermValue(env, t);
      if v.Err? then v
      else Combined(if plus then env.add else env.sub, v.value, ExprValue(env, r), env.zero)
    case OneTerm(t, _) => TermValue(env, t)
  }

  function TermValue<N>(env: Env<N>, t: Term): Result<N> {
    match t
    case Prod(f, times, r) =>
      var v := FactorValue(env, f);
      if v.Err? then v
      else if times then Combined(env.mult, v.value, TermValue(env, r), env.zero)
      else Quotient(env, v.value, TermValue(env, r))
    case OneFactor(f, _) => FactorValue(env, f)
  }

  function FactorValue<N>(env: Env<N>, f: Factor): Result<N> {
    match f
    case Paren(e) => ExprValue(env, e)
    case Neg(g) =>
      var v := FactorValue(env, g);
      if v.Err? then v else Negated(env, v.value)
    case Name(x) => env.ident(x)
    case Literal(x) => env.literal(x)
  }

  // ---------- tokens in the text ----------

  /** The position behind these tokens, if they are what comes from p on. */
  function Behind(s: string, p: nat, toks: seq<Token>): (r: Option<nat>)
    requires p <= |s|
    ensures r.Some? ==> p <= r.value <= |s|
    decreases |toks|
  {
    if toks == [] then Some(p)
    else if Next(s, p).tok != toks[0] then None
    else Behind(s, Next(s, p).end, toks[1..])
  }

  lemma {:induction false} BehindSplits(s: string, p: nat, a: seq<Token>, b: seq<Token>)
    requires p <= |s|
    ensures Behind(s, p, a + b) ==
            match Behind(s, p, a)
            case None => None
            case Some(m) => Behind(s, m, b)
    decreases |a|
  {
    hide Next;
    if a == [] {
      assert a + b == b;
    } else {
      assert (a + b)[1..] == a[1..] + b;
      if Next(s, p).tok == a[0] {
        BehindSplits(s, Next(s, p).end, a[1..], b);
      }
    }
  }

  lemma BehindOne(s: string, p: nat, t: Token)
    requires p <= |s|
    ensures Behind(s, p, [t]) == if Next(s, p).tok == t then Some(Next(s, p).end) else None
  {
    hide Next;
    assert [t][1..] == [];
  }

  /** Operators and parentheses have one spelling. */
  lemma Spelling(s: string, p: nat)
    requires p <= |s|
    ensures var t := Next(s, p).tok;
            && (t.kind == Plus ==> t.text == "+") && (t.kind == Minus ==> t.text == "-")
            && (t.kind == Mult ==> t.text == "*") && (t.kind == Div ==> t.text == "/")
            && (t.kind == Oparen ==> t.text == "(") && (t.kind == Cparen ==> t.text == ")")
  {
    var q := SkipWhite(s, p);
    if q < |s| {
      assert s[q..q + 1] == [s[q]];
    }
  }

  lemma BehindJunk(s: string, p: nat, toks: seq<Token>, junk: Option<string>)
    requires p <= |s|
    ensures Behind(s, p, toks + Junk(junk)) ==
            match Behind(s, p, toks)
            case None => None
            case Some(m) =>
              if junk.None? then Some(m)
              else if Next(s, m).tok == Token(Invalid, junk.value) then Some(Next(s, m).end) else None
  {
    hide Next;
    BehindSplits(s, p, toks, Junk(junk));
    if Behind(s, p, toks).Some? && junk.Some? {
      BehindOne(s, Behind(s, p, toks).value, Token(Invalid, junk.value));
    }
  }

  /** Three parts, the second of one token. */
  lemma BehindThree(s: string, p: nat, a: seq<Token>, t: Token, b: seq<Token>)
    requires p <= |s|
    ensures Behind(s, p, a + [t] + b) ==
            match Behind(s, p, a)
            case None => None
            case Some(m) => if Next(s, m).tok == t then Behind(s, Next(s, m).end, b) else None
  {
    hide Next;
    BehindSplits(s, p, a + [t], b);
    BehindSplits(s, p, a, [t]);
    if Behind(s, p, a).Some? {
      BehindOne(s, Behind(s, p, a).value, t);
    }
  }

  // ---------- every sentence of the grammar gets its value ----------

  /** Tokens that are a sentence, up to where nothing goes on with it, evaluate to its value or
      its error, and the descent stops exactly behind the last of them. */
  lemma {:induction false} ExprComplete<N>(env: Env<N>, s: string, p: nat, e: Expr, q: nat)
    requires p <= |s| && Behind(s, p, ExprTokens(e)) == Some(q) && ExprEnds(e, Next(s, q).tok.kind)
    ensures DoExpr(env, s, p) == At(ExprValue(env, e), q)
    decreases e
  {
    hide Next, Behind, DoTerm, TermTokens, TermEnds;
    match e
    case OneTerm(t, junk) =>
      BehindJunk(s, p, TermTokens(t), junk);
      TermComplete(env, s, p, t, Behind(s, p, TermTokens(t)).value);
    case Sum(t, plus, r) =>
      BehindThree(s, p, TermTokens(t), Sign(plus), ExprTokens(r));
      var m := Behind(s, p, TermTokens(t)).value;
      TermComplete(env, s, p, t, m);
      ExprComplete(env, s, Next(s, m).end, r, q);
  }

  lemma {:induction false} TermComplete<N>(env: Env<N>, s: string, p: nat, t: Term, q: nat)
    requires p <= |s| && Behind(s, p, TermTokens(t)) == Some(q) && TermEnds(t, Next(s, q).tok.kind)
    ensures DoTerm(env, s, p) == At(TermValue(env, t), q)
    decreases t
  {
    hide Next, Behind, DoFactor, FactorTokens, FactorEnds;
    match t
    case OneFactor(f, junk) =>
      BehindJunk(s, p, FactorTokens(f), junk);
      FactorComplete(env, s, p, f, Behind(s, p, FactorTokens(f)).value);
    case Prod(f, times, r) =>
      BehindThree(s, p, FactorTokens(f), Times(times), TermTokens(r));
      var m := Behind(s, p, FactorTokens(f)).value;
      FactorComplete(env, s, p, f, m);
      TermComplete(env, s, Next(s, m).end, r, q);
  }

  lemma {:induction false} FactorComplete<N>(env: Env<N>, s: string, p: nat, f: Factor, q: nat)
    requires p <= |s| && Behind(s, p, FactorTokens(f)) == Some(q) && FactorEnds(f)
    ensures DoFactor(env, s, p) == At(FactorValue(env, f), q)
    decreases f
  {
    hide Next, Behind, DoExpr, ExprTokens, ExprEnds;
    match f
    case Name(x) => BehindOne(s, p, Token(Ident, x));
    case Literal(x) => BehindOne(s, p, Token(Const, x));
    case Neg(g) =>
      BehindSplits(s, p, [Token(Minus, "-")], FactorTokens(g));
      BehindOne(s, p, Token(Minus, "-"));
      FactorComplete(env, s, Next(s, p).end, g, q);
    case Paren(e) =>
      var open, close := Token(Oparen, "("), Token(Cparen, ")");
      BehindSplits(s, p, [open] + ExprTokens(e), [close]);
      BehindSplits(s, p, [open], ExprTokens(e));
      BehindOne(s, p, open);
      var m := Behind(s, Next(s, p).end, ExprTokens(e)).value;
      BehindOne(s, m, close);
      ExprComplete(env, s, Next(s, p).end, e, m);
  }

  // ---------- and nothing else gets one ----------

  /** The invalid character at m, if there is one. */
  function JunkAt(s: string, m: nat): Option<string>
    requires m <= |s|
  {
    if Next(s, m).tok.kind == Invalid then Some(Next(s, m).tok.text) else None
  }

  lemma {:induction false} ExprSound<N>(env: Env<N>, s: string, p: nat) returns (e: Expr)
    requires p <= |s| && DoExpr(env, s, p).Ok?
    ensures var o := DoExpr(env, s, p);
            && Behind(s, p, ExprTokens(e)) == Some(o.pos) && ExprValue(env, e) == Val(o.value)
            && ExprEnds(e, Next(s, o.pos).tok.kind)
    decreases |s| - p, 2
  {
    hide Next, Behind, DoTerm, TermTokens, TermValue, Binary, TermEnds;
    var t := TermSound(env, s, p);
    var m := DoTerm(env, s, p).pos;
    var n := Next(s, m);
    Spelling(s, m);
    if n.tok.kind == Plus || n.tok.kind == Minus {
      var r := ExprSound(env, s, n.end);
      e := Sum(t, n.tok.kind == Plus, r);
      BehindThree(s, p, TermTokens(t), n.tok, ExprTokens(r));
    } else {
      e := OneTerm(t, JunkAt(s, m));
      BehindJunk(s, p, TermTokens(t), JunkAt(s, m));
    }
  }

  lemma {:induction false} TermSound<N>(env: Env<N>, s: string, p: nat) returns (t: Term)
    requires p <= |s| && DoTerm(env, s, p).Ok?
    ensures var o := DoTerm(env, s, p);
            && Behind(s, p, TermTokens(t)) == Some(o.pos) && TermValue(env, t) == Val(o.value)
            && TermEnds(t, Next(s, o.pos).tok.kind)
    decreases |s| - p, 1
  {
    hide Next, Behind, DoFactor, FactorTokens, FactorValue, Binary, FactorEnds;
    var f := FactorSound(env, s, p);
    var m := DoFactor(env, s, p).pos;
    var n := Next(s, m);
    Spelling(s, m);
    if n.tok.kind == Mult || n.tok.kind == Div {
      var r := TermSound(env, s, n.end);
      t := Prod(f, n.tok.kind == Mult, r);
      BehindThree(s, p, FactorTokens(f), n.tok, TermTokens(r));
    } else {
      t := OneFactor(f, JunkAt(s, m));
      BehindJunk(s, p, FactorTokens(f), JunkAt(s, m));
    }
  }

  lemma {:induction false} FactorSound<N>(env: Env<N>, s: string, p: nat) returns (f: Factor)
    requires p <= |s| && DoFactor(env, s, p).Ok?
    ensures var o := DoFactor(env, s, p);
            Behind(s, p, FactorTokens(f)) == Some(o.pos) && FactorValue(env, f) == Val(o.value) && FactorEnds(f)
    decreases |s| - p, 0
  {
    hide Next, Behind, DoExpr, ExprTokens, ExprValue, ExprEnds;
    var t := Next(s, p);
    Spelling(s, p);
    BehindOne(s, p, t.tok);
    match t.tok.kind
    case Oparen =>
      var e := ExprSound(env, s, t.end);
      var m := DoExpr(env, s, t.end).pos;
      f := Paren(e);
      Spelling(s, m);
      BehindOne(s, m, Token(Cparen, ")"));
      BehindSplits(s, p, [t.tok] + ExprTokens(e), [Token(Cparen, ")")]);
      BehindSplits(s, p, [t.tok], ExprTokens(e));
    case Minus =>
      var g := FactorSound(env, s, t.end);
      f := Neg(g);
      BehindSplits(s, p, [t.tok], FactorTokens(g));
    case Ident => f := Name(t.tok.text);
    case Const => f := Literal(t.tok.text);
  }

  /** A sentence of the grammar, from p to q, which nothing goes on with. */
  ghost predicate Sentence(s: string, p: nat, e: Expr, q: nat)
    requires p <= |s|
  {
    Behind(s, p, ExprTokens(e)) == Some(q) && ExprEnds(e, Next(s, q).tok.kind)
  }

  /** The evaluation succeeds with a value, stopping at q, exactly for the sentences that end at
      q and have that value. */
  lemma EvaluationIsTheGrammar<N>(env: Env<N>, s: string, p: nat, v: Value<N>, q: nat)
    requires p <= |s|
    ensures DoExpr(env, s, p) == Ok(v, q) <==> exists e :: Sentence(s, p, e, q) && ExprValue(env, e) == Val(v)
  {
    hide Next, Behind, DoExpr, ExprTokens, ExprValue, ExprEnds;
    if DoExpr(env, s, p) == Ok(v, q) {
      var e := ExprSound(env, s, p);
      assert Sentence(s, p, e, q);
    }
    if exists e :: Sentence(s, p, e, q) && ExprValue(env, e) == Val(v) {
      var e :| Sentence(s, p, e, q) && ExprValue(env, e) == Val(v);
      ExprComplete(env, s, p, e, q);
    }
  }

  /** t - u - w is t - (u - w), for all terms. */
  lemma MinusGroupsRight<N>(env: Env<N>, s: string, p: nat, q: nat, t: Term, u: Term, w: Term, x: N, y: N, z: N)
    requires p <= |s| && Sentence(s, p, Sum(t, false, Sum(u, false, OneTerm(w, None))), q)
    requires TermValue(env, t) == Val(Num(x)) && TermValue(env, u) == Val(Num(y)) && TermValue(env, w) == Val(Num(z))
    ensures DoExpr(env, s, p) == Ok(Num(env.sub(x, env.sub(y, z))), q)
  {
    hide Next, Behind, DoExpr, TermValue, ExprTokens, ExprEnds;
    ExprComplete(env, s, p, Sum(t, false, Sum(u, false, OneTerm(w, None))), q);
    assert ExprValue(env, Sum(u, false, OneTerm(w, None))) == Val(Num(env.sub(y, z)));
  }

  /** f / g / h is f / (g / h), unless a divisor is zero. */
  lemma QuotientGroupsRight<N>(env: Env<N>, s: string, p: nat, q: nat, f: Factor, g: Factor, h: Factor,
                               x: N, y: N, z: N)
    requires p <= |s| && Sentence(s, p, OneTerm(Prod(f, false, Prod(g, false, OneFactor(h, None))), None), q)
    requires FactorValue(env, f) == Val(Num(x)) && FactorValue(env, g) == Val(Num(y))
    requires FactorValue(env, h) == Val(Num(z))
    ensures DoExpr(env, s, p) == if env.isZero(z) || env.isZero(env.div(y, z)) then Fail(Div0)
                                 else Ok(Num(env.div(x, env.div(y, z))), q)
  {
    hide Next, Behind, DoExpr, FactorValue, ExprTokens, ExprEnds;
    var right := Prod(g, false, OneFactor(h, None));
    ExprComplete(env, s, p, OneTerm(Prod(f, false, right), None), q);
    assert TermValue(env, right) == if env.isZero(z) then Err(Div0) else Val(Num(env.div(y, z)));
    assert TermValue(env, Prod(f, false, right)) == ExprValue(env, OneTerm(Prod(f, false, right), None));
  }

  // ---------- invalid characters ----------

  /** Between a factor and the operator of a sum, an invalid character is ignored. */
  lemma JunkBeforeSum<N>(env: Env<N>, s: string, p: nat, f: Factor, c: string, plus: bool, e: Expr, q: nat)
    requires p <= |s| && Sentence(s, p, Sum(OneFactor(f, Some(c)), plus, e), q)
    ensures DoExpr(env, s, p) == At(ExprValue(env, Sum(OneFactor(f, None), plus, e)), q)
  {
    hide Next, Behind, DoExpr, ExprTokens, ExprEnds, FactorValue;
    ExprComplete(env, s, p, Sum(OneFactor(f, Some(c)), plus, e), q);
    assert TermValue(env, OneFactor(f, Some(c))) == TermValue(env, OneFactor(f, None));
  }

  /** In front of the operator of a product it ends the expression. */
  lemma JunkBeforeProduct<N>(env: Env<N>, s: string, p: nat, f: Factor, c: string, m: nat)
    requires p <= |s| && Behind(s, p, FactorTokens(f) + [Token(Invalid, c)]) == Some(m) && FactorEnds(f)
    requires Next(s, m).tok.kind == Mult || Next(s, m).tok.kind == Div
    ensures DoExpr(env, s, p) == At(FactorValue(env, f), m)
  {
    hide Next, Behind, DoExpr, FactorTokens, FactorEnds, FactorValue;
    var e := OneTerm(OneFactor(f, Some(c)), None);
    assert TermTokens(OneFactor(f, Some(c))) + [] == FactorTokens(f) + [Token(Invalid, c)];
    assert ExprTokens(e) == FactorTokens(f) + [Token(Invalid, c)];
    ExprComplete(env, s, p, e, m);
    assert ExprValue(env, e) == FactorValue(env, f);
  }

  /** At the end of a string, two invalid characters count as part of the expression. */
  lemma JunkAtEnd<N>(env: Env<N>, s: string, p: nat, f: Factor, c: string, d: string)
    requires p <= |s| && FactorEnds(f)
    requires Behind(s, p, FactorTokens(f) + [Token(Invalid, c)] + [Token(Invalid, d)]) == Some(|s|)
    ensures DoExpr(env, s, p) == At(FactorValue(env, f), |s|)
  {
    hide Next, Behind, DoExpr, FactorTokens, FactorEnds, FactorValue;
    var e := OneTerm(OneFactor(f, Some(c)), Some(d));
    assert ExprTokens(e) == FactorTokens(f) + [Token(Invalid, c)] + [Token(Invalid, d)];
    ExprComplete(env, s, p, e, |s|);
    assert ExprValue(env, e) == FactorValue(env, f);
  }

  // ---------- errors ----------

  /** A derivation that is stuck: a factor is expected where no token begins one, or a
      parenthesis is not closed. The parts to the left of the place are complete. */
  datatype StuckExpr = InTerm(term: StuckTerm) | SumRight(left: Term, plus: bool, right: StuckExpr)
  datatype StuckTerm = InFactor(factor: StuckFactor) | ProdRight(left: Factor, times: bool, right: StuckTerm)
  datatype StuckFactor = NoFactor | Unclosed(expr: Expr) | InParen(stuck: StuckExpr) | InNeg(factor: StuckFactor)

  /** The derivation describes the tokens from p on, up to where it is stuck. */
  predicate ExprStuck(s: string, p: nat, b: StuckExpr)
    requires p <= |s|
    decreases b
  {
    match b
    case InTerm(t) => TermStuck(s, p, t)
    case SumRight(t, plus, r) =>
      var m := Behind(s, p, TermTokens(t) + [Sign(plus)]);
      TermEnds(t, Sign(plus).kind) && m.Some? && ExprStuck(s, m.value, r)
  }

  predicate TermStuck(s: string, p: nat, b: StuckTerm)
    requires p <= |s|
    decreases b
  {
    match b
    case InFactor(f) => FactorStuck(s, p, f)
    case ProdRight(f, times, r) =>
      var m := Behind(s, p, FactorTokens(f) + [Times(times)]);
      FactorEnds(f) && m.Some? && TermStuck(s, m.value, r)
  }

  predicate Begins(k: Kind) {
    k == Oparen || k == Minus || k == Ident || k == Const
  }

  predicate FactorStuck(s: string, p: nat, b: StuckFactor)
    requires p <= |s|
    decreases b
  {
    var t := Next(s, p);
    match b
    case NoFactor => !Begins(t.tok.kind)
    case InNeg(g) => t.tok.kind == Minus && FactorStuck(s, t.end, g)
    case InParen(e) => t.tok.kind == Oparen && ExprStuck(s, t.end, e)
    case Unclosed(e) =>
      t.tok.kind == Oparen &&
      var q := Behind(s, t.end, ExprTokens(e));
      q.Some? && ExprEnds(e, Next(s, q.value).tok.kind) && Next(s, q.value).tok.kind != Cparen
  }

  /** The error that comes out: an error further left comes first, and a symbol to the left of
      a sum, difference or product makes the expression badly formed. */
  function ExprError<N>(env: Env<N>, b: StuckExpr): Error {
    match b
    case InTerm(t) => TermError(env, t)
    case SumRight(t, _, r) =>
      match TermValue(env, t)
      case Err(e) => e
      case Val(v) => if v.Symbol? then BadExpr else ExprError(env, r)
  }

  function TermError<N>(env: Env<N>, b: StuckTerm): Error {
    match b
    case InFactor(f) => FactorError(env, f)
    case ProdRight(f, times, r) =>
      match FactorValue(env, f)
      case Err(e) => e
      case Val(v) => if times && v.Symbol? then BadExpr else TermError(env, r)
  }

  function FactorError<N>(env: Env<N>, b: StuckFactor): Error {
    match b
    case NoFactor => NoTerm
    case InNeg(g) => FactorError(env, g)
    case InParen(e) => ExprError(env, e)
    case Unclosed(e) =>
      match ExprValue(env, e)
      case Err(err) => err
      case Val(_) => UParen
  }

  lemma {:induction false} ExprStuckFails<N>(env: Env<N>, s: string, p: nat, b: StuckExpr)
    requires p <= |s| && ExprStuck(s, p, b)
    ensures DoExpr(env, s, p) == Fail(ExprError(env, b))
    decreases b
  {
    hide Next, Behind, DoTerm, TermTokens, TermEnds, TermStuck, TermValue, TermError;
    match b
    case InTerm(t) => TermStuckFails(env, s, p, t);
    case SumRight(t, plus, r) =>
      BehindSplits(s, p, TermTokens(t), [Sign(plus)]);
      var m := Behind(s, p, TermTokens(t)).value;
      BehindOne(s, m, Sign(plus));
      TermComplete(env, s, p, t, m);
      ExprStuckFails(env, s, Next(s, m).end, r);
  }

  lemma {:induction false} TermStuckFails<N>(env: Env<N>, s: string, p: nat, b: StuckTerm)
    requires p <= |s| && TermStuck(s, p, b)
    ensures DoTerm(env, s, p) == Fail(TermError(env, b))
    decreases b
  {
    hide Next, Behind, DoFactor, FactorTokens, FactorEnds, FactorStuck, FactorValue, FactorError;
    match b
    case InFactor(f) => FactorStuckFails(env, s, p, f);
    case ProdRight(f, times, r) =>
      BehindSplits(s, p, FactorTokens(f), [Times(times)]);
      var m := Behind(s, p, FactorTokens(f)).value;
      BehindOne(s, m, Times(times));
      FactorComplete(env, s, p, f, m);
      TermStuckFails(env, s, Next(s, m).end, r);
  }

  lemma {:induction false} FactorStuckFails<N>(env: Env<N>, s: string, p: nat, b: StuckFactor)
    requires p <= |s| && FactorStuck(s, p, b)
    ensures DoFactor(env, s, p) == Fail(FactorError(env, b))
    decreases b
  {
    hide Next, Behind, DoExpr, ExprTokens, ExprEnds, ExprStuck, ExprValue, ExprError;
    match b
    case NoFactor =>
    case InNeg(g) => FactorStuckFails(env, s, Next(s, p).end, g);
    case InParen(e) => ExprStuckFails(env, s, Next(s, p).end, e);
    case Unclosed(e) => ExprComplete(env, s, Next(s, p).end, e, Behind(s, Next(s, p).end, ExprTokens(e)).value);
  }

  /** What is at p: a sentence, or a stuck derivation. */
  datatype Parse<+E, +B> = Whole(whole: E, end: nat) | Stuck(stuck: B)

  lemma {:induction false} ExprParses(s: string, p: nat) returns (x: Parse<Expr, StuckExpr>)
    requires p <= |s|
    ensures match x
            case Whole(e, q) => p < q && Behind(s, p, ExprTokens(e)) == Some(q) && ExprEnds(e, Next(s, q).tok.kind)
            case Stuck(b) => ExprStuck(s, p, b)
    decreases |s| - p, 2
  {
    hide Next, Behind, TermTokens, TermEnds, TermStuck;
    var t := TermParses(s, p);
    if t.Stuck? {
      return Stuck(InTerm(t.stuck));
    }
    var n := Next(s, t.end);
    Spelling(s, t.end);
    if n.tok.kind == Plus || n.tok.kind == Minus {
      var r := ExprParses(s, n.end);
      BehindThree(s, p, TermTokens(t.whole), n.tok, []);
      NothingBehind(s, n.end, TermTokens(t.whole) + [n.tok]);
      if r.Whole? {
        BehindThree(s, p, TermTokens(t.whole), n.tok, ExprTokens(r.whole));
        return Whole(Sum(t.whole, n.tok.kind == Plus, r.whole), r.end);
      }
      return Stuck(SumRight(t.whole, n.tok.kind == Plus, r.stuck));
    }
    BehindJunk(s, p, TermTokens(t.whole), JunkAt(s, t.end));
    x := Whole(OneTerm(t.whole, JunkAt(s, t.end)), if n.tok.kind == Invalid then n.end else t.end);
  }

  lemma NothingBehind(s: string, p: nat, toks: seq<Token>)
    requires p <= |s|
    ensures Behind(s, p, []) == Some(p) && toks + [] == toks
  {
  }

  lemma {:induction false} TermParses(s: string, p: nat) returns (x: Parse<Term, StuckTerm>)
    requires p <= |s|
    ensures match x
            case Whole(t, q) => p < q && Behind(s, p, TermTokens(t)) == Some(q) && TermEnds(t, Next(s, q).tok.kind)
            case Stuck(b) => TermStuck(s, p, b)
    decreases |s| - p, 1
  {
    hide Next, Behind, FactorTokens, FactorEnds, FactorStuck;
    var f := FactorParses(s, p);
    if f.Stuck? {
      return Stuck(InFactor(f.stuck));
    }
    var n := Next(s, f.end);
    Spelling(s, f.end);
    if n.tok.kind == Mult || n.tok.kind == Div {
      var r := TermParses(s, n.end);
      BehindThree(s, p, FactorTokens(f.whole), n.tok, []);
      NothingBehind(s, n.end, FactorTokens(f.whole) + [n.tok]);
      if r.Whole? {
        BehindThree(s, p, FactorTokens(f.whole), n.tok, TermTokens(r.whole));
        return Whole(Prod(f.whole, n.tok.kind == Mult, r.whole), r.end);
      }
      return Stuck(ProdRight(f.whole, n.tok.kind == Mult, r.stuck));
    }
    BehindJunk(s, p, FactorTokens(f.whole), JunkAt(s, f.end));
    x := Whole(OneFactor(f.whole, JunkAt(s, f.end)), if n.tok.kind == Invalid then n.end else f.end);
  }

  lemma {:induction false} FactorParses(s: string, p: nat) returns (x: Parse<Factor, StuckFactor>)
    requires p <= |s|
    ensures match x
            case Whole(f, q) => p < q && Behind(s, p, FactorTokens(f)) == Some(q) && FactorEnds(f)
            case Stuck(b) => FactorStuck(s, p, b)
    decreases |s| - p, 0
  {
    hide Next, Behind, ExprTokens, ExprEnds, ExprStuck;
    var t := Next(s, p);
    Spelling(s, p);
    BehindOne(s, p, t.tok);
    match t.tok.kind
    case Oparen =>
      var e := ExprParses(s, t.end);
      if e.Stuck? {
        return Stuck(InParen(e.stuck));
      }
      var c := Next(s, e.end);
      if c.tok.kind != Cparen {
        return Stuck(Unclosed(e.whole));
      }
      Spelling(s, e.end);
      BehindOne(s, e.end, c.tok);
      BehindSplits(s, p, [t.tok] + ExprTokens(e.whole), [c.tok]);
      BehindSplits(s, p, [t.tok], ExprTokens(e.whole));
      x := Whole(Paren(e.whole), c.end);
    case Minus =>
      var g := FactorParses(s, t.end);
      if g.Stuck? {
        return Stuck(InNeg(g.stuck));
      }
      BehindSplits(s, p, [t.tok], FactorTokens(g.whole));
      x := Whole(Neg(g.whole), g.end);
    case Ident => x := Whole(Name(t.tok.text), t.end);
    case Const => x := Whole(Literal(t.tok.text), t.end);
    case _ => x := Stuck(NoFactor);
  }

  /** The evaluation fails with an error exactly for the sentences that have the error, and for
      the stuck derivations that make it. */
  lemma EvaluationFailsAsTheGrammar<N>(env: Env<N>, s: string, p: nat, err: Error)
    requires p <= |s|
    ensures DoExpr(env, s, p) == Fail(err) <==>
            || (exists e, q :: Sentence(s, p, e, q) && ExprValue(env, e) == Err(err))
            || (exists b :: ExprStuck(s, p, b) && ExprError(env, b) == err)
  {
    hide Next, Behind, DoExpr, ExprTokens, ExprValue, ExprEnds, ExprStuck, ExprError;
    var x := ExprParses(s, p);
    if x.Whole? {
      assert Sentence(s, p, x.whole, x.end);
      ExprComplete(env, s, p, x.whole, x.end);
    } else {
      ExprStuckFails(env, s, p, x.stuck);
    }
    if exists e, q :: Sentence(s, p, e, q) && ExprValue(env, e) == Err(err) {
      var e, q :| Sentence(s, p, e, q) && ExprValue(env, e) == Err(err);
      ExprComplete(env, s, p, e, q);
    }
    if exists b :: ExprStuck(s, p, b) && ExprError(env, b) == err {
      var b :| ExprStuck(s, p, b) && ExprError(env, b) == err;
      ExprStuckFails(env, s, p, b);
    }
  }

  /** What is left of the place has values: numbers, except that a symbol may be divided. */
  predicate ExprClear<N>(env: Env<N>, b: StuckExpr) {
    match b
    case InTerm(t) => TermClear(env, t)
    case SumRight(t, _, r) => TermValue(env, t).Val? && TermValue(env, t).value.Num? && ExprClear(env, r)
  }

  predicate TermClear<N>(env: Env<N>, b: StuckTerm) {
    match b
    case InFactor(f) => FactorClear(env, f)
    case ProdRight(f, times, r) =>
      FactorValue(env, f).Val? && (times ==> FactorValue(env, f).value.Num?) && TermClear(env, r)
  }

  predicate FactorClear<N>(env: Env<N>, b: StuckFactor) {
    match b
    case NoFactor => true
    case InNeg(g) => FactorClear(env, g)
    case InParen(e) => ExprClear(env, e)
    case Unclosed(e) => ExprValue(env, e).Val?
  }

  /** The error that belongs to the place: UParen or NoTerm. */
  function ExprPlace(b: StuckExpr): Error {
    match b
    case InTerm(t) => TermPlace(t)
    case SumRight(_, _, r) => ExprPlace(r)
  }

  function TermPlace(b: StuckTerm): Error {
    match b
    case InFactor(f) => FactorPlace(f)
    case ProdRight(_, _, r) => TermPlace(r)
  }

  function FactorPlace(b: StuckFactor): Error {
    match b
    case NoFactor => NoTerm
    case InNeg(g) => FactorPlace(g)
    case InParen(e) => ExprPlace(e)
    case Unclosed(_) => UParen
  }

  predicate Syntactic(err: Error) {
    err == UParen || err == NoTerm
  }

  /** Identifiers and literals have errors of their own. */
  ghost predicate Quiet<N(!new)>(env: Env<N>) {
    forall x: string ::
      !(env.ident(x).Err? && Syntactic(env.ident(x).error)) && !(env.literal(x).Err? && Syntactic(env.literal(x).error))
  }

  lemma {:induction false} ExprQuiet<N(!new)>(env: Env<N>, e: Expr)
    requires Quiet(env)
    ensures ExprValue(env, e).Err? ==> !Syntactic(ExprValue(env, e).error)
    decreases e
  {
    hide Quiet, TermValue;
    match e
    case OneTerm(t, _) => TermQuiet(env, t);
    case Sum(t, _, r) =>
      TermQuiet(env, t);
      ExprQuiet(env, r);
  }

  lemma {:induction false} TermQuiet<N(!new)>(env: Env<N>, t: Term)
    requires Quiet(env)
    ensures TermValue(env, t).Err? ==> !Syntactic(TermValue(env, t).error)
    decreases t
  {
    hide Quiet, FactorValue;
    match t
    case OneFactor(f, _) => FactorQuiet(env, f);
    case Prod(f, _, r) =>
      FactorQuiet(env, f);
      TermQuiet(env, r);
  }

  lemma {:induction false} FactorQuiet<N(!new)>(env: Env<N>, f: Factor)
    requires Quiet(env)
    ensures FactorValue(env, f).Err? ==> !Syntactic(FactorValue(env, f).error)
    decreases f
  {
    hide ExprValue;
    match f
    case Paren(e) => ExprQuiet(env, e);
    case Neg(g) => FactorQuiet(env, g);
    case Name(x) => assert !(env.ident(x).Err? && Syntactic(env.ident(x).error));
    case Literal(x) => assert !(env.literal(x).Err? && Syntactic(env.literal(x).error));
  }

  lemma {:induction false} ExprErrorIs<N(!new)>(env: Env<N>, b: StuckExpr)
    requires Quiet(env)
    ensures if ExprClear(env, b) then ExprError(env, b) == ExprPlace(b) else !Syntactic(ExprError(env, b))
    ensures Syntactic(ExprPlace(b))
    decreases b
  {
    hide Quiet, TermValue, TermClear, TermError, TermPlace;
    match b
    case InTerm(t) => TermErrorIs(env, t);
    case SumRight(t, _, r) =>
      TermQuiet(env, t);
      ExprErrorIs(env, r);
  }

  lemma {:induction false} TermErrorIs<N(!new)>(env: Env<N>, b: StuckTerm)
    requires Quiet(env)
    ensures if TermClear(env, b) then TermError(env, b) == TermPlace(b) else !Syntactic(TermError(env, b))
    ensures Syntactic(TermPlace(b))
    decreases b
  {
    hide Quiet, FactorValue, FactorClear, FactorError, FactorPlace;
    match b
    case InFactor(f) => FactorErrorIs(env, f);
    case ProdRight(f, _, r) =>
      FactorQuiet(env, f);
      TermErrorIs(env, r);
  }

  lemma {:induction false} FactorErrorIs<N(!new)>(env: Env<N>, b: StuckFactor)
    requires Quiet(env)
    ensures if FactorClear(env, b) then FactorError(env, b) == FactorPlace(b) else !Syntactic(FactorError(env, b))
    ensures Syntactic(FactorPlace(b))
    decreases b
  {
    hide Quiet, ExprValue, ExprClear, ExprError, ExprPlace;
    match b
    case NoFactor =>
    case InNeg(g) => FactorErrorIs(env, g);
    case InParen(e) => ExprErrorIs(env, e);
    case Unclosed(e) => ExprQuiet(env, e);
  }

  /** UParen and NoTerm are reported exactly where a derivation is stuck at an unclosed
      parenthesis, or at a missing factor, and everything to the left has a value. */
  lemma SyntaxErrors<N(!new)>(env: Env<N>, s: string, p: nat, err: Error)
    requires p <= |s| && Quiet(env) && Syntactic(err)
    ensures DoExpr(env, s, p) == Fail(err) <==>
            exists b :: ExprStuck(s, p, b) && ExprClear(env, b) && ExprPlace(b) == err
  {
    hide Next, Behind, DoExpr, ExprTokens, ExprValue, ExprEnds, ExprStuck, ExprError, ExprClear, ExprPlace, Quiet;
    EvaluationFailsAsTheGrammar(env, s, p, err);
    forall e: Expr ensures ExprValue(env, e) != Err(err) {
      ExprQuiet(env, e);
    }
    forall b: StuckExpr
      ensures ExprError(env, b) == err <==> ExprClear(env, b) && ExprPlace(b) == err
    {
      ExprErrorIs(env, b);
    }
  }

  // ---------- tokens by their characters ----------

  predicate StartsName(c: char) {
    'a' <= c <= 'z' || 'A' <= c <= 'Z' || c == '_' || c == '$'
  }

  predicate StartsNumber(c: char) {
    '0' <= c <= '9' || c == '.'
  }

  /** A character of a literal that starts at q: exponents are signed, and behind an x there are
      hexadecimal digits. */
  predicate InNumber(s: string, q: nat, i: nat)
    requires q < i < |s|
  {
    || StartsNumber(s[i]) || s[i] in "eExX"
    || (s[i] in "+-" && s[i - 1] in "eE")
    || (('a' <= s[i] <= 'f' || 'A' <= s[i] <= 'F') && exists j | q < j < i :: s[j] in "xX")
  }

  /** From q to e there is an identifier, and it does not go on behind. */
  predicate NameAt(s: string, q: nat, e: nat) {
    && q < e <= |s| && StartsName(s[q])
    && (forall i | q < i < e :: StartsName(s[i]) || StartsNumber(s[i]))
    && (e < |s| ==> !StartsName(s[e]) && !StartsNumber(s[e]))
  }

  /** The same for a literal. */
  predicate NumberAt(s: string, q: nat, e: nat) {
    && q < e <= |s| && StartsNumber(s[q])
    && (forall i | q < i < e :: InNumber(s, q, i))
    && (e < |s| ==> !InNumber(s, q, e))
  }

  lemma {:induction false} WhiteIsSkipped(s: string, p: nat, q: nat)
    requires p <= q <= |s| && (forall i | p <= i < q :: s[i] in " \t") && (q < |s| ==> s[q] !in " \t")
    ensures SkipWhite(s, p) == q
    decreases q - p
  {
    if p < q {
      WhiteIsSkipped(s, p + 1, q);
    }
  }

  lemma {:induction false} NameEnds(s: string, q: nat, p: nat, e: nat)
    requires NameAt(s, q, e) && q < p <= e
    ensures IdentEnd(s, p) == e
    decreases e - p
  {
    if p < e {
      NameEnds(s, q, p + 1, e);
    }
  }

  lemma {:induction false} NumberEnds(s: string, q: nat, p: nat, e: nat, last: char, hex: bool)
    requires NumberAt(s, q, e) && q < p <= e
    requires last == 'e' <==> s[p - 1] in "eE"
    requires hex <==> exists j | q < j < p :: s[j] in "xX"
    ensures NumberEnd(s, p, last, hex) == e
    decreases e - p
  {
    if p < |s| {
      assert InNumber(s, q, p) == NumberChar(s[p], last, hex);
    }
    if p < e {
      assert Lower(s[p]) == 'e' <==> s[p] in "eE";
      assert Lower(s[p]) == 'x' <==> s[p] in "xX";
      NumberEnds(s, q, p + 1, e, Lower(s[p]), hex || Lower(s[p]) == 'x');
    }
  }

  lemma LexedAt(s: string, p: nat, q: nat)
    requires p <= q <= |s| && SkipWhite(s, p) == q
    ensures q == |s| ==> Next(s, p) == Lexed(Token(Eof, ""), q)
    ensures q < |s| ==>
              var k := Class(s[q]);
              var e := if k == Ident then IdentEnd(s, q + 1)
                       else if k == Const then NumberEnd(s, q + 1, '\0', false) else q + 1;
              Next(s, p) == Lexed(Token(k, s[q..e]), e)
  {
    hide Class;
  }

  /** Behind blanks and tabs, the first character decides what token it is; identifiers and
      literals are as long as they can be, and the others are one character. */
  lemma TokenIs(s: string, p: nat, q: nat, e: nat)
    requires p <= q <= |s| && (forall i | p <= i < q :: s[i] in " \t") && (q < |s| ==> s[q] !in " \t")
    ensures q == |s| ==> Next(s, p) == Lexed(Token(Eof, ""), q)
    ensures NameAt(s, q, e) ==> Next(s, p) == Lexed(Token(Ident, s[q..e]), e)
    ensures NumberAt(s, q, e) ==> Next(s, p) == Lexed(Token(Const, s[q..e]), e)
    ensures q < |s| && s[q] == '+' ==> Next(s, p) == Lexed(Token(Plus, "+"), q + 1)
    ensures q < |s| && s[q] == '-' ==> Next(s, p) == Lexed(Token(Minus, "-"), q + 1)
    ensures q < |s| && s[q] == '*' ==> Next(s, p) == Lexed(Token(Mult, "*"), q + 1)
    ensures q < |s| && s[q] == '/' ==> Next(s, p) == Lexed(Token(Div, "/"), q + 1)
    ensures q < |s| && s[q] == '(' ==> Next(s, p) == Lexed(Token(Oparen, "("), q + 1)
    ensures q < |s| && s[q] == ')' ==> Next(s, p) == Lexed(Token(Cparen, ")"), q + 1)
    ensures q < |s| && !StartsName(s[q]) && !StartsNumber(s[q]) && s[q] !in "+-*/()" ==>
              Next(s, p) == Lexed(Token(Invalid, [s[q]]), q + 1)
  {
    WhiteIsSkipped(s, p, q);
    LexedAt(s, p, q);
    if q < |s| {
      assert s[q..q + 1] == [s[q]];
    }
    if NameAt(s, q, e) {
      NameEnds(s, q, q + 1, e);
    }
    if NumberAt(s, q, e) {
      NumberEnds(s, q, q + 1, e, '\0', false);
    }
  }

  /** Every such token does end somewhere. */
  lemma SomeEnd(s: string, q: nat) returns (e: nat)
    requires q < |s|
    ensures StartsName(s[q]) ==> NameAt(s, q, e)
    ensures StartsNumber(s[q]) ==> NumberAt(s, q, e)
  {
    e := q + 1;
    if StartsName(s[q]) {
      while e < |s| && (StartsName(s[e]) || StartsNumber(s[e]))
        invariant q < e <= |s| && forall i | q < i < e :: StartsName(s[i]) || StartsNumber(s[i])
      {
        e := e + 1;
      }
    } else if StartsNumber(s[q]) {
      while e < |s| && InNumber(s, q, e)
        invariant q < e <= |s| && forall i | q < i < e :: InNumber(s, q, i)
      {
        e := e + 1;
      }
    }
  }

  lemma NotBlank(s: string, p: nat, e: nat)
    requires NameAt(s, p, e) || NumberAt(s, p, e)
    ensures p < e <= |s| && s[p] !in " \t"
  {
  }

  /** An identifier or a literal is a factor. */
  lemma OperandIs<N>(env: Env<N>, s: string, p: nat, e: nat)
    ensures NameAt(s, p, e) ==> p < e <= |s| && DoFactor(env, s, p) == At(env.ident(s[p..e]), e)
    ensures NumberAt(s, p, e) ==> p < e <= |s| && DoFactor(env, s, p) == At(env.literal(s[p..e]), e)
  {
    hide Next, NameAt, NumberAt;
    if NameAt(s, p, e) || NumberAt(s, p, e) {
      NotBlank(s, p, e);
      TokenIs(s, p, p, e);
    }
  }

  /** At the end of the string it is an expression. */
  lemma LastOperandIs<N>(env: Env<N>, s: string, p: nat)
    requires p < |s| && (NameAt(s, p, |s|) || NumberAt(s, p, |s|))
    ensures DoTerm(env, s, p) == DoExpr(env, s, p) == DoFactor(env, s, p)
    ensures NameAt(s, p, |s|) ==> DoFactor(env, s, p) == At(env.ident(s[p..]), |s|)
    ensures NumberAt(s, p, |s|) ==> DoFactor(env, s, p) == At(env.literal(s[p..]), |s|)
  {
    hide Next, NameAt, NumberAt, DoFactor;
    TokenIs(s, |s|, |s|, |s|);
    OperandIs(env, s, p, |s|);
    assert s[p..|s|] == s[p..];
  }

  /** A string that is one identifier, or one literal, is evaluated as a whole. */
  lemma WholeIs<N>(env: Env<N>, s: string)
    ensures NameAt(s, 0, |s|) ==> DoExpr(env, s, 0) == At(env.ident(s), |s|)
    ensures NumberAt(s, 0, |s|) ==> DoExpr(env, s, 0) == At(env.literal(s), |s|)
  {
    hide NameAt, NumberAt, DoExpr;
    if NameAt(s, 0, |s|) || NumberAt(s, 0, |s|) {
      NotBlank(s, 0, |s|);
      LastOperandIs(env, s, 0);
      OperandIs(env, s, 0, |s|);
      assert s[0..] == s;
    }
  }

  // ---------- operators by their operands ----------

  /** The name x, an operator or parenthesis, and the name y. */
  lemma TwoNames<N>(env: Env<N>, x: string, op: char, y: string)
    requires NameAt(x, 0, |x|) && NameAt(y, 0, |y|) && !StartsName(op) && !StartsNumber(op)
    ensures var s := x + [op] + y;
            && DoFactor(env, s, 0) == At(env.ident(x), |x|) && s[|x|] == op
            && DoTerm(env, s, |x| + 1) == DoExpr(env, s, |x| + 1) == At(env.ident(y), |s|)
  {
    hide DoExpr, DoTerm, DoFactor;
    var s := x + [op] + y;
    assert s[0..|x|] == x && s[|x| + 1..] == y;
    OperandIs(env, s, 0, |x|);
    LastOperandIs(env, s, |x| + 1);
  }

  /** x + y and x - y. The left operand's error comes first; a symbol on the left makes the
      expression badly formed even if the right operand has an error of its own. */
  lemma SumIs<N>(env: Env<N>, x: string, plus: bool, y: string)
    requires NameAt(x, 0, |x|) && NameAt(y, 0, |y|)
    ensures var s, v, w := x + (if plus then "+" else "-") + y, env.ident(x), env.ident(y);
            && (v.Err? ==> DoExpr(env, s, 0) == Fail(v.error))
            && (v.Val? && v.value.Symbol? ==> DoExpr(env, s, 0) == Fail(BadExpr))
            && (v.Val? && v.value.Num? && w.Err? ==> DoExpr(env, s, 0) == Fail(w.error))
            && (v.Val? && v.value.Num? && w.Val? && w.value.Symbol? ==> DoExpr(env, s, 0) == Fail(BadExpr))
            && (v.Val? && v.value.Num? && w.Val? && w.value.Num? ==>
                  var n := if plus then env.add(v.value.n, w.value.n) else env.sub(v.value.n, w.value.n);
                  DoExpr(env, s, 0) == Ok(Num(n), |s|))
  {
    hide NameAt, Next, DoFactor;
    var op := if plus then '+' else '-';
    var s := x + [op] + y;
    TwoNames(env, x, op, y);
    TokenIs(s, |x|, |x|, |x|);
    assert DoTerm(env, s, 0) == DoFactor(env, s, 0);
  }

  /** x * y. */
  lemma ProductIs<N>(env: Env<N>, x: string, y: string)
    requires NameAt(x, 0, |x|) && NameAt(y, 0, |y|)
    ensures var s, v, w := x + "*" + y, env.ident(x), env.ident(y);
            && (v.Err? ==> DoExpr(env, s, 0) == Fail(v.error))
            && (v.Val? && v.value.Symbol? ==> DoExpr(env, s, 0) == Fail(BadExpr))
            && (v.Val? && v.value.Num? && w.Err? ==> DoExpr(env, s, 0) == Fail(w.error))
            && (v.Val? && v.value.Num? && w.Val? && w.value.Symbol? ==> DoExpr(env, s, 0) == Fail(BadExpr))
            && (v.Val? && v.value.Num? && w.Val? && w.value.Num? ==>
                  DoExpr(env, s, 0) == Ok(Num(env.mult(v.value.n, w.value.n)), |s|))
  {
    hide NameAt, Next, DoFactor;
    var s := x + "*" + y;
    TwoNames(env, x, '*', y);
    TokenIs(s, |x|, |x|, |x|);
    TokenIs(s, |s|, |s|, |s|);
    assert DoExpr(env, s, 0) == DoTerm(env, s, 0);
  }

  /** x / y. An error of the right operand, and a division by zero, come before a symbol. */
  lemma QuotientIs<N>(env: Env<N>, x: string, y: string)
    requires NameAt(x, 0, |x|) && NameAt(y, 0, |y|)
    ensures var s, v, w := x + "/" + y, env.ident(x), env.ident(y);
            && (v.Err? ==> DoExpr(env, s, 0) == Fail(v.error))
            && (v.Val? && w.Err? ==> DoExpr(env, s, 0) == Fail(w.error))
            && (v.Val? && w.Val? && w.value.Num? && env.isZero(w.value.n) ==> DoExpr(env, s, 0) == Fail(Div0))
            && (v.Val? && w.Val? && w.value.Num? && !env.isZero(w.value.n) && v.value.Num? ==>
                  DoExpr(env, s, 0) == Ok(Num(env.div(v.value.n, w.value.n)), |s|))
            && (v.Val? && w.Val? && (w.value.Symbol? || (!env.isZero(w.value.n) && v.value.Symbol?)) ==>
                  DoExpr(env, s, 0) == Fail(BadExpr))
  {
    hide NameAt, Next, DoFactor;
    var s := x + "/" + y;
    TwoNames(env, x, '/', y);
    TokenIs(s, |x|, |x|, |x|);
    TokenIs(s, |s|, |s|, |s|);
    assert DoExpr(env, s, 0) == DoTerm(env, s, 0);
  }

  /** -x, (x), and ( x without its closing parenthesis. */
  lemma PrefixIs<N>(env: Env<N>, x: string)
    requires NameAt(x, 0, |x|)
    ensures var s, v := "-" + x, env.ident(x);
            && (v.Err? ==> DoExpr(env, s, 0) == Fail(v.error))
            && (v.Val? && v.value.Symbol? ==> DoExpr(env, s, 0) == Fail(BadExpr))
            && (v.Val? && v.value.Num? ==> DoExpr(env, s, 0) == Ok(Num(env.neg(v.value.n)), |s|))
    ensures DoExpr(env, "(" + x + ")", 0) == At(env.ident(x), |x| + 2)
    ensures DoExpr(env, "(" + x, 0) == if env.ident(x).Err? then Fail(env.ident(x).error) else Fail(UParen)
  {
    NegationIs(env, x);
    ParenIs(env, x);
    UnclosedIs(env, x);
  }

  lemma NegationIs<N>(env: Env<N>, x: string)
    requires NameAt(x, 0, |x|)
    ensures var s, v := "-" + x, env.ident(x);
            && (v.Err? ==> DoExpr(env, s, 0) == Fail(v.error))
            && (v.Val? && v.value.Symbol? ==> DoExpr(env, s, 0) == Fail(BadExpr))
            && (v.Val? && v.value.Num? ==> DoExpr(env, s, 0) == Ok(Num(env.neg(v.value.n)), |s|))
  {
    hide Next, DoExpr, DoTerm;
    var s := "-" + x;
    assert s[1..] == x;
    LastOperandIs(env, s, 1);
    TokenIs(s, 0, 0, 0);
    TokenIs(s, |s|, |s|, |s|);
    AtTheEnd(env, s, 0);
  }

  /** A factor that ends the string is the whole. */
  lemma AtTheEnd<N>(env: Env<N>, s: string, p: nat)
    requires p <= |s| && (DoFactor(env, s, p).Ok? ==> DoFactor(env, s, p).pos == |s|)
    ensures DoExpr(env, s, p) == DoFactor(env, s, p)
  {
    hide Next, DoFactor;
    TokenIs(s, |s|, |s|, |s|);
    assert DoTerm(env, s, p) == DoFactor(env, s, p);
  }

  lemma ParenIs<N>(env: Env<N>, x: string)
    requires NameAt(x, 0, |x|)
    ensures DoExpr(env, "(" + x + ")", 0) == At(env.ident(x), |x| + 2)
  {
    hide Next, DoExpr, DoTerm;
    var s := "(" + x + ")";
    InParens(env, x);
    TokenIs(s, 0, 0, 0);
    TokenIs(s, |x| + 1, |x| + 1, 0);
    AtTheEnd(env, s, 0);
  }

  lemma InParens<N>(env: Env<N>, x: string)
    requires NameAt(x, 0, |x|)
    ensures DoExpr(env, "(" + x + ")", 1) == At(env.ident(x), |x| + 1)
  {
    hide Next, DoFactor;
    var s := "(" + x + ")";
    assert s[1..|x| + 1] == x;
    OperandIs(env, s, 1, |x| + 1);
    TokenIs(s, |x| + 1, |x| + 1, 0);
    assert DoTerm(env, s, 1) == DoFactor(env, s, 1);
  }

  lemma UnclosedIs<N>(env: Env<N>, x: string)
    requires NameAt(x, 0, |x|)
    ensures DoExpr(env, "(" + x, 0) == if env.ident(x).Err? then Fail(env.ident(x).error) else Fail(UParen)
  {
    hide Next;
    var s := "(" + x;
    assert s[1..] == x;
    LastOperandIs(env, s, 1);
    TokenIs(s, 0, 0, 0);
    TokenIs(s, |s|, |s|, |s|);
    AtTheEnd(env, s, 0);
  }

  /** Three names with an operator at i and one at j, all with numbers for values. */
  ghost predicate ThreeNames<N(!new)>(env: Env<N>, s: string, i: nat, j: nat, a: N, b: N, c: N) {
    && NameAt(s, 0, i) && NameAt(s, i + 1, j) && NameAt(s, j + 1, |s|)
    && env.ident(s[..i]) == Val(Num(a)) && env.ident(s[i + 1..j]) == Val(Num(b))
    && env.ident(s[j + 1..]) == Val(Num(c))
  }

  lemma ThreeOperands<N(!new)>(env: Env<N>, s: string, i: nat, j: nat, a: N, b: N, c: N)
    requires ThreeNames(env, s, i, j, a, b, c)
    ensures 0 < i && i + 1 < j && j + 1 < |s|
    ensures DoFactor(env, s, 0) == Ok(Num(a), i) && DoFactor(env, s, i + 1) == Ok(Num(b), j)
    ensures DoTerm(env, s, j + 1) == DoExpr(env, s, j + 1) == Ok(Num(c), |s|)
  {
    hide DoExpr, DoTerm, DoFactor;
    assert s[0..i] == s[..i];
    OperandIs(env, s, 0, i);
    OperandIs(env, s, i + 1, j);
    LastOperandIs(env, s, j + 1);
  }

  /** x + y * z is x + (y * z). */
  lemma ProductBindsOnTheRight<N(!new)>(env: Env<N>, s: string, i: nat, j: nat, a: N, b: N, c: N)
    requires ThreeNames(env, s, i, j, a, b, c) && s[i] == '+' && s[j] == '*'
    ensures DoExpr(env, s, 0) == Ok(Num(env.add(a, env.mult(b, c))), |s|)
  {
    hide Next, ThreeNames, DoFactor;
    ThreeOperands(env, s, i, j, a, b, c);
    TokenIs(s, i, i, 0);
    TokenIs(s, j, j, 0);
    TokenIs(s, |s|, |s|, 0);
    assert DoTerm(env, s, 0) == DoFactor(env, s, 0);
    assert DoTerm(env, s, i + 1) == Ok(Num(env.mult(b, c)), |s|);
    assert DoExpr(env, s, i + 1) == Ok(Num(env.mult(b, c)), |s|);
  }

  /** x * y + z is (x * y) + z. */
  lemma ProductBindsOnTheLeft<N(!new)>(env: Env<N>, s: string, i: nat, j: nat, a: N, b: N, c: N)
    requires ThreeNames(env, s, i, j, a, b, c) && s[i] == '*' && s[j] == '+'
    ensures DoExpr(env, s, 0) == Ok(Num(env.add(env.mult(a, b), c)), |s|)
  {
    hide Next, ThreeNames, DoFactor;
    ThreeOperands(env, s, i, j, a, b, c);
    TokenIs(s, i, i, 0);
    TokenIs(s, j, j, 0);
    assert DoTerm(env, s, i + 1) == DoFactor(env, s, i + 1);
    assert DoTerm(env, s, 0) == Ok(Num(env.mult(a, b)), j);
  }

  // ---------- the code ----------

  /** struct eval_state_t, and the global eval_error. */
  class Evaluator<!N> {
    const env: Env<N>
    var s: string
    var p: nat
    var lastp: nat
    var peekTok: Kind
    var tokBuf: string
    var error: Option<Error>

    constructor (env: Env<N>)
      ensures this.env == env && Valid() && s == ""
    {
      this.env := env;
      s, p, lastp, peekTok, tokBuf, error := "", 0, 0, Invalid, "", None;
    }

    /** A full peek buffer holds the token that starts at lastp and ends at p. */
    ghost predicate Valid()
      reads this
    {
      p <= |s| && (peekTok != Invalid ==> lastp <= |s| && Next(s, lastp) == Lexed(Token(peekTok, tokBuf), p))
    }

    /** The position behind the last token that was consumed, not only peeked at. */
    ghost function Consumed(): (q: nat)
      requires Valid()
      reads this
      ensures q <= |s|
    {
      if peekTok == Invalid then p else lastp
    }

    /** The identifier and literal loops. */
    method LexRest(kind: Kind, start: nat)
      requires start < p == start + 1 <= |s|
      modifies this`p
      ensures start < p <= |s|
      ensures p == if kind == Ident then IdentEnd(s, start + 1)
                   else if kind == Const then NumberEnd(s, start + 1, '\0', false) else start + 1
    {
      if kind == Ident {
        while p < |s| && (Class(s[p]) == Ident || Class(s[p]) == Const)
          invariant start < p <= |s| && IdentEnd(s, p) == IdentEnd(s, start + 1)
        {
          p := p + 1;
        }
      } else if kind == Const {
        var last, hex := '\0', false;
        while p < |s| && NumberChar(s[p], last, hex)
          invariant start < p <= |s| && NumberEnd(s, p, last, hex) == NumberEnd(s, start + 1, '\0', false)
        {
          last := Lower(s[p]);
          if s[p] == 'x' || s[p] == 'X' {
            hex := true;
          }
          p := p + 1;
        }
      }
    }

    /** The white space in front of a token. */
    method SkipBlanks()
      requires p <= |s|
      modifies this`p
      ensures old(p) <= p <= |s| && p == SkipWhite(s, old(p)) && SkipWhite(s, p) == p
    {
      while p < |s| && Class(s[p]) == Whitespace
        invariant old(p) <= p <= |s| && SkipWhite(s, p) == SkipWhite(s, old(p))
      {
        p := p + 1;
      }
    }

    /** A token from the peek buffer, or from the string. */
    method GetNextToken() returns (tok: Kind)
      requires Valid()
      modifies this`p, this`peekTok, this`tokBuf
      ensures Valid() && peekTok == Invalid
      ensures var l := Next(s, old(Consumed())); tok == l.tok.kind && tokBuf == l.tok.text && Consumed() == l.end
    {
      hide Next, Class, SkipWhite;
      if peekTok != Invalid {
        tok := peekTok;
        peekTok := Invalid;
        return;
      }
      tokBuf := "";
      ghost var p0 := p;
      SkipBlanks();
      LexedAt(s, p0, p);
      if p == |s| {
        return Eof;
      }
      var start := p;
      tok := Class(s[p]);
      p := p + 1;
      LexRest(tok, start);
      tokBuf := s[start..p];
    }

    /** An invalid character leaves the peek buffer empty, and is behind the reader then. */
    method PeekNextToken() returns (tok: Kind)
      requires Valid()
      modifies this`p, this`lastp, this`peekTok, this`tokBuf
      ensures var l := Next(s, old(Consumed()));
              && Valid() && peekTok == tok == l.tok.kind
              && Consumed() == if tok == Invalid then l.end else old(Consumed())
    {
      hide Next;
      if peekTok == Invalid {
        lastp := p;
        peekTok := GetNextToken();
      }
      tok := peekTok;
    }

    /** What an evaluation method did, against what it should. */
    ghost predicate Did(o: Outcome<N>, val: Value<N>)
      requires Valid()
      reads this
    {
      if o.Ok? then error.None? && val == o.value && Consumed() == o.pos
      else error == Some(o.error) && val == Num(env.zero)
    }

    /** f_add, f_sub, f_mult, f_div: set eval_error, or leave it. */
    method Apply(op: (N, N) -> N, v: Value<N>, w: Value<N>) returns (val: Value<N>)
      modifies this`error
      ensures match Binary(op, v, w)
              case Val(x) => val == x && error == old(error)
              case Err(e) => val == Num(env.zero) && error == Some(e)
    {
      if v.Symbol? || w.Symbol? {
        error := Some(BadExpr);
        return Num(env.zero);
      }
      val := Num(op(v.n, w.n));
    }

    /** f_neg. */
    method Negate(v: Value<N>) returns (val: Value<N>)
      modifies this`error
      ensures match Negated(env, v)
              case Val(x) => val == x && error == old(error)
              case Err(e) => val == Num(env.zero) && error == Some(e)
    {
      if v.Symbol? {
        error := Some(BadExpr);
        return Num(env.zero);
      }
      val := Num(env.neg(v.n));
    }

    /** The check of the divisor, and the division. */
    method Divide(v: Value<N>, w: Value<N>) returns (val: Value<N>)
      modifies this`error
      ensures match Quotient(env, v, Val(w))
              case Val(x) => val == x && error == old(error)
              case Err(e) => val == Num(env.zero) && error == Some(e)
    {
      if w.Symbol? {
        error := Some(BadExpr);
      } else if env.isZero(w.n) {
        error := Some(Div0);
        return Num(env.zero);
      }
      val := Apply(env.div, v, w);
    }

    method EvalExprLevel() returns (val: Value<N>)
      requires Valid() && error.None?
      modifies this`p, this`lastp, this`peekTok, this`tokBuf, this`error
      ensures Valid() && Did(DoExpr(env, s, old(Consumed())), val)
      decreases |s| - Consumed(), 2
    {
      hide Next, DoTerm;
      ghost var q := Consumed();
      val := EvalTermLevel();
      if error.Some? {
        return Num(env.zero);
      }
      var tok := PeekNextToken();
      if tok == Plus || tok == Minus {
        var _ := GetNextToken();
        var right := EvalExprLevel();
        val := Apply(if tok == Plus then env.add else env.sub, val, right);
        if error.Some? {
          return Num(env.zero);
        }
      }
    }

    method EvalTermLevel() returns (val: Value<N>)
      requires Valid() && error.None?
      modifies this`p, this`lastp, this`peekTok, this`tokBuf, this`error
      ensures Valid() && Did(DoTerm(env, s, old(Consumed())), val)
      decreases |s| - Consumed(), 1
    {
      hide Next, DoFactor, Combined, Quotient;
      val := EvalFactor();
      if error.Some? {
        return Num(env.zero);
      }
      var tok := PeekNextToken();
      if tok == Mult {
        var _ := GetNextToken();
        val := EvalProduct(val);
      } else if tok == Div {
        var _ := GetNextToken();
        val := EvalQuotient(val);
      }
    }

    /** Behind a multiplication sign. */
    method EvalProduct(v: Value<N>) returns (val: Value<N>)
      requires Valid() && error.None?
      modifies this`p, this`lastp, this`peekTok, this`tokBuf, this`error
      ensures var r := DoTerm(env, s, old(Consumed()));
              Valid() && Did(At(Combined(env.mult, v, Plain(r), env.zero), Pos(r)), val)
      decreases |s| - Consumed(), 4
    {
      hide Next, DoTerm, Binary;
      var right := EvalTermLevel();
      val := Apply(env.mult, v, right);
      if error.Some? {
        return Num(env.zero);
      }
    }

    /** Behind a division sign. */
    method EvalQuotient(v: Value<N>) returns (val: Value<N>)
      requires Valid() && error.None?
      modifies this`p, this`lastp, this`peekTok, this`tokBuf, this`error
      ensures var r := DoTerm(env, s, old(Consumed()));
              Valid() && Did(At(Quotient(env, v, Plain(r)), Pos(r)), val)
      decreases |s| - Consumed(), 4
    {
      hide Next, DoTerm, Binary;
      var right := EvalTermLevel();
      if error.Some? {
        return Num(env.zero);
      }
      val := Divide(v, right);
    }

    method EvalFactor() returns (val: Value<N>)
      requires Valid() && error.None?
      modifies this`p, this`lastp, this`peekTok, this`tokBuf, this`error
      ensures Valid() && Did(DoFactor(env, s, old(Consumed())), val)
      decreases |s| - Consumed(), 0
    {
      hide Next, DoExpr, DoParen, Negated;
      var tok := PeekNextToken();
      if tok == Oparen {
        var _ := GetNextToken();
        val := EvalParen();
      } else if tok == Minus {
        var _ := GetNextToken();
        val := EvalNegation();
      } else if tok == Ident {
        var _ := GetNextToken();
        val := Take(env.ident(tokBuf));
      } else if tok == Const {
        var _ := GetNextToken();
        val := Take(env.literal(tokBuf));
      } else {
        error := Some(NoTerm);
        val := Num(env.zero);
      }
    }

    /** Behind a minus sign. */
    method EvalNegation() returns (val: Value<N>)
      requires Valid() && error.None?
      modifies this`p, this`lastp, this`peekTok, this`tokBuf, this`error
      ensures var o := DoFactor(env, s, old(Consumed()));
              Valid() && Did(if o.Fail? then o else At(Negated(env, o.value), o.pos), val)
      decreases |s| - Consumed(), 3
    {
      hide Next, DoFactor, Negated;
      val := EvalFactor();
      if error.Some? {
        return Num(env.zero);
      }
      val := Negate(val);
    }

    /** Behind an opening parenthesis. */
    method EvalParen() returns (val: Value<N>)
      requires Valid() && error.None?
      modifies this`p, this`lastp, this`peekTok, this`tokBuf, this`error
      ensures Valid() && Did(DoParen(env, s, old(Consumed())), val)
      decreases |s| - Consumed(), 3
    {
      hide Next, DoExpr;
      val := EvalExprLevel();
      if error.Some? {
        return Num(env.zero);
      }
      var tok := PeekNextToken();
      if tok != Cparen {
        error := Some(UParen);
        return Num(env.zero);
      }
      var _ := GetNextToken();
    }

    /** The outcome of f_eval_ident or constant. */
    method Take(r: Result<N>) returns (val: Value<N>)
      modifies this`error
      ensures match r
              case Val(x) => val == x && error == old(error)
              case Err(e) => val == Num(env.zero) && error == Some(e)
    {
      if r.Err? {
        error := Some(r.error);
        return Num(env.zero);
      }
      val := r.value;
    }

    /** eval_expr: the value or the error of the string, and on success the first character
        behind the last token that was used. */
    method EvalExpr(str: string) returns (val: Value<N>, endp: nat)
      modifies this
      ensures match DoExpr(env, str, 0)
              case Ok(v, q) => error.None? && val == v && endp == q
              case Fail(e) => error == Some(e) && val == Num(env.zero)
      ensures NameAt(str, 0, |str|) && env.ident(str).Val? ==>
                error.None? && val == env.ident(str).value && endp == |str|
      ensures NumberAt(str, 0, |str|) && env.literal(str).Val? ==>
                error.None? && val == env.literal(str).value && endp == |str|
      ensures NameAt(str, 0, |str|) && env.ident(str).Err? ==> error == Some(env.ident(str).error)
      ensures NumberAt(str, 0, |str|) && env.literal(str).Err? ==> error == Some(env.literal(str).error)
    {
      hide Next, DoExpr, NameAt, NumberAt;
      WholeIs(env, str);
      error := None;
      s, p, tokBuf, peekTok := str, 0, "", Invalid;
      val := EvalExprLevel();
      endp := if peekTok != Invalid then lastp else p;
    }
  }
}
