/** The recursive-descent parser of parser.cpp as functions over the token snapshots the
    lexer produces. `ts[p]` is cur_tok with the globals identifier_str, operator_name and
    the number literal as they stood when it was read; the last snapshot is tok_eof, which
    the lexer then repeats forever, so advancing past it stays on it. Each function returns
    where cur_tok ends up, on failure as well as on success. */
module ParserSpec {
  import opened Wrappers
  import opened Tokens
  import opened Ast
  import opened Precedence

  const LParen: int := '(' as int
  const RParen: int := ')' as int
  const Comma: int := ',' as int

  /** A token sequence as the lexer delivers it: it ends with tok_eof. */
  predicate ValidStream(ts: seq<Tok>) {
    |ts| > 0 && ts[|ts| - 1].code == TokEof
  }

  /** get_next_token */
  function Next(ts: seq<Tok>, p: nat): (q: nat)
    requires ValidStream(ts) && p < |ts|
    ensures q < |ts| && p <= q
    ensures ts[p].code != TokEof ==> q == p + 1
  {
    if p + 1 < |ts| then p + 1 else p
  }

  /** A parse result and the position cur_tok is left at. */
  datatype Parsed<T> = Ok(value: T, pos: nat) | Fail(pos: nat)

  /** get_tok_precedence */
  function TokPrecedence(t: Tok, prec: Table): int {
    if t.code != TokOperator then -1
    else if t.op !in prec then -1
    else if prec[t.op] <= 0 then -1
    else prec[t.op]
  }

  /** The table value of a recognised binary operator, -1 for everything else. */
  lemma TokPrecedenceMeaning(t: Tok, prec: Table)
    ensures TokPrecedence(t, prec) == -1 || TokPrecedence(t, prec) > 0
    ensures TokPrecedence(t, prec) > 0 <==> t.code == TokOperator && t.op in prec && prec[t.op] > 0
    ensures TokPrecedence(t, prec) > 0 ==> TokPrecedence(t, prec) == prec[t.op]
  {
  }

  /** parse_expression: a unary, then the binary operators after it, climbing from 0. */
  function ParseExpression(ts: seq<Tok>, prec: Table, p: nat): (r: Parsed<Expr>)
    requires ValidStream(ts) && p < |ts|
    ensures p <= r.pos < |ts| && (r.Ok? ==> p < r.pos)
    decreases |ts| - p, 6
  {
    var u := ParseUnary(ts, prec, p);
    if u.Fail? then Fail(u.pos) else BinopRhs(ts, prec, 0, u.value, u.pos)
  }

  /** parse_unary: any operator token is a prefix operator. */
  function ParseUnary(ts: seq<Tok>, prec: Table, p: nat): (r: Parsed<Expr>)
    requires ValidStream(ts) && p < |ts|
    ensures p <= r.pos < |ts| && (r.Ok? ==> p < r.pos)
    decreases |ts| - p, 5
  {
    if ts[p].code != TokOperator then ParsePrimary(ts, prec, p)
    else
      var o := ParseUnary(ts, prec, Next(ts, p));
      if o.Fail? then Fail(o.pos) else Ok(Unary(ts[p].op, o.value), o.pos)
  }

  /** parse_primary */
  function ParsePrimary(ts: seq<Tok>, prec: Table, p: nat): (r: Parsed<Expr>)
    requires ValidStream(ts) && p < |ts|
    ensures p <= r.pos < |ts| && (r.Ok? ==> p < r.pos)
    decreases |ts| - p, 4
  {
    var c := ts[p].code;
    if c == TokIdentifier then ParseIdentifierExpr(ts, prec, p)
    else if c == TokNumber then Ok(Number(ts[p].num), Next(ts, p))
    else if c == LParen then ParseParen(ts, prec, p)
    else if c == TokIf then ParseIf(ts, prec, p)
    else if c == TokFor then ParseFor(ts, prec, p)
    else if c == TokWith then ParseWith(ts, prec, p)
    else Fail(p)
  }

  /** parse_paren_expr */
  function ParseParen(ts: seq<Tok>, prec: Table, p: nat): (r: Parsed<Expr>)
    requires ValidStream(ts) && p < |ts| && ts[p].code == LParen
    ensures p <= r.pos < |ts| && (r.Ok? ==> p < r.pos)
    decreases |ts| - p, 3
  {
    var v := ParseExpression(ts, prec, Next(ts, p));
    if v.Fail? then Fail(v.pos)
    else if ts[v.pos].code != RParen then Fail(v.pos)
    else Ok(v.value, Next(ts, v.pos))
  }

  /** parse_if_expr: a missing else branch is the literal 0. */
  function ParseIf(ts: seq<Tok>, prec: Table, p: nat): (r: Parsed<Expr>)
    requires ValidStream(ts) && p < |ts| && ts[p].code == TokIf
    ensures p <= r.pos < |ts| && (r.Ok? ==> p < r.pos)
    decreases |ts| - p, 3
  {
    var c := ParseExpression(ts, prec, Next(ts, p));
    if c.Fail? then Fail(c.pos)
    else if ts[c.pos].code != TokThen then Fail(c.pos)
    else
      var t := ParseExpression(ts, prec, Next(ts, c.pos));
      if t.Fail? then Fail(t.pos)
      else if ts[t.pos].code == TokElse then
        var e := ParseExpression(ts, prec, Next(ts, t.pos));
        if e.Fail? then Fail(e.pos) else Ok(If(c.value, t.value, e.value), e.pos)
      else Ok(If(c.value, t.value, Number("0")), t.pos)
  }

  /** parse_for_expr. The check after the variable lets a token through unless it is both
      not an operator and operator_name is not "=". */
  function ParseFor(ts: seq<Tok>, prec: Table, p: nat): (r: Parsed<Expr>)
    requires ValidStream(ts) && p < |ts| && ts[p].code == TokFor
    ensures p <= r.pos < |ts| && (r.Ok? ==> p < r.pos)
    decreases |ts| - p, 3
  {
    var p1 := Next(ts, p);
    if ts[p1].code != TokIdentifier then Fail(p1)
    else
      var p2 := Next(ts, p1);
      if ts[p2].code != TokOperator && ts[p2].op != "=" then Fail(p2)
      else ForClauses(ts, prec, ts[p1].ident, Next(ts, p2))
  }

  /** An expression followed by the token `code`, which is consumed; the parse fails
      where the expression ends when that token is not there. */
  function ExprThen(ts: seq<Tok>, prec: Table, code: int, p: nat): (r: Parsed<Expr>)
    requires ValidStream(ts) && p < |ts|
    ensures p <= r.pos < |ts| && (r.Ok? ==> p < r.pos)
    decreases |ts| - p, 7
  {
    var e := ParseExpression(ts, prec, p);
    if e.Fail? then Fail(e.pos)
    else if ts[e.pos].code != code then Fail(e.pos)
    else Ok(e.value, Next(ts, e.pos))
  }

  /** The clauses of a for loop over v: the start and the condition, each followed by a
      comma, the step followed by `do`, and the body followed by `end`. */
  function ForClauses(ts: seq<Tok>, prec: Table, v: string, p: nat): (r: Parsed<Expr>)
    requires ValidStream(ts) && p < |ts|
    ensures p <= r.pos < |ts| && (r.Ok? ==> p < r.pos)
    decreases |ts| - p, 8
  {
    var st := ExprThen(ts, prec, Comma, p);
    if st.Fail? then Fail(st.pos)
    else
      var cd := ExprThen(ts, prec, Comma, st.pos);
      if cd.Fail? then Fail(cd.pos)
      else
        var sp := ExprThen(ts, prec, TokDo, cd.pos);
        if sp.Fail? then Fail(sp.pos)
        else
          var b := ExprThen(ts, prec, TokEnd, sp.pos);
          if b.Fail? then Fail(b.pos)
          else Ok(For(v, st.value, cd.value, sp.value, b.value), b.pos)
  }

  /** parse_with_expr */
  function ParseWith(ts: seq<Tok>, prec: Table, p: nat): (r: Parsed<Expr>)
    requires ValidStream(ts) && p < |ts| && ts[p].code == TokWith
    ensures p <= r.pos < |ts| && (r.Ok? ==> p < r.pos)
    decreases |ts| - p, 3
  {
    var bs := ParseBindings(ts, prec, Next(ts, p), []);
    if bs.Fail? then Fail(bs.pos)
    else if ts[bs.pos].code != TokDo then Fail(bs.pos)
    else
      var b := ParseExpression(ts, prec, Next(ts, bs.pos));
      if b.Fail? then Fail(b.pos)
      else if ts[b.pos].code != TokEnd then Fail(b.pos)
      else Ok(With(bs.value, b.value), Next(ts, b.pos))
  }

  /** cur_tok is the operator `=`. */
  predicate IsAssign(t: Tok) {
    t.code == TokOperator && t.op == "="
  }

  /** The do-while loop of parse_with_expr: `name [= init]` items separated by commas,
      appended to acc in source order. */
  function ParseBindings(ts: seq<Tok>, prec: Table, p: nat, acc: seq<Binding>): (r: Parsed<seq<Binding>>)
    requires ValidStream(ts) && p < |ts|
    ensures p <= r.pos < |ts| && (r.Ok? ==> p < r.pos)
    decreases |ts| - p, 3
  {
    if ts[p].code != TokIdentifier then Fail(p)
    else
      var q := Next(ts, p);
      if IsAssign(ts[q]) then
        var e := ParseExpression(ts, prec, Next(ts, q));
        if e.Fail? then Fail(e.pos) else MoreBindings(ts, prec, acc + [Binding(ts[p].ident, Some(e.value))], e.pos)
      else MoreBindings(ts, prec, acc + [Binding(ts[p].ident, None)], q)
  }

  /** The end of one turn of the do-while loop: another binding follows a comma. */
  function MoreBindings(ts: seq<Tok>, prec: Table, acc: seq<Binding>, q: nat): (r: Parsed<seq<Binding>>)
    requires ValidStream(ts) && q < |ts|
    ensures q <= r.pos < |ts| && (ts[q].code == Comma && r.Ok? ==> q < r.pos)
    decreases |ts| - q, 2
  {
    if ts[q].code != Comma then Ok(acc, q) else ParseBindings(ts, prec, Next(ts, q), acc)
  }

  /** parse_identifier_expr: a variable, or a call when `(` follows. */
  function ParseIdentifierExpr(ts: seq<Tok>, prec: Table, p: nat): (r: Parsed<Expr>)
    requires ValidStream(ts) && p < |ts| && ts[p].code == TokIdentifier
    ensures p <= r.pos < |ts| && (r.Ok? ==> p < r.pos)
    decreases |ts| - p, 3
  {
    var id := ts[p].ident;
    var p1 := Next(ts, p);
    if ts[p1].code != LParen then Ok(Variable(id), p1)
    else
      var p2 := Next(ts, p1);
      if ts[p2].code == RParen then Ok(Call(id, []), Next(ts, p2))
      else
        var a := ParseArgs(ts, prec, p2, []);
        if a.Fail? then Fail(a.pos) else Ok(Call(id, a.value), Next(ts, a.pos))
  }

  /** The argument loop of parse_identifier_expr: expressions separated by commas, up to
      (not past) the closing parenthesis. */
  function ParseArgs(ts: seq<Tok>, prec: Table, p: nat, acc: seq<Expr>): (r: Parsed<seq<Expr>>)
    requires ValidStream(ts) && p < |ts|
    ensures p <= r.pos < |ts| && (r.Ok? ==> p < r.pos && ts[r.pos].code == RParen)
    decreases |ts| - p, 7
  {
    var e := ParseExpression(ts, prec, p);
    if e.Fail? then Fail(e.pos)
    else if ts[e.pos].code == RParen then Ok(acc + [e.value], e.pos)
    else if ts[e.pos].code != Comma then Fail(e.pos)
    else ParseArgs(ts, prec, Next(ts, e.pos), acc + [e.value])
  }

  /** parse_binop_rhs: fold operators of precedence at least exprPrec onto lhs. */
  function BinopRhs(ts: seq<Tok>, prec: Table, exprPrec: int, lhs: Expr, p: nat): (r: Parsed<Expr>)
    requires ValidStream(ts) && p < |ts|
    ensures p <= r.pos < |ts|
    decreases |ts| - p, 8
  {
    var tp := TokPrecedence(ts[p], prec);
    if tp < exprPrec then Ok(lhs, p)
    else
      var rhs := ParseUnary(ts, prec, Next(ts, p));
      if rhs.Fail? then Fail(rhs.pos)
      else BinopStep(ts, prec, exprPrec, tp, ts[p].op, lhs, rhs.value, rhs.pos)
  }

  /** One turn of the loop once `lhs op rhs` has been read, op of precedence tp and cur_tok
      at q. A tighter operator after rhs takes rhs first; an equal one does not, so equal
      precedences group to the left. */
  function BinopStep(ts: seq<Tok>, prec: Table, exprPrec: int, tp: int, op: string, lhs: Expr, rhs: Expr, q: nat): (r: Parsed<Expr>)
    requires ValidStream(ts) && q < |ts|
    ensures q <= r.pos < |ts|
    decreases |ts| - q, 9
  {
    if tp < TokPrecedence(ts[q], prec) then
      var r2 := BinopRhs(ts, prec, tp + 1, rhs, q);
      if r2.Fail? then Fail(r2.pos) else BinopRhs(ts, prec, exprPrec, Binary(op, lhs, r2.value), r2.pos)
    else BinopRhs(ts, prec, exprPrec, Binary(op, lhs, rhs), q)
  }

  /** parse_prototype: the name, then `(`, identifiers, `)`. A binary operator may carry a
      precedence literal, which must lie in [1, 100] and is truncated; it is 30 otherwise
      (for every kind of prototype). An operator must have 1 (unary) or 2 (binary)
      parameters. */
  function ParsePrototype(ts: seq<Tok>, p: nat): (r: Parsed<Prototype>)
    requires ValidStream(ts) && p < |ts|
    ensures p <= r.pos < |ts| && (r.Ok? ==> p < r.pos)
  {
    var t := ts[p];
    if t.code == TokIdentifier then ProtoRest(ts, t.ident, 0, 30, Next(ts, p))
    else if t.code == TokBinary then
      var q := Next(ts, p);
      if ts[q].code == TokNumber then
        if BelowOne(ts[q].num) || AboveHundred(ts[q].num) then Fail(q)
        else ProtoRest(ts, "binary" + t.op, 2, IntPart(ts[q].num), Next(ts, q))
      else ProtoRest(ts, "binary" + t.op, 2, 30, q)
    else if t.code == TokUnary then ProtoRest(ts, "unary" + t.op, 1, 30, Next(ts, p))
    else Fail(p)
  }

  /** The part of parse_prototype from the `(` on; kind is 0, 1 (unary) or 2 (binary). */
  function ProtoRest(ts: seq<Tok>, name: string, kind: nat, precedence: nat, p: nat): (r: Parsed<Prototype>)
    requires ValidStream(ts) && p < |ts|
    ensures p <= r.pos < |ts| && (r.Ok? ==> p < r.pos)
  {
    if ts[p].code != LParen then Fail(p)
    else
      var (args, q) := ProtoArgs(ts, Next(ts, p), []);
      if ts[q].code != RParen then Fail(q)
      else if kind != 0 && |args| != kind then Fail(Next(ts, q))
      else Ok(Prototype(name, args, kind != 0, precedence), Next(ts, q))
  }

  /** `while (get_next_token() == tok_identifier) arg_names.push_back(identifier_str);`
      seen from the token just read. */
  function ProtoArgs(ts: seq<Tok>, q: nat, acc: seq<string>): (r: (seq<string>, nat))
    requires ValidStream(ts) && q < |ts|
    ensures q <= r.1 < |ts| && ts[r.1].code != TokIdentifier
    decreases |ts| - q
  {
    if ts[q].code == TokIdentifier then ProtoArgs(ts, Next(ts, q), acc + [ts[q].ident]) else (acc, q)
  }

  /** parse_definition, without the registry update it makes once the prototype parsed. */
  function ParseDefinition(ts: seq<Tok>, prec: Table, p: nat): (r: Parsed<Function>)
    requires ValidStream(ts) && p < |ts| && ts[p].code == TokDef
    ensures p <= r.pos < |ts| && (r.Ok? ==> p < r.pos)
  {
    var pr := ParsePrototype(ts, Next(ts, p));
    if pr.Fail? then Fail(pr.pos)
    else
      var e := ParseExpression(ts, prec, pr.pos);
      if e.Fail? then Fail(e.pos) else Ok(Function(pr.value, e.value), e.pos)
  }

  /** parse_extern */
  function ParseExtern(ts: seq<Tok>, p: nat): (r: Parsed<Prototype>)
    requires ValidStream(ts) && p < |ts| && ts[p].code == TokExtern
    ensures p <= r.pos < |ts| && (r.Ok? ==> p < r.pos)
  {
    ParsePrototype(ts, Next(ts, p))
  }

  /** parse_top_level_expression: the expression as the body of an anonymous function. */
  function ParseTopLevel(ts: seq<Tok>, prec: Table, p: nat): (r: Parsed<Function>)
    requires ValidStream(ts) && p < |ts|
    ensures p <= r.pos < |ts| && (r.Ok? ==> p < r.pos)
  {
    var e := ParseExpression(ts, prec, p);
    if e.Fail? then Fail(e.pos) else Ok(Function(NewPrototype(AnonFunction, []), e.value), e.pos)
  }
}
