/** The parser of parser.cpp as it runs: cur_tok is the position `pos` in the token
    snapshots, and each parse routine is a method proved to end exactly where, and with
    exactly what, the function of ParserSpec that specifies it says. A null result is None. */
module Parser {
  import opened Wrappers
  import opened Tokens
  import opened Ast
  import opened Precedence
  import opened ParserSpec

  /** A parse result as the method returns it: the node (None for nullptr) and cur_tok. */
  function Out<T>(r: Parsed<T>): (Option<T>, nat) {
    match r
    case Ok(v, q) => (Some(v), q)
    case Fail(q) => (None, q)
  }

  class Parser {
    var toks: seq<Tok>
    var pos: nat
    const binops: BinopTable

    predicate Valid()
      reads this
    {
      ValidStream(toks) && pos < |toks|
    }

    /** A parser over the given tokens reading the given BINOP_PRECEDENCE. cur_tok is the
        first token (handle_unit's first get_next_token). */
    constructor (ts: seq<Tok>, table: BinopTable)
      requires ValidStream(ts)
      ensures Valid() && toks == ts && pos == 0 && binops == table
    {
      toks, pos, binops := ts, 0, table;
    }

    /** set_lex_source followed by the first get_next_token of handle_unit: the tokens of
        a new unit. */
    method SetTokens(ts: seq<Tok>)
      requires ValidStream(ts)
      modifies this
      ensures Valid() && toks == ts && pos == 0
    {
      toks, pos := ts, 0;
    }

    /** get_next_token: returns the new cur_tok. */
    method GetNextToken() returns (tok: int)
      requires Valid()
      modifies this`pos
      ensures Valid() && pos == Next(toks, old(pos)) && tok == toks[pos].code
    {
      if pos + 1 < |toks| {
        pos := pos + 1;
      }
      tok := toks[pos].code;
    }

    /** get_tok_precedence */
    method GetTokPrecedence() returns (p: int)
      requires Valid()
      ensures p == TokPrecedence(toks[pos], binops.table)
    {
      var t := toks[pos];
      if t.code != TokOperator {
        return -1;
      }
      if t.op !in binops.table {
        return -1;
      }
      var tokPrec := binops.table[t.op];
      if tokPrec <= 0 {
        return -1;
      }
      return tokPrec;
    }

    method ParseNumberExpr() returns (r: Option<Expr>)
      requires Valid() && toks[pos].code == TokNumber
      modifies this`pos
      ensures Valid() && (r, pos) == Out(ParsePrimary(toks, binops.table, old(pos)))
    {
      var num := toks[pos].num;
      var _ := GetNextToken();
      r := Some(Number(num));
    }

    method ParseParenExpr() returns (r: Option<Expr>)
      requires Valid() && toks[pos].code == LParen
      modifies this`pos
      ensures Valid() && (r, pos) == Out(ParseParen(toks, binops.table, old(pos)))
      decreases |toks| - pos, 3
    {
      var _ := GetNextToken();
      r := ParseExpressionM();
      if r == None {
        return;
      }
      if toks[pos].code != RParen {
        return None;
      }
      var _ := GetNextToken();
    }

    method ParseIfExpr() returns (r: Option<Expr>)
      requires Valid() && toks[pos].code == TokIf
      modifies this`pos
      ensures Valid() && (r, pos) == Out(ParseIf(toks, binops.table, old(pos)))
      decreases |toks| - pos, 3
    {
      var _ := GetNextToken();
      var cond := ParseExpressionM();
      if cond == None {
        return None;
      }
      if toks[pos].code != TokThen {
        return None;
      }
      var _ := GetNextToken();
      var then_ := ParseExpressionM();
      if then_ == None {
        return None;
      }
      var else_: Expr;
      if toks[pos].code == TokElse {
        var _ := GetNextToken();
        var e := ParseExpressionM();
        if e == None {
          return None;
        }
        else_ := e.value;
      } else {
        else_ := Number("0");
      }
      r := Some(If(cond.value, then_.value, else_));
    }

    method ParseForExpr() returns (r: Option<Expr>)
      requires Valid() && toks[pos].code == TokFor
      modifies this`pos
      ensures Valid() && (r, pos) == Out(ParseFor(toks, binops.table, old(pos)))
      decreases |toks| - pos, 3
    {
      var _ := GetNextToken();
      if toks[pos].code != TokIdentifier {
        return None;
      }
      var name := toks[pos].ident;
      var _ := GetNextToken();
      if toks[pos].code != TokOperator && toks[pos].op != "=" {
        return None;
      }
      var _ := GetNextToken();
      r := ParseForClauses(name);
    }

    /** An expression followed by the token `code`, which is consumed. */
    method ParseExprThen(code: int) returns (r: Option<Expr>)
      requires Valid()
      modifies this`pos
      ensures Valid() && (r, pos) == Out(ExprThen(toks, binops.table, code, old(pos)))
      decreases |toks| - pos, 7
    {
      r := ParseExpressionM();
      if r == None {
        return;
      }
      if toks[pos].code != code {
        return None;
      }
      var _ := GetNextToken();
    }

    /** parse_for_expr from the start expression on. */
    method ParseForClauses(name: string) returns (r: Option<Expr>)
      requires Valid()
      modifies this`pos
      ensures Valid() && (r, pos) == Out(ForClauses(toks, binops.table, name, old(pos)))
      decreases |toks| - pos, 8
    {
      var start := ParseExprThen(Comma);
      if start == None {
        return None;
      }
      var cond := ParseExprThen(Comma);
      if cond == None {
        return None;
      }
      var step := ParseExprThen(TokDo);
      if step == None {
        return None;
      }
      var body := ParseExprThen(TokEnd);
      if body == None {
        return None;
      }
      r := Some(For(name, start.value, cond.value, step.value, body.value));
    }

    method ParseWithExpr() returns (r: Option<Expr>)
      requires Valid() && toks[pos].code == TokWith
      modifies this`pos
      ensures Valid() && (r, pos) == Out(ParseWith(toks, binops.table, old(pos)))
      decreases |toks| - pos, 3
    {
      var _ := GetNextToken();
      var bindings := ParseBindingList();
      if bindings == None {
        return None;
      }
      if toks[pos].code != TokDo {
        return None;
      }
      var _ := GetNextToken();
      var body := ParseExpressionM();
      if body == None {
        return None;
      }
      if toks[pos].code != TokEnd {
        return None;
      }
      var _ := GetNextToken();
      r := Some(With(bindings.value, body.value));
    }

    /** The do-while loop of parse_with_expr. */
    method ParseBindingList() returns (r: Option<seq<Binding>>)
      requires Valid()
      modifies this`pos
      ensures Valid() && (r, pos) == Out(ParseBindings(toks, binops.table, old(pos), []))
      decreases |toks| - pos, 3
    {
      var variables: seq<Binding> := [];
      while true
        invariant Valid() && old(pos) <= pos
        invariant ParseBindings(toks, binops.table, pos, variables) == ParseBindings(toks, binops.table, old(pos), [])
        decreases |toks| - pos
      {
        if toks[pos].code != TokIdentifier {
          return None;
        }
        ghost var p0 := pos;
        var name := toks[pos].ident;
        var _ := GetNextToken();
        var init: Option<Expr> := None;
        if IsAssign(toks[pos]) {
          var _ := GetNextToken();
          init := ParseExpressionM();
          if init == None {
            return None;
          }
        }
        variables := variables + [Binding(name, init)];
        if toks[pos].code != Comma {
          return Some(variables);
        }
        var _ := GetNextToken();
        assert p0 < pos;
      }
    }

    method ParseIdentifierExprM() returns (r: Option<Expr>)
      requires Valid() && toks[pos].code == TokIdentifier
      modifies this`pos
      ensures Valid() && (r, pos) == Out(ParseIdentifierExpr(toks, binops.table, old(pos)))
      decreases |toks| - pos, 3
    {
      var idName := toks[pos].ident;
      var _ := GetNextToken();
      if toks[pos].code != LParen {
        return Some(Variable(idName));
      }
      var _ := GetNextToken();
      var args: seq<Expr> := [];
      if toks[pos].code != RParen {
        var a := ParseArgList();
        if a == None {
          return None;
        }
        args := a.value;
      }
      var _ := GetNextToken();
      r := Some(Call(idName, args));
    }

    /** The argument loop of parse_identifier_expr. */
    method ParseArgList() returns (r: Option<seq<Expr>>)
      requires Valid()
      modifies this`pos
      ensures Valid() && (r, pos) == Out(ParseArgs(toks, binops.table, old(pos), []))
      decreases |toks| - pos, 7
    {
      var args: seq<Expr> := [];
      while true
        invariant Valid() && old(pos) <= pos
        invariant ParseArgs(toks, binops.table, pos, args) == ParseArgs(toks, binops.table, old(pos), [])
        decreases |toks| - pos
      {
        ghost var p0 := pos;
        var arg := ParseExpressionM();
        if arg == None {
          return None;
        }
        args := args + [arg.value];
        if toks[pos].code == RParen {
          return Some(args);
        }
        if toks[pos].code != Comma {
          return None;
        }
        var _ := GetNextToken();
        assert p0 < pos;
      }
    }

    method ParsePrimaryM() returns (r: Option<Expr>)
      requires Valid()
      modifies this`pos
      ensures Valid() && (r, pos) == Out(ParsePrimary(toks, binops.table, old(pos)))
      decreases |toks| - pos, 4
    {
      var c := toks[pos].code;
      if c == TokIdentifier {
        r := ParseIdentifierExprM();
      } else if c == TokNumber {
        r := ParseNumberExpr();
      } else if c == LParen {
        r := ParseParenExpr();
      } else if c == TokIf {
        r := ParseIfExpr();
      } else if c == TokFor {
        r := ParseForExpr();
      } else if c == TokWith {
        r := ParseWithExpr();
      } else {
        r := None;
      }
    }

    method ParseUnaryM() returns (r: Option<Expr>)
      requires Valid()
      modifies this`pos
      ensures Valid() && (r, pos) == Out(ParseUnary(toks, binops.table, old(pos)))
      decreases |toks| - pos, 5
    {
      if toks[pos].code != TokOperator {
        r := ParsePrimaryM();
        return;
      }
      var op := toks[pos].op;
      var _ := GetNextToken();
      var operand := ParseUnaryM();
      if operand == None {
        return None;
      }
      r := Some(Unary(op, operand.value));
    }

    /** parse_binop_rhs, with its loop. */
    method ParseBinopRhs(exprPrec: int, lhs0: Expr) returns (r: Option<Expr>)
      requires Valid()
      modifies this`pos
      ensures Valid() && (r, pos) == Out(BinopRhs(toks, binops.table, exprPrec, lhs0, old(pos)))
      decreases |toks| - pos, 8
    {
      var lhs := lhs0;
      while true
        invariant Valid() && old(pos) <= pos
        invariant BinopRhs(toks, binops.table, exprPrec, lhs, pos) == BinopRhs(toks, binops.table, exprPrec, lhs0, old(pos))
        decreases |toks| - pos
      {
        ghost var p0 := pos;
        var tokPrec := GetTokPrecedence();
        if tokPrec < exprPrec {
          return Some(lhs);
        }
        var binop := toks[pos].op;
        var _ := GetNextToken();
        var rhs := ParseUnaryM();
        if rhs == None {
          return None;
        }
        assert BinopRhs(toks, binops.table, exprPrec, lhs, p0) == BinopStep(toks, binops.table, exprPrec, tokPrec, binop, lhs, rhs.value, pos);
        var nextPrec := GetTokPrecedence();
        if tokPrec < nextPrec {
          rhs := ParseBinopRhs(tokPrec + 1, rhs.value);
          if rhs == None {
            return None;
          }
        }
        lhs := Binary(binop, lhs, rhs.value);
        assert p0 < pos;
      }
    }

    method ParseExpressionM() returns (r: Option<Expr>)
      requires Valid()
      modifies this`pos
      ensures Valid() && (r, pos) == Out(ParseExpression(toks, binops.table, old(pos)))
      decreases |toks| - pos, 6
    {
      var lhs := ParseUnaryM();
      if lhs == None {
        return None;
      }
      r := ParseBinopRhs(0, lhs.value);
    }

    /** parse_prototype, with its argument loop. */
    method ParsePrototypeM() returns (r: Option<Prototype>)
      requires Valid()
      modifies this`pos
      ensures Valid() && (r, pos) == Out(ParsePrototype(toks, old(pos)))
    {
      var fnName: string;
      var kind: nat := 0;
      var precedence: nat := 30;
      var t := toks[pos];
      if t.code == TokIdentifier {
        fnName := t.ident;
        var _ := GetNextToken();
      } else if t.code == TokBinary {
        fnName := "binary" + t.op;
        kind := 2;
        var _ := GetNextToken();
        if toks[pos].code == TokNumber {
          var lit := toks[pos].num;
          if BelowOne(lit) || AboveHundred(lit) {
            return None;
          }
          precedence := IntPart(lit);
          var _ := GetNextToken();
        }
      } else if t.code == TokUnary {
        fnName := "unary" + t.op;
        kind := 1;
        var _ := GetNextToken();
      } else {
        return None;
      }
      ghost var pOpen := pos;
      assert ParsePrototype(toks, old(pos)) == ProtoRest(toks, fnName, kind, precedence, pOpen);
      if toks[pos].code != LParen {
        return None;
      }
      var argNames: seq<string> := [];
      var tok := GetNextToken();
      while tok == TokIdentifier
        invariant Valid() && tok == toks[pos].code
        invariant ProtoArgs(toks, pos, argNames) == ProtoArgs(toks, Next(toks, pOpen), [])
        decreases |toks| - pos
      {
        argNames := argNames + [toks[pos].ident];
        tok := GetNextToken();
      }
      if toks[pos].code != RParen {
        return None;
      }
      var _ := GetNextToken();
      if kind != 0 && |argNames| != kind {
        return None;
      }
      r := Some(Prototype(fnName, argNames, kind != 0, precedence));
    }

    /** parse_extern */
    method ParseExternM() returns (r: Option<Prototype>)
      requires Valid() && toks[pos].code == TokExtern
      modifies this`pos
      ensures Valid() && (r, pos) == Out(ParseExtern(toks, old(pos)))
    {
      var _ := GetNextToken();
      r := ParsePrototypeM();
    }

    /** parse_top_level_expression */
    method ParseTopLevelM() returns (r: Option<Function>)
      requires Valid()
      modifies this`pos
      ensures Valid() && (r, pos) == Out(ParseTopLevel(toks, binops.table, old(pos)))
    {
      var e := ParseExpressionM();
      if e == None {
        return None;
      }
      r := Some(Function(NewPrototype(AnonFunction, []), e.value));
    }
  }
}
