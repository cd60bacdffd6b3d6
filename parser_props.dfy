/** What the parser of parser.cpp promises, proved on the functions of ParserSpec: how
    operators group, where an expression stops, how lists keep source order, and the rules
    a prototype has to meet. */
module ParserProps {
  import opened Wrappers
  import opened Tokens
  import opened Ast
  import opened Precedence
  import opened ParserSpec

  /** Snapshots for the examples below; the stale globals are left empty. */
  function IdentTok(a: string): Tok { Tok(TokIdentifier, a, "", "") }
  function OpTok(o: string): Tok { Tok(TokOperator, "", o, "") }
  function KeywordTok(code: int): Tok { Tok(code, "", "", "") }
  const EofTok: Tok := Tok(TokEof, "", "", "")

  /** A variable reference is one identifier not followed by `(`. */
  lemma VariableAt(ts: seq<Tok>, prec: Table, p: nat)
    requires ValidStream(ts) && p + 1 < |ts|
    requires ts[p].code == TokIdentifier && ts[p + 1].code != LParen
    ensures ParseUnary(ts, prec, p) == Ok(Variable(ts[p].ident), p + 1)
  {
    assert ParseIdentifierExpr(ts, prec, p) == Ok(Variable(ts[p].ident), p + 1);
  }

  /** Operators of equal precedence group to the left: `a o1 b o2 c` is `(a o1 b) o2 c`. */
  lemma EqualPrecedenceGroupsLeft(a: string, b: string, c: string, o1: string, o2: string, prec: Table)
    requires o1 in prec && o2 in prec && prec[o1] > 0 && prec[o1] == prec[o2]
    ensures var ts := [IdentTok(a), OpTok(o1), IdentTok(b), OpTok(o2), IdentTok(c), EofTok];
      ParseExpression(ts, prec, 0) == Ok(Binary(o2, Binary(o1, Variable(a), Variable(b)), Variable(c)), 5)
  {
    var ts := [IdentTok(a), OpTok(o1), IdentTok(b), OpTok(o2), IdentTok(c), EofTok];
    var tp := prec[o1];
    var ab := Binary(o1, Variable(a), Variable(b));
    var abc := Binary(o2, ab, Variable(c));
    VariableAt(ts, prec, 0);
    VariableAt(ts, prec, 2);
    VariableAt(ts, prec, 4);
    assert TokPrecedence(ts[1], prec) == tp && TokPrecedence(ts[3], prec) == tp;
    assert TokPrecedence(ts[5], prec) == -1;
    assert BinopRhs(ts, prec, 0, abc, 5) == Ok(abc, 5);
    assert BinopStep(ts, prec, 0, tp, o2, ab, Variable(c), 5) == Ok(abc, 5);
    assert BinopRhs(ts, prec, 0, ab, 3) == Ok(abc, 5);
    assert BinopStep(ts, prec, 0, tp, o1, Variable(a), Variable(b), 3) == Ok(abc, 5);
    assert BinopRhs(ts, prec, 0, Variable(a), 1) == Ok(abc, 5);
  }

  /** A tighter operator on the right takes the middle operand: `a o1 b o2 c` is
      `a o1 (b o2 c)` when o2 binds tighter. */
  lemma TighterPrecedenceGroupsRight(a: string, b: string, c: string, o1: string, o2: string, prec: Table)
    requires o1 in prec && o2 in prec && 0 < prec[o1] < prec[o2]
    ensures var ts := [IdentTok(a), OpTok(o1), IdentTok(b), OpTok(o2), IdentTok(c), EofTok];
      ParseExpression(ts, prec, 0) == Ok(Binary(o1, Variable(a), Binary(o2, Variable(b), Variable(c))), 5)
  {
    var ts := [IdentTok(a), OpTok(o1), IdentTok(b), OpTok(o2), IdentTok(c), EofTok];
    var t1, t2 := prec[o1], prec[o2];
    var bc := Binary(o2, Variable(b), Variable(c));
    var abc := Binary(o1, Variable(a), bc);
    VariableAt(ts, prec, 0);
    VariableAt(ts, prec, 2);
    VariableAt(ts, prec, 4);
    assert TokPrecedence(ts[1], prec) == t1 && TokPrecedence(ts[3], prec) == t2;
    assert TokPrecedence(ts[5], prec) == -1;
    assert BinopRhs(ts, prec, t1 + 1, bc, 5) == Ok(bc, 5);
    assert BinopStep(ts, prec, t1 + 1, t2, o2, Variable(b), Variable(c), 5) == Ok(bc, 5);
    assert BinopRhs(ts, prec, t1 + 1, Variable(b), 3) == Ok(bc, 5);
    assert BinopRhs(ts, prec, 0, abc, 5) == Ok(abc, 5);
    assert BinopStep(ts, prec, 0, t1, o1, Variable(a), Variable(b), 3) == Ok(abc, 5);
    assert BinopRhs(ts, prec, 0, Variable(a), 1) == Ok(abc, 5);
  }

  /** With the seeded table, `a - b - c` is `(a - b) - c` and `a + b * c` is `a + (b * c)`. */
  lemma SeededGrouping(a: string, b: string, c: string)
    ensures ParseExpression([IdentTok(a), OpTok("-"), IdentTok(b), OpTok("-"), IdentTok(c), EofTok], Seed, 0)
      == Ok(Binary("-", Binary("-", Variable(a), Variable(b)), Variable(c)), 5)
    ensures ParseExpression([IdentTok(a), OpTok("+"), IdentTok(b), OpTok("*"), IdentTok(c), EofTok], Seed, 0)
      == Ok(Binary("+", Variable(a), Binary("*", Variable(b), Variable(c))), 5)
  {
    SeedContents();
    EqualPrecedenceGroupsLeft(a, b, c, "-", "-", Seed);
    TighterPrecedenceGroupsRight(a, b, c, "+", "*", Seed);
  }

  /** An operator with no positive entry in the table does not continue an expression:
      `a % b` parses as `a` and leaves cur_tok on `%`. */
  lemma UnknownOperatorEndsExpression(a: string, o: string, b: string, prec: Table)
    requires o !in prec || prec[o] <= 0
    ensures ParseExpression([IdentTok(a), OpTok(o), IdentTok(b), EofTok], prec, 0) == Ok(Variable(a), 1)
  {
    var ts := [IdentTok(a), OpTok(o), IdentTok(b), EofTok];
    VariableAt(ts, prec, 0);
    assert TokPrecedence(ts[1], prec) == -1;
  }

  /** A successful parse_binop_rhs stops at a token whose precedence is below exprPrec. */
  lemma {:induction false} BinopRhsStops(ts: seq<Tok>, prec: Table, exprPrec: int, lhs: Expr, p: nat)
    requires ValidStream(ts) && p < |ts|
    ensures BinopRhs(ts, prec, exprPrec, lhs, p).Ok? ==>
      TokPrecedence(ts[BinopRhs(ts, prec, exprPrec, lhs, p).pos], prec) < exprPrec
    decreases |ts| - p, 0
  {
    var tp := TokPrecedence(ts[p], prec);
    if tp >= exprPrec {
      var rhs := ParseUnary(ts, prec, Next(ts, p));
      if rhs.Ok? {
        BinopStepStops(ts, prec, exprPrec, tp, ts[p].op, lhs, rhs.value, rhs.pos);
      }
    }
  }

  lemma {:induction false} BinopStepStops(ts: seq<Tok>, prec: Table, exprPrec: int, tp: int, op: string, lhs: Expr, rhs: Expr, q: nat)
    requires ValidStream(ts) && q < |ts|
    ensures BinopStep(ts, prec, exprPrec, tp, op, lhs, rhs, q).Ok? ==>
      TokPrecedence(ts[BinopStep(ts, prec, exprPrec, tp, op, lhs, rhs, q).pos], prec) < exprPrec
    decreases |ts| - q, 1
  {
    if tp < TokPrecedence(ts[q], prec) {
      var r2 := BinopRhs(ts, prec, tp + 1, rhs, q);
      if r2.Ok? {
        BinopRhsStops(ts, prec, exprPrec, Binary(op, lhs, r2.value), r2.pos);
      }
    } else {
      BinopRhsStops(ts, prec, exprPrec, Binary(op, lhs, rhs), q);
    }
  }

  /** A successful expression ends at a token that is not a known binary operator. */
  lemma ExpressionStops(ts: seq<Tok>, prec: Table, p: nat)
    requires ValidStream(ts) && p < |ts|
    ensures ParseExpression(ts, prec, p).Ok? ==> TokPrecedence(ts[ParseExpression(ts, prec, p).pos], prec) == -1
  {
    var u := ParseUnary(ts, prec, p);
    if u.Ok? {
      BinopRhsStops(ts, prec, 0, u.value, u.pos);
      TokPrecedenceMeaning(ts[ParseExpression(ts, prec, p).pos], prec);
    }
  }

  /** Operator tokens before an operand are nested unary operators, one per token:
      `! ! s` is unary!(unary!(s)) while `!!s` is unary!!(s). */
  lemma UnaryChains(s: string, prec: Table)
    ensures ParseExpression([OpTok("!"), OpTok("!"), IdentTok(s), EofTok], prec, 0)
      == Ok(Unary("!", Unary("!", Variable(s))), 3)
    ensures ParseExpression([OpTok("!!"), IdentTok(s), EofTok], prec, 0) == Ok(Unary("!!", Variable(s)), 2)
  {
    var ts := [OpTok("!"), OpTok("!"), IdentTok(s), EofTok];
    VariableAt(ts, prec, 2);
    assert ParseUnary(ts, prec, 1) == Ok(Unary("!", Variable(s)), 3);
    assert ParseUnary(ts, prec, 0) == Ok(Unary("!", Unary("!", Variable(s))), 3);
    assert TokPrecedence(ts[3], prec) == -1;
    var us := [OpTok("!!"), IdentTok(s), EofTok];
    VariableAt(us, prec, 1);
    assert ParseUnary(us, prec, 0) == Ok(Unary("!!", Variable(s)), 2);
    assert TokPrecedence(us[2], prec) == -1;
  }

  /** `if x then y` without else has the literal 0 as its else branch. */
  lemma IfDefaultsElse(x: string, y: string, prec: Table)
    ensures ParseExpression([KeywordTok(TokIf), IdentTok(x), KeywordTok(TokThen), IdentTok(y), EofTok], prec, 0)
      == Ok(If(Variable(x), Variable(y), Number("0")), 4)
  {
    var ts := [KeywordTok(TokIf), IdentTok(x), KeywordTok(TokThen), IdentTok(y), EofTok];
    VariableAt(ts, prec, 1);
    VariableAt(ts, prec, 3);
    assert TokPrecedence(ts[2], prec) == -1 && TokPrecedence(ts[4], prec) == -1;
    assert ParseExpression(ts, prec, 1) == Ok(Variable(x), 2);
    assert ParseExpression(ts, prec, 3) == Ok(Variable(y), 4);
    assert ParseIf(ts, prec, 0) == Ok(If(Variable(x), Variable(y), Number("0")), 4);
    assert ParseUnary(ts, prec, 0) == Ok(If(Variable(x), Variable(y), Number("0")), 4);
  }

  /** An if expression parses only with `then`; its else branch is the literal 0 exactly
      when no `else` follows the then branch. */
  lemma IfShape(ts: seq<Tok>, prec: Table, p: nat)
    requires ValidStream(ts) && p < |ts| && ts[p].code == TokIf
    ensures var r := ParseIf(ts, prec, p);
      var c := ParseExpression(ts, prec, Next(ts, p));
      r.Ok? ==> (c.Ok? && ts[c.pos].code == TokThen && r.value.If? && r.value.cond == c.value &&
        var t := ParseExpression(ts, prec, Next(ts, c.pos));
        t.Ok? && r.value.thenBranch == t.value &&
        (ts[t.pos].code != TokElse ==> r.value.elseBranch == Number("0") && r.pos == t.pos))
  {
  }

  /** The with list keeps the bindings in source order after what was already collected. */
  lemma {:induction false} BindingsAppend(ts: seq<Tok>, prec: Table, p: nat, acc: seq<Binding>)
    requires ValidStream(ts) && p < |ts|
    ensures var r := ParseBindings(ts, prec, p, acc);
      var r0 := ParseBindings(ts, prec, p, []);
      r.Ok? == r0.Ok? && r.pos == r0.pos && (r.Ok? ==> r.value == acc + r0.value)
    decreases |ts| - p, 1
  {
    assert forall b: Binding :: [] + [b] == [b];
    if ts[p].code == TokIdentifier {
      var q := Next(ts, p);
      if IsAssign(ts[q]) {
        var e := ParseExpression(ts, prec, Next(ts, q));
        if e.Ok? {
          MoreAppend(ts, prec, acc, Binding(ts[p].ident, Some(e.value)), e.pos);
        }
      } else {
        MoreAppend(ts, prec, acc, Binding(ts[p].ident, None), q);
      }
    }
  }

  lemma {:induction false} MoreAppend(ts: seq<Tok>, prec: Table, acc: seq<Binding>, b: Binding, q: nat)
    requires ValidStream(ts) && q < |ts|
    ensures var r := MoreBindings(ts, prec, acc + [b], q);
      var r0 := MoreBindings(ts, prec, [b], q);
      r.Ok? == r0.Ok? && r.pos == r0.pos && (r.Ok? ==> r.value == acc + r0.value) &&
      (r0.Ok? ==> |r0.value| > 0 && r0.value[0] == b)
    decreases |ts| - q, 0
  {
    if ts[q].code == Comma {
      var n := Next(ts, q);
      BindingsAppend(ts, prec, n, acc + [b]);
      BindingsAppend(ts, prec, n, [b]);
      var rest := ParseBindings(ts, prec, n, []);
      if rest.Ok? {
        assert acc + [b] + rest.value == acc + ([b] + rest.value);
      }
    }
  }

  /** The first binding of a with list is named by its first identifier and has no
      initializer (a null pointer) exactly when no `=` operator follows the name. */
  lemma FirstBinding(ts: seq<Tok>, prec: Table, p: nat)
    requires ValidStream(ts) && p < |ts|
    ensures var r := ParseBindings(ts, prec, p, []);
      r.Ok? ==> (|r.value| > 0 && ts[p].code == TokIdentifier && r.value[0].name == ts[p].ident &&
        (r.value[0].init.None? <==> !IsAssign(ts[Next(ts, p)])))
  {
    if ts[p].code == TokIdentifier {
      var q := Next(ts, p);
      if IsAssign(ts[q]) {
        var e := ParseExpression(ts, prec, Next(ts, q));
        if e.Ok? {
          MoreAppend(ts, prec, [], Binding(ts[p].ident, Some(e.value)), e.pos);
          assert [] + [Binding(ts[p].ident, Some(e.value))] == [Binding(ts[p].ident, Some(e.value))];
        }
      } else {
        MoreAppend(ts, prec, [], Binding(ts[p].ident, None), q);
        assert [] + [Binding(ts[p].ident, None)] == [Binding(ts[p].ident, None)];
      }
    }
  }

  /** `with a, b = n do a end`: source order, a null initializer for a, the literal for b. */
  lemma WithExample(a: string, b: string, n: string, prec: Table)
    requires "=" !in prec || prec["="] <= 0
    ensures var ts := [KeywordTok(TokWith), IdentTok(a), KeywordTok(Comma), IdentTok(b), OpTok("="),
                       Tok(TokNumber, "", "", n), KeywordTok(TokDo), IdentTok(a), KeywordTok(TokEnd), EofTok];
      ParseExpression(ts, prec, 0) == Ok(With([Binding(a, None), Binding(b, Some(Number(n)))], Variable(a)), 9)
  {
    var ts := [KeywordTok(TokWith), IdentTok(a), KeywordTok(Comma), IdentTok(b), OpTok("="),
               Tok(TokNumber, "", "", n), KeywordTok(TokDo), IdentTok(a), KeywordTok(TokEnd), EofTok];
    assert TokPrecedence(ts[6], prec) == -1 && TokPrecedence(ts[8], prec) == -1;
    assert ParseUnary(ts, prec, 5) == Ok(Number(n), 6);
    assert ParseExpression(ts, prec, 5) == Ok(Number(n), 6);
    assert ts[1].code == TokIdentifier && ts[2].code == Comma && ts[3].code == TokIdentifier;
    assert ts[4].code == TokOperator && ts[4].op == "=" && ts[6].code != Comma;
    var bs := [Binding(a, None), Binding(b, Some(Number(n)))];
    assert MoreBindings(ts, prec, bs, 6) == Ok(bs, 6);
    assert [Binding(a, None)] + [Binding(b, Some(Number(n)))] == bs;
    assert [] + [Binding(a, None)] == [Binding(a, None)];
    assert ParseBindings(ts, prec, 3, [Binding(a, None)]) == Ok([Binding(a, None), Binding(b, Some(Number(n)))], 6);
    assert ParseBindings(ts, prec, 1, []) == Ok([Binding(a, None), Binding(b, Some(Number(n)))], 6);
    VariableAt(ts, prec, 7);
    assert ParseExpression(ts, prec, 7) == Ok(Variable(a), 8);
    assert ParseWith(ts, prec, 0) == Ok(With([Binding(a, None), Binding(b, Some(Number(n)))], Variable(a)), 9);
    assert ParseUnary(ts, prec, 0) == Ok(With([Binding(a, None), Binding(b, Some(Number(n)))], Variable(a)), 9);
  }

  /** Call arguments keep source order after what was already collected. */
  lemma {:induction false} ArgsAppend(ts: seq<Tok>, prec: Table, p: nat, acc: seq<Expr>)
    requires ValidStream(ts) && p < |ts|
    ensures var r := ParseArgs(ts, prec, p, acc);
      var r0 := ParseArgs(ts, prec, p, []);
      r.Ok? == r0.Ok? && r.pos == r0.pos && (r.Ok? ==> r.value == acc + r0.value)
    decreases |ts| - p
  {
    var e := ParseExpression(ts, prec, p);
    if e.Ok? && ts[e.pos].code == Comma {
      var n := Next(ts, e.pos);
      ArgsAppend(ts, prec, n, acc + [e.value]);
      ArgsAppend(ts, prec, n, [e.value]);
      assert [] + [e.value] == [e.value];
      var rest := ParseArgs(ts, prec, n, []);
      if rest.Ok? {
        assert acc + [e.value] + rest.value == acc + ([e.value] + rest.value);
      }
    }
  }

  /** The check after a for loop's variable accepts any operator token, not only `=`, and
      any token at all while operator_name still reads "="; it rejects exactly the rest. */
  lemma ForHeaderAsWritten(ts: seq<Tok>, prec: Table, p: nat)
    requires ValidStream(ts) && p + 3 < |ts| && ts[p].code == TokFor && ts[p + 1].code == TokIdentifier
    ensures ts[p + 2].code == TokOperator || ts[p + 2].op == "=" ==>
      ParseFor(ts, prec, p) == ForClauses(ts, prec, ts[p + 1].ident, p + 3)
    ensures ts[p + 2].code != TokOperator && ts[p + 2].op != "=" ==> ParseFor(ts, prec, p) == Fail(p + 2)
  {
    assert Next(ts, p) == p + 1 && Next(ts, p + 1) == p + 2 && Next(ts, p + 2) == p + 3;
  }

  /** The argument loop of parse_prototype collects the identifiers from q on, in order,
      and stops at the first other token. */
  lemma {:induction false} ProtoArgsScan(ts: seq<Tok>, q: nat, acc: seq<string>)
    requires ValidStream(ts) && q < |ts|
    ensures var (args, e) := ProtoArgs(ts, q, acc);
      |args| >= |acc| && args[..|acc|] == acc && e == q + (|args| - |acc|) &&
      forall i :: q <= i < e ==> ts[i].code == TokIdentifier && args[|acc| + (i - q)] == ts[i].ident
    decreases |ts| - q
  {
    if ts[q].code == TokIdentifier {
      var q1 := Next(ts, q);
      ProtoArgsScan(ts, q1, acc + [ts[q].ident]);
      var (args, e) := ProtoArgs(ts, q1, acc + [ts[q].ident]);
      assert args[..|acc| + 1] == acc + [ts[q].ident];
      assert args[..|acc|] == (acc + [ts[q].ident])[..|acc|];
    }
  }

  /** The integer part of an accepted precedence literal lies in [1, 100]. */
  lemma AcceptedPrecedence(t: string)
    requires !BelowOne(t) && !AboveHundred(t)
    ensures 1 <= IntPart(t) <= 100
  {
  }

  /** parse_prototype: an ordinary function, a unary operator or a binary operator, named
      after the identifier or "unary"/"binary" followed by the operator; an operator has
      exactly one or two parameters; a binary operator's precedence is its literal's
      integer part, rejected outside [1, 100], and 30 without a literal (as is every other
      prototype's); the operator name comes back out of the prototype. */
  lemma PrototypeRules(ts: seq<Tok>, p: nat)
    requires ValidStream(ts) && p < |ts|
    ensures var r := ParsePrototype(ts, p); var t := ts[p];
      (r.Ok? ==> t.code == TokIdentifier || t.code == TokUnary || t.code == TokBinary) &&
      (r.Ok? && t.code == TokIdentifier ==>
        r.value.name == t.ident && !r.value.isOperator && r.value.precedence == 30) &&
      (r.Ok? && t.code == TokUnary ==>
        r.value.name == "unary" + t.op && IsUnaryOp(r.value) && r.value.precedence == 30 &&
        GetOperatorName(r.value) == Some(t.op)) &&
      (r.Ok? && t.code == TokBinary ==>
        r.value.name == "binary" + t.op && IsBinaryOp(r.value) && 1 <= r.value.precedence <= 100 &&
        GetOperatorName(r.value) == Some(t.op) &&
        (ts[Next(ts, p)].code == TokNumber ==> r.value.precedence == IntPart(ts[Next(ts, p)].num)) &&
        (ts[Next(ts, p)].code != TokNumber ==> r.value.precedence == 30))
    ensures (ts[p].code == TokBinary && ts[Next(ts, p)].code == TokNumber &&
      (BelowOne(ts[Next(ts, p)].num) || AboveHundred(ts[Next(ts, p)].num))) ==> ParsePrototype(ts, p).Fail?
  {
    var r := ParsePrototype(ts, p);
    if r.Ok? && r.value.isOperator {
      OperatorNameRoundTrip(ts[p].op, r.value.args, r.value.precedence);
    }
  }

  /** The tokens from q on are identifiers spelling `args`, in order. */
  predicate IdentsAt(ts: seq<Tok>, q: nat, args: seq<string>) {
    q + |args| <= |ts| &&
    forall i :: 0 <= i < |args| ==> ts[q + i].code == TokIdentifier && args[i] == ts[q + i].ident
  }

  /** The argument loop collects exactly the identifiers it passes. */
  lemma ArgsIdents(ts: seq<Tok>, q: nat)
    requires ValidStream(ts) && q < |ts|
    ensures IdentsAt(ts, q, ProtoArgs(ts, q, []).0)
  {
    var (args, e) := ProtoArgs(ts, q, []);
    ProtoArgsScan(ts, q, []);
    forall i | 0 <= i < |args|
      ensures ts[q + i].code == TokIdentifier && args[i] == ts[q + i].ident
    {
      assert q <= q + i < e;
    }
  }

  /** The parameters of a parsed prototype are the identifiers after its `(`, in order. */
  lemma PrototypeParameters(ts: seq<Tok>, p: nat, open: nat)
    requires ValidStream(ts) && open < |ts| && ts[open].code == LParen
    requires p < |ts| && (ts[p].code == TokIdentifier || ts[p].code == TokUnary) && open == Next(ts, p)
    ensures var r := ParsePrototype(ts, p);
      r.Ok? ==> IdentsAt(ts, Next(ts, open), r.value.args)
  {
    PrototypeViaRest(ts, p);
    if ts[p].code == TokIdentifier {
      ProtoRestArgs(ts, ts[p].ident, 0, 30, open);
    } else {
      ProtoRestArgs(ts, "unary" + ts[p].op, 1, 30, open);
    }
    ArgsIdents(ts, Next(ts, open));
  }

  /** An ordinary or unary prototype is its name and kind followed by the part from `(` on. */
  lemma PrototypeViaRest(ts: seq<Tok>, p: nat)
    requires ValidStream(ts) && p < |ts|
    ensures ts[p].code == TokIdentifier ==> ParsePrototype(ts, p) == ProtoRest(ts, ts[p].ident, 0, 30, Next(ts, p))
    ensures ts[p].code == TokUnary ==> ParsePrototype(ts, p) == ProtoRest(ts, "unary" + ts[p].op, 1, 30, Next(ts, p))
  {
  }

  /** The parameters of a prototype parsed from its `(` on are those the argument loop
      collected. */
  lemma ProtoRestArgs(ts: seq<Tok>, name: string, kind: nat, precedence: nat, open: nat)
    requires ValidStream(ts) && open < |ts|
    ensures var r := ProtoRest(ts, name, kind, precedence, open);
      r.Ok? ==> ts[open].code == LParen && r.value.args == ProtoArgs(ts, Next(ts, open), []).0
  {
  }

  /** A top-level expression becomes the body of the anonymous nullary function. */
  lemma TopLevelIsAnonymous(ts: seq<Tok>, prec: Table, p: nat)
    requires ValidStream(ts) && p < |ts|
    ensures var r := ParseTopLevel(ts, prec, p); var e := ParseExpression(ts, prec, p);
      r.Ok? == e.Ok? && r.pos == e.pos &&
      (r.Ok? ==> GetName(r.value) == AnonFunction && r.value.proto.args == [] &&
                 !r.value.proto.isOperator && r.value.body == e.value)
  {
  }

  /** A definition is a parsed prototype followed by a parsed body expression. */
  lemma DefinitionParts(ts: seq<Tok>, prec: Table, p: nat)
    requires ValidStream(ts) && p < |ts| && ts[p].code == TokDef
    ensures var r := ParseDefinition(ts, prec, p); var pr := ParsePrototype(ts, Next(ts, p));
      r.Ok? <==> pr.Ok? && ParseExpression(ts, prec, pr.pos).Ok?
    ensures var r := ParseDefinition(ts, prec, p); var pr := ParsePrototype(ts, Next(ts, p));
      r.Ok? ==> r.value.proto == pr.value && r.value.body == ParseExpression(ts, prec, pr.pos).value
  {
  }
}
