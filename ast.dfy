/** The syntax tree of ast.h with the helpers of lib/ast.cpp: expressions are a closed sum
    type, each node carrying the kind tag its constructor gives it. */
module Ast {
  import opened Wrappers

  /** ExprAST::ExprKind */
  datatype ExprKind = NumberExpr | VariableExpr | BinaryExpr | UnaryExpr | CallExpr | IfExpr | ForExpr | WithExpr

  const AllKinds: seq<ExprKind> := [NumberExpr, VariableExpr, BinaryExpr, UnaryExpr, CallExpr, IfExpr, ForExpr, WithExpr]

  /** The enumeration lists eight distinct kinds and nothing else. */
  lemma KindsExact()
    ensures |AllKinds| == 8
    ensures forall i, j :: 0 <= i < j < |AllKinds| ==> AllKinds[i] != AllKinds[j]
    ensures forall k: ExprKind :: k in AllKinds
  {
    forall k: ExprKind ensures k in AllKinds {
      match k
      case NumberExpr => assert AllKinds[0] == k;
      case VariableExpr => assert AllKinds[1] == k;
      case BinaryExpr => assert AllKinds[2] == k;
      case UnaryExpr => assert AllKinds[3] == k;
      case CallExpr => assert AllKinds[4] == k;
      case IfExpr => assert AllKinds[5] == k;
      case ForExpr => assert AllKinds[6] == k;
      case WithExpr => assert AllKinds[7] == k;
    }
  }

  /** A number literal is kept as the text the lexer collected. */
  datatype Expr =
    | Number(text: string)
    | Variable(name: string)
    | Binary(op: string, lhs: Expr, rhs: Expr)
    | Unary(op: string, operand: Expr)
    | Call(callee: string, args: seq<Expr>)
    | If(cond: Expr, thenBranch: Expr, elseBranch: Expr)
    | For(varName: string, start: Expr, cond: Expr, step: Expr, body: Expr)
    | With(bindings: seq<Binding>, body: Expr)

  /** One `name [= init]` of a with list; a missing initializer is a null pointer. */
  datatype Binding = Binding(name: string, init: Option<Expr>)

  /** getKind(): the tag each constructor passes to ExprAST. IfExprAST passes CallExpr. */
  function Kind(e: Expr): (k: ExprKind)
    ensures e.If? ==> k == CallExpr
    ensures !e.If? ==> k == AllKinds[Index(e)]
  {
    match e
    case Number(_) => NumberExpr
    case Variable(_) => VariableExpr
    case Binary(_, _, _) => BinaryExpr
    case Unary(_, _) => UnaryExpr
    case Call(_, _) => CallExpr
    case If(_, _, _) => CallExpr
    case For(_, _, _, _, _) => ForExpr
    case With(_, _) => WithExpr
  }

  /** The position of a node's own class in the ExprKind enumeration. */
  function Index(e: Expr): (i: nat)
    ensures i < |AllKinds|
  {
    match e
    case Number(_) => 0
    case Variable(_) => 1
    case Binary(_, _, _) => 2
    case Unary(_, _) => 3
    case Call(_, _) => 4
    case If(_, _, _) => 5
    case For(_, _, _, _, _) => 6
    case With(_, _) => 7
  }

  /** `X::classof(E)`: E's kind equals the kind tag of class X. */
  predicate ClassOf(k: ExprKind, e: Expr) {
    Kind(e) == k
  }

  /** Every node but an if is recognised exactly by its own class; an if node is
      recognised by CallExprAST::classof and by no other, not even IfExprAST's. */
  lemma ClassOfExact(e: Expr, k: ExprKind)
    ensures !e.If? ==> (ClassOf(k, e) <==> k == AllKinds[Index(e)])
    ensures e.If? ==> (ClassOf(k, e) <==> k == CallExpr)
    ensures e.If? ==> !ClassOf(IfExpr, e)
  {
  }

  /** No node has kind IfExpr. */
  lemma NoIfKind(e: Expr)
    ensures Kind(e) != IfExpr
  {
  }

  /** ANON_FUNCTION */
  const AnonFunction: string := "__anon_expr"

  /** PrototypeAST: name, parameter names, whether it defines an operator and its
      precedence (an `unsigned`). */
  datatype Prototype = Prototype(name: string, args: seq<string>, isOperator: bool, precedence: nat)

  /** The PrototypeAST constructor with its default arguments. */
  function NewPrototype(name: string, args: seq<string>, isOperator: bool := false, prec: nat := 0): Prototype
  {
    Prototype(name, args, isOperator, prec)
  }

  /** Omitted arguments give an ordinary function of precedence 0. */
  lemma PrototypeDefaults(name: string, args: seq<string>)
    ensures !NewPrototype(name, args).isOperator && NewPrototype(name, args).precedence == 0
    ensures !IsUnaryOp(NewPrototype(name, args)) && !IsBinaryOp(NewPrototype(name, args))
  {
  }

  /** get_arg_size */
  function ArgSize(p: Prototype): nat
  {
    |p.args|
  }

  predicate IsUnaryOp(p: Prototype) {
    p.isOperator && |p.args| == 1
  }

  predicate IsBinaryOp(p: Prototype) {
    p.isOperator && |p.args| == 2
  }

  /** A prototype is never both a unary and a binary operator, and an ordinary function
      is neither. */
  lemma OperatorKindsExclusive(p: Prototype)
    ensures !(IsUnaryOp(p) && IsBinaryOp(p))
    ensures !p.isOperator ==> !IsUnaryOp(p) && !IsBinaryOp(p)
    ensures IsUnaryOp(p) <==> p.isOperator && ArgSize(p) == 1
    ensures IsBinaryOp(p) <==> p.isOperator && ArgSize(p) == 2
  {
  }

  /** get_binary_precedence */
  function GetBinaryPrecedence(p: Prototype): nat
  {
    p.precedence
  }

  /** w occurs in s at position j. */
  predicate OccursAt(s: string, w: string, j: nat) {
    j + |w| <= |s| && s[j..j + |w|] == w
  }

  /** The index of the first occurrence of w in s (std::string::find). */
  function Find(s: string, w: string): (r: Option<nat>)
    ensures r.Some? ==> OccursAt(s, w, r.value) && forall j: nat :: j < r.value ==> !OccursAt(s, w, j)
    ensures r.None? ==> forall j: nat :: !OccursAt(s, w, j)
  {
    FindFrom(s, w, 0)
  }

  function FindFrom(s: string, w: string, i: nat): (r: Option<nat>)
    requires forall j: nat :: j < i ==> !OccursAt(s, w, j)
    ensures r.Some? ==> OccursAt(s, w, r.value) && forall j: nat :: j < r.value ==> !OccursAt(s, w, j)
    ensures r.None? ==> forall j: nat :: !OccursAt(s, w, j)
    decreases |s| - i
  {
    if i + |w| > |s| then None
    else if OccursAt(s, w, i) then Some(i)
    else FindFrom(s, w, i + 1)
  }

  /** get_operator_name: the name after the first occurrence of "unary" or "binary".
      When the word is missing, `npos + size` wraps around to size - 1; a start past the
      end makes substr throw, which is None here. */
  function GetOperatorName(p: Prototype): (r: Option<string>)
    requires IsUnaryOp(p) || IsBinaryOp(p)
  {
    var search := if IsUnaryOp(p) then "unary" else "binary";
    var start := match Find(p.name, search) case Some(i) => i + |search| case None => |search| - 1;
    if start <= |p.name| then Some(p.name[start..]) else None
  }

  /** The parser names operators "binary" + op and "unary" + op; get_operator_name gives op
      back. */
  lemma OperatorNameRoundTrip(op: string, args: seq<string>, prec: nat)
    ensures |args| == 2 ==> GetOperatorName(Prototype("binary" + op, args, true, prec)) == Some(op)
    ensures |args| == 1 ==> GetOperatorName(Prototype("unary" + op, args, true, prec)) == Some(op)
  {
    if |args| == 2 {
      var n := "binary" + op;
      assert OccursAt(n, "binary", 0);
      assert n[6..] == op;
    }
    if |args| == 1 {
      var n := "unary" + op;
      assert OccursAt(n, "unary", 0);
      assert n[5..] == op;
    }
  }

  /** FunctionAST: a prototype and a body. */
  datatype Function = Function(proto: Prototype, body: Expr)

  /** FunctionAST::get_name */
  function GetName(f: Function): string
  {
    f.proto.name
  }

  /** What a prototype is built with is what its accessors give back: the name (also the
      name of a function defined with it), the number of parameters and the precedence. */
  lemma PrototypeAccessors(name: string, args: seq<string>, isOperator: bool, prec: nat, body: Expr)
    ensures var p := NewPrototype(name, args, isOperator, prec);
      p.name == name && ArgSize(p) == |args| && GetBinaryPrecedence(p) == prec &&
      GetName(Function(p, body)) == name
  {
  }
}
