/** The code generator of codegen.cpp as it runs: its globals are fields, BINOP_PRECEDENCE
    is the table shared with the parser, and each codegen routine is a method proved to
    compute the function of CodeGenSpec that specifies it. */
module CodeGen {
  import opened Wrappers
  import opened Ast
  import opened Precedence
  import opened CodeGenSpec

  class CodeGen {
    var named: map<string, nat>
    var protos: map<string, Prototype>
    var theModule: map<string, seq<string>>
    var nextSlot: nat
    const binops: BinopTable

    function State(): CgState
      reads this, binops
    {
      CgState(named, protos, theModule, binops.table, nextSlot)
    }

    /** Empty NamedValues, FunctionProtos and module, writing to the given table. */
    constructor (table: BinopTable)
      ensures binops == table
      ensures named == map[] && protos == map[] && theModule == map[] && nextSlot == 0
    {
      named, protos, theModule, nextSlot := map[], map[], map[], 0;
      binops := table;
    }

    /** initialize_modules_and_managers: a fresh, empty module. */
    method ResetModule()
      modifies this`theModule
      ensures theModule == map[]
    {
      theModule := map[];
    }

    /** `FunctionProtos[p.get_name()] = p`, replacing an earlier prototype of the name. */
    method StorePrototype(p: Prototype)
      modifies this`protos
      ensures protos == old(protos)[p.name := p]
    {
      protos := protos[p.name := p];
    }

    /** create_entry_block_alloca */
    method CreateEntryBlockAlloca() returns (slot: nat)
      modifies this`nextSlot
      ensures (slot, State()) == Alloc(old(State()))
    {
      slot := nextSlot;
      nextSlot := nextSlot + 1;
    }

    /** PrototypeAST::codegen */
    method ProtoCodegenM(p: Prototype) returns (params: seq<string>)
      modifies this`theModule
      ensures (params, State()) == ProtoCodegen(p, old(State()))
    {
      if p.name !in theModule {
        theModule := theModule[p.name := p.args];
      }
      params := p.args;
    }

    /** get_function */
    method GetFunctionM(name: string) returns (f: Option<seq<string>>)
      modifies this`theModule
      ensures (f, State()) == GetFunction(old(State()), name)
    {
      if name in theModule {
        return Some(theModule[name]);
      }
      if name in protos {
        var params := ProtoCodegenM(protos[name]);
        return Some(params);
      }
      return None;
    }

    /** ExprAST::codegen */
    method GenExpr(e: Expr) returns (v: Option<Value>)
      modifies this
      ensures (v, State()) == Gen(e, old(State()))
      decreases e, 2, 0
    {
      match e
      case Number(t) =>
        v := Some(Const(t));
      case Variable(n) =>
        if n in named {
          v := Some(Load(named[n]));
        } else {
          v := None;
        }
      case Binary(_, _, _) =>
        v := GenBinaryM(e);
      case Unary(_, _) =>
        v := GenUnaryM(e);
      case Call(_, _) =>
        v := GenCallM(e);
      case If(_, _, _) =>
        v := GenIfM(e);
      case For(_, _, _, _, _) =>
        v := GenForM(e);
      case With(_, _) =>
        v := GenWithM(e);
    }

    method GenBinaryM(e: Expr) returns (v: Option<Value>)
      requires e.Binary?
      modifies this
      ensures (v, State()) == GenBinary(e, old(State()))
      decreases e, 1, 0
    {
      if e.op == "=" {
        if !ClassOf(VariableExpr, e.lhs) {
          return None;
        }
        var val := GenExpr(e.rhs);
        if val == None {
          return None;
        }
        if e.lhs.name !in named {
          return None;
        }
        return val;
      }
      var l := GenExpr(e.lhs);
      var r := GenExpr(e.rhs);
      if l == None || r == None {
        return None;
      }
      if e.op == "+" || e.op == "-" || e.op == "*" {
        return Some(Arith(e.op, l.value, r.value));
      }
      if e.op == "<" {
        return Some(LessThan(l.value, r.value));
      }
      if e.op == ">" {
        return Some(LessThan(r.value, l.value));
      }
      var f := GetFunctionM("binary" + e.op);
      if f == None {
        return None;
      }
      return Some(CallOf("binary" + e.op, [l.value, r.value]));
    }

    method GenUnaryM(e: Expr) returns (v: Option<Value>)
      requires e.Unary?
      modifies this
      ensures (v, State()) == GenUnary(e, old(State()))
      decreases e, 1, 0
    {
      var f := GetFunctionM("unary" + e.op);
      if f == None {
        return None;
      }
      var operand := GenExpr(e.operand);
      if operand == None {
        return None;
      }
      return Some(CallOf("unary" + e.op, [operand.value]));
    }

    /** CallExprAST::codegen, with its argument loop. */
    method GenCallM(e: Expr) returns (v: Option<Value>)
      requires e.Call?
      modifies this
      ensures (v, State()) == GenCall(e, old(State()))
      decreases e, 1, 0
    {
      var f := GetFunctionM(e.callee);
      if f == None {
        return None;
      }
      if |f.value| != |e.args| {
        return None;
      }
      ghost var s1 := State();
      var argsV: seq<Value> := [];
      var i := 0;
      while i < |e.args|
        invariant i <= |e.args|
        invariant GenArgs(e, i, State(), argsV) == GenArgs(e, 0, s1, [])
        decreases |e.args| - i
      {
        var a := GenExpr(e.args[i]);
        if a == None {
          return None;
        }
        argsV := argsV + [a.value];
        i := i + 1;
      }
      return Some(CallOf(e.callee, argsV));
    }

    method GenIfM(e: Expr) returns (v: Option<Value>)
      requires e.If?
      modifies this
      ensures (v, State()) == GenIf(e, old(State()))
      decreases e, 1, 0
    {
      var c := GenExpr(e.cond);
      if c == None {
        return None;
      }
      var t := GenExpr(e.thenBranch);
      if t == None {
        return None;
      }
      var f := GenExpr(e.elseBranch);
      if f == None {
        return None;
      }
      return Some(Phi(c.value, t.value, f.value));
    }

    method GenForM(e: Expr) returns (v: Option<Value>)
      requires e.For?
      modifies this
      ensures (v, State()) == GenFor(e, old(State()))
      decreases e, 1, 0
    {
      var slot := CreateEntryBlockAlloca();
      var start := GenExpr(e.start);
      if start == None {
        return None;
      }
      var saved := Lookup(named, e.varName);
      named := named[e.varName := slot];
      var cond := GenExpr(e.cond);
      if cond == None {
        return None;
      }
      var body := GenExpr(e.body);
      if body == None {
        return None;
      }
      var step := GenExpr(e.step);
      if step == None {
        return None;
      }
      named := Restore(named, e.varName, saved);
      return Some(Const("0"));
    }

    /** WithExprAST::codegen, with its two loops. */
    method GenWithM(e: Expr) returns (v: Option<Value>)
      requires e.With?
      modifies this
      ensures (v, State()) == GenWith(e, old(State()))
      decreases e, 1, 0
    {
      var savedValues: seq<Option<nat>> := [];
      var i := 0;
      while i < |e.bindings|
        invariant i <= |e.bindings| && |savedValues| == i
        invariant GenBindings(e, i, State(), savedValues) == GenBindings(e, 0, old(State()), [])
        decreases |e.bindings| - i
      {
        var b := e.bindings[i];
        var ptr := CreateEntryBlockAlloca();
        if b.init.Some? {
          var initial := GenExpr(b.init.value);
          if initial == None {
            return None;
          }
        }
        savedValues := savedValues + [Lookup(named, b.name)];
        named := named[b.name := ptr];
        i := i + 1;
      }
      assert GenBindings(e, 0, old(State()), []) == (Some(savedValues), State());
      var body := GenExpr(e.body);
      if body == None {
        return None;
      }
      ghost var s2 := State();
      var j := 0;
      while j < |e.bindings|
        invariant j <= |e.bindings|
        invariant State() == s2.(named := named)
        invariant RestoreAll(named, e.bindings[j..], savedValues[j..]) == RestoreAll(s2.named, e.bindings, savedValues)
        decreases |e.bindings| - j
      {
        assert e.bindings[j..][1..] == e.bindings[j + 1..];
        assert savedValues[j..][1..] == savedValues[j + 1..];
        named := Restore(named, e.bindings[j].name, savedValues[j]);
        j := j + 1;
      }
      return body;
    }

    /** The parameter loop of FunctionAST::codegen. */
    method BindParamsM(params: seq<string>)
      modifies this`named, this`nextSlot
      ensures State() == BindParams(params, old(State()))
    {
      var i := 0;
      while i < |params|
        invariant i <= |params|
        invariant BindParams(params[i..], State()) == BindParams(params, old(State()))
        decreases |params| - i
      {
        assert params[i..][1..] == params[i + 1..];
        var slot := CreateEntryBlockAlloca();
        if params[i] !in named {
          named := named[params[i] := slot];
        }
        i := i + 1;
      }
    }

    /** FunctionAST::codegen */
    method GenFunctionM(fn: Function) returns (ok: bool)
      modifies this, binops
      ensures (ok, State()) == GenFunction(fn, old(State()))
    {
      var p := fn.proto;
      var f := GetFunctionM(p.name);
      var params: seq<string>;
      if f == None {
        protos := protos[p.name := p];
        params := ProtoCodegenM(p);
      } else {
        params := f.value;
      }
      if |params| != |p.args| {
        return false;
      }
      named := map[];
      BindParamsM(params);
      var retValue := GenExpr(fn.body);
      if retValue != None {
        if IsBinaryOp(p) {
          var op := GetOperatorName(p);
          if op.Some? {
            binops.table := binops.table[op.value := GetBinaryPrecedence(p)];
          }
        }
        return true;
      }
      theModule := theModule - {p.name};
      return false;
    }
  }
}
