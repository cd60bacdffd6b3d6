/** The name and scope bookkeeping of codegen.cpp, as functions on a value state. Emitted
    code is abstract: a lowered value is a term naming what the builder was asked to build,
    and a stack slot (an alloca) is a fresh number. */
module CodeGenSpec {
  import opened Wrappers
  import opened Ast
  import opened Precedence

  /** An llvm::Value as the code generator builds it. */
  datatype Value =
    | Const(text: string)                       // ConstantFP of a literal
    | Load(slot: nat)                           // a load from a stack slot
    | Arith(op: string, lhs: Value, rhs: Value) // fadd, fsub, fmul
    | LessThan(lhs: Value, rhs: Value)          // fcmp ult converted to 0.0 / 1.0
    | CallOf(callee: string, args: seq<Value>)  // a call instruction
    | Phi(cond: Value, thenVal: Value, elseVal: Value)

  /** The globals the code generator reads and writes: NamedValues (a missing key is a
      null entry), FunctionProtos, the functions of TheModule by name with their parameter
      names, BINOP_PRECEDENCE, and the next fresh stack slot. */
  datatype CgState = CgState(named: map<string, nat>, protos: map<string, Prototype>,
                             theModule: map<string, seq<string>>, prec: Table, nextSlot: nat)

  /** FunctionProtos is keyed by each prototype's own name. */
  predicate WellKeyed(protos: map<string, Prototype>) {
    forall n :: n in protos ==> protos[n].name == n
  }

  /** NamedValues[name], null as None. */
  function Lookup(named: map<string, nat>, name: string): Option<nat> {
    if name in named then Some(named[name]) else None
  }

  /** `NamedValues[name] = prior`, storing null as a missing key. */
  function Restore(named: map<string, nat>, name: string, prior: Option<nat>): (r: map<string, nat>)
    ensures Lookup(r, name) == prior
    ensures forall n :: n != name ==> Lookup(r, n) == Lookup(named, n)
  {
    match prior
    case Some(s) => named[name := s]
    case None => named - {name}
  }

  /** create_entry_block_alloca: a slot no earlier alloca has. */
  function Alloc(st: CgState): (r: (nat, CgState))
    ensures r.0 == st.nextSlot && r.1 == st.(nextSlot := st.nextSlot + 1)
  {
    (st.nextSlot, st.(nextSlot := st.nextSlot + 1))
  }

  /** PrototypeAST::codegen: declare the function in the module and return it (its
      parameter names). A clashing name gets a renamed copy, which is not modelled: the
      module keeps the function it had. */
  function ProtoCodegen(p: Prototype, st: CgState): (r: (seq<string>, CgState))
    ensures r.1 == st.(theModule := r.1.theModule)
    ensures p.name in r.1.theModule
    ensures forall n :: n in st.theModule ==> n in r.1.theModule && r.1.theModule[n] == st.theModule[n]
    ensures r.1.theModule.Keys == st.theModule.Keys + {p.name}
  {
    (p.args, if p.name in st.theModule then st else st.(theModule := st.theModule[p.name := p.args]))
  }

  /** The parameter names of the function `name` as get_function finds it: the module's
      own function first, then a stored prototype. */
  function KnownParams(st: CgState, name: string): Option<seq<string>> {
    if name in st.theModule then Some(st.theModule[name])
    else if name in st.protos then Some(st.protos[name].args)
    else None
  }

  /** get_function: the module first, then a stored prototype (declared on the way). It
      finds what KnownParams names and keeps every function the module had; with
      FunctionProtos keyed by name, it leaves the function declared and declares no other. */
  function GetFunction(st: CgState, name: string): (r: (Option<seq<string>>, CgState))
    ensures r.0 == KnownParams(st, name)
    ensures r.1 == st.(theModule := r.1.theModule)
    ensures WellKeyed(st.protos) && r.0.Some? ==> name in r.1.theModule && r.1.theModule[name] == r.0.value
    ensures r.0.None? ==> r.1 == st
    ensures forall n :: n in st.theModule ==> n in r.1.theModule && r.1.theModule[n] == st.theModule[n]
    ensures WellKeyed(st.protos) ==> r.1.theModule.Keys <= st.theModule.Keys + {name}
  {
    if name in st.theModule then (Some(st.theModule[name]), st)
    else if name in st.protos then
      var (f, s) := ProtoCodegen(st.protos[name], st);
      (Some(f), s)
    else (None, st)
  }

  /** The operators BinaryExprAST lowers itself, without a function. */
  predicate IsBuiltin(op: string) {
    op == "+" || op == "-" || op == "*" || op == "<" || op == ">"
  }

  /** ExprAST::codegen */
  function Gen(e: Expr, st: CgState): (r: (Option<Value>, CgState))
    decreases e, 2, 0
  {
    match e
    case Number(t) => (Some(Const(t)), st)
    case Variable(n) => if n in st.named then (Some(Load(st.named[n])), st) else (None, st)
    case Binary(_, _, _) => GenBinary(e, st)
    case Unary(_, _) => GenUnary(e, st)
    case Call(_, _) => GenCall(e, st)
    case If(_, _, _) => GenIf(e, st)
    case For(_, _, _, _, _) => GenFor(e, st)
    case With(_, _) => GenWith(e, st)
  }

  /** BinaryExprAST::codegen. `=` needs a variable on the left that is bound once the
      right side is lowered, and yields the right side's value. Any other operator lowers
      both sides first; `>` compares with the operands swapped; an operator without a
      built-in lowering calls the function "binary" + op. */
  function GenBinary(e: Expr, st: CgState): (r: (Option<Value>, CgState))
    requires e.Binary?
    ensures e.op == "=" && r.0.Some? ==> ClassOf(VariableExpr, e.lhs) && e.lhs.name in r.1.named
    ensures e.op == "=" && r.0.Some? ==> r.0 == Gen(e.rhs, st).0
    ensures (e.op == "=" && ClassOf(VariableExpr, e.lhs) && Gen(e.rhs, st).0.Some? &&
             e.lhs.name in Gen(e.rhs, st).1.named) ==> r.0.Some?
    ensures r.0.Some? && e.op != "=" && !IsBuiltin(e.op) ==>
              KnownParams(Gen(e.rhs, Gen(e.lhs, st).1).1, "binary" + e.op).Some? &&
              r.0.value.CallOf? && r.0.value.callee == "binary" + e.op && |r.0.value.args| == 2
    decreases e, 1, 0
  {
    if e.op == "=" then
      if !ClassOf(VariableExpr, e.lhs) then (None, st)
      else
        var (v, s1) := Gen(e.rhs, st);
        if v.None? then (None, s1)
        else if e.lhs.name !in s1.named then (None, s1)
        else (v, s1)
    else
      var (l, s1) := Gen(e.lhs, st);
      var (r, s2) := Gen(e.rhs, s1);
      if l.None? || r.None? then (None, s2)
      else if e.op == "+" || e.op == "-" || e.op == "*" then (Some(Arith(e.op, l.value, r.value)), s2)
      else if e.op == "<" then (Some(LessThan(l.value, r.value)), s2)
      else if e.op == ">" then (Some(LessThan(r.value, l.value)), s2)
      else
        var (f, s3) := GetFunction(s2, "binary" + e.op);
        if f.None? then (None, s3) else (Some(CallOf("binary" + e.op, [l.value, r.value])), s3)
  }

  /** UnaryExprAST::codegen: the function "unary" + op is looked up before the operand. */
  function GenUnary(e: Expr, st: CgState): (r: (Option<Value>, CgState))
    requires e.Unary?
    ensures r.0.Some? ==> KnownParams(st, "unary" + e.op).Some? &&
                          r.0.value.CallOf? && r.0.value.callee == "unary" + e.op && |r.0.value.args| == 1
    decreases e, 1, 0
  {
    var (f, s1) := GetFunction(st, "unary" + e.op);
    if f.None? then (None, s1)
    else
      var (v, s2) := Gen(e.operand, s1);
      if v.None? then (None, s2) else (Some(CallOf("unary" + e.op, [v.value])), s2)
  }

  /** CallExprAST::codegen: the callee must exist with as many parameters as there are
      arguments. */
  function GenCall(e: Expr, st: CgState): (r: (Option<Value>, CgState))
    requires e.Call?
    ensures r.0.Some? ==> KnownParams(st, e.callee).Some? && |KnownParams(st, e.callee).value| == |e.args|
    ensures r.0.Some? ==> r.0.value.CallOf? && r.0.value.callee == e.callee && |r.0.value.args| == |e.args|
    decreases e, 1, 0
  {
    var (f, s1) := GetFunction(st, e.callee);
    if f.None? then (None, s1)
    else if |f.value| != |e.args| then (None, s1)
    else
      var (vs, s2) := GenArgs(e, 0, s1, []);
      if vs.None? then (None, s2) else (Some(CallOf(e.callee, vs.value)), s2)
  }

  /** The argument loop of CallExprAST::codegen from argument i on, stopping at the first
      argument that fails. */
  function GenArgs(e: Expr, i: nat, st: CgState, acc: seq<Value>): (r: (Option<seq<Value>>, CgState))
    requires e.Call? && i <= |e.args|
    ensures r.0.Some? ==> |r.0.value| == |acc| + |e.args| - i && r.0.value[..|acc|] == acc
    decreases e, 0, |e.args| - i
  {
    if i == |e.args| then (Some(acc), st)
    else
      var (v, s1) := Gen(e.args[i], st);
      if v.None? then (None, s1) else GenArgs(e, i + 1, s1, acc + [v.value])
  }

  /** IfExprAST::codegen: condition, then branch, else branch, in that order. */
  function GenIf(e: Expr, st: CgState): (r: (Option<Value>, CgState))
    requires e.If?
    decreases e, 1, 0
  {
    var (c, s1) := Gen(e.cond, st);
    if c.None? then (None, s1)
    else
      var (t, s2) := Gen(e.thenBranch, s1);
      if t.None? then (None, s2)
      else
        var (f, s3) := Gen(e.elseBranch, s2);
        if f.None? then (None, s3) else (Some(Phi(c.value, t.value, f.value)), s3)
  }

  /** ForExprAST::codegen: a slot for the variable, the start value lowered outside its
      scope, then the variable shadowed while the condition, body and step are lowered.
      Only success restores the previous binding; the loop's value is 0. */
  function GenFor(e: Expr, st: CgState): (r: (Option<Value>, CgState))
    requires e.For?
    ensures r.0.Some? ==> r.0.value == Const("0")
    decreases e, 1, 0
  {
    var (slot, s0) := Alloc(st);
    var (sv, s1) := Gen(e.start, s0);
    if sv.None? then (None, s1)
    else
      var saved := Lookup(s1.named, e.varName);
      var s2 := s1.(named := s1.named[e.varName := slot]);
      var (cv, s3) := Gen(e.cond, s2);
      if cv.None? then (None, s3)
      else
        var (bv, s4) := Gen(e.body, s3);
        if bv.None? then (None, s4)
        else
          var (pv, s5) := Gen(e.step, s4);
          if pv.None? then (None, s5)
          else (Some(Const("0")), s5.(named := Restore(s5.named, e.varName, saved)))
  }

  /** WithExprAST::codegen: install the bindings one by one, lower the body, then put back
      the saved entries in list order. */
  function GenWith(e: Expr, st: CgState): (r: (Option<Value>, CgState))
    requires e.With?
    decreases e, 1, 0
  {
    var (saved, s1) := GenBindings(e, 0, st, []);
    if saved.None? then (None, s1)
    else
      var (b, s2) := Gen(e.body, s1);
      if b.None? then (None, s2)
      else (b, s2.(named := RestoreAll(s2.named, e.bindings, saved.value)))
  }

  /** The first loop of WithExprAST::codegen from binding i on. Each binding gets a slot,
      then its initializer (0 when missing) is lowered while the name still has its old
      entry, which is saved before the slot is installed. */
  function GenBindings(e: Expr, i: nat, st: CgState, saved: seq<Option<nat>>): (r: (Option<seq<Option<nat>>>, CgState))
    requires e.With? && i <= |e.bindings|
    ensures r.0.Some? ==> |r.0.value| == |saved| + |e.bindings| - i && r.0.value[..|saved|] == saved
    decreases e, 0, |e.bindings| - i
  {
    if i == |e.bindings| then (Some(saved), st)
    else
      var b := e.bindings[i];
      var (slot, s0) := Alloc(st);
      var (v, s1) := if b.init.Some? then Gen(b.init.value, s0) else (Some(Const("0")), s0);
      if v.None? then (None, s1)
      else GenBindings(e, i + 1, s1.(named := s1.named[b.name := slot]), saved + [Lookup(s1.named, b.name)])
  }

  /** The second loop of WithExprAST::codegen: `NamedValues[names[i]] = saved[i]` for i in
      list order. */
  function RestoreAll(named: map<string, nat>, bs: seq<Binding>, saved: seq<Option<nat>>): map<string, nat>
    decreases |bs|
  {
    if |bs| == 0 || |saved| == 0 then named
    else RestoreAll(Restore(named, bs[0].name, saved[0]), bs[1..], saved[1..])
  }

  /** The parameter loop of FunctionAST::codegen: a fresh slot per parameter, in order.
      NamedValues has just been cleared, so a name it already holds belongs to an earlier
      parameter; LLVM gave the later argument a renamed name, which is not modelled, and
      the raw name stays with the first parameter that has it. */
  function BindParams(params: seq<string>, st: CgState): (r: CgState)
    decreases |params|
  {
    if |params| == 0 then st
    else
      var (slot, s0) := Alloc(st);
      BindParams(params[1..], if params[0] in s0.named then s0 else s0.(named := s0.named[params[0] := slot]))
  }

  /** `BINOP_PRECEDENCE[p.get_operator_name()] = p.get_binary_precedence()` */
  function Publish(st: CgState, p: Prototype): CgState
    requires IsBinaryOp(p)
  {
    match GetOperatorName(p)
    case Some(op) => st.(prec := st.prec[op := GetBinaryPrecedence(p)])
    case None => st
  }

  /** FunctionAST::codegen. An unknown name has its prototype stored and declared. The
      parameters are those of the function found, which may come from an earlier prototype.
      Success publishes a binary operator's precedence; failure erases the function from
      the module but keeps a prototype stored on the way. */
  function GenFunction(fn: Function, st: CgState): (r: (bool, CgState))
  {
    var p := fn.proto;
    var (f, s1) := GetFunction(st, p.name);
    var (params, s2) := if f.Some? then (f.value, s1) else ProtoCodegen(p, s1.(protos := s1.protos[p.name := p]));
    if |params| != |p.args| then (false, s2)
    else
      var s3 := BindParams(params, s2.(named := map[]));
      var (v, s4) := Gen(fn.body, s3);
      if v.Some? then (true, if IsBinaryOp(p) then Publish(s4, p) else s4)
      else (false, s4.(theModule := s4.theModule - {p.name}))
  }
}
