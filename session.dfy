/** The top level as it runs: the parser and the code generator share one
    BINOP_PRECEDENCE, FunctionRTs and the JIT's trackers are fields, and each handler is a
    method proved to compute the function of SessionSpec that specifies it, keeping the
    bookkeeping of SessionProps.Consistent. */
module Session {
  import opened Wrappers
  import opened Tokens
  import opened Ast
  import opened Precedence
  import opened ParserSpec
  import opened CodeGenSpec
  import opened SessionSpec
  import opened SessionProps
  import P = Parser
  import C = CodeGen

  class Session {
    const parser: P.Parser
    const cg: C.CodeGen
    var registry: map<string, nat>
    var live: set<nat>
    var nextTracker: nat

    function JitState(): Jit
      reads this
    {
      Jit(registry, live, nextTracker)
    }

    function WorldOf(): World
      reads this, parser, cg, cg.binops
    {
      World(parser.toks, parser.pos, cg.State(), JitState())
    }

    /** The parser reads the table the code generator writes, and the bookkeeping is
        consistent. */
    predicate Valid()
      reads this, parser, cg, cg.binops
    {
      parser.Valid() && parser.binops == cg.binops && Consistent(WorldOf())
    }

    /** A fresh top level over BINOP_PRECEDENCE as given; no unit has been read yet. */
    constructor (table: BinopTable)
      ensures Valid() && cg.binops == table
      ensures WorldOf() == World([Tok(TokEof, "", "", "")], 0, CgState(map[], map[], map[], table.table, 0), Jit(map[], {}, 0))
    {
      parser := new P.Parser([Tok(TokEof, "", "", "")], table);
      cg := new C.CodeGen(table);
      registry, live, nextTracker := map[], {}, 0;
    }

    /** delete_function_if_exists */
    method DeleteFunctionIfExists(name: string)
      modifies this`registry, this`live
      ensures JitState() == DeleteIfExists(old(JitState()), name)
    {
      if name in registry {
        live := live - {registry[name]};
        registry := registry - {name};
      }
    }

    /** parse_definition, which unlinks an earlier definition once the prototype parsed. */
    method ParseDefinitionM() returns (f: Option<Function>)
      requires Valid() && parser.toks[parser.pos].code == TokDef
      modifies this`registry, this`live, parser`pos
      ensures parser.Valid() && (f, parser.pos) == P.Out(ParseDefinitionAt(old(WorldOf())).0)
      ensures JitState() == ParseDefinitionAt(old(WorldOf())).1
    {
      var _ := parser.GetNextToken();
      var proto := parser.ParsePrototypeM();
      if proto == None {
        return None;
      }
      DeleteFunctionIfExists(proto.value.name);
      var e := parser.ParseExpressionM();
      if e == None {
        return None;
      }
      return Some(Function(proto.value, e.value));
    }

    /** handle_definition */
    method HandleDefinitionM()
      requires Valid() && parser.toks[parser.pos].code == TokDef
      modifies this, parser, cg, cg.binops
      ensures Valid() && WorldOf() == HandleDefinition(old(WorldOf()))
    {
      ghost var w := WorldOf();
      DispatchConsistent(w);
      var f := ParseDefinitionM();
      if f == None {
        var _ := parser.GetNextToken();
        return;
      }
      var name := GetName(f.value);
      var ok := cg.GenFunctionM(f.value);
      if ok {
        AddModule(name);
      }
    }

    /** The module handed to the JIT under a fresh tracker, a new module begun, and the
        tracker recorded in FunctionRTs. */
    method AddModule(name: string)
      modifies this`registry, this`live, this`nextTracker, cg`theModule
      ensures JitState() == Record(old(JitState()), name) && cg.theModule == map[]
    {
      var t := nextTracker;
      nextTracker := nextTracker + 1;
      live := live + {t};
      cg.ResetModule();
      registry := registry[name := t];
    }

    /** The module handed to the JIT under a fresh tracker and a new module begun; the
        expression runs and its tracker is removed. */
    method RunOnce()
      requires JitValid(JitState())
      modifies this`live, this`nextTracker, cg`theModule
      ensures JitState() == OneShot(old(JitState())) && cg.theModule == map[]
    {
      var t := nextTracker;
      nextTracker := nextTracker + 1;
      live := live + {t};
      cg.ResetModule();
      live := live - {t};
    }

    /** handle_extern */
    method HandleExternM()
      requires Valid() && parser.toks[parser.pos].code == TokExtern
      modifies this, parser, cg, cg.binops
      ensures Valid() && WorldOf() == HandleExtern(old(WorldOf()))
    {
      ghost var w := WorldOf();
      DispatchConsistent(w);
      var ext := parser.ParseExternM();
      if ext == None {
        var _ := parser.GetNextToken();
        return;
      }
      var _ := cg.ProtoCodegenM(ext.value);
      cg.StorePrototype(ext.value);
    }

    /** handle_top_level_expression: the tracker created for the expression is removed
        once it has run. */
    method HandleTopLevelM()
      requires Valid()
      requires parser.toks[parser.pos].code !in {TokEof, Semicolon, TokDef, TokExtern}
      modifies this, parser, cg, cg.binops
      ensures Valid() && WorldOf() == HandleTopLevel(old(WorldOf()))
    {
      ghost var w := WorldOf();
      DispatchConsistent(w);
      var expr := parser.ParseTopLevelM();
      if expr == None {
        var _ := parser.GetNextToken();
        return;
      }
      var ok := cg.GenFunctionM(expr.value);
      if ok {
        RunOnce();
      }
    }

    /** handle_unit on the tokens of a new unit. */
    method HandleUnitM(ts: seq<Tok>)
      requires Valid() && ValidStream(ts)
      modifies this, parser, cg, cg.binops
      ensures Valid() && WorldOf() == HandleUnit(ts, old(cg.State()), old(JitState()))
    {
      parser.SetTokens(ts);
      ghost var w0 := WorldOf();
      assert w0 == World(ts, 0, old(cg.State()), old(JitState()));
      while true
        invariant Valid() && parser.toks == ts
        invariant RunUnit(WorldOf()) == RunUnit(w0)
        decreases |ts| - parser.pos
      {
        var tok := parser.toks[parser.pos].code;
        if tok == TokEof {
          return;
        }
        ghost var w := WorldOf();
        if tok == Semicolon {
          var _ := parser.GetNextToken();
          DispatchConsistent(w);
        } else if tok == TokDef {
          HandleDefinitionM();
        } else if tok == TokExtern {
          HandleExternM();
        } else {
          HandleTopLevelM();
        }
        assert WorldOf() == Dispatch(w);
      }
    }
  }
}
