/** Properties of the top level: the tracker bookkeeping survives every unit, redefinition
    unlinks the old code, error recovery skips one token, and an operator defined by one
    definition is parsed by the next. */
module SessionProps {
  import opened Wrappers
  import opened Tokens
  import opened Ast
  import opened Precedence
  import opened ParserSpec
  import opened CodeGenSpec
  import opened SessionSpec
  import CodeGenProps

  /** What the top level keeps between units: the tracker bookkeeping, and FunctionProtos
      keyed by each prototype's name. */
  predicate Consistent(w: World) {
    JitValid(w.jit) && WellKeyed(w.cg.protos)
  }

  lemma DeleteKeepsJit(j: Jit, name: string)
    requires JitValid(j)
    ensures JitValid(DeleteIfExists(j, name))
  {
    if name in j.registry {
      var r := DeleteIfExists(j, name);
      var t := j.registry[name];
      forall u | u in r.live
        ensures u in r.registry.Values
      {
        var n :| n in j.registry && j.registry[n] == u;
        assert n != name;
        assert n in r.registry && r.registry[n] == u;
      }
      forall u | u in r.registry.Values
        ensures u in r.live
      {
        var n :| n in r.registry && r.registry[n] == u;
        assert n != name && j.registry[n] == u;
      }
    }
  }

  lemma RecordKeepsJit(j: Jit, name: string)
    requires JitValid(j) && name !in j.registry
    ensures JitValid(Record(j, name))
  {
    var r := Record(j, name);
    var t := j.nextTracker;
    forall u | u in r.live
      ensures u in r.registry.Values
    {
      if u == t {
        assert r.registry[name] == t;
      } else {
        var n :| n in j.registry && j.registry[n] == u;
        assert n != name && r.registry[n] == u;
      }
    }
    forall u | u in r.registry.Values
      ensures u in r.live
    {
      var n :| n in r.registry && r.registry[n] == u;
      if n != name {
        assert j.registry[n] == u;
      }
    }
    forall a, b | a in r.registry && b in r.registry && a != b
      ensures r.registry[a] != r.registry[b]
    {
      if a == name {
        assert j.registry[b] in j.live;
      } else if b == name {
        assert j.registry[a] in j.live;
      }
    }
  }

  /** Each turn of handle_unit keeps the top level consistent. */
  lemma DispatchConsistent(w: World)
    requires ValidWorld(w) && w.ts[w.pos].code != TokEof && Consistent(w)
    ensures Consistent(Dispatch(w))
  {
    var c := w.ts[w.pos].code;
    if c == TokDef {
      var (f, j1) := ParseDefinitionAt(w);
      var pr := ParsePrototype(w.ts, Next(w.ts, w.pos));
      DeleteKeepsJit(w.jit, if pr.Ok? then pr.value.name else "");
      if f.Ok? {
        assert GetName(f.value) == pr.value.name;
        CodeGenProps.GenFunctionOutcome(f.value, w.cg);
        if GenFunction(f.value, w.cg).0 {
          RecordKeepsJit(j1, GetName(f.value));
        }
      }
    } else if c != Semicolon && c != TokExtern {
      var f := ParseTopLevel(w.ts, w.cg.prec, w.pos);
      if f.Ok? {
        CodeGenProps.GenFunctionOutcome(f.value, w.cg);
      }
    }
  }

  /** handle_unit keeps the top level consistent, however the unit parses and lowers. */
  lemma {:induction false} RunUnitConsistent(w: World)
    requires ValidWorld(w) && Consistent(w)
    ensures Consistent(RunUnit(w))
    decreases |w.ts| - w.pos
  {
    if w.ts[w.pos].code != TokEof {
      DispatchConsistent(w);
      RunUnitConsistent(Dispatch(w));
    }
  }

  /** Redefining a function unlinks the code of the previous definition from the JIT,
      whether or not the new one parses and lowers. */
  lemma RedefinitionUnlinks(w: World, name: string)
    requires ValidWorld(w) && w.ts[w.pos].code == TokDef && JitValid(w.jit)
    requires ParsePrototype(w.ts, Next(w.ts, w.pos)).Ok? && ParsePrototype(w.ts, Next(w.ts, w.pos)).value.name == name
    requires name in w.jit.registry
    ensures w.jit.registry[name] !in HandleDefinition(w).jit.live
  {
    var t := w.jit.registry[name];
    assert t in w.jit.live;
  }

  /** A definition whose prototype parses but whose body does not still unlinks the
      previous definition of the name; the rest is one skipped token. */
  lemma FailedBodyStillUnlinks(w: World)
    requires ValidWorld(w) && w.ts[w.pos].code == TokDef
    requires ParsePrototype(w.ts, Next(w.ts, w.pos)).Ok?
    ensures var pr := ParsePrototype(w.ts, Next(w.ts, w.pos));
            var e := ParseExpression(w.ts, w.cg.prec, pr.pos);
            e.Fail? ==>
              HandleDefinition(w) == w.(pos := Next(w.ts, e.pos), jit := DeleteIfExists(w.jit, pr.value.name))
  {
  }

  /** Error recovery: a definition, declaration or expression that does not parse leaves
      the code generator alone and skips the token the parse stopped at. */
  lemma ParseFailureSkipsOneToken(w: World)
    requires ValidWorld(w) && w.ts[w.pos].code != TokEof
    ensures w.ts[w.pos].code == TokDef && ParseDefinition(w.ts, w.cg.prec, w.pos).Fail? ==>
              Dispatch(w).cg == w.cg && Dispatch(w).pos == Next(w.ts, ParseDefinition(w.ts, w.cg.prec, w.pos).pos)
    ensures w.ts[w.pos].code == TokExtern && ParseExtern(w.ts, w.pos).Fail? ==>
              Dispatch(w) == w.(pos := Next(w.ts, ParseExtern(w.ts, w.pos).pos))
    ensures w.ts[w.pos].code !in {Semicolon, TokDef, TokExtern} && ParseTopLevel(w.ts, w.cg.prec, w.pos).Fail? ==>
              Dispatch(w) == w.(pos := Next(w.ts, ParseTopLevel(w.ts, w.cg.prec, w.pos).pos))
  {
  }

  /** A definition that lowers is recorded under a fresh tracker, whose code is live. */
  lemma DefinitionRecorded(w: World)
    requires ValidWorld(w) && w.ts[w.pos].code == TokDef
    requires ParseDefinition(w.ts, w.cg.prec, w.pos).Ok?
    ensures var f := ParseDefinition(w.ts, w.cg.prec, w.pos).value;
            var r := HandleDefinition(w);
            GenFunction(f, w.cg).0 ==>
              && GetName(f) in r.jit.registry && r.jit.registry[GetName(f)] == w.jit.nextTracker
              && w.jit.nextTracker in r.jit.live && r.cg.theModule == map[]
    ensures var f := ParseDefinition(w.ts, w.cg.prec, w.pos).value;
            !GenFunction(f, w.cg).0 ==> GetName(f) !in HandleDefinition(w).jit.registry
  {
  }

  /** Only definitions touch FunctionRTs: every other turn of handle_unit leaves the
      registry and the live code as they were (an anonymous expression's tracker is
      removed once it has run). */
  lemma DispatchNoDefinition(w: World)
    requires ValidWorld(w) && w.ts[w.pos].code != TokEof && w.ts[w.pos].code != TokDef
    ensures Dispatch(w).jit.registry == w.jit.registry && Dispatch(w).jit.live == w.jit.live
  {
  }

  /** A unit without `def` tokens leaves FunctionRTs and the live code as they were. */
  lemma {:induction false} UnitWithoutDefinitions(w: World)
    requires ValidWorld(w)
    requires forall k :: w.pos <= k < |w.ts| ==> w.ts[k].code != TokDef
    ensures RunUnit(w).jit.registry == w.jit.registry && RunUnit(w).jit.live == w.jit.live
    decreases |w.ts| - w.pos
  {
    if w.ts[w.pos].code != TokEof {
      DispatchNoDefinition(w);
      UnitWithoutDefinitions(Dispatch(w));
    }
  }

  /** A binary operator defined by a definition that lowers is in the table the parser
      reads from then on, with the precedence its prototype gave. */
  lemma DefinedOperatorReachesParser(w: World, op: string)
    requires ValidWorld(w) && w.ts[w.pos].code == TokDef && WellKeyed(w.cg.protos)
    requires ParseDefinition(w.ts, w.cg.prec, w.pos).Ok?
    requires var p := ParseDefinition(w.ts, w.cg.prec, w.pos).value.proto;
             p.name == "binary" + op && IsBinaryOp(p) && p.precedence > 0
    requires GenFunction(ParseDefinition(w.ts, w.cg.prec, w.pos).value, w.cg).0
    ensures TokPrecedence(Tok(TokOperator, "", op, ""), HandleDefinition(w).cg.prec)
              == ParseDefinition(w.ts, w.cg.prec, w.pos).value.proto.precedence
  {
    var f := ParseDefinition(w.ts, w.cg.prec, w.pos).value;
    var p := f.proto;
    OperatorNameRoundTrip(op, p.args, p.precedence);
    assert p == Prototype("binary" + op, p.args, true, p.precedence);
    CodeGenProps.GenFunctionOutcome(f, w.cg);
  }
}
