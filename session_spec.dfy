/** The top level of parser.cpp and the dispatch loop of compiler.cpp and src/repl.cpp, as
    functions on a value state: the token snapshots with cur_tok, the code generator's
    tables, and FunctionRTs beside the JIT's resource trackers. A tracker is a number the
    JIT hands out; the JIT itself is not modelled beyond which trackers are still live. */
module SessionSpec {
  import opened Wrappers
  import opened Tokens
  import opened Ast
  import opened Precedence
  import opened ParserSpec
  import opened CodeGenSpec

  const Semicolon: int := ';' as int

  /** FunctionRTs (the tracker of each defined function), the trackers the JIT still holds
      code for, and the next tracker it will create. */
  datatype Jit = Jit(registry: map<string, nat>, live: set<nat>, nextTracker: nat)

  /** The tracker bookkeeping every handler keeps: the live trackers are exactly those of
      defined functions, one per function, all created earlier. */
  predicate JitValid(j: Jit) {
    && j.live == j.registry.Values
    && (forall t :: t in j.live ==> t < j.nextTracker)
    && (forall a, b :: a in j.registry && b in j.registry && a != b ==> j.registry[a] != j.registry[b])
  }

  /** Tokens, cur_tok, the code generator's globals (whose precedence table is the one the
      parser reads) and the JIT. */
  datatype World = World(ts: seq<Tok>, pos: nat, cg: CgState, jit: Jit)

  predicate ValidWorld(w: World) {
    ValidStream(w.ts) && w.pos < |w.ts|
  }

  /** delete_function_if_exists: remove the function's code from the JIT and forget its
      tracker; an unknown name changes nothing. */
  function DeleteIfExists(j: Jit, name: string): (r: Jit)
    ensures name !in r.registry && r.nextTracker == j.nextTracker
    ensures forall n :: n in j.registry && n != name ==> n in r.registry && r.registry[n] == j.registry[n]
    ensures r.registry.Keys == j.registry.Keys - {name}
    ensures name in j.registry ==> r.live == j.live - {j.registry[name]}
    ensures name !in j.registry ==> r == j
  {
    if name in j.registry then Jit(j.registry - {name}, j.live - {j.registry[name]}, j.nextTracker)
    else j
  }

  /** A fresh tracker holds the module just handed to the JIT, recorded for `name`. */
  function Record(j: Jit, name: string): (r: Jit)
    ensures name in r.registry && r.registry[name] == j.nextTracker && r.nextTracker == j.nextTracker + 1
    ensures r.live == j.live + {j.nextTracker}
    ensures forall n :: n in j.registry && n != name ==> n in r.registry && r.registry[n] == j.registry[n]
  {
    Jit(j.registry[name := j.nextTracker], j.live + {j.nextTracker}, j.nextTracker + 1)
  }

  /** A tracker created for one anonymous expression and removed once it has run. */
  function OneShot(j: Jit): (r: Jit)
    ensures r.registry == j.registry && r.live == j.live && r.nextTracker == j.nextTracker + 1
  {
    j.(nextTracker := j.nextTracker + 1)
  }

  /** parse_definition with its registry update: the previous definition of the name is
      unlinked as soon as the prototype parses, before the body is read. */
  function ParseDefinitionAt(w: World): (r: (Parsed<Function>, Jit))
    requires ValidWorld(w) && w.ts[w.pos].code == TokDef
    ensures r.0 == ParseDefinition(w.ts, w.cg.prec, w.pos)
    ensures var pr := ParsePrototype(w.ts, Next(w.ts, w.pos));
            r.1 == if pr.Ok? then DeleteIfExists(w.jit, pr.value.name) else w.jit
  {
    var pr := ParsePrototype(w.ts, Next(w.ts, w.pos));
    if pr.Fail? then (Fail(pr.pos), w.jit)
    else
      var j1 := DeleteIfExists(w.jit, pr.value.name);
      var e := ParseExpression(w.ts, w.cg.prec, pr.pos);
      if e.Fail? then (Fail(e.pos), j1) else (Ok(Function(pr.value, e.value), e.pos), j1)
  }

  /** handle_definition: a definition that lowers is handed to the JIT under a fresh
      tracker recorded for its name, and code generation starts a new module. A parse
      failure skips one token. */
  function HandleDefinition(w: World): (r: World)
    requires ValidWorld(w) && w.ts[w.pos].code == TokDef
    ensures ValidWorld(r) && r.ts == w.ts && w.pos < r.pos
  {
    var (f, j1) := ParseDefinitionAt(w);
    if f.Fail? then w.(pos := Next(w.ts, f.pos), jit := j1)
    else
      var (ok, cg1) := GenFunction(f.value, w.cg);
      if !ok then w.(pos := f.pos, cg := cg1, jit := j1)
      else w.(pos := f.pos, cg := cg1.(theModule := map[]), jit := Record(j1, GetName(f.value)))
  }

  /** handle_extern: a parsed prototype is declared and then stored in FunctionProtos,
      replacing any earlier one of its name. A parse failure skips one token. */
  function HandleExtern(w: World): (r: World)
    requires ValidWorld(w) && w.ts[w.pos].code == TokExtern
    ensures ValidWorld(r) && r.ts == w.ts && w.pos < r.pos
  {
    var pr := ParseExtern(w.ts, w.pos);
    if pr.Fail? then w.(pos := Next(w.ts, pr.pos))
    else
      var p := pr.value;
      var (_, cg1) := ProtoCodegen(p, w.cg);
      w.(pos := pr.pos, cg := cg1.(protos := cg1.protos[p.name := p]))
  }

  /** handle_top_level_expression: an expression that lowers runs once under a tracker
      that is removed afterwards; code generation starts a new module. A parse failure
      skips one token. */
  function HandleTopLevel(w: World): (r: World)
    requires ValidWorld(w) && w.ts[w.pos].code != TokEof
    ensures ValidWorld(r) && r.ts == w.ts && w.pos < r.pos
  {
    var f := ParseTopLevel(w.ts, w.cg.prec, w.pos);
    if f.Fail? then w.(pos := Next(w.ts, f.pos))
    else
      var (ok, cg1) := GenFunction(f.value, w.cg);
      if !ok then w.(pos := f.pos, cg := cg1)
      else w.(pos := f.pos, cg := cg1.(theModule := map[]), jit := OneShot(w.jit))
  }

  /** One turn of the loop of handle_unit on the current token. */
  function Dispatch(w: World): (r: World)
    requires ValidWorld(w) && w.ts[w.pos].code != TokEof
    ensures ValidWorld(r) && r.ts == w.ts && w.pos < r.pos
  {
    var c := w.ts[w.pos].code;
    if c == Semicolon then w.(pos := Next(w.ts, w.pos))
    else if c == TokDef then HandleDefinition(w)
    else if c == TokExtern then HandleExtern(w)
    else HandleTopLevel(w)
  }

  /** The loop of handle_unit from the current token on: it returns at tok_eof. */
  function RunUnit(w: World): (r: World)
    requires ValidWorld(w)
    ensures ValidWorld(r) && r.ts == w.ts && w.pos <= r.pos && r.ts[r.pos].code == TokEof
    decreases |w.ts| - w.pos
  {
    if w.ts[w.pos].code == TokEof then w else RunUnit(Dispatch(w))
  }

  /** handle_unit on the tokens of a new unit: its first get_next_token reads the first
      of them. */
  function HandleUnit(ts: seq<Tok>, cg: CgState, jit: Jit): (r: World)
    requires ValidStream(ts)
    ensures ValidWorld(r) && r.ts == ts && r.ts[r.pos].code == TokEof
  {
    RunUnit(World(ts, 0, cg, jit))
  }
}
