/** Properties of the code generator's bookkeeping: what lowering an expression may change,
    when NamedValues comes back as it was, and what defining a function does to the tables. */
module CodeGenProps {
  import opened Wrappers
  import opened Ast
  import opened Precedence
  import opened CodeGenSpec

  /** What lowering an expression may change: it declares functions, never redeclaring or
      dropping one, and allocates slots; FunctionProtos and the precedence table stay. */
  predicate Grows(s: CgState, t: CgState) {
    t.protos == s.protos && t.prec == s.prec && s.nextSlot <= t.nextSlot &&
    forall n :: n in s.theModule ==> n in t.theModule && t.theModule[n] == s.theModule[n]
  }

  /** Every slot NamedValues holds was handed out by an earlier alloca. */
  predicate SlotsAllocated(st: CgState) {
    forall n :: n in st.named ==> st.named[n] < st.nextSlot
  }

  /** Every saved slot was handed out below `bound`. */
  predicate SavedBelow(saved: seq<Option<nat>>, bound: nat) {
    forall k :: 0 <= k < |saved| && saved[k].Some? ==> saved[k].value < bound
  }

  lemma {:induction false} RestoreAllocated(named: map<string, nat>, name: string, prior: Option<nat>, bound: nat)
    requires forall n :: n in named ==> named[n] < bound
    requires prior.Some? ==> prior.value < bound
    ensures forall n :: n in Restore(named, name, prior) ==> Restore(named, name, prior)[n] < bound
  {
    var r := Restore(named, name, prior);
    forall n | n in r
      ensures r[n] < bound
    {
      assert Lookup(r, n) == Some(r[n]);
      if n == name {
        assert prior == Some(r[n]);
      } else {
        assert Lookup(named, n) == Some(r[n]);
      }
    }
  }

  lemma {:induction false} RestoreAllAllocated(named: map<string, nat>, bs: seq<Binding>, saved: seq<Option<nat>>, bound: nat)
    requires forall n :: n in named ==> named[n] < bound
    requires SavedBelow(saved, bound)
    ensures forall n :: n in RestoreAll(named, bs, saved) ==> RestoreAll(named, bs, saved)[n] < bound
    decreases |bs|
  {
    if |bs| != 0 && |saved| != 0 {
      RestoreAllocated(named, bs[0].name, saved[0], bound);
      assert SavedBelow(saved[1..], bound) by {
        forall k | 0 <= k < |saved[1..]| && saved[1..][k].Some?
          ensures saved[1..][k].value < bound
        {
          assert saved[1..][k] == saved[k + 1];
        }
      }
      RestoreAllAllocated(Restore(named, bs[0].name, saved[0]), bs[1..], saved[1..], bound);
    }
  }

  /** Lowering an expression only declares functions and allocates slots, and every slot
      NamedValues holds afterwards has been allocated. */
  lemma {:induction false} GenGrows(e: Expr, st: CgState)
    requires SlotsAllocated(st)
    ensures Grows(st, Gen(e, st).1) && SlotsAllocated(Gen(e, st).1)
    decreases e, 2, 0
  {
    match e
    case Number(_) =>
    case Variable(_) =>
    case Binary(_, _, _) => GenBinaryGrows(e, st);
    case Unary(_, _) => GenUnaryGrows(e, st);
    case Call(_, _) => GenCallGrows(e, st);
    case If(_, _, _) => GenIfGrows(e, st);
    case For(_, _, _, _, _) => GenForGrows(e, st);
    case With(_, _) => GenWithGrows(e, st);
  }

  lemma {:induction false} GenBinaryGrows(e: Expr, st: CgState)
    requires e.Binary? && SlotsAllocated(st)
    ensures Grows(st, GenBinary(e, st).1) && SlotsAllocated(GenBinary(e, st).1)
    decreases e, 1, 0
  {
    if e.op == "=" {
      GenGrows(e.rhs, st);
    } else {
      GenGrows(e.lhs, st);
      GenGrows(e.rhs, Gen(e.lhs, st).1);
    }
  }

  lemma {:induction false} GenUnaryGrows(e: Expr, st: CgState)
    requires e.Unary? && SlotsAllocated(st)
    ensures Grows(st, GenUnary(e, st).1) && SlotsAllocated(GenUnary(e, st).1)
    decreases e, 1, 0
  {
    GenGrows(e.operand, GetFunction(st, "unary" + e.op).1);
  }

  lemma {:induction false} GenCallGrows(e: Expr, st: CgState)
    requires e.Call? && SlotsAllocated(st)
    ensures Grows(st, GenCall(e, st).1) && SlotsAllocated(GenCall(e, st).1)
    decreases e, 1, 0
  {
    GenArgsGrows(e, 0, GetFunction(st, e.callee).1, []);
  }

  lemma {:induction false} GenArgsGrows(e: Expr, i: nat, st: CgState, acc: seq<Value>)
    requires e.Call? && i <= |e.args| && SlotsAllocated(st)
    ensures Grows(st, GenArgs(e, i, st, acc).1) && SlotsAllocated(GenArgs(e, i, st, acc).1)
    decreases e, 0, |e.args| - i
  {
    if i < |e.args| {
      var (v, s1) := Gen(e.args[i], st);
      GenGrows(e.args[i], st);
      if v.Some? {
        GenArgsGrows(e, i + 1, s1, acc + [v.value]);
      }
    }
  }

  lemma {:induction false} GenIfGrows(e: Expr, st: CgState)
    requires e.If? && SlotsAllocated(st)
    ensures Grows(st, GenIf(e, st).1) && SlotsAllocated(GenIf(e, st).1)
    decreases e, 1, 0
  {
    var s1 := Gen(e.cond, st).1;
    var s2 := Gen(e.thenBranch, s1).1;
    GenGrows(e.cond, st);
    GenGrows(e.thenBranch, s1);
    GenGrows(e.elseBranch, s2);
  }

  lemma {:induction false} GenForGrows(e: Expr, st: CgState)
    requires e.For? && SlotsAllocated(st)
    ensures Grows(st, GenFor(e, st).1) && SlotsAllocated(GenFor(e, st).1)
    decreases e, 1, 0
  {
    var (slot, s0) := Alloc(st);
    GenGrows(e.start, s0);
    var (sv, s1) := Gen(e.start, s0);
    if sv.Some? {
      var saved := Lookup(s1.named, e.varName);
      var s2 := s1.(named := s1.named[e.varName := slot]);
      GenGrows(e.cond, s2);
      var s3 := Gen(e.cond, s2).1;
      GenGrows(e.body, s3);
      var s4 := Gen(e.body, s3).1;
      GenGrows(e.step, s4);
      var s5 := Gen(e.step, s4).1;
      RestoreAllocated(s5.named, e.varName, saved, s5.nextSlot);
    }
  }

  lemma {:induction false} GenWithGrows(e: Expr, st: CgState)
    requires e.With? && SlotsAllocated(st)
    ensures Grows(st, GenWith(e, st).1) && SlotsAllocated(GenWith(e, st).1)
    decreases e, 1, 0
  {
    GenBindingsGrows(e, 0, st, []);
    var (saved, s1) := GenBindings(e, 0, st, []);
    if saved.Some? {
      GenGrows(e.body, s1);
      var s2 := Gen(e.body, s1).1;
      RestoreAllAllocated(s2.named, e.bindings, saved.value, s2.nextSlot);
    }
  }

  lemma {:induction false} GenBindingsGrows(e: Expr, i: nat, st: CgState, saved: seq<Option<nat>>)
    requires e.With? && i <= |e.bindings| && SlotsAllocated(st) && SavedBelow(saved, st.nextSlot)
    ensures Grows(st, GenBindings(e, i, st, saved).1) && SlotsAllocated(GenBindings(e, i, st, saved).1)
    ensures GenBindings(e, i, st, saved).0.Some? ==>
              SavedBelow(GenBindings(e, i, st, saved).0.value, GenBindings(e, i, st, saved).1.nextSlot)
    decreases e, 0, |e.bindings| - i
  {
    if i < |e.bindings| {
      var b := e.bindings[i];
      var (slot, s0) := Alloc(st);
      if b.init.Some? {
        GenGrows(b.init.value, s0);
      }
      var (v, s1) := if b.init.Some? then Gen(b.init.value, s0) else (Some(Const("0")), s0);
      if v.Some? {
        var s1' := s1.(named := s1.named[b.name := slot]);
        var saved' := saved + [Lookup(s1.named, b.name)];
        assert SavedBelow(saved', s1'.nextSlot) by {
          forall k | 0 <= k < |saved'| && saved'[k].Some?
            ensures saved'[k].value < s1'.nextSlot
          {
            if k == |saved| {
              assert saved'[k] == Lookup(s1.named, b.name);
            } else {
              assert saved'[k] == saved[k];
            }
          }
        }
        GenBindingsGrows(e, i + 1, s1', saved');
      }
    }
  }

  // ------------------------------------------------------------------------------------
  // Scopes: the for loop and `with` put NamedValues back as they found it.

  /** No two bindings of one `with` share a name. */
  predicate DistinctNames(bs: seq<Binding>) {
    forall j, k :: 0 <= j < k < |bs| ==> bs[j].name != bs[k].name
  }

  /** Every `with` inside `e` binds distinct names. */
  predicate DistinctScopes(e: Expr)
    decreases e
  {
    match e
    case Number(_) => true
    case Variable(_) => true
    case Binary(_, l, r) => DistinctScopes(l) && DistinctScopes(r)
    case Unary(_, x) => DistinctScopes(x)
    case Call(_, args) => forall k :: 0 <= k < |args| ==> DistinctScopes(args[k])
    case If(c, t, f) => DistinctScopes(c) && DistinctScopes(t) && DistinctScopes(f)
    case For(_, s, c, p, b) => DistinctScopes(s) && DistinctScopes(c) && DistinctScopes(p) && DistinctScopes(b)
    case With(bs, b) =>
      DistinctNames(bs) && DistinctScopes(b) &&
      forall k :: 0 <= k < |bs| && bs[k].init.Some? ==> DistinctScopes(bs[k].init.value)
  }

  /** Putting back an entry that a shadowing update replaced recovers the map. */
  lemma RestoreShadow(m: map<string, nat>, n: string, x: nat)
    ensures Restore(m[n := x], n, Lookup(m, n)) == m
  {
    if n in m {
      assert m[n := x][n := m[n]] == m;
    } else {
      assert m[n := x] - {n} == m;
    }
  }

  /** Restoring one more binding at the end of the list. */
  lemma {:induction false} RestoreAllSnoc(m: map<string, nat>, bs: seq<Binding>, saved: seq<Option<nat>>, b: Binding, x: Option<nat>)
    requires |bs| == |saved|
    ensures RestoreAll(m, bs + [b], saved + [x]) == Restore(RestoreAll(m, bs, saved), b.name, x)
    decreases |bs|
  {
    if |bs| == 0 {
      assert bs + [b] == [b] && saved + [x] == [x];
      assert RestoreAll(m, [b], [x]) == RestoreAll(Restore(m, b.name, x), [], []);
    } else {
      assert (bs + [b])[1..] == bs[1..] + [b];
      assert (saved + [x])[1..] == saved[1..] + [x];
      RestoreAllSnoc(Restore(m, bs[0].name, saved[0]), bs[1..], saved[1..], b, x);
    }
  }

  /** Restoring names other than `n` commutes with an update of `n`. */
  lemma {:induction false} RestoreAllOther(m: map<string, nat>, bs: seq<Binding>, saved: seq<Option<nat>>, n: string, x: nat)
    requires forall k :: 0 <= k < |bs| ==> bs[k].name != n
    ensures RestoreAll(m[n := x], bs, saved) == RestoreAll(m, bs, saved)[n := x]
    ensures Lookup(RestoreAll(m, bs, saved), n) == Lookup(m, n)
    decreases |bs|
  {
    if |bs| != 0 && |saved| != 0 {
      var b := bs[0].name;
      assert b != n;
      var m1 := Restore(m, b, saved[0]);
      assert Restore(m[n := x], b, saved[0]) == m1[n := x] by {
        match saved[0]
        case Some(s) => assert m[n := x][b := s] == m[b := s][n := x];
        case None => assert m[n := x] - {b} == (m - {b})[n := x];
      }
      assert Lookup(m1, n) == Lookup(m, n);
      assert forall k :: 0 <= k < |bs[1..]| ==> bs[1..][k].name == bs[k + 1].name;
      RestoreAllOther(m1, bs[1..], saved[1..], n, x);
    }
  }

  /** Successful lowering leaves NamedValues as it found it, as long as no `with` binds a
      name twice. */
  lemma {:induction false} GenKeepsScope(e: Expr, st: CgState)
    requires DistinctScopes(e)
    ensures Gen(e, st).0.Some? ==> Gen(e, st).1.named == st.named
    decreases e, 2, 0
  {
    match e
    case Number(_) =>
    case Variable(_) =>
    case Binary(_, _, _) => BinaryKeepsScope(e, st);
    case Unary(_, _) => GenKeepsScope(e.operand, GetFunction(st, "unary" + e.op).1);
    case Call(_, _) => ArgsKeepScope(e, 0, GetFunction(st, e.callee).1, []);
    case If(_, _, _) => IfKeepsScope(e, st);
    case For(_, _, _, _, _) => ForKeepsScope(e, st);
    case With(_, _) => WithKeepsScope(e, st);
  }

  lemma {:induction false} BinaryKeepsScope(e: Expr, st: CgState)
    requires e.Binary? && DistinctScopes(e)
    ensures GenBinary(e, st).0.Some? ==> GenBinary(e, st).1.named == st.named
    decreases e, 1, 0
  {
    if e.op == "=" {
      GenKeepsScope(e.rhs, st);
    } else {
      GenKeepsScope(e.lhs, st);
      GenKeepsScope(e.rhs, Gen(e.lhs, st).1);
    }
  }

  lemma {:induction false} ArgsKeepScope(e: Expr, i: nat, st: CgState, acc: seq<Value>)
    requires e.Call? && i <= |e.args| && DistinctScopes(e)
    ensures GenArgs(e, i, st, acc).0.Some? ==> GenArgs(e, i, st, acc).1.named == st.named
    decreases e, 0, |e.args| - i
  {
    if i < |e.args| {
      var (v, s1) := Gen(e.args[i], st);
      GenKeepsScope(e.args[i], st);
      if v.Some? {
        ArgsKeepScope(e, i + 1, s1, acc + [v.value]);
      }
    }
  }

  lemma {:induction false} IfKeepsScope(e: Expr, st: CgState)
    requires e.If? && DistinctScopes(e)
    ensures GenIf(e, st).0.Some? ==> GenIf(e, st).1.named == st.named
    decreases e, 1, 0
  {
    var s1 := Gen(e.cond, st).1;
    var s2 := Gen(e.thenBranch, s1).1;
    GenKeepsScope(e.cond, st);
    GenKeepsScope(e.thenBranch, s1);
    GenKeepsScope(e.elseBranch, s2);
  }

  /** The loop variable is shadowed while the loop is lowered and put back afterwards. */
  lemma {:induction false} ForKeepsScope(e: Expr, st: CgState)
    requires e.For? && DistinctScopes(e)
    ensures GenFor(e, st).0.Some? ==> GenFor(e, st).1.named == st.named
    decreases e, 1, 0
  {
    var (slot, s0) := Alloc(st);
    GenKeepsScope(e.start, s0);
    var (sv, s1) := Gen(e.start, s0);
    if sv.Some? {
      var s2 := s1.(named := s1.named[e.varName := slot]);
      GenKeepsScope(e.cond, s2);
      var s3 := Gen(e.cond, s2).1;
      GenKeepsScope(e.body, s3);
      var s4 := Gen(e.body, s3).1;
      GenKeepsScope(e.step, s4);
      RestoreShadow(s1.named, e.varName, slot);
    }
  }

  lemma {:induction false} WithKeepsScope(e: Expr, st: CgState)
    requires e.With? && DistinctScopes(e)
    ensures GenWith(e, st).0.Some? ==> GenWith(e, st).1.named == st.named
    decreases e, 1, 0
  {
    assert e.bindings[..0] == [];
    BindingsKeepScope(e, 0, st, [], st.named);
    var (saved, s1) := GenBindings(e, 0, st, []);
    if saved.Some? {
      GenKeepsScope(e.body, s1);
    }
  }

  /** While the bindings are installed, restoring the ones installed so far in list order
      gives back the scope the `with` started from. */
  lemma {:induction false} BindingsKeepScope(e: Expr, i: nat, st: CgState, saved: seq<Option<nat>>, n0: map<string, nat>)
    requires e.With? && i <= |e.bindings| && |saved| == i && DistinctScopes(e)
    requires RestoreAll(st.named, e.bindings[..i], saved) == n0
    ensures GenBindings(e, i, st, saved).0.Some? ==>
              RestoreAll(GenBindings(e, i, st, saved).1.named, e.bindings, GenBindings(e, i, st, saved).0.value) == n0
    decreases e, 0, |e.bindings| - i
  {
    if i == |e.bindings| {
      assert e.bindings[..i] == e.bindings;
    } else {
      var b := e.bindings[i];
      var (slot, s0) := Alloc(st);
      if b.init.Some? {
        GenKeepsScope(b.init.value, s0);
      }
      var (v, s1) := if b.init.Some? then Gen(b.init.value, s0) else (Some(Const("0")), s0);
      if v.Some? {
        var m := st.named;
        assert s1.named == m;
        var prefix := e.bindings[..i];
        assert forall k :: 0 <= k < |prefix| ==> prefix[k].name != b.name;
        RestoreAllOther(m, prefix, saved, b.name, slot);
        assert e.bindings[..i + 1] == prefix + [b];
        RestoreAllSnoc(m[b.name := slot], prefix, saved, b, Lookup(m, b.name));
        RestoreShadow(n0, b.name, slot);
        BindingsKeepScope(e, i + 1, s1.(named := m[b.name := slot]), saved + [Lookup(m, b.name)], n0);
      }
    }
  }

  /** Two bindings of one name: restoring in list order leaves the first binding's slot
      visible after the `with`. */
  lemma DuplicateBindingLeaks(st: CgState)
    requires st.named == map[] && st.nextSlot == 0
    ensures var r := Gen(With([Binding("x", None), Binding("x", None)], Number("1")), st);
            r.0 == Some(Const("1")) && r.1.named == map["x" := 0]
  {
    var e := With([Binding("x", None), Binding("x", None)], Number("1"));
    var s2 := st.(named := map["x" := 1], nextSlot := 2);
    TwoBindings(st);
    RestoreTwo(e.bindings);
    assert Gen(Number("1"), s2) == (Some(Const("1")), s2);
    assert Gen(e, st) == GenWith(e, st);
  }

  /** A binding without an initializer takes the next slot and saves the name's entry. */
  lemma BindingWithoutInit(e: Expr, i: nat, st: CgState, saved: seq<Option<nat>>)
    requires e.With? && i < |e.bindings| && e.bindings[i].init.None?
    ensures GenBindings(e, i, st, saved) ==
      GenBindings(e, i + 1, st.(named := st.named[e.bindings[i].name := st.nextSlot], nextSlot := st.nextSlot + 1),
                  saved + [Lookup(st.named, e.bindings[i].name)])
  {
  }

  /** The binding loop of DuplicateBindingLeaks: the second slot replaces the first, which
      is saved. */
  lemma TwoBindings(st: CgState)
    requires st.named == map[] && st.nextSlot == 0
    ensures GenBindings(With([Binding("x", None), Binding("x", None)], Number("1")), 0, st, [])
              == (Some([None, Some(0)]), st.(named := map["x" := 1], nextSlot := 2))
  {
    var e := With([Binding("x", None), Binding("x", None)], Number("1"));
    var s1 := st.(named := map["x" := 0], nextSlot := 1);
    var s2 := st.(named := map["x" := 1], nextSlot := 2);
    BindingWithoutInit(e, 0, st, []);
    assert st.named["x" := 0] == map["x" := 0];
    BindingWithoutInit(e, 1, s1, [None]);
    assert map["x" := 0]["x" := 1] == map["x" := 1];
    assert Lookup(map["x" := 0], "x") == Some(0);
    var none: seq<Option<nat>> := [None];
    assert [] + none == none && none + [Some(0)] == [None, Some(0)];
  }

  /** The restore loop of DuplicateBindingLeaks: the first binding's slot is restored
      last. */
  lemma RestoreTwo(bs: seq<Binding>)
    requires bs == [Binding("x", None), Binding("x", None)]
    ensures RestoreAll(map["x" := 1], bs, [None, Some(0)]) == map["x" := 0]
  {
    assert Restore(map["x" := 1], "x", None) == map[] by {
      assert map["x" := 1] - {"x"} == map[];
    }
    assert Restore(map[], "x", Some(0)) == map["x" := 0];
    assert RestoreAll(map[], bs[1..], [Some(0)]) == RestoreAll(map["x" := 0], bs[2..], []);
  }

  /** A loop whose condition does not lower leaves its variable shadowed. */
  lemma ForFailureLeaksShadow(st: CgState)
    requires st.named == map[] && st.nextSlot == 0
    ensures var r := Gen(For("i", Number("0"), Variable("n"), Number("1"), Number("0")), st);
            r.0 == None && r.1.named == map["i" := 0]
  {
  }

  /** The loop variable is visible to the condition, the body and the step, even when the
      name is bound nowhere outside the loop. */
  lemma ForShadowsVariable(e: Expr, st: CgState)
    requires e.For? && e.cond == Variable(e.varName) && e.body == Variable(e.varName) && e.step == Variable(e.varName)
    requires Gen(e.start, Alloc(st).1).0.Some?
    ensures GenFor(e, st).0 == Some(Const("0"))
  {
  }

  /** The start value is lowered before the variable is shadowed, so it sees only what the
      name was bound to outside the loop. */
  lemma ForStartOutsideScope(e: Expr, st: CgState)
    requires e.For? && e.start == Variable(e.varName) && e.varName !in st.named
    ensures GenFor(e, st).0.None?
  {
  }

  /** A binding's initializer is lowered before its own binding is installed, so it cannot
      use the name it initializes unless that name was bound before the `with`... */
  lemma InitializerDoesNotSeeItself(e: Expr, i: nat, st: CgState, saved: seq<Option<nat>>)
    requires e.With? && i < |e.bindings| && e.bindings[i].init == Some(Variable(e.bindings[i].name))
    requires e.bindings[i].name !in st.named
    ensures GenBindings(e, i, st, saved).0.None?
  {
  }

  /** ...but it sees the bindings before it: in an empty scope `with a, b = a do b` lowers,
      b's initializer loading a's slot, and the scope is empty again afterwards. */
  lemma InitializerSeesEarlier(st: CgState)
    requires st.named == map[]
    ensures var r := Gen(With([Binding("a", None), Binding("b", Some(Variable("a")))], Variable("b")), st);
            r.0 == Some(Load(st.nextSlot + 1)) && r.1.named == map[] && r.1.nextSlot == st.nextSlot + 2
  {
    var e := With([Binding("a", None), Binding("b", Some(Variable("a")))], Variable("b"));
    var n := st.nextSlot;
    var s1 := st.(named := map["a" := n], nextSlot := n + 1);
    var s2 := st.(named := map["a" := n, "b" := n + 1], nextSlot := n + 2);
    BindingWithoutInit(e, 0, st, []);
    assert st.named["a" := n] == map["a" := n];
    var none: seq<Option<nat>> := [None];
    assert [] + none == none && none + [None] == [None, None];
    assert GenBindings(e, 0, st, []) == GenBindings(e, 1, s1, none);
    var s1a := s1.(nextSlot := n + 2);
    assert Alloc(s1) == (n + 1, s1a);
    assert Gen(Variable("a"), s1a) == (Some(Load(n)), s1a);
    assert Lookup(s1a.named, "b") == None;
    assert s1a.named["b" := n + 1] == s2.named;
    assert GenBindings(e, 1, s1, none) == GenBindings(e, 2, s2, none + [None]);
    assert GenBindings(e, 0, st, []) == (Some([None, None]), s2);
    assert Gen(Variable("b"), s2) == (Some(Load(n + 1)), s2);
    assert RestoreAll(s2.named, e.bindings, [None, None]) == map[] by {
      assert Restore(s2.named, "a", None) == map["b" := n + 1];
      assert Restore(map["b" := n + 1], "b", None) == map[];
      assert RestoreAll(map["b" := n + 1], e.bindings[1..], [None]) == RestoreAll(map[], e.bindings[2..], []);
    }
    assert Gen(e, st) == GenWith(e, st);
  }

  /** `a > b` is `b < a`: the same state, the comparison with its operands swapped. */
  lemma GreaterIsSwappedLess(l: Expr, r: Expr, st: CgState)
    ensures Gen(Binary(">", l, r), st).1 == Gen(Binary("<", l, r), st).1
    ensures Gen(Binary("<", l, r), st).0.None? <==> Gen(Binary(">", l, r), st).0.None?
    ensures Gen(Binary("<", l, r), st).0.Some? ==>
              Gen(Binary("<", l, r), st).0.value.LessThan? &&
              Gen(Binary(">", l, r), st).0.value ==
                LessThan(Gen(Binary("<", l, r), st).0.value.rhs, Gen(Binary("<", l, r), st).0.value.lhs)
  {
  }

  // ------------------------------------------------------------------------------------
  // Function definitions.

  /** The parameter loop gives each parameter a fresh slot, so NamedValues afterwards
      holds the parameters on top of what it held. */
  lemma {:induction false} BindParamsBinds(params: seq<string>, st: CgState)
    ensures BindParams(params, st).named.Keys == st.named.Keys + set p | p in params
    ensures BindParams(params, st).nextSlot == st.nextSlot + |params|
    ensures BindParams(params, st) == st.(named := BindParams(params, st).named, nextSlot := BindParams(params, st).nextSlot)
    ensures SlotsAllocated(st) ==> SlotsAllocated(BindParams(params, st))
    decreases |params|
  {
    if |params| != 0 {
      var (slot, s0) := Alloc(st);
      var s1 := if params[0] in s0.named then s0 else s0.(named := s0.named[params[0] := slot]);
      BindParamsBinds(params[1..], s1);
      assert (set p | p in params) == {params[0]} + set p | p in params[1..];
    }
  }

  /** The parameter loop never rebinds a name NamedValues already holds. */
  lemma {:induction false} BindParamsKeeps(params: seq<string>, st: CgState)
    ensures forall n :: n in st.named ==> n in BindParams(params, st).named && BindParams(params, st).named[n] == st.named[n]
    decreases |params|
  {
    if |params| != 0 {
      var (slot, s0) := Alloc(st);
      var s1 := if params[0] in s0.named then s0 else s0.(named := s0.named[params[0] := slot]);
      BindParamsKeeps(params[1..], s1);
    }
  }

  /** A parameter name is bound to the slot of the first parameter that has it. */
  lemma {:induction false} BindParamsFirstWins(params: seq<string>, st: CgState, i: nat)
    requires i < |params| && params[i] !in st.named && params[i] !in params[..i]
    ensures params[i] in BindParams(params, st).named && BindParams(params, st).named[params[i]] == st.nextSlot + i
    decreases |params|
  {
    var (slot, s0) := Alloc(st);
    var s1 := if params[0] in s0.named then s0 else s0.(named := s0.named[params[0] := slot]);
    if i == 0 {
      BindParamsKeeps(params[1..], s1);
    } else {
      assert params[0] in params[..i];
      assert params[1..][i - 1] == params[i];
      assert params[1..][..i - 1] == params[1..i];
      assert forall k :: 0 <= k < i - 1 ==> params[1..i][k] == params[..i][k + 1];
      BindParamsFirstWins(params[1..], s1, i - 1);
    }
  }

  /** What defining a function does to the tables. The prototype of an unknown name is
      stored whatever happens next; only success of a binary operator publishes its
      precedence; a failing body erases the function from the module unless the
      parameter counts clashed first. */
  lemma GenFunctionOutcome(fn: Function, st: CgState)
    requires WellKeyed(st.protos)
    ensures var p := fn.proto;
            var r := GenFunction(fn, st);
            && r.1.protos == (if KnownParams(st, p.name).Some? then st.protos else st.protos[p.name := p])
            && WellKeyed(r.1.protos)
            && r.1.prec == (if r.0 && IsBinaryOp(p) then Publish(st, p).prec else st.prec)
            && (r.0 ==> p.name in r.1.theModule && (KnownParams(st, p.name).Some? ==> |KnownParams(st, p.name).value| == |p.args|))
            && (KnownParams(st, p.name).Some? && |KnownParams(st, p.name).value| != |p.args| ==> !r.0 && p.name in r.1.theModule)
            && (!r.0 && (KnownParams(st, p.name).None? || |KnownParams(st, p.name).value| == |p.args|) ==> p.name !in r.1.theModule)
  {
    GenFunctionTables(fn, st);
    GenFunctionModule(fn, st);
  }

  /** FunctionProtos and BINOP_PRECEDENCE after FunctionAST::codegen. */
  lemma GenFunctionTables(fn: Function, st: CgState)
    requires WellKeyed(st.protos)
    ensures var p := fn.proto;
            var r := GenFunction(fn, st);
            && r.1.protos == (if KnownParams(st, p.name).Some? then st.protos else st.protos[p.name := p])
            && WellKeyed(r.1.protos)
            && r.1.prec == (if r.0 && IsBinaryOp(p) then Publish(st, p).prec else st.prec)
  {
    GenFunctionProtos(fn, st);
    GenFunctionPrec(fn, st);
  }

  /** FunctionProtos gains the prototype only when the name was not known. */
  lemma GenFunctionProtos(fn: Function, st: CgState)
    requires WellKeyed(st.protos)
    ensures var p := fn.proto;
            var r := GenFunction(fn, st);
            r.1.protos == (if KnownParams(st, p.name).Some? then st.protos else st.protos[p.name := p]) &&
            WellKeyed(r.1.protos)
  {
    var p := fn.proto;
    var (f, s1) := GetFunction(st, p.name);
    var (params, s2) := if f.Some? then (f.value, s1) else ProtoCodegen(p, s1.(protos := s1.protos[p.name := p]));
    if |params| == |p.args| {
      var s3 := BindParams(params, s2.(named := map[]));
      BindParamsBinds(params, s2.(named := map[]));
      GenGrows(fn.body, s3);
    }
  }

  /** BINOP_PRECEDENCE changes only when a binary operator's definition lowers. */
  lemma GenFunctionPrec(fn: Function, st: CgState)
    requires WellKeyed(st.protos)
    ensures var p := fn.proto;
            var r := GenFunction(fn, st);
            r.1.prec == (if r.0 && IsBinaryOp(p) then Publish(st, p).prec else st.prec)
  {
    var p := fn.proto;
    var (f, s1) := GetFunction(st, p.name);
    var (params, s2) := if f.Some? then (f.value, s1) else ProtoCodegen(p, s1.(protos := s1.protos[p.name := p]));
    if |params| == |p.args| {
      var s3 := BindParams(params, s2.(named := map[]));
      BindParamsBinds(params, s2.(named := map[]));
      GenGrows(fn.body, s3);
    }
  }

  /** The module after FunctionAST::codegen: the function stays declared when it lowers or
      when its parameter count clashed, and is erased when its body fails. */
  lemma GenFunctionModule(fn: Function, st: CgState)
    requires WellKeyed(st.protos)
    ensures var p := fn.proto;
            var r := GenFunction(fn, st);
            && (r.0 ==> p.name in r.1.theModule && (KnownParams(st, p.name).Some? ==> |KnownParams(st, p.name).value| == |p.args|))
            && (KnownParams(st, p.name).Some? && |KnownParams(st, p.name).value| != |p.args| ==> !r.0 && p.name in r.1.theModule)
            && (!r.0 && (KnownParams(st, p.name).None? || |KnownParams(st, p.name).value| == |p.args|) ==> p.name !in r.1.theModule)
  {
    var p := fn.proto;
    var (f, s1) := GetFunction(st, p.name);
    var (params, s2) := if f.Some? then (f.value, s1) else ProtoCodegen(p, s1.(protos := s1.protos[p.name := p]));
    if |params| == |p.args| {
      var s3 := BindParams(params, s2.(named := map[]));
      BindParamsBinds(params, s2.(named := map[]));
      GenGrows(fn.body, s3);
    }
  }

  /** A definition whose name the module already declares binds that declaration's
      parameter names, so a body that uses only its own parameter names fails when the
      names differ. */
  lemma DeclaredNamesWin(fn: Function, st: CgState, x: string)
    requires fn.proto.name in st.theModule && |st.theModule[fn.proto.name]| == |fn.proto.args|
    requires fn.body == Variable(x) && x !in st.theModule[fn.proto.name]
    ensures !GenFunction(fn, st).0
  {
    var params := st.theModule[fn.proto.name];
    BindParamsBinds(params, st.(named := map[]));
  }
}
