/**
 * Properties of the whole traversal: what every statement preserves, what
 * inference over a function guarantees, and two worked programs.
 */
module TraversalLaws {
  import opened IR
  import opened VarOrder
  import opened TensorStorages
  import opened InferenceSpec
  import opened FoldLaws
  import opened RuleLaws

  /** What the traversal never undoes: cached indices are never replaced, no
      variable loses its storage, the undefined kind is never recorded and
      every cached index describes its own path expression. */
  ghost predicate Grows(a: InferState, b: InferState) {
    Extends(a.indices, b.indices) && a.storage.Keys <= b.storage.Keys
    && (NoUndefined(a.storage) ==> NoUndefined(b.storage))
    && (IndicesKeyed(a.indices) ==> IndicesKeyed(b.indices))
  }

  lemma GrowsTransitive(a: InferState, b: InferState, c: InferState)
    requires Grows(a, b) && Grows(b, c)
    ensures Grows(a, c)
  {
  }

  lemma DetermineGrows(st: InferState, v: Var, rhs: Option<Expr>)
    ensures var r := Determine(st, v, rhs);
            Grows(st, r.state) && (r.outcome.Fail? ==> IsInternalDefect(r.outcome.error))
  {
    DetermineFrame(st, v, rhs);
  }

  lemma AssignGrows(st: InferState, v: Var, value: Expr, derive: PathSource -> PathExpr)
    ensures var r := AssignRule(st, v, value, derive);
            Grows(st, r.state) && (r.outcome.Fail? ==> IsInternalDefect(r.outcome.error))
  {
    DetermineGrows(st, v, None);
    DetermineGrows(st.(paths := st.paths[v := derive(AssignedFrom(v, value))]), v, Some(value));
    DetermineGrows(st, v, Some(value));
  }

  lemma CallGrows(st: InferState, callee: FuncKind, results: seq<Var>)
    ensures Grows(st, CallRule(st, callee, results).state) && CallRule(st, callee, results).outcome == Pass
  {
    CallResultsLaw(st.storage, results);
  }

  lemma MapGrows(st: InferState, vars: seq<Var>, target: SetRef, neighbors: bool, derive: PathSource -> PathExpr)
    ensures var r := MapRule(st, vars, target, neighbors, derive);
            Grows(st, r.state) && (r.outcome.Fail? && !IsInternalDefect(r.outcome.error) ==> r.outcome.error.order > 2)
  {
    if target.cardinality == 0 {
      PlainSetLaw(st, vars);
    } else {
      var st' := st.(paths := AssemblyPaths(st.paths, vars, target, neighbors, derive));
      EdgeSetIndices(st', vars, neighbors);
      EdgeSetEntries(st', vars, neighbors);
      EdgeSetOutcome(st', vars, neighbors);
    }
  }

  /** Every statement, and so every statement sequence, keeps `Grows`; the
      only user-facing failure is a sparse assembly result of order above 2. */
  lemma {:induction false} VisitGrows(st: InferState, s: Stmt, derive: PathSource -> PathExpr)
    ensures var r := VisitStmt(st, s, derive);
            Grows(st, r.state)
            && (r.outcome.Fail? && !IsInternalDefect(r.outcome.error) ==> r.outcome.error.order > 2)
    decreases s
  {
    match s
    case VarDecl(v) =>
      DetermineGrows(st, v, None);
    case AssignStmt(v, value, _) =>
      AssignGrows(st, v, value, derive);
    case TensorWrite(tensor, _, _, _) =>
      if tensor.VarExpr? {
        DetermineGrows(st, tensor.v, None);
      }
    case CallStmt(callee, results, _) =>
      CallGrows(st, callee, results);
    case Map(vars, target, neighbors) =>
      MapGrows(st, vars, target, neighbors, derive);
    case Block(stmts) =>
      VisitSeqGrows(st, stmts, derive);
    case FieldWrite(_, _, _, _) =>
    case OtherStmt(_) =>
  }

  lemma {:induction false} VisitSeqGrows(st: InferState, stmts: seq<Stmt>, derive: PathSource -> PathExpr)
    ensures var r := VisitSeq(st, stmts, derive);
            Grows(st, r.state)
            && (r.outcome.Fail? && !IsInternalDefect(r.outcome.error) ==> r.outcome.error.order > 2)
    decreases stmts
  {
    if stmts != [] {
      var first := VisitStmt(st, stmts[0], derive);
      VisitGrows(st, stmts[0], derive);
      if first.outcome.Pass? {
        VisitSeqGrows(first.state, stmts[1..], derive);
        GrowsTransitive(st, first.state, VisitSeq(first.state, stmts[1..], derive).state);
      }
    }
  }

  /** Inference over a function keeps `Grows` and, when it succeeds, leaves
      every non-scalar tensor constant, argument and result with storage. */
  lemma InferCovers(st: InferState, f: Func, derive: PathSource -> PathExpr)
    ensures var r := Infer(st, f, derive);
            Grows(st, r.state)
            && (r.outcome.Pass? ==>
                  forall v :: v in f.constants + f.arguments + f.results && HoldsTensor(v) ==> v in r.state.storage)
  {
    var c := Seed(st, f.constants);
    SeedLaw(st, f.constants);
    var a := Seed(c.state, f.arguments);
    SeedLaw(c.state, f.arguments);
    var s := Seed(a.state, f.results);
    SeedLaw(a.state, f.results);
    VisitGrows(s.state, f.body, derive);
    assert Grows(st, s.state);
    GrowsTransitive(st, s.state, VisitStmt(s.state, f.body, derive).state);
  }

  /** Two assignments to the same system matrix `C`: `C = A + B` with `A`
      dense and `B` sparse makes `C` dense; a later `C = D` with `D`
      diagonal makes it diagonal again, because the second assignment
      re-derives the storage rather than keeping the first. */
  lemma ReassignedMatrix(derive: PathSource -> PathExpr)
    ensures var t := Tensor(2, false, true);
            var a := Var(1, t);
            var b := Var(2, t);
            var d := Var(3, t);
            var c := Var(4, t);
            var st := InferState(map[a := OfKind(Dense), b := TensorStorage(Indexed, NoIndex), d := OfKind(Diagonal)], map[], map[]);
            var first := AssignRule(st, c, Apply(t, [VarExpr(a), VarExpr(b)]), derive);
            var second := AssignRule(first.state, c, VarExpr(d), derive);
            first.outcome == Pass && c in first.state.storage && first.state.storage[c] == OfKind(Dense)
            && second.outcome == Pass && c in second.state.storage && second.state.storage[c] == OfKind(Diagonal)
  {
    var t := Tensor(2, false, true);
    var a := Var(1, t);
    var b := Var(2, t);
    var d := Var(3, t);
    var c := Var(4, t);
    var st := InferState(map[a := OfKind(Dense), b := TensorStorage(Indexed, NoIndex), d := OfKind(Diagonal)], map[], map[]);
    var sum := Apply(t, [VarExpr(a), VarExpr(b)]);
    assert LeafVars(sum) == {a, b} by {
      assert [VarExpr(b)][1..] == [];
      assert LeafVarsOf([VarExpr(b)]) == {b};
      assert [VarExpr(a), VarExpr(b)][1..] == [VarExpr(b)];
      assert LeafVarsOf([VarExpr(a), VarExpr(b)]) == {a} + {b};
    }
    AssignOverwrites(st, c, sum, derive);
    var first := AssignRule(st, c, sum, derive);
    var k := first.state.storage[c].kind;
    assert Priority(Dense) <= Priority(k);
    PriorityInjective(k, Dense);
    assert LeafVars(VarExpr(d)) == {d};
    AssignOverwrites(first.state, c, VarExpr(d), derive);
  }

  /** An assignment whose value is not fused computes no path expression, so
      a system matrix assigned from a sparse variable takes the index of the
      empty path expression: after `C = A` and `E = A` with `A` sparse, `C`
      and `E` share the one index, named after `C`. */
  lemma UnfusedShareEmptyPathIndex(derive: PathSource -> PathExpr)
    ensures var t := Tensor(2, false, true);
            var a := Var(1, t);
            var c := Var(2, t);
            var e := Var(3, t);
            var st := InferState(map[a := TensorStorage(Indexed, NoIndex)], map[], map[]);
            var first := AssignRule(st, c, VarExpr(a), derive);
            var second := AssignRule(first.state, e, VarExpr(a), derive);
            first.outcome == Pass && second.outcome == Pass
            && c in second.state.storage && e in second.state.storage
            && second.state.storage[c] == TensorStorage(Indexed, TensorIndex(c, EmptyPath))
            && second.state.storage[e] == second.state.storage[c]
  {
    var t := Tensor(2, false, true);
    var a := Var(1, t);
    assert LeafVars(VarExpr(a)) == {a};
    SortedIsOrdered([a], {a});
  }

  /** An assembly over an edge set with a neighbour expansion, producing a
      vector `f` and a matrix `K`: `f` is dense and `K` sparse, with a fresh
      index for the path expression the builder computed for `K`. */
  lemma EdgeSetAssembly(derive: PathSource -> PathExpr)
    ensures var springs := SetRef(1, 2);
            var f := Var(1, Tensor(1, false, true));
            var k := Var(2, Tensor(2, false, true));
            var r := MapRule(InferState(map[], map[], map[]), [f, k], springs, true, derive);
            r.outcome == Pass && f in r.state.storage && k in r.state.storage
            && r.state.storage[f] == OfKind(Dense)
            && r.state.storage[k] == TensorStorage(Indexed, TensorIndex(k, derive(AssembledBy(springs, true, k))))
  {
    var springs := SetRef(1, 2);
    var f := Var(1, Tensor(1, false, true));
    var k := Var(2, Tensor(2, false, true));
    var st := InferState(map[], map[], map[]);
    var st' := st.(paths := AssemblyPaths(st.paths, [f, k], springs, true, derive));
    assert PathOf(st', k) == derive(AssembledBy(springs, true, k));
  }

  /** An assembly over a plain element set makes a matrix result diagonal
      even with a neighbour expansion, which only edge sets use. */
  lemma ElementSetAssembly(derive: PathSource -> PathExpr)
    ensures var m := Var(1, Tensor(2, false, true));
            var r := MapRule(InferState(map[], map[], map[]), [m], SetRef(1, 0), true, derive);
            r.outcome == Pass && r.state.storage == map[m := OfKind(Diagonal)]
  {
  }

  /** Scalars are not always left without storage: a scalar result of an
      assembly over a plain element set, and a scalar result of an external
      call, both get dense storage. */
  lemma ScalarsCanGetStorage(derive: PathSource -> PathExpr)
    ensures var s := Var(0, Tensor(0, false, false));
            var st := InferState(map[], map[], map[]);
            MapRule(st, [s], SetRef(0, 0), false, derive) == Step(st.(storage := map[s := OfKind(Dense)]), Pass)
            && CallRule(st, External, [s]) == Step(st.(storage := map[s := OfKind(Dense)]), Pass)
  {
  }

  /** Two variables with the same path expression share one index: the
      second lookup finds the index the first one built and changes
      nothing. */
  lemma SharedPathSharedIndex(st: InferState, u: Var, v: Var)
    requires PathOf(st, u) == PathOf(st, v)
    ensures var (st', index) := GetOrCreate(st, u);
            GetOrCreate(st', v) == (st', index)
  {
  }
}
