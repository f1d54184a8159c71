/**
 * Properties of the individual rules of storage inference: `determineStorage`,
 * assignments, tensor writes, external calls and assemblies over plain and
 * edge sets.
 */
module RuleLaws {
  import opened IR
  import opened VarOrder
  import opened TensorStorages
  import opened InferenceSpec
  import opened FoldLaws

  /** A system matrix in the sense of the assignment and `determineStorage`
      rules: neither an element tensor nor a vector. */
  predicate IsSystemMatrix(v: Var) {
    HoldsTensor(v) && !v.ty.elementLocal && v.ty.order != 1
  }

  /** `determineStorage` touches only the entry of `v`, never records the
      undefined kind, keeps the builder's results and only adds indices; a
      scalar is left alone, and a failure is always an internal defect. */
  lemma DetermineFrame(st: InferState, v: Var, rhs: Option<Expr>)
    ensures var r := Determine(st, v, rhs);
            r.state.paths == st.paths && Extends(st.indices, r.state.indices)
            && (IndicesKeyed(st.indices) ==> IndicesKeyed(r.state.indices))
            && (forall u :: u in r.state.storage && u != v ==> u in st.storage && r.state.storage[u] == st.storage[u])
            && st.storage.Keys <= r.state.storage.Keys
            && (NoUndefined(st.storage) ==> NoUndefined(r.state.storage))
            && (r.outcome.Fail? ==> IsInternalDefect(r.outcome.error))
            && (IsScalar(v.ty) ==> r == Step(st, Pass))
            && (HoldsTensor(v) && (v.ty.elementLocal || v.ty.order == 1 || rhs.None?) ==>
                  r.outcome == Pass && r.state.storage == st.storage[v := OfKind(Dense)])
  {
    if HoldsTensor(v) && !(v.ty.elementLocal || v.ty.order == 1 || rhs.None?) {
      var leaves := Ordered(LeafVars(rhs.value));
      FoldFrame(st, v, leaves, Unset);
      FoldChoice(st, v, leaves, Unset);
      FoldPassIff(st, v, leaves, Unset);
    }
  }

  /** `determineStorage` of a system matrix with a right-hand side: it
      succeeds exactly when every non-scalar variable of the right-hand side
      has storage; it then records the strongest of their storages for `v`
      (dense or diagonal without an index, sparse with the index of `v`'s own
      path expression), or nothing when the right-hand side has no non-scalar
      variable. */
  lemma DetermineSystemMatrix(st: InferState, v: Var, e: Expr)
    requires IsSystemMatrix(v)
    requires NoUndefined(st.storage)
    ensures var r := Determine(st, v, Some(e));
            (r.outcome.Pass? <==> AllStored(st.storage, LeafVars(e)))
            && (r.outcome.Fail? ==> r.outcome.error.MissingStorage? && r.outcome.error.v in LeafVars(e)
                                    && !IsScalar(r.outcome.error.v.ty) && r.outcome.error.v !in st.storage)
    ensures var r := Determine(st, v, Some(e));
            r.outcome.Pass? && !HasTensorLeaf(LeafVars(e)) ==> r.state.storage == st.storage
    ensures var r := Determine(st, v, Some(e));
            r.outcome.Pass? && HasTensorLeaf(LeafVars(e)) ==>
              v in r.state.storage && r.state.storage == st.storage[v := r.state.storage[v]]
              && IsStrongest(r.state.storage[v].kind, st.storage, LeafVars(e))
              && (r.state.storage[v].kind != Indexed ==> r.state.storage[v] == OfKind(r.state.storage[v].kind))
              && (r.state.storage[v].kind == Indexed ==>
                    r.state.storage[v].index == GetOrCreate(st, v).1
                    && PathOf(st, v) in r.state.indices && r.state.indices[PathOf(st, v)] == r.state.storage[v].index)
  {
    var leaves := Ordered(LeafVars(e));
    OrderedElements(LeafVars(e));
    FoldPassIff(st, v, leaves, Unset);
    FoldFrame(st, v, leaves, Unset);
    FoldChoice(st, v, leaves, Unset);
    var f := FoldLeaves(st, v, leaves, Unset);
    if f.outcome.Pass? {
      FoldBound(st, v, leaves, Unset);
      if HasTensorLeaf(LeafVars(e)) {
        var l :| l in LeafVars(e) && !IsScalar(l.ty);
        assert Priority(st.storage[l].kind) <= Priority(f.acc.kind);
      }
    }
  }

  /** The order in which `determineStorage` visits the right-hand side's
      variables does not matter: folding them in any order with the same
      elements gives the same verdict and records the same storage. */
  lemma DetermineAnyOrder(st: InferState, v: Var, e: Expr, leaves: seq<Var>)
    requires IsSystemMatrix(v)
    requires forall l :: l in leaves <==> l in LeafVars(e)
    ensures var r := Determine(st, v, Some(e));
            var f := FoldLeaves(st, v, leaves, Unset);
            (r.outcome.Pass? <==> f.outcome.Pass?)
            && (r.outcome.Pass? ==> r.state.storage == if f.acc.kind == Undefined then st.storage else st.storage[v := f.acc])
  {
    var sorted := Ordered(LeafVars(e));
    OrderedElements(LeafVars(e));
    FoldOrderFree(st, v, sorted, leaves, Unset);
    FoldFrame(st, v, sorted, Unset);
  }

  /** Element tensors and system vectors are sticky: an assignment gives
      them dense storage only when they have none, and otherwise changes
      nothing. */
  lemma AssignSticky(st: InferState, v: Var, value: Expr, derive: PathSource -> PathExpr)
    requires HoldsTensor(v) && (v.ty.elementLocal || v.ty.order <= 1)
    ensures var r := AssignRule(st, v, value, derive);
            r.outcome == Pass && v in r.state.storage
            && (v in st.storage ==> r.state == st)
            && (v !in st.storage ==> r.state == st.(storage := st.storage[v := OfKind(Dense)]))
  {
  }

  /** A system matrix is re-derived at every assignment: when the value's
      non-scalar variables all have storage, the entry of `v` is replaced by
      the strongest of theirs, whatever `v` held before; a fused value also
      records the builder's path expression for `v`. */
  lemma AssignOverwrites(st: InferState, v: Var, value: Expr, derive: PathSource -> PathExpr)
    requires IsSystemMatrix(v)
    requires NoUndefined(st.storage) && AllStored(st.storage, LeafVars(value)) && HasTensorLeaf(LeafVars(value))
    ensures var r := AssignRule(st, v, value, derive);
            r.outcome == Pass && v in r.state.storage
            && r.state.storage == st.storage[v := r.state.storage[v]]
            && IsStrongest(r.state.storage[v].kind, st.storage, LeafVars(value))
            && (r.state.storage[v].kind != Indexed ==> r.state.storage[v] == OfKind(r.state.storage[v].kind))
            && r.state.paths == if value.IndexExpr? then st.paths[v := derive(AssignedFrom(v, value))] else st.paths
  {
    var st' := if value.IndexExpr? then st.(paths := st.paths[v := derive(AssignedFrom(v, value))]) else st;
    DetermineSystemMatrix(st', v, value);
    DetermineFrame(st', v, Some(value));
  }

  /** A declaration gives a non-scalar tensor dense storage whether or not it
      already has an entry: a redeclared diagonal or sparse matrix becomes
      dense. */
  lemma VarDeclDefault(st: InferState, v: Var)
    requires HoldsTensor(v)
    ensures VarDeclRule(st, v) == Step(st.(storage := st.storage[v := OfKind(Dense)]), Pass)
  {
  }

  /** A tensor write gives a non-scalar tensor variable without storage the
      dense default, and changes nothing otherwise. */
  lemma TensorWriteDefault(st: InferState, tensor: Expr)
    ensures var r := TensorWriteRule(st, tensor);
            r.outcome == Pass
            && r.state == if tensor.VarExpr? && HoldsTensor(tensor.v) && tensor.v !in st.storage
                          then st.(storage := st.storage[tensor.v := OfKind(Dense)])
                          else st
  {
  }

  /** Every tensor result of an external call gets the storage its type
      dictates, every other entry is kept, and nothing else is added. */
  lemma {:induction false} CallResultsLaw(m: map<Var, TensorStorage>, results: seq<Var>)
    ensures var r := CallResults(m, results);
            (forall v :: v in results && v.ty.Tensor? ==> v in r && r[v] == ExternalResultStorage(v.ty))
            && (forall u :: u in r && !(u in results && u.ty.Tensor?) ==> u in m && r[u] == m[u])
            && m.Keys <= r.Keys
    decreases |results|
  {
    if results != [] {
      var v := results[0];
      var rest := results[1..];
      assert results == [v] + rest;
      var m' := if v.ty.Tensor? then m[v := ExternalResultStorage(v.ty)] else m;
      CallResultsLaw(m', rest);
    }
  }

  /** The sparse storage of an external call's result has no index: asking
      for it is an internal defect, although the storage spans the system. */
  lemma ExternalMatrixHasNoIndex(t: Type)
    requires t.Tensor? && t.order != 1 && t.systemDims
    ensures IsSystem(ExternalResultStorage(t)) == Ok(true)
    ensures GetTensorIndex(ExternalResultStorage(t)) == Err(NotIndexed)
  {
  }

  /** An assembly over a plain element set stores every result, dense below
      order 2 and diagonal from order 2 on (scalars included), and keeps every
      other entry; a result that is not a tensor is an internal defect. */
  lemma {:induction false} PlainSetLaw(st: InferState, vars: seq<Var>)
    ensures var r := PlainSetRule(st, vars);
            r.state.indices == st.indices && r.state.paths == st.paths
            && (forall u :: u in r.state.storage && u !in vars ==> u in st.storage && r.state.storage[u] == st.storage[u])
            && st.storage.Keys <= r.state.storage.Keys
            && (NoUndefined(st.storage) ==> NoUndefined(r.state.storage))
            && (r.outcome.Pass? <==> forall v :: v in vars ==> v.ty.Tensor?)
            && (r.outcome.Fail? ==> r.outcome.error == NotATensor)
            && (r.outcome.Pass? ==> forall v :: v in vars ==> v in r.state.storage && r.state.storage[v] == PlainSetStorage(v.ty))
    decreases |vars|
  {
    if vars != [] {
      var v := vars[0];
      var rest := vars[1..];
      assert vars == [v] + rest;
      if v.ty.Tensor? {
        PlainSetLaw(Store(st, v, PlainSetStorage(v.ty)), rest);
      }
    }
  }

  /** The kind an assembly over an edge set gives a non-scalar tensor result. */
  function EdgeSetKind(order: nat, neighbors: bool): Kind {
    if order == 1 then Dense else if neighbors then Indexed else Diagonal
  }

  /** One result of an assembly over an edge set: only its own entry changes,
      never to the undefined kind, and only its own index may be built. */
  lemma AssembledFrame(st: InferState, v: Var, neighbors: bool)
    ensures var a := AssembledStorage(st, v, neighbors);
            a.state.paths == st.paths && Extends(st.indices, a.state.indices)
            && (IndicesKeyed(st.indices) ==> IndicesKeyed(a.state.indices))
            && (forall u :: u in a.state.storage && u != v ==> u in st.storage && a.state.storage[u] == st.storage[u])
            && (!HoldsTensor(v) ==> a.state.storage == st.storage)
            && st.storage.Keys <= a.state.storage.Keys
            && (NoUndefined(st.storage) ==> NoUndefined(a.state.storage))
  {
    if HoldsTensor(v) && v.ty.order != 1 && neighbors {
      var (st', index) := GetOrCreate(st, v);
      assert Extends(st.indices, st'.indices);
    }
  }

  /** An assembly over an edge set keeps the builder's results and only adds
      indices, each for its own path expression. */
  lemma {:induction false} EdgeSetIndices(st: InferState, vars: seq<Var>, neighbors: bool)
    ensures var r := EdgeSetRule(st, vars, neighbors);
            r.state.paths == st.paths && Extends(st.indices, r.state.indices)
            && (IndicesKeyed(st.indices) ==> IndicesKeyed(r.state.indices))
    decreases |vars|
  {
    if vars != [] {
      var v := vars[0];
      var rest := vars[1..];
      assert vars == [v] + rest;
      var a := AssembledStorage(st, v, neighbors);
      AssembledFrame(st, v, neighbors);
      if a.outcome.Pass? {
        assert EdgeSetRule(st, vars, neighbors) == EdgeSetRule(a.state, rest, neighbors);
        EdgeSetIndices(a.state, rest, neighbors);
      }
    }
  }

  /** An assembly over an edge set keeps every entry other than those of its
      non-scalar tensor results and never records the undefined kind. */
  lemma {:induction false} EdgeSetEntries(st: InferState, vars: seq<Var>, neighbors: bool)
    ensures var r := EdgeSetRule(st, vars, neighbors);
            (forall u :: u in r.state.storage && !(u in vars && HoldsTensor(u)) ==> u in st.storage && r.state.storage[u] == st.storage[u])
            && st.storage.Keys <= r.state.storage.Keys
            && (NoUndefined(st.storage) ==> NoUndefined(r.state.storage))
    decreases |vars|
  {
    if vars != [] {
      var v := vars[0];
      var rest := vars[1..];
      assert vars == [v] + rest;
      var a := AssembledStorage(st, v, neighbors);
      AssembledFrame(st, v, neighbors);
      if a.outcome.Pass? {
        assert EdgeSetRule(st, vars, neighbors) == EdgeSetRule(a.state, rest, neighbors);
        EdgeSetEntries(a.state, rest, neighbors);
      }
    }
  }

  /** An assembly over an edge set fails exactly when it expands neighbours
      and some non-scalar tensor result has order above 2; that failure is the
      user-facing unsupported-order error, never an internal defect. */
  lemma {:induction false} EdgeSetOutcome(st: InferState, vars: seq<Var>, neighbors: bool)
    ensures var r := EdgeSetRule(st, vars, neighbors);
            (r.outcome.Pass? <==> (neighbors ==> forall v :: v in vars && HoldsTensor(v) ==> v.ty.order <= 2))
            && (r.outcome.Fail? ==> neighbors && r.outcome.error.UnsupportedSparseOrder?
                                    && r.outcome.error.v in vars && r.outcome.error.order > 2
                                    && !IsInternalDefect(r.outcome.error))
    decreases |vars|
  {
    if vars != [] {
      var v := vars[0];
      var rest := vars[1..];
      assert vars == [v] + rest;
      var a := AssembledStorage(st, v, neighbors);
      AssembledFrame(st, v, neighbors);
      if a.outcome.Pass? {
        assert EdgeSetRule(st, vars, neighbors) == EdgeSetRule(a.state, rest, neighbors);
        EdgeSetOutcome(a.state, rest, neighbors);
      }
    }
  }

  /** `r` holds for `v` the storage an assembly over an edge set gives it,
      with a sparse index equal to the one the table holds for `v`'s path
      expression in `st`. */
  ghost predicate AssembledAs(st: InferState, r: InferState, v: Var, neighbors: bool) {
    v.ty.Tensor? && v in r.storage && r.storage[v].kind == EdgeSetKind(v.ty.order, neighbors)
    && (r.storage[v].kind == Indexed ==> PathOf(st, v) in r.indices && r.storage[v].index == r.indices[PathOf(st, v)])
    && (r.storage[v].kind != Indexed ==> r.storage[v] == OfKind(r.storage[v].kind))
  }

  lemma AssembledStores(st: InferState, v: Var, neighbors: bool)
    requires HoldsTensor(v) && AssembledStorage(st, v, neighbors).outcome.Pass?
    ensures AssembledAs(st, AssembledStorage(st, v, neighbors).state, v, neighbors)
  {
  }

  /** After a successful assembly over an edge set every non-scalar tensor
      result has the kind its order and the neighbour expansion dictate, and a
      sparse result carries the index the table holds for its path
      expression. */
  lemma {:induction false} EdgeSetStores(st: InferState, vars: seq<Var>, neighbors: bool)
    requires EdgeSetRule(st, vars, neighbors).outcome.Pass?
    ensures forall v :: v in vars && HoldsTensor(v) ==> AssembledAs(st, EdgeSetRule(st, vars, neighbors).state, v, neighbors)
    decreases |vars|
  {
    if vars != [] {
      var v := vars[0];
      var rest := vars[1..];
      assert vars == [v] + rest;
      var a := AssembledStorage(st, v, neighbors);
      var r := EdgeSetRule(a.state, rest, neighbors);
      assert EdgeSetRule(st, vars, neighbors) == r;
      AssembledFrame(st, v, neighbors);
      EdgeSetStores(a.state, rest, neighbors);
      EdgeSetEntries(a.state, rest, neighbors);
      EdgeSetIndices(a.state, rest, neighbors);
      forall u | u in vars && HoldsTensor(u)
        ensures AssembledAs(st, r.state, u, neighbors)
      {
        if u in rest {
          assert AssembledAs(a.state, r.state, u, neighbors);
        } else {
          AssembledStores(st, v, neighbors);
        }
      }
    }
  }

  /** The default rule over declared variables never fails, gives every
      non-scalar tensor among them dense storage and keeps everything else. */
  lemma {:induction false} SeedLaw(st: InferState, vars: seq<Var>)
    ensures var r := Seed(st, vars);
            r.outcome == Pass && r.state.indices == st.indices && r.state.paths == st.paths
            && (forall v :: v in vars && HoldsTensor(v) ==> v in r.state.storage && r.state.storage[v] == OfKind(Dense))
            && (forall u :: u in r.state.storage && !(u in vars && HoldsTensor(u)) ==> u in st.storage && r.state.storage[u] == st.storage[u])
            && st.storage.Keys <= r.state.storage.Keys
    decreases |vars|
  {
    if vars != [] {
      var v := vars[0];
      var rest := vars[1..];
      assert vars == [v] + rest;
      var st' := if HoldsTensor(v) then Store(st, v, OfKind(Dense)) else st;
      assert (if v.ty.Tensor? then Determine(st, v, None) else Step(st, Pass)) == Step(st', Pass);
      SeedLaw(st', rest);
    }
  }
}
