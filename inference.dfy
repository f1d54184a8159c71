/**
 * The storage-inference traversal: a visitor holding the storage table it
 * fills, the index table it shares with the compilation unit and the path
 * expressions its builder has computed. Every method is proved to leave the
 * state and return the outcome that the matching rule of InferenceSpec
 * prescribes.
 */
module Inference {
  import opened IR
  import opened VarOrder
  import opened TensorStorages
  import opened StorageTable
  import opened IndexTable
  import opened InferenceSpec

  class StorageInference {
    const storage: Storage
    const env: Environment
    /** The path-expression builder's analysis. */
    const derive: PathSource -> PathExpr
    /** The builder's results so far. */
    var paths: map<Var, PathExpr>

    ghost function State(): InferState
      reads this, storage, env
    {
      InferState(storage.entries, env.indices, paths)
    }

    constructor (storage: Storage, env: Environment, derive: PathSource -> PathExpr)
      ensures this.storage == storage && this.env == env && this.derive == derive
      ensures paths == map[]
    {
      this.storage := storage;
      this.env := env;
      this.derive := derive;
      paths := map[];
    }

    /** The index for the path expression of `v`, built on first use. */
    method GetTensorIndex(v: Var) returns (index: TensorIndex)
      modifies env
      ensures (State(), index) == GetOrCreate(old(State()), v)
    {
      var pexpr := if v in paths then paths[v] else EmptyPath;
      if !env.HasTensorIndex(pexpr) {
        env.AddTensorIndex(pexpr, v);
      }
      index := env.GetTensorIndex(pexpr);
    }

    /** `determineStorage`: dense unless `v` is a system matrix with a
        right-hand side, in which case the storage of highest priority among
        the right-hand side's variables wins. */
    method DetermineStorage(v: Var, rhs: Option<Expr>) returns (outcome: Outcome)
      modifies storage, env
      ensures Step(State(), outcome) == Determine(old(State()), v, rhs)
    {
      if IsScalar(v.ty) {
        return Pass;
      }
      if !v.ty.Tensor? {
        return Fail(NotATensor);
      }
      var ts := Unset;
      if v.ty.elementLocal || v.ty.order == 1 || rhs.None? {
        ts := OfKind(Dense);
      } else {
        var leaves := SortVars(LeafVars(rhs.value));
        var i := 0;
        while i < |leaves|
          invariant 0 <= i <= |leaves|
          invariant storage.entries == old(storage.entries) && paths == old(paths)
          invariant FoldLeaves(old(State()), v, leaves, Unset) == FoldLeaves(State(), v, leaves[i..], ts)
        {
          var op := leaves[i];
          assert leaves[i..][1..] == leaves[i + 1..];
          if !IsScalar(op.ty) {
            if !storage.HasStorage(op) {
              return Fail(MissingStorage(op));
            }
            var opStorage := storage.GetStorage(op).value;
            if Priority(opStorage.kind) > Priority(ts.kind) {
              match opStorage.kind
              case Dense =>
                ts := OfKind(Dense);
              case Indexed =>
                var index := GetTensorIndex(v);
                ts := TensorStorage(Indexed, index);
              case Diagonal =>
                ts := OfKind(Diagonal);
              case Undefined =>
                assert false;
            }
          }
          i := i + 1;
        }
      }
      if ts.kind != Undefined {
        storage.Add(v, ts);
      }
      return Pass;
    }

    method VisitVarDecl(v: Var) returns (outcome: Outcome)
      modifies storage, env
      ensures Step(State(), outcome) == VarDeclRule(old(State()), v)
    {
      outcome := Pass;
      if v.ty.Tensor? && !IsScalar(v.ty) {
        outcome := DetermineStorage(v, None);
      }
    }

    method VisitAssign(v: Var, value: Expr) returns (outcome: Outcome)
      modifies this, storage, env
      ensures Step(State(), outcome) == AssignRule(old(State()), v, value, derive)
    {
      if IsScalar(v.ty) {
        return Pass;
      }
      if !v.ty.Tensor? {
        return Fail(NotATensor);
      }
      if v.ty.elementLocal || v.ty.order <= 1 {
        outcome := Pass;
        if !storage.HasStorage(v) {
          outcome := DetermineStorage(v, None);
        }
      } else {
        if value.IndexExpr? {
          paths := paths[v := derive(AssignedFrom(v, value))];
        }
        outcome := DetermineStorage(v, Some(value));
      }
    }

    method VisitTensorWrite(tensor: Expr) returns (outcome: Outcome)
      modifies storage, env
      ensures Step(State(), outcome) == TensorWriteRule(old(State()), tensor)
    {
      outcome := Pass;
      if tensor.VarExpr? {
        var v := tensor.v;
        if v.ty.Tensor? && !IsScalar(v.ty) && !storage.HasStorage(v) {
          outcome := DetermineStorage(v, None);
        }
      }
    }

    method VisitCall(callee: FuncKind, results: seq<Var>) returns (outcome: Outcome)
      modifies storage
      ensures Step(State(), outcome) == CallRule(old(State()), callee, results)
    {
      if callee == External {
        var i := 0;
        while i < |results|
          invariant 0 <= i <= |results|
          invariant CallResults(old(storage.entries), results) == CallResults(storage.entries, results[i..])
        {
          var r := results[i];
          assert results[i..][1..] == results[i + 1..];
          if r.ty.Tensor? {
            if r.ty.order == 1 || !r.ty.systemDims {
              storage.Add(r, OfKind(Dense));
            } else {
              storage.Add(r, TensorStorage(Indexed, NoIndex));
            }
          }
          i := i + 1;
        }
      }
      return Pass;
    }

    method VisitMap(vars: seq<Var>, target: SetRef, neighbors: bool) returns (outcome: Outcome)
      modifies this, storage, env
      ensures Step(State(), outcome) == MapRule(old(State()), vars, target, neighbors, derive)
    {
      if target.cardinality == 0 {
        var i := 0;
        while i < |vars|
          invariant 0 <= i <= |vars|
          invariant PlainSetRule(old(State()), vars) == PlainSetRule(State(), vars[i..])
        {
          var v := vars[i];
          assert vars[i..][1..] == vars[i + 1..];
          if !v.ty.Tensor? {
            return Fail(NotATensor);
          }
          if v.ty.order < 2 {
            storage.Add(v, OfKind(Dense));
          } else {
            storage.Add(v, OfKind(Diagonal));
          }
          i := i + 1;
        }
        return Pass;
      }
      paths := AssemblyPaths(paths, vars, target, neighbors, derive);
      ghost var assembled := State();
      var i := 0;
      while i < |vars|
        invariant 0 <= i <= |vars|
        invariant EdgeSetRule(assembled, vars, neighbors) == EdgeSetRule(State(), vars[i..], neighbors)
      {
        var v := vars[i];
        assert vars[i..][1..] == vars[i + 1..];
        if HoldsTensor(v) {
          var ts := Unset;
          if v.ty.order == 1 {
            ts := OfKind(Dense);
          } else if !neighbors {
            ts := OfKind(Diagonal);
          } else {
            var index := GetTensorIndex(v);
            ts := TensorStorage(Indexed, index);
            if v.ty.order != 2 {
              return Fail(UnsupportedSparseOrder(v, v.ty.order));
            }
          }
          assert ts.kind != Undefined;
          storage.Add(v, ts);
        }
        i := i + 1;
      }
      return Pass;
    }

    method Visit(s: Stmt) returns (outcome: Outcome)
      modifies this, storage, env
      ensures Step(State(), outcome) == VisitStmt(old(State()), s, derive)
      decreases s
    {
      match s
      case VarDecl(v) =>
        outcome := VisitVarDecl(v);
      case AssignStmt(v, value, _) =>
        outcome := VisitAssign(v, value);
      case TensorWrite(tensor, _, _, _) =>
        outcome := VisitTensorWrite(tensor);
      case CallStmt(callee, results, _) =>
        outcome := VisitCall(callee, results);
      case Map(vars, target, neighbors) =>
        outcome := VisitMap(vars, target, neighbors);
      case Block(stmts) =>
        outcome := VisitAll(stmts);
      case FieldWrite(_, _, _, _) =>
        outcome := Pass;
      case OtherStmt(_) =>
        outcome := Pass;
    }

    method VisitAll(stmts: seq<Stmt>) returns (outcome: Outcome)
      modifies this, storage, env
      ensures Step(State(), outcome) == VisitSeq(old(State()), stmts, derive)
      decreases stmts
    {
      var i := 0;
      while i < |stmts|
        invariant 0 <= i <= |stmts|
        invariant VisitSeq(old(State()), stmts, derive) == VisitSeq(State(), stmts[i..], derive)
      {
        assert stmts[i..][1..] == stmts[i + 1..];
        outcome := Visit(stmts[i]);
        if outcome.Fail? {
          return;
        }
        i := i + 1;
      }
      return Pass;
    }

    /** The default rule for each tensor among `vars`. */
    method SeedAll(vars: seq<Var>) returns (outcome: Outcome)
      modifies storage, env
      ensures Step(State(), outcome) == Seed(old(State()), vars)
    {
      var i := 0;
      while i < |vars|
        invariant 0 <= i <= |vars|
        invariant Seed(old(State()), vars) == Seed(State(), vars[i..])
      {
        assert vars[i..][1..] == vars[i + 1..];
        if vars[i].ty.Tensor? {
          outcome := DetermineStorage(vars[i], None);
          if outcome.Fail? {
            return;
          }
        }
        i := i + 1;
      }
      return Pass;
    }

    /** `get(Func)`. */
    method Get(f: Func) returns (outcome: Outcome)
      modifies this, storage, env
      ensures Step(State(), outcome) == Infer(old(State()), f, derive)
    {
      outcome := SeedAll(f.constants);
      if outcome.Fail? {
        return;
      }
      outcome := SeedAll(f.arguments);
      if outcome.Fail? {
        return;
      }
      outcome := SeedAll(f.results);
      if outcome.Fail? {
        return;
      }
      outcome := Visit(f.body);
    }
  }

  /** `updateStorage(func, storage, env)`: a fresh traversal, with a builder
      that has computed nothing yet, over one function. */
  method UpdateStorage(f: Func, storage: Storage, env: Environment, derive: PathSource -> PathExpr)
    returns (outcome: Outcome)
    modifies storage, env
    ensures var r := Infer(InferState(old(storage.entries), old(env.indices), map[]), f, derive);
            storage.entries == r.state.storage && env.indices == r.state.indices && outcome == r.outcome
  {
    var visitor := new StorageInference(storage, env, derive);
    outcome := visitor.Get(f);
  }

  /** `updateStorage(stmt, storage, env)`: the same over one statement. */
  method UpdateStorageOfStmt(s: Stmt, storage: Storage, env: Environment, derive: PathSource -> PathExpr)
    returns (outcome: Outcome)
    modifies storage, env
    ensures var r := VisitStmt(InferState(old(storage.entries), old(env.indices), map[]), s, derive);
            storage.entries == r.state.storage && env.indices == r.state.indices && outcome == r.outcome
  {
    var visitor := new StorageInference(storage, env, derive);
    outcome := visitor.Visit(s);
  }
}
