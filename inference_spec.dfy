/**
 * What storage inference does, as functions over the state it touches: the
 * storage table, the index table of the compilation unit and the
 * path-expression builder's results. Each function is one rule of the
 * traversal; the imperative traversal in module Inference is proved to
 * compute exactly these.
 *
 * An internal defect or the unsupported-order error stops the traversal: a
 * rule returns the state reached at that point with `Fail`.
 */
module InferenceSpec {
  import opened IR
  import opened VarOrder
  import opened TensorStorages

  datatype InferState = InferState(
    storage: map<Var, TensorStorage>,
    indices: map<PathExpr, TensorIndex>,
    paths: map<Var, PathExpr>)

  datatype Step = Step(state: InferState, outcome: Outcome)

  /** `getPathExpression`: the builder's result for `v`, or the empty path
      expression when none was computed. */
  function PathOf(st: InferState, v: Var): PathExpr {
    if v in st.paths then st.paths[v] else EmptyPath
  }

  function Store(st: InferState, v: Var, ts: TensorStorage): InferState {
    st.(storage := st.storage[v := ts])
  }

  /** `getTensorIndex`: the index cached for the path expression of `v`,
      built (and named after `v`) when the table has none. */
  function GetOrCreate(st: InferState, v: Var): (r: (InferState, TensorIndex))
    ensures PathOf(st, v) in r.0.indices && r.1 == r.0.indices[PathOf(st, v)]
    ensures r.0.storage == st.storage && r.0.paths == st.paths
    ensures PathOf(st, v) in st.indices ==> r.0 == st
    ensures PathOf(st, v) !in st.indices ==> r.0.indices == st.indices[PathOf(st, v) := r.1] && r.1 == TensorIndex(v, PathOf(st, v))
  {
    var p := PathOf(st, v);
    var st' := if p in st.indices then st else st.(indices := st.indices[p := TensorIndex(v, p)]);
    (st', st'.indices[p])
  }

  datatype FoldState = FoldState(state: InferState, acc: TensorStorage, outcome: Outcome)

  /** The priority fold of `determineStorage` over the leaf variables, in
      order, starting from `acc`: a non-scalar leaf whose kind has strictly
      higher priority replaces the running storage; an `Indexed` winner takes
      the index of the target's own path expression. A non-scalar leaf with
      no storage is an internal defect. */
  function FoldLeaves(st: InferState, target: Var, leaves: seq<Var>, acc: TensorStorage): FoldState
    decreases |leaves|
  {
    if leaves == [] then FoldState(st, acc, Pass)
    else
      var op := leaves[0];
      if IsScalar(op.ty) then FoldLeaves(st, target, leaves[1..], acc)
      else if op !in st.storage then FoldState(st, acc, Fail(MissingStorage(op)))
      else
        var k := st.storage[op].kind;
        if Priority(k) <= Priority(acc.kind) then FoldLeaves(st, target, leaves[1..], acc)
        else if k == Indexed then
          var (st', index) := GetOrCreate(st, target);
          FoldLeaves(st', target, leaves[1..], TensorStorage(Indexed, index))
        else FoldLeaves(st, target, leaves[1..], OfKind(k))
  }

  /** `determineStorage(var, rhs)`. */
  ghost function Determine(st: InferState, v: Var, rhs: Option<Expr>): Step {
    if IsScalar(v.ty) then Step(st, Pass)
    else if !v.ty.Tensor? then Step(st, Fail(NotATensor))
    else if v.ty.elementLocal || v.ty.order == 1 || rhs.None? then Step(Store(st, v, OfKind(Dense)), Pass)
    else
      var f := FoldLeaves(st, v, Ordered(LeafVars(rhs.value)), Unset);
      if f.outcome.Fail? then Step(f.state, f.outcome)
      else if f.acc.kind == Undefined then Step(f.state, Pass)
      else Step(Store(f.state, v, f.acc), Pass)
  }

  ghost function VarDeclRule(st: InferState, v: Var): Step {
    if v.ty.Tensor? && !IsScalar(v.ty) then Determine(st, v, None) else Step(st, Pass)
  }

  /** Element tensors and system vectors keep the storage they first got;
      system matrices are re-derived from the assigned value every time. */
  ghost function AssignRule(st: InferState, v: Var, value: Expr, derive: PathSource -> PathExpr): Step {
    if IsScalar(v.ty) then Step(st, Pass)
    else if !v.ty.Tensor? then Step(st, Fail(NotATensor))
    else if v.ty.elementLocal || v.ty.order <= 1 then
      if v in st.storage then Step(st, Pass) else Determine(st, v, None)
    else
      var st' := if value.IndexExpr? then st.(paths := st.paths[v := derive(AssignedFrom(v, value))]) else st;
      Determine(st', v, Some(value))
  }

  ghost function TensorWriteRule(st: InferState, tensor: Expr): Step {
    if tensor.VarExpr? && tensor.v.ty.Tensor? && !IsScalar(tensor.v.ty) && tensor.v !in st.storage
    then Determine(st, tensor.v, None)
    else Step(st, Pass)
  }

  /** Storage of a tensor result of an external function: dense for vectors
      and for types without system dimensions, otherwise sparse with an index
      that is not known. */
  function ExternalResultStorage(t: Type): TensorStorage
    requires t.Tensor?
  {
    if t.order == 1 || !t.systemDims then OfKind(Dense) else TensorStorage(Indexed, NoIndex)
  }

  function CallResults(m: map<Var, TensorStorage>, results: seq<Var>): map<Var, TensorStorage>
    decreases |results|
  {
    if results == [] then m
    else
      var r := results[0];
      CallResults(if r.ty.Tensor? then m[r := ExternalResultStorage(r.ty)] else m, results[1..])
  }

  function CallRule(st: InferState, callee: FuncKind, results: seq<Var>): Step {
    if callee == External then Step(st.(storage := CallResults(st.storage, results)), Pass) else Step(st, Pass)
  }

  /** Storage of a result of an assembly over a plain element set. */
  function PlainSetStorage(t: Type): TensorStorage
    requires t.Tensor?
  {
    if t.order < 2 then OfKind(Dense) else OfKind(Diagonal)
  }

  function PlainSetRule(st: InferState, vars: seq<Var>): Step
    decreases |vars|
  {
    if vars == [] then Step(st, Pass)
    else if !vars[0].ty.Tensor? then Step(st, Fail(NotATensor))
    else PlainSetRule(Store(st, vars[0], PlainSetStorage(vars[0].ty)), vars[1..])
  }

  /** One result of an assembly over an edge set: vectors dense, matrices
      diagonal without a neighbour expansion and sparse with one, where only
      order 2 is supported. Variables that need no storage are skipped. */
  function AssembledStorage(st: InferState, v: Var, neighbors: bool): Step {
    if !HoldsTensor(v) then Step(st, Pass)
    else if v.ty.order == 1 then Step(Store(st, v, OfKind(Dense)), Pass)
    else if !neighbors then Step(Store(st, v, OfKind(Diagonal)), Pass)
    else
      var (st', index) := GetOrCreate(st, v);
      if v.ty.order != 2 then Step(st', Fail(UnsupportedSparseOrder(v, v.ty.order)))
      else Step(Store(st', v, TensorStorage(Indexed, index)), Pass)
  }

  function EdgeSetRule(st: InferState, vars: seq<Var>, neighbors: bool): Step
    decreases |vars|
  {
    if vars == [] then Step(st, Pass)
    else
      var r := AssembledStorage(st, vars[0], neighbors);
      if r.outcome.Fail? then r else EdgeSetRule(r.state, vars[1..], neighbors)
  }

  /** The builder's `computePathExpression` for an assembly: a path
      expression for each of its results. */
  function AssemblyPaths(paths: map<Var, PathExpr>, vars: seq<Var>, target: SetRef, neighbors: bool,
                         derive: PathSource -> PathExpr): map<Var, PathExpr>
  {
    paths + map v | v in vars :: derive(AssembledBy(target, neighbors, v))
  }

  function MapRule(st: InferState, vars: seq<Var>, target: SetRef, neighbors: bool,
                   derive: PathSource -> PathExpr): Step
  {
    if target.cardinality == 0 then PlainSetRule(st, vars)
    else EdgeSetRule(st.(paths := AssemblyPaths(st.paths, vars, target, neighbors, derive)), vars, neighbors)
  }

  /** One statement. Statement kinds the traversal does not handle change
      nothing; statements that only hold others are walked in order. */
  ghost function VisitStmt(st: InferState, s: Stmt, derive: PathSource -> PathExpr): Step
    decreases s
  {
    match s
    case VarDecl(v) => VarDeclRule(st, v)
    case AssignStmt(v, value, _) => AssignRule(st, v, value, derive)
    case TensorWrite(tensor, _, _, _) => TensorWriteRule(st, tensor)
    case CallStmt(callee, results, _) => CallRule(st, callee, results)
    case Map(vars, target, neighbors) => MapRule(st, vars, target, neighbors, derive)
    case Block(stmts) => VisitSeq(st, stmts, derive)
    case FieldWrite(_, _, _, _) => Step(st, Pass)
    case OtherStmt(_) => Step(st, Pass)
  }

  ghost function VisitSeq(st: InferState, stmts: seq<Stmt>, derive: PathSource -> PathExpr): Step
    decreases stmts
  {
    if stmts == [] then Step(st, Pass)
    else
      var r := VisitStmt(st, stmts[0], derive);
      if r.outcome.Fail? then r else VisitSeq(r.state, stmts[1..], derive)
  }

  /** The default rule applied to each tensor among `vars`, in order. */
  ghost function Seed(st: InferState, vars: seq<Var>): Step
    decreases |vars|
  {
    if vars == [] then Step(st, Pass)
    else
      var r := if vars[0].ty.Tensor? then Determine(st, vars[0], None) else Step(st, Pass);
      if r.outcome.Fail? then r else Seed(r.state, vars[1..])
  }

  /** Inference over a whole function: constants, arguments and results
      first, then the body. */
  ghost function Infer(st: InferState, f: Func, derive: PathSource -> PathExpr): Step {
    var c := Seed(st, f.constants);
    if c.outcome.Fail? then c
    else
      var a := Seed(c.state, f.arguments);
      if a.outcome.Fail? then a
      else
        var r := Seed(a.state, f.results);
        if r.outcome.Fail? then r
        else VisitStmt(r.state, f.body, derive)
  }
}
