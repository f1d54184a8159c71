/**
 * The fragment of the intermediate representation that storage inference and
 * the system-assignment rewrite look at: tensor types, variables, expressions
 * whose leaves are variables, statements and functions, and the two kinds of
 * failure the passes can signal.
 */
module IR {

  /** A static type. Only tensor types matter to the passes; every other type
      (sets, elements, tuples) is `NonTensor`. For a tensor, `elementLocal` is
      the front end's "element tensor type" test and `systemDims` says whether
      some dimension ranges over a whole set. */
  datatype Type =
    | NonTensor
    | Tensor(order: nat, elementLocal: bool, systemDims: bool)

  /** A scalar is a tensor of order 0. */
  predicate IsScalar(t: Type) {
    t.Tensor? && t.order == 0
  }

  /** A variable: an identity plus its declared type. */
  datatype Var = Var(id: nat, ty: Type)

  /** A variable that needs storage: a tensor that is not a scalar. */
  predicate HoldsTensor(v: Var) {
    v.ty.Tensor? && !IsScalar(v.ty)
  }

  /** A path expression, the structural description of a sparse pattern.
      `EmptyPath` is the default-constructed one; the shape of the others is
      opaque and only compared for equality. */
  datatype PathExpr = EmptyPath | Path(shape: nat)

  /** The set a `Map` assembles over; cardinality 0 is a plain element set,
      anything else an edge set whose edges have that many endpoints. */
  datatype SetRef = SetRef(name: nat, cardinality: nat)

  datatype CompoundOp = NoCompound | AddCompound

  datatype FuncKind = Internal | Intrinsic | External

  /** Expressions. `IndexExpr` is a fused element-wise/reduction expression;
      `Apply` stands for every other composite expression (calls, field reads,
      arithmetic that has not been fused). */
  datatype Expr =
    | VarExpr(v: Var)
    | Literal(ty: Type)
    | IndexExpr(ty: Type, operands: seq<Expr>)
    | Apply(ty: Type, operands: seq<Expr>)

  function TypeOf(e: Expr): Type {
    match e
    case VarExpr(v) => v.ty
    case Literal(t) => t
    case IndexExpr(t, _) => t
    case Apply(t, _) => t
  }

  /** The variables an expression reads, collected by a walk over the whole
      tree (duplicates collapse, as in the source's `std::set<Var>`). */
  function LeafVars(e: Expr): set<Var>
    decreases e
  {
    match e
    case VarExpr(v) => {v}
    case Literal(_) => {}
    case IndexExpr(_, ops) => LeafVarsOf(ops)
    case Apply(_, ops) => LeafVarsOf(ops)
  }

  function LeafVarsOf(es: seq<Expr>): set<Var>
    decreases es
  {
    if es == [] then {} else LeafVars(es[0]) + LeafVarsOf(es[1..])
  }

  /** Statements. `Block` stands for every statement that only holds other
      statements (blocks, loops, conditionals), whose children both passes
      walk in order; `OtherStmt` for every leaf statement neither pass
      handles. */
  datatype Stmt =
    | VarDecl(v: Var)
    | AssignStmt(v: Var, value: Expr, cop: CompoundOp)
    | FieldWrite(elementOrSet: Expr, fieldName: string, value: Expr, cop: CompoundOp)
    | TensorWrite(tensor: Expr, indices: seq<Expr>, value: Expr, cop: CompoundOp)
    | CallStmt(callee: FuncKind, results: seq<Var>, actuals: seq<Expr>)
    | Map(vars: seq<Var>, target: SetRef, neighbors: bool)
    | Block(stmts: seq<Stmt>)
    | OtherStmt(tag: nat)

  /** A compiled function: the tensor constants of its environment, its
      arguments and results, and its body. */
  datatype Func = Func(constants: seq<Var>, arguments: seq<Var>, results: seq<Var>, body: Stmt)

  /** What the path-expression builder analyses: an assignment of a fused
      expression to a variable, or one result variable of an assembly. */
  datatype PathSource =
    | AssignedFrom(v: Var, value: Expr)
    | AssembledBy(target: SetRef, neighbors: bool, v: Var)

  /** Failures. All but `UnsupportedSparseOrder` are internal defects (an
      assertion of the compiler itself); that one is the user-facing
      "unsupported feature" error. */
  datatype Error =
    | NotATensor
    | MissingStorage(v: Var)
    | UndefinedKind
    | NotIndexed
    | UnsupportedSparseOrder(v: Var, order: nat)

  predicate IsInternalDefect(e: Error) {
    !e.UnsupportedSparseOrder?
  }

  datatype Outcome = Pass | Fail(error: Error)

  datatype Result<T> = Ok(value: T) | Err(error: Error)

  datatype Option<T> = None | Some(value: T)
}
