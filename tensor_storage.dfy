/**
 * How one tensor variable is physically stored: a storage kind and, for a
 * sparse (`Indexed`) tensor, the sparse index describing its pattern.
 */
module TensorStorages {
  import opened IR

  datatype Kind = Undefined | Dense | Diagonal | Indexed

  /** A sparse index, or the default-constructed `NoIndex` (not `defined()`).
      A defined index is identified by the variable it was first built for
      (its name is derived from it) and its path expression. */
  datatype TensorIndex = NoIndex | TensorIndex(seed: Var, pexpr: PathExpr)

  datatype TensorStorage = TensorStorage(kind: Kind, index: TensorIndex)

  /** `TensorStorage()`: undefined kind, no index. */
  const Unset := TensorStorage(Undefined, NoIndex)

  /** `TensorStorage(kind)`: a kind with no index. */
  function OfKind(k: Kind): TensorStorage {
    TensorStorage(k, NoIndex)
  }

  /** Merge priority of a kind: Dense 4 > Indexed 3 > Diagonal 2 > Undefined 0. */
  function Priority(k: Kind): (p: nat)
    ensures p <= 4
    ensures p == 0 <==> k == Undefined
  {
    match k
    case Dense => 4
    case Indexed => 3
    case Diagonal => 2
    case Undefined => 0
  }

  lemma PriorityInjective(a: Kind, b: Kind)
    requires Priority(a) == Priority(b)
    ensures a == b
  {
  }

  predicate IsDense(ts: TensorStorage) {
    ts.kind == Dense
  }

  /** Whether a storage kind spans the system (diagonal or sparse). Asking it
      of an undefined storage is an internal defect. */
  function IsSystem(ts: TensorStorage): (r: Result<bool>)
    ensures r.Err? <==> ts.kind == Undefined
    ensures r.Err? ==> r.error == UndefinedKind
    ensures r.Ok? ==> (r.value <==> ts.kind in {Diagonal, Indexed})
  {
    match ts.kind
    case Dense => Ok(false)
    case Indexed => Ok(true)
    case Diagonal => Ok(true)
    case Undefined => Err(UndefinedKind)
  }

  lemma SystemIsNotDense(ts: TensorStorage)
    requires ts.kind != Undefined
    ensures IsSystem(ts) == Ok(!IsDense(ts))
  {
  }

  predicate HasTensorIndex(ts: TensorStorage) {
    ts.index.TensorIndex?
  }

  /** The sparse index of a storage; an internal defect unless the storage is
      `Indexed` and its index is defined. */
  function GetTensorIndex(ts: TensorStorage): (r: Result<TensorIndex>)
    ensures r.Ok? <==> ts.kind == Indexed && HasTensorIndex(ts)
    ensures r.Ok? ==> r.value == ts.index && r.value.TensorIndex?
    ensures r.Err? ==> r.error == NotIndexed
  {
    if ts.kind == Indexed && ts.index.TensorIndex? then Ok(ts.index) else Err(NotIndexed)
  }

  /** Installs an index named after `tensor` whose path expression is still
      the empty one. */
  function SetTensorIndex(ts: TensorStorage, tensor: Var): (r: TensorStorage)
    ensures r.kind == ts.kind
    ensures HasTensorIndex(r) && r.index.seed == tensor && r.index.pexpr == EmptyPath
  {
    ts.(index := TensorIndex(tensor, EmptyPath))
  }
}
