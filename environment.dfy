/**
 * The compilation unit's table of sparse indices, keyed by path expression.
 * It lives outside the core: only the three operations the inference calls
 * are modelled, with the contract the inference relies on.
 */
module IndexTable {
  import opened IR
  import opened TensorStorages

  class Environment {
    var indices: map<PathExpr, TensorIndex>

    constructor ()
      ensures indices == map[]
    {
      indices := map[];
    }

    predicate HasTensorIndex(pexpr: PathExpr)
      reads this
    {
      pexpr in indices
    }

    /** Builds the index for `pexpr`, named after `seed`; adding a second
        index for the same path expression is a defect of the caller. */
    method AddTensorIndex(pexpr: PathExpr, seed: Var)
      requires !HasTensorIndex(pexpr)
      modifies this
      ensures indices == old(indices)[pexpr := TensorIndex(seed, pexpr)]
    {
      indices := indices[pexpr := TensorIndex(seed, pexpr)];
    }

    function GetTensorIndex(pexpr: PathExpr): TensorIndex
      reads this
      requires HasTensorIndex(pexpr)
    {
      indices[pexpr]
    }
  }
}
