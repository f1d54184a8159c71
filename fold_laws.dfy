/**
 * Properties of the priority fold of `determineStorage` and of the rule
 * itself: what it reads and writes, when it fails, and that the storage it
 * picks is the strongest among the right-hand side's variables whatever the
 * order they are visited in.
 */
module FoldLaws {
  import opened IR
  import opened VarOrder
  import opened TensorStorages
  import opened InferenceSpec

  /** `b` holds every index of `a`, unchanged: cached indices are never
      replaced. */
  ghost predicate Extends(a: map<PathExpr, TensorIndex>, b: map<PathExpr, TensorIndex>) {
    forall p :: p in a ==> p in b && b[p] == a[p]
  }

  /** Every cached index is defined and describes its own path expression. */
  ghost predicate IndicesKeyed(m: map<PathExpr, TensorIndex>) {
    forall p :: p in m ==> m[p].TensorIndex? && m[p].pexpr == p
  }

  /** No variable is recorded with the undefined storage kind. */
  ghost predicate NoUndefined(m: map<Var, TensorStorage>) {
    forall v :: v in m ==> m[v].kind != Undefined
  }

  /** Every non-scalar variable among `vs` has storage. */
  ghost predicate AllStored(m: map<Var, TensorStorage>, vs: set<Var>) {
    forall l :: l in vs && !IsScalar(l.ty) ==> l in m
  }

  ghost predicate HasTensorLeaf(vs: set<Var>) {
    exists l :: l in vs && !IsScalar(l.ty)
  }

  /** `k` is the kind of highest priority among the stored non-scalar
      variables of `vs`. */
  ghost predicate IsStrongest(k: Kind, m: map<Var, TensorStorage>, vs: set<Var>) {
    (forall l :: l in vs && !IsScalar(l.ty) && l in m ==> Priority(m[l].kind) <= Priority(k))
    && (exists l :: l in vs && !IsScalar(l.ty) && l in m && m[l].kind == k)
  }

  /** The fold only reads the storage table and the builder's results, and
      only adds to the index table. */
  lemma {:induction false} FoldFrame(st: InferState, target: Var, leaves: seq<Var>, acc: TensorStorage)
    ensures var f := FoldLeaves(st, target, leaves, acc);
            f.state.storage == st.storage && f.state.paths == st.paths && Extends(st.indices, f.state.indices)
            && (IndicesKeyed(st.indices) ==> IndicesKeyed(f.state.indices))
    decreases |leaves|
  {
    if leaves != [] {
      var op := leaves[0];
      if IsScalar(op.ty) {
        FoldFrame(st, target, leaves[1..], acc);
      } else if op in st.storage {
        var k := st.storage[op].kind;
        if Priority(k) <= Priority(acc.kind) {
          FoldFrame(st, target, leaves[1..], acc);
        } else if k == Indexed {
          var (st', index) := GetOrCreate(st, target);
          FoldFrame(st', target, leaves[1..], TensorStorage(Indexed, index));
        } else {
          FoldFrame(st, target, leaves[1..], OfKind(k));
        }
      }
    }
  }

  /** The fold succeeds exactly when every non-scalar leaf has storage; it
      fails on a leaf that has none. */
  lemma {:induction false} FoldPassIff(st: InferState, target: Var, leaves: seq<Var>, acc: TensorStorage)
    ensures var f := FoldLeaves(st, target, leaves, acc);
            (f.outcome.Pass? <==> forall l :: l in leaves && !IsScalar(l.ty) ==> l in st.storage)
            && (f.outcome.Fail? ==> f.outcome.error.MissingStorage? && f.outcome.error.v in leaves
                                    && !IsScalar(f.outcome.error.v.ty) && f.outcome.error.v !in st.storage)
    decreases |leaves|
  {
    if leaves != [] {
      var op := leaves[0];
      assert leaves == [op] + leaves[1..];
      if IsScalar(op.ty) {
        FoldPassIff(st, target, leaves[1..], acc);
      } else if op in st.storage {
        var k := st.storage[op].kind;
        if Priority(k) <= Priority(acc.kind) {
          FoldPassIff(st, target, leaves[1..], acc);
        } else if k == Indexed {
          var (st', index) := GetOrCreate(st, target);
          FoldPassIff(st', target, leaves[1..], TensorStorage(Indexed, index));
        } else {
          FoldPassIff(st, target, leaves[1..], OfKind(k));
        }
      }
    }
  }

  /** What the fold can end with: the running storage only ever moves to a
      kind of strictly higher priority, taken from some leaf; a dense or
      diagonal winner carries no index, and a sparse winner carries the index
      of the target's path expression, which the index table then holds. */
  lemma {:induction false} FoldChoice(st: InferState, target: Var, leaves: seq<Var>, acc: TensorStorage)
    ensures var f := FoldLeaves(st, target, leaves, acc);
            Priority(acc.kind) <= Priority(f.acc.kind)
            && (f.acc.kind == acc.kind ==> f.acc == acc)
            && (f.acc.kind != acc.kind ==>
                  exists l :: l in leaves && !IsScalar(l.ty) && l in st.storage && st.storage[l].kind == f.acc.kind)
            && (f.acc.kind != acc.kind && f.acc.kind != Indexed ==> f.acc == OfKind(f.acc.kind))
            && (f.acc.kind != acc.kind && f.acc.kind == Indexed ==>
                  f.acc.index == GetOrCreate(st, target).1
                  && PathOf(st, target) in f.state.indices && f.state.indices[PathOf(st, target)] == f.acc.index)
    decreases |leaves|
  {
    if leaves != [] {
      var op := leaves[0];
      var rest := leaves[1..];
      assert leaves == [op] + rest;
      if IsScalar(op.ty) {
        FoldChoice(st, target, rest, acc);
      } else if op in st.storage {
        var k := st.storage[op].kind;
        if Priority(k) <= Priority(acc.kind) {
          FoldChoice(st, target, rest, acc);
        } else if k == Indexed {
          var (st', index) := GetOrCreate(st, target);
          FoldChoice(st', target, rest, TensorStorage(Indexed, index));
          FoldFrame(st', target, rest, TensorStorage(Indexed, index));
        } else {
          FoldChoice(st, target, rest, OfKind(k));
        }
      }
    }
  }

  /** After a successful fold no leaf's kind has higher priority than the
      result's. */
  lemma {:induction false} FoldBound(st: InferState, target: Var, leaves: seq<Var>, acc: TensorStorage)
    requires FoldLeaves(st, target, leaves, acc).outcome.Pass?
    ensures var f := FoldLeaves(st, target, leaves, acc);
            forall l :: l in leaves && !IsScalar(l.ty) && l in st.storage ==> Priority(st.storage[l].kind) <= Priority(f.acc.kind)
    decreases |leaves|
  {
    if leaves != [] {
      var op := leaves[0];
      var rest := leaves[1..];
      assert leaves == [op] + rest;
      if IsScalar(op.ty) || Priority(st.storage[op].kind) <= Priority(acc.kind) {
        FoldBound(st, target, rest, acc);
        FoldChoice(st, target, rest, acc);
      } else if st.storage[op].kind == Indexed {
        var (st', index) := GetOrCreate(st, target);
        FoldBound(st', target, rest, TensorStorage(Indexed, index));
        FoldChoice(st', target, rest, TensorStorage(Indexed, index));
      } else {
        var k := st.storage[op].kind;
        FoldBound(st, target, rest, OfKind(k));
        FoldChoice(st, target, rest, OfKind(k));
      }
    }
  }

  /** The fold's verdict and the storage it picks do not depend on the order
      in which the leaves are visited. (The index table may: a sparse leaf
      visited before a dense one still builds the target's index.) */
  lemma FoldOrderFree(st: InferState, target: Var, a: seq<Var>, b: seq<Var>, acc: TensorStorage)
    requires forall l :: l in a <==> l in b
    ensures FoldLeaves(st, target, a, acc).outcome.Pass? <==> FoldLeaves(st, target, b, acc).outcome.Pass?
    ensures FoldLeaves(st, target, a, acc).outcome.Pass? ==>
              FoldLeaves(st, target, a, acc).acc == FoldLeaves(st, target, b, acc).acc
  {
    FoldPassIff(st, target, a, acc);
    FoldPassIff(st, target, b, acc);
    var fa := FoldLeaves(st, target, a, acc);
    var fb := FoldLeaves(st, target, b, acc);
    if fa.outcome.Pass? {
      FoldChoice(st, target, a, acc);
      FoldChoice(st, target, b, acc);
      FoldBound(st, target, a, acc);
      FoldBound(st, target, b, acc);
      assert Priority(fa.acc.kind) <= Priority(fb.acc.kind);
      assert Priority(fb.acc.kind) <= Priority(fa.acc.kind);
      PriorityInjective(fa.acc.kind, fb.acc.kind);
    }
  }
}
