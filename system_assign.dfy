/**
 * The GPU back end's canonicalisation of system assignments: a field write or
 * an assignment whose value spans the system but is not a fused index
 * expression gets its value wrapped in an identity element-wise expression,
 * so that later passes see every such value as an index expression.
 */
module SystemAssign {
  import opened IR

  /** `unaryElwiseExpr(None, value)`: the identity element-wise expression over
      `value`. It has `value`'s type and reads the same variables. */
  function Identity(value: Expr): (r: Expr)
    ensures r.IndexExpr? && TypeOf(r) == TypeOf(value)
    ensures LeafVars(r) == LeafVars(value)
  {
    assert [value][1..] == [];
    assert LeafVarsOf([value]) == LeafVars(value) + LeafVarsOf([]);
    IndexExpr(TypeOf(value), [value])
  }

  /** Whether a field write must be wrapped: its value is not an index
      expression, the field and the value have the same order and the field
      spans the system. Reading the order of a type that is not a tensor is
      an internal defect. */
  function FieldWriteWraps(fieldType: Type, value: Expr): Result<bool> {
    if value.IndexExpr? then Ok(false)
    else if !fieldType.Tensor? || !TypeOf(value).Tensor? then Err(NotATensor)
    else Ok(fieldType.order == TypeOf(value).order && fieldType.systemDims)
  }

  /** Whether an assignment must be wrapped: its value is not an index
      expression and its type spans the system; only the value's type is
      consulted. */
  function AssignWraps(value: Expr): Result<bool> {
    if value.IndexExpr? then Ok(false)
    else if !TypeOf(value).Tensor? then Err(NotATensor)
    else Ok(TypeOf(value).systemDims)
  }

  /** The rewrite of one statement. `fieldType` is the front end's
      `getFieldType`: the declared type of a field of an element or set. */
  function RewriteStmt(s: Stmt, fieldType: (Expr, string) -> Type): Result<Stmt>
    decreases s
  {
    match s
    case FieldWrite(target, name, value, cop) =>
      var w := FieldWriteWraps(fieldType(target, name), value);
      if w.Err? then Err(w.error)
      else if w.value then Ok(FieldWrite(target, name, Identity(value), cop))
      else Ok(s)
    case AssignStmt(v, value, cop) =>
      var w := AssignWraps(value);
      if w.Err? then Err(w.error)
      else if w.value then Ok(AssignStmt(v, Identity(value), cop))
      else Ok(s)
    case Block(stmts) =>
      var r := RewriteAll(stmts, fieldType);
      if r.Err? then Err(r.error) else Ok(Block(r.value))
    case VarDecl(_) => Ok(s)
    case TensorWrite(_, _, _, _) => Ok(s)
    case CallStmt(_, _, _) => Ok(s)
    case Map(_, _, _) => Ok(s)
    case OtherStmt(_) => Ok(s)
  }

  function RewriteAll(stmts: seq<Stmt>, fieldType: (Expr, string) -> Type): Result<seq<Stmt>>
    decreases stmts
  {
    if stmts == [] then Ok([])
    else
      var head := RewriteStmt(stmts[0], fieldType);
      if head.Err? then Err(head.error)
      else
        var tail := RewriteAll(stmts[1..], fieldType);
        if tail.Err? then tail else Ok([head.value] + tail.value)
  }

  /** `rewriteSystemAssigns`: the rewrite of a whole function body. */
  function RewriteSystemAssigns(f: Func, fieldType: (Expr, string) -> Type): Result<Func> {
    var body := RewriteStmt(f.body, fieldType);
    if body.Err? then Err(body.error) else Ok(f.(body := body.value))
  }

  /** A field write is wrapped exactly when its value is not an index
      expression, the field's order equals the value's and the field spans
      the system; it is kept as it is otherwise, and the rewrite fails only
      when one of the two types is not a tensor. */
  lemma FieldWriteRule(target: Expr, name: string, value: Expr, cop: CompoundOp, fieldType: (Expr, string) -> Type)
    ensures var s := FieldWrite(target, name, value, cop);
            var ft := fieldType(target, name);
            var vt := TypeOf(value);
            var r := RewriteStmt(s, fieldType);
            (value.IndexExpr? ==> r == Ok(s))
            && (!value.IndexExpr? && (!ft.Tensor? || !vt.Tensor?) ==> r == Err(NotATensor))
            && (!value.IndexExpr? && ft.Tensor? && vt.Tensor? && ft.order == vt.order && ft.systemDims ==>
                  r == Ok(FieldWrite(target, name, Identity(value), cop)))
            && (!value.IndexExpr? && ft.Tensor? && vt.Tensor? && (ft.order != vt.order || !ft.systemDims) ==> r == Ok(s))
  {
  }

  /** An assignment is wrapped exactly when its value is not an index
      expression and the value's type spans the system, whatever the orders;
      the rewrite fails only when the value is not a tensor. */
  lemma AssignRule(v: Var, value: Expr, cop: CompoundOp, fieldType: (Expr, string) -> Type)
    ensures var s := AssignStmt(v, value, cop);
            var vt := TypeOf(value);
            var r := RewriteStmt(s, fieldType);
            (value.IndexExpr? ==> r == Ok(s))
            && (!value.IndexExpr? && !vt.Tensor? ==> r == Err(NotATensor))
            && (!value.IndexExpr? && vt.Tensor? && vt.systemDims ==> r == Ok(AssignStmt(v, Identity(value), cop)))
            && (!value.IndexExpr? && vt.Tensor? && !vt.systemDims ==> r == Ok(s))
  {
  }

  /** `t` is `s` with some field-write and assignment values wrapped by
      `Identity`, and nothing else changed. */
  ghost predicate WrapsOnly(s: Stmt, t: Stmt)
    decreases s
  {
    match s
    case FieldWrite(target, name, value, cop) => t == s || t == FieldWrite(target, name, Identity(value), cop)
    case AssignStmt(v, value, cop) => t == s || t == AssignStmt(v, Identity(value), cop)
    case Block(stmts) =>
      t.Block? && |t.stmts| == |stmts| && forall i :: 0 <= i < |stmts| ==> WrapsOnly(stmts[i], t.stmts[i])
    case VarDecl(_) => t == s
    case TensorWrite(_, _, _, _) => t == s
    case CallStmt(_, _, _) => t == s
    case Map(_, _, _) => t == s
    case OtherStmt(_) => t == s
  }

  /** The rewrite touches only field writes and assignments, and only by
      wrapping their values. */
  lemma {:induction false} RewriteWrapsOnly(s: Stmt, fieldType: (Expr, string) -> Type)
    ensures RewriteStmt(s, fieldType).Ok? ==> WrapsOnly(s, RewriteStmt(s, fieldType).value)
    decreases s
  {
    if s.Block? {
      RewriteAllWrapsOnly(s.stmts, fieldType);
    }
  }

  lemma {:induction false} RewriteAllWrapsOnly(stmts: seq<Stmt>, fieldType: (Expr, string) -> Type)
    ensures var r := RewriteAll(stmts, fieldType);
            r.Ok? ==> |r.value| == |stmts| && forall i :: 0 <= i < |stmts| ==> WrapsOnly(stmts[i], r.value[i])
    decreases stmts
  {
    if stmts != [] {
      RewriteWrapsOnly(stmts[0], fieldType);
      RewriteAllWrapsOnly(stmts[1..], fieldType);
      var r := RewriteAll(stmts, fieldType);
      if r.Ok? {
        var tail := RewriteAll(stmts[1..], fieldType).value;
        forall i | 0 <= i < |stmts|
          ensures WrapsOnly(stmts[i], r.value[i])
        {
          if i > 0 {
            assert stmts[i] == stmts[1..][i - 1] && r.value[i] == tail[i - 1];
          }
        }
      }
    }
  }

  /** The form later passes rely on: no field write or assignment is left
      whose value spans the system without being an index expression. A
      field write qualifies when its value is an index expression, one of
      its types is not a tensor, the orders differ or the field has no system
      dimensions; an assignment when its value is an index expression, is
      not a tensor or has no system dimensions. */
  ghost predicate Canonical(s: Stmt, fieldType: (Expr, string) -> Type)
    decreases s
  {
    match s
    case FieldWrite(target, name, value, _) =>
      var ft := fieldType(target, name);
      var vt := TypeOf(value);
      value.IndexExpr? || !ft.Tensor? || !vt.Tensor? || ft.order != vt.order || !ft.systemDims
    case AssignStmt(_, value, _) =>
      value.IndexExpr? || !TypeOf(value).Tensor? || !TypeOf(value).systemDims
    case Block(stmts) => forall i :: 0 <= i < |stmts| ==> Canonical(stmts[i], fieldType)
    case VarDecl(_) => true
    case TensorWrite(_, _, _, _) => true
    case CallStmt(_, _, _) => true
    case Map(_, _, _) => true
    case OtherStmt(_) => true
  }

  /** Every statement the rewrite accepts comes out canonical, at any depth
      of nesting. */
  lemma {:induction false} RewriteCanonical(s: Stmt, fieldType: (Expr, string) -> Type)
    ensures var r := RewriteStmt(s, fieldType);
            r.Ok? ==> Canonical(r.value, fieldType)
    decreases s
  {
    if s.Block? {
      RewriteAllCanonical(s.stmts, fieldType);
      var r := RewriteStmt(s, fieldType);
      if r.Ok? {
        assert r.value == Block(RewriteAll(s.stmts, fieldType).value);
      }
    }
  }

  lemma {:induction false} RewriteAllCanonical(stmts: seq<Stmt>, fieldType: (Expr, string) -> Type)
    ensures var r := RewriteAll(stmts, fieldType);
            r.Ok? ==> forall i :: 0 <= i < |r.value| ==> Canonical(r.value[i], fieldType)
    decreases stmts
  {
    if stmts != [] {
      RewriteCanonical(stmts[0], fieldType);
      RewriteAllCanonical(stmts[1..], fieldType);
      var r := RewriteAll(stmts, fieldType);
      if r.Ok? {
        var tail := RewriteAll(stmts[1..], fieldType).value;
        assert r.value == [RewriteStmt(stmts[0], fieldType).value] + tail;
        forall i | 0 <= i < |r.value|
          ensures Canonical(r.value[i], fieldType)
        {
          if i > 0 {
            assert r.value[i] == tail[i - 1];
          }
        }
      }
    }
  }

  /** Conversely, the rewrite leaves a canonical statement it accepts
      exactly as it is. */
  lemma {:induction false} CanonicalUnchanged(s: Stmt, fieldType: (Expr, string) -> Type)
    requires Canonical(s, fieldType)
    ensures RewriteStmt(s, fieldType).Ok? ==> RewriteStmt(s, fieldType) == Ok(s)
    decreases s
  {
    if s.Block? {
      CanonicalAllUnchanged(s.stmts, fieldType);
    }
  }

  lemma {:induction false} CanonicalAllUnchanged(stmts: seq<Stmt>, fieldType: (Expr, string) -> Type)
    requires forall i :: 0 <= i < |stmts| ==> Canonical(stmts[i], fieldType)
    ensures RewriteAll(stmts, fieldType).Ok? ==> RewriteAll(stmts, fieldType) == Ok(stmts)
    decreases stmts
  {
    if stmts != [] {
      CanonicalUnchanged(stmts[0], fieldType);
      forall i | 0 <= i < |stmts[1..]|
        ensures Canonical(stmts[1..][i], fieldType)
      {
        assert stmts[1..][i] == stmts[i + 1];
      }
      CanonicalAllUnchanged(stmts[1..], fieldType);
      assert stmts == [stmts[0]] + stmts[1..];
    }
  }

  /** The same over a whole function: after `rewriteSystemAssigns` the body
      is canonical. */
  lemma FuncRewriteCanonical(f: Func, fieldType: (Expr, string) -> Type)
    ensures var r := RewriteSystemAssigns(f, fieldType);
            r.Ok? ==> Canonical(r.value.body, fieldType)
  {
    RewriteCanonical(f.body, fieldType);
  }

  /** Idempotence: a statement the rewrite accepts comes out in a form that a
      second rewrite leaves unchanged, because every wrapped value is an index
      expression. */
  lemma {:induction false} RewriteIdempotent(s: Stmt, fieldType: (Expr, string) -> Type)
    ensures var r := RewriteStmt(s, fieldType);
            r.Ok? ==> RewriteStmt(r.value, fieldType) == r
    decreases s
  {
    if s.Block? {
      RewriteAllIdempotent(s.stmts, fieldType);
    }
  }

  lemma {:induction false} RewriteAllIdempotent(stmts: seq<Stmt>, fieldType: (Expr, string) -> Type)
    ensures var r := RewriteAll(stmts, fieldType);
            r.Ok? ==> RewriteAll(r.value, fieldType) == r
    decreases stmts
  {
    if stmts != [] {
      RewriteIdempotent(stmts[0], fieldType);
      RewriteAllIdempotent(stmts[1..], fieldType);
      var r := RewriteAll(stmts, fieldType);
      if r.Ok? {
        assert r.value[1..] == RewriteAll(stmts[1..], fieldType).value;
      }
    }
  }

  /** The same over a whole function: `rewriteSystemAssigns` applied twice is
      `rewriteSystemAssigns` applied once. */
  lemma FuncRewriteIdempotent(f: Func, fieldType: (Expr, string) -> Type)
    ensures var r := RewriteSystemAssigns(f, fieldType);
            r.Ok? ==> RewriteSystemAssigns(r.value, fieldType) == r
  {
    RewriteIdempotent(f.body, fieldType);
  }
}
