/**
 * The order in which `std::map<Var,...>` keys and `std::set<Var>` elements are
 * visited. Variables are ordered by identity; in this model the identity is
 * the pair (id, type), compared lexicographically through an injective code
 * for the type.
 */
module VarOrder {
  import opened IR

  function TypeCode(t: Type): nat {
    match t
    case NonTensor => 0
    case Tensor(o, e, s) => 1 + 4 * o + (if e then 2 else 0) + (if s then 1 else 0)
  }

  lemma TypeCodeInjective(s: Type, t: Type)
    requires TypeCode(s) == TypeCode(t)
    ensures s == t
  {
  }

  predicate VarLess(a: Var, b: Var) {
    a.id < b.id || (a.id == b.id && TypeCode(a.ty) < TypeCode(b.ty))
  }

  lemma VarLessTotal(a: Var, b: Var)
    ensures a == b || VarLess(a, b) || VarLess(b, a)
  {
    if a.id == b.id && TypeCode(a.ty) == TypeCode(b.ty) {
      TypeCodeInjective(a.ty, b.ty);
    }
  }

  ghost predicate IsLeast(m: Var, s: set<Var>) {
    m in s && forall v {:trigger VarLess(m, v)} :: v in s && v != m ==> VarLess(m, v)
  }

  lemma {:induction false} LeastExists(s: set<Var>)
    requires s != {}
    ensures exists m :: IsLeast(m, s)
    decreases |s|
  {
    var x :| x in s;
    if s == {x} {
      assert IsLeast(x, s);
    } else {
      var rest := s - {x};
      LeastExists(rest);
      var m :| IsLeast(m, rest);
      VarLessTotal(m, x);
      if VarLess(x, m) {
        forall v | v in s && v != x
          ensures VarLess(x, v)
        {
          if v != m {
            assert VarLess(m, v);
          }
        }
        assert IsLeast(x, s);
      } else {
        assert IsLeast(m, s);
      }
    }
  }

  lemma LeastUnique(m: Var, n: Var, s: set<Var>)
    requires IsLeast(m, s) && IsLeast(n, s)
    ensures m == n
  {
    if m != n {
      assert VarLess(m, n) && VarLess(n, m);
    }
  }

  ghost predicate StrictlySorted(r: seq<Var>) {
    forall i, j :: 0 <= i < j < |r| ==> VarLess(r[i], r[j])
  }

  ghost function Least(s: set<Var>): (m: Var)
    requires s != {}
    ensures IsLeast(m, s)
  {
    LeastExists(s);
    var m :| IsLeast(m, s);
    m
  }

  /** The elements of a set in ascending order: the order in which a
      `std::set<Var>` or the keys of a `std::map<Var,...>` are iterated. */
  ghost function Ordered(s: set<Var>): (r: seq<Var>)
    decreases |s|
  {
    if s == {} then [] else [Least(s)] + Ordered(s - {Least(s)})
  }

  lemma {:induction false} OrderedElements(s: set<Var>)
    ensures forall v :: v in Ordered(s) <==> v in s
    ensures |Ordered(s)| == |s|
    decreases |s|
  {
    if s != {} {
      OrderedElements(s - {Least(s)});
    }
  }

  lemma {:induction false} OrderedIsSorted(s: set<Var>)
    ensures StrictlySorted(Ordered(s))
    decreases |s|
  {
    if s != {} {
      var m := Least(s);
      OrderedIsSorted(s - {m});
      OrderedElements(s - {m});
      var r := Ordered(s - {m});
      forall j | 0 <= j < |r|
        ensures VarLess(m, r[j])
      {
        assert r[j] in s - {m};
      }
    }
  }

  /** A strictly sorted sequence holding exactly the elements of `s` is
      `Ordered(s)`: the iteration order is unique. */
  lemma {:induction false} SortedIsOrdered(r: seq<Var>, s: set<Var>)
    requires StrictlySorted(r)
    requires forall v :: v in r <==> v in s
    ensures r == Ordered(s)
    decreases |r|
  {
    if r == [] {
      assert forall v :: v !in s;
    } else {
      var m := r[0];
      assert s != {} by { assert m in s; }
      assert IsLeast(m, s) by {
        forall v | v in s && v != m
          ensures VarLess(m, v)
        {
          assert v in r;
          var j :| 0 <= j < |r| && r[j] == v;
          assert j != 0;
        }
      }
      LeastUnique(m, Least(s), s);
      var rest := r[1..];
      assert forall v :: v in rest <==> v in s - {m} by {
        forall v | v in rest
          ensures v in s - {m}
        {
          var j :| 0 <= j < |rest| && rest[j] == v;
          assert r[j + 1] == v && VarLess(m, v);
        }
        forall v | v in s - {m}
          ensures v in rest
        {
          assert v in r;
          var j :| 0 <= j < |r| && r[j] == v;
          assert j != 0 && rest[j - 1] == v;
        }
      }
      SortedIsOrdered(rest, s - {m});
      assert r == [m] + rest;
    }
  }

  /** The least element of a non-empty set, found by one pass over it. */
  method LeastOf(s: set<Var>) returns (m: Var)
    requires s != {}
    ensures IsLeast(m, s)
  {
    m :| m in s;
    var rest := s - {m};
    while rest != {}
      invariant rest <= s && m in s && m !in rest
      invariant forall v :: v in s - rest && v != m ==> VarLess(m, v)
      decreases rest
    {
      var v :| v in rest;
      VarLessTotal(v, m);
      if VarLess(v, m) {
        forall u | u in s - rest && u != m
          ensures VarLess(v, u)
        {
          assert VarLess(m, u);
        }
        m := v;
      }
      rest := rest - {v};
    }
  }

  /** Sorts a set of variables by repeatedly taking the least remaining one. */
  method SortVars(s: set<Var>) returns (r: seq<Var>)
    ensures r == Ordered(s)
  {
    r := [];
    var rest := s;
    while rest != {}
      invariant forall v :: v in s <==> v in r || v in rest
      invariant forall v :: v in r ==> v !in rest
      invariant StrictlySorted(r)
      invariant forall i, v :: 0 <= i < |r| && v in rest ==> VarLess(r[i], v)
      decreases rest
    {
      var m := LeastOf(rest);
      r := r + [m];
      rest := rest - {m};
    }
    SortedIsOrdered(r, s);
  }
}
