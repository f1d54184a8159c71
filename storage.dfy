/**
 * The per-function storage table: an ordered map from variables to their
 * storage, updated in place.
 */
module StorageTable {
  import opened IR
  import opened VarOrder
  import opened TensorStorages

  /** The table that results from adding every entry of `other` that `mine`
      does not already hold: the first writer keeps its entry. */
  function Merged(mine: map<Var, TensorStorage>, other: map<Var, TensorStorage>): map<Var, TensorStorage> {
    other + mine
  }

  /** Merging never overwrites: the keys are those of both tables, a key
      already present keeps its entry and a new key takes `other`'s. */
  lemma MergeNeverOverwrites(mine: map<Var, TensorStorage>, other: map<Var, TensorStorage>)
    ensures Merged(mine, other).Keys == mine.Keys + other.Keys
    ensures forall v :: v in mine ==> Merged(mine, other)[v] == mine[v]
    ensures forall v :: v in other && v !in mine ==> Merged(mine, other)[v] == other[v]
  {
  }

  /** The entries of `src` whose key is in `keys`. */
  function Restrict(src: map<Var, TensorStorage>, keys: set<Var>): map<Var, TensorStorage> {
    map v | v in src && v in keys :: src[v]
  }

  lemma RestrictToAllKeys(src: map<Var, TensorStorage>, keys: set<Var>)
    requires src.Keys <= keys
    ensures Restrict(src, keys) == src
  {
    var r := Restrict(src, keys);
    assert r.Keys == src.Keys;
    forall v | v in r
      ensures r[v] == src[v]
    {
    }
  }

  lemma MergeNothing(mine: map<Var, TensorStorage>, src: map<Var, TensorStorage>)
    ensures Merged(mine, Restrict(src, {})) == mine
  {
    assert Restrict(src, {}) == map[];
  }

  /** One step of the merge loop: adding the entry of `src` for `v` when it is
      absent is the merge with one more key of `src`. */
  lemma MergeStep(mine: map<Var, TensorStorage>, src: map<Var, TensorStorage>, done: set<Var>, v: Var)
    requires v in src
    ensures var before := Merged(mine, Restrict(src, done));
            Merged(mine, Restrict(src, done + {v})) == if v in before then before else before[v := src[v]]
  {
    var before := Merged(mine, Restrict(src, done));
    var after := Merged(mine, Restrict(src, done + {v}));
    var expected := if v in before then before else before[v := src[v]];
    assert after.Keys == expected.Keys;
    forall u | u in after
      ensures after[u] == expected[u]
    {
    }
  }

  class Storage {
    var entries: map<Var, TensorStorage>

    constructor ()
      ensures entries == map[]
    {
      entries := map[];
    }

    /** The keys in iteration order. */
    ghost function Keys(): (r: seq<Var>)
      reads this
    {
      Ordered(entries.Keys)
    }

    /** Iteration visits every variable with storage exactly once, in
        ascending order. */
    lemma KeysInOrder()
      ensures StrictlySorted(Keys())
      ensures forall v :: v in Keys() <==> HasStorage(v)
      ensures |Keys()| == |entries|
    {
      OrderedIsSorted(entries.Keys);
      OrderedElements(entries.Keys);
    }

    predicate HasStorage(v: Var)
      reads this
    {
      v in entries
    }

    /** The storage of `v`; asking for a variable without storage is an
        internal defect. */
    function GetStorage(v: Var): (r: Result<TensorStorage>)
      reads this
      ensures r.Ok? <==> HasStorage(v)
      ensures r.Ok? ==> r.value == entries[v]
      ensures r.Err? ==> r.error == MissingStorage(v)
    {
      if v in entries then Ok(entries[v]) else Err(MissingStorage(v))
    }

    /** Sets the storage of `v`, replacing any it had. */
    method Add(v: Var, ts: TensorStorage)
      modifies this
      ensures entries == old(entries)[v := ts]
      ensures HasStorage(v) && GetStorage(v) == Ok(ts)
    {
      entries := entries[v := ts];
    }

    /** Adds every entry of `other` this table does not hold. */
    method AddAll(other: Storage)
      modifies this
      ensures entries == Merged(old(entries), old(other.entries))
    {
      AddMissing(other.entries);
    }

    /** The loop of `AddAll`: visits the keys of `src` in order and adds the
        entries whose key is absent here. */
    method AddMissing(src: map<Var, TensorStorage>)
      modifies this
      ensures entries == Merged(old(entries), src)
    {
      ghost var mine := entries;
      var keys := SortVars(src.Keys);
      OrderedElements(src.Keys);
      ghost var done: set<Var> := {};
      MergeNothing(mine, src);
      var i := 0;
      while i < |keys|
        invariant 0 <= i <= |keys|
        invariant forall j :: 0 <= j < i ==> keys[j] in done
        invariant entries == Merged(mine, Restrict(src, done))
      {
        var v := keys[i];
        MergeStep(mine, src, done, v);
        if !HasStorage(v) {
          Add(v, src[v]);
        }
        done := done + {v};
        i := i + 1;
      }
      forall v | v in src
        ensures v in done
      {
        assert v in keys;
        var j :| 0 <= j < |keys| && keys[j] == v;
      }
      RestrictToAllKeys(src, done);
    }
  }
}
