/**
 * Python's insertion-ordered `dict` with string keys: the keys in insertion
 * order beside the key-to-value map. Assigning to an existing key keeps its
 * position; a new key goes to the end.
 */
module Dicts {

  datatype Dict<V> = Dict(keys: seq<string>, m: map<string, V>) {

    /** Every key appears once, and exactly the keys of the map appear. */
    predicate Valid() {
      && (forall i, j | 0 <= i < j < |keys| :: KeysDiffer(keys, i, j))
      && m.Keys == (set k | k in keys)
    }

    /** `d[k] = v`. */
    function Set(k: string, v: V): (r: Dict<V>)
      ensures Valid() ==> r.Valid()
      ensures r.m == m[k := v]
      ensures r.keys == if k in m then keys else keys + [k]
    {
      if k in m then Dict(keys, m[k := v])
      else
        AppendKeepsValid(this, k, v);
        Dict(keys + [k], m[k := v])
    }

    /**
     * `d.update(other)`, which is also the `{**d, **other}` merge; what it
     * holds is stated by `UpdateMerges`.
     */
    function Update(other: Dict<V>): (r: Dict<V>)
      requires other.Valid()
      ensures Valid() ==> r.Valid()
    {
      assert Valid() ==> SetAll(this, other.keys, other.m).Valid() by {
        if Valid() {
          SetAllValid(this, other.keys, other.m);
        }
      }
      SetAll(this, other.keys, other.m)
    }
  }

  /**
   * The merge `d.update(other)`: the keys of `d` first, then the keys of
   * `other` that are new, and on a shared key the value of `other` wins.
   */
  lemma {:induction false} UpdateMerges<V>(d: Dict<V>, other: Dict<V>)
    requires other.Valid()
    ensures d.Update(other).keys == d.keys + KeysNotIn(other.keys, d.m)
    ensures d.Update(other).m == d.m + other.m
  {
    KeysDistinct(other);
    SetAllKeys(d, other.keys, other.m);
    SetAllMap(d, other.keys, other.m);
    assert SetAll(d, other.keys, other.m).m == d.m + other.m;
  }

  /** No key occurs twice in `ks`: the last one is not among the others, which are distinct. */
  predicate Distinct(ks: seq<string>)
    decreases |ks|
  {
    ks == [] || (ks[|ks| - 1] !in ks[..|ks| - 1] && Distinct(ks[..|ks| - 1]))
  }

  /** Distinct keys are pairwise different. */
  lemma {:induction false} DistinctIsPairwise(ks: seq<string>)
    ensures Distinct(ks) <==> forall i, j | 0 <= i < j < |ks| :: ks[i] != ks[j]
    decreases |ks|
  {
    if ks != [] {
      var n := |ks| - 1;
      var init := ks[..n];
      DistinctIsPairwise(init);
      assert forall i | 0 <= i < n :: init[i] == ks[i];
      assert ks[n] in init <==> exists i | 0 <= i < n :: ks[i] == ks[n];
    }
  }

  /** Positions `i` and `j` of `ks` hold different keys. */
  predicate KeysDiffer(ks: seq<string>, i: int, j: int)
    requires 0 <= i < |ks| && 0 <= j < |ks|
  {
    ks[i] != ks[j]
  }

  /** The keys of a valid dictionary are pairwise different. */
  lemma {:induction false} KeysDistinct<V>(d: Dict<V>)
    requires d.Valid()
    ensures forall i, j | 0 <= i < j < |d.keys| :: d.keys[i] != d.keys[j]
  {
    forall i, j | 0 <= i < j < |d.keys| ensures d.keys[i] != d.keys[j] {
      assert KeysDiffer(d.keys, i, j);
    }
  }

  /** Appending a key the dictionary lacks keeps it valid. */
  lemma {:induction false} AppendKeepsValid<V>(d: Dict<V>, k: string, v: V)
    requires k !in d.m
    ensures d.Valid() ==> Dict(d.keys + [k], d.m[k := v]).Valid()
  {
    if d.Valid() {
      var ks := d.keys + [k];
      forall i, j | 0 <= i < j < |ks| ensures KeysDiffer(ks, i, j) {
        if j < |d.keys| {
          assert KeysDiffer(d.keys, i, j);
        } else {
          assert d.keys[i] in d.m;
        }
      }
      assert d.m[k := v].Keys == (set x | x in ks) by {
        assert forall x :: x in ks <==> x in d.keys || x == k;
      }
    }
  }

  /** `{}`. */
  function Empty<V>(): (r: Dict<V>)
    ensures r.Valid() && r.keys == [] && r.m == map[]
  {
    Dict([], map[])
  }

  /** The keys of `ks`, in order, that are not keys of `m`. */
  function KeysNotIn<V>(ks: seq<string>, m: map<string, V>): (r: seq<string>)
    decreases |ks|
  {
    if ks == [] then []
    else if ks[0] in m then KeysNotIn(ks[1..], m)
    else [ks[0]] + KeysNotIn(ks[1..], m)
  }

  /** Assigns `d[k] = src[k]` for every `k` of `ks`, in order. */
  function SetAll<V>(d: Dict<V>, ks: seq<string>, src: map<string, V>): Dict<V>
    requires forall k | k in ks :: k in src
    decreases |ks|
  {
    if ks == [] then d else SetAll(d.Set(ks[0], src[ks[0]]), ks[1..], src)
  }

  /** A key that occurs neither in `ks` nor elsewhere does not change the filter. */
  lemma {:induction false} KeysNotInIgnoresAbsentKey<V>(ks: seq<string>, m: map<string, V>, k: string, v: V)
    requires k !in ks
    ensures KeysNotIn(ks, m[k := v]) == KeysNotIn(ks, m)
    decreases |ks|
  {
    if ks != [] {
      KeysNotInIgnoresAbsentKey(ks[1..], m, k, v);
    }
  }

  /** Assigning keys one by one keeps a valid dictionary valid. */
  lemma {:induction false} SetAllValid<V>(d: Dict<V>, ks: seq<string>, src: map<string, V>)
    requires forall k | k in ks :: k in src
    requires d.Valid()
    ensures SetAll(d, ks, src).Valid()
    decreases |ks|
  {
    if ks != [] {
      SetAllValid(d.Set(ks[0], src[ks[0]]), ks[1..], src);
    }
  }

  /** Assigning distinct keys: old keys keep their order, new ones follow in the order given. */
  lemma {:induction false} SetAllKeys<V>(d: Dict<V>, ks: seq<string>, src: map<string, V>)
    requires forall k | k in ks :: k in src
    requires forall i, j | 0 <= i < j < |ks| :: ks[i] != ks[j]
    ensures SetAll(d, ks, src).keys == d.keys + KeysNotIn(ks, d.m)
    decreases |ks|
  {
    if ks != [] {
      var k0 := ks[0];
      var tail := ks[1..];
      assert forall i, j | 0 <= i < j < |tail| :: tail[i] != tail[j] by {
        forall i, j | 0 <= i < j < |tail| ensures tail[i] != tail[j] {
          assert tail[i] == ks[i + 1] && tail[j] == ks[j + 1];
        }
      }
      assert k0 !in tail by {
        forall j | 0 <= j < |tail| ensures tail[j] != k0 {
          assert tail[j] == ks[j + 1];
        }
      }
      SetAllKeys(d.Set(k0, src[k0]), tail, src);
      KeysNotInIgnoresAbsentKey(tail, d.m, k0, src[k0]);
    }
  }

  /** Assigning keys one by one: every assigned key maps to its source value, others are kept. */
  lemma {:induction false} SetAllMap<V>(d: Dict<V>, ks: seq<string>, src: map<string, V>)
    requires forall k | k in ks :: k in src
    ensures forall k :: k in SetAll(d, ks, src).m <==> k in d.m || k in ks
    ensures forall k | k in SetAll(d, ks, src).m ::
      SetAll(d, ks, src).m[k] == if k in ks then src[k] else d.m[k]
    decreases |ks|
  {
    if ks != [] {
      SetAllMap(d.Set(ks[0], src[ks[0]]), ks[1..], src);
      assert forall k :: k in ks <==> k == ks[0] || k in ks[1..];
    }
  }
}
