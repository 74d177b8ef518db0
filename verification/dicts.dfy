/**
 * Python dictionaries as the move generator uses them: an insertion-ordered
 * sequence of (key, value) pairs. Assigning to a key that is already present
 * replaces its value where it stands; a new key is appended. `update` assigns
 * the entries of its argument one after the other, so a later value wins.
 */
module Dicts {
  type Dict<K, V> = seq<(K, V)>

  /** The keys in enumeration order. */
  function Keys<K, V>(d: Dict<K, V>): (ks: seq<K>)
    ensures |ks| == |d|
    ensures forall i :: 0 <= i < |d| ==> ks[i] == d[i].0
  {
    if d == [] then [] else [d[0].0] + Keys(d[1..])
  }

  predicate HasKey<K(==), V>(d: Dict<K, V>, k: K) {
    k in Keys(d)
  }

  predicate DistinctKeys<K(==), V>(d: Dict<K, V>) {
    forall i, j :: 0 <= i < j < |d| ==> d[i].0 != d[j].0
  }

  /** `d[k]`: the value stored under `k` (the first pair with that key). */
  function Get<K(==), V(==)>(d: Dict<K, V>, k: K): (v: V)
    requires HasKey(d, k)
    ensures (k, v) in d
  {
    if d[0].0 == k then d[0].1 else Get(d[1..], k)
  }

  /** `d[k] = v`. */
  function Put<K(==), V(==)>(d: Dict<K, V>, k: K, v: V): (r: Dict<K, V>)
    ensures HasKey(d, k) ==> Keys(r) == Keys(d)
    ensures !HasKey(d, k) ==> Keys(r) == Keys(d) + [k]
    ensures HasKey(r, k) && Get(r, k) == v
    ensures forall x :: x in r ==> x in d || x == (k, v)
  {
    if d == [] then [(k, v)]
    else if d[0].0 == k then
      var r := [(k, v)] + d[1..];
      assert r[1..] == d[1..];
      r
    else
      var r := [d[0]] + Put(d[1..], k, v);
      assert r[1..] == Put(d[1..], k, v);
      r
  }

  /** `d.update(e)`. */
  function Update<K(==), V(==)>(d: Dict<K, V>, e: Dict<K, V>): (r: Dict<K, V>)
    decreases |e|
  {
    if e == [] then d else Update(Put(d, e[0].0, e[0].1), e[1..])
  }

  lemma {:induction false} PutOtherKey<K, V>(d: Dict<K, V>, k: K, v: V, k': K)
    requires k' != k
    ensures HasKey(Put(d, k, v), k') == HasKey(d, k')
    ensures HasKey(d, k') ==> Get(Put(d, k, v), k') == Get(d, k')
  {
    if d != [] && d[0].0 != k {
      PutOtherKey(d[1..], k, v, k');
    }
  }

  lemma {:induction false} PutKeepsDistinct<K, V>(d: Dict<K, V>, k: K, v: V)
    requires DistinctKeys(d)
    ensures DistinctKeys(Put(d, k, v))
  {
    var r := Put(d, k, v);
    forall i, j | 0 <= i < j < |r| ensures r[i].0 != r[j].0 {
      assert Keys(r)[i] == r[i].0 && Keys(r)[j] == r[j].0;
      if !HasKey(d, k) && j == |d| {
        assert Keys(r)[i] == Keys(d)[i];
      } else {
        assert Keys(r)[i] == Keys(d)[i] && Keys(r)[j] == Keys(d)[j];
      }
    }
  }

  /** Every pair of `d.update(e)` comes from `d` or from `e`. */
  lemma {:induction false} UpdateMembers<K, V>(d: Dict<K, V>, e: Dict<K, V>)
    ensures forall x :: x in Update(d, e) ==> x in d || x in e
    decreases |e|
  {
    if e != [] {
      UpdateMembers(Put(d, e[0].0, e[0].1), e[1..]);
      forall x | x in Update(d, e) ensures x in d || x in e {
        if x in e[1..] { assert x in e; }
      }
    }
  }

  /** The keys of `d.update(e)` are those of `d` and those of `e`. */
  lemma {:induction false} UpdateKeys<K, V>(d: Dict<K, V>, e: Dict<K, V>)
    ensures forall k :: HasKey(Update(d, e), k) <==> HasKey(d, k) || HasKey(e, k)
    decreases |e|
  {
    if e != [] {
      var d' := Put(d, e[0].0, e[0].1);
      UpdateKeys(d', e[1..]);
      forall k ensures HasKey(Update(d, e), k) <==> HasKey(d, k) || HasKey(e, k) {
        assert Keys(e) == [e[0].0] + Keys(e[1..]);
        if k != e[0].0 { PutOtherKey(d, e[0].0, e[0].1, k); }
      }
    }
  }

  /** `update` keeps the enumeration position of a key already present: the first key stays first. */
  lemma {:induction false} UpdateKeepsFirst<K, V>(d: Dict<K, V>, e: Dict<K, V>)
    requires d != []
    ensures Update(d, e) != [] && Update(d, e)[0].0 == d[0].0
    decreases |e|
  {
    if e != [] {
      var d' := Put(d, e[0].0, e[0].1);
      assert Keys(d')[0] == Keys(d)[0];
      UpdateKeepsFirst(d', e[1..]);
    }
  }

  lemma {:induction false} UpdateKeepsDistinct<K, V>(d: Dict<K, V>, e: Dict<K, V>)
    requires DistinctKeys(d)
    ensures DistinctKeys(Update(d, e))
    decreases |e|
  {
    if e != [] {
      PutKeepsDistinct(d, e[0].0, e[0].1);
      UpdateKeepsDistinct(Put(d, e[0].0, e[0].1), e[1..]);
    }
  }

  /** Later wins: after `d.update(e)` a key of `e` holds `e`'s value, any other key keeps `d`'s. */
  lemma {:induction false} UpdateGet<K, V>(d: Dict<K, V>, e: Dict<K, V>, k: K)
    requires DistinctKeys(e)
    requires HasKey(d, k) || HasKey(e, k)
    ensures HasKey(Update(d, e), k)
    ensures Get(Update(d, e), k) == if HasKey(e, k) then Get(e, k) else Get(d, k)
    decreases |e|
  {
    UpdateKeys(d, e);
    if e != [] {
      var d' := Put(d, e[0].0, e[0].1);
      assert Keys(e) == [e[0].0] + Keys(e[1..]);
      assert DistinctKeys(e[1..]);
      if k == e[0].0 {
        assert !HasKey(e[1..], k) by {
          forall i | 0 <= i < |e[1..]| ensures Keys(e[1..])[i] != k {
            assert e[1..][i] == e[i + 1];
          }
        }
        UpdateGet(d', e[1..], k);
      } else {
        PutOtherKey(d, e[0].0, e[0].1, k);
        UpdateGet(d', e[1..], k);
      }
    }
  }

  /** A key absent from `d` is absent from its head and its tail. */
  lemma PutNewStep<K, V>(d: Dict<K, V>, k: K, v: V)
    requires !HasKey(d, k) && d != []
    ensures d[0].0 != k && !HasKey(d[1..], k)
    ensures d + [(k, v)] == [d[0]] + (d[1..] + [(k, v)])
  {
    assert Keys(d)[0] == d[0].0;
    forall i | 0 <= i < |d| - 1 ensures Keys(d[1..])[i] != k {
      assert Keys(d[1..])[i] == Keys(d)[i + 1];
    }
    assert d + [(k, v)] == [d[0]] + (d[1..] + [(k, v)]);
  }

  /** Assigning a key that is not yet present appends the pair at the end. */
  lemma {:induction false} PutNew<K, V>(d: Dict<K, V>, k: K, v: V)
    requires !HasKey(d, k)
    ensures Put(d, k, v) == d + [(k, v)]
  {
    if d != [] {
      PutNewStep(d, k, v);
      PutNew(d[1..], k, v);
    }
  }

  /** The first pair of `e` is new to `d`, and moving it over to `d` keeps all keys distinct. */
  lemma UpdateNewStep<K, V>(d: Dict<K, V>, e: Dict<K, V>)
    requires DistinctKeys(d + e) && e != []
    ensures !HasKey(d, e[0].0)
    ensures d + e == (d + [e[0]]) + e[1..]
  {
    forall i | 0 <= i < |d| ensures Keys(d)[i] != e[0].0 {
      assert (d + e)[i].0 != (d + e)[|d|].0;
    }
    assert d + e == (d + [e[0]]) + e[1..];
  }

  /** Updating with pairs whose keys are new and distinct appends them in order. */
  lemma {:induction false} UpdateNew<K, V>(d: Dict<K, V>, e: Dict<K, V>)
    requires DistinctKeys(d + e)
    ensures Update(d, e) == d + e
    decreases |e|
  {
    if e != [] {
      UpdateNewStep(d, e);
      PutNew(d, e[0].0, e[0].1);
      UpdateNew(d + [e[0]], e[1..]);
    }
  }
}
