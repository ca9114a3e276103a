/**
 * An insertion-ordered map, as JavaScript's `Map` (and so `@discordjs/collection`'s
 * `Collection`, which extends it) keeps one: its entries in insertion order, one per key.
 * `set` on a present key replaces the value where the key already stands; on a new key it
 * appends.
 */
module OrderedMaps {
  import opened Wrappers

  function Keys<K, V>(es: seq<(K, V)>): (ks: seq<K>)
    ensures |ks| == |es|
    ensures forall i :: 0 <= i < |es| ==> ks[i] == es[i].0
  {
    if |es| == 0 then [] else [es[0].0] + Keys(es[1..])
  }

  /** `map.values()`, in insertion order. */
  function Values<K, V>(es: seq<(K, V)>): (vs: seq<V>)
    ensures |vs| == |es|
    ensures forall i :: 0 <= i < |es| ==> vs[i] == es[i].1
  {
    if |es| == 0 then [] else [es[0].1] + Values(es[1..])
  }

  /** No key occurs twice: what every `Map` satisfies. */
  predicate DistinctKeys<K(==), V>(es: seq<(K, V)>) {
    forall i, j :: 0 <= i < j < |es| ==> es[i].0 != es[j].0
  }

  /** `map.has(k)`. */
  predicate Has<K(==), V>(es: seq<(K, V)>, k: K) {
    k in Keys(es)
  }

  /** `map.get(k)`: the value stored under `k`, if any. */
  function Get<K(==), V>(es: seq<(K, V)>, k: K): (r: Option<V>)
    ensures r.Some? <==> Has(es, k)
    ensures r.Some? ==> exists i :: 0 <= i < |es| && es[i] == (k, r.value)
  {
    if |es| == 0 then None
    else if es[0].0 == k then Some(es[0].1)
    else Get(es[1..], k)
  }

  /** `map.set(k, v)`. */
  function Set<K(==), V>(es: seq<(K, V)>, k: K, v: V): (r: seq<(K, V)>)
    ensures (k, v) in r
    ensures |es| <= |r| <= |es| + 1
  {
    if |es| == 0 then [(k, v)]
    else if es[0].0 == k then [(k, v)] + es[1..]
    else [es[0]] + Set(es[1..], k, v)
  }

  /** After `set(k, v)`, `get(k)` is `v` and every other key reads as before. */
  lemma {:induction false} SetGet<K, V>(es: seq<(K, V)>, k: K, v: V, k': K)
    ensures Get(Set(es, k, v), k') == if k' == k then Some(v) else Get(es, k')
  {
    if |es| > 0 && es[0].0 != k {
      var r := Set(es, k, v);
      assert r[0] == es[0] && r[1..] == Set(es[1..], k, v);
      SetGet(es[1..], k, v, k');
    }
  }

  /** `set` on a present key keeps every key where it was: the size and the order are unchanged. */
  lemma {:induction false} SetPresentKeepsKeys<K, V>(es: seq<(K, V)>, k: K, v: V)
    requires Has(es, k)
    ensures Keys(Set(es, k, v)) == Keys(es)
  {
    if es[0].0 != k {
      assert Keys(es) == [es[0].0] + Keys(es[1..]);
      SetPresentKeepsKeys(es[1..], k, v);
      var r := Set(es, k, v);
      assert r[0] == es[0] && r[1..] == Set(es[1..], k, v);
      assert Keys(r) == [r[0].0] + Keys(r[1..]);
    }
  }

  /** `set` on a new key appends it after all the others. */
  lemma {:induction false} SetAbsentAppends<K, V>(es: seq<(K, V)>, k: K, v: V)
    requires !Has(es, k)
    ensures Set(es, k, v) == es + [(k, v)]
  {
    if |es| > 0 {
      assert Keys(es) == [es[0].0] + Keys(es[1..]);
      SetAbsentAppends(es[1..], k, v);
      assert es == [es[0]] + es[1..];
    }
  }

  /** `set` replaces the value in place: only the entry of `k` changes. */
  lemma {:induction false} SetReplacesInPlace<K, V>(es: seq<(K, V)>, k: K, v: V, i: nat)
    requires DistinctKeys(es) && i < |es| && es[i].0 == k
    ensures Set(es, k, v) == es[i := (k, v)]
  {
    if i > 0 {
      assert es[0].0 != k;
      SetReplacesInPlace(es[1..], k, v, i - 1);
      assert es[i := (k, v)] == [es[0]] + es[1..][i - 1 := (k, v)];
    } else {
      assert es[0 := (k, v)] == [(k, v)] + es[1..];
    }
  }

  /** `set` keeps the keys distinct. */
  lemma SetKeepsDistinct<K, V>(es: seq<(K, V)>, k: K, v: V)
    requires DistinctKeys(es)
    ensures DistinctKeys(Set(es, k, v))
  {
    if Has(es, k) {
      var i :| 0 <= i < |es| && Keys(es)[i] == k;
      SetReplacesInPlace(es, k, v, i);
    } else {
      SetAbsentAppends(es, k, v);
    }
  }

  /** A value held by one entry only splits the values around it. */
  lemma ValueOnlyAt<K, V>(es: seq<(K, V)>, i: nat) returns (before: seq<V>, after: seq<V>)
    requires i < |es| && forall j :: 0 <= j < |es| && j != i ==> es[j].1 != es[i].1
    ensures Values(es) == before + [es[i].1] + after
    ensures es[i].1 !in before && es[i].1 !in after
  {
    var vs := Values(es);
    before, after := vs[..i], vs[i + 1..];
    assert vs == before + [vs[i]] + after;
    forall k | 0 <= k < |before| ensures before[k] != es[i].1 {
      assert before[k] == es[k].1;
    }
    forall k | 0 <= k < |after| ensures after[k] != es[i].1 {
      assert after[k] == es[i + 1 + k].1;
    }
  }

  /** `get(k)` finds the first entry holding `k`. */
  lemma {:induction false} GetFirst<K, V>(es: seq<(K, V)>, k: K, i: nat)
    requires i < |es| && es[i].0 == k && forall j :: 0 <= j < i ==> es[j].0 != k
    ensures Get(es, k) == Some(es[i].1)
  {
    if i > 0 {
      GetFirst(es[1..], k, i - 1);
    }
  }
}
