/**
 * A Python dictionary keeps its keys in insertion order, and iterating over
 * it visits them in that order. This module models such a dictionary as a
 * sequence of key/value pairs; `AsMap` is its meaning as a plain map.
 */
module Dict {

  predicate HasKey<K(==, !new), V>(es: seq<(K, V)>, k: K)
  {
    es != [] && (es[0].0 == k || HasKey(es[1..], k))
  }

  /** No key occurs twice: what a real dictionary guarantees. */
  predicate KeysDistinct<K(==, !new), V>(es: seq<(K, V)>)
  {
    es == [] || (!HasKey(es[1..], es[0].0) && KeysDistinct(es[1..]))
  }

  /** `d[k]`. */
  function Get<K(==, !new), V>(es: seq<(K, V)>, k: K): V
    requires HasKey(es, k)
  {
    if es[0].0 == k then es[0].1 else Get(es[1..], k)
  }

  function AsMap<K(==, !new), V>(es: seq<(K, V)>): (m: map<K, V>)
    ensures forall k :: k in m <==> HasKey(es, k)
    ensures forall k :: k in m ==> m[k] == Get(es, k)
  {
    if es == [] then map[] else AsMap(es[1..])[es[0].0 := es[0].1]
  }

  /** `d[k] = v`: an existing key keeps its position, a new key goes last. */
  function Put<K(==, !new), V>(es: seq<(K, V)>, k: K, v: V): (r: seq<(K, V)>)
    ensures HasKey(r, k)
    ensures |r| == if HasKey(es, k) then |es| else |es| + 1
  {
    if es == [] then [(k, v)]
    else if es[0].0 == k then [(k, v)] + es[1..]
    else [es[0]] + Put(es[1..], k, v)
  }

  /** `del d[k]` where `k` is present; nothing happens where it is absent. */
  function Delete<K(==, !new), V>(es: seq<(K, V)>, k: K): (r: seq<(K, V)>)
    ensures !HasKey(r, k)
    ensures |r| <= |es| && (|r| < |es| <==> HasKey(es, k))
  {
    if es == [] then []
    else if es[0].0 == k then Delete(es[1..], k)
    else [es[0]] + Delete(es[1..], k)
  }

  /** What `Put` does to the dictionary: its map view is updated at `k`, an
      absent key is appended, and keys stay distinct. */
  lemma {:induction false} PutMeaning<K(!new), V>(es: seq<(K, V)>, k: K, v: V)
    ensures AsMap(Put(es, k, v)) == AsMap(es)[k := v]
    ensures forall x :: HasKey(Put(es, k, v), x) <==> HasKey(es, x) || x == k
    ensures !HasKey(es, k) ==> Put(es, k, v) == es + [(k, v)]
    ensures KeysDistinct(es) ==> KeysDistinct(Put(es, k, v))
  {
    if es != [] {
      var r := Put(es, k, v);
      if es[0].0 == k {
        assert r[1..] == es[1..];
      } else {
        var tail := Put(es[1..], k, v);
        PutMeaning(es[1..], k, v);
        assert r[1..] == tail;
        if !HasKey(es, k) {
          assert es == [es[0]] + es[1..];
        }
      }
    }
  }

  /** What `Delete` does to the dictionary: exactly `k` leaves its map view,
      an absent key changes nothing, and keys stay distinct. */
  lemma {:induction false} DeleteMeaning<K(!new), V>(es: seq<(K, V)>, k: K)
    ensures AsMap(Delete(es, k)) == AsMap(es) - {k}
    ensures forall x :: HasKey(Delete(es, k), x) <==> HasKey(es, x) && x != k
    ensures !HasKey(es, k) ==> Delete(es, k) == es
    ensures KeysDistinct(es) ==> KeysDistinct(Delete(es, k))
  {
    if es != [] {
      DeleteMeaning(es[1..], k);
      if es[0].0 != k {
        var r := Delete(es, k);
        assert r[1..] == Delete(es[1..], k);
        assert es == [es[0]] + es[1..];
      }
    }
  }

  lemma DeleteAbsent<K(!new), V>(es: seq<(K, V)>, k: K)
    requires !HasKey(es, k)
    ensures Delete(es, k) == es
  {
    DeleteMeaning(es, k);
  }

  /** The entries whose keys are not listed in `ks`, in their order. */
  function Without<K(==, !new), V>(es: seq<(K, V)>, ks: seq<K>): (r: seq<(K, V)>)
    ensures forall x :: HasKey(r, x) <==> HasKey(es, x) && x !in ks
  {
    if es == [] then []
    else
      var tail := Without(es[1..], ks);
      assert ([es[0]] + tail)[1..] == tail;
      if es[0].0 in ks then tail else [es[0]] + tail
  }

  lemma {:induction false} HasKeyAppend<K(!new), V>(a: seq<(K, V)>, b: seq<(K, V)>, k: K)
    ensures HasKey(a + b, k) <==> HasKey(a, k) || HasKey(b, k)
  {
    if a == [] {
      assert a + b == b;
    } else {
      assert (a + b)[1..] == a[1..] + b;
      HasKeyAppend(a[1..], b, k);
    }
  }

  /** Deleting can be done piecewise. */
  lemma {:induction false} DeleteAppend<K(!new), V>(a: seq<(K, V)>, b: seq<(K, V)>, k: K)
    ensures Delete(a + b, k) == Delete(a, k) + Delete(b, k)
  {
    if a == [] {
      assert a + b == b;
    } else {
      assert (a + b)[1..] == a[1..] + b;
      DeleteAppend(a[1..], b, k);
    }
  }

  lemma {:induction false} WithoutNone<K(!new), V>(es: seq<(K, V)>)
    ensures Without(es, []) == es
  {
    if es != [] {
      WithoutNone(es[1..]);
    }
  }

  /** Deleting the listed keys one after the other, as `for k in ks: del d[k]` does. */
  lemma {:induction false} WithoutSnoc<K(!new), V>(es: seq<(K, V)>, ks: seq<K>, k: K)
    ensures Without(es, ks + [k]) == Delete(Without(es, ks), k)
  {
    if es != [] {
      WithoutSnoc(es[1..], ks, k);
    }
  }

  /** Listing keys the dictionary does not have removes nothing more. */
  lemma {:induction false} WithoutAbsentKeys<K(!new), V>(es: seq<(K, V)>, extra: seq<K>, ks: seq<K>)
    requires forall x :: x in extra ==> !HasKey(es, x)
    ensures Without(es, extra + ks) == Without(es, ks)
  {
    if es != [] {
      WithoutAbsentKeys(es[1..], extra, ks);
    }
  }

  /** With distinct keys, `len(d)` is the number of keys. */
  lemma {:induction false} SizeOfMap<K(!new), V>(es: seq<(K, V)>)
    requires KeysDistinct(es)
    ensures |AsMap(es)| == |es|
  {
    if es != [] {
      SizeOfMap(es[1..]);
    }
  }
}
