/**
 * Python dictionaries as the service uses them: key/value pairs kept in
 * insertion order, where assigning to an existing key keeps its position
 * and assigning to a new key appends it at the end.
 */
module Dicts {

  type Dict<K, V> = seq<(K, V)>

  predicate NoDuplicates<T(==)>(s: seq<T>) {
    forall i, j :: 0 <= i < j < |s| ==> s[i] != s[j]
  }

  /** The keys of `d`, in insertion order. */
  function Keys<K, V>(d: Dict<K, V>): (ks: seq<K>)
    ensures |ks| == |d|
  {
    if d == [] then [] else [d[0].0] + Keys(d[1..])
  }

  lemma {:induction false} KeysAt<K, V>(d: Dict<K, V>, i: nat)
    requires i < |d|
    ensures Keys(d)[i] == d[i].0
  {
    if i > 0 {
      KeysAt(d[1..], i - 1);
    }
  }

  /** A well-formed dict holds every key once. */
  predicate Wf<K(==), V>(d: Dict<K, V>) {
    NoDuplicates(Keys(d))
  }

  predicate HasKey<K(==), V>(d: Dict<K, V>, k: K) {
    k in Keys(d)
  }

  /** `d.get(k, default)`. */
  function Get<K(==), V>(d: Dict<K, V>, k: K, default: V): V {
    if d == [] then default
    else if d[0].0 == k then d[0].1
    else Get(d[1..], k, default)
  }

  /** A lookup gives the stored value of a present key and the default otherwise. */
  lemma {:induction false} GetFound<K, V>(d: Dict<K, V>, k: K, default: V)
    ensures k !in Keys(d) ==> Get(d, k, default) == default
    ensures k in Keys(d) ==> (k, Get(d, k, default)) in d
  {
    if d != [] && d[0].0 != k {
      GetFound(d[1..], k, default);
    }
  }

  /** `d[k] = v`. */
  function Put<K(==), V>(d: Dict<K, V>, k: K, v: V): Dict<K, V> {
    if d == [] then [(k, v)]
    else if d[0].0 == k then [(k, v)] + d[1..]
    else [d[0]] + Put(d[1..], k, v)
  }

  /** Assigning to a key keeps the position of an existing key and appends a new one. */
  lemma {:induction false} PutKeyOrder<K(!new), V(!new)>(d: Dict<K, V>, k: K, v: V)
    ensures Keys(Put(d, k, v)) == if k in Keys(d) then Keys(d) else Keys(d) + [k]
  {
    if d != [] && d[0].0 != k {
      PutKeyOrder(d[1..], k, v);
      assert Keys(Put(d, k, v)) == [d[0].0] + Keys(Put(d[1..], k, v));
    }
  }

  /** Assigning to a key leaves every other entry as it was. */
  lemma {:induction false} PutEntries<K(!new), V(!new)>(d: Dict<K, V>, k: K, v: V)
    ensures forall p :: p in Put(d, k, v) ==> p == (k, v) || p in d
  {
    if d != [] && d[0].0 != k {
      PutEntries(d[1..], k, v);
      assert Put(d, k, v) == [d[0]] + Put(d[1..], k, v);
    }
  }

  /** The keys after `d[k] = v`, its entries, and well-formedness kept. */
  lemma PutKeys<K(!new), V(!new)>(d: Dict<K, V>, k: K, v: V)
    ensures Keys(Put(d, k, v)) == if k in Keys(d) then Keys(d) else Keys(d) + [k]
    ensures forall p :: p in Put(d, k, v) ==> p == (k, v) || p in d
    ensures Wf(d) ==> Wf(Put(d, k, v))
  {
    PutKeyOrder(d, k, v);
    PutEntries(d, k, v);
  }

  /** Reading back after `d[k] = v`. */
  lemma {:induction false} GetPut<K(!new), V(!new)>(d: Dict<K, V>, k: K, v: V, k': K, dflt: V)
    ensures Get(Put(d, k, v), k', dflt) == if k' == k then v else Get(d, k', dflt)
  {
    if d != [] && d[0].0 != k {
      GetPut(d[1..], k, v, k', dflt);
      assert Put(d, k, v)[1..] == Put(d[1..], k, v);
    }
  }

  /** `d.update(other)`: every pair of `other`, in order, assigned into `d`. */
  function Update<K(==), V>(d: Dict<K, V>, other: Dict<K, V>): Dict<K, V>
    decreases |other|
  {
    if other == [] then d
    else Update(Put(d, other[0].0, other[0].1), other[1..])
  }

  /** Sum of the integer values of `d`. */
  function SumValues<K>(d: Dict<K, int>): int {
    if d == [] then 0 else d[0].1 + SumValues(d[1..])
  }

  /** Replacing (or adding) one entry changes the sum by the difference of the values. */
  lemma {:induction false} SumValuesPut<K(!new)>(d: Dict<K, int>, k: K, v: int)
    ensures SumValues(Put(d, k, v)) == SumValues(d) - Get(d, k, 0) + v
  {
    if d == [] {
    } else if d[0].0 == k {
      assert Put(d, k, v)[1..] == d[1..];
    } else {
      SumValuesPut(d[1..], k, v);
      assert Put(d, k, v)[1..] == Put(d[1..], k, v);
    }
  }

  /** The elements of `s` in order of first occurrence. */
  function Distinct<T(==)>(s: seq<T>): seq<T> {
    if s == [] then []
    else
      var p := Distinct(s[..|s| - 1]);
      if s[|s| - 1] in p then p else p + [s[|s| - 1]]
  }

  /** `Distinct` keeps every element once and nothing else. */
  lemma {:induction false} DistinctFacts<T>(s: seq<T>)
    ensures NoDuplicates(Distinct(s))
    ensures forall x :: x in Distinct(s) <==> x in s
  {
    if s != [] {
      var x := s[|s| - 1];
      DistinctFacts(s[..|s| - 1]);
      assert s == s[..|s| - 1] + [x];
    }
  }

  /** Assigning the keys of `ks` in order, then `k`, gives the first occurrences of `ks + [k]`. */
  lemma PutDistinct<K(!new), V(!new)>(d: Dict<K, V>, k: K, v: V, ks: seq<K>)
    requires Keys(d) == Distinct(ks)
    ensures Keys(Put(d, k, v)) == Distinct(ks + [k])
  {
    PutKeys(d, k, v);
    assert (ks + [k])[..|ks + [k]| - 1] == ks;
  }

  lemma {:induction false} KeysAppend<K, V>(a: Dict<K, V>, b: Dict<K, V>)
    ensures Keys(a + b) == Keys(a) + Keys(b)
  {
    if a != [] {
      KeysAppend(a[1..], b);
      assert (a + b)[1..] == a[1..] + b;
    } else {
      assert a + b == b;
    }
  }

  /** Assigning to a key not yet present appends the pair. */
  lemma {:induction false} PutFresh<K(!new), V(!new)>(d: Dict<K, V>, k: K, v: V)
    requires k !in Keys(d)
    ensures Put(d, k, v) == d + [(k, v)]
  {
    if d != [] {
      PutFresh(d[1..], k, v);
    }
  }

  /** Updating with pairs whose keys are new and distinct appends them in order. */
  lemma {:induction false} UpdateFresh<K(!new), V(!new)>(d: Dict<K, V>, other: Dict<K, V>)
    requires Wf(other)
    requires forall i :: 0 <= i < |other| ==> other[i].0 !in Keys(d)
    ensures Update(d, other) == d + other
    decreases |other|
  {
    if other != [] {
      var o := other[0];
      var rest := other[1..];
      KeysAt(other, 0);
      PutFresh(d, o.0, o.1);
      KeysAppend(d, [o]);
      forall i | 0 <= i < |rest| ensures rest[i].0 !in Keys(d + [o]) {
        KeysAt(other, i + 1);
      }
      assert Wf(rest) by {
        forall i, j | 0 <= i < j < |rest| ensures Keys(rest)[i] != Keys(rest)[j] {
          KeysAt(rest, i);
          KeysAt(rest, j);
          KeysAt(other, i + 1);
          KeysAt(other, j + 1);
        }
      }
      UpdateFresh(d + [o], rest);
      assert (d + [o]) + rest == d + other;
    }
  }

  /** The rest of a well-formed dict is well formed and does not repeat its first key. */
  lemma WfTail<K, V>(d: Dict<K, V>)
    requires Wf(d) && d != []
    ensures Wf(d[1..]) && d[0].0 !in Keys(d[1..])
  {
    forall i, j | 0 <= i < j < |d[1..]| ensures Keys(d[1..])[i] != Keys(d[1..])[j] {
      assert Keys(d)[i + 1] == Keys(d[1..])[i];
      assert Keys(d)[j + 1] == Keys(d[1..])[j];
    }
    forall j | 0 <= j < |d[1..]| ensures Keys(d[1..])[j] != d[0].0 {
      assert Keys(d)[j + 1] == Keys(d[1..])[j];
      KeysAt(d, 0);
    }
  }

  /** In a well-formed dict the lookup of a stored pair's key gives its value. */
  lemma {:induction false} GetUnique<K(!new), V(!new)>(d: Dict<K, V>, p: (K, V), dflt: V)
    requires Wf(d)
    requires p in d
    ensures Get(d, p.0, dflt) == p.1
  {
    if d[0] != p {
      if d[0].0 == p.0 {
        var k :| 0 <= k < |d| && d[k] == p;
        KeysAt(d, 0);
        KeysAt(d, k);
      } else {
        assert Wf(d[1..]) by {
          forall i, j | 0 <= i < j < |d[1..]| ensures Keys(d[1..])[i] != Keys(d[1..])[j] {
            assert Keys(d)[i + 1] == Keys(d[1..])[i];
            assert Keys(d)[j + 1] == Keys(d[1..])[j];
          }
        }
        GetUnique(d[1..], p, dflt);
      }
    }
  }
}
