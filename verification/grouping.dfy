/**
 * The accumulation loops of the aggregation engine, as left folds over a
 * sequence: `Tally` is `d[key(x)] = d.get(key(x), 0) + w(x)` for each x in
 * order, and `Grid` is the nested form `d[row(x)][col(x)] += 1` that builds
 * trendlines and heatmaps.  Each fold is related to a reference definition
 * that filters the sequence (`Select`) and sums it (`SumW`).
 */
module Grouping {
  import opened Dicts

  /** The weight of an event when counting. */
  function One<T>(x: T): int { 1 }

  /** `[f(x) for x in xs]`. */
  function MapSeq<T, K>(xs: seq<T>, f: T -> K): (r: seq<K>)
    ensures |r| == |xs|
    ensures forall i :: 0 <= i < |xs| ==> r[i] == f(xs[i])
  {
    if xs == [] then [] else MapSeq(xs[..|xs| - 1], f) + [f(xs[|xs| - 1])]
  }

  /** `[x for x in xs if key(x) == k]`. */
  function Select<T, K(==)>(xs: seq<T>, key: T -> K, k: K): (r: seq<T>)
    ensures |r| <= |xs|
  {
    if xs == [] then []
    else
      var p := Select(xs[..|xs| - 1], key, k);
      if key(xs[|xs| - 1]) == k then p + [xs[|xs| - 1]] else p
  }

  /** Selecting by a key every element carries keeps them all. */
  lemma {:induction false} SelectAll<T, K>(xs: seq<T>, key: T -> K, k: K)
    requires forall x :: x in xs ==> key(x) == k
    ensures Select(xs, key, k) == xs
  {
    if xs != [] {
      var init := xs[..|xs| - 1];
      assert forall x :: x in init ==> x in xs;
      SelectAll(init, key, k);
      assert xs[|xs| - 1] in xs;
      assert init + [xs[|xs| - 1]] == xs;
    }
  }

  /** `sum(w(x) for x in xs)`. */
  function SumW<T>(xs: seq<T>, w: T -> int): int {
    if xs == [] then 0 else SumW(xs[..|xs| - 1], w) + w(xs[|xs| - 1])
  }

  /** The per-key totals dict built by `d[key(x)] = d.get(key(x), 0) + w(x)` over xs. */
  function Tally<T, K(==)>(xs: seq<T>, key: T -> K, w: T -> int): Dict<K, int> {
    if xs == [] then []
    else
      var d := Tally(xs[..|xs| - 1], key, w);
      var k := key(xs[|xs| - 1]);
      Put(d, k, Get(d, k, 0) + w(xs[|xs| - 1]))
  }

  /** Counting with weight one sums to the length. */
  lemma {:induction false} SumOne<T>(xs: seq<T>)
    ensures SumW(xs, One) == |xs|
  {
    if xs != [] {
      SumOne(xs[..|xs| - 1]);
    }
  }

  /** An element is selected exactly when it occurs and has the key. */
  lemma {:induction false} SelectMembers<T(!new), K>(xs: seq<T>, key: T -> K, k: K)
    ensures forall x :: x in Select(xs, key, k) <==> x in xs && key(x) == k
  {
    if xs != [] {
      var p := xs[..|xs| - 1];
      SelectMembers(p, key, k);
      assert xs == p + [xs[|xs| - 1]];
    }
  }

  /** Selecting from a concatenation selects from each part. */
  lemma {:induction false} SelectAppend<T, K>(xs: seq<T>, ys: seq<T>, key: T -> K, k: K)
    ensures Select(xs + ys, key, k) == Select(xs, key, k) + Select(ys, key, k)
    decreases |ys|
  {
    if ys == [] {
      assert xs + ys == xs;
    } else {
      var p, z := ys[..|ys| - 1], ys[|ys| - 1];
      SelectAppend(xs, p, key, k);
      assert (xs + ys)[..|xs + ys| - 1] == xs + p;
      assert (xs + ys)[|xs + ys| - 1] == z;
      if key(z) == k {
        calc {
          Select(xs + ys, key, k);
          Select(xs + p, key, k) + [z];
          Select(xs, key, k) + Select(p, key, k) + [z];
          Select(xs, key, k) + (Select(p, key, k) + [z]);
        }
      }
    }
  }

  /** Selecting from two elements. */
  lemma SelectTwo<T, K>(x: T, y: T, key: T -> K, k: K, w: T -> int)
    ensures |Select([x, y], key, k)| == (if key(x) == k then 1 else 0) + (if key(y) == k then 1 else 0)
    ensures SumW(Select([x, y], key, k), w) == (if key(x) == k then w(x) else 0) + (if key(y) == k then w(y) else 0)
  {
    assert [x, y][..1] == [x];
    assert [x][..0] == [];
    var s1 := Select([x], key, k);
    assert SumW(s1, w) == if key(x) == k then w(x) else 0 by {
      if key(x) == k {
        assert s1 == [x];
        assert s1[..0] == [];
      }
    }
    if key(y) == k {
      assert Select([x, y], key, k) == s1 + [y];
      assert (s1 + [y])[..|s1 + [y]| - 1] == s1;
    }
  }

  /** Summing over a concatenation sums each part. */
  lemma {:induction false} SumWAppend<T>(xs: seq<T>, ys: seq<T>, w: T -> int)
    ensures SumW(xs + ys, w) == SumW(xs, w) + SumW(ys, w)
    decreases |ys|
  {
    if ys == [] {
      assert xs + ys == xs;
    } else {
      var p := ys[..|ys| - 1];
      SumWAppend(xs, p, w);
      assert (xs + ys)[..|xs + ys| - 1] == xs + p;
    }
  }

  /** Keys of a tally appear in the order in which they are first met. */
  lemma {:induction false} TallyKeys<T, K(!new)>(xs: seq<T>, key: T -> K, w: T -> int)
    ensures Keys(Tally(xs, key, w)) == Distinct(MapSeq(xs, key))
    ensures Wf(Tally(xs, key, w))
  {
    DistinctFacts(MapSeq(xs, key));
    TallyKeyOrder(xs, key, w);
  }

  lemma {:induction false} TallyKeyOrder<T, K(!new)>(xs: seq<T>, key: T -> K, w: T -> int)
    ensures Keys(Tally(xs, key, w)) == Distinct(MapSeq(xs, key))
  {
    if xs != [] {
      var p := xs[..|xs| - 1];
      var d := Tally(p, key, w);
      var k := key(xs[|xs| - 1]);
      TallyKeyOrder(p, key, w);
      assert MapSeq(xs, key) == MapSeq(p, key) + [k];
      PutDistinct(d, k, Get(d, k, 0) + w(xs[|xs| - 1]), MapSeq(p, key));
    }
  }

  /** Each tally entry is the total weight of the elements with that key. */
  lemma {:induction false} TallyGet<T, K(!new)>(xs: seq<T>, key: T -> K, w: T -> int, k: K)
    ensures Get(Tally(xs, key, w), k, 0) == SumW(Select(xs, key, k), w)
  {
    if xs != [] {
      var p := xs[..|xs| - 1];
      var x := xs[|xs| - 1];
      var d := Tally(p, key, w);
      TallyGet(p, key, w, k);
      GetPut(d, key(x), Get(d, key(x), 0) + w(x), k, 0);
      if key(x) == k {
        var s := Select(p, key, k);
        assert (s + [x])[..|s + [x]| - 1] == s;
      }
    }
  }

  /** The values of a tally add up to the total weight. */
  lemma {:induction false} TallySum<T, K(!new)>(xs: seq<T>, key: T -> K, w: T -> int)
    ensures SumValues(Tally(xs, key, w)) == SumW(xs, w)
  {
    if xs != [] {
      var p := xs[..|xs| - 1];
      var d := Tally(p, key, w);
      var k := key(xs[|xs| - 1]);
      TallySum(p, key, w);
      SumValuesPut(d, k, Get(d, k, 0) + w(xs[|xs| - 1]));
    }
  }

  /** Every count in a counting tally is at least one. */
  lemma {:induction false} TallyCountsPositive<T, K(!new)>(xs: seq<T>, key: T -> K)
    ensures forall p :: p in Tally(xs, key, One) ==> p.1 >= 1
  {
    if xs != [] {
      var p := xs[..|xs| - 1];
      var d := Tally(p, key, One);
      var k := key(xs[|xs| - 1]);
      TallyCountsPositive(p, key);
      PutKeys(d, k, Get(d, k, 0) + 1);
      GetFound(d, k, 0);
    }
  }

  /** The nested dict built by `d[row(x)][col(x)] = d[row(x)].get(col(x), 0) + 1` over xs. */
  function Grid<T, R(==)>(xs: seq<T>, row: T -> R, col: T -> int): Dict<R, Dict<int, int>> {
    if xs == [] then []
    else
      var d := Grid(xs[..|xs| - 1], row, col);
      var x := xs[|xs| - 1];
      var inner := Get(d, row(x), []);
      Put(d, row(x), Put(inner, col(x), Get(inner, col(x), 0) + 1))
  }

  /** Total of all cells of a nested dict. */
  function SumRows<R>(d: Dict<R, Dict<int, int>>): int {
    if d == [] then 0 else SumValues(d[0].1) + SumRows(d[1..])
  }

  lemma {:induction false} SumRowsPut<R(!new)>(d: Dict<R, Dict<int, int>>, r: R, v: Dict<int, int>)
    ensures SumRows(Put(d, r, v)) == SumRows(d) - SumValues(Get(d, r, [])) + SumValues(v)
  {
    if d == [] {
    } else if d[0].0 == r {
      assert Put(d, r, v)[1..] == d[1..];
    } else {
      SumRowsPut(d[1..], r, v);
      assert Put(d, r, v)[1..] == Put(d[1..], r, v);
    }
  }

  /** Rows of a grid appear in the order in which they are first met. */
  lemma {:induction false} GridKeys<T, R(!new)>(xs: seq<T>, row: T -> R, col: T -> int)
    ensures Keys(Grid(xs, row, col)) == Distinct(MapSeq(xs, row))
    ensures Wf(Grid(xs, row, col))
  {
    DistinctFacts(MapSeq(xs, row));
    GridKeyOrder(xs, row, col);
  }

  lemma {:induction false} GridKeyOrder<T, R(!new)>(xs: seq<T>, row: T -> R, col: T -> int)
    ensures Keys(Grid(xs, row, col)) == Distinct(MapSeq(xs, row))
  {
    if xs != [] {
      var p := xs[..|xs| - 1];
      var d := Grid(p, row, col);
      var x := xs[|xs| - 1];
      var inner := Get(d, row(x), []);
      GridKeyOrder(p, row, col);
      assert MapSeq(xs, row) == MapSeq(p, row) + [row(x)];
      PutDistinct(d, row(x), Put(inner, col(x), Get(inner, col(x), 0) + 1), MapSeq(p, row));
    }
  }

  /** The row of a grid for `r` is the per-column count of the elements in row `r`. */
  lemma {:induction false} GridRow<T, R(!new)>(xs: seq<T>, row: T -> R, col: T -> int, r: R)
    ensures Get(Grid(xs, row, col), r, []) == Tally(Select(xs, row, r), col, One)
  {
    if xs != [] {
      var p := xs[..|xs| - 1];
      var x := xs[|xs| - 1];
      var d := Grid(p, row, col);
      var inner := Get(d, row(x), []);
      GridRow(p, row, col, r);
      GetPut(d, row(x), Put(inner, col(x), Get(inner, col(x), 0) + 1), r, []);
      if row(x) == r {
        var s := Select(p, row, r);
        assert (s + [x])[..|s + [x]| - 1] == s;
      }
    }
  }

  /** Every element lands in exactly one cell. */
  lemma {:induction false} GridTotal<T, R(!new)>(xs: seq<T>, row: T -> R, col: T -> int)
    ensures SumRows(Grid(xs, row, col)) == |xs|
  {
    if xs != [] {
      var p := xs[..|xs| - 1];
      var x := xs[|xs| - 1];
      var d := Grid(p, row, col);
      var inner := Get(d, row(x), []);
      GridTotal(p, row, col);
      SumValuesPut(inner, col(x), Get(inner, col(x), 0) + 1);
      SumRowsPut(d, row(x), Put(inner, col(x), Get(inner, col(x), 0) + 1));
    }
  }

  /** A key is present in a tally exactly when some element has it. */
  lemma TallyHasKey<T(!new), K(!new)>(xs: seq<T>, key: T -> K, w: T -> int, k: K)
    ensures k in Keys(Tally(xs, key, w)) <==> Select(xs, key, k) != []
  {
    TallyKeys(xs, key, w);
    DistinctFacts(MapSeq(xs, key));
    SelectMembers(xs, key, k);
    if k in MapSeq(xs, key) {
      var i :| 0 <= i < |xs| && MapSeq(xs, key)[i] == k;
      assert xs[i] in Select(xs, key, k);
    }
    if Select(xs, key, k) != [] {
      var x := Select(xs, key, k)[0];
      assert x in Select(xs, key, k);
      var i :| 0 <= i < |xs| && xs[i] == x;
      assert MapSeq(xs, key)[i] == k;
    }
  }

  /**
   * The pairs of a counting tally are exactly the keys that occur, each with
   * the number of elements that have it.
   */
  lemma CountTallyMembers<T(!new), K(!new)>(xs: seq<T>, key: T -> K)
    ensures forall p :: p in Tally(xs, key, One) <==> p.1 >= 1 && p.1 == |Select(xs, key, p.0)|
  {
    var d := Tally(xs, key, One);
    TallyKeys(xs, key, One);
    TallyCountsPositive(xs, key);
    forall p | p in d ensures p.1 >= 1 && p.1 == |Select(xs, key, p.0)| {
      GetUnique(d, p, 0);
      TallyGet(xs, key, One, p.0);
      SumOne(Select(xs, key, p.0));
    }
    forall p: (K, int) | p.1 >= 1 && p.1 == |Select(xs, key, p.0)| ensures p in d {
      TallyHasKey(xs, key, One, p.0);
      GetFound(d, p.0, 0);
      TallyGet(xs, key, One, p.0);
      SumOne(Select(xs, key, p.0));
    }
  }
}
