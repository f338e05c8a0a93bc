/**
 * Trendline output: each behaviour's per-minute counts, turned from a dict
 * into a list of (minute bucket, count) points sorted by bucket, as
 * `sorted(series.items(), key=lambda x: x[0])` does.
 */
module Trendlines {
  import opened Dicts

  /** (minute bucket, count) */
  type Point = (int, int)

  predicate StrictlyAscending(s: seq<Point>) {
    forall i, j :: 0 <= i < j < |s| ==> s[i].0 < s[j].0
  }

  /** Places `p` before the first point whose bucket is not smaller. */
  function Insert(p: Point, s: seq<Point>): seq<Point> {
    if s == [] then [p]
    else if p.0 <= s[0].0 then [p] + s
    else [s[0]] + Insert(p, s[1..])
  }

  /** Insertion sort by bucket. */
  function SortPoints(s: seq<Point>): seq<Point> {
    if s == [] then [] else Insert(s[0], SortPoints(s[1..]))
  }

  lemma {:induction false} InsertPermutes(p: Point, s: seq<Point>)
    ensures multiset(Insert(p, s)) == multiset(s) + multiset{p}
    ensures SumValues(Insert(p, s)) == SumValues(s) + p.1
  {
    if s != [] && p.0 > s[0].0 {
      InsertPermutes(p, s[1..]);
      assert s == [s[0]] + s[1..];
      assert Insert(p, s)[1..] == Insert(p, s[1..]);
    }
  }

  lemma InsertMembers(p: Point, s: seq<Point>)
    ensures forall q :: q in Insert(p, s) <==> q == p || q in s
  {
    InsertPermutes(p, s);
    assert forall q :: q in Insert(p, s) <==> q in multiset(Insert(p, s));
    assert forall q :: q in s <==> q in multiset(s);
  }

  lemma ConsAscending(x: Point, r: seq<Point>)
    requires StrictlyAscending(r)
    requires forall q :: q in r ==> x.0 < q.0
    ensures StrictlyAscending([x] + r)
  {
    forall i, j | 0 <= i < j < |[x] + r| ensures ([x] + r)[i].0 < ([x] + r)[j].0 {
      assert ([x] + r)[j] == r[j - 1];
      if i > 0 {
        assert ([x] + r)[i] == r[i - 1];
      }
    }
  }

  /** Inserting a point with a new bucket into an ascending list keeps it ascending. */
  lemma {:induction false} InsertAscending(p: Point, s: seq<Point>)
    requires StrictlyAscending(s)
    requires forall q :: q in s ==> q.0 != p.0
    ensures StrictlyAscending(Insert(p, s))
  {
    if s == [] {
    } else if p.0 <= s[0].0 {
      forall q | q in s ensures p.0 < q.0 {
        var k :| 0 <= k < |s| && s[k] == q;
        assert k == 0 || s[0].0 < s[k].0;
      }
      ConsAscending(p, s);
    } else {
      var t := s[1..];
      InsertAscending(p, t);
      InsertMembers(p, t);
      forall q | q in Insert(p, t) ensures s[0].0 < q.0 {
        if q != p {
          var k :| 0 <= k < |t| && t[k] == q;
          assert s[k + 1] == q;
        }
      }
      ConsAscending(s[0], Insert(p, t));
    }
  }

  /** Points with distinct buckets, listed in any order. */
  predicate DistinctBuckets(s: seq<Point>) {
    forall i, j :: 0 <= i < j < |s| ==> s[i].0 != s[j].0
  }

  lemma WfDistinctBuckets(s: seq<Point>)
    requires Wf(s)
    ensures DistinctBuckets(s)
  {
    forall i, j | 0 <= i < j < |s| ensures s[i].0 != s[j].0 {
      KeysAt(s, i);
      KeysAt(s, j);
    }
  }

  /** Sorting rearranges the points, so their counts add up to the same total. */
  lemma {:induction false} SortPointsPermutes(s: seq<Point>)
    ensures multiset(SortPoints(s)) == multiset(s)
    ensures SumValues(SortPoints(s)) == SumValues(s)
  {
    if s != [] {
      SortPointsPermutes(s[1..]);
      InsertPermutes(s[0], SortPoints(s[1..]));
      assert s == [s[0]] + s[1..];
    }
  }

  /** Sorting points whose buckets are distinct lists them by strictly ascending bucket. */
  lemma {:induction false} SortPointsAscending(s: seq<Point>)
    requires DistinctBuckets(s)
    ensures StrictlyAscending(SortPoints(s))
  {
    if s != [] {
      var t := s[1..];
      var r := SortPoints(t);
      assert DistinctBuckets(t) by {
        forall i, j | 0 <= i < j < |t| ensures t[i].0 != t[j].0 {
          assert t[i] == s[i + 1] && t[j] == s[j + 1];
        }
      }
      SortPointsAscending(t);
      SortPointsPermutes(t);
      forall q | q in r ensures q.0 != s[0].0 {
        assert q in multiset(r);
        var k :| 0 <= k < |t| && t[k] == q;
        assert s[k + 1] == q;
      }
      InsertAscending(s[0], r);
    }
  }

  /**
   * `sorted` by bucket: the same points with the same total, and strictly
   * ascending buckets when no bucket occurs twice.
   */
  lemma SortPointsSpec(s: seq<Point>)
    ensures multiset(SortPoints(s)) == multiset(s)
    ensures SumValues(SortPoints(s)) == SumValues(s)
    ensures DistinctBuckets(s) ==> StrictlyAscending(SortPoints(s))
  {
    SortPointsPermutes(s);
    if DistinctBuckets(s) {
      SortPointsAscending(s);
    }
  }

  /** Every behaviour's series, sorted; the behaviours keep their order. */
  function SortTrendlines(d: Dict<string, Dict<int, int>>): Dict<string, seq<Point>> {
    if d == [] then [] else [(d[0].0, SortPoints(d[0].1))] + SortTrendlines(d[1..])
  }

  /** Sorting the series keeps the behaviours and sorts each one's points. */
  lemma {:induction false} SortTrendlinesSpec(d: Dict<string, Dict<int, int>>, b: string)
    ensures Keys(SortTrendlines(d)) == Keys(d)
    ensures Get(SortTrendlines(d), b, []) == SortPoints(Get(d, b, []))
  {
    if d != [] {
      SortTrendlinesSpec(d[1..], b);
      assert SortTrendlines(d)[1..] == SortTrendlines(d[1..]);
    }
  }
}
