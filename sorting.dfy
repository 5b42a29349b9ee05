/**
 * A stable sort under a caller-given "comes no later than" relation, the
 * ordering behind `Array.prototype.sort` (stable since ES2019) and behind
 * the ORM's multi-key `orderBy` in this model.
 */
module Sorting {

  /** `geq` is total and transitive, so it ranks every pair of elements. */
  ghost predicate TotalPreorder<T(!new)>(geq: (T, T) -> bool)
  {
    (forall a, b :: geq(a, b) || geq(b, a))
    && (forall a, b, c :: geq(a, b) && geq(b, c) ==> geq(a, c))
  }

  predicate SortedBy<T>(s: seq<T>, geq: (T, T) -> bool)
  {
    forall i, j :: 0 <= i < j < |s| ==> geq(s[i], s[j])
  }

  /** Puts `x` in front of the first element it ranks no lower than. */
  function Insert<T>(x: T, ys: seq<T>, geq: (T, T) -> bool): (r: seq<T>)
    ensures multiset(r) == multiset(ys) + multiset{x}
    ensures |r| == |ys| + 1
  {
    if ys == [] || geq(x, ys[0]) then [x] + ys
    else
      assert ys == [ys[0]] + ys[1..];
      [ys[0]] + Insert(x, ys[1..], geq)
  }

  /** Insertion sort from the back: each element goes in front of the elements it ties with. */
  function Sort<T>(s: seq<T>, geq: (T, T) -> bool): (r: seq<T>)
    ensures multiset(r) == multiset(s)
    ensures |r| == |s|
  {
    if s == [] then []
    else
      assert s == [s[0]] + s[1..];
      Insert(s[0], Sort(s[1..], geq), geq)
  }

  lemma {:induction false} InsertSorted<T(!new)>(x: T, ys: seq<T>, geq: (T, T) -> bool)
    requires TotalPreorder(geq) && SortedBy(ys, geq)
    ensures SortedBy(Insert(x, ys, geq), geq)
  {
    if ys != [] && !geq(x, ys[0]) {
      InsertSorted(x, ys[1..], geq);
      var r := Insert(x, ys, geq);
      var tail := Insert(x, ys[1..], geq);
      assert r == [ys[0]] + tail;
      forall j | 1 <= j < |r| ensures geq(ys[0], r[j]) {
        assert r[j] in multiset(ys[1..]) + multiset{x};
        if r[j] == x {
        } else {
          assert r[j] in multiset(ys[1..]);
          var k :| 0 <= k < |ys[1..]| && ys[1..][k] == r[j];
          assert ys[k + 1] == r[j];
        }
      }
    }
  }

  /** The sort orders its input under any total preorder. */
  lemma {:induction false} SortSorted<T(!new)>(s: seq<T>, geq: (T, T) -> bool)
    requires TotalPreorder(geq)
    ensures SortedBy(Sort(s, geq), geq)
  {
    if s != [] {
      SortSorted(s[1..], geq);
      InsertSorted(s[0], Sort(s[1..], geq), geq);
    }
  }

  /** Every element satisfying `p` comes before every element that does not. */
  predicate PartitionedBy<T>(s: seq<T>, p: T -> bool)
  {
    forall i, j :: 0 <= i < j < |s| ==> p(s[i]) || !p(s[j])
  }

  /** The two elements rank equal. */
  predicate Tie<T>(a: T, b: T, geq: (T, T) -> bool)
  {
    geq(a, b) && geq(b, a)
  }

  /** Among equally ranked elements, those satisfying `p` still come first. */
  predicate TiesPartitionedBy<T>(s: seq<T>, p: T -> bool, geq: (T, T) -> bool)
  {
    forall i, j :: 0 <= i < j < |s| && Tie(s[i], s[j], geq) ==> p(s[i]) || !p(s[j])
  }

  /** Putting `y` in front keeps the ties partitioned when `y` is in order with every element it ties. */
  lemma ConsKeepsTies<T>(y: T, rest: seq<T>, geq: (T, T) -> bool, p: T -> bool)
    requires TiesPartitionedBy(rest, p, geq)
    requires forall j :: 0 <= j < |rest| && Tie(y, rest[j], geq) ==> p(y) || !p(rest[j])
    ensures TiesPartitionedBy([y] + rest, p, geq)
  {
    var r := [y] + rest;
    forall i, j | 0 <= i < j < |r| && Tie(r[i], r[j], geq) ensures p(r[i]) || !p(r[j]) {
      if i == 0 {
        assert r[j] == rest[j - 1];
      } else {
        assert r[i] == rest[i - 1] && r[j] == rest[j - 1];
      }
    }
  }

  /** The tail of a tie-partitioned sequence is tie-partitioned. */
  lemma TailKeepsTies<T>(ys: seq<T>, geq: (T, T) -> bool, p: T -> bool)
    requires ys != [] && TiesPartitionedBy(ys, p, geq)
    ensures TiesPartitionedBy(ys[1..], p, geq)
  {
    var tail := ys[1..];
    forall i, j | 0 <= i < j < |tail| && Tie(tail[i], tail[j], geq) ensures p(tail[i]) || !p(tail[j]) {
      assert tail[i] == ys[i + 1] && tail[j] == ys[j + 1];
    }
  }

  lemma {:induction false} InsertKeepsTies<T(!new)>(x: T, ys: seq<T>, geq: (T, T) -> bool, p: T -> bool)
    requires TotalPreorder(geq)
    requires TiesPartitionedBy(ys, p, geq)
    requires p(x) || forall k :: 0 <= k < |ys| ==> !p(ys[k])
    ensures TiesPartitionedBy(Insert(x, ys, geq), p, geq)
  {
    if ys == [] || geq(x, ys[0]) {
      ConsKeepsTies(x, ys, geq, p);
    } else {
      var tail := ys[1..];
      TailKeepsTies(ys, geq, p);
      InsertKeepsTies(x, tail, geq, p);
      var rest := Insert(x, tail, geq);
      forall j | 0 <= j < |rest| && Tie(ys[0], rest[j], geq) ensures p(ys[0]) || !p(rest[j]) {
        assert rest[j] in multiset(tail) + multiset{x};
        if rest[j] != x {
          assert rest[j] in multiset(tail);
          var k :| 0 <= k < |tail| && tail[k] == rest[j];
          assert ys[k + 1] == rest[j];
        }
      }
      ConsKeepsTies(ys[0], rest, geq, p);
    }
  }

  /**
   * Stability, as the feed needs it: when every `p` element precedes every
   * other element in the input, elements that tie keep that precedence.
   */
  lemma {:induction false} SortKeepsTies<T(!new)>(s: seq<T>, geq: (T, T) -> bool, p: T -> bool)
    requires TotalPreorder(geq)
    requires PartitionedBy(s, p)
    ensures TiesPartitionedBy(Sort(s, geq), p, geq)
  {
    if s != [] {
      var tail := s[1..];
      assert PartitionedBy(tail, p) by {
        forall i, j | 0 <= i < j < |tail| ensures p(tail[i]) || !p(tail[j]) {
          assert tail[i] == s[i + 1] && tail[j] == s[j + 1];
        }
      }
      SortKeepsTies(tail, geq, p);
      var sorted := Sort(tail, geq);
      if !p(s[0]) {
        forall k | 0 <= k < |sorted| ensures !p(sorted[k]) {
          assert sorted[k] in multiset(tail);
          var m :| 0 <= m < |tail| && tail[m] == sorted[k];
          assert s[m + 1] == sorted[k];
        }
      }
      InsertKeepsTies(s[0], sorted, geq, p);
    }
  }
}
