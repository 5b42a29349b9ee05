/**
 * The ORM queries the services issue, on tables kept as sequences in
 * storage order: `findMany` with a `where` filter, `count` with the same
 * filter, and the `skip`/`take` window.
 */
module Tables {
  import Pagination

  /** The rows that satisfy `f`, in storage order. */
  function Filter<T>(s: seq<T>, f: T -> bool): (r: seq<T>)
    ensures |r| <= |s|
    ensures forall k :: 0 <= k < |r| ==> f(r[k]) && r[k] in s
    ensures forall k :: 0 <= k < |s| && f(s[k]) ==> s[k] in r
  {
    if s == [] then []
    else
      var rest := Filter(s[1..], f);
      assert forall k :: 0 <= k < |rest| ==> rest[k] in s by {
        forall k | 0 <= k < |rest| ensures rest[k] in s {
          assert rest[k] in s[1..];
        }
      }
      assert forall k :: 1 <= k < |s| ==> s[k] == s[1..][k - 1];
      if f(s[0]) then [s[0]] + rest else rest
  }

  /** `count` with a `where` filter. */
  function Count<T>(s: seq<T>, f: T -> bool): nat
  {
    |Filter(s, f)|
  }

  /** `skip`/`take`: at most `take` rows starting after the first `skip`. */
  function Window<T>(s: seq<T>, w: Pagination.Window): (r: seq<T>)
    requires w.skip >= 0 && w.take >= 0
    ensures |r| <= w.take
    ensures |r| == if w.skip >= |s| then 0 else if w.skip + w.take <= |s| then w.take else |s| - w.skip
    ensures forall k :: 0 <= k < |r| ==> r[k] == s[w.skip + k]
  {
    if w.skip >= |s| then []
    else if w.skip + w.take <= |s| then s[w.skip..w.skip + w.take]
    else s[w.skip..]
  }

  /** `take` alone: the first `n` rows. */
  function Take<T>(s: seq<T>, n: nat): (r: seq<T>)
    ensures |r| == if n <= |s| then n else |s|
    ensures r == s[..|r|]
  {
    if n <= |s| then s[..n] else s
  }

  /** Deleting the row at `i` keeps every other row, in order. */
  lemma {:induction false} RemoveAt<T>(s: seq<T>, i: nat)
    requires i < |s|
    ensures var r := s[..i] + s[i + 1..];
            |r| == |s| - 1
            && (forall k :: 0 <= k < i ==> r[k] == s[k])
            && (forall k :: i < k < |s| ==> r[k - 1] == s[k])
  {
  }

  /** No row satisfies `f`, so the filter is empty. */
  lemma {:induction false} FilterNone<T>(s: seq<T>, f: T -> bool)
    requires forall k :: 0 <= k < |s| ==> !f(s[k])
    ensures Filter(s, f) == []
  {
    if s != [] {
      FilterNone(s[1..], f);
    }
  }

  /** Filtering distributes over appending one row. */
  lemma {:induction false} FilterAppend<T>(s: seq<T>, x: T, f: T -> bool)
    ensures Filter(s + [x], f) == Filter(s, f) + (if f(x) then [x] else [])
  {
    if s == [] {
      assert s + [x] == [x];
    } else {
      assert (s + [x])[1..] == s[1..] + [x];
      FilterAppend(s[1..], x, f);
    }
  }
}
