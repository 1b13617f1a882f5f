/** Small shared vocabulary: an optional value (absent request fields,
    rows the store may not hold) and order-keeping filtering. */
module Basics {

  datatype Option<+T> = None | Some(value: T)

  function Min(a: int, b: int): int { if a <= b then a else b }

  function Max(a: int, b: int): int { if a <= b then b else a }

  /** The elements of `s` that satisfy `p`, in their original order: a list
      comprehension `[x for x in s if p(x)]`, or a query's WHERE clause. */
  function Filter<T(!new)>(s: seq<T>, p: T -> bool): (r: seq<T>)
    ensures |r| <= |s|
    ensures forall x :: x in r <==> x in s && p(x)
    ensures forall i | 0 <= i < |r| :: p(r[i])
  {
    if s == [] then []
    else
      var rest := Filter(s[1..], p);
      assert forall x :: x in s <==> x == s[0] || x in s[1..] by {
        assert s == [s[0]] + s[1..];
      }
      if p(s[0]) then [s[0]] + rest else rest
  }

  /** Filtering keeps relative order: every pair in the result appears in
      the same order in the source, witnessed by increasing positions. */
  lemma {:induction false} FilterKeepsOrder<T(!new)>(s: seq<T>, p: T -> bool, lt: (T, T) -> bool)
    requires forall i, j | 0 <= i < j < |s| :: lt(s[i], s[j])
    ensures forall i, j | 0 <= i < j < |Filter(s, p)| :: lt(Filter(s, p)[i], Filter(s, p)[j])
  {
    if s != [] {
      assert forall i, j | 0 <= i < j < |s[1..]| :: lt(s[1..][i], s[1..][j]) by {
        forall i, j | 0 <= i < j < |s[1..]| ensures lt(s[1..][i], s[1..][j]) {
          assert s[1..][i] == s[i + 1] && s[1..][j] == s[j + 1];
        }
      }
      FilterKeepsOrder(s[1..], p, lt);
      var rest := Filter(s[1..], p);
      assert forall x | x in rest :: x in s[1..];
      if p(s[0]) {
        var r := [s[0]] + rest;
        forall i, j | 0 <= i < j < |r| ensures lt(r[i], r[j]) {
          assert r[j] == rest[j - 1];
          if i == 0 {
            var k :| 0 <= k < |s[1..]| && s[1..][k] == rest[j - 1];
            assert s[k + 1] == rest[j - 1];
            assert r[0] == s[0] && lt(s[0], s[k + 1]);
            assert lt(r[i], r[j]);
          } else {
            assert r[i] == rest[i - 1];
            assert lt(rest[i - 1], rest[j - 1]);
          }
        }
      }
    }
  }

  /** The head of a filtered sequence is the first element of the source
      that passes: every element before it fails. */
  lemma {:induction false} FilterHead<T(!new)>(s: seq<T>, p: T -> bool)
    requires Filter(s, p) != []
    ensures exists i | 0 <= i < |s| :: s[i] == Filter(s, p)[0] && forall j | 0 <= j < i :: !p(s[j])
  {
    if p(s[0]) {
      assert s[0] == Filter(s, p)[0];
    } else {
      FilterHead(s[1..], p);
      var i :| 0 <= i < |s| - 1 && s[1..][i] == Filter(s[1..], p)[0] && forall j | 0 <= j < i :: !p(s[1..][j]);
      forall j | 0 <= j < i + 1 ensures !p(s[j]) {
        if j > 0 { assert s[j] == s[1..][j - 1]; }
      }
      assert s[i + 1] == Filter(s, p)[0];
    }
  }

  /** A filter every element passes keeps the whole sequence. */
  lemma {:induction false} FilterAll<T(!new)>(s: seq<T>, p: T -> bool)
    ensures (forall i | 0 <= i < |s| :: p(s[i])) ==> Filter(s, p) == s
  {
    if s != [] && forall i | 0 <= i < |s| :: p(s[i]) {
      FilterAll(s[1..], p);
      assert s == [s[0]] + s[1..];
    }
  }
}
