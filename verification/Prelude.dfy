/** Types and sequence facts shared by the other modules. */
module Prelude {

  datatype Option<+T> = None | Some(value: T)

  /** No element occurs at two positions. */
  ghost predicate Distinct<T>(s: seq<T>) {
    forall i, j :: 0 <= i < j < |s| ==> s[i] != s[j]
  }

  lemma DistinctCons<T>(x: T, rest: seq<T>)
    requires Distinct(rest) && x !in rest
    ensures Distinct([x] + rest)
  {
  }

  function Filter<T(!new)>(p: T -> bool, s: seq<T>): (r: seq<T>)
    ensures forall x :: x in r <==> x in s && p(x)
    ensures |r| <= |s|
  {
    if s == [] then []
    else if p(s[0]) then [s[0]] + Filter(p, s[1..])
    else Filter(p, s[1..])
  }

  lemma {:induction false} FilterDistinct<T(!new)>(p: T -> bool, s: seq<T>)
    requires Distinct(s)
    ensures Distinct(Filter(p, s))
  {
    if s != [] {
      assert Distinct(s[1..]);
      FilterDistinct(p, s[1..]);
      var rest := Filter(p, s[1..]);
      assert s[0] !in s[1..];
      DistinctCons(s[0], rest);
    }
  }

  lemma {:induction false} FilterConcat<T(!new)>(p: T -> bool, a: seq<T>, b: seq<T>)
    ensures Filter(p, a + b) == Filter(p, a) + Filter(p, b)
  {
    if a == [] {
      assert a + b == b;
    } else {
      assert (a + b)[1..] == a[1..] + b;
      FilterConcat(p, a[1..], b);
    }
  }

  /** Pigeonhole: distinct naturals in [lo, hi) are at most hi - lo many. */
  lemma {:induction false} DistinctBounded(s: seq<int>, lo: int, hi: int)
    requires Distinct(s) && lo <= hi
    requires forall x :: x in s ==> lo <= x < hi
    ensures |s| <= hi - lo
    decreases hi - lo
  {
    if |s| > 0 {
      assert s[0] in s;
      var last := hi - 1;
      if last in s {
        var i :| 0 <= i < |s| && s[i] == last;
        var t := s[..i] + s[i + 1..];
        forall a, b | 0 <= a < b < |t| ensures t[a] != t[b] {
          assert t[a] == s[if a < i then a else a + 1];
          assert t[b] == s[if b < i then b else b + 1];
        }
        forall y | y in t ensures lo <= y < last {
          var a :| 0 <= a < |t| && t[a] == y;
          assert y == s[if a < i then a else a + 1];
          assert y in s;
        }
        DistinctBounded(t, lo, last);
      } else {
        DistinctBounded(s, lo, last);
      }
    }
  }

  /** Python's list.remove, silent when x is absent: drops the first occurrence. */
  function RemoveFirst<T(==)>(s: seq<T>, x: T): seq<T> {
    if s == [] then []
    else if s[0] == x then s[1..]
    else [s[0]] + RemoveFirst(s[1..], x)
  }

  lemma {:induction false} RemoveFirstDistinct<T>(s: seq<T>, x: T)
    requires Distinct(s)
    ensures Distinct(RemoveFirst(s, x))
    ensures forall y :: y in RemoveFirst(s, x) <==> y in s && y != x
  {
    if s != [] {
      assert Distinct(s[1..]);
      assert s[0] !in s[1..];
      RemoveFirstDistinct(s[1..], x);
      forall y ensures y in RemoveFirst(s, x) <==> y in s && y != x {
        assert y in s <==> y == s[0] || y in s[1..];
      }
    }
  }
}
