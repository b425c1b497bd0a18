/**
 The `Array.prototype.filter` calls of the store and the routes, once and
 generically: a filter's result is a subsequence of its input holding each
 accepted element as often as the input does.
 */
module Seqs {
  /** r is s with some elements deleted: r's elements occur in s, in the same
      order. Matching each element of r at its first occurrence in s is enough
      to decide this. */
  predicate Subsequence<T(==)>(r: seq<T>, s: seq<T>)
    decreases |s|
  {
    if r == [] then true
    else if s == [] then false
    else if r[0] == s[0] then Subsequence(r[1..], s[1..])
    else Subsequence(r, s[1..])
  }

  /** A subsequence is never longer than the sequence it comes from. */
  lemma {:induction false} SubsequenceShorter<T>(r: seq<T>, s: seq<T>)
    requires Subsequence(r, s)
    ensures |r| <= |s|
    decreases |s|
  {
    if r != [] {
      if r[0] == s[0] {
        SubsequenceShorter(r[1..], s[1..]);
      } else {
        SubsequenceShorter(r, s[1..]);
      }
    }
  }

  /** Every element of a subsequence is an element of the sequence. */
  lemma {:induction false} SubsequenceMembers<T>(r: seq<T>, s: seq<T>, x: T)
    requires Subsequence(r, s) && x in r
    ensures x in s
    decreases |s|
  {
    if r[0] == s[0] {
      if x != r[0] {
        assert x in r[1..];
        SubsequenceMembers(r[1..], s[1..], x);
      }
    } else {
      SubsequenceMembers(r, s[1..], x);
    }
  }

  /** `s.filter(keep)`: the elements keep accepts, in order. */
  function Filter<T>(keep: T -> bool, s: seq<T>): seq<T>
  {
    if s == [] then [] else (if keep(s[0]) then [s[0]] else []) + Filter(keep, s[1..])
  }

  /** The filter holds exactly the accepted elements of s. */
  lemma {:induction false} FilterMembers<T>(keep: T -> bool, s: seq<T>, x: T)
    ensures x in Filter(keep, s) <==> x in s && keep(x)
  {
    if s != [] {
      FilterMembers(keep, s[1..], x);
      assert x in s <==> x == s[0] || x in s[1..];
    }
  }

  /** The filter keeps the order of s. */
  lemma {:induction false} FilterInOrder<T>(keep: T -> bool, s: seq<T>)
    ensures Subsequence(Filter(keep, s), s)
  {
    if s != [] {
      FilterInOrder(keep, s[1..]);
      var rest := Filter(keep, s[1..]);
      if !keep(s[0]) {
        assert Filter(keep, s) == rest;
        if rest != [] {
          FilterMembers(keep, s[1..], rest[0]);
          assert rest[0] != s[0];
        }
      } else {
        assert Filter(keep, s) == [s[0]] + rest;
      }
    }
  }

  /** An accepted element occurs as often as in s; any other not at all. */
  lemma {:induction false} FilterCounts<T>(keep: T -> bool, s: seq<T>, x: T)
    ensures multiset(Filter(keep, s))[x] == if keep(x) then multiset(s)[x] else 0
  {
    if s != [] {
      FilterCounts(keep, s[1..], x);
      assert s == [s[0]] + s[1..];
      var head := if keep(s[0]) then [s[0]] else [];
      assert multiset(Filter(keep, s)) == multiset(head) + multiset(Filter(keep, s[1..]));
    }
  }

  /** Filtering a concatenation filters each part. */
  lemma {:induction false} FilterConcat<T>(keep: T -> bool, a: seq<T>, b: seq<T>)
    ensures Filter(keep, a + b) == Filter(keep, a) + Filter(keep, b)
  {
    if a != [] {
      assert (a + b)[0] == a[0] && (a + b)[1..] == a[1..] + b;
      FilterConcat(keep, a[1..], b);
    } else {
      assert a + b == b;
    }
  }

  /** Nothing is kept when keep accepts no element. */
  lemma FilterNone<T>(keep: T -> bool, s: seq<T>)
    requires forall i :: 0 <= i < |s| ==> !keep(s[i])
    ensures Filter(keep, s) == []
  {
    if Filter(keep, s) != [] {
      FilterMembers(keep, s, Filter(keep, s)[0]);
    }
  }

  /** Filtering a list with a head: the head if accepted, then the filtered
      tail. */
  lemma FilterCons<T>(keep: T -> bool, h: T, t: seq<T>)
    ensures Filter(keep, [h] + t) == (if keep(h) then [h] else []) + Filter(keep, t)
  {
    assert ([h] + t)[0] == h && ([h] + t)[1..] == t;
  }

  /** Filtering a non-empty list: the filtered front, then the last element
      if accepted. */
  lemma FilterLast<T>(keep: T -> bool, s: seq<T>)
    requires s != []
    ensures Filter(keep, s) == Filter(keep, s[..|s| - 1]) + (if keep(s[|s| - 1]) then [s[|s| - 1]] else [])
  {
    var x := s[|s| - 1];
    assert s == s[..|s| - 1] + [x];
    FilterConcat(keep, s[..|s| - 1], [x]);
    FilterCons(keep, x, []);
    assert [x] + [] == [x];
  }
}
