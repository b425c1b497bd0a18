/**
 The stable sort of `Array.prototype.sort` with a comparator, as an
 insertion sort over records, and what it guarantees about the order of its
 result.
 */
module Sorting {
  import opened Json
  import Seqs

  /** A comparator in the JavaScript sense: negative, zero or positive. */
  type Comparator = (Object, Object) -> int

  /** Inserts x after every element of s that does not compare greater than
      it. */
  function Insert(s: seq<Object>, x: Object, cmp: Comparator): (r: seq<Object>)
    ensures |r| == |s| + 1
    ensures multiset(r) == multiset(s) + multiset{x}
  {
    if s == [] then [x]
    else if cmp(s[0], x) > 0 then [x] + s
    else
      assert s == [s[0]] + s[1..];
      [s[0]] + Insert(s[1..], x, cmp)
  }

  /** `s.sort(cmp)`: each element in turn is inserted into the sorted prefix
      before it, so equal elements keep their order. */
  function Sort(s: seq<Object>, cmp: Comparator): (r: seq<Object>)
    ensures |r| == |s|
    ensures multiset(r) == multiset(s)
  {
    if s == [] then []
    else
      assert s == s[..|s| - 1] + [s[|s| - 1]];
      Insert(Sort(s[..|s| - 1], cmp), s[|s| - 1], cmp)
  }

  /** Insertion keeps any property every element and x have. */
  lemma {:induction false} InsertKeeps(s: seq<Object>, x: Object, cmp: Comparator, P: Object -> bool)
    requires forall i :: 0 <= i < |s| ==> P(s[i])
    requires P(x)
    ensures forall i :: 0 <= i < |Insert(s, x, cmp)| ==> P(Insert(s, x, cmp)[i])
  {
    if s != [] && cmp(s[0], x) <= 0 {
      InsertKeeps(s[1..], x, cmp, P);
      assert Insert(s, x, cmp) == [s[0]] + Insert(s[1..], x, cmp);
    }
  }

  // ---------------------------------------------------------------------------
  // Order of the result

  /** Every pair appears in comparator order. */
  predicate Sorted(s: seq<Object>, cmp: Comparator) {
    forall i, j :: 0 <= i < j < |s| ==> cmp(s[i], s[j]) <= 0
  }

  /** On the records satisfying P, the comparator is a total preorder: any two
      compare one way or the other, and "at most" is transitive. */
  ghost predicate TotalPreorderOn(cmp: Comparator, P: Object -> bool) {
    && (forall a, b :: P(a) && P(b) ==> cmp(a, b) <= 0 || cmp(b, a) <= 0)
    && (forall a, b, c :: P(a) && P(b) && P(c) && cmp(a, b) <= 0 && cmp(b, c) <= 0 ==> cmp(a, c) <= 0)
  }

  predicate All(s: seq<Object>, P: Object -> bool) {
    forall i :: 0 <= i < |s| ==> P(s[i])
  }

  lemma ConsSorted(h: Object, t: seq<Object>, cmp: Comparator)
    requires Sorted(t, cmp)
    requires forall i :: 0 <= i < |t| ==> cmp(h, t[i]) <= 0
    ensures Sorted([h] + t, cmp)
  {
    var r := [h] + t;
    forall i, j | 0 <= i < j < |r|
      ensures cmp(r[i], r[j]) <= 0
    {
      assert r[j] == t[j - 1];
      if i > 0 {
        assert r[i] == t[i - 1];
      }
    }
  }

  lemma {:induction false} InsertSorted(s: seq<Object>, x: Object, cmp: Comparator, P: Object -> bool)
    requires TotalPreorderOn(cmp, P)
    requires Sorted(s, cmp) && All(s, P) && P(x)
    ensures Sorted(Insert(s, x, cmp), cmp)
  {
    if s == [] {
    } else if cmp(s[0], x) > 0 {
      assert cmp(x, s[0]) <= 0;
      forall i | 0 <= i < |s|
        ensures cmp(x, s[i]) <= 0
      {
        if i > 0 {
          assert P(s[0]) && P(s[i]) && cmp(s[0], s[i]) <= 0;
        }
      }
      ConsSorted(x, s, cmp);
    } else {
      var h := s[0];
      assert Sorted(s[1..], cmp) && All(s[1..], P);
      InsertSorted(s[1..], x, cmp, P);
      var afterHead := (y: Object) => cmp(h, y) <= 0;
      assert forall i :: 0 <= i < |s[1..]| ==> afterHead(s[1..][i]);
      InsertKeeps(s[1..], x, cmp, afterHead);
      ConsSorted(h, Insert(s[1..], x, cmp), cmp);
      assert Insert(s, x, cmp) == [h] + Insert(s[1..], x, cmp);
    }
  }

  /** When the comparator is a total preorder on the elements, the result is
      in comparator order. */
  lemma {:induction false} SortSorted(s: seq<Object>, cmp: Comparator, P: Object -> bool)
    requires TotalPreorderOn(cmp, P) && All(s, P)
    ensures Sorted(Sort(s, cmp), cmp) && All(Sort(s, cmp), P)
  {
    if s != [] {
      var init := s[..|s| - 1];
      var x := s[|s| - 1];
      assert All(init, P);
      SortSorted(init, cmp, P);
      var r := Sort(init, cmp);
      InsertSorted(r, x, cmp, P);
      InsertKeeps(r, x, cmp, P);
    }
  }

  /** Non-decreasing key values. */
  predicate KeySorted(s: seq<Object>, key: Object -> int) {
    forall i, j :: 0 <= i < j < |s| ==> key(s[i]) <= key(s[j])
  }

  /** The comparator never puts a larger key first: a comparator that orders
      by the key first and breaks ties some other way. */
  ghost predicate RespectsKey(cmp: Comparator, key: Object -> int) {
    forall a, b :: (cmp(a, b) <= 0 ==> key(a) <= key(b)) && (cmp(a, b) > 0 ==> key(b) <= key(a))
  }

  lemma ConsKeySorted(h: Object, t: seq<Object>, key: Object -> int)
    requires KeySorted(t, key)
    requires forall i :: 0 <= i < |t| ==> key(h) <= key(t[i])
    ensures KeySorted([h] + t, key)
  {
    var r := [h] + t;
    forall i, j | 0 <= i < j < |r|
      ensures key(r[i]) <= key(r[j])
    {
      assert r[j] == t[j - 1];
      if i > 0 {
        assert r[i] == t[i - 1];
      }
    }
  }

  lemma {:induction false} InsertKeySorted(s: seq<Object>, x: Object, cmp: Comparator, key: Object -> int)
    requires RespectsKey(cmp, key) && KeySorted(s, key)
    ensures KeySorted(Insert(s, x, cmp), key)
  {
    if s == [] {
    } else if cmp(s[0], x) > 0 {
      ConsKeySorted(x, s, key);
    } else {
      var h := s[0];
      assert KeySorted(s[1..], key);
      InsertKeySorted(s[1..], x, cmp, key);
      var atLeastHead := (y: Object) => key(h) <= key(y);
      assert forall i :: 0 <= i < |s[1..]| ==> atLeastHead(s[1..][i]);
      InsertKeeps(s[1..], x, cmp, atLeastHead);
      ConsKeySorted(h, Insert(s[1..], x, cmp), key);
      assert Insert(s, x, cmp) == [h] + Insert(s[1..], x, cmp);
    }
  }

  /** A comparator that respects a key sorts by that key, whatever else it
      does. */
  lemma {:induction false} SortKeySorted(s: seq<Object>, cmp: Comparator, key: Object -> int)
    requires RespectsKey(cmp, key)
    ensures KeySorted(Sort(s, cmp), key)
  {
    if s != [] {
      SortKeySorted(s[..|s| - 1], cmp, key);
      InsertKeySorted(Sort(s[..|s| - 1], cmp), s[|s| - 1], cmp, key);
    }
  }

  /** Inserting x after elements that all compare at most x appends it. */
  lemma {:induction false} InsertAtEnd(s: seq<Object>, x: Object, cmp: Comparator)
    requires forall i :: 0 <= i < |s| ==> cmp(s[i], x) <= 0
    ensures Insert(s, x, cmp) == s + [x]
  {
    if s != [] {
      InsertAtEnd(s[1..], x, cmp);
      assert s == [s[0]] + s[1..];
    }
  }

  /** A list already in comparator order is left as it is. */
  lemma {:induction false} SortSortedIsIdentity(s: seq<Object>, cmp: Comparator)
    requires Sorted(s, cmp)
    ensures Sort(s, cmp) == s
  {
    if s != [] {
      var init := s[..|s| - 1];
      assert Sorted(init, cmp);
      SortSortedIsIdentity(init, cmp);
      InsertAtEnd(init, s[|s| - 1], cmp);
      assert init + [s[|s| - 1]] == s;
    }
  }

  // ---------------------------------------------------------------------------
  // Stability

  /** Any two records Q accepts compare as "at most" both ways round, so the
      comparator cannot tell them apart. */
  ghost predicate Tied(cmp: Comparator, P: Object -> bool, Q: Object -> bool) {
    forall a, b :: P(a) && P(b) && Q(a) && Q(b) ==> cmp(a, b) <= 0
  }

  /** When x is accepted by Q, every record up to one Q accepts compares at
      most x: insertion walks past all of them. */
  ghost predicate TiesFirst(s: seq<Object>, x: Object, cmp: Comparator, Q: Object -> bool) {
    Q(x) ==> forall i, j :: 0 <= j <= i < |s| && Q(s[i]) ==> cmp(s[j], x) <= 0
  }

  /** A sorted list has its ties with x first. */
  lemma SortedTiesFirst(s: seq<Object>, x: Object, cmp: Comparator, P: Object -> bool, Q: Object -> bool)
    requires TotalPreorderOn(cmp, P) && Tied(cmp, P, Q)
    requires Sorted(s, cmp) && All(s, P) && P(x)
    ensures TiesFirst(s, x, cmp, Q)
  {
    if Q(x) {
      forall i, j | 0 <= j <= i < |s| && Q(s[i])
        ensures cmp(s[j], x) <= 0
      {
        assert cmp(s[i], x) <= 0;
        if j < i {
          assert P(s[j]) && P(s[i]) && cmp(s[j], s[i]) <= 0;
        }
      }
    }
  }

  /** Inserting x puts it after every record tied with it, and leaves the
      tied records as they were. */
  lemma {:induction false} InsertAfterTies(s: seq<Object>, x: Object, cmp: Comparator, Q: Object -> bool)
    requires TiesFirst(s, x, cmp, Q)
    ensures Seqs.Filter(Q, Insert(s, x, cmp)) == Seqs.Filter(Q, s) + (if Q(x) then [x] else [])
  {
    if s == [] {
      Seqs.FilterCons(Q, x, []);
      assert [x] + [] == [x];
    } else if cmp(s[0], x) > 0 {
      InsertBeforeGreater(s, x, cmp, Q);
    } else {
      TiesFirstTail(s, x, cmp, Q);
      InsertAfterTies(s[1..], x, cmp, Q);
      InsertPastHead(s, x, cmp, Q);
    }
  }

  /** x goes in front of a head that compares greater, and nothing after
      that head is tied with x. */
  lemma InsertBeforeGreater(s: seq<Object>, x: Object, cmp: Comparator, Q: Object -> bool)
    requires TiesFirst(s, x, cmp, Q)
    requires s != [] && cmp(s[0], x) > 0
    ensures Seqs.Filter(Q, Insert(s, x, cmp)) == Seqs.Filter(Q, s) + (if Q(x) then [x] else [])
  {
    assert Insert(s, x, cmp) == [x] + s;
    Seqs.FilterCons(Q, x, s);
    if Q(x) {
      assert forall i :: 0 <= i < |s| ==> !Q(s[i]);
      Seqs.FilterNone(Q, s);
    }
  }

  lemma TiesFirstTail(s: seq<Object>, x: Object, cmp: Comparator, Q: Object -> bool)
    requires TiesFirst(s, x, cmp, Q) && s != []
    ensures TiesFirst(s[1..], x, cmp, Q)
  {
    assert forall k :: 0 <= k < |s[1..]| ==> s[1..][k] == s[k + 1];
  }

  /** Walking past a head that compares at most x keeps the head in front. */
  lemma InsertPastHead(s: seq<Object>, x: Object, cmp: Comparator, Q: Object -> bool)
    requires s != [] && cmp(s[0], x) <= 0
    requires Seqs.Filter(Q, Insert(s[1..], x, cmp)) == Seqs.Filter(Q, s[1..]) + (if Q(x) then [x] else [])
    ensures Seqs.Filter(Q, Insert(s, x, cmp)) == Seqs.Filter(Q, s) + (if Q(x) then [x] else [])
  {
    var h := s[0];
    var r := Insert(s[1..], x, cmp);
    assert Insert(s, x, cmp) == [h] + r;
    Seqs.FilterCons(Q, h, r);
    var head := if Q(h) then [h] else [];
    ConcatAssoc(head, Seqs.Filter(Q, s[1..]), if Q(x) then [x] else []);
  }

  lemma ConcatAssoc(a: seq<Object>, b: seq<Object>, c: seq<Object>)
    ensures a + (b + c) == (a + b) + c
  {
  }

  /** The sort is stable: records the comparator cannot tell apart come out
      in the order they went in. */
  lemma {:induction false} SortStable(s: seq<Object>, cmp: Comparator, P: Object -> bool, Q: Object -> bool)
    requires TotalPreorderOn(cmp, P) && Tied(cmp, P, Q) && All(s, P)
    ensures Seqs.Filter(Q, Sort(s, cmp)) == Seqs.Filter(Q, s)
  {
    if s != [] {
      var init := s[..|s| - 1];
      var x := s[|s| - 1];
      assert All(init, P);
      SortStable(init, cmp, P, Q);
      SortSorted(init, cmp, P);
      SortedTiesFirst(Sort(init, cmp), x, cmp, P, Q);
      InsertAfterTies(Sort(init, cmp), x, cmp, Q);
      Seqs.FilterLast(Q, s);
    }
  }
}
