/** A stable sort over any total order of keys, as an insertion sort. */
module StableSort {

  /** Any two elements compare, and comparing is transitive; equal keys may stay apart. */
  ghost predicate TotalOrder<T(!new)>(leq: (T, T) -> bool) {
    && (forall a, b :: leq(a, b) || leq(b, a))
    && (forall a, b, c :: leq(a, b) && leq(b, c) ==> leq(a, c))
  }

  ghost predicate Ordered<T>(s: seq<T>, leq: (T, T) -> bool) {
    forall i, j :: 0 <= i < j < |s| ==> leq(s[i], s[j])
  }

  /** Behind every element that may stand before `x`. */
  function Insert<T>(s: seq<T>, x: T, leq: (T, T) -> bool): (r: seq<T>)
    ensures |r| == |s| + 1
  {
    if s == [] then [x]
    else if leq(s[|s| - 1], x) then s + [x]
    else Insert(s[..|s| - 1], x, leq) + [s[|s| - 1]]
  }

  function Sort<T>(s: seq<T>, leq: (T, T) -> bool): (r: seq<T>)
    ensures |r| == |s|
  {
    if s == [] then [] else Insert(Sort(s[..|s| - 1], leq), s[|s| - 1], leq)
  }

  lemma {:induction false} InsertPermutes<T>(s: seq<T>, x: T, leq: (T, T) -> bool)
    ensures multiset(Insert(s, x, leq)) == multiset(s) + multiset{x}
    decreases |s|
  {
    if s != [] && !leq(s[|s| - 1], x) {
      assert s == s[..|s| - 1] + [s[|s| - 1]];
      InsertPermutes(s[..|s| - 1], x, leq);
    }
  }

  ghost predicate AllBefore<T>(s: seq<T>, y: T, leq: (T, T) -> bool) {
    forall i :: 0 <= i < |s| ==> leq(s[i], y)
  }

  lemma {:induction false} InsertStaysBefore<T>(s: seq<T>, x: T, y: T, leq: (T, T) -> bool)
    requires AllBefore(s, y, leq) && leq(x, y)
    ensures AllBefore(Insert(s, x, leq), y, leq)
    decreases |s|
  {
    if s != [] && !leq(s[|s| - 1], x) {
      InsertStaysBefore(s[..|s| - 1], x, y, leq);
    }
  }

  lemma {:induction false} InsertOrders<T(!new)>(s: seq<T>, x: T, leq: (T, T) -> bool)
    requires TotalOrder(leq) && Ordered(s, leq)
    ensures Ordered(Insert(s, x, leq), leq)
    decreases |s|
  {
    if s != [] {
      var n := |s| - 1;
      if leq(s[n], x) {
        forall i | 0 <= i < |s| ensures leq(s[i], x) {
          assert i == n || leq(s[i], s[n]);
        }
      } else {
        assert leq(x, s[n]);
        InsertOrders(s[..n], x, leq);
        InsertStaysBefore(s[..n], x, s[n], leq);
      }
    }
  }

  /** Sorting is a permutation in ascending order. */
  lemma {:induction false} SortOrders<T(!new)>(s: seq<T>, leq: (T, T) -> bool)
    requires TotalOrder(leq)
    ensures Ordered(Sort(s, leq), leq) && multiset(Sort(s, leq)) == multiset(s)
    decreases |s|
  {
    if s != [] {
      var front, last := s[..|s| - 1], s[|s| - 1];
      assert s == front + [last];
      SortOrders(front, leq);
      InsertOrders(Sort(front, leq), last, leq);
      InsertPermutes(Sort(front, leq), last, leq);
    }
  }

  /** What sorting leaves is what was there. */
  lemma SortKeepsElements<T>(s: seq<T>, leq: (T, T) -> bool, x: T)
    requires multiset(Sort(s, leq)) == multiset(s)
    ensures x in Sort(s, leq) <==> x in s
  {
    assert x in Sort(s, leq) <==> x in multiset(Sort(s, leq));
    assert x in s <==> x in multiset(s);
  }

  /** Sorting an ascending list changes nothing. */
  lemma {:induction false} SortKeepsOrdered<T>(s: seq<T>, leq: (T, T) -> bool)
    requires Ordered(s, leq)
    ensures Sort(s, leq) == s
    decreases |s|
  {
    if s != [] {
      SortKeepsOrdered(s[..|s| - 1], leq);
      assert |s| > 1 ==> leq(s[|s| - 2], s[|s| - 1]);
    }
  }

  // ----- Uniqueness -----

  lemma WithoutLast<T>(s: seq<T>)
    requires s != []
    ensures multiset(s[..|s| - 1]) == multiset(s) - multiset{s[|s| - 1]} && s[|s| - 1] in multiset(s)
  {
    assert s == s[..|s| - 1] + [s[|s| - 1]];
  }

  lemma LastIsLargest<T(!new)>(s: seq<T>, x: T, leq: (T, T) -> bool)
    requires TotalOrder(leq) && Ordered(s, leq) && x in multiset(s)
    ensures s != [] && leq(x, s[|s| - 1])
  {
    var i :| 0 <= i < |s| && s[i] == x;
    if i < |s| - 1 {
      assert leq(s[i], s[|s| - 1]);
    }
  }

  lemma SameLast<T(!new)>(a: seq<T>, b: seq<T>, leq: (T, T) -> bool)
    requires TotalOrder(leq) && (forall x, y :: leq(x, y) && leq(y, x) ==> x == y)
    requires Ordered(a, leq) && Ordered(b, leq) && multiset(a) == multiset(b) && a != []
    ensures b != [] && a[|a| - 1] == b[|b| - 1]
  {
    WithoutLast(a);
    LastIsLargest(b, a[|a| - 1], leq);
    WithoutLast(b);
    LastIsLargest(a, b[|b| - 1], leq);
  }

  lemma Reassembled<T>(a: seq<T>, b: seq<T>)
    requires a != [] && b != [] && a[..|a| - 1] == b[..|b| - 1] && a[|a| - 1] == b[|b| - 1]
    ensures a == b
  {
    assert a == a[..|a| - 1] + [a[|a| - 1]];
    assert b == b[..|b| - 1] + [b[|b| - 1]];
  }

  /** Two ascending arrangements of the same elements are the same, if equal keys are equal. */
  lemma {:induction false} OrderedIsUnique<T(!new)>(a: seq<T>, b: seq<T>, leq: (T, T) -> bool)
    requires TotalOrder(leq) && (forall x, y :: leq(x, y) && leq(y, x) ==> x == y)
    requires Ordered(a, leq) && Ordered(b, leq) && multiset(a) == multiset(b)
    ensures a == b
    decreases |a|
  {
    if a == [] {
      assert |multiset(b)| == |b|;
    } else {
      SameLast(a, b, leq);
      WithoutLast(a);
      WithoutLast(b);
      OrderedIsUnique(a[..|a| - 1], b[..|b| - 1], leq);
      Reassembled(a, b);
    }
  }

  // ----- Stability -----

  /** The elements `p` picks, in order. */
  function Picked<T>(s: seq<T>, p: T -> bool): seq<T> {
    if s == [] then []
    else if p(s[|s| - 1]) then Picked(s[..|s| - 1], p) + [s[|s| - 1]]
    else Picked(s[..|s| - 1], p)
  }

  lemma PickedSnoc<T>(s: seq<T>, x: T, p: T -> bool)
    ensures Picked(s + [x], p) == if p(x) then Picked(s, p) + [x] else Picked(s, p)
  {
    assert (s + [x])[..|s|] == s;
  }

  lemma {:induction false} InsertIsStable<T(!new)>(s: seq<T>, x: T, leq: (T, T) -> bool, p: T -> bool)
    requires forall a, b :: p(a) && p(b) ==> leq(a, b)
    ensures Picked(Insert(s, x, leq), p) == Picked(s + [x], p)
    decreases |s|
  {
    PickedSnoc(s, x, p);
    if s != [] && !leq(s[|s| - 1], x) {
      var front, last := s[..|s| - 1], s[|s| - 1];
      InsertIsStable(front, x, leq, p);
      PickedSnoc(front, x, p);
      PickedSnoc(Insert(front, x, leq), last, p);
    } else if s == [] {
      assert s + [x] == [x];
    }
  }

  /** Elements of one key keep their order. */
  lemma {:induction false} SortIsStable<T(!new)>(s: seq<T>, leq: (T, T) -> bool, p: T -> bool)
    requires forall a, b :: p(a) && p(b) ==> leq(a, b)
    ensures Picked(Sort(s, leq), p) == Picked(s, p)
    decreases |s|
  {
    if s != [] {
      var front, last := s[..|s| - 1], s[|s| - 1];
      SortIsStable(front, leq, p);
      InsertIsStable(Sort(front, leq), last, leq, p);
      PickedSnoc(Sort(front, leq), last, p);
    }
  }
}
