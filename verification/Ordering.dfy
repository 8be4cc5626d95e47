/** `sorted` and `ORDER BY`: the elements of a set in the order of a strict total order. */
module Ordering {

  ghost predicate Strict<T(!new)>(s: set<T>, before: (T, T) -> bool) {
    (forall x, y :: x in s && y in s ==> !(before(x, y) && before(y, x)))
    && forall x, y, z :: x in s && y in s && z in s && before(x, y) && before(y, z) ==> before(x, z)
  }

  /** On the set, any two elements are in order one way. */
  ghost predicate Total<T(!new)>(s: set<T>, before: (T, T) -> bool) {
    Strict(s, before) && forall x, y :: x in s && y in s ==> x == y || before(x, y) || before(y, x)
  }

  /** In strictly increasing order, with the elements of the set. */
  ghost predicate Sorts<T(!new)>(q: seq<T>, s: set<T>, before: (T, T) -> bool) {
    (forall i, j :: 0 <= i < j < |q| ==> before(q[i], q[j])) && forall x :: x in q <==> x in s
  }

  lemma {:induction false} HasLeast<T(!new)>(s: set<T>, before: (T, T) -> bool) returns (m: T)
    requires Total(s, before) && s != {}
    ensures m in s && forall y :: y in s && y != m ==> before(m, y)
    decreases s
  {
    var x :| x in s;
    if s == {x} {
      m := x;
    } else {
      var rest := s - {x};
      assert Total(rest, before);
      var n := HasLeast(rest, before);
      m := if before(x, n) then x else n;
      forall y | y in s && y != m ensures before(m, y) {
        if before(x, n) && y != n { assert before(n, y); }
      }
    }
  }

  lemma {:induction false} CanBeSorted<T(!new)>(s: set<T>, before: (T, T) -> bool)
    requires Total(s, before)
    ensures exists q :: Sorts(q, s, before)
    decreases s
  {
    if s == {} {
      assert Sorts([], s, before);
    } else {
      var m := HasLeast(s, before);
      assert Total(s - {m}, before);
      CanBeSorted(s - {m}, before);
      var q :| Sorts(q, s - {m}, before);
      assert forall i :: 0 <= i < |q| ==> q[i] in q;
      assert Sorts([m] + q, s, before);
    }
  }

  lemma SortedTail<T(!new)>(q: seq<T>, s: set<T>, before: (T, T) -> bool)
    requires Total(s, before) && Sorts(q, s, before) && q != []
    ensures q[0] in s && (forall y :: y in s && y != q[0] ==> before(q[0], y)) && Sorts(q[1..], s - {q[0]}, before)
  {
    assert q == [q[0]] + q[1..];
    assert q[0] in q;
    forall i | 0 < i < |q| ensures q[i] != q[0] {
      assert before(q[0], q[i]) && q[i] in q;
    }
    forall y | y in s && y != q[0] ensures before(q[0], y) {
      var i :| 0 <= i < |q| && q[i] == y;
    }
  }

  /** There is one such order. */
  lemma {:induction false} SortedOneWay<T(!new)>(p: seq<T>, q: seq<T>, s: set<T>, before: (T, T) -> bool)
    requires Total(s, before) && Sorts(p, s, before) && Sorts(q, s, before)
    ensures p == q
    decreases |p|
  {
    assert (p != [] ==> p[0] in p) && (q != [] ==> q[0] in q);
    if p != [] {
      SortedTail(p, s, before);
      SortedTail(q, s, before);
      assert Total(s - {p[0]}, before);
      SortedOneWay(p[1..], q[1..], s - {p[0]}, before);
      assert p == [p[0]] + p[1..] && q == [q[0]] + q[1..];
    }
  }

  /** The set in order; nothing where the order leaves two elements undecided. */
  ghost function InOrder<T(!new)>(s: set<T>, before: (T, T) -> bool): (q: seq<T>)
    ensures Total(s, before) ==> Sorts(q, s, before)
  {
    if exists q :: Sorts(q, s, before) then
      var q :| Sorts(q, s, before); q
    else
      assert !Total(s, before) by {
        if Total(s, before) { CanBeSorted(s, before); }
      }
      []
  }

  /** Two orders that decide alike on a set put it in one sequence. */
  lemma SameOrder<T(!new)>(s: set<T>, before: (T, T) -> bool, other: (T, T) -> bool)
    requires Total(s, before) && forall x, y :: x in s && y in s ==> (before(x, y) <==> other(x, y))
    ensures InOrder(s, other) == InOrder(s, before) && Sorts(InOrder(s, before), s, before)
  {
    assert Total(s, other);
    var q := InOrder(s, other);
    assert forall i :: 0 <= i < |q| ==> q[i] in q;
    assert Sorts(q, s, before);
    SortedOneWay(q, InOrder(s, before), s, before);
  }
}
