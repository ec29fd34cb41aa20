/** Insertion into a list kept in order. */
module Sequences {

  function Inserted<T>(list: seq<T>, x: T, i: nat): seq<T>
    requires i <= |list|
  {
    list[..i] + [x] + list[i..]
  }

  predicate InOrder<T(!new)>(list: seq<T>, before: (T, T) -> bool) {
    forall i, j :: 0 <= i < j < |list| ==> before(list[i], list[j])
  }

  /** Putting an element behind all that go before it and in front of all that go after it. */
  lemma InsertKeepsOrder<T(!new)>(list: seq<T>, x: T, i: nat, before: (T, T) -> bool)
    requires InOrder(list, before) && i <= |list|
    requires forall j :: 0 <= j < i ==> before(list[j], x)
    requires forall j :: i <= j < |list| ==> before(x, list[j])
    ensures InOrder(Inserted(list, x, i), before)
    ensures forall y :: y in Inserted(list, x, i) <==> y in list || y == x
  {
    assert list == list[..i] + list[i..];
    forall a, b | 0 <= a < b < |list| + 1 ensures before(Inserted(list, x, i)[a], Inserted(list, x, i)[b]) {
      InsertedAt(list, x, i, a);
      InsertedAt(list, x, i, b);
    }
  }

  lemma InsertedAt<T>(list: seq<T>, x: T, i: nat, j: nat)
    requires i <= |list| && j <= |list|
    ensures Inserted(list, x, i)[j] == if j < i then list[j] else if j == i then x else list[j - 1]
  {
  }
}
