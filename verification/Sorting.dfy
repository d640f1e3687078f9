/** Insertion sort by a strict order, and why a strictly sorted sequence is unique. */
module Sorting {

  predicate StrictlySorted<T>(s: seq<T>, lt: (T, T) -> bool) {
    forall i, j | 0 <= i < j < |s| :: lt(s[i], s[j])
  }

  ghost predicate Transitive<T(!new)>(lt: (T, T) -> bool) {
    forall x, y, z :: lt(x, y) && lt(y, z) ==> lt(x, z)
  }

  ghost predicate Irreflexive<T(!new)>(lt: (T, T) -> bool) {
    forall x :: !lt(x, x)
  }

  /** Any two positions hold comparable elements. */
  ghost predicate Comparable<T>(s: seq<T>, lt: (T, T) -> bool) {
    forall i, j | 0 <= i < j < |s| :: lt(s[i], s[j]) || lt(s[j], s[i])
  }

  function Insert<T>(x: T, s: seq<T>, lt: (T, T) -> bool): seq<T> {
    if s == [] then [x]
    else if lt(x, s[0]) then [x] + s
    else [s[0]] + Insert(x, s[1..], lt)
  }

  function Sort<T>(s: seq<T>, lt: (T, T) -> bool): seq<T> {
    if s == [] then [] else Insert(s[0], Sort(s[1..], lt), lt)
  }

  lemma {:induction false} InsertElements<T>(x: T, s: seq<T>, lt: (T, T) -> bool)
    ensures |Insert(x, s, lt)| == |s| + 1
    ensures forall y :: y in Insert(x, s, lt) <==> y == x || y in s
  {
    if s != [] {
      InsertElements(x, s[1..], lt);
      assert s == [s[0]] + s[1..];
    }
  }

  lemma {:induction false} SortElements<T>(s: seq<T>, lt: (T, T) -> bool)
    ensures |Sort(s, lt)| == |s|
    ensures forall y :: y in Sort(s, lt) <==> y in s
  {
    if s != [] {
      SortElements(s[1..], lt);
      InsertElements(s[0], Sort(s[1..], lt), lt);
      assert s == [s[0]] + s[1..];
    }
  }

  lemma {:induction false} InsertSorted<T(!new)>(x: T, s: seq<T>, lt: (T, T) -> bool)
    requires Transitive(lt) && StrictlySorted(s, lt)
    requires forall y :: y in s ==> lt(x, y) || lt(y, x)
    ensures StrictlySorted(Insert(x, s, lt), lt)
  {
    if s != [] && !lt(x, s[0]) {
      var rest := Insert(x, s[1..], lt);
      InsertSorted(x, s[1..], lt);
      InsertElements(x, s[1..], lt);
      forall j | 0 <= j < |rest| ensures lt(s[0], rest[j]) {
        assert rest[j] in rest;
        if rest[j] != x {
          var k :| 0 <= k < |s[1..]| && s[1..][k] == rest[j];
          assert s[1 + k] == rest[j];
        }
      }
    }
  }

  lemma {:induction false} SortSorts<T(!new)>(s: seq<T>, lt: (T, T) -> bool)
    requires Transitive(lt) && Comparable(s, lt)
    ensures StrictlySorted(Sort(s, lt), lt)
  {
    if s != [] {
      var rest := s[1..];
      assert forall i, j | 0 <= i < j < |rest| :: rest[i] == s[i + 1] && rest[j] == s[j + 1];
      SortSorts(rest, lt);
      SortElements(rest, lt);
      forall y | y in Sort(rest, lt) ensures lt(s[0], y) || lt(y, s[0]) {
        var k :| 0 <= k < |rest| && rest[k] == y;
        assert s[k + 1] == y;
      }
      InsertSorted(s[0], Sort(rest, lt), lt);
    }
  }

  /** No element stands after a larger one; equal ones may repeat. */
  predicate Ordered<T>(s: seq<T>, lt: (T, T) -> bool) {
    forall i, j | 0 <= i < j < |s| :: !lt(s[j], s[i])
  }

  ghost predicate WeakOrder<T(!new)>(lt: (T, T) -> bool) {
    && (forall x, y :: lt(x, y) ==> !lt(y, x))
    && (forall x, y, z :: lt(x, z) ==> lt(x, y) || lt(y, z))
  }

  lemma {:induction false} InsertOrdered<T(!new)>(x: T, s: seq<T>, lt: (T, T) -> bool)
    requires WeakOrder(lt) && Ordered(s, lt)
    ensures Ordered(Insert(x, s, lt), lt)
  {
    if s != [] && !lt(x, s[0]) {
      var rest := Insert(x, s[1..], lt);
      InsertOrdered(x, s[1..], lt);
      InsertElements(x, s[1..], lt);
      forall j | 0 <= j < |rest| ensures !lt(rest[j], s[0]) {
        assert rest[j] in rest;
        if rest[j] != x {
          var k :| 0 <= k < |s[1..]| && s[1..][k] == rest[j];
          assert s[1 + k] == rest[j];
        }
      }
    }
  }

  lemma {:induction false} SortOrders<T(!new)>(s: seq<T>, lt: (T, T) -> bool)
    requires WeakOrder(lt)
    ensures Ordered(Sort(s, lt), lt)
  {
    if s != [] {
      SortOrders(s[1..], lt);
      InsertOrdered(s[0], Sort(s[1..], lt), lt);
    }
  }

  lemma HeadIsLeast<T>(a: seq<T>, x: T, lt: (T, T) -> bool)
    requires StrictlySorted(a, lt) && x in a
    ensures x == a[0] || lt(a[0], x)
  {
    var k :| 0 <= k < |a| && a[k] == x;
  }

  /** Two strictly sorted sequences with the same elements are the same sequence. */
  lemma {:induction false} SortedUnique<T(!new)>(a: seq<T>, b: seq<T>, lt: (T, T) -> bool)
    requires Irreflexive(lt) && Transitive(lt)
    requires StrictlySorted(a, lt) && StrictlySorted(b, lt)
    requires forall x :: x in a <==> x in b
    ensures a == b
  {
    assert |b| == 0 || b[0] in b;
    if a != [] {
      assert a[0] in a;
      HeadIsLeast(a, b[0], lt);
      HeadIsLeast(b, a[0], lt);
      assert a[0] == b[0];
      TailElements(a, b, lt);
      TailElements(b, a, lt);
      SortedUnique(a[1..], b[1..], lt);
      assert a == [a[0]] + a[1..] && b == [b[0]] + b[1..];
    }
  }

  lemma TailElements<T(!new)>(a: seq<T>, b: seq<T>, lt: (T, T) -> bool)
    requires Irreflexive(lt) && StrictlySorted(a, lt)
    requires a != [] && b != [] && a[0] == b[0]
    requires forall x :: x in a ==> x in b
    ensures forall x :: x in a[1..] ==> x in b[1..]
  {
    forall x | x in a[1..] ensures x in b[1..] {
      var k :| 0 <= k < |a[1..]| && a[1..][k] == x;
      assert a[k + 1] == x && lt(a[0], x);
      assert x in a;
      assert b == [b[0]] + b[1..];
    }
  }
}
