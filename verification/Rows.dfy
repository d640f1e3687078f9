/** A table with a unique index on one column: what inserting several rows at once does to it. */
module Rows {

  predicate UniqueBy<T, K(==)>(rows: seq<T>, key: T -> K) {
    forall i, j | 0 <= i < j < |rows| :: key(rows[i]) != key(rows[j])
  }

  predicate Taken<T, K(==)>(rows: seq<T>, key: T -> K, k: K) {
    exists i | 0 <= i < |rows| :: key(rows[i]) == k
  }

  /** The column of the key. */
  function Project<T, K>(rows: seq<T>, key: T -> K): (r: seq<K>)
    ensures |r| == |rows|
    ensures forall i | 0 <= i < |r| :: r[i] == key(rows[i])
  {
    seq(|rows|, i requires 0 <= i < |rows| => key(rows[i]))
  }

  lemma NextInsert<T, K>(rows: seq<T>, x: T, rest: seq<T>, key: T -> K)
    requires UniqueBy(rows, key)
    ensures Taken(rows, key, key(x)) ==> !UniqueBy(rows + ([x] + rest), key)
    ensures !Taken(rows, key, key(x)) ==> UniqueBy(rows + [x], key)
  {
    var all := rows + ([x] + rest);
    if Taken(rows, key, key(x)) {
      var i :| 0 <= i < |rows| && key(rows[i]) == key(x);
      assert all[i] == rows[i] && all[|rows|] == x;
    }
  }

  /** Inserts the rows one by one; a key that is taken undoes the whole insert. */
  method InsertAll<T, K(==)>(rows: seq<T>, added: seq<T>, key: T -> K) returns (stored: bool, rows': seq<T>)
    requires UniqueBy(rows, key)
    ensures stored <==> UniqueBy(rows + added, key)
    ensures rows' == if stored then rows + added else rows
  {
    rows' := rows;
    var i := 0;
    while i < |added|
      invariant 0 <= i <= |added|
      invariant UniqueBy(rows', key) && rows' == rows + added[..i]
    {
      NextInsert(rows', added[i], added[i + 1..], key);
      assert rows' + ([added[i]] + added[i + 1..]) == rows + added;
      if Taken(rows', key, key(added[i])) {
        return false, rows;
      }
      rows' := rows' + [added[i]];
      i := i + 1;
    }
    assert added[..i] == added;
    stored := true;
  }

  /** New rows fit a unique column exactly when their keys are neither stored nor repeated. */
  lemma FitsIff<T, K>(rows: seq<T>, added: seq<T>, key: T -> K)
    requires UniqueBy(rows, key)
    ensures UniqueBy(rows + added, key) <==>
              UniqueBy(added, key) && forall j | 0 <= j < |added| :: !Taken(rows, key, key(added[j]))
  {
    var all := rows + added;
    if UniqueBy(all, key) {
      forall i, j | 0 <= i < j < |added| ensures key(added[i]) != key(added[j]) {
        assert all[|rows| + i] == added[i] && all[|rows| + j] == added[j];
      }
      forall j | 0 <= j < |added| ensures !Taken(rows, key, key(added[j])) {
        assert all[|rows| + j] == added[j];
        assert forall i | 0 <= i < |rows| :: all[i] == rows[i];
      }
    }
  }

  lemma TakenConcat<T, K>(rows: seq<T>, added: seq<T>, key: T -> K, k: K)
    ensures Taken(rows + added, key, k) <==> Taken(rows, key, k) || Taken(added, key, k)
  {
    var all := rows + added;
    if Taken(rows, key, k) {
      var i :| 0 <= i < |rows| && key(rows[i]) == k;
      assert all[i] == rows[i];
    }
    if Taken(added, key, k) {
      var i :| 0 <= i < |added| && key(added[i]) == k;
      assert all[|rows| + i] == added[i];
    }
  }
}
