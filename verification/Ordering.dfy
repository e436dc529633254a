/** ORDER BY one integer key, ascending. */
module Ordering {
  import opened Counting

  function Insert<T>(x: T, rows: seq<T>, key: T -> int): seq<T> {
    if rows == [] || key(x) <= key(rows[0]) then [x] + rows else [rows[0]] + Insert(x, rows[1..], key)
  }

  function OrderBy<T>(rows: seq<T>, key: T -> int): seq<T> {
    if rows == [] then [] else Insert(rows[0], OrderBy(rows[1..], key), key)
  }

  ghost predicate SortedBy<T>(rows: seq<T>, key: T -> int) {
    forall i, j :: 0 <= i < j < |rows| ==> key(rows[i]) <= key(rows[j])
  }

  lemma {:induction false} InsertMembers<T>(x: T, rows: seq<T>, key: T -> int)
    ensures |Insert(x, rows, key)| == |rows| + 1
    ensures forall y | y in Insert(x, rows, key) :: y == x || y in rows
    ensures forall y | y == x || y in rows :: y in Insert(x, rows, key)
  {
    if rows != [] && key(x) > key(rows[0]) {
      InsertMembers(x, rows[1..], key);
    }
  }

  lemma {:induction false} InsertSorted<T>(x: T, rows: seq<T>, key: T -> int)
    requires SortedBy(rows, key)
    ensures SortedBy(Insert(x, rows, key), key)
  {
    if rows != [] && key(x) > key(rows[0]) {
      InsertSorted(x, rows[1..], key);
      InsertMembers(x, rows[1..], key);
      var more := Insert(x, rows[1..], key);
      forall y | y in more ensures key(rows[0]) <= key(y) {
        if y in rows[1..] {
          var i :| 0 <= i < |rows[1..]| && rows[1..][i] == y;
          assert rows[i + 1] == y;
        }
      }
    }
  }

  /** A sorted arrangement of the same rows. */
  lemma {:induction false} Ordered<T>(rows: seq<T>, key: T -> int)
    ensures SortedBy(OrderBy(rows, key), key) && |OrderBy(rows, key)| == |rows|
    ensures forall y | y in OrderBy(rows, key) :: y in rows
    ensures forall y | y in rows :: y in OrderBy(rows, key)
  {
    if rows != [] {
      Ordered(rows[1..], key);
      InsertSorted(rows[0], OrderBy(rows[1..], key), key);
      InsertMembers(rows[0], OrderBy(rows[1..], key), key);
    }
  }

  lemma {:induction false} AlreadySorted<T>(rows: seq<T>, key: T -> int)
    requires SortedBy(rows, key)
    ensures OrderBy(rows, key) == rows
  {
    if rows != [] {
      AlreadySorted(rows[1..], key);
      assert rows == [rows[0]] + rows[1..];
    }
  }

  ghost predicate StrictBy<T>(rows: seq<T>, key: T -> int) {
    forall i, j :: 0 <= i < j < |rows| ==> key(rows[i]) < key(rows[j])
  }

  /** With different keys the order is strict. */
  lemma {:induction false} OrderedStrict<T>(rows: seq<T>, key: T -> int)
    requires forall i, j :: 0 <= i < j < |rows| ==> key(rows[i]) != key(rows[j])
    ensures StrictBy(OrderBy(rows, key), key)
  {
    if rows != [] {
      var rest := OrderBy(rows[1..], key);
      OrderedStrict(rows[1..], key);
      Ordered(rows[1..], key);
      forall y | y in rest ensures key(y) != key(rows[0]) {
        var i :| 0 <= i < |rows[1..]| && rows[1..][i] == y;
        assert rows[i + 1] == y;
      }
      InsertStrict(rows[0], rest, key);
    }
  }

  lemma {:induction false} InsertStrict<T>(x: T, rows: seq<T>, key: T -> int)
    requires StrictBy(rows, key) && forall y :: y in rows ==> key(y) != key(x)
    ensures StrictBy(Insert(x, rows, key), key)
  {
    if rows != [] {
      assert rows[0] in rows;
      if key(x) > key(rows[0]) {
        InsertStrict(x, rows[1..], key);
        InsertMembers(x, rows[1..], key);
        var more := Insert(x, rows[1..], key);
        forall y | y in more ensures key(rows[0]) < key(y) {
          if y in rows[1..] {
            var i :| 0 <= i < |rows[1..]| && rows[1..][i] == y;
            assert rows[i + 1] == y;
          }
        }
      }
    }
  }

  lemma {:induction false} InsertCount<T>(x: T, rows: seq<T>, key: T -> int, p: T -> bool)
    ensures Count(Insert(x, rows, key), p) == Count(rows, p) + if p(x) then 1 else 0
  {
    if rows != [] && key(x) > key(rows[0]) {
      InsertCount(x, rows[1..], key, p);
    }
  }

  /** Ordering changes no count. */
  lemma {:induction false} OrderCount<T>(rows: seq<T>, key: T -> int, p: T -> bool)
    ensures Count(OrderBy(rows, key), p) == Count(rows, p)
  {
    if rows != [] {
      OrderCount(rows[1..], key, p);
      InsertCount(rows[0], OrderBy(rows[1..], key), key, p);
    }
  }

  /** A row's place is the number of rows before it in the order. */
  lemma {:induction false} PlaceIsCount<T>(rows: seq<T>, key: T -> int, i: nat, p: T -> bool)
    requires StrictBy(rows, key) && i < |rows|
    requires forall x :: x in rows ==> (p(x) <==> key(x) < key(rows[i]))
    ensures Count(rows, p) == i
  {
    if i == 0 {
      CountPositive(rows, p);
    } else {
      PlaceIsCount(rows[1..], key, i - 1, p);
    }
  }
}
