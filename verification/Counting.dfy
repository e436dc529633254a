/** Table queries: counting, selecting and deleting the rows that satisfy a condition. */
module Counting {
  import opened Options

  function Count<T>(rows: seq<T>, p: T -> bool): nat {
    if rows == [] then 0 else (if p(rows[0]) then 1 else 0) + Count(rows[1..], p)
  }

  function Filter<T>(rows: seq<T>, p: T -> bool): seq<T> {
    if rows == [] then [] else (if p(rows[0]) then [rows[0]] else []) + Filter(rows[1..], p)
  }

  /** The first matching row, as `findOne` returns it. */
  function First<T>(rows: seq<T>, p: T -> bool): Option<T> {
    if rows == [] then None else if p(rows[0]) then Some(rows[0]) else First(rows[1..], p)
  }

  /** The table after deleting the row that `First` finds. */
  function RemoveFirst<T>(rows: seq<T>, p: T -> bool): seq<T> {
    if rows == [] then [] else if p(rows[0]) then rows[1..] else [rows[0]] + RemoveFirst(rows[1..], p)
  }

  function Not<T>(p: T -> bool): T -> bool {
    x => !p(x)
  }

  function Both<T>(p: T -> bool, q: T -> bool): T -> bool {
    x => p(x) && q(x)
  }

  lemma {:induction false} CountConcat<T>(a: seq<T>, b: seq<T>, p: T -> bool)
    ensures Count(a + b, p) == Count(a, p) + Count(b, p)
  {
    if a == [] {
      assert a + b == b;
    } else {
      assert (a + b)[1..] == a[1..] + b;
      CountConcat(a[1..], b, p);
    }
  }

  lemma CountAppend<T>(rows: seq<T>, x: T, p: T -> bool)
    ensures Count(rows + [x], p) == Count(rows, p) + if p(x) then 1 else 0
  {
    CountConcat(rows, [x], p);
  }

  lemma {:induction false} CountPositive<T>(rows: seq<T>, p: T -> bool)
    ensures Count(rows, p) > 0 <==> exists x :: x in rows && p(x)
  {
    if rows != [] {
      CountPositive(rows[1..], p);
      assert rows == [rows[0]] + rows[1..];
    }
  }

  lemma {:induction false} CountSame<T>(rows: seq<T>, p: T -> bool, q: T -> bool)
    requires forall x :: x in rows ==> p(x) == q(x)
    ensures Count(rows, p) == Count(rows, q)
  {
    if rows != [] {
      CountSame(rows[1..], p, q);
    }
  }

  lemma {:induction false} CountImplies<T>(rows: seq<T>, p: T -> bool, q: T -> bool)
    requires forall x :: x in rows && p(x) ==> q(x)
    ensures Count(rows, p) <= Count(rows, q)
  {
    if rows != [] {
      CountImplies(rows[1..], p, q);
    }
  }

  lemma {:induction false} CountFilter<T>(rows: seq<T>, p: T -> bool, q: T -> bool)
    ensures Count(Filter(rows, p), q) == Count(rows, Both(p, q))
  {
    if rows != [] {
      CountFilter(rows[1..], p, q);
      CountConcat(if p(rows[0]) then [rows[0]] else [], Filter(rows[1..], p), q);
    }
  }

  /** Deleting the rows that satisfy p takes exactly those off every other count. */
  lemma {:induction false} CountSplit<T>(rows: seq<T>, p: T -> bool, q: T -> bool)
    ensures Count(rows, q) == Count(Filter(rows, Not(p)), q) + Count(rows, Both(p, q))
  {
    CountFilter(rows, Not(p), q);
    if rows != [] {
      CountSplit(rows[1..], p, q);
      CountFilter(rows[1..], Not(p), q);
    }
  }

  lemma {:induction false} FilterMembers<T>(rows: seq<T>, p: T -> bool)
    ensures forall x :: x in Filter(rows, p) <==> x in rows && p(x)
  {
    if rows != [] {
      FilterMembers(rows[1..], p);
      assert rows == [rows[0]] + rows[1..];
    }
  }

  lemma {:induction false} FilterAll<T>(rows: seq<T>, p: T -> bool)
    requires forall x :: x in rows ==> p(x)
    ensures Filter(rows, p) == rows
  {
    if rows != [] {
      FilterAll(rows[1..], p);
    }
  }

  lemma {:induction false} FirstFound<T>(rows: seq<T>, p: T -> bool)
    ensures First(rows, p).Some? <==> Count(rows, p) > 0
    ensures First(rows, p).Some? ==> First(rows, p).value in rows && p(First(rows, p).value)
  {
    if rows != [] {
      FirstFound(rows[1..], p);
    }
  }

  lemma {:induction false} CountRemoveFirst<T>(rows: seq<T>, p: T -> bool, q: T -> bool)
    requires First(rows, p).Some?
    ensures Count(rows, q) == Count(RemoveFirst(rows, p), q) + if q(First(rows, p).value) then 1 else 0
  {
    if !p(rows[0]) {
      CountRemoveFirst(rows[1..], p, q);
      CountConcat([rows[0]], RemoveFirst(rows[1..], p), q);
    }
  }

  lemma {:induction false} RemoveFirstMembers<T>(rows: seq<T>, p: T -> bool)
    ensures forall x :: x in RemoveFirst(rows, p) ==> x in rows
    ensures forall x :: x in rows && !p(x) ==> x in RemoveFirst(rows, p)
  {
    if rows != [] && !p(rows[0]) {
      RemoveFirstMembers(rows[1..], p);
    }
  }

  /** Deleting one of the rows about to be deleted makes no difference. */
  lemma {:induction false} FilterRemoveFirst<T>(rows: seq<T>, one: T -> bool, all: T -> bool)
    requires forall x :: x in rows && one(x) ==> all(x)
    ensures Filter(RemoveFirst(rows, one), Not(all)) == Filter(rows, Not(all))
  {
    if rows != [] && !one(rows[0]) {
      FilterRemoveFirst(rows[1..], one, all);
      assert ([rows[0]] + RemoveFirst(rows[1..], one))[1..] == RemoveFirst(rows[1..], one);
    }
  }

  /** Appending a row and deleting the first match gives the table back, when nothing matched before. */
  lemma {:induction false} RemoveAppended<T>(rows: seq<T>, x: T, p: T -> bool)
    requires Count(rows, p) == 0 && p(x)
    ensures First(rows + [x], p) == Some(x)
    ensures RemoveFirst(rows + [x], p) == rows
  {
    if rows == [] {
      assert rows + [x] == [x];
    } else {
      assert (rows + [x])[1..] == rows[1..] + [x];
      RemoveAppended(rows[1..], x, p);
    }
  }

  function RemoveAt<T>(rows: seq<T>, i: nat): seq<T>
    requires i < |rows|
  {
    rows[..i] + rows[i + 1..]
  }

  lemma {:induction false} CountRemoveAt<T>(rows: seq<T>, i: nat, p: T -> bool)
    requires i < |rows|
    ensures Count(RemoveAt(rows, i), p) == Count(rows, p) - if p(rows[i]) then 1 else 0
  {
    if i == 0 {
      assert RemoveAt(rows, i) == rows[1..];
    } else {
      CountRemoveAt(rows[1..], i - 1, p);
      assert RemoveAt(rows, i)[0] == rows[0];
      assert RemoveAt(rows, i)[1..] == RemoveAt(rows[1..], i - 1);
    }
  }
}
