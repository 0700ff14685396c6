/** The two queryset operations the views compose: `.filter(...)`, which keeps
    the rows a condition accepts, and `.order_by('-created_at')`, which lists
    rows newest first. A table is a sequence of rows. */
module Queries {

  /** `queryset.filter(cond)`: the rows of `rows` that satisfy `cond`, each as
      often as it occurs, in their original order. */
  function Filter<T(!new)>(rows: seq<T>, cond: T -> bool): (r: seq<T>)
    ensures |r| <= |rows|
    ensures forall x :: x in r <==> x in rows && cond(x)
    ensures forall x :: multiset(r)[x] == if cond(x) then multiset(rows)[x] else 0
  {
    if rows == [] then []
    else
      var rest := Filter(rows[1..], cond);
      assert rows == [rows[0]] + rows[1..];
      if cond(rows[0]) then [rows[0]] + rest else rest
  }

  /** Filtering twice is filtering once by both conditions. */
  lemma {:induction false} FilterFilter<T(!new)>(rows: seq<T>, c1: T -> bool, c2: T -> bool)
    ensures Filter(Filter(rows, c1), c2) == Filter(rows, x => c1(x) && c2(x))
  {
    if rows != [] {
      FilterFilter(rows[1..], c1, c2);
    }
  }

  /** Every row of `rows` is at least as new as the row after it. */
  predicate NewestFirstOrder<T>(rows: seq<T>, createdAt: T -> int) {
    forall i, j :: 0 <= i < j < |rows| ==> createdAt(rows[i]) >= createdAt(rows[j])
  }

  /** Places `x` in front of the first row that is not newer than it. */
  function Insert<T>(x: T, rows: seq<T>, createdAt: T -> int): (r: seq<T>)
    requires NewestFirstOrder(rows, createdAt)
    ensures NewestFirstOrder(r, createdAt)
    ensures multiset(r) == multiset(rows) + multiset{x}
    ensures r[0] == x || (rows != [] && r[0] == rows[0])
  {
    if rows == [] || createdAt(rows[0]) <= createdAt(x) then
      [x] + rows
    else
      var rest := Insert(x, rows[1..], createdAt);
      assert rows == [rows[0]] + rows[1..];
      assert createdAt(rows[0]) >= createdAt(rest[0]);
      [rows[0]] + rest
  }

  /** `queryset.order_by('-created_at')`: the same rows, newest first. Rows
      with equal timestamps may come in either order, as in the database. */
  function NewestFirst<T>(rows: seq<T>, createdAt: T -> int): (r: seq<T>)
    ensures NewestFirstOrder(r, createdAt)
    ensures multiset(r) == multiset(rows)
  {
    if rows == [] then []
    else
      assert rows == [rows[0]] + rows[1..];
      Insert(rows[0], NewestFirst(rows[1..], createdAt), createdAt)
  }

  /** Filtering an ordered table keeps it ordered, so ordering first and
      filtering after lists the same rows newest first. */
  lemma {:induction false} FilterKeepsOrder<T(!new)>(rows: seq<T>, cond: T -> bool, createdAt: T -> int)
    requires NewestFirstOrder(rows, createdAt)
    ensures NewestFirstOrder(Filter(rows, cond), createdAt)
  {
    if rows != [] {
      var tail := rows[1..];
      OrderedTail(rows, createdAt);
      FilterKeepsOrder(tail, cond, createdAt);
      if cond(rows[0]) {
        var rest := Filter(tail, cond);
        assert Filter(rows, cond) == [rows[0]] + rest;
        forall y | y in rest ensures createdAt(rows[0]) >= createdAt(y) {
          HeadIsNewest(rows, createdAt, y);
        }
        OrderedCons(rows[0], rest, createdAt);
      }
    }
  }

  lemma OrderedTail<T>(rows: seq<T>, createdAt: T -> int)
    requires rows != [] && NewestFirstOrder(rows, createdAt)
    ensures NewestFirstOrder(rows[1..], createdAt)
  {
    var tail := rows[1..];
    forall i, j | 0 <= i < j < |tail| ensures createdAt(tail[i]) >= createdAt(tail[j]) {
      assert tail[i] == rows[i + 1] && tail[j] == rows[j + 1];
    }
  }

  lemma HeadIsNewest<T>(rows: seq<T>, createdAt: T -> int, y: T)
    requires rows != [] && NewestFirstOrder(rows, createdAt) && y in rows[1..]
    ensures createdAt(rows[0]) >= createdAt(y)
  {
    var j :| 0 <= j < |rows[1..]| && rows[1..][j] == y;
    assert rows[j + 1] == y;
  }

  lemma OrderedCons<T>(x: T, rest: seq<T>, createdAt: T -> int)
    requires NewestFirstOrder(rest, createdAt)
    requires forall y :: y in rest ==> createdAt(x) >= createdAt(y)
    ensures NewestFirstOrder([x] + rest, createdAt)
  {
    var r := [x] + rest;
    forall i, j | 0 <= i < j < |r| ensures createdAt(r[i]) >= createdAt(r[j]) {
      assert r[j] == rest[j - 1];
      if i > 0 { assert r[i] == rest[i - 1]; }
    }
  }

  /** Ordering keeps exactly the rows it was given. */
  lemma NewestFirstMembers<T>(rows: seq<T>, createdAt: T -> int, x: T)
    ensures x in NewestFirst(rows, createdAt) <==> x in rows
  {
    var r := NewestFirst(rows, createdAt);
    assert x in r <==> x in multiset(r);
  }
}
