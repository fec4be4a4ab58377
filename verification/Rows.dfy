/** Tables as sequences of rows in id order. */
module Rows {

  ghost predicate Ascending<T>(id: T -> int, rows: seq<T>) {
    forall i, j :: 0 <= i < j < |rows| ==> id(rows[i]) < id(rows[j])
  }

  lemma SameRow<T>(id: T -> int, rows: seq<T>, i: nat, j: nat)
    requires Ascending(id, rows) && i < |rows| && j < |rows| && id(rows[i]) == id(rows[j])
    ensures i == j
  {
  }

  /** DELETE FROM ... WHERE id IN dead. */
  function Drop<T>(id: T -> int, rows: seq<T>, dead: set<int>): seq<T> {
    if rows == [] then []
    else
      var front, last := Drop(id, rows[..|rows| - 1], dead), rows[|rows| - 1];
      if id(last) in dead then front else front + [last]
  }

  lemma {:induction false} DropMembers<T(!new)>(id: T -> int, rows: seq<T>, dead: set<int>)
    ensures forall r :: r in Drop(id, rows, dead) <==> r in rows && id(r) !in dead
  {
    if rows != [] {
      var front, last := rows[..|rows| - 1], rows[|rows| - 1];
      DropMembers(id, front, dead);
      assert rows == front + [last];
    }
  }

  lemma {:induction false} DropAscends<T(!new)>(id: T -> int, rows: seq<T>, dead: set<int>)
    requires Ascending(id, rows)
    ensures Ascending(id, Drop(id, rows, dead))
  {
    if rows != [] {
      var front, last := rows[..|rows| - 1], rows[|rows| - 1];
      DropAscends(id, front, dead);
      DropMembers(id, front, dead);
      var kept := Drop(id, front, dead);
      forall i | 0 <= i < |kept| ensures id(kept[i]) < id(last) {
        assert kept[i] in kept;
        var j :| 0 <= j < |front| && front[j] == kept[i];
        assert rows[j] == kept[i];
      }
    }
  }

  lemma DropExact<T(!new)>(id: T -> int, rows: seq<T>, dead: set<int>)
    requires Ascending(id, rows)
    ensures forall r :: r in Drop(id, rows, dead) <==> r in rows && id(r) !in dead
    ensures Ascending(id, Drop(id, rows, dead))
  {
    DropMembers(id, rows, dead);
    DropAscends(id, rows, dead);
  }

  lemma {:induction false} DropConcat<T>(id: T -> int, a: seq<T>, b: seq<T>, dead: set<int>)
    ensures Drop(id, a + b, dead) == Drop(id, a, dead) + Drop(id, b, dead)
  {
    if b == [] {
      assert a + b == a;
    } else {
      DropConcat(id, a, b[..|b| - 1], dead);
      assert (a + b)[..|a + b| - 1] == a + b[..|b| - 1];
    }
  }

  /** Only which of the rows' own ids are dead matters. */
  lemma {:induction false} DropSame<T>(id: T -> int, rows: seq<T>, dead: set<int>, dead': set<int>)
    requires forall i :: 0 <= i < |rows| ==> (id(rows[i]) in dead <==> id(rows[i]) in dead')
    ensures Drop(id, rows, dead) == Drop(id, rows, dead')
  {
    if rows != [] {
      DropSame(id, rows[..|rows| - 1], dead, dead');
    }
  }

  lemma {:induction false} DropAll<T>(id: T -> int, rows: seq<T>, dead: set<int>)
    requires forall i :: 0 <= i < |rows| ==> id(rows[i]) in dead
    ensures Drop(id, rows, dead) == []
  {
    if rows != [] {
      DropAll(id, rows[..|rows| - 1], dead);
    }
  }

  lemma {:induction false} DropNone<T>(id: T -> int, rows: seq<T>, dead: set<int>)
    requires forall i :: 0 <= i < |rows| ==> id(rows[i]) !in dead
    ensures Drop(id, rows, dead) == rows
  {
    if rows != [] {
      DropNone(id, rows[..|rows| - 1], dead);
    }
  }
}
