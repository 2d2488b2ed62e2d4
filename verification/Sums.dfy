/**
 * SQL aggregates over a table, modelled as a sequence of rows, together with the two facts the
 * accounting proofs need: a sum does not depend on the order of the rows, and summing the
 * groups of a GROUP BY gives the sum of the whole table.
 */
module Sums {

  /** SUM(value) over all rows, 0 for an empty table (COALESCE). */
  function Total<R>(rows: seq<R>, value: R -> int): int {
    if rows == [] then 0 else Total(rows[..|rows| - 1], value) + value(rows[|rows| - 1])
  }

  /** SUM(value) over the rows whose key is `k`. */
  function Group<R, K(==)>(rows: seq<R>, key: R -> K, value: R -> int, k: K): int {
    if rows == [] then 0
    else
      var last := rows[|rows| - 1];
      Group(rows[..|rows| - 1], key, value, k) + if key(last) == k then value(last) else 0
  }

  /** The sum of the group sums over the keys in `keys`. */
  ghost function GroupsTotal<R, K>(keys: set<K>, rows: seq<R>, key: R -> K, value: R -> int): int {
    if keys == {} then 0
    else
      var k :| k in keys;
      Group(rows, key, value, k) + GroupsTotal(keys - {k}, rows, key, value)
  }

  lemma TotalAppend<R>(rows: seq<R>, row: R, value: R -> int)
    ensures Total(rows + [row], value) == Total(rows, value) + value(row)
  {
    assert (rows + [row])[..|rows|] == rows;
  }

  lemma GroupAppend<R, K>(rows: seq<R>, row: R, key: R -> K, value: R -> int, k: K)
    ensures Group(rows + [row], key, value, k)
         == Group(rows, key, value, k) + if key(row) == k then value(row) else 0
  {
    assert (rows + [row])[..|rows|] == rows;
  }

  lemma {:induction false} TotalUpdate<R>(rows: seq<R>, i: nat, row: R, value: R -> int)
    requires i < |rows|
    ensures Total(rows[i := row], value) == Total(rows, value) - value(rows[i]) + value(row)
  {
    var n := |rows| - 1;
    if i == n {
      assert rows[i := row][..n] == rows[..n];
    } else {
      TotalUpdate(rows[..n], i, row, value);
      assert rows[i := row][..n] == rows[..n][i := row];
    }
  }

  lemma {:induction false} GroupUpdate<R, K>(rows: seq<R>, i: nat, row: R, key: R -> K, value: R -> int, k: K)
    requires i < |rows|
    ensures Group(rows[i := row], key, value, k)
         == Group(rows, key, value, k)
            - (if key(rows[i]) == k then value(rows[i]) else 0)
            + if key(row) == k then value(row) else 0
  {
    var n := |rows| - 1;
    if i == n {
      assert rows[i := row][..n] == rows[..n];
    } else {
      GroupUpdate(rows[..n], i, row, key, value, k);
      assert rows[i := row][..n] == rows[..n][i := row];
    }
  }

  /** Dropping row `i` takes exactly its value out of its own group. */
  lemma {:induction false} GroupRemove<R, K>(rows: seq<R>, i: nat, key: R -> K, value: R -> int, k: K)
    requires i < |rows|
    ensures Group(rows[..i] + rows[i + 1..], key, value, k)
         == Group(rows, key, value, k) - if key(rows[i]) == k then value(rows[i]) else 0
  {
    var front, last := rows[..|rows| - 1], rows[|rows| - 1];
    if i == |front| {
      assert rows[..i] + rows[i + 1..] == front;
    } else {
      GroupRemove(front, i, key, value, k);
      assert rows[..i] + rows[i + 1..] == (front[..i] + front[i + 1..]) + [last];
      GroupAppend(front[..i] + front[i + 1..], last, key, value, k);
    }
  }

  /** A group with non-negative values is at least any one of its rows. */
  lemma {:induction false} GroupAtLeast<R, K>(rows: seq<R>, i: nat, key: R -> K, value: R -> int)
    requires i < |rows|
    requires forall r :: r in rows ==> value(r) >= 0
    ensures Group(rows, key, value, key(rows[i])) >= value(rows[i])
  {
    GroupNonNegative(rows[..i] + rows[i + 1..], key, value, key(rows[i]));
    GroupRemove(rows, i, key, value, key(rows[i]));
  }

  lemma {:induction false} GroupNonNegative<R, K>(rows: seq<R>, key: R -> K, value: R -> int, k: K)
    requires forall r :: r in rows ==> value(r) >= 0
    ensures Group(rows, key, value, k) >= 0
  {
    if rows != [] {
      GroupNonNegative(rows[..|rows| - 1], key, value, k);
    }
  }

  /** A positive group sum comes from some row of that group with a positive value. */
  lemma {:induction false} PositiveGroupHasRow<R, K>(rows: seq<R>, key: R -> K, value: R -> int, k: K)
    requires Group(rows, key, value, k) > 0
    ensures exists r :: r in rows && key(r) == k && value(r) > 0
  {
    var last := rows[|rows| - 1];
    if key(last) == k && value(last) > 0 {
      assert last in rows;
    } else {
      PositiveGroupHasRow(rows[..|rows| - 1], key, value, k);
    }
  }

  lemma MultisetRemove<R>(rows: seq<R>, i: nat)
    requires i < |rows|
    ensures multiset(rows[..i] + rows[i + 1..]) == multiset(rows) - multiset{rows[i]}
  {
    assert rows == rows[..i] + [rows[i]] + rows[i + 1..];
  }

  lemma SameLength<R>(rows: seq<R>, other: seq<R>)
    requires multiset(rows) == multiset(other)
    ensures |rows| == |other|
    ensures forall r :: r in rows <==> r in other
  {
    assert |rows| == |multiset(rows)| == |multiset(other)| == |other|;
    forall r
      ensures r in rows <==> r in other
    {
      assert (r in rows <==> r in multiset(rows)) && (r in other <==> r in multiset(other));
    }
  }

  /** Group sums do not depend on the order in which the rows were inserted. */
  lemma {:induction false} GroupPermutation<R, K>(rows: seq<R>, other: seq<R>, key: R -> K, value: R -> int, k: K)
    requires multiset(rows) == multiset(other)
    ensures Group(rows, key, value, k) == Group(other, key, value, k)
    decreases |rows|
  {
    SameLength(rows, other);
    if rows != [] {
      var n := |rows| - 1;
      assert rows[n] in other;
      var i :| 0 <= i < |other| && other[i] == rows[n];
      MultisetRemove(rows, n);
      MultisetRemove(other, i);
      assert rows[..n] + rows[n + 1..] == rows[..n];
      GroupPermutation(rows[..n], other[..i] + other[i + 1..], key, value, k);
      GroupRemove(other, i, key, value, k);
    }
  }

  lemma {:induction false} GroupsTotalPick<R, K>(keys: set<K>, k: K, rows: seq<R>, key: R -> K, value: R -> int)
    requires k in keys
    ensures GroupsTotal(keys, rows, key, value)
         == Group(rows, key, value, k) + GroupsTotal(keys - {k}, rows, key, value)
    decreases keys
  {
    var pick :| pick in keys && GroupsTotal(keys, rows, key, value)
                                == Group(rows, key, value, pick) + GroupsTotal(keys - {pick}, rows, key, value);
    if pick != k {
      GroupsTotalPick(keys - {pick}, k, rows, key, value);
      GroupsTotalPick(keys - {k}, pick, rows, key, value);
      assert keys - {pick} - {k} == keys - {k} - {pick};
    }
  }

  lemma {:induction false} GroupsTotalAppend<R, K>(keys: set<K>, rows: seq<R>, row: R, key: R -> K, value: R -> int)
    ensures GroupsTotal(keys, rows + [row], key, value)
         == GroupsTotal(keys, rows, key, value) + if key(row) in keys then value(row) else 0
    decreases keys
  {
    if keys != {} {
      var k :| k in keys;
      GroupsTotalPick(keys, k, rows + [row], key, value);
      GroupsTotalPick(keys, k, rows, key, value);
      GroupAppend(rows, row, key, value, k);
      GroupsTotalAppend(keys - {k}, rows, row, key, value);
    }
  }

  /** Exchange of sums: grouping by any key whose values all lie in `keys` loses nothing. */
  lemma {:induction false} Regroup<R, K>(keys: set<K>, rows: seq<R>, key: R -> K, value: R -> int)
    requires forall r :: r in rows ==> key(r) in keys
    ensures GroupsTotal(keys, rows, key, value) == Total(rows, value)
  {
    if rows == [] {
      EmptyGroups(keys, rows, key, value);
    } else {
      var n := |rows| - 1;
      assert rows == rows[..n] + [rows[n]];
      Regroup(keys, rows[..n], key, value);
      GroupsTotalAppend(keys, rows[..n], rows[n], key, value);
    }
  }

  lemma {:induction false} EmptyGroups<R, K>(keys: set<K>, rows: seq<R>, key: R -> K, value: R -> int)
    requires forall k :: k in keys ==> Group(rows, key, value, k) == 0
    ensures GroupsTotal(keys, rows, key, value) == 0
    decreases keys
  {
    if keys != {} {
      var k :| k in keys;
      GroupsTotalPick(keys, k, rows, key, value);
      EmptyGroups(keys - {k}, rows, key, value);
    }
  }
}
