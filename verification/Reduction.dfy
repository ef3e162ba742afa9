// Reductions: one value per place from each of several producers.
module Reduction {

  // The values of place j, combined from the left.
  function Fold<T>(op: (T, T) -> T, init: T, rows: seq<seq<T>>, j: nat): T {
    if rows == [] then init
    else
      var last := rows[|rows| - 1];
      if j < |last| then op(Fold(op, init, rows[..|rows| - 1], j), last[j]) else Fold(op, init, rows[..|rows| - 1], j)
  }

  ghost predicate Rectangular<T>(rows: seq<seq<T>>, du: nat) {
    forall i :: 0 <= i < |rows| ==> |rows[i]| == du
  }

  lemma FoldNext<T>(op: (T, T) -> T, init: T, rows: seq<seq<T>>, i: nat, j: nat)
    requires i < |rows| && j < |rows[i]|
    ensures Fold(op, init, rows[..i + 1], j) == op(Fold(op, init, rows[..i], j), rows[i][j])
  {
    assert rows[..i + 1][..i] == rows[..i];
  }

  // One more producer's value is combined with what the others before it come to.
  lemma FoldGrows<T>(op: (T, T) -> T, init: T, rows: seq<seq<T>>, row: seq<T>, j: nat)
    requires j < |row|
    ensures Fold(op, init, [], j) == init
    ensures Fold(op, init, rows + [row], j) == op(Fold(op, init, rows, j), row[j])
  {
    assert (rows + [row])[..|rows + [row]| - 1] == rows;
  }

  // One producer's row is combined into the stretch of memory that starts at `at`.
  method Combine<T>(op: (T, T) -> T, local: array<T>, at: nat, row: seq<T>)
    requires at + |row| <= local.Length
    modifies local
    ensures forall x :: 0 <= x < local.Length ==>
      local[x] == if at <= x < at + |row| then op(old(local[x]), row[x - at]) else old(local[x])
  {
    for j := 0 to |row|
      invariant forall x :: 0 <= x < local.Length ==>
        local[x] == if at <= x < at + j then op(old(local[x]), row[x - at]) else old(local[x])
    {
      local[at + j] := op(local[at + j], row[j]);
    }
  }

  // Sum and product: every place starts with the unit.
  method Reduce<T>(op: (T, T) -> T, unit: T, rows: seq<seq<T>>, du: nat, local: array<T>)
    requires Rectangular(rows, du) && local.Length == du
    modifies local
    ensures forall j :: 0 <= j < du ==> local[j] == Fold(op, unit, rows, j)
  {
    for j := 0 to du
      invariant forall k :: 0 <= k < j ==> local[k] == unit
    {
      local[j] := unit;
    }
    for i := 0 to |rows|
      invariant forall j :: 0 <= j < du ==> local[j] == Fold(op, unit, rows[..i], j)
    {
      ghost var before := local[..];
      Combine(op, local, 0, rows[i]);
      forall j | 0 <= j < du ensures local[j] == Fold(op, unit, rows[..i + 1], j) {
        FoldNext(op, unit, rows, i, j);
        assert local[j] == op(before[j], rows[i][j]);
      }
    }
    assert rows[..|rows|] == rows;
  }

  // Minimum and maximum: every place starts with the first producer's value.
  method ReduceFromFirst<T>(op: (T, T) -> T, rows: seq<seq<T>>, du: nat, local: array<T>)
    requires rows != [] && Rectangular(rows, du) && local.Length == du
    modifies local
    ensures forall j :: 0 <= j < du ==> local[j] == Fold(op, rows[0][j], rows[1..], j)
  {
    for j := 0 to du
      invariant forall k :: 0 <= k < j ==> local[k] == rows[0][k]
    {
      local[j] := rows[0][j];
    }
    ghost var rest := rows[1..];
    for i := 1 to |rows|
      invariant forall j :: 0 <= j < du ==> local[j] == Fold(op, rows[0][j], rest[..i - 1], j)
    {
      ghost var before := local[..];
      Combine(op, local, 0, rows[i]);
      ghost var more := rest[..i];
      forall j | 0 <= j < du ensures local[j] == Fold(op, rows[0][j], more, j) {
        FoldNext(op, rows[0][j], rest, i - 1, j);
        assert local[j] == op(before[j], rows[i][j]);
      }
    }
    assert rest[..|rows| - 1] == rest;
  }

  function Min(a: int, b: int): int { if b < a then b else a }

  function Max(a: int, b: int): int { if b > a then b else a }

  // The first row is the starting point; the second half is a copy of it that
  // the maxima go into.
  method MinMax(rows: seq<seq<int>>, du: nat, local: array<int>)
    requires rows != [] && Rectangular(rows, du) && local.Length == 2 * du
    modifies local
    ensures forall j :: 0 <= j < du ==> IsLeast(rows, j, local[j]) && IsGreatest(rows, j, local[du + j])
  {
    for j := 0 to du
      invariant forall k :: 0 <= k < j ==> local[k] == rows[0][k] && local[du + k] == rows[0][k]
    {
      local[j] := rows[0][j];
      local[du + j] := local[j];
    }
    for i := 1 to |rows|
      invariant forall j :: 0 <= j < du ==> IsLeast(rows[..i], j, local[j]) && IsGreatest(rows[..i], j, local[du + j])
    {
      ghost var before := local[..];
      Combine((a, b) => Min(a, b), local, 0, rows[i]);
      Combine((a, b) => Max(a, b), local, du, rows[i]);
      ghost var more := rows[..i + 1];
      forall j | 0 <= j < du ensures IsLeast(more, j, local[j]) && IsGreatest(more, j, local[du + j]) {
        assert local[j] == Min(before[j], rows[i][j]) && local[du + j] == Max(before[du + j], rows[i][j]);
        LeastNext(rows, i, j, before[j]);
        GreatestNext(rows, i, j, before[du + j]);
      }
    }
    assert rows[..|rows|] == rows;
  }

  // The least value of a place is below all producers' and is one of them.
  ghost predicate IsLeast(rows: seq<seq<int>>, j: nat, v: int) {
    && (forall i :: 0 <= i < |rows| ==> j < |rows[i]| && v <= rows[i][j])
    && (exists i :: 0 <= i < |rows| && j < |rows[i]| && v == rows[i][j])
  }

  ghost predicate IsGreatest(rows: seq<seq<int>>, j: nat, v: int) {
    && (forall i :: 0 <= i < |rows| ==> j < |rows[i]| && v >= rows[i][j])
    && (exists i :: 0 <= i < |rows| && j < |rows[i]| && v == rows[i][j])
  }

  lemma LeastIs(rows: seq<seq<int>>, j: nat, v: int)
    ensures IsLeast(rows, j, v) <==>
      && (forall row :: row in rows ==> j < |row| && v <= row[j])
      && (exists row :: row in rows && j < |row| && v == row[j])
    ensures IsGreatest(rows, j, v) <==>
      && (forall row :: row in rows ==> j < |row| && v >= row[j])
      && (exists row :: row in rows && j < |row| && v == row[j])
  {
    if IsLeast(rows, j, v) || IsGreatest(rows, j, v) {
      var i :| 0 <= i < |rows| && j < |rows[i]| && v == rows[i][j];
      assert rows[i] in rows;
    }
    if exists row :: row in rows && j < |row| && v == row[j] {
      var row :| row in rows && j < |row| && v == row[j];
      var i :| 0 <= i < |rows| && rows[i] == row;
      assert j < |rows[i]| && v == rows[i][j];
    }
  }

  lemma LeastNext(rows: seq<seq<int>>, i: nat, j: nat, v: int)
    requires i < |rows| && IsLeast(rows[..i], j, v) && j < |rows[i]|
    ensures IsLeast(rows[..i + 1], j, Min(v, rows[i][j]))
  {
    var k :| 0 <= k < i && j < |rows[..i][k]| && v == rows[..i][k][j];
    assert rows[..i + 1][k] == rows[..i][k] && rows[..i + 1][i] == rows[i];
    forall x | 0 <= x < i ensures rows[..i + 1][x] == rows[..i][x] {
    }
  }

  lemma GreatestNext(rows: seq<seq<int>>, i: nat, j: nat, v: int)
    requires i < |rows| && IsGreatest(rows[..i], j, v) && j < |rows[i]|
    ensures IsGreatest(rows[..i + 1], j, Max(v, rows[i][j]))
  {
    var k :| 0 <= k < i && j < |rows[..i][k]| && v == rows[..i][k][j];
    assert rows[..i + 1][k] == rows[..i][k] && rows[..i + 1][i] == rows[i];
    forall x | 0 <= x < i ensures rows[..i + 1][x] == rows[..i][x] {
    }
  }
}
