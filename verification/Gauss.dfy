// Gaussian elimination on rows of dim coefficients, the right-hand side and the
// result column y, over any arithmetic: the laws of this module hold for exact
// reals and for rounded machine numbers alike.
module Gauss {

  datatype Arith<!F> = Arith(sub: (F, F) -> F, mul: (F, F) -> F, div: (F, F) -> F, zero: F, one: F)

  type Row<F> = seq<F>

  predicate IsMatrix<F>(m: seq<Row<F>>, dim: nat) {
    |m| == dim && forall r :: 0 <= r < dim ==> |m[r]| == dim + 2
  }

  // Row `row` after eliminating column i with the finished row p.
  function Eliminate<F>(ar: Arith<F>, row: Row<F>, p: Row<F>, i: nat, dim: nat): (e: Row<F>)
    requires i < dim && |row| == dim + 2 && |p| == dim + 2
    ensures |e| == dim + 2
  {
    seq(dim + 2, c requires 0 <= c < dim + 2 =>
      if i < c < dim then ar.sub(row[c], ar.mul(row[i], p[c]))
      else if c == dim then ar.sub(row[dim], ar.mul(row[i], p[dim + 1]))
      else if c == i then ar.zero
      else row[c])
  }

  // Row i divided by its pivot.
  function Divide<F>(ar: Arith<F>, row: Row<F>, i: nat, dim: nat): (e: Row<F>)
    requires i < dim && |row| == dim + 2
    ensures |e| == dim + 2
  {
    seq(dim + 2, c requires 0 <= c < dim + 2 =>
      if i < c < dim then ar.div(row[c], row[i])
      else if c == dim + 1 then ar.div(row[dim], row[i])
      else if c == i then ar.one
      else row[c])
  }

  // Row k once the finished rows 0..i-1 have been eliminated from it, and the
  // finished row i.
  function Reduced<F>(ar: Arith<F>, m: seq<Row<F>>, dim: nat, k: nat, i: nat): (row: Row<F>)
    requires IsMatrix(m, dim) && k < dim && i <= dim
    ensures |row| == dim + 2
    decreases i, 0
  {
    if i == 0 then m[k]
    else Eliminate(ar, Reduced(ar, m, dim, k, i - 1), Finished(ar, m, dim, i - 1), i - 1, dim)
  }

  function Finished<F>(ar: Arith<F>, m: seq<Row<F>>, dim: nat, i: nat): (row: Row<F>)
    requires IsMatrix(m, dim) && i < dim
    ensures |row| == dim + 2
    decreases i, 1
  {
    Divide(ar, Reduced(ar, m, dim, i, i), i, dim)
  }

  // Row k starts as it is and is reduced by one finished row after another; row i is
  // finished by dividing it once all rows before it have been eliminated.
  lemma ReducedGrows<F>(ar: Arith<F>, m: seq<Row<F>>, dim: nat, k: nat, i: nat)
    requires IsMatrix(m, dim) && k < dim && i < dim
    ensures Reduced(ar, m, dim, k, 0) == m[k]
    ensures Reduced(ar, m, dim, k, i + 1)
            == Eliminate(ar, Reduced(ar, m, dim, k, i), Finished(ar, m, dim, i), i, dim)
    ensures Finished(ar, m, dim, i) == Divide(ar, Reduced(ar, m, dim, i, i), i, dim)
  {
  }

  // The matrix in memory.
  function RowOf<F>(a: array2<F>, r: nat): (row: Row<F>)
    requires r < a.Length0
    reads a
    ensures |row| == a.Length1
  {
    seq(a.Length1, c requires 0 <= c < a.Length1 reads a => a[r, c])
  }

  // All rows, as a value.
  function Rows<F>(a: array2<F>): (m: seq<Row<F>>)
    reads a
    ensures |m| == a.Length0 && forall r :: 0 <= r < a.Length0 ==> m[r] == RowOf(a, r)
  {
    seq(a.Length0, r requires 0 <= r < a.Length0 reads a => RowOf(a, r))
  }

  // The inner loop that eliminates column i from row k.
  method EliminateRow<F>(ar: Arith<F>, a: array2<F>, dim: nat, k: nat, i: nat)
    requires a.Length0 == dim && a.Length1 == dim + 2 && i < dim && k < dim && k != i
    modifies a
    ensures Rows(a) == old(Rows(a))[k := Eliminate(ar, old(RowOf(a, k)), old(RowOf(a, i)), i, dim)]
    ensures forall c :: i < c < dim ==> a[k, c] == ar.sub(old(a[k, c]), ar.mul(old(a[k, i]), old(a[i, c])))
    ensures a[k, dim] == ar.sub(old(a[k, dim]), ar.mul(old(a[k, i]), old(a[i, dim + 1]))) && a[k, i] == ar.zero
    ensures forall c :: 0 <= c < i || c == dim + 1 ==> a[k, c] == old(a[k, c])
  {
    ghost var m, row, p := Rows(a), RowOf(a, k), RowOf(a, i);
    for j := i + 1 to dim
      invariant forall r, c :: 0 <= r < dim && r != k && 0 <= c < dim + 2 ==> a[r, c] == m[r][c]
      invariant forall c :: 0 <= c < dim + 2 ==>
        a[k, c] == if i < c < j then ar.sub(row[c], ar.mul(row[i], p[c])) else row[c]
    {
      assert a[i, j] == p[j];
      a[k, j] := ar.sub(a[k, j], ar.mul(a[k, i], a[i, j]));
    }
    assert a[i, dim + 1] == p[dim + 1];
    a[k, dim] := ar.sub(a[k, dim], ar.mul(a[k, i], a[i, dim + 1]));
    a[k, i] := ar.zero;
    assert RowOf(a, k) == Eliminate(ar, row, p, i, dim);
    forall r | 0 <= r < dim && r != k ensures RowOf(a, r) == m[r] {
    }
  }

  // The inner loop that divides row i by its pivot.
  method DivideRow<F>(ar: Arith<F>, a: array2<F>, dim: nat, i: nat)
    requires a.Length0 == dim && a.Length1 == dim + 2 && i < dim
    modifies a
    ensures Rows(a) == old(Rows(a))[i := Divide(ar, old(RowOf(a, i)), i, dim)]
    ensures forall c :: i < c < dim ==> a[i, c] == ar.div(old(a[i, c]), old(a[i, i]))
    ensures a[i, dim + 1] == ar.div(old(a[i, dim]), old(a[i, i])) && a[i, i] == ar.one
    ensures forall c :: 0 <= c < i || c == dim ==> a[i, c] == old(a[i, c])
  {
    ghost var m, row := Rows(a), RowOf(a, i);
    for j := i + 1 to dim
      invariant forall r, c :: 0 <= r < dim && r != i && 0 <= c < dim + 2 ==> a[r, c] == m[r][c]
      invariant forall c :: 0 <= c < dim + 2 ==>
        a[i, c] == if i < c < j then ar.div(row[c], row[i]) else row[c]
    {
      a[i, j] := ar.div(a[i, j], a[i, i]);
    }
    a[i, dim + 1] := ar.div(a[i, dim], a[i, i]);
    a[i, i] := ar.one;
    assert RowOf(a, i) == Divide(ar, row, i, dim);
    forall r | 0 <= r < dim && r != i ensures RowOf(a, r) == m[r] {
    }
  }

  // Rows up to i are finished, and column i is eliminated from the rows before k.
  ghost predicate Progress<F>(ar: Arith<F>, m: seq<Row<F>>, now: seq<Row<F>>, dim: nat, i: nat, k: nat)
    requires IsMatrix(m, dim) && |now| == dim && i < k <= dim
  {
    && (forall r :: 0 <= r <= i ==> now[r] == Finished(ar, m, dim, r))
    && (forall r :: i < r < k ==> now[r] == Reduced(ar, m, dim, r, i + 1))
    && (forall r :: k <= r < dim ==> now[r] == Reduced(ar, m, dim, r, i))
  }

  // The loop over the rows below row i.
  method EliminateBelow<F>(ar: Arith<F>, a: array2<F>, dim: nat, i: nat, ghost m: seq<Row<F>>)
    requires a.Length0 == dim && a.Length1 == dim + 2 && i < dim
    requires IsMatrix(m, dim) && Progress(ar, m, Rows(a), dim, i, i + 1)
    modifies a
    ensures Progress(ar, m, Rows(a), dim, i, dim)
  {
    for k := i + 1 to dim
      invariant Progress(ar, m, Rows(a), dim, i, k)
    {
      assert Rows(a)[k] == RowOf(a, k) && Rows(a)[i] == RowOf(a, i);
      EliminateRow(ar, a, dim, k, i);
    }
  }

  // Rows before i are finished, and columns before i are eliminated from the rest.
  ghost predicate Between<F>(ar: Arith<F>, m: seq<Row<F>>, now: seq<Row<F>>, dim: nat, i: nat)
    requires IsMatrix(m, dim) && |now| == dim && i <= dim
  {
    && (forall r :: 0 <= r < i ==> now[r] == Finished(ar, m, dim, r))
    && (forall r :: i <= r < dim ==> now[r] == Reduced(ar, m, dim, r, i))
  }

  lemma DividedRow<F>(ar: Arith<F>, m: seq<Row<F>>, now: seq<Row<F>>, dim: nat, i: nat)
    requires IsMatrix(m, dim) && |now| == dim && i < dim && Between(ar, m, now, dim, i)
    ensures |now[i]| == dim + 2 && Progress(ar, m, now[i := Divide(ar, now[i], i, dim)], dim, i, i + 1)
  {
    assert now[i] == Reduced(ar, m, dim, i, i);
  }

  // The sequential elimination, in place.
  method GaussianSeq<F>(ar: Arith<F>, a: array2<F>, dim: nat)
    requires a.Length0 == dim && a.Length1 == dim + 2
    modifies a
    ensures forall r :: 0 <= r < dim ==> RowOf(a, r) == Finished(ar, old(Rows(a)), dim, r)
  {
    ghost var m := Rows(a);
    for i := 0 to dim
      invariant Between(ar, m, Rows(a), dim, i)
    {
      DividedRow(ar, m, Rows(a), dim, i);
      DivideRow(ar, a, dim, i);
      EliminateBelow(ar, a, dim, i, m);
    }
  }
}

// Over the reals: what the elimination means for the linear system.
module GaussOverReals {
  import opened Gauss

  // A zero pivot has no quotient; every law below that needs one says so.
  function Quotient(x: real, y: real): real {
    if y == 0.0 then 0.0 else x / y
  }

  const REALS: Arith<real> :=
    Arith((x: real, y: real) => x - y, (x: real, y: real) => x * y, (x: real, y: real) => Quotient(x, y), 0.0, 1.0)

  function Dot(row: seq<real>, x: seq<real>, n: nat): real
    requires n <= |row| && n <= |x|
  {
    if n == 0 then 0.0 else Dot(row, x, n - 1) + row[n - 1] * x[n - 1]
  }

  // One more column adds the product of its two entries.
  lemma DotGrows(row: seq<real>, x: seq<real>, n: nat)
    requires n < |row| && n < |x|
    ensures Dot(row, x, 0) == 0.0 && Dot(row, x, n + 1) == Dot(row, x, n) + row[n] * x[n]
  {
  }

  predicate ZeroBefore(row: Row<real>, i: nat)
    requires i <= |row|
  {
    forall c :: 0 <= c < i ==> row[c] == 0.0
  }

  lemma EliminateTerm(e: real, a: real, f: real, b: real, x: real, s: real, t: real)
    requires e == a - f * b
    ensures (s - f * t) + e * x == (s + a * x) - f * (t + b * x)
  {
    assert e * x == a * x - f * (b * x);
  }

  lemma DivideTerm(e: real, a: real, p: real, x: real, s: real, t: real)
    requires p * e == a && p * s == t
    ensures p * (s + e * x) == t + a * x
  {
    assert p * (e * x) == (p * e) * x;
  }

  // Eliminating subtracts a multiple of p, in every column.
  lemma EliminateColumn(row: Row<real>, p: Row<real>, i: nat, dim: nat, c: nat)
    requires i < dim && |row| == |p| == dim + 2 && c < dim
    requires ZeroBefore(p, i) && p[i] == 1.0
    ensures Eliminate(REALS, row, p, i, dim)[c] == row[c] - row[i] * p[c]
  {
  }

  lemma DivideColumn(row: Row<real>, i: nat, dim: nat, c: nat)
    requires i < dim && |row| == dim + 2 && c < dim
    requires ZeroBefore(row, i) && row[i] != 0.0
    ensures row[i] * Divide(REALS, row, i, dim)[c] == row[c]
  {
  }

  lemma EliminateDot(row: Row<real>, p: Row<real>, i: nat, dim: nat, x: seq<real>, n: nat)
    requires i < dim && |row| == |p| == dim + 2 && |x| == dim && n <= dim
    requires ZeroBefore(p, i) && p[i] == 1.0
    ensures Dot(Eliminate(REALS, row, p, i, dim), x, n) == Dot(row, x, n) - row[i] * Dot(p, x, n)
  {
    forall c | 0 <= c < dim ensures Eliminate(REALS, row, p, i, dim)[c] == row[c] - row[i] * p[c] {
      EliminateColumn(row, p, i, dim, c);
    }
    DotOfCombination(row, p, Eliminate(REALS, row, p, i, dim), row[i], x, n);
  }

  lemma {:induction false} DotOfCombination(a: seq<real>, b: seq<real>, e: seq<real>, f: real, x: seq<real>, n: nat)
    requires |a| >= n && |b| >= n && |e| >= n && |x| >= n
    requires forall c :: 0 <= c < n ==> e[c] == a[c] - f * b[c]
    ensures Dot(e, x, n) == Dot(a, x, n) - f * Dot(b, x, n)
  {
    if n > 0 {
      DotOfCombination(a, b, e, f, x, n - 1);
      EliminateTerm(e[n - 1], a[n - 1], f, b[n - 1], x[n - 1], Dot(a, x, n - 1), Dot(b, x, n - 1));
    }
  }

  predicate IsMultiple(a: seq<real>, e: seq<real>, p: real, n: nat) {
    |a| >= n && |e| >= n && forall c :: 0 <= c < n ==> p * e[c] == a[c]
  }

  lemma {:induction false} DotOfMultiple(a: seq<real>, e: seq<real>, p: real, x: seq<real>, n: nat)
    requires IsMultiple(a, e, p, n) && |x| >= n
    ensures p * Dot(e, x, n) == Dot(a, x, n)
  {
    if n > 0 {
      DotOfMultiple(a, e, p, x, n - 1);
      DivideTerm(e[n - 1], a[n - 1], p, x[n - 1], Dot(e, x, n - 1), Dot(a, x, n - 1));
    }
  }

  lemma DivideColumns(row: Row<real>, i: nat, dim: nat)
    requires i < dim && |row| == dim + 2
    requires ZeroBefore(row, i) && row[i] != 0.0
    ensures IsMultiple(row, Divide(REALS, row, i, dim), row[i], dim)
  {
    forall c | 0 <= c < dim ensures row[i] * Divide(REALS, row, i, dim)[c] == row[c] {
      DivideColumn(row, i, dim, c);
    }
  }

  // Dividing by the pivot turns a row's equation into the finished one.
  lemma DivideSolves(row: Row<real>, i: nat, dim: nat, x: seq<real>)
    requires i < dim && |row| == dim + 2 && |x| == dim
    requires ZeroBefore(row, i) && row[i] != 0.0
    ensures var u := Divide(REALS, row, i, dim);
      Dot(row, x, dim) == row[dim] <==> Dot(u, x, dim) == u[dim + 1]
  {
    var u := Divide(REALS, row, i, dim);
    DivideColumns(row, i, dim);
    DotOfMultiple(row, u, row[i], x, dim);
    DivideRhs(row, i, dim);
    ScaledEquation(row[i], Dot(u, x, dim), u[dim + 1], Dot(row, x, dim), row[dim]);
  }

  lemma DivideRhs(row: Row<real>, i: nat, dim: nat)
    requires i < dim && |row| == dim + 2 && row[i] != 0.0
    ensures row[i] * Divide(REALS, row, i, dim)[dim + 1] == row[dim]
  {
  }

  // Eliminating with an equation that x satisfies keeps the residual of a row.
  lemma EliminateResidual(row: Row<real>, p: Row<real>, i: nat, dim: nat, x: seq<real>)
    requires i < dim && |row| == |p| == dim + 2 && |x| == dim
    requires ZeroBefore(p, i) && p[i] == 1.0 && Dot(p, x, dim) == p[dim + 1]
    ensures var e := Eliminate(REALS, row, p, i, dim);
      Dot(e, x, dim) - e[dim] == Dot(row, x, dim) - row[dim]
  {
    EliminateDot(row, p, i, dim, x, dim);
    assert Eliminate(REALS, row, p, i, dim)[dim] == row[dim] - row[i] * p[dim + 1];
  }

  lemma ScaledEquation(p: real, a: real, b: real, pa: real, pb: real)
    requires p != 0.0 && p * a == pa && p * b == pb
    ensures a == b <==> pa == pb
  {
    if pa == pb {
      assert p * (a - b) == 0.0;
    }
  }

  // U is unit upper triangular, whatever the pivots.
  lemma {:induction false} ReducedZeros(m: seq<Row<real>>, dim: nat, k: nat, i: nat)
    requires IsMatrix(m, dim) && k < dim && i <= dim
    ensures ZeroBefore(Reduced(REALS, m, dim, k, i), i)
  {
    if i > 0 {
      ReducedZeros(m, dim, k, i - 1);
    }
  }

  lemma UnitUpperTriangular(m: seq<Row<real>>, dim: nat, k: nat)
    requires IsMatrix(m, dim) && k < dim
    ensures ZeroBefore(Finished(REALS, m, dim, k), k) && Finished(REALS, m, dim, k)[k] == 1.0
  {
    ReducedZeros(m, dim, k, k);
  }

  predicate PivotsNonzero(m: seq<Row<real>>, dim: nat)
    requires IsMatrix(m, dim)
  {
    forall k :: 0 <= k < dim ==> Reduced(REALS, m, dim, k, k)[k] != 0.0
  }

  // Row k of the original system, and of Ux = y.
  predicate SolvesRow(m: seq<Row<real>>, dim: nat, x: seq<real>, k: nat)
    requires IsMatrix(m, dim) && |x| == dim && k < dim
  {
    Dot(m[k], x, dim) == m[k][dim]
  }

  predicate SolvesFinished(m: seq<Row<real>>, dim: nat, x: seq<real>, k: nat)
    requires IsMatrix(m, dim) && |x| == dim && k < dim
  {
    var u := Finished(REALS, m, dim, k);
    Dot(u, x, dim) == u[dim + 1]
  }

  // A solution of the finished rows before i keeps every row's residual while
  // these rows are eliminated from it.
  lemma {:induction false} ResidualKept(m: seq<Row<real>>, dim: nat, x: seq<real>, k: nat, i: nat)
    requires IsMatrix(m, dim) && |x| == dim && k < dim && i <= dim
    requires forall r :: 0 <= r < i ==> SolvesFinished(m, dim, x, r)
    ensures var row := Reduced(REALS, m, dim, k, i);
      Dot(row, x, dim) - row[dim] == Dot(m[k], x, dim) - m[k][dim]
  {
    if i > 0 {
      ResidualKept(m, dim, x, k, i - 1);
      UnitUpperTriangular(m, dim, i - 1);
      assert SolvesFinished(m, dim, x, i - 1);
      EliminateResidual(Reduced(REALS, m, dim, k, i - 1), Finished(REALS, m, dim, i - 1), i - 1, dim, x);
    }
  }

  lemma RowsAgree(m: seq<Row<real>>, dim: nat, x: seq<real>, k: nat)
    requires IsMatrix(m, dim) && |x| == dim && k < dim && PivotsNonzero(m, dim)
    requires forall r :: 0 <= r < k ==> SolvesFinished(m, dim, x, r)
    ensures SolvesRow(m, dim, x, k) <==> SolvesFinished(m, dim, x, k)
  {
    ResidualKept(m, dim, x, k, k);
    ReducedZeros(m, dim, k, k);
    DivideSolves(Reduced(REALS, m, dim, k, k), k, dim, x);
  }

  lemma {:induction false} SolutionsOfPrefix(m: seq<Row<real>>, dim: nat, x: seq<real>, k: nat)
    requires IsMatrix(m, dim) && |x| == dim && k <= dim && PivotsNonzero(m, dim)
    ensures (forall r :: 0 <= r < k ==> SolvesRow(m, dim, x, r))
            <==> (forall r :: 0 <= r < k ==> SolvesFinished(m, dim, x, r))
  {
    if k > 0 {
      SolutionsOfPrefix(m, dim, x, k - 1);
      if forall r :: 0 <= r < k - 1 ==> SolvesFinished(m, dim, x, r) {
        RowsAgree(m, dim, x, k - 1);
      }
    }
  }

  // Ux = y has exactly the solutions of the original system.
  lemma SameSolutions(m: seq<Row<real>>, dim: nat, x: seq<real>)
    requires IsMatrix(m, dim) && |x| == dim && PivotsNonzero(m, dim)
    ensures (forall r :: 0 <= r < dim ==> SolvesRow(m, dim, x, r))
            <==> (forall r :: 0 <= r < dim ==> SolvesFinished(m, dim, x, r))
  {
    SolutionsOfPrefix(m, dim, x, dim);
  }
}
