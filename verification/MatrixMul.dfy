// The kernels of the ring multiplication, on flat arrays.
module MatrixKernels {
  import Flat

  // Memory read at an address; outside the block it is not read.
  function At(s: seq<int>, x: nat): int {
    if x < |s| then s[x] else 0
  }

  function Dot(row: seq<int>, ro: nat, col: seq<int>, co: nat, c: nat): int {
    if c == 0 then 0 else Dot(row, ro, col, co, c - 1) + At(row, ro + c - 1) * At(col, co + c - 1)
  }

  // One more term is the product of the next two entries in memory.
  lemma DotGrows(row: seq<int>, ro: nat, col: seq<int>, co: nat, c: nat)
    ensures Dot(row, ro, col, co, 0) == 0
    ensures ro + c < |row| && co + c < |col| ==>
      Dot(row, ro, col, co, c + 1) == Dot(row, ro, col, co, c) + row[ro + c] * col[co + c]
  {
  }

  method MultiplyRowColumn(row: array<int>, ro: nat, col: array<int>, co: nat, c: nat) returns (result: int)
    requires ro + c <= row.Length && co + c <= col.Length
    ensures result == Dot(row[..], ro, col[..], co, c)
  {
    result := 0;
    for i := 0 to c
      invariant result == Dot(row[..], ro, col[..], co, i)
    {
      result := result + row[ro + i] * col[co + i];
    }
  }

  // Entry (i, j) of an r by c matrix is entry (j, i) of the other.
  predicate Moved(now: seq<int>, was: seq<int>, r: nat, c: nat, i: nat, j: nat) {
    At(now, j * r + i) == At(was, i * c + j)
  }

  // The entries of the rows before i, and of row i before column j, are moved.
  ghost predicate MovedTo(now: seq<int>, was: seq<int>, r: nat, c: nat, i: nat, j: nat) {
    |now| == r * c &&
    forall i': nat, j': nat :: j' < c && (i' < i || (i' == i && j' < j)) ==> Moved(now, was, r, c, i', j')
  }

  lemma MoveOne(now: seq<int>, was: seq<int>, r: nat, c: nat, i: nat, j: nat, y: nat)
    requires MovedTo(now, was, r, c, i, j) && i < r && j < c && y == j * r + i < |now|
    ensures MovedTo(now[y := At(was, i * c + j)], was, r, c, i, j + 1)
  {
    var now' := now[y := At(was, i * c + j)];
    forall i': nat, j': nat | j' < c && (i' < i || (i' == i && j' < j + 1))
      ensures Moved(now', was, r, c, i', j')
    {
      assert Moved(now, was, r, c, i', j') || (i' == i && j' == j);
      Flat.Split(j, i, r);
      Flat.Split(j', i', r);
    }
  }

  // The entry that stands in row j, place i, of rows of length r stood in row i, place j,
  // of rows of length c.
  predicate EntryMoved(now: seq<int>, was: seq<int>, r: nat, c: nat, i: nat, j: nat) {
    j * r + i < |now| && i * c + j < |was| && now[j * r + i] == was[i * c + j]
  }

  ghost predicate IsTransposed(now: seq<int>, was: seq<int>, r: nat, c: nat) {
    |now| == |was| == r * c && forall i: nat, j: nat :: i < r && j < c ==> EntryMoved(now, was, r, c, i, j)
  }

  lemma MovedEntry(now: seq<int>, was: seq<int>, r: nat, c: nat, i: nat, j: nat)
    requires |now| == |was| == r * c && i < r && j < c && Moved(now, was, r, c, i, j)
    ensures EntryMoved(now, was, r, c, i, j)
  {
    Flat.Inside(j, i, c, r);
    Flat.Inside(i, j, r, c);
    assert c * r == r * c;
  }

  method TransposeRow(r: nat, c: nat, a: array<int>, temp: array<int>, i: nat)
    requires a.Length == temp.Length == r * c && a != temp && i < r
    requires MovedTo(temp[..], a[..], r, c, i, 0)
    modifies temp
    ensures MovedTo(temp[..], a[..], r, c, i, c)
  {
    for j := 0 to c
      invariant MovedTo(temp[..], a[..], r, c, i, j)
    {
      Flat.Inside(j, i, c, r);
      Flat.Inside(i, j, r, c);
      MoveOne(temp[..], a[..], r, c, i, j, j * r + i);
      ghost var before := temp[..];
      temp[j * r + i] := a[i * c + j];
      assert temp[..] == before[j * r + i := a[i * c + j]];
    }
  }

  // The r by c matrix becomes its c by r transpose.
  method Transpose(r: nat, c: nat, a: array<int>)
    requires a.Length == r * c
    modifies a
    ensures forall i: nat, j: nat :: i < r && j < c ==> Moved(a[..], old(a[..]), r, c, i, j)
    ensures IsTransposed(a[..], old(a[..]), r, c)
  {
    ghost var was := a[..];
    var temp := new int[r * c](_ => 0);
    for i := 0 to r
      invariant a[..] == was && MovedTo(temp[..], was, r, c, i, 0)
    {
      TransposeRow(r, c, a, temp, i);
    }
    CopyBack(temp, a);
    assert MovedTo(a[..], was, r, c, r, 0);
    forall i: nat, j: nat | i < r && j < c ensures EntryMoved(a[..], was, r, c, i, j) {
      assert Moved(a[..], was, r, c, i, j);
      MovedEntry(a[..], was, r, c, i, j);
    }
  }

  method CopyBack(temp: array<int>, a: array<int>)
    requires temp.Length == a.Length && temp != a
    modifies a
    ensures a[..] == temp[..]
  {
    for x := 0 to a.Length
      invariant a[..x] == temp[..x]
    {
      a[x] := temp[x];
    }
  }

  // A window of n columns from c0 on, in the first h rows of a matrix of width w;
  // each of its entries is a product of inner terms.
  datatype Window = Window(h: nat, w: nat, c0: nat, n: nat, inner: nat)

  predicate InWindow(d: Window, x: nat) {
    d.w > 0 && x / d.w < d.h && d.c0 <= x % d.w < d.c0 + d.n
  }

  function Value(d: Window, rows: seq<int>, cols: seq<int>, x: nat): int
    requires InWindow(d, x)
  {
    Dot(rows, (x / d.w) * d.inner, cols, (x % d.w - d.c0) * d.inner, d.inner)
  }

  // The result with the window filled in.
  function Filled(d: Window, result: seq<int>, rows: seq<int>, cols: seq<int>): (f: seq<int>)
    ensures |f| == |result|
  {
    seq(|result|, x requires 0 <= x < |result| => if InWindow(d, x) then Value(d, rows, cols, x) else result[x])
  }

  // Row i, place j: inside the window a dot product of row i of the one block and column
  // j of the other, outside what it was.
  lemma FilledAt(d: Window, was: seq<int>, rows: seq<int>, cols: seq<int>, i: nat, j: nat)
    requires j < d.w && i * d.w + j < |was|
    ensures Filled(d, was, rows, cols)[i * d.w + j] ==
      if i < d.h && d.c0 <= j < d.c0 + d.n then Dot(rows, i * d.inner, cols, (j - d.c0) * d.inner, d.inner)
      else was[i * d.w + j]
  {
    Flat.Split(i, j, d.w);
  }

  // Entries of the window before row i, or in row i before its column j.
  predicate Before(d: Window, i: nat, j: nat, x: nat) {
    InWindow(d, x) && (x / d.w < i || (x / d.w == i && x % d.w < d.c0 + j))
  }

  // The result with the window filled in up to there.
  function FilledTo(d: Window, was: seq<int>, rows: seq<int>, cols: seq<int>, i: nat, j: nat): (f: seq<int>)
    ensures |f| == |was|
  {
    seq(|was|, x requires 0 <= x < |was| => if Before(d, i, j, x) then Value(d, rows, cols, x) else was[x])
  }

  lemma FillOne(d: Window, was: seq<int>, rows: seq<int>, cols: seq<int>, i: nat, j: nat, y: nat)
    requires j < d.n && d.c0 + d.n <= d.w && i < d.h && y == i * d.w + (d.c0 + j) < |was|
    ensures FilledTo(d, was, rows, cols, i, j + 1)
            == FilledTo(d, was, rows, cols, i, j)[y := Dot(rows, i * d.inner, cols, j * d.inner, d.inner)]
  {
    Flat.Split(i, d.c0 + j, d.w);
    assert InWindow(d, y) && Value(d, rows, cols, y) == Dot(rows, i * d.inner, cols, j * d.inner, d.inner);
    forall x: nat | x < |was| && x != y ensures Before(d, i, j + 1, x) == Before(d, i, j, x) {
      if InWindow(d, x) && x / d.w == i && x % d.w == d.c0 + j {
        Flat.Join(x, d.w);
        assert false;
      }
    }
  }

  lemma NextRow(d: Window, was: seq<int>, rows: seq<int>, cols: seq<int>, i: nat)
    ensures FilledTo(d, was, rows, cols, i + 1, 0) == FilledTo(d, was, rows, cols, i, d.n)
  {
    forall x: nat ensures Before(d, i + 1, 0, x) == Before(d, i, d.n, x) {
    }
  }

  lemma NoRows(d: Window, was: seq<int>, rows: seq<int>, cols: seq<int>)
    ensures FilledTo(d, was, rows, cols, 0, 0) == was
  {
    forall x: nat ensures !Before(d, 0, 0, x) {
    }
  }

  lemma AllRows(d: Window, was: seq<int>, rows: seq<int>, cols: seq<int>)
    ensures FilledTo(d, was, rows, cols, d.h, 0) == Filled(d, was, rows, cols)
  {
    forall x: nat ensures Before(d, d.h, 0, x) == InWindow(d, x) {
    }
  }

  // p processes, each with a block of `rows` rows of the left matrix and a block
  // of `cols` columns of the right one.
  datatype Dims = Dims(p: nat, rows: nat, cols: nat, inner: nat)

  // Where column block k lies in a row block of the result.
  function BlockWindow(d: Dims, k: nat): Window {
    Window(d.rows, d.p * d.cols, k * d.cols, d.cols, d.inner)
  }

  // The loops over the rows of the window and its columns.
  method MultiplyWindow(win: Window, result: array<int>, rows: array<int>, cols: array<int>)
    requires win.c0 + win.n <= win.w && result.Length >= win.h * win.w
    requires rows.Length == win.h * win.inner && cols.Length == win.n * win.inner
    requires result != rows && result != cols
    modifies result
    ensures result[..] == Filled(win, old(result[..]), rows[..], cols[..])
  {
    ghost var was := result[..];
    var temp, ro := win.c0, 0;
    NoRows(win, was, rows[..], cols[..]);
    for i := 0 to win.h
      invariant temp == i * win.w + win.c0 && ro == i * win.inner
      invariant result[..] == FilledTo(win, was, rows[..], cols[..], i, 0)
    {
      MultiplyRow(win, result, temp, rows, ro, cols, i, was);
      NextRow(win, was, rows[..], cols[..], i);
      Flat.Next(i, win.inner);
      Flat.Next(i, win.w);
      ro := ro + win.inner;
      temp := temp + win.w;
    }
    AllRows(win, was, rows[..], cols[..]);
  }

  // One row block times one column block, written through moving offsets into
  // column block (n + rank) mod p of the result.
  method MultiplyBlocks(d: Dims, result: array<int>, rows: array<int>, cols: array<int>, n: nat, rank: nat)
    requires d.p > 0 && result.Length >= d.rows * (d.p * d.cols)
    requires rows.Length == d.rows * d.inner && cols.Length == d.cols * d.inner
    requires result != rows && result != cols
    modifies result
    ensures result[..] == Filled(BlockWindow(d, (n + rank) % d.p), old(result[..]), rows[..], cols[..])
  {
    var k := (n + rank) % d.p;
    Flat.Inverse(d.p, k + 1, d.cols);
    Flat.Next(k, d.cols);
    MultiplyWindow(BlockWindow(d, k), result, rows, cols);
  }

  // The inner loop: row i of the window.
  method MultiplyRow(win: Window, result: array<int>, temp: nat, rows: array<int>, ro: nat, cols: array<int>,
                     i: nat, ghost was: seq<int>)
    requires i < win.h && win.c0 + win.n <= win.w && result.Length >= win.h * win.w
    requires rows.Length == win.h * win.inner && cols.Length == win.n * win.inner
    requires result != rows && result != cols
    requires temp == i * win.w + win.c0 && ro == i * win.inner
    requires result[..] == FilledTo(win, was, rows[..], cols[..], i, 0)
    modifies result
    ensures result[..] == FilledTo(win, was, rows[..], cols[..], i, win.n)
  {
    var co := 0;
    for j := 0 to win.n
      invariant co == j * win.inner
      invariant result[..] == FilledTo(win, was, rows[..], cols[..], i, j)
    {
      Flat.Inside(i, win.c0 + j, win.h, win.w);
      Flat.Inverse(win.h, i + 1, win.inner);
      Flat.Inverse(win.n, j + 1, win.inner);
      Flat.Next(j, win.inner);
      FillOne(win, was, rows[..], cols[..], i, j, temp + j);
      var v := MultiplyRowColumn(rows, ro, cols, co, win.inner);
      ghost var before := result[..];
      result[temp + j] := v;
      assert result[..] == before[temp + j := v];
      co := co + win.inner;
    }
  }
}

// The ring of processes. Each starts with its own row block and its own column
// block, and in every step passes its column block on and takes its neighbour's.
module MatrixRing {
  import opened MatrixKernels
  import opened Runs
  import opened Sums
  import Flat

  // The left matrix is d.p * d.rows by d.inner, the right one d.inner by d.p * d.cols.
  datatype Job = Job(d: Dims, a: seq<int>, b: seq<int>)

  predicate ValidJob(job: Job) {
    var d := job.d;
    && d.p > 0 && |job.a| == (d.p * d.rows) * d.inner && |job.b| == d.inner * (d.p * d.cols)
  }

  // Entry (i, j) of the product.
  function Product(job: Job, i: nat, j: nat, n: nat): int {
    if n == 0 then 0
    else Product(job, i, j, n - 1) +
         At(job.a, i * job.d.inner + n - 1) * At(job.b, (n - 1) * (job.d.p * job.d.cols) + j)
  }

  // One more term of the product is a product of two entries of the matrices.
  lemma ProductGrows(job: Job, i: nat, j: nat, n: nat)
    requires ValidJob(job) && i < job.d.p * job.d.rows && j < job.d.p * job.d.cols && n < job.d.inner
    ensures Product(job, i, j, 0) == 0
    ensures i * job.d.inner + n < |job.a| && n * (job.d.p * job.d.cols) + j < |job.b|
    ensures Product(job, i, j, n + 1)
            == Product(job, i, j, n) + job.a[i * job.d.inner + n] * job.b[n * (job.d.p * job.d.cols) + j]
  {
    Flat.Inside(i, n, job.d.p * job.d.rows, job.d.inner);
    Flat.Inside(n, j, job.d.inner, job.d.p * job.d.cols);
  }

  // Row block r of the left matrix, and column block k of the right one, which is
  // row block k of its transpose.
  function RowBlock(job: Job, r: nat): (rows: seq<int>)
    ensures |rows| == job.d.rows * job.d.inner
  {
    var d := job.d;
    seq(d.rows * d.inner, x requires 0 <= x < d.rows * d.inner => At(job.a, r * (d.rows * d.inner) + x))
  }

  ghost predicate IsTranspose(job: Job, bt: seq<int>) {
    var d := job.d;
    && |bt| == |job.b|
    && forall i: nat, j: nat :: i < d.inner && j < d.p * d.cols ==> Moved(bt, job.b, d.inner, d.p * d.cols, i, j)
  }

  function ColBlock(job: Job, bt: seq<int>, k: nat): (cols: seq<int>)
    ensures |cols| == job.d.cols * job.d.inner
  {
    var d := job.d;
    seq(d.cols * d.inner, x requires 0 <= x < d.cols * d.inner => At(bt, k * (d.cols * d.inner) + x))
  }

  // The width of the right matrix and of the result.
  function Width(d: Dims): nat {
    d.p * d.cols
  }

  // --- One process ---

  // The row block of process r after its first n multiplications; the master has
  // memory for the whole result.
  function Result(job: Job, bt: seq<int>, r: nat, n: nat): (f: seq<int>)
    ensures |f| == (if r == 0 then job.d.p else 1) * (job.d.rows * (job.d.p * job.d.cols))
    decreases n
  {
    var d := job.d;
    if n == 0 then seq((if r == 0 then d.p else 1) * (d.rows * (d.p * d.cols)), _ => 0)
    else if d.p == 0 then Result(job, bt, r, n - 1)
    else
      var k := (n - 1 + r) % d.p;
      Filled(BlockWindow(d, k), Result(job, bt, r, n - 1), RowBlock(job, r), ColBlock(job, bt, k))
  }

  lemma Regroup(r: nat, i: nat, rows: nat, inner: nat, t: nat)
    ensures r * (rows * inner) + (i * inner + t) == (r * rows + i) * inner + t
  {
    assert r * (rows * inner) == (r * rows) * inner;
    assert (r * rows + i) * inner == (r * rows) * inner + i * inner;
  }

  // Block k of a flat matrix, in blocks of h rows of width w.
  lemma BlockTerm(m: seq<int>, block: seq<int>, k: nat, h: nat, w: nat, i: nat, t: nat)
    requires i < h && t < w && |block| == h * w
    requires forall x :: 0 <= x < |block| ==> block[x] == At(m, k * (h * w) + x)
    ensures At(block, Flat.Index(i, t, w)) == At(m, Flat.Index(Flat.Index(k, i, h), t, w))
  {
    Flat.Inside(i, t, h, w);
    Regroup(k, i, h, w, t);
  }

  lemma Terms(job: Job, bt: seq<int>, r: nat, k: nat, i: nat, j: nat, t: nat)
    requires IsTranspose(job, bt) && k < job.d.p && i < job.d.rows && j < job.d.cols && t < job.d.inner
    ensures At(RowBlock(job, r), Flat.Index(i, t, job.d.inner))
            == At(job.a, Flat.Index(Flat.Index(r, i, job.d.rows), t, job.d.inner))
    ensures At(ColBlock(job, bt, k), Flat.Index(j, t, job.d.inner))
            == At(job.b, Flat.Index(t, Flat.Index(k, j, job.d.cols), Width(job.d)))
  {
    var d := job.d;
    BlockTerm(job.a, RowBlock(job, r), r, d.rows, d.inner, i, t);
    BlockTerm(bt, ColBlock(job, bt, k), k, d.cols, d.inner, j, t);
    Flat.Inside(k, j, d.p, d.cols);
    assert Moved(bt, job.b, d.inner, d.p * d.cols, t, k * d.cols + j);
  }

  // A dot product of the blocks is an entry of the product.
  lemma {:induction false} DotIsProduct(job: Job, bt: seq<int>, r: nat, k: nat, i: nat, j: nat, n: nat)
    requires IsTranspose(job, bt) && k < job.d.p && i < job.d.rows && j < job.d.cols
    requires n <= job.d.inner
    ensures Dot(RowBlock(job, r), i * job.d.inner, ColBlock(job, bt, k), j * job.d.inner, n)
            == Product(job, r * job.d.rows + i, k * job.d.cols + j, n)
  {
    if n > 0 {
      DotIsProduct(job, bt, r, k, i, j, n - 1);
      Terms(job, bt, r, k, i, j, n - 1);
    }
  }

  // A multiplication only stores entries of the product, and stores those of the
  // column block it holds.
  lemma StoresProduct(job: Job, bt: seq<int>, r: nat, k: nat, was: seq<int>, i: nat, j: nat)
    requires IsTranspose(job, bt) && r < job.d.p && k < job.d.p && i < job.d.rows && j < job.d.p * job.d.cols
    requires i * (job.d.p * job.d.cols) + j < |was|
    ensures var x := i * (job.d.p * job.d.cols) + j;
      var now := Filled(BlockWindow(job.d, k), was, RowBlock(job, r), ColBlock(job, bt, k));
      var right := Product(job, r * job.d.rows + i, j, job.d.inner);
      && (now[x] == was[x] || now[x] == right)
      && (k * job.d.cols <= j < k * job.d.cols + job.d.cols ==> now[x] == right)
  {
    var d := job.d;
    var win := BlockWindow(d, k);
    Flat.Split(i, j, win.w);
    if win.c0 <= j < win.c0 + win.n {
      DotIsProduct(job, bt, r, k, i, j - win.c0, d.inner);
    }
  }

  // Entry (i, j) of the row block of process r is that of the product.
  predicate Entered(job: Job, r: nat, f: seq<int>, i: nat, j: nat) {
    var x := Flat.Index(i, j, Width(job.d));
    x < |f| && f[x] == Product(job, Flat.Index(r, i, job.d.rows), j, job.d.inner)
  }

  lemma FilledEnters(job: Job, bt: seq<int>, r: nat, k: nat, was: seq<int>, i: nat, j: nat)
    requires IsTranspose(job, bt) && r < job.d.p && k < job.d.p && i < job.d.rows && j < Width(job.d)
    requires Flat.Index(i, j, Width(job.d)) < |was|
    ensures var now := Filled(BlockWindow(job.d, k), was, RowBlock(job, r), ColBlock(job, bt, k));
      && (Entered(job, r, was, i, j) ==> Entered(job, r, now, i, j))
      && (k * job.d.cols <= j < k * job.d.cols + job.d.cols ==> Entered(job, r, now, i, j))
  {
    StoresProduct(job, bt, r, k, was, i, j);
  }

  // The block process r holds in step n.
  function Holding(r: nat, n: nat, p: nat): (k: nat)
    requires p > 0
    ensures k < p
  {
    (n + r) % p
  }

  lemma StepEnters(job: Job, bt: seq<int>, r: nat, i: nat, j: nat, n: nat)
    requires IsTranspose(job, bt) && r < job.d.p && i < job.d.rows && j < Width(job.d)
    ensures Entered(job, r, Result(job, bt, r, n), i, j) ==> Entered(job, r, Result(job, bt, r, n + 1), i, j)
    ensures var k := Holding(r, n, job.d.p);
      k * job.d.cols <= j < k * job.d.cols + job.d.cols ==> Entered(job, r, Result(job, bt, r, n + 1), i, j)
  {
    InResult(job, bt, r, i, j, n);
    FilledEnters(job, bt, r, Holding(r, n, job.d.p), Result(job, bt, r, n), i, j);
  }

  lemma InResult(job: Job, bt: seq<int>, r: nat, i: nat, j: nat, n: nat)
    requires r < job.d.p && i < job.d.rows && j < Width(job.d)
    ensures Flat.Index(i, j, Width(job.d)) < |Result(job, bt, r, n)|
  {
    var d := job.d;
    Flat.Inside(i, j, d.rows, Width(d));
    Flat.Inverse(if r == 0 then d.p else 1, 1, d.rows * Width(d));
  }

  lemma {:induction false} EntryStays(job: Job, bt: seq<int>, r: nat, i: nat, j: nat, n0: nat, n: nat)
    requires IsTranspose(job, bt) && r < job.d.p && i < job.d.rows && j < Width(job.d) && n0 < n
    requires var k := Holding(r, n0, job.d.p); k * job.d.cols <= j < k * job.d.cols + job.d.cols
    ensures Entered(job, r, Result(job, bt, r, n), i, j)
  {
    StepEnters(job, bt, r, i, j, n - 1);
    if n0 < n - 1 {
      EntryStays(job, bt, r, i, j, n0, n - 1);
    }
  }

  // The step in which process r holds column block k.
  lemma StepOfBlock(r: nat, k: nat, p: nat) returns (n: nat)
    requires r < p && k < p
    ensures n < p && Holding(r, n, p) == k
  {
    n := if k >= r then k - r else k + p - r;
  }

  // After p steps the whole row block is done.
  lemma RowBlockEntered(job: Job, bt: seq<int>, r: nat, i: nat, j: nat)
    requires ValidJob(job) && IsTranspose(job, bt) && r < job.d.p && i < job.d.rows && j < Width(job.d)
    ensures Entered(job, r, Result(job, bt, r, job.d.p), i, j)
  {
    var d := job.d;
    Flat.RowBelow(j, d.p, d.cols);
    var n0 := StepOfBlock(r, j / d.cols, d.p);
    Flat.Join(j, d.cols);
    EntryStays(job, bt, r, i, j, n0, d.p);
  }

  lemma RowBlockDone(job: Job, bt: seq<int>, r: nat, i: nat, j: nat)
    requires ValidJob(job) && IsTranspose(job, bt) && r < job.d.p && i < job.d.rows && j < job.d.p * job.d.cols
    ensures var x := i * (job.d.p * job.d.cols) + j;
      x < |Result(job, bt, r, job.d.p)| &&
      Result(job, bt, r, job.d.p)[x] == Product(job, r * job.d.rows + i, j, job.d.inner)
  {
    RowBlockEntered(job, bt, r, i, j);
  }

  // --- The master ---

  function Placed(whole: seq<int>, at: nat, part: seq<int>): (f: seq<int>)
    ensures |f| == |whole|
  {
    seq(|whole|, x requires 0 <= x < |whole| => if at <= x < at + |part| then part[x - at] else whole[x])
  }

  // What the master holds after it has collected the parts of 1, ..., c.
  function Assembled(first: seq<int>, part: nat -> seq<int>, size: nat, c: nat): (f: seq<int>)
    ensures |f| == |first|
  {
    if c == 0 then first else Placed(Assembled(first, part, size, c - 1), c * size, part(c))
  }

  lemma PlacedAt(whole: seq<int>, size: nat, part: seq<int>, c: nat, q: nat, x: nat)
    requires q <= c && x < size == |part| && (c + 1) * size <= |whole|
    ensures q * size + x < |whole|
    ensures Placed(whole, c * size, part)[q * size + x] == if q == c then part[x] else whole[q * size + x]
  {
    Flat.Inside(q, x, c + 1, size);
    if q < c {
      Flat.Inside(q, x, c, size);
    }
  }

  lemma {:induction false} AssembledAt(first: seq<int>, part: nat -> seq<int>, size: nat, c: nat, q: nat, x: nat)
    requires q <= c && x < size && (c + 1) * size <= |first| && forall k: nat :: 0 < k <= c ==> |part(k)| == size
    ensures q * size + x < |first|
    ensures Assembled(first, part, size, c)[q * size + x] == if q == 0 then first[x] else part(q)[x]
  {
    if c == 0 {
      Flat.Inside(q, x, 1, size);
    } else {
      PlacedAt(Assembled(first, part, size, c - 1), size, part(c), c, q, x);
      if q < c {
        Flat.Next(c, size);
        AssembledAt(first, part, size, c - 1, q, x);
      }
    }
  }

  function PartSize(d: Dims): nat {
    d.rows * Width(d)
  }

  function Part(job: Job, bt: seq<int>): nat -> seq<int> {
    (q: nat) => Result(job, bt, q, job.d.p)
  }

  // Everything collected: the master holds the product, at every entry.
  lemma MasterHoldsProduct(job: Job, bt: seq<int>, i: nat, j: nat)
    requires ValidJob(job) && IsTranspose(job, bt) && i < job.d.p * job.d.rows && j < Width(job.d)
    ensures var f := Assembled(Result(job, bt, 0, job.d.p), Part(job, bt), PartSize(job.d), job.d.p - 1);
      Flat.Index(i, j, Width(job.d)) < |f| &&
      f[Flat.Index(i, j, Width(job.d))] == Product(job, i, j, job.d.inner)
  {
    var d := job.d;
    Flat.RowBelow(i, d.p, d.rows);
    Flat.Join(i, d.rows);
    EntryOfPart(job, bt, i / d.rows, i % d.rows, j);
  }

  lemma EntryOfPart(job: Job, bt: seq<int>, q: nat, i: nat, j: nat)
    requires ValidJob(job) && IsTranspose(job, bt) && q < job.d.p && i < job.d.rows && j < Width(job.d)
    ensures var f := Assembled(Result(job, bt, 0, job.d.p), Part(job, bt), PartSize(job.d), job.d.p - 1);
      var x := Flat.Index(Flat.Index(q, i, job.d.rows), j, Width(job.d));
      x < |f| && f[x] == Product(job, Flat.Index(q, i, job.d.rows), j, job.d.inner)
  {
    RowBlockEntered(job, bt, q, i, j);
    Flat.Inside(i, j, job.d.rows, Width(job.d));
    var f := AssembledPart(job, bt, q, Flat.Index(i, j, Width(job.d)));
    EntryJoined(f, Result(job, bt, q, job.d.p), q, i, j, job.d.rows, Width(job.d));
  }

  lemma EntryJoined(f: seq<int>, part: seq<int>, q: nat, i: nat, j: nat, rows: nat, w: nat)
    requires Flat.Index(i, j, w) < |part| && Flat.Index(q, Flat.Index(i, j, w), rows * w) < |f|
    requires f[Flat.Index(q, Flat.Index(i, j, w), rows * w)] == part[Flat.Index(i, j, w)]
    ensures var x := Flat.Index(Flat.Index(q, i, rows), j, w);
      x < |f| && f[x] == part[Flat.Index(i, j, w)]
  {
    Regroup(q, i, rows, w, j);
  }

  lemma AllAssembled(first: seq<int>, part: nat -> seq<int>, size: nat, p: nat, q: nat, y: nat)
    requires q < p && y < size && |first| == p * size && forall k: nat :: 0 < k ==> |part(k)| == size
    ensures y < |first| && Flat.Index(q, y, size) < |first|
    ensures Assembled(first, part, size, p - 1)[Flat.Index(q, y, size)] == if q == 0 then first[y] else part(q)[y]
  {
    Flat.Inside(0, y, p, size);
    AssembledAt(first, part, size, p - 1, q, y);
  }

  lemma AssembledPart(job: Job, bt: seq<int>, q: nat, y: nat) returns (f: seq<int>)
    requires ValidJob(job) && q < job.d.p && y < PartSize(job.d)
    ensures f == Assembled(Result(job, bt, 0, job.d.p), Part(job, bt), PartSize(job.d), job.d.p - 1)
    ensures Flat.Index(q, y, PartSize(job.d)) < |f| && y < |Result(job, bt, q, job.d.p)|
    ensures f[Flat.Index(q, y, PartSize(job.d))] == Result(job, bt, q, job.d.p)[y]
  {
    var first, part, size := Result(job, bt, 0, job.d.p), Part(job, bt), PartSize(job.d);
    PartSizes(job, bt);
    AllAssembled(first, part, size, job.d.p, q, y);
    f := Assembled(first, part, size, job.d.p - 1);
  }

  lemma PartSizes(job: Job, bt: seq<int>)
    ensures |Result(job, bt, 0, job.d.p)| == job.d.p * PartSize(job.d)
    ensures forall k: nat :: 0 < k ==> |Part(job, bt)(k)| == PartSize(job.d)
  {
    assert 1 * PartSize(job.d) == PartSize(job.d);
  }
}
