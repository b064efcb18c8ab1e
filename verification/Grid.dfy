// Row-major output buffers filled cell by cell by tasks over disjoint row bands.
// `done` holds the cells already stored and the log of the stores; a store may only hit a
// cell not stored before, so the log of a full buffer names each of its cells once.
module Grid {
  import opened Integers

  // What has been stored so far: the cells, and every store in order.
  datatype Stores = Stores(cells: set<(int, int)>, log: seq<(int, int)>) {
    function Add(r: int, o: int): Stores {
      Stores(cells + {(r, o)}, log + [(r, o)])
    }
  }

  ghost predicate NoRepeats(log: seq<(int, int)>) {
    forall i, j :: 0 <= i < j < |log| ==> log[i] != log[j]
  }

  // The log lists exactly the stored cells, each of them once. (The key keeps the log out of
  // proofs that only pass it along.)
  ghost predicate Once(done: Stores) {
    forall b {:trigger Open(b)} :: Open(b) ==>
      NoRepeats(done.log) && forall x :: x in done.cells <==> x in done.log
  }

  lemma OnceIs(done: Stores)
    ensures Once(done) <==> NoRepeats(done.log) && forall x :: x in done.cells <==> x in done.log
  {
    assert Open(true);
  }

  lemma OnceAdd(done: Stores, r: int, o: int)
    requires Once(done) && (r, o) !in done.cells
    ensures Once(done.Add(r, o))
  {
    OnceIs(done);
    OnceIs(done.Add(r, o));
  }

  lemma {:induction false} LogSize(log: seq<(int, int)>)
    requires NoRepeats(log)
    ensures |set x | x in log| == |log|
  {
    if |log| > 0 {
      var init, last := log[..|log| - 1], log[|log| - 1];
      LogSize(init);
      assert (set x | x in log) == (set x | x in init) + {last};
      assert last !in init;
    } else {
      assert (set x | x in log) == {};
    }
  }

  function RowCells(r: int, n: nat): (s: set<(int, int)>)
    ensures forall x :: x in s <==> x.0 == r && 0 <= x.1 < n
    ensures |s| == n
  {
    if n == 0 then {} else RowCells(r, n - 1) + {(r, n - 1)}
  }

  // m times n, by addition.
  function RowsOf(m: nat, n: nat): nat {
    if m == 0 then 0 else RowsOf(m - 1, n) + n
  }

  lemma {:induction false} RowsOfIs(m: nat, n: nat)
    ensures RowsOf(m, n) == m * n
  {
    if m > 0 {
      RowsOfIs(m - 1, n);
      assert (m - 1) * n + n == m * n;
    }
  }

  function GridCells(m: nat, n: nat): (s: set<(int, int)>)
    ensures forall x :: x in s <==> 0 <= x.0 < m && 0 <= x.1 < n
    ensures |s| == RowsOf(m, n)
  {
    if m == 0 then {}
    else
      var above, row := GridCells(m - 1, n), RowCells(m - 1, n);
      assert above !! row;
      above + row
  }

  lemma GridSize(m: nat, n: nat)
    ensures |GridCells(m, n)| == m * n
  {
    RowsOfIs(m, n);
  }

  // A finished buffer: m * n stores, one to each cell.
  ghost predicate StoredOnce(log: seq<(int, int)>, m: nat, n: nat) {
    NoRepeats(log) && |log| == m * n && forall r, o :: (r, o) in log <==> 0 <= r < m && 0 <= o < n
  }

  lemma OnceComplete(done: Stores, m: nat, n: nat)
    requires Once(done) && forall r, o :: (r, o) in done.cells <==> 0 <= r < m && 0 <= o < n
    ensures StoredOnce(done.log, m, n)
  {
    OnceIs(done);
    LogSize(done.log);
    GridSize(m, n);
    var s := set x | x in done.log;
    forall x
      ensures x in s <==> x in GridCells(m, n)
    {
      var (r, o) := x;
      assert (r, o) in done.cells <==> 0 <= r < m && 0 <= o < n;
    }
    assert s == GridCells(m, n);
  }

  function Index(r: int, o: int, m: nat, n: nat): (i: int)
    requires 0 <= r < m && 0 <= o < n
    ensures 0 <= i < m * n
  {
    assert r * n + o < (r + 1) * n <= m * n;
    r * n + o
  }

  lemma MulMonotone(x: int, y: int, n: nat)
    requires x <= y
    ensures x * n <= y * n
  {
  }

  lemma RowBound(r: nat, rows: nat, k: nat)
    requires r < rows
    ensures 0 <= r * k <= (r + 1) * k <= rows * k && (r + 1) * k == r * k + k
  {
    MulMonotone(r + 1, rows, k);
    MulMonotone(0, r, k);
  }

  // Row r of a buffer of `rows` rows of k entries.
  function Row<T>(b: seq<T>, r: nat, rows: nat, k: nat): (row: seq<T>)
    requires |b| == rows * k && r < rows
    ensures |row| == k && forall j :: 0 <= j < k ==> row[j] in b
  {
    RowBound(r, rows, k);
    b[r * k..(r + 1) * k]
  }

  lemma RowAt<T>(b: seq<T>, r: nat, rows: nat, k: nat)
    requires |b| == rows * k && r < rows
    ensures r * k + k <= |b|
    ensures forall j :: 0 <= j < k ==> Row(b, r, rows, k)[j] == b[r * k + j]
  {
    RowBound(r, rows, k);
  }

  // Entry-wise products of row r of one buffer and row o of another, by plain addresses.
  ghost predicate AreProducts(p: seq<int>, a: seq<int>, w: seq<int>, r: nat, o: nat, k: nat) {
    |p| == k && r * k + k <= |a| && o * k + k <= |w| && forall x :: 0 <= x < k ==> p[x] == a[r * k + x] * w[o * k + x]
  }

  lemma RowProducts(p: seq<int>, a: seq<int>, w: seq<int>, m: nat, n: nat, r: nat, o: nat, k: nat)
    requires |a| == m * k && |w| == n * k && r < m && o < n && AreProducts(p, a, w, r, o, k)
    ensures forall x :: 0 <= x < k ==> p[x] == Row(a, r, m, k)[x] * Row(w, o, n, k)[x]
  {
    RowAt(a, r, m, k);
    RowAt(w, o, n, k);
  }

  // Earlier rows occupy earlier addresses.
  lemma RowsApart(r: int, o: int, r': int, o': int, n: nat)
    requires r < r' && o < n && 0 <= o'
    ensures r * n + o < r' * n + o'
  {
    MulMonotone(r + 1, r', n);
  }

  lemma IndexInjective(r: int, o: int, r': int, o': int, m: nat, n: nat)
    requires 0 <= r < m && 0 <= o < n && 0 <= r' < m && 0 <= o' < n
    requires Index(r, o, m, n) == Index(r', o', m, n)
    ensures r == r' && o == o'
  {
    if r < r' {
      RowsApart(r, o, r', o', n);
    } else if r' < r {
      RowsApart(r', o', r, o, n);
    }
  }

  lemma QuotientBound(i: int, m: nat, n: nat)
    requires 0 <= i < m * n
    ensures n > 0 && 0 <= i / n < m && 0 <= i % n < n
  {
    assert n != 0;
    var q := i / n;
    assert i == q * n + i % n;
    if q >= m {
      MulMonotone(m, q, n);
    }
  }

  // Every flat index is the index of one cell.
  lemma IndexSplit(i: int, m: nat, n: nat)
    requires 0 <= i < m * n
    ensures n > 0 && 0 <= i / n < m && 0 <= i % n < n
    ensures Index(i / n, i % n, m, n) == i
  {
    QuotientBound(i, m, n);
    assert i == (i / n) * n + i % n;
  }

  lemma IndexQuotient(r: int, o: int, m: nat, n: nat)
    requires 0 <= r < m && 0 <= o < n
    ensures Index(r, o, m, n) / n == r && Index(r, o, m, n) % n == o
  {
    var i := Index(r, o, m, n);
    QuotientBound(i, m, n);
    assert i == (i / n) * n + i % n;
    assert Index(i / n, i % n, m, n) == i;
    IndexInjective(r, o, i / n, i % n, m, n);
  }

  // The buffer whose cell (r, o) holds cell(r, o).
  ghost function Table<T>(m: nat, n: nat, cell: (int, int) -> T): (s: seq<T>)
    ensures |s| == m * n
    ensures forall r, o :: 0 <= r < m && 0 <= o < n ==> s[Index(r, o, m, n)] == cell(r, o)
  {
    var s := seq(m * n, i requires 0 <= i < m * n => QuotientBound(i, m, n); cell(i / n, i % n));
    assert forall r, o :: 0 <= r < m && 0 <= o < n ==> s[Index(r, o, m, n)] == cell(r, o) by {
      forall r, o | 0 <= r < m && 0 <= o < n
        ensures s[Index(r, o, m, n)] == cell(r, o)
      {
        IndexQuotient(r, o, m, n);
      }
    }
    s
  }

  // Two buffers that agree cell by cell are the same buffer.
  lemma TableUnique<T>(s: seq<T>, s': seq<T>, m: nat, n: nat)
    requires |s| == |s'| == m * n
    requires forall r, o :: 0 <= r < m && 0 <= o < n ==> s[Index(r, o, m, n)] == s'[Index(r, o, m, n)]
    ensures s == s'
  {
    forall i | 0 <= i < m * n
      ensures s[i] == s'[i]
    {
      IndexSplit(i, m, n);
    }
  }

  // Stored cells hold their value, the others what the buffer held at the start.
  ghost predicate Progress<T>(c: array<T>, was: seq<T>, m: nat, n: nat, cell: (int, int) -> T, done: Stores)
    reads c
  {
    && c.Length == m * n == |was| && Once(done)
    && (forall r, o :: (r, o) in done.cells ==> 0 <= r < m && 0 <= o < n)
    && (forall r, o :: 0 <= r < m && 0 <= o < n ==>
          c[Index(r, o, m, n)] == if (r, o) in done.cells then cell(r, o) else was[Index(r, o, m, n)])
  }

  lemma ProgressStart<T>(c: array<T>, m: nat, n: nat, cell: (int, int) -> T)
    requires c.Length == m * n
    ensures Progress(c, c[..], m, n, cell, Stores({}, []))
  {
  }

  // Store at local position (j, o) of the band that starts at row r0.
  method StoreCell<T>(c: array<T>, m: nat, n: nat, r0: nat, j: nat, o: nat, v: T,
                      ghost was: seq<T>, ghost cell: (int, int) -> T, ghost done: Stores)
    returns (ghost done': Stores)
    requires Progress(c, was, m, n, cell, done)
    requires r0 + j < m && o < n && (r0 + j, o) !in done.cells && v == cell(r0 + j, o)
    modifies c
    ensures done' == done.Add(r0 + j, o)
    ensures Progress(c, was, m, n, cell, done')
  {
    assert r0 * n + (j * n + o) == Index(r0 + j, o, m, n);
    c[r0 * n + (j * n + o)] := v;
    done' := done.Add(r0 + j, o);
    OnceAdd(done, r0 + j, o);
    forall r, o' | 0 <= r < m && 0 <= o' < n
      ensures c[Index(r, o', m, n)] == if (r, o') in done'.cells then cell(r, o') else was[Index(r, o', m, n)]
    {
      if Index(r, o', m, n) == Index(r0 + j, o, m, n) {
        IndexInjective(r, o', r0 + j, o, m, n);
      }
    }
  }

  lemma ProgressComplete<T>(c: array<T>, was: seq<T>, m: nat, n: nat, cell: (int, int) -> T, done: Stores)
    requires Progress(c, was, m, n, cell, done)
    requires forall r, o :: 0 <= r < m && 0 <= o < n ==> (r, o) in done.cells
    ensures c[..] == Table(m, n, cell) && StoredOnce(done.log, m, n)
  {
    OnceComplete(done, m, n);
    TableUnique(c[..], Table(m, n, cell), m, n);
  }

  // ----- rectangles and bands ------------------------------------------------

  ghost predicate Adds(done: Stores, done': Stores, rlo: int, rhi: int, olo: int, ohi: int) {
    forall r, o :: (r, o) in done'.cells <==> (r, o) in done.cells || (rlo <= r < rhi && olo <= o < ohi)
  }

  ghost predicate Free(done: Stores, rlo: int, rhi: int, olo: int, ohi: int) {
    forall r, o :: rlo <= r < rhi && olo <= o < ohi ==> (r, o) !in done.cells
  }

  function Min(x: int, y: int): int { if x < y then x else y }

  // The bands of `rows` rows still pending are untouched, the others stored over mm x nn.
  ghost predicate BandsDone(done: Stores, pending: set<int>, rows: nat, mm: nat, nn: nat)
    requires rows > 0
  {
    forall r, o :: (r, o) in done.cells <==> 0 <= r < mm && 0 <= o < nn && r / rows !in pending
  }

  lemma BandRow(r: int, rows: nat, t: int)
    requires rows > 0 && r >= 0
    ensures r / rows == t <==> t * rows <= r < t * rows + rows
  {
    var q := r / rows;
    assert r == q * rows + r % rows;
    if t < q {
      MulMonotone(t + 1, q, rows);
    } else if t > q {
      MulMonotone(q + 1, t, rows);
    }
  }

  function TaskSet(tasks: nat): (s: set<int>)
    ensures forall t :: t in s <==> 0 <= t < tasks
  {
    if tasks == 0 then {} else TaskSet(tasks - 1) + {tasks - 1}
  }

  lemma BandsStart(rows: nat, mm: nat, nn: nat, tasks: nat)
    requires rows > 0 && mm <= tasks * rows
    ensures BandsDone(Stores({}, []), TaskSet(tasks), rows, mm, nn)
  {
    forall r | 0 <= r < mm
      ensures 0 <= r / rows < tasks
    {
      assert r < tasks * rows;
      QuotientBound(r, tasks, rows);
    }
  }

  lemma BandsFree(done: Stores, pending: set<int>, rows: nat, mm: nat, nn: nat, t: int)
    requires rows > 0 && t >= 0 && t in pending && BandsDone(done, pending, rows, mm, nn)
    ensures Free(done, TaskRow(t, rows), Min(mm, TaskRow(t, rows) + rows), 0, nn)
  {
    forall r, o | t * rows <= r < Min(mm, t * rows + rows) && 0 <= o < nn
      ensures (r, o) !in done.cells
    {
      BandRow(r, rows, t);
    }
  }

  lemma BandsStep(done: Stores, done': Stores, pending: set<int>, rows: nat, mm: nat, nn: nat, t: int)
    requires rows > 0 && t >= 0 && t in pending && BandsDone(done, pending, rows, mm, nn)
    requires Adds(done, done', TaskRow(t, rows), Min(mm, TaskRow(t, rows) + rows), 0, nn)
    ensures BandsDone(done', pending - {t}, rows, mm, nn)
  {
    forall r, o
      ensures (r, o) in done'.cells <==> 0 <= r < mm && 0 <= o < nn && r / rows !in pending - {t}
    {
      if r >= 0 {
        BandRow(r, rows, t);
      }
    }
  }

  lemma BandsEnd(done: Stores, rows: nat, mm: nat, nn: nat)
    requires rows > 0 && BandsDone(done, {}, rows, mm, nn)
    ensures forall r, o :: (r, o) in done.cells <==> 0 <= r < mm && 0 <= o < nn
  {
  }

  lemma Associate(p: int, rows: int, n: int)
    ensures (p * rows) * n == p * (rows * n)
  {
  }

  // q is the number of chunks of d that cover x.
  lemma CeilUnique(x: nat, d: nat, q: nat)
    requires d > 0 && x <= q * d && (q > 0 ==> (q - 1) * d < x)
    ensures DivCeil(x, d) == q
  {
    assert (q + 1) * d == q * d + d && (q > 0 ==> (q - 1) * d == q * d - d);
    if q == 0 {
      DivUnique(x + d - 1, d, 0);
    } else {
      DivUnique(x + d - 1, d, q);
    }
  }

  lemma CeilIs(m: nat, rows: nat)
    requires rows > 0
    ensures var q := DivCeil(m, rows); m <= q * rows && (q > 0 ==> (q - 1) * rows < m) && (q == 0 <==> m == 0)
  {
    var q, x := DivCeil(m, rows), m + rows - 1;
    assert x == q * rows + x % rows;
    assert q > 0 ==> (q - 1) * rows == q * rows - rows;
  }

  lemma Stretch(p: nat, m: nat, n: nat)
    requires p < m && n > 0
    ensures p * n < m * n
  {
    MulMonotone(p + 1, m, n);
    assert (p + 1) * n == p * n + n;
  }

  // Splitting m * n cells into chunks of rows * n gives one chunk per row band.
  lemma ChunkCount(m: nat, n: nat, rows: nat)
    requires n > 0 && rows > 0
    ensures rows * n > 0
    ensures DivCeil(m * n, rows * n) == DivCeil(m, rows)
    ensures DivCeil(m, rows) * rows >= m > (DivCeil(m, rows) - 1) * rows || m == 0
  {
    var q := DivCeil(m, rows);
    CeilIs(m, rows);
    Stretch(0, rows, n);
    MulMonotone(m, q * rows, n);
    Associate(q, rows, n);
    if q > 0 {
      MulMonotone(0, q - 1, rows);
      Stretch((q - 1) * rows, m, n);
      Associate(q - 1, rows, n);
    }
    CeilUnique(m * n, rows * n, q);
  }

  lemma DivUnique(y: nat, d: nat, q: nat)
    requires d > 0 && q * d <= y < (q + 1) * d
    ensures y / d == q
  {
    var q' := y / d;
    assert y == q' * d + y % d;
    if q' < q {
      MulMonotone(q' + 1, q, d);
    } else if q' > q {
      MulMonotone(q + 1, q', d);
    }
  }

  // How many tasks the chunking of an m x n buffer into bands of `rows` rows makes.
  method CountTasks(m: nat, n: nat, rows: nat) returns (tasks: nat)
    requires n > 0 && rows > 0
    ensures tasks == DivCeil(m, rows) && tasks * rows >= m
    ensures forall t: nat :: t < tasks ==> TaskRow(t, rows) < m
  {
    ChunkCount(m, n, rows);
    tasks := DivCeil(m * n, rows * n);
    forall t: nat | t < tasks
      ensures TaskRow(t, rows) < m
    {
      MulMonotone(t, tasks - 1, rows);
    }
  }

  // First row of task t.
  function TaskRow(t: nat, rows: nat): nat {
    t * rows
  }
}
