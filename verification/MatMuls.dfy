// Row-major matrix product with uninterpreted arithmetic: each cell accumulates its
// products from the left, and nothing is assumed about addition or multiplication.
module MatMuls {
  import opened Grid

  datatype Arith<!F> = Arith(zero: F, add: (F, F) -> F, mul: (F, F) -> F)

  // ((zero + f(0)) + f(1)) + ... + f(n - 1).
  ghost function FoldBy<F>(ar: Arith<F>, f: int -> F, n: nat): F {
    if n == 0 then ar.zero else ar.add(FoldBy(ar, f, n - 1), f(n - 1))
  }

  function Entry<F>(m: seq<F>, rows: nat, cols: nat, r: nat, c: nat): F
    requires |m| == rows * cols && r < rows && c < cols
  {
    m[Index(r, c, rows, cols)]
  }

  // Products of row o of a [rows, inner] matrix with column co of an [inner, cols] one.
  ghost function ProductTerms<F>(ar: Arith<F>, a: seq<F>, b: seq<F>, rows: nat, inner: nat, cols: nat, o: nat,
                                 co: nat): int -> F
    requires |a| == rows * inner && |b| == inner * cols && o < rows && co < cols
  {
    (j: int) => if 0 <= j < inner then ar.mul(Entry(a, rows, inner, o, j), Entry(b, inner, cols, j, co)) else ar.zero
  }

  ghost function MatMulCell<F>(ar: Arith<F>, a: seq<F>, b: seq<F>, rows: nat, inner: nat, cols: nat): (int, int) -> F
    requires |a| == rows * inner && |b| == inner * cols
  {
    (o: int, co: int) =>
      if 0 <= o < rows && 0 <= co < cols then FoldBy(ar, ProductTerms(ar, a, b, rows, inner, cols, o, co), inner)
      else ar.zero
  }

  ghost function MatMul<F>(ar: Arith<F>, a: seq<F>, b: seq<F>, rows: nat, inner: nat, cols: nat): (c: seq<F>)
    requires |a| == rows * inner && |b| == inner * cols
    ensures |c| == rows * cols
  {
    Table(rows, cols, MatMulCell(ar, a, b, rows, inner, cols))
  }

  // Two accumulations of equal terms are equal.
  lemma {:induction false} FoldEqual<F>(ar: Arith<F>, f: int -> F, g: int -> F, n: nat)
    requires forall j :: 0 <= j < n ==> f(j) == g(j)
    ensures FoldBy(ar, f, n) == FoldBy(ar, g, n)
  {
    if n > 0 {
      FoldEqual(ar, f, g, n - 1);
    }
  }

  // Product x of output (o, co) multiplies the entries at o * inner + x and x * cols + co.
  lemma TermIs<F>(ar: Arith<F>, a: seq<F>, b: seq<F>, rows: nat, inner: nat, cols: nat, o: nat, co: nat, x: nat,
                  p: nat, q: nat)
    requires |a| == rows * inner && |b| == inner * cols && o < rows && co < cols && x < inner
    requires p == o * inner + x && q == x * cols + co
    ensures p < |a| && q < |b| && ProductTerms(ar, a, b, rows, inner, cols, o, co)(x) == ar.mul(a[p], b[q])
  {
    assert Index(o, x, rows, inner) == p && Index(x, co, inner, cols) == q;
    assert Entry(a, rows, inner, o, x) == a[p] && Entry(b, inner, cols, x, co) == b[q];
    var f := ProductTerms(ar, a, b, rows, inner, cols, o, co);
    assert f(x) == ar.mul(Entry(a, rows, inner, o, x), Entry(b, inner, cols, x, co));
  }
}
