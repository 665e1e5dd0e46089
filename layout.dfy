/**
  The layout planner of the mixed-precision GEMM example: from the problem
  dimensions M, N, K and the transposition choices for A and B it derives every
  operand's leading dimension, host buffer length and the (row-stride,
  column-stride) pair that the host reference multiply reads it through.
*/
module Layout {
  import opened Arith

  /** The operand transformation. The planner only tests for "none", so every
      other rocBLAS operation (transpose and conjugate transpose alike) is
      Transpose here. */
  datatype Operation = None | Transpose

  /** How one operand lies in its host buffer: the leading dimension, the buffer
      length in elements, and the strides through which element (row, col) of the
      logical operand is found at position row * stride1 + col * stride2. */
  datatype OperandLayout = OperandLayout(ld: int32, size: int32, stride1: int32, stride2: int32)

  /** Everything the planner derives for one run; nra/nca and nrb/ncb are the
      row and column counts A and B are printed with. */
  datatype GemmLayout = GemmLayout(
    a: OperandLayout, b: OperandLayout, c: OperandLayout, d: OperandLayout,
    nra: int32, nca: int32, nrb: int32, ncb: int32)

  /** A logical rows x cols operand whose element count fits in a rocblas_int. */
  predicate Fits(rows: int32, cols: int32) {
    0 <= rows && 0 <= cols && rows as int * cols as int <= INT32_MAX
  }

  /** The dimensions the planner is run with: positive (lda and ldb are
      divisors further on, and each of M, N, K is one of them for some choice
      of flags) and small enough that no buffer length overflows. */
  predicate ValidDims(m: int32, n: int32, k: int32) {
    0 < m && 0 < n && 0 < k && Fits(m, k) && Fits(k, n) && Fits(m, n)
  }

  /** The layout of a logical rows x cols operand op(X). A is planned as
      PlanOperand(transA, M, K) and B as PlanOperand(transB, K, N). Whatever
      the operation, the buffer holds exactly rows * cols elements and all
      strides are non-negative. */
  function PlanOperand(op: Operation, rows: int32, cols: int32): (o: OperandLayout)
    requires Fits(rows, cols)
    ensures o.size as int == rows as int * cols as int
    ensures 0 <= o.ld && 0 <= o.stride1 && 0 <= o.stride2
    ensures (o.stride1 == 1 && o.stride2 == o.ld) || (o.stride1 == o.ld && o.stride2 == 1)
  {
    match op
    case None =>
      var ld := rows;
      OperandLayout(ld, cols * ld, 1, ld)
    case Transpose =>
      var ld := cols;
      OperandLayout(ld, rows * ld, ld, 1)
  }

  /** The whole plan. Transposition changes only leading dimensions and strides:
      A always holds M * K elements and B always K * N; C and D never depend on
      the flags; the print shapes of A and B cover their buffers exactly. */
  function PlanLayout(transA: Operation, transB: Operation, m: int32, n: int32, k: int32): (p: GemmLayout)
    requires ValidDims(m, n, k)
    ensures p.a.size as int == m as int * k as int
    ensures p.b.size as int == k as int * n as int
    ensures p.c == p.d
    ensures p.c.ld == m && p.c.size as int == n as int * m as int
    ensures p.c.stride1 == 1 && p.c.stride2 == p.c.ld
    ensures p.nra == p.a.ld && p.nra as int * p.nca as int == p.a.size as int
    ensures p.nrb == p.b.ld && p.nrb as int * p.ncb as int == p.b.size as int
  {
    var a := PlanOperand(transA, m, k);
    var nra := a.ld;
    ExactQuotient(if transA == None then k as int else m as int, a.ld as int);
    var nca := a.size / a.ld;
    var b := PlanOperand(transB, k, n);
    var nrb := b.ld;
    ExactQuotient(if transB == None then n as int else k as int, b.ld as int);
    var ncb := b.size / b.ld;
    var ldc := m;
    var ldd := m;
    GemmLayout(
      a, b,
      OperandLayout(ldc, n * ldc, 1, ldc),
      OperandLayout(ldd, n * ldd, 1, ldd),
      nra, nca, nrb, ncb)
  }

  /** The per-flag rules: for "none" A is M-major (lda = M, strides (1, lda)),
      for "transpose" it is K-major (lda = K, strides (lda, 1)); B follows the
      same rules with K and N in place of M and K. */
  lemma OperandRules(transA: Operation, transB: Operation, m: int32, n: int32, k: int32)
    requires ValidDims(m, n, k)
    ensures var p := PlanLayout(transA, transB, m, n, k);
      && (transA == None ==> p.a.ld == m && p.a.stride1 == 1 && p.a.stride2 == p.a.ld)
      && (transA == Transpose ==> p.a.ld == k && p.a.stride1 == p.a.ld && p.a.stride2 == 1)
      && (transB == None ==> p.b.ld == k && p.b.stride1 == 1 && p.b.stride2 == p.b.ld)
      && (transB == Transpose ==> p.b.ld == n && p.b.stride1 == p.b.ld && p.b.stride2 == 1)
  {
  }

  /** A and B are printed as their stored matrices: ld rows and the other
      logical dimension as columns, so NCA is K for "none" and M for
      "transpose", and NCB is N for "none" and K for "transpose". */
  lemma PrintShape(transA: Operation, transB: Operation, m: int32, n: int32, k: int32)
    requires ValidDims(m, n, k)
    ensures var p := PlanLayout(transA, transB, m, n, k);
      && p.nca == (if transA == None then k else m)
      && p.ncb == (if transB == None then n else k)
  {
    var p := PlanLayout(transA, transB, m, n, k);
    ExactQuotient(if transA == None then k as int else m as int, p.a.ld as int);
    ExactQuotient(if transB == None then n as int else k as int, p.b.ld as int);
  }

  /** C and D are laid out as an untransposed M x N operand, whatever the flags. */
  lemma OutputIsUntransposed(transA: Operation, transB: Operation, m: int32, n: int32, k: int32)
    requires ValidDims(m, n, k)
    ensures var p := PlanLayout(transA, transB, m, n, k);
      p.c == PlanOperand(None, m, n) && p.d == PlanOperand(None, m, n)
  {
  }
}
