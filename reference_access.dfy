/**
  Which buffer positions the host reference multiply touches. Its numerics are
  not modelled; only its access pattern is: for every output element
  (row, col) with row < M and col < N and every k < K it reads A(row, k)
  through (strideA1, strideA2) and B(k, col) through (strideB1, strideB2); it
  reads C(row, col) through (1, ldc) and writes D(row, col) through (1, ldd).
*/
module ReferenceAccess {
  import opened Arith
  import opened Layout
  import opened Indexing

  /** The positions 0, 1, ..., size - 1 of a host buffer of the given length. */
  function Buffer(size: int): (b: set<int>)
    ensures forall i :: i in b <==> 0 <= i < size
    decreases size
  {
    if size <= 0 then {} else Buffer(size - 1) + {size - 1}
  }

  /** The positions that the logical rows x cols elements of an operand occupy. */
  function Footprint(o: OperandLayout, rows: int, cols: int): set<int> {
    set row: int, col: int | 0 <= row < rows && 0 <= col < cols :: ElementIndex(o, row, col)
  }

  /** The multiply-accumulate steps (row, col, k) of an M x N x K product. */
  function Steps(m: int, n: int, k: int): set<(int, int, int)> {
    set row: int, col: int, kk: int | 0 <= row < m && 0 <= col < n && 0 <= kk < k :: (row, col, kk)
  }

  /** The positions of hA read by the steps: step (row, col, k) reads A(row, k).
      Every col < N repeats the same reads, so A's whole footprint is read when
      N is not zero and nothing is read otherwise. */
  function ReadsA(p: GemmLayout, m: int, n: int, k: int): (r: set<int>)
    ensures 0 < n ==> r == Footprint(p.a, m, k)
    ensures n <= 0 ==> r == {}
  {
    var r := set st | st in Steps(m, n, k) :: ElementIndex(p.a, st.0, st.2);
    assert 0 < n ==> r == Footprint(p.a, m, k) by {
      if 0 < n {
        forall i | i in Footprint(p.a, m, k) ensures i in r {
          var row: int, kk: int :| 0 <= row < m && 0 <= kk < k && i == ElementIndex(p.a, row, kk);
          assert (row, 0, kk) in Steps(m, n, k);
        }
      }
    }
    r
  }

  /** The positions of hB read by the steps: step (row, col, k) reads B(k, col).
      Every row < M repeats the same reads, so B's whole footprint is read when
      M is not zero and nothing is read otherwise. */
  function ReadsB(p: GemmLayout, m: int, n: int, k: int): (r: set<int>)
    ensures 0 < m ==> r == Footprint(p.b, k, n)
    ensures m <= 0 ==> r == {}
  {
    var r := set st | st in Steps(m, n, k) :: ElementIndex(p.b, st.2, st.1);
    assert 0 < m ==> r == Footprint(p.b, k, n) by {
      if 0 < m {
        forall i | i in Footprint(p.b, k, n) ensures i in r {
          var kk: int, col: int :| 0 <= kk < k && 0 <= col < n && i == ElementIndex(p.b, kk, col);
          assert (0, col, kk) in Steps(m, n, k);
        }
      }
    }
    r
  }

  /** The positions of hC read: C(row, col) for every output element. */
  function ReadsC(p: GemmLayout, m: int, n: int): set<int> {
    Footprint(p.c, m, n)
  }

  /** The positions of hDGold written: D(row, col) for every output element. */
  function WritesD(p: GemmLayout, m: int, n: int): set<int> {
    Footprint(p.d, m, n)
  }

  /** A planned operand's elements fill its buffer exactly: none lies outside
      it and no position is left unaddressed. */
  lemma FootprintIsBuffer(op: Operation, rows: int32, cols: int32)
    requires Fits(rows, cols)
    ensures var o := PlanOperand(op, rows, cols);
      Footprint(o, rows as int, cols as int) == Buffer(o.size as int)
  {
    var o := PlanOperand(op, rows, cols);
    var fp, buf := Footprint(o, rows as int, cols as int), Buffer(o.size as int);
    forall i | i in fp ensures i in buf {
      var row: int, col: int :| InBox(row, col, rows as int, cols as int) && i == ElementIndex(o, row, col);
      ElementIndexInBounds(op, rows, cols, row, col);
    }
    forall i | i in buf ensures i in fp {
      LocateFindsElement(op, rows, cols, i);
      var rc := Locate(op, o.ld as int, i);
      assert i == ElementIndex(o, rc.0, rc.1);
    }
  }

  /** The safety property of the planner: with either transposition choice,
      every position the reference multiply reads from A, B and C and writes
      in D lies inside the host buffer allocated with the planned length, and
      every position of those buffers is used. Since the lengths fit a
      rocblas_int, so does every position. */
  lemma ReferenceAccessesMatchBuffers(transA: Operation, transB: Operation, m: int32, n: int32, k: int32)
    requires ValidDims(m, n, k)
    ensures var p := PlanLayout(transA, transB, m, n, k);
      && ReadsA(p, m as int, n as int, k as int) == Buffer(p.a.size as int)
      && ReadsB(p, m as int, n as int, k as int) == Buffer(p.b.size as int)
      && ReadsC(p, m as int, n as int) == Buffer(p.c.size as int)
      && WritesD(p, m as int, n as int) == Buffer(p.d.size as int)
  {
    var p := PlanLayout(transA, transB, m, n, k);
    FootprintIsBuffer(transA, m, k);
    FootprintIsBuffer(transB, k, n);
    FootprintIsBuffer(None, m, n);
    OutputIsUntransposed(transA, transB, m, n, k);
  }

  /** Each output element is written at a position of its own, so no two
      output elements of the reference multiply share a slot of D. */
  lemma OutputSlotsDistinct(transA: Operation, transB: Operation, m: int32, n: int32, k: int32,
                            row: int, col: int, row': int, col': int)
    requires ValidDims(m, n, k)
    requires InBox(row, col, m as int, n as int) && InBox(row', col', m as int, n as int)
    requires (row, col) != (row', col')
    ensures var p := PlanLayout(transA, transB, m, n, k);
      ElementIndex(p.d, row, col) != ElementIndex(p.d, row', col')
  {
    OutputIsUntransposed(transA, transB, m, n, k);
    if ElementIndex(PlanOperand(None, m, n), row, col) == ElementIndex(PlanOperand(None, m, n), row', col') {
      ElementIndexInjective(None, m, n, row, col, row', col');
    }
  }
}
