/**
  How a planned operand is indexed. The planner's strides are compared with an
  independent description of the BLAS storage convention (the buffer holds the
  stored matrix X column-major, and op(X) is X for "none" and the transpose of
  X otherwise), and shown to be a bijection between the logical index box and
  the buffer positions [0, size), with Locate as its inverse.
*/
module Indexing {
  import opened Arith
  import opened Layout

  /** Buffer position of element (row, col) of the logical operand:
      row * stride1 + col * stride2. */
  function ElementIndex(o: OperandLayout, row: int, col: int): int {
    row * o.stride1 as int + col * o.stride2 as int
  }

  predicate InBox(row: int, col: int, rows: int, cols: int) {
    0 <= row < rows && 0 <= col < cols
  }

  /** Row count of the stored matrix X behind a logical rows x cols operand op(X). */
  function StoredRows(op: Operation, rows: int, cols: int): int {
    if op == None then rows else cols
  }

  /** Column count of the stored matrix X behind a logical rows x cols operand op(X). */
  function StoredCols(op: Operation, rows: int, cols: int): int {
    if op == None then cols else rows
  }

  /** Column-major position of entry (i, j) of a matrix with leading dimension ld. */
  function ColumnMajor(ld: int, i: int, j: int): int {
    i + j * ld
  }

  /** Position of element (row, col) of op(X) when X is stored column-major. */
  function StoredIndex(op: Operation, ld: int, row: int, col: int): int {
    if op == None then ColumnMajor(ld, row, col) else ColumnMajor(ld, col, row)
  }

  /** The logical element (row, col) of op(X) stored at position idx when X is
      stored column-major with leading dimension ld: the inverse of StoredIndex,
      with the stored row index inside [0, ld). */
  function Locate(op: Operation, ld: int, idx: int): (rc: (int, int))
    requires 0 < ld && 0 <= idx
    ensures 0 <= rc.0 && 0 <= rc.1
    ensures (if op == None then rc.0 else rc.1) < ld
    ensures StoredIndex(op, ld, rc.0, rc.1) == idx
  {
    DivModSplit(idx, ld);
    if op == None then (idx % ld, idx / ld) else (idx / ld, idx % ld)
  }

  /** The planner agrees with the storage convention: the leading dimension is
      the stored matrix's row count, the buffer holds the whole stored matrix,
      and the strides address entry (row, col) of op(X) where column-major
      storage puts it. */
  lemma ColumnMajorAgreement(op: Operation, rows: int32, cols: int32)
    requires Fits(rows, cols)
    ensures var o := PlanOperand(op, rows, cols);
      && o.ld as int == StoredRows(op, rows as int, cols as int)
      && o.size as int == StoredRows(op, rows as int, cols as int) * StoredCols(op, rows as int, cols as int)
      && forall row: int, col: int :: ElementIndex(o, row, col) == StoredIndex(op, o.ld as int, row, col)
  {
  }

  /** Every element of the logical box is read inside the buffer. */
  lemma ElementIndexInBounds(op: Operation, rows: int32, cols: int32, row: int, col: int)
    requires Fits(rows, cols) && InBox(row, col, rows as int, cols as int)
    ensures var o := PlanOperand(op, rows, cols);
      0 <= ElementIndex(o, row, col) < o.size as int
  {
    if op == None {
      BoxBound(row, col, rows as int, cols as int);
    } else {
      BoxBound(col, row, cols as int, rows as int);
    }
  }

  /** Distinct logical elements occupy distinct buffer positions. */
  lemma ElementIndexInjective(op: Operation, rows: int32, cols: int32, row: int, col: int, row': int, col': int)
    requires Fits(rows, cols)
    requires InBox(row, col, rows as int, cols as int) && InBox(row', col', rows as int, cols as int)
    requires var o := PlanOperand(op, rows, cols);
      ElementIndex(o, row, col) == ElementIndex(o, row', col')
    ensures row == row' && col == col'
  {
    if op == None {
      DigitsUnique(row, col, row', col', rows as int);
    } else {
      DigitsUnique(col, row, col', row', cols as int);
    }
  }

  /** Every buffer position holds some logical element, and Locate names it. */
  lemma LocateFindsElement(op: Operation, rows: int32, cols: int32, idx: int)
    requires Fits(rows, cols)
    requires 0 <= idx < PlanOperand(op, rows, cols).size as int
    ensures var o := PlanOperand(op, rows, cols);
      && 0 < o.ld
      && var rc := Locate(op, o.ld as int, idx);
      && InBox(rc.0, rc.1, rows as int, cols as int)
      && ElementIndex(o, rc.0, rc.1) == idx
  {
    if op == None {
      BoxSplit(idx, rows as int, cols as int);
    } else {
      BoxSplit(idx, cols as int, rows as int);
    }
  }

  /** Locate undoes ElementIndex on the logical box. */
  lemma LocateElementIndex(op: Operation, rows: int32, cols: int32, row: int, col: int)
    requires Fits(rows, cols) && InBox(row, col, rows as int, cols as int)
    ensures var o := PlanOperand(op, rows, cols);
      0 < o.ld && Locate(op, o.ld as int, ElementIndex(o, row, col)) == (row, col)
  {
    var o := PlanOperand(op, rows, cols);
    var idx := ElementIndex(o, row, col);
    ElementIndexInBounds(op, rows, cols, row, col);
    LocateFindsElement(op, rows, cols, idx);
    var rc := Locate(op, o.ld as int, idx);
    ElementIndexInjective(op, rows, cols, rc.0, rc.1, row, col);
  }
}
