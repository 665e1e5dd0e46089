# Layout planner of the rocBLAS `gemm_ex_f16_r` example

The `gemm_ex_f16_r` example checks a GPU half-precision GEMM,
D = alpha·op(A)·op(B) + beta·C, against a reference multiply on the host. Before
it allocates anything, `main` works out how each operand is stored. From the
dimensions M, N, K and the two transposition choices it derives:

- the leading dimensions `lda`, `ldb`, `ldc`, `ldd`;
- the host buffer lengths `sizeA` … `sizeD`;
- the (row-stride, column-stride) pairs through which the reference multiply reads A and B;
- the row and column counts that A and B are printed with.

C and D are always read and written through `(1, ldc)` and `(1, ldd)`.

This project models that planner as pure functions over 32-bit integers. It
proves what the plan guarantees:

- whatever the flags, A holds M·K elements and B holds K·N;
- C and D do not depend on the flags;
- the strides follow the BLAS column-major convention;
- for each operand, the stride pair is a bijection between the logical index box and the buffer positions `[0, size)`. `Indexing.Locate` is its inverse.

So every position the reference multiply reads or writes lies inside the buffer
allocated for it, every buffer position is used, and no two output elements
share a slot of D.

Files and modules:

- `arith.dfy` (`Arith`): the `int32` newtype for `rocblas_int`/`int`, and facts about products, quotients and remainders.
- `layout.dfy` (`Layout`): `Operation`, `OperandLayout`, `GemmLayout`, the planner `PlanOperand`/`PlanLayout`, and the per-flag rules.
- `indexing.dfy` (`Indexing`): element positions. Compares the strides with column-major storage and proves the bijection.
- `reference_access.dfy` (`ReferenceAccess`): the access pattern of the host reference multiply (which positions it reads and writes, no numerics), and the in-bounds theorem.

Modelling decisions:

- **Operations.** The planner only tests `trans == rocblas_operation_none`. So `Operation` has two values, and `Transpose` stands for every other rocBLAS operation, conjugate transpose included. The program fixes both flags to "none" (lines 70–71); the model covers both branches of each test.
- **One function for A and B.** A is `PlanOperand(transA, M, K)` and B is `PlanOperand(transB, K, N)`. The two `if`/`else` blocks (lines 76–89 and 93–106) are the same rule with (M, K) and (K, N) as the logical shape. `PlanOperand` keeps the source's order of products (`cols * ld` for "none", `rows * ld` otherwise).
- **C and D.** They are written out as the source has them (`ldc = M`, `sizeC = N * ldc`, strides `(1, ldc)`). `Layout.OutputIsUntransposed` shows that this equals `PlanOperand(None, M, N)`.
- **Integer width.** Every planner quantity is an `int32`, so Dafny checks each product for overflow. The planner therefore requires M·K, K·N and M·N to be at most 2^31−1. The source does not check this: a larger product is signed overflow, which C++ leaves undefined.
- **Positive dimensions.** `PlanLayout` requires M, N, K > 0. Lines 91 and 108 divide by `lda` and `ldb`. Depending on the flags, these are M or K and K or N. `PlanOperand` on its own accepts zero extents, because it performs no division.

## Model

| member | source | states |
|---|---|---|
| Layout.PlanOperand | Extensions/gemm_ex_f16_r/gemm_ex_f16_r.cpp:76-106 | an operand's buffer holds exactly rows·cols elements whatever the operation; strides are non-negative and are (1, ld) or (ld, 1) |
| Layout.PlanLayout | Extensions/gemm_ex_f16_r/gemm_ex_f16_r.cpp:73-114 | sizeA = M·K and sizeB = K·N for every flag choice; C and D layouts are equal, with ldc = M, sizeC = N·M and strides (1, ldc); NRA = lda, NRB = ldb, and NRA·NCA = sizeA, NRB·NCB = sizeB exactly |
| Layout.OperandRules | Extensions/gemm_ex_f16_r/gemm_ex_f16_r.cpp:76-106 | "none" gives lda = M, strides (1, lda), and "transpose" gives lda = K, strides (lda, 1); for B, ldb = K with (1, ldb), or ldb = N with (ldb, 1) |
| Layout.PrintShape | Extensions/gemm_ex_f16_r/gemm_ex_f16_r.cpp:91-108 | the integer division sizeA/lda gives NCA = K for "none" and M for "transpose"; NCB = N for "none" and K for "transpose" |
| Layout.OutputIsUntransposed | Extensions/gemm_ex_f16_r/gemm_ex_f16_r.cpp:111-114 | C and D are both laid out as an untransposed M×N operand, independent of transA and transB |
| Indexing.ElementIndex | Extensions/gemm_ex_f16_r/gemm_ex_f16_r.cpp:224-240 | the position row·stride1 + col·stride2 through which the reference multiply reaches element (row, col) of an operand, with the stride pairs passed at these lines; the formula is assumed from those arguments, since the body of helpers::matMatMultMixPrec is not part of this model |
| Indexing.ColumnMajorAgreement | Extensions/gemm_ex_f16_r/gemm_ex_f16_r.cpp:76-106 | the leading dimension is the stored matrix's row count, the buffer length is its element count, and row·stride1 + col·stride2 is where column-major storage puts element (row, col) of op(X) |
| Indexing.ElementIndexInBounds | Extensions/gemm_ex_f16_r/gemm_ex_f16_r.cpp:224-234 | for every row < rows and col < cols, row·stride1 + col·stride2 lies in [0, size), for both operations |
| Indexing.ElementIndexInjective | Extensions/gemm_ex_f16_r/gemm_ex_f16_r.cpp:78-88 | two logical elements in the box with the same buffer position are the same element |
| Indexing.Locate | Extensions/gemm_ex_f16_r/gemm_ex_f16_r.cpp:76-106 | the inverse partner of the column-major addressing the planner sets up (the source computes no inverse): for a leading dimension ld > 0 and a position idx ≥ 0, returns non-negative logical indices whose stored row lies in [0, ld) and which column-major storage puts exactly at idx |
| Indexing.LocateFindsElement | Extensions/gemm_ex_f16_r/gemm_ex_f16_r.cpp:76-106 | every position in [0, size) is the position of the element of the box that Locate names |
| Indexing.LocateElementIndex | Extensions/gemm_ex_f16_r/gemm_ex_f16_r.cpp:76-106 | Locate recovers (row, col) from row·stride1 + col·stride2 for every element of the box |
| ReferenceAccess.Buffer | Extensions/gemm_ex_f16_r/gemm_ex_f16_r.cpp:125-129 | a host vector of length size has exactly the positions 0 ≤ i < size |
| ReferenceAccess.ReadsA | Extensions/gemm_ex_f16_r/gemm_ex_f16_r.cpp:224-231 | the positions of hA read by the multiply-accumulate steps (row, col, k), row < M, col < N, k < K, through (strideA1, strideA2); step (row, col, k) reads A(row, k); proved equal to the positions of A's M×K elements when N > 0 (every column repeats the same reads) and empty when N = 0; the access pattern is assumed from the arguments passed, since the body of helpers::matMatMultMixPrec is not part of this model |
| ReferenceAccess.ReadsB | Extensions/gemm_ex_f16_r/gemm_ex_f16_r.cpp:224-234 | the positions of hB read by the steps (row, col, k) through (strideB1, strideB2), where step (row, col, k) reads B(k, col); proved equal to the positions of B's K×N elements when M > 0 and empty when M = 0; access pattern assumed from the arguments passed, as for ReadsA |
| ReferenceAccess.ReadsC | Extensions/gemm_ex_f16_r/gemm_ex_f16_r.cpp:235-237 | the positions of hC read for the output elements (row, col), row < M, col < N, through (1, ldc), i.e. the footprint of C's M×N elements (a set: how often each position is read is not modelled); access pattern assumed from the arguments passed, as for ReadsA |
| ReferenceAccess.WritesD | Extensions/gemm_ex_f16_r/gemm_ex_f16_r.cpp:238-240 | the positions of hDGold written for the output elements (row, col) through (1, ldd), i.e. the footprint of D's M×N elements (a set: how often each position is written is not modelled); access pattern assumed from the arguments passed, as for ReadsA |
| ReferenceAccess.FootprintIsBuffer | Extensions/gemm_ex_f16_r/gemm_ex_f16_r.cpp:76-106 | the positions of an operand's rows×cols elements are exactly the positions of its buffer |
| ReferenceAccess.ReferenceAccessesMatchBuffers | Extensions/gemm_ex_f16_r/gemm_ex_f16_r.cpp:224-240 | under either flag choice, the reference multiply reads exactly the positions of hA, hB and hC and writes exactly those of hDGold; nothing outside the allocated lengths is read or written |
| ReferenceAccess.OutputSlotsDistinct | Extensions/gemm_ex_f16_r/gemm_ex_f16_r.cpp:235-240 | distinct output elements (row, col) are written at distinct positions of D through (1, ldd) |

## Left out

- The reference multiply `helpers::matMatMultMixPrec` and the error metric `helpers::maxRelativeError` are defined in `helpers.hpp`, which is not part of this model. They are half-precision and float arithmetic. The multiply is represented only by the positions it touches, taken from the arguments passed at lines 224–240 (`ReferenceAccess`).
- The PASS/FAIL decision (lines 242–252) is a floating-point comparison against `std::numeric_limits<float>::epsilon()` times 10, so it is not modelled.
- Argument parsing and defaults through `helpers::ArgParser` (lines 39–48) are not modelled. Whether it rejects non-positive or very large M, N, K is not visible. The model states positivity and the no-overflow bound as preconditions instead.
- The random fill of the operands (lines 131–134) and the printing of the matrices and of the leading dimensions (lines 90, 107, 116, 136–147, 213–221) are I/O.
- The following are GPU I/O and an opaque library call: the rocBLAS handle, device allocation, the `hipMemcpy` transfers, and the asynchronous `rocblas_gemm_ex` call (lines 120–211, 255–256). The byte counts `sizeof(_Float16) * size` of the transfers are not modelled.
- `rmake.py` is build plumbing (OS detection, directory handling, cmake/make invocation) with no algorithmic content.
- Layout.PlanLayout: does not model what happens when M·K, K·N or M·N exceed 2^31−1, because the source's signed overflow is undefined behaviour; such inputs are excluded by the precondition.
