/** The scenarios of the transpose tests: the shape error, transposes of
    built matrices, the single-argument view, and the table of
    mask / complement x replace / merge x no accumulator / Plus cases on an
    output pre-filled with 9s. */
module TransposeTests {
  import opened Algebra
  import opened Sparse
  import opened Views
  import opened TransposeOps
  import opened GraphBLAS

  /** A: the 4 x 3 transpose of the grid NO_ACCUM_NO_MASK. C: a 3 x 4 grid of
      9s. The mask leaves out (1, 0), (2, 0), (2, 1) and (2, 2). */
  const ATMP: seq<seq<int>> := [[1, 1, 0], [1, 2, 2], [0, 2, 3], [0, 0, 3]]
  const CTMP: seq<seq<int>> := [[9, 9, 9, 9], [9, 9, 9, 9], [9, 9, 9, 9]]
  const MASK: seq<seq<int>> := [[1, 1, 1, 1], [0, 1, 1, 1], [0, 0, 0, 1]]

  lemma Fixtures()
    ensures IsGrid(DenseMatrix(CTMP, 0), CTMP) && IsGrid(DenseMatrix(MASK, 0), MASK) && IsGrid(DenseMatrix(ATMP, 0), ATMP)
  {
    DenseIsGrid(CTMP);
    DenseIsGrid(MASK);
    DenseIsGrid(ATMP);
  }

  /** A matrix that agrees with the rule at every position is the result. */
  lemma TransposeIs(c: SparseMatrix, mask: Mask<SparseMatrix>, accum: Accumulator, a: SparseMatrix, replace: bool,
                    ans: SparseMatrix)
    requires c.Valid() && a.Valid() && ans.Valid() && TransposeShapesAgree(c, mask, a)
    requires ans.nrows == c.nrows && ans.ncols == c.ncols
    requires forall i: nat, j: nat | i < c.nrows && j < c.ncols :: ans.ExtractElement(i, j) == TransposeRule(c, mask, accum, a, replace, i, j)
    ensures Transpose(c, mask, accum, a, replace) == Success(ans)
  {
    var r := Transpose(c, mask, accum, a, replace).value;
    forall i: nat, j: nat | i < c.nrows && j < c.ncols ensures r.ExtractElement(i, j) == ans.ExtractElement(i, j) {
      TransposeAt(c, mask, accum, a, replace, i, j);
    }
    MatrixEquality(r, ans);
  }

  const NO_ACCUM_NO_MASK: seq<seq<int>> := [[1, 1, 0, 0], [1, 2, 2, 0], [0, 2, 3, 3]]

  lemma NoAccumNoMaskAt(c: SparseMatrix, m: SparseMatrix, a: SparseMatrix, ans: SparseMatrix)
    requires IsGrid(c, CTMP) && IsGrid(m, MASK) && IsGrid(a, ATMP) && IsGrid(ans, NO_ACCUM_NO_MASK)
    ensures Transpose(c, NoMask, NoAccumulate, a, false) == Success(ans)
  {
    forall i: nat, j: nat | i < 3 && j < 4
      ensures ans.ExtractElement(i, j) == TransposeRule(c, NoMask, NoAccumulate, a, false, i, j)
    {
      GridAt(c, CTMP, i, j);
      GridAt(m, MASK, i, j);
      GridAt(a, ATMP, j, i);
      if i == 0 {
        if j == 0 {} else if j == 1 {} else if j == 2 {} else {}
      } else if i == 1 {
        if j == 0 {} else if j == 1 {} else if j == 2 {} else {}
      } else {
        if j == 0 {} else if j == 1 {} else if j == 2 {} else {}
      }
    }
    TransposeIs(c, NoMask, NoAccumulate, a, false, ans);
  }

  /** No mask: C becomes A's transpose, the 9s it does not cover removed. */
  lemma NoAccumNoMask()
    ensures Transpose(DenseMatrix(CTMP, 0), NoMask, NoAccumulate, DenseMatrix(ATMP, 0), false)
      == Success(DenseMatrix(NO_ACCUM_NO_MASK, 0))
  {
    Fixtures();
    DenseIsGrid(NO_ACCUM_NO_MASK);
    NoAccumNoMaskAt(DenseMatrix(CTMP, 0), DenseMatrix(MASK, 0), DenseMatrix(ATMP, 0), DenseMatrix(NO_ACCUM_NO_MASK, 0));
  }

  const NO_ACCUM_MASK_REPLACE: seq<seq<int>> := [[1, 1, 0, 0], [0, 2, 2, 0], [0, 0, 0, 3]]

  lemma NoAccumMaskReplaceAt(c: SparseMatrix, m: SparseMatrix, a: SparseMatrix, ans: SparseMatrix)
    requires IsGrid(c, CTMP) && IsGrid(m, MASK) && IsGrid(a, ATMP) && IsGrid(ans, NO_ACCUM_MASK_REPLACE)
    ensures Transpose(c, Mask(m), NoAccumulate, a, true) == Success(ans)
  {
    forall i: nat, j: nat | i < 3 && j < 4
      ensures ans.ExtractElement(i, j) == TransposeRule(c, Mask(m), NoAccumulate, a, true, i, j)
    {
      GridAt(c, CTMP, i, j);
      GridAt(m, MASK, i, j);
      GridAt(a, ATMP, j, i);
      if i == 0 {
        if j == 0 {} else if j == 1 {} else if j == 2 {} else {}
      } else if i == 1 {
        if j == 0 {} else if j == 1 {} else if j == 2 {} else {}
      } else {
        if j == 0 {} else if j == 1 {} else if j == 2 {} else {}
      }
    }
    TransposeIs(c, Mask(m), NoAccumulate, a, true, ans);
  }

  /** Mask, replace. */
  lemma NoAccumMaskReplace()
    ensures Transpose(DenseMatrix(CTMP, 0), Mask(DenseMatrix(MASK, 0)), NoAccumulate, DenseMatrix(ATMP, 0), true)
      == Success(DenseMatrix(NO_ACCUM_MASK_REPLACE, 0))
  {
    Fixtures();
    DenseIsGrid(NO_ACCUM_MASK_REPLACE);
    NoAccumMaskReplaceAt(DenseMatrix(CTMP, 0), DenseMatrix(MASK, 0), DenseMatrix(ATMP, 0), DenseMatrix(NO_ACCUM_MASK_REPLACE, 0));
  }

  const NO_ACCUM_MASK_MERGE: seq<seq<int>> := [[1, 1, 0, 0], [9, 2, 2, 0], [9, 9, 9, 3]]

  lemma NoAccumMaskMergeAt(c: SparseMatrix, m: SparseMatrix, a: SparseMatrix, ans: SparseMatrix)
    requires IsGrid(c, CTMP) && IsGrid(m, MASK) && IsGrid(a, ATMP) && IsGrid(ans, NO_ACCUM_MASK_MERGE)
    ensures Transpose(c, Mask(m), NoAccumulate, a, false) == Success(ans)
  {
    forall i: nat, j: nat | i < 3 && j < 4
      ensures ans.ExtractElement(i, j) == TransposeRule(c, Mask(m), NoAccumulate, a, false, i, j)
    {
      GridAt(c, CTMP, i, j);
      GridAt(m, MASK, i, j);
      GridAt(a, ATMP, j, i);
      if i == 0 {
        if j == 0 {} else if j == 1 {} else if j == 2 {} else {}
      } else if i == 1 {
        if j == 0 {} else if j == 1 {} else if j == 2 {} else {}
      } else {
        if j == 0 {} else if j == 1 {} else if j == 2 {} else {}
      }
    }
    TransposeIs(c, Mask(m), NoAccumulate, a, false, ans);
  }

  /** Mask, merge. */
  lemma NoAccumMaskMerge()
    ensures Transpose(DenseMatrix(CTMP, 0), Mask(DenseMatrix(MASK, 0)), NoAccumulate, DenseMatrix(ATMP, 0), false)
      == Success(DenseMatrix(NO_ACCUM_MASK_MERGE, 0))
  {
    Fixtures();
    DenseIsGrid(NO_ACCUM_MASK_MERGE);
    NoAccumMaskMergeAt(DenseMatrix(CTMP, 0), DenseMatrix(MASK, 0), DenseMatrix(ATMP, 0), DenseMatrix(NO_ACCUM_MASK_MERGE, 0));
  }

  const NO_ACCUM_COMPLEMENT_REPLACE: seq<seq<int>> := [[0, 0, 0, 0], [1, 0, 0, 0], [0, 2, 3, 0]]

  lemma NoAccumComplementReplaceAt(c: SparseMatrix, m: SparseMatrix, a: SparseMatrix, ans: SparseMatrix)
    requires IsGrid(c, CTMP) && IsGrid(m, MASK) && IsGrid(a, ATMP) && IsGrid(ans, NO_ACCUM_COMPLEMENT_REPLACE)
    ensures Transpose(c, Complement(m), NoAccumulate, a, true) == Success(ans)
  {
    forall i: nat, j: nat | i < 3 && j < 4
      ensures ans.ExtractElement(i, j) == TransposeRule(c, Complement(m), NoAccumulate, a, true, i, j)
    {
      GridAt(c, CTMP, i, j);
      GridAt(m, MASK, i, j);
      GridAt(a, ATMP, j, i);
      if i == 0 {
        if j == 0 {} else if j == 1 {} else if j == 2 {} else {}
      } else if i == 1 {
        if j == 0 {} else if j == 1 {} else if j == 2 {} else {}
      } else {
        if j == 0 {} else if j == 1 {} else if j == 2 {} else {}
      }
    }
    TransposeIs(c, Complement(m), NoAccumulate, a, true, ans);
  }

  /** Complement(mask), replace. */
  lemma NoAccumComplementReplace()
    ensures Transpose(DenseMatrix(CTMP, 0), Complement(DenseMatrix(MASK, 0)), NoAccumulate, DenseMatrix(ATMP, 0), true)
      == Success(DenseMatrix(NO_ACCUM_COMPLEMENT_REPLACE, 0))
  {
    Fixtures();
    DenseIsGrid(NO_ACCUM_COMPLEMENT_REPLACE);
    NoAccumComplementReplaceAt(DenseMatrix(CTMP, 0), DenseMatrix(MASK, 0), DenseMatrix(ATMP, 0), DenseMatrix(NO_ACCUM_COMPLEMENT_REPLACE, 0));
  }

  const NO_ACCUM_COMPLEMENT_MERGE: seq<seq<int>> := [[9, 9, 9, 9], [1, 9, 9, 9], [0, 2, 3, 9]]

  lemma NoAccumComplementMergeAt(c: SparseMatrix, m: SparseMatrix, a: SparseMatrix, ans: SparseMatrix)
    requires IsGrid(c, CTMP) && IsGrid(m, MASK) && IsGrid(a, ATMP) && IsGrid(ans, NO_ACCUM_COMPLEMENT_MERGE)
    ensures Transpose(c, Complement(m), NoAccumulate, a, false) == Success(ans)
  {
    forall i: nat, j: nat | i < 3 && j < 4
      ensures ans.ExtractElement(i, j) == TransposeRule(c, Complement(m), NoAccumulate, a, false, i, j)
    {
      GridAt(c, CTMP, i, j);
      GridAt(m, MASK, i, j);
      GridAt(a, ATMP, j, i);
      if i == 0 {
        if j == 0 {} else if j == 1 {} else if j == 2 {} else {}
      } else if i == 1 {
        if j == 0 {} else if j == 1 {} else if j == 2 {} else {}
      } else {
        if j == 0 {} else if j == 1 {} else if j == 2 {} else {}
      }
    }
    TransposeIs(c, Complement(m), NoAccumulate, a, false, ans);
  }

  /** Complement(mask), merge. */
  lemma NoAccumComplementMerge()
    ensures Transpose(DenseMatrix(CTMP, 0), Complement(DenseMatrix(MASK, 0)), NoAccumulate, DenseMatrix(ATMP, 0), false)
      == Success(DenseMatrix(NO_ACCUM_COMPLEMENT_MERGE, 0))
  {
    Fixtures();
    DenseIsGrid(NO_ACCUM_COMPLEMENT_MERGE);
    NoAccumComplementMergeAt(DenseMatrix(CTMP, 0), DenseMatrix(MASK, 0), DenseMatrix(ATMP, 0), DenseMatrix(NO_ACCUM_COMPLEMENT_MERGE, 0));
  }

  const PLUS_NO_MASK: seq<seq<int>> := [[10, 10, 9, 9], [10, 11, 11, 9], [9, 11, 12, 12]]

  lemma PlusNoMaskAt(c: SparseMatrix, m: SparseMatrix, a: SparseMatrix, ans: SparseMatrix)
    requires IsGrid(c, CTMP) && IsGrid(m, MASK) && IsGrid(a, ATMP) && IsGrid(ans, PLUS_NO_MASK)
    ensures Transpose(c, NoMask, Accum(Plus), a, false) == Success(ans)
  {
    forall i: nat, j: nat | i < 3 && j < 4
      ensures ans.ExtractElement(i, j) == TransposeRule(c, NoMask, Accum(Plus), a, false, i, j)
    {
      GridAt(c, CTMP, i, j);
      GridAt(m, MASK, i, j);
      GridAt(a, ATMP, j, i);
      if i == 0 {
        if j == 0 {} else if j == 1 {} else if j == 2 {} else {}
      } else if i == 1 {
        if j == 0 {} else if j == 1 {} else if j == 2 {} else {}
      } else {
        if j == 0 {} else if j == 1 {} else if j == 2 {} else {}
      }
    }
    TransposeIs(c, NoMask, Accum(Plus), a, false, ans);
  }

  /** Plus accumulator, no mask. */
  lemma PlusNoMask()
    ensures Transpose(DenseMatrix(CTMP, 0), NoMask, Accum(Plus), DenseMatrix(ATMP, 0), false)
      == Success(DenseMatrix(PLUS_NO_MASK, 0))
  {
    Fixtures();
    DenseIsGrid(PLUS_NO_MASK);
    PlusNoMaskAt(DenseMatrix(CTMP, 0), DenseMatrix(MASK, 0), DenseMatrix(ATMP, 0), DenseMatrix(PLUS_NO_MASK, 0));
  }

  const PLUS_MASK_REPLACE: seq<seq<int>> := [[10, 10, 9, 9], [0, 11, 11, 9], [0, 0, 0, 12]]

  lemma PlusMaskReplaceAt(c: SparseMatrix, m: SparseMatrix, a: SparseMatrix, ans: SparseMatrix)
    requires IsGrid(c, CTMP) && IsGrid(m, MASK) && IsGrid(a, ATMP) && IsGrid(ans, PLUS_MASK_REPLACE)
    ensures Transpose(c, Mask(m), Accum(Plus), a, true) == Success(ans)
  {
    forall i: nat, j: nat | i < 3 && j < 4
      ensures ans.ExtractElement(i, j) == TransposeRule(c, Mask(m), Accum(Plus), a, true, i, j)
    {
      GridAt(c, CTMP, i, j);
      GridAt(m, MASK, i, j);
      GridAt(a, ATMP, j, i);
      if i == 0 {
        if j == 0 {} else if j == 1 {} else if j == 2 {} else {}
      } else if i == 1 {
        if j == 0 {} else if j == 1 {} else if j == 2 {} else {}
      } else {
        if j == 0 {} else if j == 1 {} else if j == 2 {} else {}
      }
    }
    TransposeIs(c, Mask(m), Accum(Plus), a, true, ans);
  }

  /** Plus accumulator, mask, replace. */
  lemma PlusMaskReplace()
    ensures Transpose(DenseMatrix(CTMP, 0), Mask(DenseMatrix(MASK, 0)), Accum(Plus), DenseMatrix(ATMP, 0), true)
      == Success(DenseMatrix(PLUS_MASK_REPLACE, 0))
  {
    Fixtures();
    DenseIsGrid(PLUS_MASK_REPLACE);
    PlusMaskReplaceAt(DenseMatrix(CTMP, 0), DenseMatrix(MASK, 0), DenseMatrix(ATMP, 0), DenseMatrix(PLUS_MASK_REPLACE, 0));
  }

  const PLUS_MASK_MERGE: seq<seq<int>> := [[10, 10, 9, 9], [9, 11, 11, 9], [9, 9, 9, 12]]

  lemma PlusMaskMergeAt(c: SparseMatrix, m: SparseMatrix, a: SparseMatrix, ans: SparseMatrix)
    requires IsGrid(c, CTMP) && IsGrid(m, MASK) && IsGrid(a, ATMP) && IsGrid(ans, PLUS_MASK_MERGE)
    ensures Transpose(c, Mask(m), Accum(Plus), a, false) == Success(ans)
  {
    forall i: nat, j: nat | i < 3 && j < 4
      ensures ans.ExtractElement(i, j) == TransposeRule(c, Mask(m), Accum(Plus), a, false, i, j)
    {
      GridAt(c, CTMP, i, j);
      GridAt(m, MASK, i, j);
      GridAt(a, ATMP, j, i);
      if i == 0 {
        if j == 0 {} else if j == 1 {} else if j == 2 {} else {}
      } else if i == 1 {
        if j == 0 {} else if j == 1 {} else if j == 2 {} else {}
      } else {
        if j == 0 {} else if j == 1 {} else if j == 2 {} else {}
      }
    }
    TransposeIs(c, Mask(m), Accum(Plus), a, false, ans);
  }

  /** Plus accumulator, mask, merge. */
  lemma PlusMaskMerge()
    ensures Transpose(DenseMatrix(CTMP, 0), Mask(DenseMatrix(MASK, 0)), Accum(Plus), DenseMatrix(ATMP, 0), false)
      == Success(DenseMatrix(PLUS_MASK_MERGE, 0))
  {
    Fixtures();
    DenseIsGrid(PLUS_MASK_MERGE);
    PlusMaskMergeAt(DenseMatrix(CTMP, 0), DenseMatrix(MASK, 0), DenseMatrix(ATMP, 0), DenseMatrix(PLUS_MASK_MERGE, 0));
  }

  const PLUS_COMPLEMENT_REPLACE: seq<seq<int>> := [[0, 0, 0, 0], [10, 0, 0, 0], [9, 11, 12, 0]]

  lemma PlusComplementReplaceAt(c: SparseMatrix, m: SparseMatrix, a: SparseMatrix, ans: SparseMatrix)
    requires IsGrid(c, CTMP) && IsGrid(m, MASK) && IsGrid(a, ATMP) && IsGrid(ans, PLUS_COMPLEMENT_REPLACE)
    ensures Transpose(c, Complement(m), Accum(Plus), a, true) == Success(ans)
  {
    forall i: nat, j: nat | i < 3 && j < 4
      ensures ans.ExtractElement(i, j) == TransposeRule(c, Complement(m), Accum(Plus), a, true, i, j)
    {
      GridAt(c, CTMP, i, j);
      GridAt(m, MASK, i, j);
      GridAt(a, ATMP, j, i);
      if i == 0 {
        if j == 0 {} else if j == 1 {} else if j == 2 {} else {}
      } else if i == 1 {
        if j == 0 {} else if j == 1 {} else if j == 2 {} else {}
      } else {
        if j == 0 {} else if j == 1 {} else if j == 2 {} else {}
      }
    }
    TransposeIs(c, Complement(m), Accum(Plus), a, true, ans);
  }

  /** Plus accumulator, complement(mask), replace. */
  lemma PlusComplementReplace()
    ensures Transpose(DenseMatrix(CTMP, 0), Complement(DenseMatrix(MASK, 0)), Accum(Plus), DenseMatrix(ATMP, 0), true)
      == Success(DenseMatrix(PLUS_COMPLEMENT_REPLACE, 0))
  {
    Fixtures();
    DenseIsGrid(PLUS_COMPLEMENT_REPLACE);
    PlusComplementReplaceAt(DenseMatrix(CTMP, 0), DenseMatrix(MASK, 0), DenseMatrix(ATMP, 0), DenseMatrix(PLUS_COMPLEMENT_REPLACE, 0));
  }

  const PLUS_COMPLEMENT_MERGE: seq<seq<int>> := [[9, 9, 9, 9], [10, 9, 9, 9], [9, 11, 12, 9]]

  lemma PlusComplementMergeAt(c: SparseMatrix, m: SparseMatrix, a: SparseMatrix, ans: SparseMatrix)
    requires IsGrid(c, CTMP) && IsGrid(m, MASK) && IsGrid(a, ATMP) && IsGrid(ans, PLUS_COMPLEMENT_MERGE)
    ensures Transpose(c, Complement(m), Accum(Plus), a, false) == Success(ans)
  {
    forall i: nat, j: nat | i < 3 && j < 4
      ensures ans.ExtractElement(i, j) == TransposeRule(c, Complement(m), Accum(Plus), a, false, i, j)
    {
      GridAt(c, CTMP, i, j);
      GridAt(m, MASK, i, j);
      GridAt(a, ATMP, j, i);
      if i == 0 {
        if j == 0 {} else if j == 1 {} else if j == 2 {} else {}
      } else if i == 1 {
        if j == 0 {} else if j == 1 {} else if j == 2 {} else {}
      } else {
        if j == 0 {} else if j == 1 {} else if j == 2 {} else {}
      }
    }
    TransposeIs(c, Complement(m), Accum(Plus), a, false, ans);
  }

  /** Plus accumulator, complement(mask), merge. */
  lemma PlusComplementMerge()
    ensures Transpose(DenseMatrix(CTMP, 0), Complement(DenseMatrix(MASK, 0)), Accum(Plus), DenseMatrix(ATMP, 0), false)
      == Success(DenseMatrix(PLUS_COMPLEMENT_MERGE, 0))
  {
    Fixtures();
    DenseIsGrid(PLUS_COMPLEMENT_MERGE);
    PlusComplementMergeAt(DenseMatrix(CTMP, 0), DenseMatrix(MASK, 0), DenseMatrix(ATMP, 0), DenseMatrix(PLUS_COMPLEMENT_MERGE, 0));
  }

  // The built matrices of the bad-dimension, two-argument and
  // single-argument cases.
  const I_SQ: seq<nat> := [0, 0, 0, 1, 1, 1, 2, 2, 2]
  const J_SQ: seq<nat> := [0, 1, 2, 0, 1, 2, 0, 1, 2]
  const V_SQ: seq<int> := [1, 2, 3, 4, 5, 6, 7, 8, 9]
  const I_NS: seq<nat> := [0, 0, 0, 0, 1, 1, 1, 2, 2, 2]
  const J_NS: seq<nat> := [0, 1, 2, 3, 0, 1, 2, 0, 1, 2]
  const V_NS: seq<int> := [1, 2, 3, -2, 4, 5, 6, 7, 8, 9]

  /** Transposing a 3 x 3 matrix into a 3 x 4 output throws
      DimensionException, whatever the matrix holds. */
  lemma BadDimension(a: SparseMatrix)
    requires a.Valid() && a.nrows == 3 && a.ncols == 3
    ensures Transpose(SparseMatrix(3, 4, map[]), NoMask, NoAccumulate, a, false) == Failure(DimensionException)
  {
  }

  /** transpose(C, NoMask, NoAccumulate, A) into an empty C with A's shape
      swapped gives the matrix built from A's tuples with rows and columns
      exchanged. */
  lemma TwoArgumentOfBuilt(nrows: nat, ncols: nat, rows: seq<nat>, cols: seq<nat>, vals: seq<int>, replace: bool)
    requires |rows| == |cols| == |vals| && Build(nrows, ncols, rows, cols, vals).Success?
    ensures Build(ncols, nrows, cols, rows, vals).Success?
    ensures Transpose(SparseMatrix(ncols, nrows, map[]), NoMask, NoAccumulate, Build(nrows, ncols, rows, cols, vals).value, replace)
      == Build(ncols, nrows, cols, rows, vals)
  {
    var a := Build(nrows, ncols, rows, cols, vals).value;
    TransposeUnmasked(SparseMatrix(ncols, nrows, map[]), a, replace);
    TransposeOfBuild(nrows, ncols, rows, cols, vals);
  }

  lemma SquareBuilds()
    ensures Build(3, 3, I_SQ, J_SQ, V_SQ).Success?
  {
  }

  lemma NonsquareBuilds()
    ensures Build(3, 4, I_NS, J_NS, V_NS).Success?
  {
  }

  lemma TwoArgumentSquare()
    ensures Transpose(SparseMatrix(3, 3, map[]), NoMask, NoAccumulate, Build(3, 3, I_SQ, J_SQ, V_SQ).value, false)
      == Build(3, 3, J_SQ, I_SQ, V_SQ)
  {
    SquareBuilds();
    TwoArgumentOfBuilt(3, 3, I_SQ, J_SQ, V_SQ, false);
  }

  lemma TwoArgumentNonsquare()
    ensures Transpose(SparseMatrix(4, 3, map[]), NoMask, NoAccumulate, Build(3, 4, I_NS, J_NS, V_NS).value, false)
      == Build(4, 3, J_NS, I_NS, V_NS)
  {
    NonsquareBuilds();
    TwoArgumentOfBuilt(3, 4, I_NS, J_NS, V_NS, false);
  }

  /** The single-argument transpose(A) of the 3 x 3 A is 3 x 3 and equals
      the matrix built with rows and columns exchanged. */
  lemma SingleArgumentSquare()
    ensures Build(3, 3, J_SQ, I_SQ, V_SQ).Success?
    ensures var t := TransposeView(Build(3, 3, I_SQ, J_SQ, V_SQ).value);
      t.nrows == 3 && t.ncols == 3 && t == Build(3, 3, J_SQ, I_SQ, V_SQ).value
  {
    SquareBuilds();
    TransposeOfBuild(3, 3, I_SQ, J_SQ, V_SQ);
  }

  /** The same for the 3 x 4 A: transpose(A) is 4 x 3. */
  lemma SingleArgumentNonsquare()
    ensures Build(4, 3, J_NS, I_NS, V_NS).Success?
    ensures var t := TransposeView(Build(3, 4, I_NS, J_NS, V_NS).value);
      t.nrows == 4 && t.ncols == 3 && t == Build(4, 3, J_NS, I_NS, V_NS).value
  {
    NonsquareBuilds();
    TransposeOfBuild(3, 4, I_NS, J_NS, V_NS);
  }

  /** transpose(C, NoMask, NoAccumulate, transpose(A)) into an empty 3 x 4
      C gives A back. */
  const A_NONSQUARE: seq<seq<int>> := [[1, 1, 0, 0], [1, 2, 2, 0], [0, 2, 3, 3]]

  lemma NonsquareTrans()
    ensures Transpose(SparseMatrix(3, 4, map[]), NoMask, NoAccumulate, TransposeView(DenseMatrix(A_NONSQUARE, 0)), false)
      == Success(DenseMatrix(A_NONSQUARE, 0))
  {
    TransposeOfTransposeView(SparseMatrix(3, 4, map[]), DenseMatrix(A_NONSQUARE, 0), false);
  }

  /** The bad-dimension case on the objects: the call fails and C keeps its
      (empty) content. */
  method BadDimensionRun() returns (o: Outcome, after: SparseMatrix)
    ensures o == Fail(DimensionException) && after == SparseMatrix(3, 4, map[])
  {
    var a := new Matrix(3, 3);
    var built := a.Build(I_SQ, J_SQ, V_SQ);
    var c := new Matrix(3, 4);
    o := c.Transpose(NoMask, NoAccumulate, a.Value(), false);
    after := c.Value();
  }

  /** The two-argument cases on the objects: A built from the tuples, the
      answer built from them with rows and columns exchanged, and the
      transpose of A into an empty C. */
  method TwoArgumentRun(nrows: nat, ncols: nat, rows: seq<nat>, cols: seq<nat>, vals: seq<int>)
    returns (o: Outcome, result: SparseMatrix, answer: SparseMatrix)
    requires |rows| == |cols| == |vals| && Build(nrows, ncols, rows, cols, vals).Success?
    ensures o == Pass && result == answer
  {
    TwoArgumentOfBuilt(nrows, ncols, rows, cols, vals, false);
    var a := new Matrix(nrows, ncols);
    var builtA := a.Build(rows, cols, vals);
    var ans := new Matrix(ncols, nrows);
    var builtAns := ans.Build(cols, rows, vals);
    var c := new Matrix(ncols, nrows);
    o := c.Transpose(NoMask, NoAccumulate, a.Value(), false);
    result, answer := c.Value(), ans.Value();
  }

  method TwoArgumentRuns() returns (square: bool, nonsquare: bool)
    ensures square && nonsquare
  {
    SquareBuilds();
    NonsquareBuilds();
    var o1, r1, a1 := TwoArgumentRun(3, 3, I_SQ, J_SQ, V_SQ);
    var o2, r2, a2 := TwoArgumentRun(3, 4, I_NS, J_NS, V_NS);
    square, nonsquare := o1 == Pass && r1 == a1, o2 == Pass && r2 == a2;
  }

  /** The no-accumulator table on the objects: each case starts from a fresh
      C full of 9s. */
  method NoAccumRun(mask: Mask<SparseMatrix>, replace: bool) returns (o: Outcome, result: SparseMatrix)
    requires mask == NoMask || mask == Mask(DenseMatrix(MASK, 0)) || mask == Complement(DenseMatrix(MASK, 0))
    ensures o == Pass
    ensures mask == NoMask ==> result == DenseMatrix(NO_ACCUM_NO_MASK, 0)
    ensures mask.Mask? && replace ==> result == DenseMatrix(NO_ACCUM_MASK_REPLACE, 0)
    ensures mask.Mask? && !replace ==> result == DenseMatrix(NO_ACCUM_MASK_MERGE, 0)
    ensures mask.Complement? && replace ==> result == DenseMatrix(NO_ACCUM_COMPLEMENT_REPLACE, 0)
    ensures mask.Complement? && !replace ==> result == DenseMatrix(NO_ACCUM_COMPLEMENT_MERGE, 0)
  {
    var a := new Matrix.FromDense(ATMP, 0);
    var c := new Matrix.FromDense(CTMP, 0);
    if mask == NoMask {
      NoAccumNoMask();
      NoAccumNoMaskUnderReplace();
    } else if mask.Mask? {
      NoAccumMaskReplace();
      NoAccumMaskMerge();
    } else {
      NoAccumComplementReplace();
      NoAccumComplementMerge();
    }
    o := c.Transpose(mask, NoAccumulate, a.Value(), replace);
    result := c.Value();
  }

  /** The Plus-accumulator table on the objects. */
  method PlusRun(mask: Mask<SparseMatrix>, replace: bool) returns (o: Outcome, result: SparseMatrix)
    requires mask == NoMask || mask == Mask(DenseMatrix(MASK, 0)) || mask == Complement(DenseMatrix(MASK, 0))
    ensures o == Pass
    ensures mask == NoMask ==> result == DenseMatrix(PLUS_NO_MASK, 0)
    ensures mask.Mask? && replace ==> result == DenseMatrix(PLUS_MASK_REPLACE, 0)
    ensures mask.Mask? && !replace ==> result == DenseMatrix(PLUS_MASK_MERGE, 0)
    ensures mask.Complement? && replace ==> result == DenseMatrix(PLUS_COMPLEMENT_REPLACE, 0)
    ensures mask.Complement? && !replace ==> result == DenseMatrix(PLUS_COMPLEMENT_MERGE, 0)
  {
    var a := new Matrix.FromDense(ATMP, 0);
    var c := new Matrix.FromDense(CTMP, 0);
    if mask == NoMask {
      PlusNoMask();
      PlusNoMaskUnderReplace();
    } else if mask.Mask? {
      PlusMaskReplace();
      PlusMaskMerge();
    } else {
      PlusComplementReplace();
      PlusComplementMerge();
    }
    o := c.Transpose(mask, Accum(Plus), a.Value(), replace);
    result := c.Value();
  }

  lemma PlusNoMaskUnderReplace()
    ensures Transpose(DenseMatrix(CTMP, 0), NoMask, Accum(Plus), DenseMatrix(ATMP, 0), true)
      == Transpose(DenseMatrix(CTMP, 0), NoMask, Accum(Plus), DenseMatrix(ATMP, 0), false)
  {
    Fixtures();
    TransposeNoMaskReplace(DenseMatrix(CTMP, 0), Accum(Plus), DenseMatrix(ATMP, 0));
  }

  /** With no mask the replace flag changes nothing. */
  lemma NoAccumNoMaskUnderReplace()
    ensures Transpose(DenseMatrix(CTMP, 0), NoMask, NoAccumulate, DenseMatrix(ATMP, 0), true)
      == Transpose(DenseMatrix(CTMP, 0), NoMask, NoAccumulate, DenseMatrix(ATMP, 0), false)
  {
    Fixtures();
    TransposeNoMaskReplace(DenseMatrix(CTMP, 0), NoAccumulate, DenseMatrix(ATMP, 0));
  }
}
