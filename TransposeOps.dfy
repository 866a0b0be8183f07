/** transpose(C, mask, accum, A, replace) (section 4.3.10 of the GraphBLAS
    C API Specification): T is the transpose view of A, written into C by
    the mask-accumulate-replace rule. */
module TransposeOps {
  import opened Algebra
  import opened Sparse
  import opened Views
  import opened WriteRule

  /** C must have A's shape swapped, and a mask must have C's shape. */
  predicate TransposeShapesAgree(c: SparseMatrix, mask: Mask<SparseMatrix>, a: SparseMatrix) {
    c.nrows == a.ncols && c.ncols == a.nrows && MatrixMaskFits(mask, c.nrows, c.ncols)
  }

  /** The new content of C, or DimensionException (C unchanged). */
  function Transpose(c: SparseMatrix, mask: Mask<SparseMatrix>, accum: Accumulator, a: SparseMatrix, replace: bool): (r: Result<SparseMatrix>)
    requires c.Valid() && a.Valid()
    ensures r.Failure? <==> !TransposeShapesAgree(c, mask, a)
    ensures r.Failure? ==> r.error == DimensionException
    ensures r.Success? ==> r.value.nrows == c.nrows && r.value.ncols == c.ncols && r.value.Valid()
  {
    if !TransposeShapesAgree(c, mask, a) then Failure(DimensionException)
    else Success(WriteMatrix(c, mask, accum, TransposeView(a).entries, replace))
  }

  /** No mask, no accumulator: C becomes exactly the transpose of A, so every
      old entry of C that A's transpose does not cover is removed. */
  lemma TransposeUnmasked(c: SparseMatrix, a: SparseMatrix, replace: bool)
    requires c.Valid() && a.Valid() && c.nrows == a.ncols && c.ncols == a.nrows
    ensures Transpose(c, NoMask, NoAccumulate, a, replace) == Success(TransposeView(a))
  {
    MatrixNoMask(c, NoAccumulate, TransposeView(a).entries, replace);
  }

  /** With no mask every position is masked in, so replace has no effect. */
  lemma TransposeNoMaskReplace(c: SparseMatrix, accum: Accumulator, a: SparseMatrix)
    requires c.Valid() && a.Valid() && TransposeShapesAgree(c, NoMask, a)
    ensures Transpose(c, NoMask, accum, a, true) == Transpose(c, NoMask, accum, a, false)
  {
    MatrixNoMask(c, accum, TransposeView(a).entries, true);
    MatrixNoMask(c, accum, TransposeView(a).entries, false);
  }

  /** transpose(C, transpose(A)) gives back A. */
  lemma TransposeOfTransposeView(c: SparseMatrix, a: SparseMatrix, replace: bool)
    requires c.Valid() && a.Valid() && c.nrows == a.nrows && c.ncols == a.ncols
    ensures Transpose(c, NoMask, NoAccumulate, TransposeView(a), replace) == Success(a)
  {
    TransposeUnmasked(c, TransposeView(a), replace);
    TransposeTwice(a);
  }

  /** Each position of the result, for every mask, accumulator and flag: a
      masked-in position holds Z = A's transposed entry, accumulated into C's
      old entry when there is an accumulator and C has one; a masked-out
      position is cleared under replace and keeps C's entry under merge. */
  /** Position (i, j) of transpose(C, mask, accum, A, replace) as the write
      rule describes it: masked in, Aᵀ's value (accumulated into C's where
      both exist); masked out, nothing under replace and C's value under
      merge. */
  function TransposeRule(c: SparseMatrix, mask: Mask<SparseMatrix>, accum: Accumulator, a: SparseMatrix, replace: bool,
                         i: nat, j: nat): Result<int>
  {
    if MaskedIn(MatrixPattern(mask), (i, j)) then
      if accum.NoAccumulate? then a.ExtractElement(j, i)
      else if a.HasElement(j, i) && c.HasElement(i, j) then Success(accum.op(c.entries[(i, j)], a.entries[(j, i)]))
      else if a.HasElement(j, i) then a.ExtractElement(j, i)
      else c.ExtractElement(i, j)
    else if replace then Failure(NoValueException)
    else c.ExtractElement(i, j)
  }

  lemma TransposeAt(c: SparseMatrix, mask: Mask<SparseMatrix>, accum: Accumulator, a: SparseMatrix, replace: bool,
                    i: nat, j: nat)
    requires c.Valid() && a.Valid() && TransposeShapesAgree(c, mask, a) && i < c.nrows && j < c.ncols
    ensures Transpose(c, mask, accum, a, replace).value.ExtractElement(i, j) == TransposeRule(c, mask, accum, a, replace, i, j)
  {
    TransposeCases(c, mask, accum, a, replace, i, j);
  }

  /** TransposeAt, one case of the rule at a time. */
  lemma TransposeCases(c: SparseMatrix, mask: Mask<SparseMatrix>, accum: Accumulator, a: SparseMatrix, replace: bool,
                       i: nat, j: nat)
    requires c.Valid() && a.Valid() && TransposeShapesAgree(c, mask, a) && i < c.nrows && j < c.ncols
    ensures var r := Transpose(c, mask, accum, a, replace).value;
      && (MaskedIn(MatrixPattern(mask), (i, j)) && accum.NoAccumulate? ==>
            r.ExtractElement(i, j) == a.ExtractElement(j, i))
      && (MaskedIn(MatrixPattern(mask), (i, j)) && accum.Accum? ==>
            r.ExtractElement(i, j) ==
              if a.HasElement(j, i) && c.HasElement(i, j) then Success(accum.op(c.entries[(i, j)], a.entries[(j, i)]))
              else if a.HasElement(j, i) then a.ExtractElement(j, i)
              else c.ExtractElement(i, j))
      && (!MaskedIn(MatrixPattern(mask), (i, j)) && replace ==> !r.HasElement(i, j))
      && (!MaskedIn(MatrixPattern(mask), (i, j)) && !replace ==> r.ExtractElement(i, j) == c.ExtractElement(i, j))
  {
    var t := TransposeView(a);
    assert t.ExtractElement(i, j) == a.ExtractElement(j, i);
    var z := Combine(c.entries, accum, t.entries);
    if MaskedIn(MatrixPattern(mask), (i, j)) {
      WriteMaskedIn(c.entries, MatrixPattern(mask), z, replace, (i, j));
    } else {
      WriteMaskedOut(c.entries, MatrixPattern(mask), z, replace, (i, j));
    }
  }

  /** Swapping the coordinates of built entries is building from the
      swapped lists. */
  lemma {:induction false} SwapKeysOfBuild(rows: seq<nat>, cols: seq<nat>, vals: seq<int>)
    requires |rows| == |cols| == |vals|
    ensures SwapKeys(BuildEntries(rows, cols, vals)) == BuildEntries(cols, rows, vals)
    decreases |rows|
  {
    if |rows| > 0 {
      var n := |rows| - 1;
      var prev := BuildEntries(rows[..n], cols[..n], vals[..n]);
      calc {
        SwapKeys(BuildEntries(rows, cols, vals));
        SwapKeys(prev[(rows[n], cols[n]) := vals[n]]);
        { SwapKeysUpdate(prev, rows[n], cols[n], vals[n]); }
        SwapKeys(prev)[(cols[n], rows[n]) := vals[n]];
        { SwapKeysOfBuild(rows[..n], cols[..n], vals[..n]); }
        BuildEntries(cols[..n], rows[..n], vals[..n])[(cols[n], rows[n]) := vals[n]];
        BuildEntries(cols, rows, vals);
      }
    }
  }

  lemma SwapKeysUpdate(m: map<Coord, int>, i: nat, j: nat, x: int)
    ensures SwapKeys(m[(i, j) := x]) == SwapKeys(m)[(j, i) := x]
  {
    var l, r := SwapKeys(m[(i, j) := x]), SwapKeys(m)[(j, i) := x];
    assert Swapped(m[(i, j) := x].Keys) == Swapped(m.Keys) + {(j, i)};
    assert l.Keys == r.Keys;
  }

  /** Transposing a built matrix is building its transpose from the same
      tuples with rows and columns exchanged. */
  lemma TransposeOfBuild(nrows: nat, ncols: nat, rows: seq<nat>, cols: seq<nat>, vals: seq<int>)
    requires |rows| == |cols| == |vals| && Build(nrows, ncols, rows, cols, vals).Success?
    ensures Build(ncols, nrows, cols, rows, vals).Success?
    ensures TransposeView(Build(nrows, ncols, rows, cols, vals).value) == Build(ncols, nrows, cols, rows, vals).value
  {
    SwapKeysOfBuild(rows, cols, vals);
  }
}
