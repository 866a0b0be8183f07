/** extract(C, mask, accum, A, rows, cols, replace) (section 4.3.6 of the
    GraphBLAS C API Specification): T is the gather of A by a list of row
    indices and a list of column indices, T(p, q) = A(rows[p], cols[q]);
    the lists may repeat and reorder indices. T is written into C by the
    mask-accumulate-replace rule. */
module ExtractOps {
  import opened Algebra
  import opened Sparse
  import opened Views
  import opened Kernels
  import opened WriteRule

  /** The positions of T: (p, q) where A has an entry at (rows[p], cols[q]). */
  function GatherKeys(a: SparseMatrix, rows: seq<nat>, cols: seq<nat>): (s: set<Coord>)
    ensures forall k: Coord :: k in s <==> k.0 < |rows| && k.1 < |cols| && (rows[k.0], cols[k.1]) in a.entries
  {
    set p: nat, q: nat | p < |rows| && q < |cols| && (rows[p], cols[q]) in a.entries :: (p, q)
  }

  /** T: a |rows| x |cols| matrix whose (p, q) entry is A's entry at
      (rows[p], cols[q]), absent where A has none. */
  function Gather(a: SparseMatrix, rows: seq<nat>, cols: seq<nat>): (t: SparseMatrix)
    ensures t.nrows == |rows| && t.ncols == |cols| && t.Valid()
    ensures forall p: nat, q: nat | p < |rows| && q < |cols| && rows[p] < a.nrows && cols[q] < a.ncols ::
      t.ExtractElement(p, q) == a.ExtractElement(rows[p], cols[q])
  {
    SparseMatrix(|rows|, |cols|, map k | k in GatherKeys(a, rows, cols) :: a.entries[(rows[k.0], cols[k.1])])
  }

  /** Every row index is below A's row count and every column index below
      its column count. */
  predicate IndicesInRange(a: SparseMatrix, rows: seq<nat>, cols: seq<nat>) {
    (forall p | 0 <= p < |rows| :: rows[p] < a.nrows) && (forall q | 0 <= q < |cols| :: cols[q] < a.ncols)
  }

  /** C must be |rows| x |cols|, and a mask must have C's shape. */
  predicate ExtractShapesAgree(c: SparseMatrix, mask: Mask<SparseMatrix>, rows: seq<nat>, cols: seq<nat>) {
    c.nrows == |rows| && c.ncols == |cols| && MatrixMaskFits(mask, c.nrows, c.ncols)
  }

  /** The new content of C. A shape mismatch is reported first, as
      DimensionException; then an index beyond A, as
      IndexOutOfBoundsException; C is unchanged on either error. */
  function Extract(c: SparseMatrix, mask: Mask<SparseMatrix>, accum: Accumulator, a: SparseMatrix,
                   rows: seq<nat>, cols: seq<nat>, replace: bool): (r: Result<SparseMatrix>)
    requires c.Valid()
    ensures r.Success? <==> ExtractShapesAgree(c, mask, rows, cols) && IndicesInRange(a, rows, cols)
    ensures !ExtractShapesAgree(c, mask, rows, cols) ==> r == Failure(DimensionException)
    ensures ExtractShapesAgree(c, mask, rows, cols) && !IndicesInRange(a, rows, cols) ==>
      r == Failure(IndexOutOfBoundsException)
    ensures r.Success? ==> r.value.nrows == c.nrows && r.value.ncols == c.ncols && r.value.Valid()
  {
    if !ExtractShapesAgree(c, mask, rows, cols) then Failure(DimensionException)
    else if !IndicesInRange(a, rows, cols) then Failure(IndexOutOfBoundsException)
    else Success(WriteMatrix(c, mask, accum, Gather(a, rows, cols).entries, replace))
  }

  /** No mask, no accumulator: C becomes exactly the gather. */
  lemma ExtractUnmasked(c: SparseMatrix, a: SparseMatrix, rows: seq<nat>, cols: seq<nat>, replace: bool)
    requires c.Valid() && c.nrows == |rows| && c.ncols == |cols| && IndicesInRange(a, rows, cols)
    ensures Extract(c, NoMask, NoAccumulate, a, rows, cols, replace) == Success(Gather(a, rows, cols))
  {
    MatrixNoMask(c, NoAccumulate, Gather(a, rows, cols).entries, replace);
  }

  /** An empty output with the "new value wins" accumulator Second also
      receives exactly the gather. */
  lemma ExtractSecondIntoEmpty(a: SparseMatrix, rows: seq<nat>, cols: seq<nat>, replace: bool)
    requires IndicesInRange(a, rows, cols)
    ensures Extract(SparseMatrix(|rows|, |cols|, map[]), NoMask, Accum(Second), a, rows, cols, replace)
      == Success(Gather(a, rows, cols))
  {
    var c := SparseMatrix(|rows|, |cols|, map[]);
    var t := Gather(a, rows, cols).entries;
    MatrixNoMask(c, Accum(Second), t, replace);
    UnionWithEmpty(t, Second);
  }

  /** 0, 1, ..., n - 1. */
  function Range(n: nat): (s: seq<nat>)
    ensures |s| == n && forall p | 0 <= p < n :: s[p] == p
  {
    seq(n, p => p)
  }

  /** Gathering every row and every column in order gives A back. */
  lemma ExtractIdentity(a: SparseMatrix)
    requires a.Valid()
    ensures Gather(a, Range(a.nrows), Range(a.ncols)) == a
  {
    var t := Gather(a, Range(a.nrows), Range(a.ncols));
    forall k | k in a.entries
      ensures k in t.entries && t.entries[k] == a.entries[k]
    {
      assert a.ExtractElement(k.0, k.1) == Success(a.entries[k]);
    }
    assert t.entries.Keys == a.entries.Keys;
  }

  /** s[idx[0]], s[idx[1]], ...: one index list applied after another. */
  function Compose(s: seq<nat>, idx: seq<nat>): (r: seq<nat>)
    requires forall p | 0 <= p < |idx| :: idx[p] < |s|
    ensures |r| == |idx| && forall p | 0 <= p < |idx| :: r[p] == s[idx[p]]
  {
    seq(|idx|, p requires 0 <= p < |idx| => s[idx[p]])
  }

  /** Gathering a gather is one gather by the composed index lists. */
  lemma GatherComposes(a: SparseMatrix, r1: seq<nat>, c1: seq<nat>, r2: seq<nat>, c2: seq<nat>)
    requires forall p | 0 <= p < |r2| :: r2[p] < |r1|
    requires forall q | 0 <= q < |c2| :: c2[q] < |c1|
    ensures Gather(Gather(a, r1, c1), r2, c2) == Gather(a, Compose(r1, r2), Compose(c1, c2))
  {
    var g := Gather(a, r1, c1);
    var rs, cs := Compose(r1, r2), Compose(c1, c2);
    var l, r := Gather(g, r2, c2), Gather(a, rs, cs);
    forall k: Coord
      ensures k in l.entries <==> k in r.entries
      ensures k in l.entries ==> l.entries[k] == r.entries[k]
    {
      if k.0 < |r2| && k.1 < |c2| {
        GatherAt(g, r2, c2, k.0, k.1);
        GatherAt(a, r1, c1, r2[k.0], c2[k.1]);
        GatherAt(a, rs, cs, k.0, k.1);
      }
    }
    assert l.entries.Keys == r.entries.Keys;
  }

  lemma GatherAt(a: SparseMatrix, rows: seq<nat>, cols: seq<nat>, p: nat, q: nat)
    requires p < |rows| && q < |cols|
    ensures (p, q) in Gather(a, rows, cols).entries <==> (rows[p], cols[q]) in a.entries
    ensures (p, q) in Gather(a, rows, cols).entries ==>
      Gather(a, rows, cols).entries[(p, q)] == a.entries[(rows[p], cols[q])]
  {
  }

  /** A row permutation and a column permutation undone by their inverse
      lists give A back. */
  lemma GatherUndo(a: SparseMatrix, rows: seq<nat>, cols: seq<nat>, rinv: seq<nat>, cinv: seq<nat>)
    requires a.Valid()
    requires forall p | 0 <= p < |rinv| :: rinv[p] < |rows|
    requires forall q | 0 <= q < |cinv| :: cinv[q] < |cols|
    requires Compose(rows, rinv) == Range(a.nrows) && Compose(cols, cinv) == Range(a.ncols)
    ensures Gather(Gather(a, rows, cols), rinv, cinv) == a
  {
    GatherComposes(a, rows, cols, rinv, cinv);
    ExtractIdentity(a);
  }

  /** A repeated row index copies the same row twice (and likewise for
      columns): duplicates are gathered independently. */
  lemma GatherDuplicates(a: SparseMatrix, rows: seq<nat>, cols: seq<nat>, p1: nat, p2: nat, q1: nat, q2: nat)
    requires p1 < |rows| && p2 < |rows| && q1 < |cols| && q2 < |cols|
    requires rows[p1] == rows[p2] && cols[q1] == cols[q2]
    ensures Gather(a, rows, cols).ExtractElement(p1, q1) == Gather(a, rows, cols).ExtractElement(p2, q2)
  {
    var t := Gather(a, rows, cols);
    assert t.HasElement(p1, q1) == t.HasElement(p2, q2);
  }

  /** Gathering from the transpose with the lists exchanged is the
      transpose of the gather. */
  lemma GatherTranspose(a: SparseMatrix, rows: seq<nat>, cols: seq<nat>)
    requires a.Valid()
    ensures TransposeView(Gather(a, rows, cols)) == Gather(TransposeView(a), cols, rows)
  {
    GatherTransposeEntries(a, rows, cols);
  }

  lemma GatherTransposeEntries(a: SparseMatrix, rows: seq<nat>, cols: seq<nat>)
    requires a.Valid()
    ensures SwapKeys(Gather(a, rows, cols).entries) == Gather(TransposeView(a), cols, rows).entries
  {
    var l, r := SwapKeys(Gather(a, rows, cols).entries), Gather(TransposeView(a), cols, rows).entries;
    forall k: Coord
      ensures k in l <==> k in r
      ensures k in l ==> l[k] == r[k]
    {
      GatherTransposeAt(a, rows, cols, k.0, k.1);
    }
    assert l.Keys == r.Keys;
  }

  lemma GatherTransposeAt(a: SparseMatrix, rows: seq<nat>, cols: seq<nat>, x: nat, y: nat)
    requires a.Valid()
    ensures var l, r := SwapKeys(Gather(a, rows, cols).entries), Gather(TransposeView(a), cols, rows).entries;
      && ((x, y) in l <==> (x, y) in r)
      && ((x, y) in l ==> l[(x, y)] == r[(x, y)])
  {
    var g := Gather(a, rows, cols).entries;
    SwapKeysAt(g, y, x);
    if x < |cols| && y < |rows| {
      GatherAt(a, rows, cols, y, x);
      GatherAt(TransposeView(a), cols, rows, x, y);
      SwapKeysAt(a.entries, rows[y], cols[x]);
    }
  }

  /** From a fully populated A, every position of the gather is present. */
  lemma GatherFull(a: SparseMatrix, rows: seq<nat>, cols: seq<nat>)
    requires IndicesInRange(a, rows, cols)
    requires forall i: nat, j: nat | i < a.nrows && j < a.ncols :: a.HasElement(i, j)
    ensures forall p: nat, q: nat | p < |rows| && q < |cols| :: Gather(a, rows, cols).HasElement(p, q)
  {
    var t := Gather(a, rows, cols);
    forall p: nat, q: nat | p < |rows| && q < |cols| ensures t.HasElement(p, q) {
      assert a.HasElement(rows[p], cols[q]);
    }
  }
}
