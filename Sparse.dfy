/** Sparse containers. A vector is a size and a finite map from index to
    value; a matrix is a shape and a finite map from (row, col) to value.
    Absence and a stored zero are different things: a stored zero is an
    entry, it is counted by NVals, and two containers that differ only in
    where they store zeros are not equal. */
module Sparse {

  /** The exceptions the operations throw, as values. */
  datatype Error = DimensionException | IndexOutOfBoundsException | NoValueException

  datatype Result<T> = Success(value: T) | Failure(error: Error)

  datatype Outcome = Pass | Fail(error: Error)

  type Coord = (nat, nat)

  /** True when the map holds an entry at k whose value is not zero: the
      test a mask applies at each position (a stored zero is "off"). */
  predicate Truth<K>(entries: map<K, int>, k: K) {
    k in entries && entries[k] != 0
  }

  datatype SparseVector = SparseVector(size: nat, entries: map<nat, int>) {

    /** Every stored index is in bounds. */
    ghost predicate Valid() {
      forall i | i in entries :: i < size
    }

    function NVals(): nat {
      |entries|
    }

    predicate HasElement(i: nat) {
      i in entries
    }

    function ExtractElement(i: nat): Result<int> {
      if size <= i then Failure(IndexOutOfBoundsException)
      else if i !in entries then Failure(NoValueException)
      else Success(entries[i])
    }

    /** Inserts or overwrites one entry (a zero is stored like any value). */
    function SetElement(i: nat, x: int): (r: Result<SparseVector>)
      ensures r.Success? <==> i < size
      ensures r.Failure? ==> r.error == IndexOutOfBoundsException
      ensures r.Success? ==>
        && r.value.size == size
        && r.value.ExtractElement(i) == Success(x)
        && r.value.NVals() == NVals() + (if HasElement(i) then 0 else 1)
        && forall j: nat | j != i :: r.value.ExtractElement(j) == ExtractElement(j)
    {
      if size <= i then Failure(IndexOutOfBoundsException)
      else Success(SparseVector(size, entries[i := x]))
    }
  }

  /** The constructor from a dense list that leaves out every element equal
      to `zero`. */
  function DenseVector(d: seq<int>, zero: int): (v: SparseVector)
    ensures v.size == |d| && v.Valid()
    ensures forall i: nat | i < |d| ::
      v.ExtractElement(i) == if d[i] == zero then Failure(NoValueException) else Success(d[i])
  {
    SparseVector(|d|, map i: nat | i < |d| && d[i] != zero :: d[i])
  }

  /** The constructor from a dense list without a zero: every element is
      stored, zeros included. */
  function DenseVectorAll(d: seq<int>): (v: SparseVector)
    ensures v.size == |d| && v.Valid()
    ensures forall i: nat | i < |d| :: v.ExtractElement(i) == Success(d[i])
  {
    SparseVector(|d|, map i: nat | i < |d| :: d[i])
  }

  /** Storing every element stores |d| entries. */
  lemma DenseVectorAllCount(d: seq<int>)
    ensures DenseVectorAll(d).NVals() == |d|
  {
    CardOfRange(DenseVectorAll(d).entries.Keys, |d|);
  }

  lemma {:induction false} CardOfRange(s: set<nat>, n: nat)
    requires forall i: nat :: i in s <==> i < n
    ensures |s| == n
  {
    if n > 0 {
      CardOfRange(s - {n - 1}, n - 1);
    }
  }

  /** Two vectors are equal exactly when they have the same size and agree
      at every position. */
  lemma VectorEquality(a: SparseVector, b: SparseVector)
    requires a.Valid() && b.Valid()
    ensures a == b <==> a.size == b.size && forall i: nat | i < a.size :: a.ExtractElement(i) == b.ExtractElement(i)
  {
    if a.size == b.size && forall i: nat | i < a.size :: a.ExtractElement(i) == b.ExtractElement(i) {
      forall i | i in a.entries ensures i in b.entries && b.entries[i] == a.entries[i] {
        assert a.ExtractElement(i) == Success(a.entries[i]);
      }
      forall i | i in b.entries ensures i in a.entries {
        assert b.ExtractElement(i) == Success(b.entries[i]);
      }
      assert a.entries == b.entries;
    }
  }

  /** Equality of two vectors of three (four) positions, position by position. */
  lemma SameVector3(a: SparseVector, b: SparseVector)
    requires a.Valid() && b.Valid() && a.size == 3 && b.size == 3
    requires a.ExtractElement(0) == b.ExtractElement(0) && a.ExtractElement(1) == b.ExtractElement(1)
    requires a.ExtractElement(2) == b.ExtractElement(2)
    ensures a == b
  {
    forall i: nat | i < 3 ensures a.ExtractElement(i) == b.ExtractElement(i) {
      if i == 0 {} else if i == 1 {} else {}
    }
    VectorEquality(a, b);
  }

  lemma SameVector4(a: SparseVector, b: SparseVector)
    requires a.Valid() && b.Valid() && a.size == 4 && b.size == 4
    requires a.ExtractElement(0) == b.ExtractElement(0) && a.ExtractElement(1) == b.ExtractElement(1)
    requires a.ExtractElement(2) == b.ExtractElement(2) && a.ExtractElement(3) == b.ExtractElement(3)
    ensures a == b
  {
    forall i: nat | i < 4 ensures a.ExtractElement(i) == b.ExtractElement(i) {
      if i == 0 {} else if i == 1 {} else if i == 2 {} else {}
    }
    VectorEquality(a, b);
  }

  /** A dense list holding a zero gives two different vectors depending on
      whether the zero is dropped or stored. */
  lemma StoredZerosAreEntries(d: seq<int>, i: nat)
    requires i < |d| && d[i] == 0
    ensures DenseVector(d, 0) != DenseVectorAll(d)
    ensures DenseVector(d, 0).NVals() < DenseVectorAll(d).NVals()
  {
    var s, a := DenseVector(d, 0), DenseVectorAll(d);
    DenseVectorAllCount(d);
    assert i !in s.entries && i in a.entries;
    var extra := a.entries.Keys - s.entries.Keys;
    assert i in extra;
    assert a.entries.Keys == s.entries.Keys + extra;
  }

  datatype SparseMatrix = SparseMatrix(nrows: nat, ncols: nat, entries: map<Coord, int>) {

    /** Every stored coordinate is in bounds. */
    ghost predicate Valid() {
      forall k | k in entries :: k.0 < nrows && k.1 < ncols
    }

    function NVals(): nat {
      |entries|
    }

    predicate HasElement(i: nat, j: nat) {
      (i, j) in entries
    }

    function ExtractElement(i: nat, j: nat): Result<int> {
      if nrows <= i || ncols <= j then Failure(IndexOutOfBoundsException)
      else if (i, j) !in entries then Failure(NoValueException)
      else Success(entries[(i, j)])
    }
  }

  /** Two matrices are equal exactly when they have the same shape and
      agree at every position. */
  lemma MatrixEquality(a: SparseMatrix, b: SparseMatrix)
    requires a.Valid() && b.Valid()
    ensures a == b <==>
      && a.nrows == b.nrows && a.ncols == b.ncols
      && forall i: nat, j: nat | i < a.nrows && j < a.ncols :: a.ExtractElement(i, j) == b.ExtractElement(i, j)
  {
    if && a.nrows == b.nrows && a.ncols == b.ncols
       && forall i: nat, j: nat | i < a.nrows && j < a.ncols :: a.ExtractElement(i, j) == b.ExtractElement(i, j)
    {
      forall k | k in a.entries ensures k in b.entries && b.entries[k] == a.entries[k] {
        assert a.ExtractElement(k.0, k.1) == Success(a.entries[k]);
      }
      forall k | k in b.entries ensures k in a.entries {
        assert b.ExtractElement(k.0, k.1) == Success(b.entries[k]);
      }
      assert a.entries == b.entries;
    }
  }

  ghost predicate Rectangular(d: seq<seq<int>>) {
    forall i | 0 <= i < |d| :: |d[i]| == |d[0]|
  }

  /** The constructor from a dense grid that leaves out every element equal
      to `zero`. */
  function DenseMatrix(d: seq<seq<int>>, zero: int): (a: SparseMatrix)
    requires Rectangular(d)
    ensures a.nrows == |d| && a.ncols == (if |d| == 0 then 0 else |d[0]|) && a.Valid()
    ensures forall i: nat, j: nat | i < a.nrows && j < a.ncols ::
      a.ExtractElement(i, j) == if d[i][j] == zero then Failure(NoValueException) else Success(d[i][j])
  {
    SparseMatrix(|d|, if |d| == 0 then 0 else |d[0]|,
                 map i: nat, j: nat | i < |d| && j < |d[i]| && d[i][j] != zero :: (i, j) := d[i][j])
  }

  /** x has the shape of the non-empty grid d and holds its elements,
      zeros left out. */
  ghost predicate IsGrid(x: SparseMatrix, d: seq<seq<int>>) {
    && Rectangular(d) && |d| > 0
    && x.Valid() && x.nrows == |d| && x.ncols == |d[0]|
    && forall i: nat, j: nat | i < |d| && j < |d[0]| ::
         x.ExtractElement(i, j) == if d[i][j] == 0 then Failure(NoValueException) else Success(d[i][j])
  }

  /** The dense-grid constructor with zero 0 gives such a matrix. */
  lemma DenseIsGrid(d: seq<seq<int>>)
    requires Rectangular(d) && |d| > 0
    ensures IsGrid(DenseMatrix(d, 0), d)
  {
  }

  /** One position of a grid, as stored entries. */
  lemma GridAt(x: SparseMatrix, d: seq<seq<int>>, i: nat, j: nat)
    requires IsGrid(x, d) && i < |d| && j < |d[0]|
    ensures (i, j) in x.entries <==> d[i][j] != 0
    ensures d[i][j] != 0 ==> x.entries[(i, j)] == d[i][j]
  {
    assert x.ExtractElement(i, j) == if d[i][j] == 0 then Failure(NoValueException) else Success(d[i][j]);
  }

  /** The entries that `build` stores for three parallel lists: one entry
      per coordinate that occurs, the later tuple overwriting the earlier. */
  function BuildEntries(rows: seq<nat>, cols: seq<nat>, vals: seq<int>): (m: map<Coord, int>)
    requires |rows| == |cols| == |vals|
    ensures m.Keys == set p | 0 <= p < |rows| :: (rows[p], cols[p])
    ensures |m| <= |rows|
    decreases |rows|
  {
    if |rows| == 0 then map[]
    else
      var n := |rows| - 1;
      var prev := BuildEntries(rows[..n], cols[..n], vals[..n]);
      assert forall p | 0 <= p < n :: rows[..n][p] == rows[p] && cols[..n][p] == cols[p];
      prev[(rows[n], cols[n]) := vals[n]]
  }

  /** No later tuple repeats tuple p's coordinate. */
  predicate LastOf(rows: seq<nat>, cols: seq<nat>, p: nat)
    requires |rows| == |cols| && p < |rows|
  {
    forall q | p < q < |rows| :: (rows[q], cols[q]) != (rows[p], cols[p])
  }

  /** The value stored at a coordinate is that of its last tuple. */
  lemma {:induction false} BuildLastWins(rows: seq<nat>, cols: seq<nat>, vals: seq<int>, p: nat)
    requires |rows| == |cols| == |vals| && p < |rows|
    requires LastOf(rows, cols, p)
    ensures BuildEntries(rows, cols, vals)[(rows[p], cols[p])] == vals[p]
    decreases |rows|
  {
    var n := |rows| - 1;
    var k := (rows[p], cols[p]);
    if p < n {
      var rs, cs, vs := rows[..n], cols[..n], vals[..n];
      assert (rs[p], cs[p]) == k && vs[p] == vals[p];
      forall q | p < q < n
        ensures (rs[q], cs[q]) != (rs[p], cs[p])
      {
        assert rs[q] == rows[q] && cs[q] == cols[q];
      }
      BuildLastWins(rs, cs, vs, p);
      assert k != (rows[n], cols[n]);
    }
  }

  /** Every tuple's coordinate lies inside an nrows x ncols matrix. */
  predicate IndicesInBounds(nrows: nat, ncols: nat, rows: seq<nat>, cols: seq<nat>)
    requires |rows| == |cols|
  {
    forall p | 0 <= p < |rows| :: rows[p] < nrows && cols[p] < ncols
  }

  /** `build` into an nrows x ncols matrix: fails with DimensionException,
      storing nothing, when a coordinate is out of bounds; otherwise the
      matrix holds exactly the tuples' coordinates, last value winning. */
  function Build(nrows: nat, ncols: nat, rows: seq<nat>, cols: seq<nat>, vals: seq<int>): (r: Result<SparseMatrix>)
    requires |rows| == |cols| == |vals|
    ensures r.Failure? <==> !IndicesInBounds(nrows, ncols, rows, cols)
    ensures r.Failure? ==> r.error == DimensionException
    ensures r.Success? ==>
      && r.value.nrows == nrows && r.value.ncols == ncols && r.value.Valid()
      && r.value.entries == BuildEntries(rows, cols, vals)
      && r.value.NVals() <= |rows|
  {
    if !IndicesInBounds(nrows, ncols, rows, cols) then Failure(DimensionException)
    else Success(SparseMatrix(nrows, ncols, BuildEntries(rows, cols, vals)))
  }

  /** What a successful build stores: a coordinate exactly when some tuple
      has it, and at the coordinate of a tuple that no later tuple repeats,
      that tuple's value (the last value wins). */
  lemma BuildStores(nrows: nat, ncols: nat, rows: seq<nat>, cols: seq<nat>, vals: seq<int>)
    requires |rows| == |cols| == |vals| && Build(nrows, ncols, rows, cols, vals).Success?
    ensures var b := Build(nrows, ncols, rows, cols, vals).value;
      && (forall i: nat, j: nat :: b.HasElement(i, j) <==> exists p | 0 <= p < |rows| :: rows[p] == i && cols[p] == j)
      && forall p | 0 <= p < |rows| && LastOf(rows, cols, p) :: b.ExtractElement(rows[p], cols[p]) == Success(vals[p])
  {
    forall p | 0 <= p < |rows| && LastOf(rows, cols, p)
      ensures BuildEntries(rows, cols, vals)[(rows[p], cols[p])] == vals[p]
    {
      BuildLastWins(rows, cols, vals, p);
    }
  }
}
