/** The container objects of the library: a Vector and a Matrix keep a fixed
    shape and a map of entries that setElement, build and every operation
    writing into them update in place. Each operation takes its output as
    `this` and its inputs as values (the contents of the input containers at
    the time of the call); on an error it throws, which here is a `Fail`
    outcome with the output left as it was. */
module GraphBLAS {
  import opened Algebra
  import opened Sparse
  import opened Views
  import EWiseOps
  import TransposeOps
  import ExtractOps

  /** How a call that returns a new content or throws leaves its output:
      the new content and Pass, or the old content and the exception. */
  ghost predicate Applied<T>(r: Result<T>, before: T, after: T, o: Outcome) {
    match r
    case Success(v) => o == Pass && after == v
    case Failure(e) => o == Fail(e) && after == before
  }

  function OutcomeOf<T>(r: Result<T>): (o: Outcome)
    ensures o.Pass? <==> r.Success?
    ensures r.Failure? ==> o.error == r.error
  {
    if r.Success? then Pass else Fail(r.error)
  }

  class Vector {
    const size: nat
    var entries: map<nat, int>

    ghost predicate Valid()
      reads this
    {
      Value().Valid()
    }

    /** The current content as a value. */
    function Value(): SparseVector
      reads this
    {
      SparseVector(size, entries)
    }

    /** Vector(n): n positions, none stored. */
    constructor(n: nat)
      ensures Valid() && Value() == SparseVector(n, map[])
    {
      size := n;
      entries := map[];
    }

    /** Vector(d, zero): every element of d except those equal to zero. */
    constructor FromDense(d: seq<int>, zero: int)
      ensures Valid() && Value() == DenseVector(d, zero)
    {
      size := |d|;
      entries := DenseVector(d, zero).entries;
    }

    /** Vector(d): every element of d, zeros included. */
    constructor FromDenseAll(d: seq<int>)
      ensures Valid() && Value() == DenseVectorAll(d)
    {
      size := |d|;
      entries := DenseVectorAll(d).entries;
    }

    method SetElement(i: nat, x: int) returns (o: Outcome)
      requires Valid()
      modifies this
      ensures Valid() && Applied(old(Value()).SetElement(i, x), old(Value()), Value(), o)
    {
      var r := Value().SetElement(i, x);
      if r.Success? {
        entries := r.value.entries;
      }
      o := OutcomeOf(r);
    }

    /** eWiseAdd(this, mask, accum, op, u, v, replace). */
    method EWiseAdd(mask: Mask<SparseVector>, accum: Accumulator, op: BinaryOp,
                    u: SparseVector, v: SparseVector, replace: bool) returns (o: Outcome)
      requires Valid() && u.Valid() && v.Valid()
      modifies this
      ensures Valid()
      ensures Applied(EWiseOps.EWiseAdd(old(Value()), mask, accum, op, u, v, replace), old(Value()), Value(), o)
    {
      var r := EWiseOps.EWiseAdd(Value(), mask, accum, op, u, v, replace);
      if r.Success? {
        entries := r.value.entries;
      }
      o := OutcomeOf(r);
    }

    /** eWiseMult(this, mask, accum, op, u, v, replace). */
    method EWiseMult(mask: Mask<SparseVector>, accum: Accumulator, op: BinaryOp,
                     u: SparseVector, v: SparseVector, replace: bool) returns (o: Outcome)
      requires Valid() && u.Valid() && v.Valid()
      modifies this
      ensures Valid()
      ensures Applied(EWiseOps.EWiseMult(old(Value()), mask, accum, op, u, v, replace), old(Value()), Value(), o)
    {
      var r := EWiseOps.EWiseMult(Value(), mask, accum, op, u, v, replace);
      if r.Success? {
        entries := r.value.entries;
      }
      o := OutcomeOf(r);
    }
  }

  class Matrix {
    const nrows: nat
    const ncols: nat
    var entries: map<Coord, int>

    ghost predicate Valid()
      reads this
    {
      Value().Valid()
    }

    /** The current content as a value. */
    function Value(): SparseMatrix
      reads this
    {
      SparseMatrix(nrows, ncols, entries)
    }

    /** Matrix(nrows, ncols): no entries. */
    constructor(nr: nat, nc: nat)
      ensures Valid() && Value() == SparseMatrix(nr, nc, map[])
    {
      nrows, ncols := nr, nc;
      entries := map[];
    }

    /** Matrix(d, zero): every element of the grid d except those equal to zero. */
    constructor FromDense(d: seq<seq<int>>, zero: int)
      requires Rectangular(d)
      ensures Valid() && Value() == DenseMatrix(d, zero)
    {
      var a := DenseMatrix(d, zero);
      nrows, ncols := a.nrows, a.ncols;
      entries := a.entries;
    }

    /** build(rows, cols, vals): the matrix's content becomes the tuples. */
    method Build(rows: seq<nat>, cols: seq<nat>, vals: seq<int>) returns (o: Outcome)
      requires Valid() && |rows| == |cols| == |vals|
      modifies this
      ensures Valid() && Applied(Sparse.Build(nrows, ncols, rows, cols, vals), old(Value()), Value(), o)
    {
      var r := Sparse.Build(nrows, ncols, rows, cols, vals);
      if r.Success? {
        entries := r.value.entries;
      }
      o := OutcomeOf(r);
    }

    /** transpose(this, mask, accum, a, replace). */
    method Transpose(mask: Mask<SparseMatrix>, accum: Accumulator, a: SparseMatrix, replace: bool) returns (o: Outcome)
      requires Valid() && a.Valid()
      modifies this
      ensures Valid()
      ensures Applied(TransposeOps.Transpose(old(Value()), mask, accum, a, replace), old(Value()), Value(), o)
    {
      var r := TransposeOps.Transpose(Value(), mask, accum, a, replace);
      if r.Success? {
        entries := r.value.entries;
      }
      o := OutcomeOf(r);
    }

    /** extract(this, mask, accum, a, rows, cols, replace). */
    method Extract(mask: Mask<SparseMatrix>, accum: Accumulator, a: SparseMatrix,
                   rows: seq<nat>, cols: seq<nat>, replace: bool) returns (o: Outcome)
      requires Valid()
      modifies this
      ensures Valid()
      ensures Applied(ExtractOps.Extract(old(Value()), mask, accum, a, rows, cols, replace), old(Value()), Value(), o)
    {
      var r := ExtractOps.Extract(Value(), mask, accum, a, rows, cols, replace);
      if r.Success? {
        entries := r.value.entries;
      }
      o := OutcomeOf(r);
    }
  }
}
