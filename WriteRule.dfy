/** The mask-accumulate-replace rule that every masked operation applies to
    its candidate result T before writing into its output C (sections 4.3.4
    to 4.3.10 of the GraphBLAS C API Specification all end in it).

    1. Z := T without an accumulator, else Z := C (+) T, the union of C and
       T combined as accum(c, t).
    2. At each position: masked in, C takes Z's entry, or loses its entry
       when Z has none; masked out, C loses its entry under replace and
       keeps it under merge. */
module WriteRule {
  import opened Algebra
  import opened Sparse
  import opened Views
  import opened Kernels

  /** Step 1: Z. An accumulator never invents a left identity: where C has
      no entry, Z holds T's value unchanged. */
  function Combine<K>(c: map<K, int>, accum: Accumulator, t: map<K, int>): (z: map<K, int>)
    ensures z.Keys == if accum.NoAccumulate? then t.Keys else c.Keys + t.Keys
  {
    match accum
    case NoAccumulate => t
    case Accum(op) => Union(c, t, op)
  }

  /** Step 2: the masked write of Z into C. */
  function Write<K>(c: map<K, int>, mask: Mask<map<K, int>>, z: map<K, int>, replace: bool): (r: map<K, int>)
    ensures r.Keys <= c.Keys + z.Keys
  {
    map k | k in c.Keys + z.Keys && (if MaskedIn(mask, k) then k in z else !replace && k in c) ::
      if MaskedIn(mask, k) then z[k] else c[k]
  }

  /** A masked-in position ends up exactly as Z has it: a position Z lacks
      is cleared, under replace and under merge alike. */
  lemma WriteMaskedIn<K>(c: map<K, int>, mask: Mask<map<K, int>>, z: map<K, int>, replace: bool, k: K)
    requires MaskedIn(mask, k)
    ensures k in Write(c, mask, z, replace) <==> k in z
    ensures k in z ==> Write(c, mask, z, replace)[k] == z[k]
  {
  }

  /** A masked-out position is cleared under replace and untouched under merge. */
  lemma WriteMaskedOut<K>(c: map<K, int>, mask: Mask<map<K, int>>, z: map<K, int>, replace: bool, k: K)
    requires !MaskedIn(mask, k)
    ensures replace ==> k !in Write(c, mask, z, replace)
    ensures !replace ==> (k in Write(c, mask, z, replace) <==> k in c)
    ensures !replace && k in c ==> Write(c, mask, z, replace)[k] == c[k]
  {
  }

  /** Without a mask the output becomes Z: every old entry outside Z goes. */
  lemma WriteNoMask<K>(c: map<K, int>, z: map<K, int>, replace: bool)
    ensures Write(c, NoMask, z, replace) == z
  {
    assert Write(c, NoMask, z, replace).Keys == z.Keys;
  }

  /** Writing the same Z twice through the same mask changes nothing more. */
  lemma WriteIdempotent<K>(c: map<K, int>, mask: Mask<map<K, int>>, z: map<K, int>, replace: bool)
    ensures Write(Write(c, mask, z, replace), mask, z, replace) == Write(c, mask, z, replace)
  {
    var once := Write(c, mask, z, replace);
    var twice := Write(once, mask, z, replace);
    forall k | k in c.Keys + z.Keys
      ensures (k in twice <==> k in once) && (k in once ==> twice[k] == once[k])
    {
      if MaskedIn(mask, k) {
        WriteMaskedIn(c, mask, z, replace, k);
        WriteMaskedIn(once, mask, z, replace, k);
      } else {
        WriteMaskedOut(c, mask, z, replace, k);
        WriteMaskedOut(once, mask, z, replace, k);
      }
    }
    assert twice.Keys == once.Keys;
  }

  /** The write consults the mask only through MaskedIn, and only at
      positions C or Z holds. */
  lemma WritePatternOnly<K>(c: map<K, int>, m1: Mask<map<K, int>>, m2: Mask<map<K, int>>, z: map<K, int>, replace: bool)
    requires forall k | k in c || k in z :: MaskedIn(m1, k) == MaskedIn(m2, k)
    ensures Write(c, m1, z, replace) == Write(c, m2, z, replace)
  {
    var r1, r2 := Write(c, m1, z, replace), Write(c, m2, z, replace);
    assert r1.Keys == r2.Keys;
  }

  /** Two containers with the same non-zero pattern are the same mask. */
  ghost predicate SamePattern<K>(m1: map<K, int>, m2: map<K, int>) {
    forall k | k in m1.Keys + m2.Keys :: Truth(m1, k) == Truth(m2, k)
  }

  /** The write into a vector output, for a candidate T within its size. */
  function WriteVector(w: SparseVector, mask: Mask<SparseVector>, accum: Accumulator, t: map<nat, int>, replace: bool): (r: SparseVector)
    requires w.Valid() && forall i | i in t :: i < w.size
    ensures r.size == w.size && r.Valid()
  {
    SparseVector(w.size, Write(w.entries, VectorPattern(mask), Combine(w.entries, accum, t), replace))
  }

  /** Mask truth is value based: a mask that stores zeros acts exactly like
      the mask that leaves them out, directly and complemented. */
  lemma VectorMaskValueBased(w: SparseVector, m1: SparseVector, m2: SparseVector, accum: Accumulator,
                             t: map<nat, int>, replace: bool)
    requires w.Valid() && forall i | i in t :: i < w.size
    requires SamePattern(m1.entries, m2.entries)
    ensures WriteVector(w, Mask(m1), accum, t, replace) == WriteVector(w, Mask(m2), accum, t, replace)
    ensures WriteVector(w, Complement(m1), accum, t, replace) == WriteVector(w, Complement(m2), accum, t, replace)
  {
    var z := Combine(w.entries, accum, t);
    WritePatternOnly(w.entries, Mask(m1.entries), Mask(m2.entries), z, replace);
    WritePatternOnly(w.entries, Complement(m1.entries), Complement(m2.entries), z, replace);
  }

  /** A dense mask list built with zero dropped and built with every element
      stored have the same pattern. */
  lemma DenseMaskSamePattern(d: seq<int>)
    ensures SamePattern(DenseVector(d, 0).entries, DenseVectorAll(d).entries)
  {
    var s, a := DenseVector(d, 0), DenseVectorAll(d);
    forall k: nat | k in s.entries.Keys + a.entries.Keys ensures Truth(s.entries, k) == Truth(a.entries, k) {
      if k < |d| {
        assert s.ExtractElement(k) == if d[k] == 0 then Failure(NoValueException) else Success(d[k]);
        assert a.ExtractElement(k) == Success(d[k]);
      }
    }
  }

  /** complement(m1) writes what m2 writes when, within the output's size,
      m2 is on exactly where m1 is off. */
  lemma VectorComplementMirror(w: SparseVector, m1: SparseVector, m2: SparseVector, accum: Accumulator,
                               t: map<nat, int>, replace: bool)
    requires w.Valid() && forall i | i in t :: i < w.size
    requires forall i: nat | i < w.size :: Truth(m1.entries, i) != Truth(m2.entries, i)
    ensures WriteVector(w, Complement(m1), accum, t, replace) == WriteVector(w, Mask(m2), accum, t, replace)
  {
    var z := Combine(w.entries, accum, t);
    WritePatternOnly(w.entries, Complement(m1.entries), Mask(m2.entries), z, replace);
  }

  /** The complement view's pattern of a vector mask, materialised as a
      container with 1 wherever the mask is off. */
  function ComplementPattern(m: SparseVector): (n: SparseVector)
    ensures n.size == m.size && n.Valid()
    ensures forall i: nat | i < m.size :: Truth(n.entries, i) == !Truth(m.entries, i)
  {
    SparseVector(m.size, map i: nat | i < m.size && !Truth(m.entries, i) :: 1)
  }

  /** Complementing twice restores the mask. */
  lemma VectorComplementTwice(w: SparseVector, m: SparseVector, accum: Accumulator, t: map<nat, int>, replace: bool)
    requires w.Valid() && forall i | i in t :: i < w.size
    requires m.size == w.size
    ensures WriteVector(w, Complement(ComplementPattern(m)), accum, t, replace) == WriteVector(w, Mask(m), accum, t, replace)
  {
    VectorComplementMirror(w, ComplementPattern(m), m, accum, t, replace);
  }

  /** Without a mask a vector output becomes Z: T itself, or with an
      accumulator the union of the old content and T. */
  lemma VectorNoMask(w: SparseVector, accum: Accumulator, t: map<nat, int>, replace: bool)
    requires w.Valid() && forall i | i in t :: i < w.size
    ensures WriteVector(w, NoMask, accum, t, replace).entries == Combine(w.entries, accum, t)
  {
    WriteNoMask(w.entries, Combine(w.entries, accum, t), replace);
  }

  /** The write into a matrix output, for a candidate T within its shape. */
  function WriteMatrix(c: SparseMatrix, mask: Mask<SparseMatrix>, accum: Accumulator, t: map<Coord, int>, replace: bool): (r: SparseMatrix)
    requires c.Valid() && forall k | k in t :: k.0 < c.nrows && k.1 < c.ncols
    ensures r.nrows == c.nrows && r.ncols == c.ncols && r.Valid()
  {
    SparseMatrix(c.nrows, c.ncols, Write(c.entries, MatrixPattern(mask), Combine(c.entries, accum, t), replace))
  }

  /** complement(m1) writes what m2 writes when, within the output's shape,
      m2 is on exactly where m1 is off. */
  lemma MatrixComplementMirror(c: SparseMatrix, m1: SparseMatrix, m2: SparseMatrix, accum: Accumulator,
                               t: map<Coord, int>, replace: bool)
    requires c.Valid() && forall k | k in t :: k.0 < c.nrows && k.1 < c.ncols
    requires forall i: nat, j: nat | i < c.nrows && j < c.ncols :: Truth(m1.entries, (i, j)) != Truth(m2.entries, (i, j))
    ensures WriteMatrix(c, Complement(m1), accum, t, replace) == WriteMatrix(c, Mask(m2), accum, t, replace)
  {
    var z := Combine(c.entries, accum, t);
    forall k | k in c.entries || k in z
      ensures MaskedIn(Complement(m1.entries), k) == MaskedIn(Mask(m2.entries), k)
    {
      assert Truth(m1.entries, (k.0, k.1)) != Truth(m2.entries, (k.0, k.1));
    }
    WritePatternOnly(c.entries, Complement(m1.entries), Mask(m2.entries), z, replace);
  }

  /** Without a mask a matrix output becomes Z. */
  lemma MatrixNoMask(c: SparseMatrix, accum: Accumulator, t: map<Coord, int>, replace: bool)
    requires c.Valid() && forall k | k in t :: k.0 < c.nrows && k.1 < c.ncols
    ensures WriteMatrix(c, NoMask, accum, t, replace).entries == Combine(c.entries, accum, t)
  {
    WriteNoMask(c.entries, Combine(c.entries, accum, t), replace);
  }
}
