/** View adapters: the mask argument of an operation (no mask, a container,
    or the complement view of a container) and the transpose view of a
    matrix. Views own no storage; here they are values over a snapshot of
    the underlying container. */
module Views {
  import opened Sparse

  /** The mask argument: NoMask, a container used as a mask, or
      complement(container). Only the mask's pattern of non-zero entries is
      consulted, never its values otherwise. */
  datatype Mask<C> = NoMask | Mask(m: C) | Complement(m: C)

  /** Whether an operation may write position k of its output, for a mask
      over the output's entry map. With no mask every position is masked
      in; a complement view reverses its container's truth. */
  predicate MaskedIn<K>(mask: Mask<map<K, int>>, k: K) {
    match mask
    case NoMask => true
    case Mask(m) => Truth(m, k)
    case Complement(m) => !Truth(m, k)
  }

  /** A vector mask read as a mask over entry maps. */
  function VectorPattern(mask: Mask<SparseVector>): Mask<map<nat, int>> {
    match mask
    case NoMask => NoMask
    case Mask(m) => Mask(m.entries)
    case Complement(m) => Complement(m.entries)
  }

  /** Whether a vector mask has the output's size (NoMask always fits). */
  predicate VectorMaskFits(mask: Mask<SparseVector>, size: nat) {
    mask.NoMask? || mask.m.size == size
  }

  /** A matrix mask read as a mask over entry maps. */
  function MatrixPattern(mask: Mask<SparseMatrix>): Mask<map<Coord, int>> {
    match mask
    case NoMask => NoMask
    case Mask(m) => Mask(m.entries)
    case Complement(m) => Complement(m.entries)
  }

  /** Whether a matrix mask has the output's shape (NoMask always fits). */
  predicate MatrixMaskFits(mask: Mask<SparseMatrix>, nrows: nat, ncols: nat) {
    mask.NoMask? || (mask.m.nrows == nrows && mask.m.ncols == ncols)
  }

  /** The single-argument transpose(A): a view with the shape swapped in
      which (j, i) holds what A holds at (i, j). */
  function TransposeView(a: SparseMatrix): (t: SparseMatrix)
    requires a.Valid()
    ensures t.nrows == a.ncols && t.ncols == a.nrows && t.Valid() && t.NVals() == a.NVals()
    ensures forall i: nat, j: nat :: t.ExtractElement(j, i) == a.ExtractElement(i, j)
  {
    var t := SparseMatrix(a.ncols, a.nrows, SwapKeys(a.entries));
    SwappedCard(a.entries.Keys);
    assert t.entries.Keys == Swapped(a.entries.Keys);
    t
  }

  /** The entry map read with row and column exchanged. */
  function SwapKeys(m: map<Coord, int>): map<Coord, int> {
    map k | k in Swapped(m.Keys) :: m[(k.1, k.0)]
  }

  function Swapped(s: set<Coord>): set<Coord> {
    set k | k in s :: (k.1, k.0)
  }

  /** One position of the swapped map. */
  lemma SwapKeysAt(m: map<Coord, int>, i: nat, j: nat)
    ensures (j, i) in SwapKeys(m) <==> (i, j) in m
    ensures (i, j) in m ==> SwapKeys(m)[(j, i)] == m[(i, j)]
  {
    if (i, j) in m {
      assert (j, i) in Swapped(m.Keys);
    }
  }

  lemma SwappedCard(s: set<Coord>)
    ensures |Swapped(s)| == |s|
  {
    if s != {} {
      var k :| k in s;
      SwappedCard(s - {k});
      assert Swapped(s) == Swapped(s - {k}) + {(k.1, k.0)};
    }
  }

  /** Transposing twice gives back the matrix: shape and content. */
  lemma TransposeTwice(a: SparseMatrix)
    requires a.Valid()
    ensures TransposeView(TransposeView(a)) == a
  {
    var t := TransposeView(TransposeView(a));
    forall k | k in a.entries
      ensures k in t.entries && t.entries[k] == a.entries[k]
    {
      assert a.ExtractElement(k.0, k.1) == Success(a.entries[k]);
    }
    forall k | k in t.entries
      ensures k in a.entries
    {
      assert t.ExtractElement(k.0, k.1).Success?;
    }
    assert t.entries == a.entries;
  }
}
