/** Vector eWiseAdd (section 4.3.5 of the GraphBLAS C API Specification)
    and eWiseMult (section 4.3.4): the union or intersection kernel followed
    by the mask-accumulate-replace write into the output w. */
module EWiseOps {
  import opened Algebra
  import opened Sparse
  import opened Views
  import opened Kernels
  import opened WriteRule

  /** size(w) == size(mask) == size(u) == size(v); a missing mask has no size. */
  predicate VectorShapesAgree(w: SparseVector, mask: Mask<SparseVector>, u: SparseVector, v: SparseVector) {
    VectorMaskFits(mask, w.size) && u.size == w.size && v.size == w.size
  }

  /** eWiseAdd(w, mask, accum, op, u, v, replace): the new content of w, or
      DimensionException (w unchanged) when the sizes disagree. */
  function EWiseAdd(w: SparseVector, mask: Mask<SparseVector>, accum: Accumulator, op: BinaryOp,
                    u: SparseVector, v: SparseVector, replace: bool): (r: Result<SparseVector>)
    requires w.Valid() && u.Valid() && v.Valid()
    ensures r.Failure? <==> !VectorShapesAgree(w, mask, u, v)
    ensures r.Failure? ==> r.error == DimensionException
    ensures r.Success? ==> r.value.size == w.size && r.value.Valid()
  {
    if !VectorShapesAgree(w, mask, u, v) then Failure(DimensionException)
    else Success(WriteVector(w, mask, accum, Union(u.entries, v.entries, op), replace))
  }

  /** eWiseMult(w, mask, accum, op, u, v, replace), with the same checks. */
  function EWiseMult(w: SparseVector, mask: Mask<SparseVector>, accum: Accumulator, op: BinaryOp,
                     u: SparseVector, v: SparseVector, replace: bool): (r: Result<SparseVector>)
    requires w.Valid() && u.Valid() && v.Valid()
    ensures r.Failure? <==> !VectorShapesAgree(w, mask, u, v)
    ensures r.Failure? ==> r.error == DimensionException
    ensures r.Success? ==> r.value.size == w.size && r.value.Valid()
  {
    if !VectorShapesAgree(w, mask, u, v) then Failure(DimensionException)
    else Success(WriteVector(w, mask, accum, Intersection(u.entries, v.entries, op), replace))
  }

  /** No mask, no accumulator: w becomes exactly the union. Every old entry
      of w outside supp(u) + supp(v) is removed; an entry of one operand
      alone, a stored zero included, passes through with its value. */
  lemma EWiseAddUnmasked(w: SparseVector, op: BinaryOp, u: SparseVector, v: SparseVector, replace: bool)
    requires w.Valid() && u.Valid() && v.Valid() && u.size == w.size && v.size == w.size
    ensures EWiseAdd(w, NoMask, NoAccumulate, op, u, v, replace) == Success(SparseVector(w.size, Union(u.entries, v.entries, op)))
    ensures forall i: nat | i < w.size ::
      EWiseAdd(w, NoMask, NoAccumulate, op, u, v, replace).value.ExtractElement(i) ==
        if u.HasElement(i) && v.HasElement(i) then Success(op(u.entries[i], v.entries[i]))
        else if u.HasElement(i) then u.ExtractElement(i)
        else v.ExtractElement(i)
  {
    VectorNoMask(w, NoAccumulate, Union(u.entries, v.entries, op), replace);
  }

  /** eWiseAdd with an empty operand, no mask and no accumulator gives the
      other operand. */
  lemma EWiseAddWithEmpty(w: SparseVector, op: BinaryOp, u: SparseVector, replace: bool)
    requires w.Valid() && u.Valid() && u.size == w.size
    ensures EWiseAdd(w, NoMask, NoAccumulate, op, u, SparseVector(u.size, map[]), replace) == Success(u)
  {
    EWiseAddUnmasked(w, op, u, SparseVector(u.size, map[]), replace);
    UnionWithEmpty(u.entries, op);
  }

  /** eWiseAdd through a mask without an accumulator, position by position:
      masked in, w takes the union's entry or is cleared where the union has
      none; masked out, w is cleared under replace and kept under merge. */
  lemma EWiseAddMasked(w: SparseVector, mask: Mask<SparseVector>, op: BinaryOp,
                       u: SparseVector, v: SparseVector, replace: bool, i: nat)
    requires w.Valid() && u.Valid() && v.Valid() && VectorShapesAgree(w, mask, u, v)
    ensures var r := EWiseAdd(w, mask, NoAccumulate, op, u, v, replace).value;
      && (MaskedIn(VectorPattern(mask), i) ==>
            r.ExtractElement(i) == SparseVector(w.size, Union(u.entries, v.entries, op)).ExtractElement(i))
      && (!MaskedIn(VectorPattern(mask), i) && replace ==> !r.HasElement(i))
      && (!MaskedIn(VectorPattern(mask), i) && !replace ==> r.ExtractElement(i) == w.ExtractElement(i))
  {
    var t := Union(u.entries, v.entries, op);
    if MaskedIn(VectorPattern(mask), i) {
      WriteMaskedIn(w.entries, VectorPattern(mask), t, replace, i);
    } else {
      WriteMaskedOut(w.entries, VectorPattern(mask), t, replace, i);
    }
  }

  /** eWiseAdd with an accumulator at a masked-in position: accum(old, new)
      where both exist, otherwise whichever exists. */
  lemma EWiseAddAccumulated(w: SparseVector, mask: Mask<SparseVector>, acc: BinaryOp, op: BinaryOp,
                            u: SparseVector, v: SparseVector, replace: bool, i: nat)
    requires w.Valid() && u.Valid() && v.Valid() && VectorShapesAgree(w, mask, u, v)
    requires MaskedIn(VectorPattern(mask), i)
    ensures var r := EWiseAdd(w, mask, Accum(acc), op, u, v, replace).value;
      var t := Union(u.entries, v.entries, op);
      && (r.HasElement(i) <==> w.HasElement(i) || i in t)
      && (w.HasElement(i) && i in t ==> r.entries[i] == acc(w.entries[i], t[i]))
      && (w.HasElement(i) && i !in t ==> r.entries[i] == w.entries[i])
      && (!w.HasElement(i) && i in t ==> r.entries[i] == t[i])
  {
    var t := Union(u.entries, v.entries, op);
    WriteMaskedIn(w.entries, VectorPattern(mask), Combine(w.entries, Accum(acc), t), replace, i);
  }

  /** No mask, no accumulator: w becomes exactly the intersection, so an
      entry of one operand alone never reaches w and every old entry of w
      outside supp(u) * supp(v) is removed. */
  lemma EWiseMultUnmasked(w: SparseVector, op: BinaryOp, u: SparseVector, v: SparseVector, replace: bool)
    requires w.Valid() && u.Valid() && v.Valid() && u.size == w.size && v.size == w.size
    ensures EWiseMult(w, NoMask, NoAccumulate, op, u, v, replace) == Success(SparseVector(w.size, Intersection(u.entries, v.entries, op)))
    ensures forall i: nat | i < w.size ::
      EWiseMult(w, NoMask, NoAccumulate, op, u, v, replace).value.ExtractElement(i) ==
        if u.HasElement(i) && v.HasElement(i) then Success(op(u.entries[i], v.entries[i]))
        else Failure(NoValueException)
  {
    VectorNoMask(w, NoAccumulate, Intersection(u.entries, v.entries, op), replace);
  }

  /** eWiseMult with an empty operand empties w, whatever w held before. */
  lemma EWiseMultWithEmpty(w: SparseVector, op: BinaryOp, u: SparseVector, replace: bool)
    requires w.Valid() && u.Valid() && u.size == w.size
    ensures EWiseMult(w, NoMask, NoAccumulate, op, u, SparseVector(u.size, map[]), replace) == Success(SparseVector(w.size, map[]))
  {
    EWiseMultUnmasked(w, op, u, SparseVector(u.size, map[]), replace);
    IntersectionWithEmpty(u.entries, op);
  }

  /** Unmasked, eWiseMult's result is never larger than eWiseAdd's, and
      together they count nvals(u) + nvals(v). */
  lemma EWiseAddMultCount(w: SparseVector, op: BinaryOp, u: SparseVector, v: SparseVector, replace: bool)
    requires w.Valid() && u.Valid() && v.Valid() && u.size == w.size && v.size == w.size
    ensures EWiseAdd(w, NoMask, NoAccumulate, op, u, v, replace).value.NVals() +
            EWiseMult(w, NoMask, NoAccumulate, op, u, v, replace).value.NVals() == u.NVals() + v.NVals()
  {
    EWiseAddUnmasked(w, op, u, v, replace);
    EWiseMultUnmasked(w, op, u, v, replace);
    UnionIntersectionCount(u.entries, v.entries, op);
  }
}
