# GraphBLAS masked sparse operations (gbtl), modelled in Dafny

This project models the semantics that gbtl's element-wise, transpose and
extract operations share. It is derived from the library's test suites
for vector eWiseAdd, vector eWiseMult, matrix transpose and matrix
extract.

- **Containers.** A sparse vector is a size plus a finite map from index
  to value; a sparse matrix is a shape plus a map from (row, col) to value
  (`Sparse`). A stored zero is an entry. It is counted, and it makes
  containers unequal.
- **Masks.** A mask is `NoMask`, a container, or the complement view of a
  container (`Views`). A position is masked in exactly when the container
  holds a non-zero value there.
- **Candidate results.** Each operation computes a candidate result T:
  - eWiseAdd: the union of u and v, where a one-sided entry passes through;
  - eWiseMult: the intersection;
  - transpose: the swapped matrix;
  - extract: the gather by two index lists.

  (`Kernels`, `EWiseOps`, `TransposeOps`, `ExtractOps`.)
- **The write rule** (`WriteRule`), which every operation uses to write T
  into its output C:
  1. Z is T, or with an accumulator, C and T combined as accum(c, t).
  2. A masked-in position takes Z's entry, or loses its entry when Z has
     none.
  3. A masked-out position is cleared under replace and kept under merge.
- **Objects and scenarios.** The classes `GraphBLAS.Vector` and
  `GraphBLAS.Matrix` hold a mutable entry map. Their methods update it in
  place: with the pure operation's result, or not at all when the
  operation throws. The `*Tests` modules state each test scenario as a
  lemma about the pure functions and as a method that runs the same
  sequence of calls on the objects.

The rule follows sections 4.3.4 (eWiseMult), 4.3.5 (eWiseAdd), 4.3.6
(extract) and 4.3.10 (transpose) of the GraphBLAS C API Specification.
Exceptions are values: a `Result` for functions, an `Outcome` for
methods. On an exception the output is left unchanged.

Scalars are mathematical integers. Every value in the tests is a small
integer, so none of the `double` arithmetic they perform rounds.

A masked-in position for which Z has no entry is cleared, under replace
and merge alike. It does not keep its old value, which is what the test
expectations show: see src/test/test_ewiseadd_vector.cpp:389-396
(position 1 of `answer3`) and src/test/test_transpose.cpp:193-207 (the 9s
masked in where Aᵀ is absent).

## Model

| member | source | states |
|---|---|---|
| Algebra.Plus | src/test/test_ewiseadd_vector.cpp:172 | Plus(a, b) = a + b. |
| Algebra.Minus | src/test/test_ewiseadd_vector.cpp:674 | Minus(a, b) = a - b, the old output value first. |
| Algebra.Times | src/test/test_sparse_ewisemult_vector.cpp:120-123 | Times(a, b) = a * b. |
| Algebra.Second | src/test/sequential/test_sparse_extract.cpp:57 | Second(a, b) = b: the new value replaces the old. |
| Sparse.SparseVector.SetElement | src/test/test_sparse_ewisemult_vector.cpp:129-135 | An index below the size sets that position to x, a zero included. The count grows by one exactly when the position was empty, and every other position is unchanged. An index out of range throws IndexOutOfBounds. |
| Sparse.DenseVector | src/test/test_ewiseadd_vector.cpp:56-60 | The constructor with a zero argument has the list's length. Each position holds the list's element, or nothing where that element equals the zero. |
| Sparse.DenseVectorAll | src/test/test_ewiseadd_vector.cpp:195-201 | The constructor without a zero stores every element of the list, zeros included. |
| Sparse.DenseVectorAllCount | src/test/test_ewiseadd_vector.cpp:195-201 | Storing every element gives nvals equal to the list's length. |
| Sparse.VectorEquality | src/test/test_ewiseadd_vector.cpp:173 | Vector equality holds exactly when the sizes agree and every position agrees, absence included. |
| Sparse.StoredZerosAreEntries | src/test/test_ewiseadd_vector.cpp:195-228 | A list holding a 0 gives different vectors with and without the zero argument. The one that stores zeros has strictly more entries. |
| Sparse.MatrixEquality | src/test/test_transpose.cpp:75 | Matrix equality holds exactly when the shapes agree and every position agrees. |
| Sparse.DenseMatrix | src/test/test_transpose.cpp:152-157 | The grid constructor gives a matrix with the grid's shape. Each position holds the grid's element, or nothing where it equals the zero. |
| Sparse.DenseIsGrid | src/test/test_transpose.cpp:152-157 | The grid constructor with zero 0 satisfies the grid description `IsGrid` used by the scenarios. |
| Sparse.GridAt | src/test/sequential/test_sparse_extract.cpp:41-42 | A matrix described by a grid has an entry at (i, j) exactly when the grid's element there is not 0, and that entry is the element. |
| Sparse.BuildEntries | src/test/test_transpose.cpp:47-51 | The built map's keys are exactly the coordinates of the tuples, and it has at most one entry per tuple. |
| Sparse.BuildLastWins | src/test/test_transpose.cpp:47-51 | A coordinate that no later tuple repeats stores its tuple's value. |
| Sparse.Build | src/test/test_transpose.cpp:47-51 | build fails, with DimensionException, exactly when some coordinate is out of bounds. Otherwise it gives the requested shape and its entries are BuildEntries of the three lists. |
| Sparse.Truth | src/test/test_ewiseadd_vector.cpp:295-298 | A mask position is on exactly when an entry is stored there and its value is not 0; a stored 0 is off. |
| Sparse.SparseVector.NVals | src/test/test_sparse_ewisemult_vector.cpp:196 | nvals() is the number of stored entries, stored zeros included. |
| Sparse.SparseVector.HasElement | src/test/test_sparse_ewisemult_vector.cpp:129-135 | hasElement(i) holds exactly when an entry is stored at i. |
| Sparse.SparseVector.ExtractElement | src/test/test_sparse_ewisemult_vector.cpp:129-135 | extractElement(i) throws IndexOutOfBounds beyond the size, NoValue where nothing is stored, and returns the stored value otherwise. |
| Sparse.SparseMatrix.NVals | src/test/test_transpose.cpp:47-51 | nvals() is the number of stored entries. |
| Sparse.SparseMatrix.HasElement | src/test/test_transpose.cpp:163-175 | hasElement(i, j) holds exactly when an entry is stored at (i, j). |
| Sparse.SparseMatrix.ExtractElement | src/test/test_transpose.cpp:163-175 | extractElement(i, j) throws IndexOutOfBounds outside the shape, NoValue where nothing is stored, and returns the stored value otherwise. |
| Sparse.IndicesInBounds | src/test/test_transpose.cpp:47-51 | Every tuple's row is below nrows and its column below ncols. |
| Sparse.LastOf | src/test/test_transpose.cpp:47-51 | No later tuple has tuple p's coordinate. |
| Sparse.BuildStores | src/test/test_transpose.cpp:47-51 | After a successful build a coordinate is stored exactly when some tuple has it, and a tuple that no later tuple repeats gives its coordinate its value: the last value wins. |
| Views.MaskedIn | src/test/test_ewiseadd_vector.cpp:442-456 | With no mask every position is masked in. A mask admits the positions where it is on; complement(mask) admits exactly the others. |
| Views.VectorMaskFits | src/test/test_ewiseadd_vector.cpp:235-249 | A vector mask fits when it has the output's size; a missing mask always fits. |
| Views.MatrixMaskFits | src/test/test_transpose.cpp:158-161 | A matrix mask fits when it has the output's shape; a missing mask always fits. |
| Views.TransposeView | src/test/test_transpose.cpp:98-139 | transpose(A) has nrows = A.ncols, ncols = A.nrows and A's number of entries. Position (j, i) of it holds whatever A holds at (i, j). |
| Views.SwapKeysAt | src/test/test_transpose.cpp:98-139 | The swapped map holds (j, i) exactly when the original holds (i, j), with the same value. |
| Views.SwappedCard | src/test/test_transpose.cpp:98-139 | Swapping coordinates keeps the number of keys. |
| Views.TransposeTwice | src/test/test_transpose.cpp:344-369 | Transposing twice gives back the matrix: shape and content. |
| Kernels.Union | src/test/test_ewiseadd_vector.cpp:159-182 | eWiseAdd's T covers exactly supp(u) ∪ supp(v). |
| Kernels.UnionIsIdentityFill | src/test/test_ewiseadd_vector.cpp:159-182 | Letting a one-sided value pass through agrees with filling the missing side with op's identity, whenever op has one. |
| Kernels.UnionWithEmpty | src/test/test_ewiseadd_vector.cpp:185-191 | The union with an empty operand, on either side, is the other operand, for every op. |
| Kernels.UnionCommutes | src/test/test_ewiseadd_vector.cpp:159-182 | For a commutative op the union does not depend on the operands' order. |
| Kernels.UnionAssociates | src/test/test_ewiseadd_vector.cpp:159-182 | For an associative op the union is associative. |
| Kernels.Intersection | src/test/test_sparse_ewisemult_vector.cpp:75-98 | eWiseMult's T covers exactly supp(u) ∩ supp(v). |
| Kernels.IntersectionCommutes | src/test/test_sparse_ewisemult_vector.cpp:75-98 | For a commutative op the intersection does not depend on the operands' order. |
| Kernels.IntersectionWithEmpty | src/test/test_sparse_ewisemult_vector.cpp:100-107 | The intersection with an empty operand is empty. |
| Kernels.IntersectionIsRestrictedUnion | src/test/test_sparse_ewisemult_vector.cpp:91-98 | The intersection is the union cut down to the positions both operands hold. |
| Kernels.UnionIntersectionCount | src/test/test_sparse_ewisemult_vector.cpp:75-98 | nvals(union) + nvals(intersection) = nvals(u) + nvals(v). |
| Kernels.CardUnionIntersection | src/test/test_sparse_ewisemult_vector.cpp:75-98 | The same count identity for two sets. |
| WriteRule.Combine | src/test/test_transpose.cpp:243-262 | Z covers T's positions without an accumulator, and C's plus T's with one. |
| WriteRule.Write | src/test/test_transpose.cpp:177-239 | The masked write stores nothing outside C's and Z's positions. |
| WriteRule.WriteMaskedIn | src/test/test_ewiseadd_vector.cpp:389-396 | A masked-in position ends up exactly as Z has it. Where Z has no entry it is cleared under replace and merge alike. |
| WriteRule.WriteMaskedOut | src/test/test_transpose.cpp:177-207 | A masked-out position is cleared under replace. Under merge it keeps C's entry, or its absence. |
| WriteRule.WriteNoMask | src/test/test_transpose.cpp:142-175 | With no mask the output becomes Z; every old entry outside Z is removed. |
| WriteRule.WriteIdempotent | src/test/test_ewiseadd_vector.cpp:253-292 | Writing the same Z twice through the same mask with the same flag equals writing it once. |
| WriteRule.WritePatternOnly | src/test/test_ewiseadd_vector.cpp:295-334 | Two masks that agree on truth at every position C or Z holds give the same result. |
| WriteRule.WriteVector | src/test/test_ewiseadd_vector.cpp:253-292 | The vector write keeps the output's size and its bounds. |
| WriteRule.VectorMaskValueBased | src/test/test_ewiseadd_vector.cpp:295-334 | Masks with the same non-zero pattern give the same result, plain and complemented. So a stored 0 in a mask acts as absence. |
| WriteRule.DenseMaskSamePattern | src/test/test_ewiseadd_vector.cpp:256-298 | A mask list built with zeros dropped and one built with zeros stored have the same non-zero pattern. |
| WriteRule.VectorComplementMirror | src/test/test_ewiseadd_vector.cpp:464-650 | complement(m1) writes what m2 writes whenever, within the output's size, m2 is on exactly where m1 is off. |
| WriteRule.ComplementPattern | src/test/test_ewiseadd_vector.cpp:464-505 | The materialised complement of a mask is on exactly where the mask is off. |
| WriteRule.VectorComplementTwice | src/test/test_ewiseadd_vector.cpp:464-505 | The complement of the materialised complement acts as the original mask. |
| WriteRule.VectorNoMask | src/test/test_ewiseadd_vector.cpp:658-677 | With no mask a vector output becomes Z: T itself, or the union of its old content with T under accum. |
| WriteRule.WriteMatrix | src/test/test_transpose.cpp:142-240 | The matrix write keeps the output's shape and its bounds. |
| WriteRule.MatrixComplementMirror | src/test/test_transpose.cpp:209-239 | complement(m1) writes what m2 writes whenever, within the output's shape, m2 is on exactly where m1 is off. |
| WriteRule.MatrixNoMask | src/test/test_transpose.cpp:142-175 | With no mask a matrix output becomes Z. |
| EWiseOps.VectorShapesAgree | src/test/test_ewiseadd_vector.cpp:52-156 | The sizes of w, u, v and the mask (if any) are all equal; the nine mismatched calls each break one of these. |
| EWiseOps.EWiseAdd | src/test/test_ewiseadd_vector.cpp:52-156 | eWiseAdd throws DimensionException exactly when the sizes of w, the mask (if any), u and v are not all equal. The result keeps w's size. |
| EWiseOps.EWiseMult | src/test/test_sparse_ewisemult_vector.cpp:50-72 | eWiseMult throws DimensionException exactly when the sizes disagree. The result keeps w's size. |
| EWiseOps.EWiseAddUnmasked | src/test/test_ewiseadd_vector.cpp:159-191 | With no mask and no accumulator, w becomes exactly the union. Each position holds op(u, v) where both are present, the present one's value where one is, and nothing otherwise. |
| EWiseOps.EWiseAddWithEmpty | src/test/test_ewiseadd_vector.cpp:185-191 | eWiseAdd with an empty v gives u, whatever w held. |
| EWiseOps.EWiseAddMasked | src/test/test_ewiseadd_vector.cpp:253-292 | Through a mask without an accumulator: masked in, w takes the union's value or is cleared; masked out, w is cleared under replace and kept under merge. |
| EWiseOps.EWiseAddAccumulated | src/test/test_ewiseadd_vector.cpp:658-701 | At a masked-in position with an accumulator: accum(old, new) where both exist, otherwise the one that exists, otherwise nothing. |
| EWiseOps.EWiseMultUnmasked | src/test/test_sparse_ewisemult_vector.cpp:75-98 | With no mask and no accumulator, w becomes exactly the intersection. Each position holds op(u, v) where both are present, and nothing otherwise. |
| EWiseOps.EWiseMultWithEmpty | src/test/test_sparse_ewisemult_vector.cpp:100-107 | eWiseMult with an empty operand empties w, whatever it held. |
| EWiseOps.EWiseAddMultCount | src/test/test_sparse_ewisemult_vector.cpp:75-98 | Unmasked, nvals(eWiseAdd) + nvals(eWiseMult) = nvals(u) + nvals(v). |
| TransposeOps.TransposeShapesAgree | src/test/test_transpose.cpp:45-58 | C is A's shape swapped, and a mask has C's shape; a 3 x 4 C for a 3 x 3 A breaks it. |
| TransposeOps.Transpose | src/test/test_transpose.cpp:45-58 | transpose throws DimensionException exactly when C's shape is not A's shape swapped, or a mask's shape is not C's. The result keeps C's shape. |
| TransposeOps.TransposeUnmasked | src/test/test_transpose.cpp:142-175 | With no mask and no accumulator, C becomes exactly transpose(A). |
| TransposeOps.TransposeNoMaskReplace | src/test/test_transpose.cpp:142-175 | With no mask the replace flag changes nothing. |
| TransposeOps.TransposeOfTransposeView | src/test/test_transpose.cpp:344-369 | transpose(C, transpose(A)) gives A. |
| TransposeOps.TransposeRule | src/test/test_transpose.cpp:177-340 | The per-position rule the ten mask, flag and accumulator tables follow: masked in, Aᵀ's entry (accumulated into C's where both exist); masked out, nothing under replace and C's entry under merge. |
| TransposeOps.TransposeAt | src/test/test_transpose.cpp:142-340 | Each position of the result, for every mask, accumulator and flag, equals TransposeRule: masked in, A's transposed entry, accumulated with C's entry when there is an accumulator and both exist; masked out, cleared under replace, kept under merge. |
| TransposeOps.TransposeCases | src/test/test_transpose.cpp:142-340 | The same position rule split into its four cases: masked in without an accumulator, masked in with one, masked out under replace, masked out under merge. |
| TransposeOps.SwapKeysOfBuild | src/test/test_transpose.cpp:61-95 | Swapping the coordinates of built entries gives the entries built from the swapped lists. |
| TransposeOps.SwapKeysUpdate | src/test/test_transpose.cpp:61-95 | Swapping commutes with storing one entry. |
| TransposeOps.TransposeOfBuild | src/test/test_transpose.cpp:61-139 | The transpose of a built matrix is the matrix built from the same tuples with rows and columns exchanged. |
| ExtractOps.GatherKeys | src/test/sequential/test_sparse_extract.cpp:32-63 | T has (p, q) exactly when p and q are in range and A has (rows[p], cols[q]). |
| ExtractOps.Gather | src/test/sequential/test_sparse_extract.cpp:32-63 | T is (length of rows) x (length of cols), and T(p, q) = A(rows[p], cols[q]) at every in-range position. |
| ExtractOps.IndicesInRange | src/test/sequential/test_sparse_extract.cpp:50-53 | Every row index is below A's row count and every column index below its column count. |
| ExtractOps.ExtractShapesAgree | src/test/sequential/test_sparse_extract.cpp:45-53 | C is (length of rows) x (length of cols), and a mask has C's shape. |
| ExtractOps.Extract | src/test/sequential/test_sparse_extract.cpp:53-60 | extract succeeds exactly when C is (length of rows) x (length of cols), the mask fits and every index is in range. Otherwise it throws DimensionException for a shape mismatch, before IndexOutOfBounds for a bad index. The result keeps C's shape. |
| ExtractOps.ExtractUnmasked | src/test/sequential/test_sparse_extract.cpp:32-63 | With no mask and no accumulator, C becomes exactly the gather. |
| ExtractOps.ExtractSecondIntoEmpty | src/test/sequential/test_sparse_extract.cpp:53-62 | An empty output with the accumulator Second receives exactly the gather. |
| ExtractOps.Range | src/test/sequential/test_sparse_extract.cpp:50-51 | The index list 0..n-1. |
| ExtractOps.ExtractIdentity | src/test/sequential/test_sparse_extract.cpp:32-63 | Gathering all rows and all columns in order gives A back. |
| ExtractOps.Compose | src/test/sequential/test_sparse_extract.cpp:122-123 | Applying one index list after another: r[p] = s[idx[p]]. |
| ExtractOps.GatherComposes | src/test/sequential/test_sparse_extract.cpp:102-135 | A gather of a gather is one gather by the composed index lists. |
| ExtractOps.GatherAt | src/test/sequential/test_sparse_extract.cpp:32-63 | One position of the gather, as stored entries. |
| ExtractOps.GatherUndo | src/test/sequential/test_sparse_extract.cpp:102-135 | Gathering a permuted gather by the inverse permutations gives A back. |
| ExtractOps.GatherDuplicates | src/test/sequential/test_sparse_extract.cpp:66-99 | Repeated indices give equal positions: each duplicate is copied independently. |
| ExtractOps.GatherTranspose | src/test/sequential/test_sparse_extract.cpp:32-63 | Gathering from transpose(A) with the lists exchanged gives the transpose of the gather. |
| ExtractOps.GatherTransposeEntries | src/test/sequential/test_sparse_extract.cpp:32-63 | The same, stated on the entry maps. |
| ExtractOps.GatherTransposeAt | src/test/sequential/test_sparse_extract.cpp:32-63 | The same, at one position. |
| ExtractOps.GatherFull | src/test/sequential/test_sparse_extract.cpp:41-42 | From a fully populated A every gathered position is present. |
| GraphBLAS.OutcomeOf | src/test/test_ewiseadd_vector.cpp:66-74 | A call passes exactly when its result succeeded, and otherwise reports its exception. |
| GraphBLAS.Vector.constructor | src/test/test_ewiseadd_vector.cpp:62-64 | Vector(n) has size n and no entries. |
| GraphBLAS.Vector.FromDense | src/test/test_ewiseadd_vector.cpp:56-60 | Vector(list, zero) holds DenseVector(list, zero). |
| GraphBLAS.Vector.FromDenseAll | src/test/test_ewiseadd_vector.cpp:197-201 | Vector(list) holds every element of the list. |
| GraphBLAS.Vector.SetElement | src/test/test_sparse_ewisemult_vector.cpp:130 | setElement updates the vector in place to the set value, or throws and leaves it unchanged. |
| GraphBLAS.Vector.EWiseAdd | src/test/test_ewiseadd_vector.cpp:159-191 | eWiseAdd on the object: the output's new content is EWiseOps.EWiseAdd of its old content with Pass, or its old content with the failure. |
| GraphBLAS.Vector.EWiseMult | src/test/test_sparse_ewisemult_vector.cpp:75-107 | The same for eWiseMult. |
| GraphBLAS.Matrix.constructor | src/test/test_transpose.cpp:53 | Matrix(nrows, ncols) is empty with that shape. |
| GraphBLAS.Matrix.FromDense | src/test/test_transpose.cpp:152 | Matrix(grid, zero) holds DenseMatrix(grid, zero). |
| GraphBLAS.Matrix.Build | src/test/test_transpose.cpp:47-51 | build on the object: the new content is the built tuples, or the content is unchanged on failure. |
| GraphBLAS.Matrix.Transpose | src/test/test_transpose.cpp:169-173 | transpose on the object: the new content is TransposeOps.Transpose of the old, or the content is unchanged with the exception. |
| GraphBLAS.Matrix.Extract | src/test/sequential/test_sparse_extract.cpp:53-60 | extract on the object: the new content is ExtractOps.Extract of the old, or the content is unchanged with the exception. |
| EWiseAddTests.BadDimensions | src/test/test_ewiseadd_vector.cpp:52-156 | All nine mismatched calls throw DimensionException, and both outputs stay empty. |
| EWiseAddTests.AddDense | src/test/test_ewiseadd_vector.cpp:159-173 | [_,_,12,7] ⊕ [2,2,2,2] = [2,2,14,9], whatever w held. |
| EWiseAddTests.AddSparse | src/test/test_ewiseadd_vector.cpp:176-182 | [_,_,12,7] ⊕ [_,1,_,2] = [_,1,12,9]: one-sided values pass through. |
| EWiseAddTests.AddEmpty | src/test/test_ewiseadd_vector.cpp:185-191 | [_,_,12,7] ⊕ [] = [_,_,12,7]. |
| EWiseAddTests.Regular | src/test/test_ewiseadd_vector.cpp:159-192 | The three results of one reused output: positions 0 and then 1 disappear. |
| EWiseAddTests.StoredZeroDense | src/test/test_ewiseadd_vector.cpp:195-209 | With u's zeros stored: u ⊕ [2,2,2,2] stores every position. |
| EWiseAddTests.StoredZeroSparse | src/test/test_ewiseadd_vector.cpp:212-218 | u ⊕ [_,1,_,2] keeps u's stored zero at position 0. |
| EWiseAddTests.StoredZeroEmpty | src/test/test_ewiseadd_vector.cpp:221-227 | u ⊕ [] is u, with its stored zeros. |
| EWiseAddTests.StoredZeroResult | src/test/test_ewiseadd_vector.cpp:195-228 | The stored-zero results on the objects. They differ from the answers that drop their zeros. |
| EWiseAddTests.MaskBadDimensions | src/test/test_ewiseadd_vector.cpp:235-250 | A mask of size 3 on an output of size 4 throws, plain or complemented, under replace or merge. |
| EWiseAddTests.TestMasksPassMiddle | src/test/test_ewiseadd_vector.cpp:253-650 | [0,1,1,0], with its zeros dropped or stored, and complement([1,0,0,1]), with its zeros dropped or stored, all mask in exactly positions 1 and 2. |
| EWiseAddTests.MaskedDense | src/test/test_ewiseadd_vector.cpp:253-271 | Through any such mask, into an empty w: [_,2,14,_]. |
| EWiseAddTests.MaskedSparse | src/test/test_ewiseadd_vector.cpp:274-281 | The second call: [_,1,12,_]. |
| EWiseAddTests.MaskedEmpty | src/test/test_ewiseadd_vector.cpp:284-291 | The third call: [_,_,12,_]. The masked-in position 1 with no union value is cleared under replace and merge. |
| EWiseAddTests.MaskedRun | src/test/test_ewiseadd_vector.cpp:358-397 | The three masked calls on one object give those three answers. |
| EWiseAddTests.MaskedTests | src/test/test_ewiseadd_vector.cpp:253-650 | All eight masked tests (mask/complement, zeros dropped/stored, replace/merge) give the same answers. |
| EWiseAddTests.Accumulated | src/test/test_ewiseadd_vector.cpp:658-677 | Without a mask, every position of [1,1,1] is accum(1, new). |
| EWiseAddTests.AccumulatedMasked | src/test/test_ewiseadd_vector.cpp:679-701 | Through the stored-zero mask [1,0,0], only position 0 accumulates; positions 1 and 2 keep 1. |
| EWiseAddTests.AccumulatedPlusMinus | src/test/test_ewiseadd_vector.cpp:658-677 | Plus gives [15,3,10] and Minus gives [-13,-1,-8]. |
| EWiseAddTests.AccumulatedMaskedPlusMinus | src/test/test_ewiseadd_vector.cpp:679-701 | Masked, Plus gives [15,1,1] and Minus gives [-13,1,1]. |
| EWiseAddTests.Accumulate | src/test/test_ewiseadd_vector.cpp:658-701 | The four accumulator runs on the objects. |
| EWiseMultTests.BadDimensions | src/test/test_sparse_ewisemult_vector.cpp:50-72 | Mismatched inputs, or a mismatched output, throw DimensionException; the output stays empty. |
| EWiseMultTests.MultDense | src/test/test_sparse_ewisemult_vector.cpp:75-89 | [_,_,12,7] ⊗ [2,2,2,2] = [_,_,24,14]. |
| EWiseMultTests.MultSparse | src/test/test_sparse_ewisemult_vector.cpp:91-98 | [_,_,12,7] ⊗ [_,1,_,2] = [_,_,_,14]: one-sided positions vanish. |
| EWiseMultTests.MultEmpty | src/test/test_sparse_ewisemult_vector.cpp:100-107 | An empty operand empties the output, position 3 included. |
| EWiseMultTests.Regular | src/test/test_sparse_ewisemult_vector.cpp:75-108 | The three results of one reused output. |
| EWiseMultTests.StoredZeroDense | src/test/test_sparse_ewisemult_vector.cpp:111-125 | The stored zeros times 2 are stored zeros of the product. |
| EWiseMultTests.StoredZeroSparse | src/test/test_sparse_ewisemult_vector.cpp:127-135 | The stored zero times 1 at position 1 is a stored zero: [_,0,_,14]. |
| EWiseMultTests.PatchedAnswerIs | src/test/test_sparse_ewisemult_vector.cpp:129-135 | setElement(1, 0) on [_,_,_,14] gives [_,0,_,14], which is not equal to the unpatched vector. |
| EWiseMultTests.PatchedAnswer | src/test/test_sparse_ewisemult_vector.cpp:129-130 | The patched expected vector, built on an object. |
| EWiseMultTests.StoredZeroResult | src/test/test_sparse_ewisemult_vector.cpp:111-145 | The stored-zero test on the objects: the second result equals the patched answer. |
| TransposeTests.Fixtures | src/test/test_transpose.cpp:148-162 | The grids of A, C and M satisfy their grid descriptions. |
| TransposeTests.TransposeIs | src/test/test_transpose.cpp:142-340 | A matrix that agrees with TransposeRule at every position is the transpose's result. |
| TransposeTests.NoAccumNoMask | src/test/test_transpose.cpp:163-175 | C, all 9s, becomes exactly Aᵀ: every 9 not covered is removed. |
| TransposeTests.NoAccumMaskReplace | src/test/test_transpose.cpp:177-191 | Mask, replace: masked-out positions are cleared. |
| TransposeTests.NoAccumMaskMerge | src/test/test_transpose.cpp:193-207 | Mask, merge: masked-out positions keep 9, and masked-in positions without Aᵀ are cleared. |
| TransposeTests.NoAccumComplementReplace | src/test/test_transpose.cpp:209-223 | complement(M), replace. |
| TransposeTests.NoAccumComplementMerge | src/test/test_transpose.cpp:225-239 | complement(M), merge. |
| TransposeTests.PlusNoMask | src/test/test_transpose.cpp:264-276 | Plus: 9 + Aᵀ where Aᵀ is present, and 9 elsewhere. |
| TransposeTests.PlusMaskReplace | src/test/test_transpose.cpp:278-292 | Plus, mask, replace. |
| TransposeTests.PlusMaskMerge | src/test/test_transpose.cpp:294-308 | Plus, mask, merge. |
| TransposeTests.PlusComplementReplace | src/test/test_transpose.cpp:310-324 | Plus, complement(M), replace. |
| TransposeTests.PlusComplementMerge | src/test/test_transpose.cpp:326-340 | Plus, complement(M), merge. |
| TransposeTests.NoAccumNoMaskAt | src/test/test_transpose.cpp:163-175 | The no-mask case for any matrices described by the grids. |
| TransposeTests.NoAccumMaskReplaceAt | src/test/test_transpose.cpp:177-191 | The same for mask, replace. |
| TransposeTests.NoAccumMaskMergeAt | src/test/test_transpose.cpp:193-207 | The same for mask, merge. |
| TransposeTests.NoAccumComplementReplaceAt | src/test/test_transpose.cpp:209-223 | The same for complement(M), replace. |
| TransposeTests.NoAccumComplementMergeAt | src/test/test_transpose.cpp:225-239 | The same for complement(M), merge. |
| TransposeTests.PlusNoMaskAt | src/test/test_transpose.cpp:264-276 | The same for Plus, no mask. |
| TransposeTests.PlusMaskReplaceAt | src/test/test_transpose.cpp:278-292 | The same for Plus, mask, replace. |
| TransposeTests.PlusMaskMergeAt | src/test/test_transpose.cpp:294-308 | The same for Plus, mask, merge. |
| TransposeTests.PlusComplementReplaceAt | src/test/test_transpose.cpp:310-324 | The same for Plus, complement(M), replace. |
| TransposeTests.PlusComplementMergeAt | src/test/test_transpose.cpp:326-340 | The same for Plus, complement(M), merge. |
| TransposeTests.NoAccumNoMaskUnderReplace | src/test/test_transpose.cpp:163-175 | With no mask, replace does not change the no-accumulator result. |
| TransposeTests.PlusNoMaskUnderReplace | src/test/test_transpose.cpp:264-276 | With no mask, replace does not change the Plus result. |
| TransposeTests.BadDimension | src/test/test_transpose.cpp:45-58 | A 3 x 3 A into a 3 x 4 C throws DimensionException. |
| TransposeTests.TwoArgumentOfBuilt | src/test/test_transpose.cpp:61-95 | transpose into an empty C of the swapped shape gives the matrix built with rows and columns exchanged. |
| TransposeTests.SquareBuilds | src/test/test_transpose.cpp:63-67 | The square tuples build. |
| TransposeTests.NonsquareBuilds | src/test/test_transpose.cpp:81-85 | The non-square tuples build. |
| TransposeTests.TwoArgumentSquare | src/test/test_transpose.cpp:61-77 | The square case. |
| TransposeTests.TwoArgumentNonsquare | src/test/test_transpose.cpp:79-95 | The non-square case. |
| TransposeTests.SingleArgumentSquare | src/test/test_transpose.cpp:98-119 | transpose(A) of the 3 x 3 A is 3 x 3 and equals the matrix built with rows and columns exchanged. |
| TransposeTests.SingleArgumentNonsquare | src/test/test_transpose.cpp:120-139 | transpose(A) of the 3 x 4 A is 4 x 3 and equals the matrix built with rows and columns exchanged. |
| TransposeTests.NonsquareTrans | src/test/test_transpose.cpp:344-369 | transpose(C, transpose(A)) into an empty 3 x 4 C gives A. |
| TransposeTests.BadDimensionRun | src/test/test_transpose.cpp:45-58 | On the objects: the call throws and C stays empty. |
| TransposeTests.TwoArgumentRun | src/test/test_transpose.cpp:61-95 | On the objects, for any buildable tuples: the call passes and C equals the answer. |
| TransposeTests.TwoArgumentRuns | src/test/test_transpose.cpp:61-95 | The square and non-square run pass. |
| TransposeTests.NoAccumRun | src/test/test_transpose.cpp:142-240 | The five no-accumulator cases on the objects. |
| TransposeTests.PlusRun | src/test/test_transpose.cpp:243-340 | The five Plus cases on the objects. |
| ExtractTests.GatherIs | src/test/sequential/test_sparse_extract.cpp:32-135 | A matrix that agrees with A at every gathered position is the gather. |
| ExtractTests.BaseAt | src/test/sequential/test_sparse_extract.cpp:32-63 | Rows {0,2} and columns {1,2}, for any matrix described by the grid. |
| ExtractTests.Base | src/test/sequential/test_sparse_extract.cpp:32-63 | Rows {0,2} and cols {1,2} of [[8,1,6],[3,5,7],[4,9,2]] give [[1,6],[9,2]]. |
| ExtractTests.DuplicateAt | src/test/sequential/test_sparse_extract.cpp:66-99 | Rows {0,2,2} and columns {1,1,2}, for any matrix described by the grid. |
| ExtractTests.Duplicate | src/test/sequential/test_sparse_extract.cpp:66-99 | Rows {0,2,2} and cols {1,1,2} give [[1,1,6],[9,9,2],[9,9,2]]. |
| ExtractTests.PermuteAt | src/test/sequential/test_sparse_extract.cpp:102-135 | Rows {2,0,1} and columns {1,2,0}, for any matrix described by the grid. |
| ExtractTests.Permute | src/test/sequential/test_sparse_extract.cpp:102-135 | Rows {2,0,1} and cols {1,2,0} give [[9,2,4],[1,6,8],[5,7,3]]. |
| ExtractTests.FullyPopulatedAt | src/test/sequential/test_sparse_extract.cpp:34-41 | No element of A equals 0, so A stores all nine positions. |
| ExtractTests.GathersFull | src/test/sequential/test_sparse_extract.cpp:32-135 | So every position of each of the three gathers is present. |
| ExtractTests.Run | src/test/sequential/test_sparse_extract.cpp:32-135 | The three extract cases on the objects. |

## Left out

- The library's kernels (the eWiseAdd, eWiseMult, transpose, extract and build implementations) are not part of this model. The semantics are taken from the test expectations and the GraphBLAS C API Specification.
- `ComplementView` and its friend declarations (src/graphblas/ComplementView.hpp) only forward to a backend view that is not part of this model. The complement view is modelled by its effect: the `Complement` mask, which negates truth.
- The `emu` platform header (src/graphblas/platforms/emu/emu.hpp) has every include commented out, so there is nothing to model.
- All-pairs shortest paths (src/test/test_apsp.cpp) tests a graph algorithm built on the kernels. Its source is not part of this model.
- The masked eWiseMult tests (src/test/test_sparse_ewisemult_vector.cpp:146-639) sit inside `#if 0` and would not compile. The masked eWiseMult behaviour is covered only by the shared write rule.
- The extract tests pass an empty Boolean mask to an older backend signature that does not consult it, yet expect the full gather. `ExtractTests` therefore calls extract with no mask.
- ExtractOps.Extract: a call that has both a shape mismatch and an out-of-range index is reported as DimensionException. That order is a modelling choice, because the kernel is not part of this model.
- Floating point: the tests use `double`. Every value in them is a small integer, so scalars are `int` and no rounding is modelled.
- Printing (`printInfo`, `operator<<`), `extractTuples`, and the Boost test harness are I/O and glue.
- The storage layouts (LIL, CSR and the order of entries within a row) are not modelled. A container is its map of entries, and equality is equality of shape and map.
- Aliasing: an operation's inputs are passed as values, the contents of the input objects at the time of the call. So an input that is also the output is read before the write.
- GraphBLAS.Matrix.Build: parallel lists of different lengths are excluded by a precondition instead of being reported as an error, and build overwrites any old content.
- Template and tag dispatch (DirectedMatrixTag, element types such as `uint8_t` or `bool` for masks) are not modelled. A mask is an integer-valued container read through its non-zero pattern.
