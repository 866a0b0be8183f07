/** Scalar operators of the model. Scalars are mathematical integers; every
    operator the tests use (Plus, Minus, Times, Second) is a pure function of
    two scalars, passed to the operations as a value. */
module Algebra {

  type BinaryOp = (int, int) -> int

  function Plus(a: int, b: int): int { a + b }

  function Minus(a: int, b: int): int { a - b }

  function Times(a: int, b: int): int { a * b }

  /** Returns its second argument: "the new value wins". */
  function Second(a: int, b: int): int { b }

  /** The accumulation argument of every masked operation: either the
      "no accumulate" sentinel or a binary operator that merges the old
      output value (left) with the freshly computed one (right). */
  datatype Accumulator = NoAccumulate | Accum(op: BinaryOp)

  ghost predicate Commutative(op: BinaryOp) {
    forall a, b :: op(a, b) == op(b, a)
  }

  ghost predicate Associative(op: BinaryOp) {
    forall a, b, c :: op(op(a, b), c) == op(a, op(b, c))
  }

  ghost predicate IsIdentity(op: BinaryOp, e: int) {
    forall a :: op(e, a) == a && op(a, e) == a
  }

  // One instance of each law, for use where the arguments are map lookups.

  lemma CommutativeAt(op: BinaryOp, a: int, b: int)
    requires Commutative(op)
    ensures op(a, b) == op(b, a)
  {
  }

  lemma AssociativeAt(op: BinaryOp, a: int, b: int, c: int)
    requires Associative(op)
    ensures op(op(a, b), c) == op(a, op(b, c))
  {
  }

  lemma IdentityAt(op: BinaryOp, e: int, a: int)
    requires IsIdentity(op, e)
    ensures op(e, a) == a && op(a, e) == a
  {
  }
}
