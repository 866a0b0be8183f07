/** The element-wise kernels that compute an operation's candidate result T,
    over maps with any key type (vector indices or matrix coordinates). */
module Kernels {
  import opened Algebra

  /** eWiseAdd's T: every position present in u or in v; where both hold an
      entry they are combined with op, where only one does its value passes
      through unchanged (no identity is substituted for the missing side). */
  function Union<K>(u: map<K, int>, v: map<K, int>, op: BinaryOp): (t: map<K, int>)
    ensures t.Keys == u.Keys + v.Keys
  {
    map k | k in u.Keys + v.Keys ::
      if k in u && k in v then op(u[k], v[k]) else if k in u then u[k] else v[k]
  }

  /** eWiseMult's T: only positions present in both u and v, combined with op. */
  function Intersection<K>(u: map<K, int>, v: map<K, int>, op: BinaryOp): (t: map<K, int>)
    ensures t.Keys == u.Keys * v.Keys
  {
    map k | k in u.Keys * v.Keys :: op(u[k], v[k])
  }

  /** The value at position k of a map (dense reading with a fill value). */
  function ValueOr<K>(m: map<K, int>, k: K, fill: int): int {
    if k in m then m[k] else fill
  }

  /** Pass-through agrees with filling the missing side with op's identity,
      whenever op has one: the union never needs the identity itself. */
  lemma UnionIsIdentityFill<K>(u: map<K, int>, v: map<K, int>, op: BinaryOp, e: int)
    requires IsIdentity(op, e)
    ensures forall k | k in Union(u, v, op) ::
      Union(u, v, op)[k] == op(ValueOr(u, k, e), ValueOr(v, k, e))
  {
    forall k | k in Union(u, v, op)
      ensures Union(u, v, op)[k] == op(ValueOr(u, k, e), ValueOr(v, k, e))
    {
      if k !in v {
        IdentityAt(op, e, u[k]);
      } else if k !in u {
        IdentityAt(op, e, v[k]);
      }
    }
  }

  /** Union with an empty operand gives the other operand, whatever op is. */
  lemma UnionWithEmpty<K>(u: map<K, int>, op: BinaryOp)
    ensures Union(u, map[], op) == u && Union(map[], u, op) == u
  {
    assert Union(u, map[], op).Keys == u.Keys;
    assert Union(map[], u, op).Keys == u.Keys;
  }

  lemma UnionCommutes<K>(u: map<K, int>, v: map<K, int>, op: BinaryOp)
    requires Commutative(op)
    ensures Union(u, v, op) == Union(v, u, op)
  {
    var a, b := Union(u, v, op), Union(v, u, op);
    forall k | k in a ensures a[k] == b[k] {
      if k in u && k in v {
        CommutativeAt(op, u[k], v[k]);
      }
    }
  }

  lemma UnionAssociates<K>(u: map<K, int>, v: map<K, int>, w: map<K, int>, op: BinaryOp)
    requires Associative(op)
    ensures Union(Union(u, v, op), w, op) == Union(u, Union(v, w, op), op)
  {
    var a, b := Union(Union(u, v, op), w, op), Union(u, Union(v, w, op), op);
    forall k | k in a ensures a[k] == b[k] {
      if k in u && k in v && k in w {
        AssociativeAt(op, u[k], v[k], w[k]);
      }
    }
  }

  lemma IntersectionCommutes<K>(u: map<K, int>, v: map<K, int>, op: BinaryOp)
    requires Commutative(op)
    ensures Intersection(u, v, op) == Intersection(v, u, op)
  {
    var a, b := Intersection(u, v, op), Intersection(v, u, op);
    forall k | k in a ensures a[k] == b[k] {
      CommutativeAt(op, u[k], v[k]);
    }
  }

  /** Intersection with an empty operand is empty. */
  lemma IntersectionWithEmpty<K>(u: map<K, int>, op: BinaryOp)
    ensures Intersection(u, map[], op) == map[] && Intersection(map[], u, op) == map[]
  {
    assert Intersection(u, map[], op).Keys == {};
    assert Intersection(map[], u, op).Keys == {};
  }

  /** With the same operator, eWiseMult's T is eWiseAdd's T cut down to the
      positions both operands hold. */
  lemma IntersectionIsRestrictedUnion<K>(u: map<K, int>, v: map<K, int>, op: BinaryOp)
    ensures Intersection(u, v, op) == map k | k in Union(u, v, op) && k in u && k in v :: Union(u, v, op)[k]
  {
  }

  /** Counting entries: nvals(u (+) v) + nvals(u (x) v) == nvals(u) + nvals(v). */
  lemma UnionIntersectionCount<K>(u: map<K, int>, v: map<K, int>, op: BinaryOp)
    ensures |Union(u, v, op)| + |Intersection(u, v, op)| == |u| + |v|
  {
    CardUnionIntersection(u.Keys, v.Keys);
    assert |Union(u, v, op)| == |Union(u, v, op).Keys|;
  }

  lemma {:induction false} CardUnionIntersection<K>(a: set<K>, b: set<K>)
    ensures |a + b| + |a * b| == |a| + |b|
  {
    if a != {} {
      var x :| x in a;
      var a' := a - {x};
      CardUnionIntersection(a', b);
      assert a == a' + {x};
      if x in b {
        assert a + b == a' + b;
        assert a * b == (a' * b) + {x};
      } else {
        assert a + b == (a' + b) + {x};
        assert a * b == a' * b;
      }
    } else {
      assert a + b == b;
      assert a * b == {};
    }
  }
}
