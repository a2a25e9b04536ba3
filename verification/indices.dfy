/** Integer Miller index triplets and the integer vector algebra the
    zone-axis derivation uses. */
module Indices {

  datatype Triplet = Triplet(h: int, k: int, l: int)

  function Dot(a: Triplet, b: Triplet): int
  {
    a.h * b.h + a.k * b.k + a.l * b.l
  }

  predicate IsZero(t: Triplet)
  {
    t.h == 0 && t.k == 0 && t.l == 0
  }

  /** `np.cross(a, b)`: the direction common to the planes `a` and `b`. */
  function Cross(a: Triplet, b: Triplet): Triplet
  {
    Triplet(a.k * b.l - a.l * b.k, a.l * b.h - a.h * b.l, a.h * b.k - a.k * b.h)
  }

  /** The cross product is orthogonal to both of its factors. */
  lemma CrossOrthogonalToFactors(a: Triplet, b: Triplet)
    ensures Dot(Cross(a, b), a) == 0 && Dot(Cross(a, b), b) == 0
  {
    CrossOrthogonal(a.h, a.k, a.l, b.h, b.k, b.l, a.h, a.k, a.l);
    CrossOrthogonal(a.h, a.k, a.l, b.h, b.k, b.l, b.h, b.k, b.l);
  }

  /** The cross product of (x1, y1, z1) and (x2, y2, z2) dotted with a vector
      (u, v, w) that is one of the two factors gives zero. */
  lemma CrossOrthogonal(x1: int, y1: int, z1: int, x2: int, y2: int, z2: int, u: int, v: int, w: int)
    requires (u, v, w) == (x1, y1, z1) || (u, v, w) == (x2, y2, z2)
    ensures (y1 * z2 - z1 * y2) * u + (z1 * x2 - x1 * z2) * v + (x1 * y2 - y1 * x2) * w == 0
  {
    assert (y1 * z2 - z1 * y2) * u == y1 * z2 * u - z1 * y2 * u;
    assert (z1 * x2 - x1 * z2) * v == z1 * x2 * v - x1 * z2 * v;
    assert (x1 * y2 - y1 * x2) * w == x1 * y2 * w - y1 * x2 * w;
  }

  /** Swapping the factors reverses the cross product. */
  lemma CrossAntisymmetric(a: Triplet, b: Triplet)
    ensures Cross(b, a) == Triplet(-Cross(a, b).h, -Cross(a, b).k, -Cross(a, b).l)
  {
  }

  /** Lexicographic row order, the order `np.unique(..., axis=0)` returns. */
  predicate LexLess(a: Triplet, b: Triplet)
  {
    a.h < b.h || (a.h == b.h && (a.k < b.k || (a.k == b.k && a.l < b.l)))
  }

  /** `LexLess` is a strict total order. */
  lemma LexLessStrictTotal(a: Triplet, b: Triplet, c: Triplet)
    ensures !LexLess(a, a)
    ensures a != b ==> LexLess(a, b) || LexLess(b, a)
    ensures LexLess(a, b) && LexLess(b, c) ==> LexLess(a, c)
  {
  }
}
