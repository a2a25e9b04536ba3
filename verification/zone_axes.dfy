/** Zone axes derived from the visible reflectors (`on_detector`): the cross
    product of every ordered pair of reflector indices, with the zero vector
    dropped and exact duplicates removed the way `np.unique(..., axis=0)`
    removes them (rows sorted lexicographically). */
module ZoneAxes {
  import opened Indices

  /** Every entry is strictly below the later ones, so no entry repeats. */
  predicate StrictlySorted(s: seq<Triplet>)
  {
    forall i, j :: 0 <= i < j < |s| ==> LexLess(s[i], s[j])
  }

  /** A strictly sorted sequence holds each triplet at most once. */
  lemma StrictlySortedDistinct(s: seq<Triplet>, i: nat, j: nat)
    requires StrictlySorted(s)
    requires i < |s| && j < |s| && i != j
    ensures s[i] != s[j]
  {
    if i < j {
      assert LexLess(s[i], s[j]);
    } else {
      assert LexLess(s[j], s[i]);
    }
  }

  /** `np.cross(hkl[:, None, :], hkl)` flattened row-major: for each
      reflector `a` in turn, `a` crossed with every reflector. */
  function PairwiseCrosses(hkl: seq<Triplet>): (r: seq<Triplet>)
    ensures |r| == |hkl| * |hkl|
  {
    Pairs(hkl, hkl)
  }

  function Pairs(left: seq<Triplet>, hkl: seq<Triplet>): (r: seq<Triplet>)
    ensures |r| == |left| * |hkl|
  {
    if |left| == 0 then []
    else
      Pairs(left[..|left| - 1], hkl)
      + seq(|hkl|, j requires 0 <= j < |hkl| => Cross(left[|left| - 1], hkl[j]))
  }

  /** A triplet is among `Pairs(left, hkl)` exactly when it is `a × b` for
      some `a` in `left` and `b` in `hkl`. */
  lemma PairsMembership(left: seq<Triplet>, hkl: seq<Triplet>, t: Triplet)
    ensures t in Pairs(left, hkl) <==>
      exists i, j :: 0 <= i < |left| && 0 <= j < |hkl| && t == Cross(left[i], hkl[j])
  {
    if t in Pairs(left, hkl) {
      var i, j := PairsWitness(left, hkl, t);
    }
    if exists i, j :: 0 <= i < |left| && 0 <= j < |hkl| && t == Cross(left[i], hkl[j]) {
      var i, j :| 0 <= i < |left| && 0 <= j < |hkl| && t == Cross(left[i], hkl[j]);
      PairsContains(left, hkl, i, j);
    }
  }

  /** Every product `left[i] × hkl[j]` is listed. */
  lemma {:induction false} PairsContains(left: seq<Triplet>, hkl: seq<Triplet>, i: nat, j: nat)
    requires i < |left| && j < |hkl|
    ensures Cross(left[i], hkl[j]) in Pairs(left, hkl)
  {
    var front := left[..|left| - 1];
    var row := seq(|hkl|, k requires 0 <= k < |hkl| => Cross(left[|left| - 1], hkl[k]));
    assert Pairs(left, hkl) == Pairs(front, hkl) + row;
    if i < |left| - 1 {
      assert front[i] == left[i];
      PairsContains(front, hkl, i, j);
    } else {
      assert row[j] == Cross(left[i], hkl[j]);
    }
  }

  /** Every listed triplet is some product `left[i] × hkl[j]`. */
  lemma {:induction false} PairsWitness(left: seq<Triplet>, hkl: seq<Triplet>, t: Triplet) returns (i: nat, j: nat)
    requires t in Pairs(left, hkl)
    ensures i < |left| && j < |hkl| && t == Cross(left[i], hkl[j])
  {
    var front := left[..|left| - 1];
    var row := seq(|hkl|, k requires 0 <= k < |hkl| => Cross(left[|left| - 1], hkl[k]));
    assert Pairs(left, hkl) == Pairs(front, hkl) + row;
    if t in Pairs(front, hkl) {
      i, j := PairsWitness(front, hkl, t);
      assert front[i] == left[i];
    } else {
      i := |left| - 1;
      j :| 0 <= j < |hkl| && row[j] == t;
    }
  }

  /** `uvw[~np.isclose(uvw, 0).all(axis=-1)]`: the non-zero triplets, in
      order. On integer triplets `np.isclose(x, 0)` holds only for `x == 0`. */
  function DropZero(xs: seq<Triplet>): (r: seq<Triplet>)
    ensures forall t :: t in r <==> t in xs && !IsZero(t)
  {
    if |xs| == 0 then []
    else DropZero(xs[..|xs| - 1]) + (if IsZero(xs[|xs| - 1]) then [] else [xs[|xs| - 1]])
  }

  /** Inserts `x` into a strictly sorted sequence unless it is already there. */
  function InsertSorted(s: seq<Triplet>, x: Triplet): (r: seq<Triplet>)
    requires StrictlySorted(s)
    ensures StrictlySorted(r)
    ensures forall t :: t in r <==> t in s || t == x
  {
    if |s| == 0 then [x]
    else if x == s[0] then s
    else if LexLess(x, s[0]) then
      LexLessStrictTotal(x, s[0], s[0]);
      [x] + s
    else
      LexLessStrictTotal(x, s[0], s[0]);
      var rest := InsertSorted(s[1..], x);
      assert forall t :: t in rest ==> LexLess(s[0], t);
      [s[0]] + rest
  }

  /** `np.unique(xs, axis=0)`: the distinct triplets of `xs`, sorted. */
  function Unique(xs: seq<Triplet>): (r: seq<Triplet>)
    ensures StrictlySorted(r)
    ensures forall t :: t in r <==> t in xs
  {
    if |xs| == 0 then []
    else InsertSorted(Unique(xs[..|xs| - 1]), xs[|xs| - 1])
  }

  /** The zone axes of the visible reflectors, lines 266-268. */
  function Derive(hkl: seq<Triplet>): (r: seq<Triplet>)
  {
    Unique(DropZero(PairwiseCrosses(hkl)))
  }

  /** The derived zone axes are exactly the non-zero cross products of
      pairs of the given reflectors, each listed once, and each is
      orthogonal to the two reflectors it comes from. */
  lemma DeriveCharacterised(hkl: seq<Triplet>, t: Triplet)
    ensures t in Derive(hkl) <==>
      !IsZero(t) && exists i, j :: 0 <= i < |hkl| && 0 <= j < |hkl| && t == Cross(hkl[i], hkl[j])
    ensures forall i, j :: 0 <= i < |hkl| && 0 <= j < |hkl| && t == Cross(hkl[i], hkl[j]) ==>
      Dot(t, hkl[i]) == 0 && Dot(t, hkl[j]) == 0
    ensures StrictlySorted(Derive(hkl))
  {
    DeriveMembership(hkl, t);
    forall i, j | 0 <= i < |hkl| && 0 <= j < |hkl| && t == Cross(hkl[i], hkl[j])
      ensures Dot(t, hkl[i]) == 0 && Dot(t, hkl[j]) == 0
    {
      CrossOrthogonalToFactors(hkl[i], hkl[j]);
    }
  }

  lemma DeriveMembership(hkl: seq<Triplet>, t: Triplet)
    ensures t in Derive(hkl) <==>
      !IsZero(t) && exists i, j :: 0 <= i < |hkl| && 0 <= j < |hkl| && t == Cross(hkl[i], hkl[j])
  {
    PairsMembership(hkl, hkl, t);
  }

  /** The first entry of a strictly sorted sequence is below every other. */
  lemma HeadIsLeast(s: seq<Triplet>, t: Triplet)
    requires StrictlySorted(s) && t in s
    ensures t == s[0] || LexLess(s[0], t)
  {
    var k :| 0 <= k < |s| && s[k] == t;
    if k > 0 {
      assert LexLess(s[0], s[k]);
    }
  }

  /** Two strictly sorted sequences with the same entries are equal, so the
      result of `Derive` depends only on the set of cross products. */
  lemma {:induction false} StrictlySortedUnique(s: seq<Triplet>, u: seq<Triplet>)
    requires StrictlySorted(s) && StrictlySorted(u)
    requires forall t :: t in s <==> t in u
    ensures s == u
  {
    if |s| > 0 {
      assert s[0] in u;
    }
    if |u| > 0 {
      assert u[0] in s;
    }
    if |s| > 0 && |u| > 0 {
      HeadIsLeast(s, u[0]);
      HeadIsLeast(u, s[0]);
      LexLessStrictTotal(s[0], u[0], s[0]);
      assert s[0] == u[0];
      forall t
        ensures t in s[1..] <==> t in u[1..]
      {
        if t in s[1..] {
          var k :| 1 <= k < |s| && s[k] == t;
          assert LexLess(s[0], t);
          assert t in u;
          var m :| 0 <= m < |u| && u[m] == t;
          assert m != 0;
          assert u[1..][m - 1] == t;
        }
        if t in u[1..] {
          var k :| 1 <= k < |u| && u[k] == t;
          assert LexLess(u[0], t);
          assert t in s;
          var m :| 0 <= m < |s| && s[m] == t;
          assert m != 0;
          assert s[1..][m - 1] == t;
        }
      }
      StrictlySortedUnique(s[1..], u[1..]);
      assert s == [s[0]] + s[1..];
      assert u == [u[0]] + u[1..];
    }
  }

  /** A derived zone axis comes from some ordered pair of reflectors. */
  lemma DeriveWitness(hkl: seq<Triplet>, t: Triplet) returns (i: nat, j: nat)
    requires t in Derive(hkl)
    ensures i < |hkl| && j < |hkl| && t == Cross(hkl[i], hkl[j]) && !IsZero(t)
  {
    DeriveMembership(hkl, t);
    i, j :| 0 <= i < |hkl| && 0 <= j < |hkl| && t == Cross(hkl[i], hkl[j]);
  }

  /** Every non-zero cross product of two reflectors is a derived zone axis. */
  lemma CrossInDerive(hkl: seq<Triplet>, i: nat, j: nat)
    requires i < |hkl| && j < |hkl| && !IsZero(Cross(hkl[i], hkl[j]))
    ensures Cross(hkl[i], hkl[j]) in Derive(hkl)
  {
    DeriveMembership(hkl, Cross(hkl[i], hkl[j]));
  }

  function Negate(t: Triplet): Triplet
  {
    Triplet(-t.h, -t.k, -t.l)
  }

  /** Two non-parallel reflectors (such as (1,0,0) and (0,1,0)) give exactly
      one zone, listed in both senses, the lexicographically smaller first. */
  lemma TwoReflectorsGiveOneZone(a: Triplet, b: Triplet)
    requires !IsZero(Cross(a, b))
    ensures var c := Cross(a, b);
      Derive([a, b]) == if LexLess(c, Negate(c)) then [c, Negate(c)] else [Negate(c), c]
  {
    var hkl := [a, b];
    var c := Cross(a, b);
    var expected := if LexLess(c, Negate(c)) then [c, Negate(c)] else [Negate(c), c];
    CrossAntisymmetric(a, b);
    assert IsZero(Cross(a, a)) && IsZero(Cross(b, b));
    forall t
      ensures t in Derive(hkl) <==> t in expected
    {
      if t in Derive(hkl) {
        var i, j := DeriveWitness(hkl, t);
        assert hkl[i] == a || hkl[i] == b;
        assert hkl[j] == a || hkl[j] == b;
      }
      if t == c {
        CrossInDerive(hkl, 0, 1);
      } else if t == Negate(c) {
        CrossInDerive(hkl, 1, 0);
      }
    }
    LexLessStrictTotal(c, Negate(c), c);
    assert StrictlySorted(expected);
    StrictlySortedUnique(Derive(hkl), expected);
  }
}
