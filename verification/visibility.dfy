/** The hemisphere visibility filter (`_get_coordinates_in_upper_hemisphere`)
    and the culling `on_detector` applies with it. The orientation batch is a
    flat list of n orientations: one or two navigation axes are flattened,
    and an OR over both axes is an OR over the flat list. */
module Visibility {
  import opened Seqs
  import opened Indices

  datatype Vec3 = Vec3(x: real, y: real, z: real)

  /** `proj(o, t)`: the detector-frame vector of index triplet `t` under
      orientation `o` (the product of `t` with the orientation's composed
      transform, which the model takes as given). */
  type Projection = (nat, Triplet) -> Vec3

  /** Line 474: a vector is on the detector side only when z > 0; a vector
      on the horizon (z = 0) is not. */
  predicate Upper(v: Vec3)
  {
    v.z > 0.0
  }

  predicate IsTable<T>(rows: seq<seq<T>>, width: nat)
  {
    forall o :: 0 <= o < |rows| ==> |rows[o]| == width
  }

  /** Entry k of every row. */
  function Column<T>(rows: seq<seq<T>>, width: nat, k: nat): (c: seq<T>)
    requires IsTable(rows, width) && k < width
    ensures |c| == |rows|
    ensures forall o :: 0 <= o < |rows| ==> c[o] == rows[o][k]
  {
    seq(|rows|, o requires 0 <= o < |rows| => rows[o][k])
  }

  /** Line 475: `sum(upper, axis=navigation) != 0`, the OR-reduction over
      orientations: an item is in a pattern iff it is upper in some row. */
  function InAPattern(upper: seq<seq<bool>>, width: nat): (r: seq<bool>)
    requires IsTable(upper, width)
    ensures |r| == width
    ensures forall k :: 0 <= k < width ==> (r[k] <==> exists o :: 0 <= o < |upper| && upper[o][k])
  {
    seq(width, k requires 0 <= k < width => Count(Column(upper, width, k)) != 0)
  }

  /** `x[..., mask]`: every row restricted to the selected columns. */
  function RestrictColumns<T>(rows: seq<seq<T>>, keep: seq<bool>): (r: seq<seq<T>>)
    requires IsTable(rows, |keep|)
    ensures |r| == |rows| && IsTable(r, Count(keep))
    ensures forall o, j :: 0 <= o < |rows| && 0 <= j < Count(keep) ==> r[o][j] == rows[o][Positions(keep)[j]]
  {
    seq(|rows|, o requires 0 <= o < |rows| => Select(rows[o], keep))
  }

  /** Projected coordinates, one row per orientation. */
  function Coordinates(items: seq<Triplet>, n: nat, proj: Projection): (c: seq<seq<Vec3>>)
    ensures |c| == n && IsTable(c, |items|)
    ensures forall o, k :: 0 <= o < n && 0 <= k < |items| ==> c[o][k] == proj(o, items[k])
  {
    seq(n, o requires 0 <= o < n => seq(|items|, k requires 0 <= k < |items| => proj(o, items[k])))
  }

  function UpperMask(coordinates: seq<seq<Vec3>>, width: nat): (m: seq<seq<bool>>)
    requires IsTable(coordinates, width)
    ensures |m| == |coordinates| && IsTable(m, width)
    ensures forall o, k :: 0 <= o < |coordinates| && 0 <= k < width ==> (m[o][k] <==> Upper(coordinates[o][k]))
  {
    seq(|coordinates|, o requires 0 <= o < |coordinates| =>
      seq(width, k requires 0 <= k < width => Upper(coordinates[o][k])))
  }

  /** Some orientation among the first n puts `t` on the detector side. */
  predicate SeenBy(n: nat, proj: Projection, t: Triplet)
  {
    exists o :: 0 <= o < n && Upper(proj(o, t))
  }

  /** `in_a_pattern` for a list of items under n orientations. */
  function VisibleMask(items: seq<Triplet>, n: nat, proj: Projection): (m: seq<bool>)
    ensures |m| == |items|
    ensures forall k :: 0 <= k < |items| ==> (m[k] <==> SeenBy(n, proj, items[k]))
  {
    var coordinates := Coordinates(items, n, proj);
    var upper := UpperMask(coordinates, |items|);
    var m := InAPattern(upper, |items|);
    assert forall k :: 0 <= k < |items| ==> (m[k] <==> SeenBy(n, proj, items[k])) by {
      forall k | 0 <= k < |items|
        ensures m[k] <==> SeenBy(n, proj, items[k])
      {
        if m[k] {
          var o :| 0 <= o < |upper| && upper[o][k];
          assert Upper(proj(o, items[k]));
        }
        if SeenBy(n, proj, items[k]) {
          var o :| 0 <= o < n && Upper(proj(o, items[k]));
          assert upper[o][k];
        }
      }
    }
    m
  }

  /** The culled items with their per-orientation coordinates and
      per-orientation visibility (a `KikuchiPatternLine` or
      `KikuchiPatternZoneAxis` without its plotting extras). */
  datatype Feature = Feature(indices: seq<Triplet>, coordinates: seq<seq<Vec3>>, inPattern: seq<seq<bool>>)

  /** The bundle for a list of kept items: their coordinates and their
      upper-hemisphere flags under each of the n orientations. */
  function Project(indices: seq<Triplet>, n: nat, proj: Projection): (f: Feature)
    ensures f.indices == indices
    ensures |f.coordinates| == n && |f.inPattern| == n
    ensures IsTable(f.coordinates, |indices|) && IsTable(f.inPattern, |indices|)
    ensures forall o, j :: 0 <= o < n && 0 <= j < |indices| ==> f.coordinates[o][j] == proj(o, indices[j])
    ensures forall o, j :: 0 <= o < n && 0 <= j < |indices| ==> (f.inPattern[o][j] <==> Upper(proj(o, indices[j])))
  {
    var coordinates := Coordinates(indices, n, proj);
    Feature(indices, coordinates, UpperMask(coordinates, |indices|))
  }

  /** Lines 246-260 for reflectors and 283-295 for zone axes: keep the
      items that are upper in at least one orientation, in their original
      order, with their per-orientation coordinates and masks. */
  function Cull(items: seq<Triplet>, n: nat, proj: Projection): (f: Feature)
    ensures |f.coordinates| == n && |f.inPattern| == n
    ensures IsTable(f.coordinates, |f.indices|) && IsTable(f.inPattern, |f.indices|)
    ensures |f.indices| == Count(VisibleMask(items, n, proj))
    ensures forall j :: 0 <= j < |f.indices| ==> f.indices[j] == items[Positions(VisibleMask(items, n, proj))[j]]
    ensures forall j :: 0 <= j < |f.indices| ==> SeenBy(n, proj, f.indices[j])
    ensures forall o, j :: 0 <= o < n && 0 <= j < |f.indices| ==> f.coordinates[o][j] == proj(o, f.indices[j])
    ensures forall o, j :: 0 <= o < n && 0 <= j < |f.indices| ==> (f.inPattern[o][j] <==> Upper(proj(o, f.indices[j])))
  {
    Project(Visible(items, n, proj), n, proj)
  }

  /** `items[in_a_pattern]`: the items some orientation shows, in order. */
  function Visible(items: seq<Triplet>, n: nat, proj: Projection): (r: seq<Triplet>)
    ensures |r| == Count(VisibleMask(items, n, proj))
    ensures forall j :: 0 <= j < |r| ==> r[j] == items[Positions(VisibleMask(items, n, proj))[j]]
    ensures forall j :: 0 <= j < |r| ==> SeenBy(n, proj, r[j])
  {
    var keep := VisibleMask(items, n, proj);
    var r := Select(items, keep);
    assert forall j :: 0 <= j < |r| ==> SeenBy(n, proj, r[j]) by {
      forall j | 0 <= j < |r|
        ensures SeenBy(n, proj, r[j])
      {
        assert keep[Positions(keep)[j]];
      }
    }
    r
  }

  /** The culled coordinates and masks are the full tables with the
      invisible columns removed (`hkl_d[..., in_a_pattern, :]` and
      `is_upper[..., in_a_pattern]`), so culling after or before projecting
      gives the same bundle. */
  lemma CullIsColumnRestriction(items: seq<Triplet>, n: nat, proj: Projection)
    ensures var keep := VisibleMask(items, n, proj);
      var coordinates := Coordinates(items, n, proj);
      && Cull(items, n, proj).coordinates == RestrictColumns(coordinates, keep)
      && Cull(items, n, proj).inPattern == RestrictColumns(UpperMask(coordinates, |items|), keep)
  {
    var keep := VisibleMask(items, n, proj);
    var coordinates := Coordinates(items, n, proj);
    var f := Cull(items, n, proj);
    assert f == Project(Select(items, keep), n, proj) by {
      assert f.indices == Visible(items, n, proj) == Select(items, keep);
    }
    assert f.coordinates == Coordinates(Select(items, keep), n, proj);
    var rc := RestrictColumns(coordinates, keep);
    forall o | 0 <= o < n
      ensures f.coordinates[o] == rc[o]
    {
      CoordinateRowRestriction(items, n, proj, keep, o);
    }
    assert f.coordinates == rc;
    assert f.inPattern == UpperMask(rc, Count(keep));
    var upper := UpperMask(coordinates, |items|);
    var ru := RestrictColumns(upper, keep);
    forall o | 0 <= o < n
      ensures f.inPattern[o] == ru[o]
    {
      UpperRowRestriction(coordinates, |items|, keep, o);
    }
  }

  /** Projecting the selected items gives the selected columns of the
      projected row. */
  lemma CoordinateRowRestriction(items: seq<Triplet>, n: nat, proj: Projection, keep: seq<bool>, o: nat)
    requires |keep| == |items| && o < n
    ensures Coordinates(Select(items, keep), n, proj)[o] == Select(Coordinates(items, n, proj)[o], keep)
  {
    var selected := Select(items, keep);
    var row := Coordinates(items, n, proj)[o];
    forall j | 0 <= j < |selected|
      ensures Coordinates(selected, n, proj)[o][j] == Select(row, keep)[j]
    {
      var k := Positions(keep)[j];
      assert selected[j] == items[k];
    }
  }

  /** The upper-hemisphere flags of the selected columns are the selected
      flags. */
  lemma UpperRowRestriction(coordinates: seq<seq<Vec3>>, width: nat, keep: seq<bool>, o: nat)
    requires IsTable(coordinates, width) && |keep| == width && o < |coordinates|
    ensures UpperMask(RestrictColumns(coordinates, keep), Count(keep))[o] == Select(UpperMask(coordinates, width)[o], keep)
  {
  }

  /** An item is kept exactly when some orientation puts it on the detector
      side, and kept items stay in their original relative order. */
  lemma CullKeepsExactlyVisible(items: seq<Triplet>, n: nat, proj: Projection, k: nat)
    requires k < |items|
    ensures k in Positions(VisibleMask(items, n, proj)) <==> SeenBy(n, proj, items[k])
    ensures SeenBy(n, proj, items[k]) ==> items[k] in Cull(items, n, proj).indices
  {
    var keep := VisibleMask(items, n, proj);
    if SeenBy(n, proj, items[k]) {
      PositionsComplete(keep, k);
      SelectMembership(items, keep, k);
    }
  }

  /** Navigation-shape preservation: a batch of n ≥ 1 orientations that all
      equal one orientation keeps the same items as that single orientation,
      and every row of the batch equals the single row. */
  lemma CullOfRepeatedOrientation(items: seq<Triplet>, n: nat, proj: Projection, single: Projection)
    requires n >= 1
    requires forall o, t :: 0 <= o < n ==> proj(o, t) == single(0, t)
    ensures Cull(items, n, proj).indices == Cull(items, 1, single).indices
    ensures forall o :: 0 <= o < n ==>
      Cull(items, n, proj).coordinates[o] == Cull(items, 1, single).coordinates[0] &&
      Cull(items, n, proj).inPattern[o] == Cull(items, 1, single).inPattern[0]
  {
    RepeatedOrientationSameMask(items, n, proj, single);
    var indices := Cull(items, n, proj).indices;
    assert indices == Cull(items, 1, single).indices;
    forall o | 0 <= o < n
      ensures Cull(items, n, proj).coordinates[o] == Cull(items, 1, single).coordinates[0]
      ensures Cull(items, n, proj).inPattern[o] == Cull(items, 1, single).inPattern[0]
    {
      RowsAgree(indices, n, proj, single, o);
    }
  }

  /** Orientation o of a batch projecting like a single orientation gives
      that orientation's row of coordinates and of upper-hemisphere flags. */
  lemma RowsAgree(items: seq<Triplet>, n: nat, proj: Projection, single: Projection, o: nat)
    requires o < n
    requires forall t :: proj(o, t) == single(0, t)
    ensures Coordinates(items, n, proj)[o] == Coordinates(items, 1, single)[0]
    ensures UpperMask(Coordinates(items, n, proj), |items|)[o] == UpperMask(Coordinates(items, 1, single), |items|)[0]
  {
    var batch := Coordinates(items, n, proj);
    var one := Coordinates(items, 1, single);
    assert batch[o] == one[0] by {
      forall k | 0 <= k < |items|
        ensures batch[o][k] == one[0][k]
      {
        assert proj(o, items[k]) == single(0, items[k]);
      }
    }
  }

  lemma RepeatedOrientationSameMask(items: seq<Triplet>, n: nat, proj: Projection, single: Projection)
    requires n >= 1
    requires forall o, t :: 0 <= o < n ==> proj(o, t) == single(0, t)
    ensures VisibleMask(items, n, proj) == VisibleMask(items, 1, single)
  {
    var keepN := VisibleMask(items, n, proj);
    var keep1 := VisibleMask(items, 1, single);
    forall k | 0 <= k < |items|
      ensures keepN[k] == keep1[k]
    {
      if SeenBy(n, proj, items[k]) {
        var o :| 0 <= o < n && Upper(proj(o, items[k]));
        assert proj(o, items[k]) == single(0, items[k]);
        assert Upper(single(0, items[k]));
      }
      if SeenBy(1, single, items[k]) {
        assert proj(0, items[k]) == single(0, items[k]);
      }
    }
  }
}
