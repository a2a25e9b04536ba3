/** `KikuchiPatternSimulator.on_detector`: project the reflectors, cull the
    ones no orientation shows, derive zone axes from the survivors, and
    project and cull those in turn. */
module Detector {
  import opened Seqs
  import opened Indices
  import opened Reflectors
  import ZoneAxes
  import opened Visibility

  /** What the model takes as given: the detector-frame vector of a
      reflector `hkl` (`hkl · recbaseᵀ · U_o · U_s`) and of a zone axis `uvw`
      (`uvw · base · U_o · U_s`) under orientation o, and the reduction of
      index triplets to smallest integers (`Miller(...).round().unique()`). */
  datatype Collaborators = Collaborators(
    reciprocal: Projection,
    direct: Projection,
    reduce: seq<Triplet> -> seq<Triplet>)

  /** The geometrical simulation bundle: the visible reflectors, and the
      line and zone-axis features. */
  datatype Simulation = Simulation(reflectors: seq<Reflector>, lines: Feature, zoneAxes: Feature)

  function IndicesOf(reflectors: seq<Reflector>): (hkl: seq<Triplet>)
    ensures |hkl| == |reflectors|
    ensures forall k :: 0 <= k < |reflectors| ==> hkl[k] == reflectors[k].hkl
  {
    seq(|reflectors|, k requires 0 <= k < |reflectors| => reflectors[k].hkl)
  }

  /** Lines 246-260: the reflectors kept alongside the line features, in
      the same order; every reflector some orientation shows is kept. */
  function VisibleReflectors(reflectors: seq<Reflector>, n: nat, proj: Projection): (visible: seq<Reflector>)
    ensures |visible| == |Cull(IndicesOf(reflectors), n, proj).indices|
    ensures forall j :: 0 <= j < |visible| ==> visible[j].hkl == Cull(IndicesOf(reflectors), n, proj).indices[j]
    ensures forall k :: 0 <= k < |reflectors| && SeenBy(n, proj, reflectors[k].hkl) ==> reflectors[k] in visible
    ensures visible == Select(reflectors, VisibleMask(IndicesOf(reflectors), n, proj))
  {
    var hkl := IndicesOf(reflectors);
    var keep := VisibleMask(hkl, n, proj);
    var visible := Select(reflectors, keep);
    forall k | 0 <= k < |reflectors| && SeenBy(n, proj, reflectors[k].hkl)
      ensures reflectors[k] in visible
    {
      SelectMembership(reflectors, keep, k);
    }
    visible
  }

  /** Lines 262-295: zone axes from the visible reflectors' indices,
      reduced, then culled like the lines. The survivors are exactly the
      reduced axes some orientation shows, in the reduced list's order,
      each with its per-orientation detector coordinates and upper flag. */
  function VisibleZoneAxes(hkl: seq<Triplet>, n: nat, c: Collaborators): (zoneAxes: Feature)
    ensures |zoneAxes.coordinates| == n && |zoneAxes.inPattern| == n
    ensures IsTable(zoneAxes.coordinates, |zoneAxes.indices|) && IsTable(zoneAxes.inPattern, |zoneAxes.indices|)
    ensures forall j :: 0 <= j < |zoneAxes.indices| ==>
      zoneAxes.indices[j] in c.reduce(ZoneAxes.Derive(hkl)) && SeenBy(n, c.direct, zoneAxes.indices[j])
    ensures forall t :: t in c.reduce(ZoneAxes.Derive(hkl)) && SeenBy(n, c.direct, t) ==> t in zoneAxes.indices
    ensures zoneAxes.indices == Visible(c.reduce(ZoneAxes.Derive(hkl)), n, c.direct)
    ensures forall o, j :: 0 <= o < n && 0 <= j < |zoneAxes.indices| ==>
      zoneAxes.coordinates[o][j] == c.direct(o, zoneAxes.indices[j])
      && (zoneAxes.inPattern[o][j] <==> Upper(c.direct(o, zoneAxes.indices[j])))
  {
    var uvw := c.reduce(ZoneAxes.Derive(hkl));
    var zoneAxes := Cull(uvw, n, c.direct);
    forall j | 0 <= j < |zoneAxes.indices|
      ensures zoneAxes.indices[j] in uvw
    {
      assert zoneAxes.indices[j] == uvw[Positions(VisibleMask(uvw, n, c.direct))[j]];
    }
    forall t | t in uvw && SeenBy(n, c.direct, t)
      ensures t in zoneAxes.indices
    {
      var k :| 0 <= k < |uvw| && uvw[k] == t;
      CullKeepsExactlyVisible(uvw, n, c.direct, k);
    }
    zoneAxes
  }

  /** `on_detector` for n orientations (the navigation axes flattened). */
  function OnDetector(reflectors: seq<Reflector>, n: nat, c: Collaborators): (sim: Simulation)
    ensures |sim.reflectors| == |sim.lines.indices|
    ensures forall j :: 0 <= j < |sim.reflectors| ==> sim.reflectors[j].hkl == sim.lines.indices[j]
    ensures forall j :: 0 <= j < |sim.reflectors| ==> SeenBy(n, c.reciprocal, sim.reflectors[j].hkl)
    ensures forall k :: 0 <= k < |reflectors| && SeenBy(n, c.reciprocal, reflectors[k].hkl) ==>
      reflectors[k] in sim.reflectors
    ensures forall j :: 0 <= j < |sim.zoneAxes.indices| ==>
      sim.zoneAxes.indices[j] in c.reduce(ZoneAxes.Derive(sim.lines.indices))
      && SeenBy(n, c.direct, sim.zoneAxes.indices[j])
    ensures forall t :: t in c.reduce(ZoneAxes.Derive(sim.lines.indices)) && SeenBy(n, c.direct, t) ==>
      t in sim.zoneAxes.indices
    ensures sim.lines == Cull(IndicesOf(reflectors), n, c.reciprocal)
    ensures sim.zoneAxes == Cull(c.reduce(ZoneAxes.Derive(sim.lines.indices)), n, c.direct)
  {
    var lines := Cull(IndicesOf(reflectors), n, c.reciprocal);
    Simulation(VisibleReflectors(reflectors, n, c.reciprocal), lines, VisibleZoneAxes(lines.indices, n, c))
  }

  /** Without reduction (`reduce` the identity), every zone axis in the
      bundle is a non-zero cross product of two reflectors that are in some
      pattern, and so is orthogonal to both. */
  lemma ZoneAxesFromVisibleReflectors(reflectors: seq<Reflector>, n: nat, c: Collaborators)
    requires forall s :: c.reduce(s) == s
    ensures var sim := OnDetector(reflectors, n, c);
      forall j :: 0 <= j < |sim.zoneAxes.indices| ==> FromTwoReflectors(sim.zoneAxes.indices[j], sim.reflectors)
  {
    var sim := OnDetector(reflectors, n, c);
    forall j | 0 <= j < |sim.zoneAxes.indices|
      ensures FromTwoReflectors(sim.zoneAxes.indices[j], sim.reflectors)
    {
      var t := sim.zoneAxes.indices[j];
      assert t in ZoneAxes.Derive(sim.lines.indices);
      var a, b := ZoneAxes.DeriveWitness(sim.lines.indices, t);
      CrossOrthogonalToFactors(sim.lines.indices[a], sim.lines.indices[b]);
      assert t == Cross(sim.reflectors[a].hkl, sim.reflectors[b].hkl);
    }
  }

  /** `t` is a non-zero cross product of two of the reflectors, and so
      orthogonal to both. */
  predicate FromTwoReflectors(t: Triplet, reflectors: seq<Reflector>)
  {
    && !IsZero(t)
    && exists a, b ::
         && 0 <= a < |reflectors| && 0 <= b < |reflectors|
         && t == Cross(reflectors[a].hkl, reflectors[b].hkl)
         && Dot(t, reflectors[a].hkl) == 0 && Dot(t, reflectors[b].hkl) == 0
  }
}
