/** The kinematical master pattern in the stereographic projection
    (`KikuchiPatternSimulator.calculate_master_pattern` and `_get_pattern`).

    The geometry is a parameter: for a hemisphere pole, a pixel of the
    (2h+1)² stereographic grid and a reflector, `Geometry.dot` is the dot
    product of the pixel's unit vector with the reflector's unit direction,
    and `Geometry.arccos` turns it into the angle between them. What this
    module states is the option dispatch, the per-pair classification into
    zone line / band / outside and the weighted sum per pixel. */
module MasterPattern {
  import opened Results
  import opened Reflectors

  /** `np.pi / 2` as the double numpy computes. */
  const HalfPi: real := 1.5707963267948966

  /** A pixel whose dot product with a reflector is at most this far from 0
      lies on that reflector's exact zone line. */
  const ZoneTolerance: real := 0.0000001

  datatype SimulationError =
    | NoReflectors                // `theta[0]` of an empty reflector set (IndexError)
    | MissingBraggAngles          // ValueError from `_raise_if_no_theta`
    | MissingStructureFactors     // ValueError from `_raise_if_no_structure_factor`
    | UnknownHemisphere           // ValueError naming 'north', 'south' or 'both'
    | UnknownScaling              // ValueError naming 'linear', 'square' or None
    | IncompleteStructureFactors  // a later reflector has no F: arithmetic on None fails
    | IncompleteBraggAngles       // a later reflector has no θ: `np.pi / 2 - None` fails

  /* ---------------- Option dispatch ---------------- */

  datatype Hemisphere = North | South | Both

  function HemisphereName(h: Hemisphere): string
  {
    match h
    case North => "north"
    case South => "south"
    case Both => "both"
  }

  /** The `hemisphere` argument: one of the three names, anything else
      (including None) is a ValueError. */
  function ParseHemisphere(s: Option<string>): (r: Result<Hemisphere, SimulationError>)
    ensures r.Ok? <==> exists h :: s == Some(HemisphereName(h))
    ensures r.Ok? ==> s == Some(HemisphereName(r.value))
    ensures r.Err? ==> r.error == UnknownHemisphere
  {
    if s == Some("both") then assert s == Some(HemisphereName(Both)); Ok(Both)
    else if s == Some("north") then assert s == Some(HemisphereName(North)); Ok(North)
    else if s == Some("south") then assert s == Some(HemisphereName(South)); Ok(South)
    else Err(UnknownHemisphere)
  }

  /** The inverse stereographic projection poles computed, in output order:
      -1 for the northern hemisphere, 1 for the southern one. */
  function Poles(h: Hemisphere): (poles: seq<int>)
    ensures |poles| == if h == Both then 2 else 1
    ensures forall i :: 0 <= i < |poles| ==> poles[i] == -1 || poles[i] == 1
    ensures -1 in poles <==> h != South
    ensures 1 in poles <==> h != North
    ensures forall i, j :: 0 <= i < j < |poles| ==> poles[i] < poles[j]
  {
    match h
    case Both => [-1, 1]
    case North => [-1]
    case South => [1]
  }

  /** "both" computes the north pattern first and the south pattern second. */
  lemma BothIsNorthThenSouth()
    ensures Poles(Both) == Poles(North) + Poles(South)
  {
  }

  datatype Scaling = Linear | Square | Unscaled

  /** The `scaling` argument naming each choice; `Unscaled` is Python's None
      (the string "None" is not accepted). */
  function ScalingName(c: Scaling): Option<string>
  {
    match c
    case Linear => Some("linear")
    case Square => Some("square")
    case Unscaled => None
  }

  function ParseScaling(s: Option<string>): (r: Result<Scaling, SimulationError>)
    ensures r.Ok? <==> exists c :: s == ScalingName(c)
    ensures r.Ok? ==> s == ScalingName(r.value)
    ensures r.Err? ==> r.error == UnknownScaling
  {
    if s == Some("linear") then assert s == ScalingName(Linear); Ok(Linear)
    else if s == Some("square") then assert s == ScalingName(Square); Ok(Square)
    else if s.None? then assert s == ScalingName(Unscaled); Ok(Unscaled)
    else Err(UnknownScaling)
  }

  /* ---------------- Intensities ---------------- */

  /** `abs(F)`. */
  function LinearIntensity(f: StructureFactor): (r: real)
    ensures r >= 0.0 && r * r == Norm2(f.value)
  {
    f.modulus
  }

  /** `abs(F * F.conjugate())`: the product is real, so its absolute value
      is the absolute value of its real part. */
  function SquareIntensity(f: StructureFactor): (r: real)
    ensures r >= 0.0 && r == Norm2(f.value)
  {
    MulConjugateIsNorm2(f.value);
    var p := Mul(f.value, Conjugate(f.value));
    if p.re >= 0.0 then p.re else -p.re
  }

  /** The square scaling is the linear scaling squared, reflector by reflector. */
  lemma SquareIsLinearSquared(f: StructureFactor)
    ensures SquareIntensity(f) == LinearIntensity(f) * LinearIntensity(f)
  {
  }

  /** What the intensity `i` of `reflector` is under `scaling`: |F|, |F|² or 1. */
  predicate ScaledIntensity(scaling: Scaling, reflector: Reflector, i: real)
  {
    match scaling
    case Unscaled => i == 1.0
    case Linear =>
      reflector.structureFactor.Some? && i >= 0.0 && i * i == Norm2(reflector.structureFactor.value.value)
    case Square =>
      reflector.structureFactor.Some? && i == Norm2(reflector.structureFactor.value.value)
  }

  function ScaleOne(scaling: Scaling, f: StructureFactor): real
  {
    if scaling == Linear then LinearIntensity(f) else SquareIntensity(f)
  }

  /** Per-reflector intensity, lines 129-139. `linear` and `square` read
      every structure factor, so one missing anywhere fails; `None` reads none. */
  function Intensities(scaling: Scaling, reflectors: seq<Reflector>): (r: Result<seq<real>, SimulationError>)
    ensures r.Err? <==>
      scaling != Unscaled && exists k :: 0 <= k < |reflectors| && reflectors[k].structureFactor.None?
    ensures r.Err? ==> r.error == IncompleteStructureFactors
    ensures r.Ok? ==> |r.value| == |reflectors|
    ensures r.Ok? ==> forall k :: 0 <= k < |reflectors| ==>
      r.value[k] >= 0.0 && ScaledIntensity(scaling, reflectors[k], r.value[k])
  {
    if scaling == Unscaled then
      Ok(seq(|reflectors|, k => 1.0))
    else if exists k :: 0 <= k < |reflectors| && reflectors[k].structureFactor.None? then
      Err(IncompleteStructureFactors)
    else
      Ok(seq(|reflectors|, k requires 0 <= k < |reflectors| =>
        ScaleOne(scaling, reflectors[k].structureFactor.value)))
  }

  /** `np.pi / 2 - theta` needs every Bragg angle. */
  function BraggAngles(reflectors: seq<Reflector>): (r: Option<seq<real>>)
    ensures r.None? <==> exists k :: 0 <= k < |reflectors| && reflectors[k].theta.None?
    ensures r.Some? ==> |r.value| == |reflectors|
    ensures r.Some? ==> forall k :: 0 <= k < |reflectors| ==> reflectors[k].theta == Some(r.value[k])
  {
    if exists k :: 0 <= k < |reflectors| && reflectors[k].theta.None? then None
    else Some(seq(|reflectors|, k requires 0 <= k < |reflectors| => reflectors[k].theta.value))
  }

  /* ---------------- Classification of (pixel, reflector) pairs ---------------- */

  /** mask1, line 168: |dp| ≤ 1e-7. */
  predicate OnZoneLine(dp: real)
  {
    -ZoneTolerance <= dp <= ZoneTolerance
  }

  /** mask2, lines 169-171: π/2 − θ ≤ angle ≤ π/2 and not mask1. */
  predicate InBand(dp: real, angle: real, theta: real)
  {
    HalfPi - theta <= angle && angle <= HalfPi && !OnZoneLine(dp)
  }

  datatype Contribution = ZoneLine | Band | Outside

  /** The three kinds of pair: on the exact zone line, inside the band
      between the Bragg cone and the plane, or outside. */
  function Classify(dp: real, angle: real, theta: real): (c: Contribution)
    ensures c == ZoneLine <==> OnZoneLine(dp)
    ensures c == Band <==> InBand(dp, angle, theta)
    ensures c == Outside <==> !OnZoneLine(dp) && !InBand(dp, angle, theta)
  {
    if dp <= ZoneTolerance && -dp <= ZoneTolerance then ZoneLine
    else if HalfPi - theta <= angle <= HalfPi then Band
    else Outside
  }

  /** The share of a reflector's intensity a pair contributes. */
  function Weight(c: Contribution): real
  {
    match c
    case ZoneLine => 0.5
    case Band => 1.0
    case Outside => 0.0
  }

  /* ---------------- `_get_pattern` ---------------- */

  function Sum(xs: seq<real>): real
  {
    if |xs| == 0 then 0.0 else Sum(xs[..|xs| - 1]) + xs[|xs| - 1]
  }

  /** `np.sum(intensity, where=mask)`. */
  function MaskedSum(intensity: seq<real>, mask: seq<bool>): real
    requires |intensity| == |mask|
  {
    if |intensity| == 0 then 0.0
    else
      MaskedSum(intensity[..|intensity| - 1], mask[..|mask| - 1])
      + (if mask[|mask| - 1] then intensity[|intensity| - 1] else 0.0)
  }

  lemma MaskedSumSingleton(i: real, b: bool)
    ensures MaskedSum([i], [b]) == if b then i else 0.0
  {
    assert [i][..0] == [] && [b][..0] == [];
  }

  /** One pixel of `_get_pattern`, lines 461-463. */
  function PixelValue(intensity: seq<real>, mask1: seq<bool>, mask2: seq<bool>): real
    requires |intensity| == |mask1| == |mask2|
  {
    0.5 * MaskedSum(intensity, mask1) + MaskedSum(intensity, mask2)
  }

  predicate Disjoint(mask1: seq<bool>, mask2: seq<bool>)
    requires |mask1| == |mask2|
  {
    forall k :: 0 <= k < |mask1| ==> !(mask1[k] && mask2[k])
  }

  /** With non-negative intensities and disjoint masks a pixel lies between
      0 and the total intensity, and a pixel no mask selects is 0. */
  lemma {:induction false} PixelValueBounds(intensity: seq<real>, mask1: seq<bool>, mask2: seq<bool>)
    requires |intensity| == |mask1| == |mask2|
    requires forall k :: 0 <= k < |intensity| ==> intensity[k] >= 0.0
    requires Disjoint(mask1, mask2)
    ensures 0.0 <= PixelValue(intensity, mask1, mask2) <= Sum(intensity)
    ensures (forall k :: 0 <= k < |intensity| ==> !mask1[k] && !mask2[k]) ==>
      PixelValue(intensity, mask1, mask2) == 0.0
  {
    var n := |intensity|;
    if n > 0 {
      var i', m1', m2' := intensity[..n - 1], mask1[..n - 1], mask2[..n - 1];
      PixelValueBounds(i', m1', m2');
      assert MaskedSum(intensity, mask1) == MaskedSum(i', m1') + (if mask1[n - 1] then intensity[n - 1] else 0.0);
      assert MaskedSum(intensity, mask2) == MaskedSum(i', m2') + (if mask2[n - 1] then intensity[n - 1] else 0.0);
      assert Sum(intensity) == Sum(i') + intensity[n - 1];
    }
  }

  /** Σ_k Weight(class_k) · I_k. */
  function WeightedSum(intensity: seq<real>, classes: seq<Contribution>): real
    requires |intensity| == |classes|
  {
    if |intensity| == 0 then 0.0
    else
      WeightedSum(intensity[..|intensity| - 1], classes[..|classes| - 1])
      + Weight(classes[|classes| - 1]) * intensity[|intensity| - 1]
  }

  /** The two masked sums of `_get_pattern` add up each pair's weighted
      share: half the intensity on the zone line, all of it in the band. */
  lemma {:induction false} PixelValueIsWeightedSum(
    intensity: seq<real>, mask1: seq<bool>, mask2: seq<bool>, classes: seq<Contribution>)
    requires |intensity| == |mask1| == |mask2| == |classes|
    requires forall k :: 0 <= k < |classes| ==>
      (mask1[k] <==> classes[k] == ZoneLine) && (mask2[k] <==> classes[k] == Band)
    ensures PixelValue(intensity, mask1, mask2) == WeightedSum(intensity, classes)
  {
    var n := |intensity|;
    if n > 0 {
      PixelValueIsWeightedSum(intensity[..n - 1], mask1[..n - 1], mask2[..n - 1], classes[..n - 1]);
    }
  }

  predicate IsMaskTable(masks: seq<seq<bool>>, width: nat)
  {
    forall p :: 0 <= p < |masks| ==> |masks[p]| == width
  }

  /** `_get_pattern` over a chunk of pixels, as one sequence. */
  function Pattern(intensity: seq<real>, mask1: seq<seq<bool>>, mask2: seq<seq<bool>>): seq<real>
    requires |mask1| == |mask2|
    requires IsMaskTable(mask1, |intensity|) && IsMaskTable(mask2, |intensity|)
  {
    seq(|mask1|, p requires 0 <= p < |mask1| => PixelValue(intensity, mask1[p], mask2[p]))
  }

  /** `_get_pattern`: for every pixel, half the intensities mask1 selects
      plus the intensities mask2 selects. The loops compute the buffer the
      master pattern is built from. */
  method GetPattern(intensity: seq<real>, mask1: seq<seq<bool>>, mask2: seq<seq<bool>>)
    returns (part: seq<real>)
    requires |mask1| == |mask2|
    requires IsMaskTable(mask1, |intensity|) && IsMaskTable(mask2, |intensity|)
    ensures |part| == |mask1|
    ensures forall p :: 0 <= p < |part| ==> part[p] == PixelValue(intensity, mask1[p], mask2[p])
    ensures part == Pattern(intensity, mask1, mask2)
  {
    part := [];
    var p := 0;
    while p < |mask1|
      invariant 0 <= p <= |mask1|
      invariant |part| == p
      invariant forall q :: 0 <= q < p ==> part[q] == PixelValue(intensity, mask1[q], mask2[q])
    {
      var onLine := 0.0;
      var inBand := 0.0;
      var k := 0;
      while k < |intensity|
        invariant 0 <= k <= |intensity|
        invariant onLine == MaskedSum(intensity[..k], mask1[p][..k])
        invariant inBand == MaskedSum(intensity[..k], mask2[p][..k])
      {
        assert intensity[..k + 1][..k] == intensity[..k];
        assert mask1[p][..k + 1][..k] == mask1[p][..k];
        assert mask2[p][..k + 1][..k] == mask2[p][..k];
        if mask1[p][k] {
          onLine := onLine + intensity[k];
        }
        if mask2[p][k] {
          inBand := inBand + intensity[k];
        }
        k := k + 1;
      }
      assert intensity[..k] == intensity;
      assert mask1[p][..k] == mask1[p];
      assert mask2[p][..k] == mask2[p];
      part := part + [0.5 * onLine + inBand];
      p := p + 1;
    }
  }

  /* ---------------- `calculate_master_pattern` ---------------- */

  /** The projection geometry the model takes as given: `dot(pole, pixel, k)`
      is the dot product of the grid pixel's unit vector on the hemisphere
      of `pole` with reflector k's unit direction; `arccos` turns a dot
      product into an angle. */
  datatype Geometry = Geometry(dot: (int, nat, nat) -> real, arccos: real -> real)

  /** mask1 of one hemisphere: pixel p, reflector k is on the zone line. */
  function ZoneMasks(g: Geometry, pole: int, pixels: nat, n: nat): (m: seq<seq<bool>>)
    ensures |m| == pixels && IsMaskTable(m, n)
    ensures forall p, k :: 0 <= p < pixels && 0 <= k < n ==> (m[p][k] <==> OnZoneLine(g.dot(pole, p, k)))
  {
    seq(pixels, p requires 0 <= p < pixels => seq(n, k requires 0 <= k < n => OnZoneLine(g.dot(pole, p, k))))
  }

  /** mask2 of one hemisphere: pixel p lies in reflector k's band. */
  function BandMasks(g: Geometry, pole: int, pixels: nat, thetas: seq<real>): (m: seq<seq<bool>>)
    ensures |m| == pixels && IsMaskTable(m, |thetas|)
    ensures forall p, k :: 0 <= p < pixels && 0 <= k < |thetas| ==>
      (m[p][k] <==> InBand(g.dot(pole, p, k), g.arccos(g.dot(pole, p, k)), thetas[k]))
  {
    seq(pixels, p requires 0 <= p < pixels =>
      seq(|thetas|, k requires 0 <= k < |thetas| =>
        InBand(g.dot(pole, p, k), g.arccos(g.dot(pole, p, k)), thetas[k])))
  }

  /** A pair on the zone line is never in the band: mask2 excludes mask1. */
  lemma MasksDisjoint(g: Geometry, pole: int, pixels: nat, thetas: seq<real>)
    ensures forall p :: 0 <= p < pixels ==>
      Disjoint(ZoneMasks(g, pole, pixels, |thetas|)[p], BandMasks(g, pole, pixels, thetas)[p])
  {
  }

  /** How each reflector meets pixel p of the hemisphere of `pole`. */
  function Classes(g: Geometry, pole: int, p: nat, thetas: seq<real>): (c: seq<Contribution>)
    ensures |c| == |thetas|
  {
    seq(|thetas|, k requires 0 <= k < |thetas| =>
      Classify(g.dot(pole, p, k), g.arccos(g.dot(pole, p, k)), thetas[k]))
  }

  /** One hemisphere's flat buffer of `pixels` sums: each pixel is the sum
      over reflectors of the intensity weighted by how the reflector meets
      that pixel (1/2 on the zone line, 1 in the band, 0 outside). */
  function HemispherePattern(g: Geometry, pole: int, pixels: nat, intensity: seq<real>, thetas: seq<real>): (r: seq<real>)
    requires |intensity| == |thetas|
    ensures |r| == pixels
    ensures forall p :: 0 <= p < pixels ==> r[p] == WeightedSum(intensity, Classes(g, pole, p, thetas))
  {
    var m1 := ZoneMasks(g, pole, pixels, |thetas|);
    var m2 := BandMasks(g, pole, pixels, thetas);
    var r := Pattern(intensity, m1, m2);
    assert forall p :: 0 <= p < pixels ==> r[p] == WeightedSum(intensity, Classes(g, pole, p, thetas)) by {
      forall p | 0 <= p < pixels
        ensures r[p] == WeightedSum(intensity, Classes(g, pole, p, thetas))
      {
        PixelValueIsWeightedSum(intensity, m1[p], m2[p], Classes(g, pole, p, thetas));
      }
    }
    r
  }

  /** The master pattern: `layers` holds one flat row-major buffer of
      size² pixels per hemisphere computed; `shape` is what it is reshaped to. */
  datatype MasterPatternData = MasterPatternData(shape: seq<nat>, layers: seq<seq<real>>, hemisphere: Hemisphere)

  /** When `calculate_master_pattern` returns: there are reflectors, the
      first has a Bragg angle and a structure factor, both options are
      valid, every reflector has a Bragg angle, and every reflector has a
      structure factor unless the scaling is None. */
  predicate Succeeds(reflectors: seq<Reflector>, hemisphere: Option<string>, scaling: Option<string>)
  {
    && |reflectors| > 0
    && reflectors[0].theta.Some? && reflectors[0].structureFactor.Some?
    && ParseHemisphere(hemisphere).Ok?
    && ParseScaling(scaling).Ok?
    && (forall k :: 0 <= k < |reflectors| ==> reflectors[k].theta.Some?)
    && (ParseScaling(scaling).value != Unscaled ==>
          forall k :: 0 <= k < |reflectors| ==> reflectors[k].structureFactor.Some?)
  }

  function CalculateMasterPattern(
    reflectors: seq<Reflector>, halfSize: nat, hemisphere: Option<string>, scaling: Option<string>, g: Geometry)
    : (r: Result<MasterPatternData, SimulationError>)
    ensures |reflectors| == 0 ==> r == Err(NoReflectors)
    ensures |reflectors| > 0 && reflectors[0].theta.None? ==> r == Err(MissingBraggAngles)
    ensures |reflectors| > 0 && reflectors[0].theta.Some? && reflectors[0].structureFactor.None? ==>
      r == Err(MissingStructureFactors)
    ensures |reflectors| > 0 && reflectors[0].theta.Some? && reflectors[0].structureFactor.Some? ==>
      (ParseHemisphere(hemisphere).Err? ==> r == Err(UnknownHemisphere)) &&
      (ParseHemisphere(hemisphere).Ok? && ParseScaling(scaling).Err? ==> r == Err(UnknownScaling))
    ensures r.Ok? <==> Succeeds(reflectors, hemisphere, scaling)
    ensures (&& |reflectors| > 0 && reflectors[0].theta.Some? && reflectors[0].structureFactor.Some?
             && ParseHemisphere(hemisphere).Ok? && ParseScaling(scaling).Ok? && ParseScaling(scaling).value != Unscaled
             && (exists k :: 0 <= k < |reflectors| && reflectors[k].structureFactor.None?))
      ==> r == Err(IncompleteStructureFactors)
    ensures (&& |reflectors| > 0 && reflectors[0].theta.Some? && reflectors[0].structureFactor.Some?
             && ParseHemisphere(hemisphere).Ok? && ParseScaling(scaling).Ok?
             && (ParseScaling(scaling).value != Unscaled ==>
                   forall k :: 0 <= k < |reflectors| ==> reflectors[k].structureFactor.Some?)
             && (exists k :: 0 <= k < |reflectors| && reflectors[k].theta.None?))
      ==> r == Err(IncompleteBraggAngles)
    ensures r.Ok? ==>
      var size := 2 * halfSize + 1;
      && ParseHemisphere(hemisphere) == Ok(r.value.hemisphere)
      && r.value.shape == (if r.value.hemisphere == Both then [2, size, size] else [size, size])
      && |r.value.layers| == |Poles(r.value.hemisphere)|
      && forall i :: 0 <= i < |r.value.layers| ==> |r.value.layers[i]| == size * size
  {
    if |reflectors| == 0 then Err(NoReflectors)
    else if reflectors[0].theta.None? then Err(MissingBraggAngles)
    else if reflectors[0].structureFactor.None? then Err(MissingStructureFactors)
    else
      var size := 2 * halfSize + 1;
      match ParseHemisphere(hemisphere)
      case Err(e) => Err(e)
      case Ok(h) =>
        match ParseScaling(scaling)
        case Err(e) => Err(e)
        case Ok(c) =>
          match Intensities(c, reflectors)
          case Err(e) => Err(e)
          case Ok(intensity) =>
            match BraggAngles(reflectors)
            case None => Err(IncompleteBraggAngles)
            case Some(thetas) =>
              var poles := Poles(h);
              var layers := seq(|poles|, i requires 0 <= i < |poles| =>
                HemispherePattern(g, poles[i], size * size, intensity, thetas));
              Ok(MasterPatternData(if h == Both then [2, size, size] else [size, size], layers, h))
  }

  /** Every master-pattern pixel lies between 0 and the sum of all
      reflector intensities. */
  lemma MasterPatternBounded(
    reflectors: seq<Reflector>, halfSize: nat, hemisphere: Option<string>, scaling: Option<string>, g: Geometry)
    requires CalculateMasterPattern(reflectors, halfSize, hemisphere, scaling, g).Ok?
    ensures var mp := CalculateMasterPattern(reflectors, halfSize, hemisphere, scaling, g).value;
      var intensity := Intensities(ParseScaling(scaling).value, reflectors).value;
      forall i, p :: 0 <= i < |mp.layers| && 0 <= p < |mp.layers[i]| ==>
        0.0 <= mp.layers[i][p] <= Sum(intensity)
  {
    var mp := CalculateMasterPattern(reflectors, halfSize, hemisphere, scaling, g).value;
    var intensity := Intensities(ParseScaling(scaling).value, reflectors).value;
    var thetas := BraggAngles(reflectors).value;
    var poles := Poles(mp.hemisphere);
    var pixels := (2 * halfSize + 1) * (2 * halfSize + 1);
    forall i, p | 0 <= i < |mp.layers| && 0 <= p < |mp.layers[i]|
      ensures 0.0 <= mp.layers[i][p] <= Sum(intensity)
    {
      var m1 := ZoneMasks(g, poles[i], pixels, |thetas|);
      var m2 := BandMasks(g, poles[i], pixels, thetas);
      assert mp.layers[i] == HemispherePattern(g, poles[i], pixels, intensity, thetas);
      PixelValueBounds(intensity, m1[p], m2[p]);
    }
  }

  /** Every pixel of every computed hemisphere is the classified, weighted
      sum of the reflector intensities, with the hemisphere's pole. */
  lemma MasterPatternPixels(
    reflectors: seq<Reflector>, halfSize: nat, hemisphere: Option<string>, scaling: Option<string>, g: Geometry)
    requires Succeeds(reflectors, hemisphere, scaling)
    ensures var r := CalculateMasterPattern(reflectors, halfSize, hemisphere, scaling, g);
      var intensity := Intensities(ParseScaling(scaling).value, reflectors).value;
      var thetas := BraggAngles(reflectors).value;
      var poles := Poles(ParseHemisphere(hemisphere).value);
      && r.Ok?
      && |r.value.layers| == |poles|
      && forall i, p :: 0 <= i < |poles| && 0 <= p < |r.value.layers[i]| ==>
           r.value.layers[i][p] == WeightedSum(intensity, Classes(g, poles[i], p, thetas))
  {
    var r := CalculateMasterPattern(reflectors, halfSize, hemisphere, scaling, g);
    var intensity := Intensities(ParseScaling(scaling).value, reflectors).value;
    var thetas := BraggAngles(reflectors).value;
    var poles := Poles(ParseHemisphere(hemisphere).value);
    var pixels := (2 * halfSize + 1) * (2 * halfSize + 1);
    forall i | 0 <= i < |poles|
      ensures r.value.layers[i] == HemispherePattern(g, poles[i], pixels, intensity, thetas)
    {
    }
  }

  /** `hemisphere="both"` stacks exactly the north pattern over the south
      pattern computed with the same arguments. */
  lemma BothStacksNorthAndSouth(
    reflectors: seq<Reflector>, halfSize: nat, scaling: Option<string>, g: Geometry)
    requires CalculateMasterPattern(reflectors, halfSize, Some("both"), scaling, g).Ok?
    ensures var both := CalculateMasterPattern(reflectors, halfSize, Some("both"), scaling, g);
      var north := CalculateMasterPattern(reflectors, halfSize, Some("north"), scaling, g);
      var south := CalculateMasterPattern(reflectors, halfSize, Some("south"), scaling, g);
      north.Ok? && south.Ok? && both.value.layers == north.value.layers + south.value.layers
  {
  }

  /** A single reflector: the "square" pixel is the "linear" pixel squared
      everywhere off the exact zone line; on it the half weight is not
      squared, so the two differ there whenever F ≠ 0. */
  lemma SingleReflectorSquareVersusLinear(f: StructureFactor, onLine: bool, inBand: bool)
    requires !(onLine && inBand)
    ensures var lin := PixelValue([LinearIntensity(f)], [onLine], [inBand]);
      var sq := PixelValue([SquareIntensity(f)], [onLine], [inBand]);
      (!onLine ==> sq == lin * lin) && (onLine && Norm2(f.value) != 0.0 ==> sq != lin * lin)
  {
    var l := LinearIntensity(f);
    var lin := PixelValue([l], [onLine], [inBand]);
    var sq := PixelValue([SquareIntensity(f)], [onLine], [inBand]);
    MaskedSumSingleton(l, onLine);
    MaskedSumSingleton(l, inBand);
    MaskedSumSingleton(SquareIntensity(f), onLine);
    MaskedSumSingleton(SquareIntensity(f), inBand);
    if onLine {
      assert lin == 0.5 * l;
      assert sq == 0.5 * (l * l);
      assert lin * lin == 0.25 * (l * l);
    } else if inBand {
      assert lin == l && sq == l * l;
    } else {
      assert lin == 0.0 && sq == 0.0;
    }
  }
}
