/** The panel bookkeeping of the 3D roof view (roofVisualizer.js): the grid of
    candidate panel positions laid over a box-shaped roof, and the stack of
    panels shown on it as the slider moves.  The three.js scene itself (meshes,
    lights, camera, rendering) is not modelled; a panel is the position it is
    placed at. */
module Visualizer {
  import opened Options
  import opened GridIndex
  import opened RealFacts

  /** `panelSize`: a panel is 1.65 m along x and 1.0 m along z. */
  const PanelWidth: real := 1.65
  const PanelDepth: real := 1.0
  /** Height at which panels sit above the roof box. */
  const PanelY: real := 0.5
  /** `maxArrayPanelsCount || 20` */
  const DefaultMaxPanels: nat := 20
  /** `areaMeters2 || 100` */
  const DefaultRoofArea: real := 100.0

  /** The part of the building insights the view reads. */
  datatype SolarPotential = SolarPotential(maxArrayPanelsCount: Option<nat>, wholeRoofAreaMeters2: Option<real>)
  datatype BuildingData = BuildingData(solarPotential: Option<SolarPotential>)

  /** A candidate panel position and its (random) efficiency. */
  datatype GridPosition = GridPosition(x: real, y: real, z: real, efficiency: real)

  /** A panel mesh placed on the roof, at the position it was created for. */
  datatype Panel = Panel(at: GridPosition)

  /** The extent of the roof mesh along x and z, as `Box3.setFromObject` measures it. */
  datatype RoofBox = RoofBox(width: real, depth: real)

  /** `buildingData.solarPotential.maxArrayPanelsCount || 20`: a missing or zero
      count falls back to 20, so the cap is always positive. */
  function MaxPanelsOf(p: SolarPotential): (m: nat)
    ensures m > 0
    ensures p.maxArrayPanelsCount.GetOr(0) > 0 ==> m == p.maxArrayPanelsCount.value
    ensures p.maxArrayPanelsCount.GetOr(0) == 0 ==> m == DefaultMaxPanels
  {
    match p.maxArrayPanelsCount
    case Some(c) => if c != 0 then c else DefaultMaxPanels
    case None => DefaultMaxPanels
  }

  /** `solarPotential?.wholeRoofStats?.areaMeters2 || 100` */
  function RoofArea(data: BuildingData): (a: real)
    ensures a != 0.0
    ensures data.solarPotential.Some? && data.solarPotential.value.wholeRoofAreaMeters2.GetOr(0.0) != 0.0
      ==> a == data.solarPotential.value.wholeRoofAreaMeters2.value
  {
    if data.solarPotential.Some? && data.solarPotential.value.wholeRoofAreaMeters2.GetOr(0.0) != 0.0
    then data.solarPotential.value.wholeRoofAreaMeters2.value
    else DefaultRoofArea
  }

  /** `createRoofGeometry`: a box `roofSize` wide and `0.7 * roofSize` deep,
      where `roofSize` is the square root (a parameter) of the roof area. */
  function RoofBoxFor(data: BuildingData, sqrt: real -> real): (b: RoofBox)
    ensures b.width >= 0.0 && b.depth == 0.7 * b.width
  {
    var roofSize := sqrt(RoofArea(data));
    RoofBox(Abs(roofSize), 0.7 * Abs(roofSize))
  }

  /** How often `for (let i = 0; i < Math.floor(extent / size); i++)` runs:
      as many whole sizes as fit in the extent, and one more would not fit. */
  function Fitting(extent: real, size: real): (n: nat)
    requires size > 0.0
    ensures n as real * size <= Abs(extent)
    ensures extent >= 0.0 ==> extent / size < (n + 1) as real
  {
    var q := extent / size;
    var f := q.Floor;
    assert q * size == extent;
    MulLe(f as real, q, size);
    if f < 0 then 0 else f
  }

  /** `panelsX` and `panelsZ`: the whole panels that fit across and along the roof. */
  function PanelsAcross(b: RoofBox): (n: nat) { Fitting(b.width, PanelWidth) }
  function PanelsDeep(b: RoofBox): (n: nat) { Fitting(b.depth, PanelDepth) }

  /** The position of grid cell (i, j) in a grid of `px` by `pz` cells, centred
      on the origin; `r` is the `Math.random()` draw for it. */
  function PositionAt(i: nat, j: nat, px: nat, pz: nat, r: real): (p: GridPosition) {
    GridPosition((i as real - px as real / 2.0) * PanelWidth + PanelWidth / 2.0,
                 PanelY,
                 (j as real - pz as real / 2.0) * PanelDepth + PanelDepth / 2.0,
                 r * 0.3 + 0.7)
  }

  /** The first `count` positions of the grid, x-major with z fastest; the k-th
      position pushed uses the k-th random draw. */
  function GridPrefix(px: nat, pz: nat, count: nat, random: nat -> real): (g: seq<GridPosition>)
    requires count == 0 || pz > 0
    ensures |g| == count
  {
    seq(count, k requires 0 <= k < count => PositionAt(k / pz, k % pz, px, pz, random(k)))
  }

  /** The positions `setupPanelGrid` produces: the grid, cut off at `maxPanels`. */
  function GridFor(b: RoofBox, maxPanels: nat, random: nat -> real): (g: seq<GridPosition>)
    ensures |g| == Min(maxPanels, PanelsAcross(b) * PanelsDeep(b))
  {
    var px, pz := PanelsAcross(b), PanelsDeep(b);
    GridPrefix(px, pz, Min(maxPanels, px * pz), random)
  }

  /** The grid holds min(maxPanels, panelsX * panelsZ) positions; position k is
      cell (k / panelsZ, k % panelsZ) with `k / panelsZ < panelsX`, so every
      position is a cell of the grid. */
  lemma GridForSpec(b: RoofBox, maxPanels: nat, random: nat -> real)
    ensures var px, pz := PanelsAcross(b), PanelsDeep(b);
      var g := GridFor(b, maxPanels, random);
      && |g| == Min(maxPanels, px * pz)
      && forall k :: 0 <= k < |g| ==>
           k / pz < px && k % pz < pz && g[k] == PositionAt(k / pz, k % pz, px, pz, random(k))
  {
    var px, pz := PanelsAcross(b), PanelsDeep(b);
    var g := GridFor(b, maxPanels, random);
    forall k | 0 <= k < |g|
      ensures k / pz < px && k % pz < pz
    {
      InsideGrid(k, px, pz);
    }
  }

  /** The grid is centred on the origin: cell i and cell px-1-i are mirror
      images along x, and likewise along z. */
  lemma GridCentred(i: nat, j: nat, px: nat, pz: nat, r1: real, r2: real)
    requires i < px && j < pz
    ensures PositionAt(i, j, px, pz, r1).x + PositionAt(px - 1 - i, j, px, pz, r2).x == 0.0
    ensures PositionAt(i, j, px, pz, r1).z + PositionAt(i, pz - 1 - j, px, pz, r2).z == 0.0
  {
  }

  /** Every cell of the grid over a roof lies on the roof box: a whole panel
      fits between its centre and the box's edges. */
  lemma GridOnRoof(b: RoofBox, i: nat, j: nat, r: real)
    requires i < PanelsAcross(b) && j < PanelsDeep(b)
    ensures var p := PositionAt(i, j, PanelsAcross(b), PanelsDeep(b), r);
      && -Abs(b.width) / 2.0 <= p.x - PanelWidth / 2.0 && p.x + PanelWidth / 2.0 <= Abs(b.width) / 2.0
      && -Abs(b.depth) / 2.0 <= p.z - PanelDepth / 2.0 && p.z + PanelDepth / 2.0 <= Abs(b.depth) / 2.0
      && p.y == PanelY
  {
  }

  /** With `Math.random()` in [0, 1), efficiencies are in [0.7, 1.0). */
  lemma GridEfficiency(i: nat, j: nat, px: nat, pz: nat, r: real)
    requires 0.0 <= r < 1.0
    ensures 0.7 <= PositionAt(i, j, px, pz, r).efficiency < 1.0
  {
  }

  // ---------------------------------------------------------------- the panel stack

  /** Panel i stands at position i, and there are no more panels than positions. */
  predicate Aligned(panels: seq<Panel>, positions: seq<GridPosition>) {
    |panels| <= |positions| && forall i :: 0 <= i < |panels| ==> panels[i].at == positions[i]
  }

  /** The `pop` loop of `updatePanelCount`. */
  function Shrunk(panels: seq<Panel>, count: nat): (r: seq<Panel>)
    ensures |r| == Min(|panels|, count) && r == panels[..|r|]
  {
    if |panels| > count then panels[..count] else panels
  }

  /** The `addPanel(panels.length)` loop of `updatePanelCount`. */
  function Grown(panels: seq<Panel>, positions: seq<GridPosition>, count: nat): (r: seq<Panel>)
    decreases |positions| - |panels|
  {
    if |panels| < count && |panels| < |positions| then Grown(panels + [Panel(positions[|panels|])], positions, count)
    else panels
  }

  /** The panels after `updatePanelCount(count)` when `count` is new. */
  function AfterUpdate(panels: seq<Panel>, positions: seq<GridPosition>, count: nat): (r: seq<Panel>) {
    Grown(Shrunk(panels, count), positions, count)
  }

  /** Growing appends panels at the next positions until `count` panels or all
      positions are used. */
  lemma {:induction false} GrownSpec(panels: seq<Panel>, positions: seq<GridPosition>, count: nat)
    ensures var r := Grown(panels, positions, count);
      && |r| == (if |panels| < Min(count, |positions|) then Min(count, |positions|) else |panels|)
      && r[..|panels|] == panels
      && forall i :: |panels| <= i < |r| ==> r[i] == Panel(positions[i])
    decreases |positions| - |panels|
  {
    if |panels| < count && |panels| < |positions| {
      var next := panels + [Panel(positions[|panels|])];
      GrownSpec(next, positions, count);
      var r := Grown(panels, positions, count);
      assert r[..|panels|] == r[..|next|][..|panels|];
    }
  }

  /** After an update the panels number at most `count`, and exactly
      min(count, positions) when there were no more panels than positions. */
  lemma AfterUpdateLength(panels: seq<Panel>, positions: seq<GridPosition>, count: nat)
    ensures |AfterUpdate(panels, positions, count)| <= count
    ensures |panels| <= |positions| ==> |AfterUpdate(panels, positions, count)| == Min(count, |positions|)
  {
    GrownSpec(Shrunk(panels, count), positions, count);
  }

  /** Updating keeps panels aligned with the positions. */
  lemma AfterUpdateAligned(panels: seq<Panel>, positions: seq<GridPosition>, count: nat)
    requires Aligned(panels, positions)
    ensures Aligned(AfterUpdate(panels, positions, count), positions)
  {
    var s := Shrunk(panels, count);
    GrownSpec(s, positions, count);
    var r := AfterUpdate(panels, positions, count);
    forall i | 0 <= i < |r|
      ensures r[i].at == positions[i]
    {
      if i < |s| {
        assert r[i] == r[..|s|][i];
      }
    }
  }

  /** The panels behave as a stack: the panels that survive an update are the
      bottom of the old stack, unchanged. */
  lemma AfterUpdateKeepsBottom(panels: seq<Panel>, positions: seq<GridPosition>, count: nat)
    ensures var r := AfterUpdate(panels, positions, count);
      var m := Min(|panels|, |r|);
      r[..m] == panels[..m]
  {
    var s := Shrunk(panels, count);
    GrownSpec(s, positions, count);
    var r := AfterUpdate(panels, positions, count);
    var m := Min(|panels|, |r|);
    assert m <= |s|;
    assert r[..m] == r[..|s|][..m];
    assert s[..m] == panels[..m];
  }

  /** Repeating an update with the same count changes nothing. */
  lemma AfterUpdateIdempotent(panels: seq<Panel>, positions: seq<GridPosition>, count: nat)
    ensures AfterUpdate(AfterUpdate(panels, positions, count), positions, count) == AfterUpdate(panels, positions, count)
  {
    var r := AfterUpdate(panels, positions, count);
    GrownSpec(Shrunk(panels, count), positions, count);
    GrownSpec(Shrunk(r, count), positions, count);
    AfterUpdateLength(panels, positions, count);
    assert Shrunk(r, count) == r;
  }

  /** The visualizer's panel state.  `panelPositions` starts out empty. */
  class RoofVisualizer {
    var panels: seq<Panel>
    var panelPositions: seq<GridPosition>
    var maxPanels: nat
    var currentPanelCount: nat
    var roofMesh: Option<RoofBox>
    var solarData: Option<BuildingData>

    /** No more panels are shown than the slider last asked for. */
    predicate Valid()
      reads this
    {
      |panels| <= currentPanelCount
    }

    constructor ()
      ensures Valid()
      ensures panels == [] && panelPositions == [] && maxPanels == 0 && currentPanelCount == 0
      ensures roofMesh.None? && solarData.None?
    {
      panels := [];
      panelPositions := [];
      maxPanels := 0;
      currentPanelCount := 0;
      roofMesh := None;
      solarData := None;
    }

    /** `loadSolarData`: without a solar potential it only records the data;
        otherwise it sets the (positive) panel cap, builds the roof and lays out
        the grid. */
    method LoadSolarData(data: BuildingData, sqrt: real -> real, random: nat -> real)
      requires Valid()
      modifies this
      ensures Valid()
      ensures solarData == Some(data)
      ensures data.solarPotential.None? ==>
        maxPanels == old(maxPanels) && roofMesh == old(roofMesh) && panelPositions == old(panelPositions)
      ensures data.solarPotential.Some? ==>
        && maxPanels == MaxPanelsOf(data.solarPotential.value) && maxPanels > 0
        && roofMesh == Some(RoofBoxFor(data, sqrt))
        && panelPositions == GridFor(roofMesh.value, maxPanels, random)
      ensures panels == old(panels) && currentPanelCount == old(currentPanelCount)
    {
      solarData := Some(data);
      if data.solarPotential.None? {
        return;
      }
      maxPanels := MaxPanelsOf(data.solarPotential.value);
      CreateRoofGeometry(data, sqrt);
      SetupPanelGrid(random);
    }

    /** `createRoofGeometry`: replaces the roof box. */
    method CreateRoofGeometry(data: BuildingData, sqrt: real -> real)
      requires Valid()
      modifies this
      ensures Valid()
      ensures roofMesh == Some(RoofBoxFor(data, sqrt))
      ensures panels == old(panels) && panelPositions == old(panelPositions) && maxPanels == old(maxPanels)
      ensures currentPanelCount == old(currentPanelCount) && solarData == old(solarData)
    {
      roofMesh := Some(RoofBoxFor(data, sqrt));
    }

    /** `setupPanelGrid`: nothing without a roof; otherwise the positions become
        the roof's grid cut off at `maxPanels`.  The `break` leaves only the
        inner loop, but every later inner loop breaks at once, so the cap holds.
        Panels already shown are kept. */
    method SetupPanelGrid(random: nat -> real)
      requires Valid()
      modifies this
      ensures Valid()
      ensures roofMesh.None? ==> panelPositions == old(panelPositions)
      ensures roofMesh.Some? ==> panelPositions == GridFor(roofMesh.value, maxPanels, random)
      ensures panels == old(panels) && maxPanels == old(maxPanels) && roofMesh == old(roofMesh)
      ensures currentPanelCount == old(currentPanelCount) && solarData == old(solarData)
    {
      if roofMesh.None? {
        return;
      }
      var panelsX := PanelsAcross(roofMesh.value);
      var panelsZ := PanelsDeep(roofMesh.value);
      panelPositions := [];
      var x := 0;
      ghost var start := 0;
      while x < panelsX
        invariant 0 <= x <= panelsX && start == x * panelsZ
        invariant panelPositions == GridPrefix(panelsX, panelsZ, Min(maxPanels, start), random)
        invariant roofMesh == old(roofMesh) && panels == old(panels) && maxPanels == old(maxPanels)
        invariant currentPanelCount == old(currentPanelCount) && solarData == old(solarData)
      {
        var z := 0;
        while z < panelsZ
          invariant 0 <= z <= panelsZ
          invariant panelPositions == GridPrefix(panelsX, panelsZ, Min(maxPanels, start + z), random)
          invariant roofMesh == old(roofMesh) && panels == old(panels) && maxPanels == old(maxPanels)
          invariant currentPanelCount == old(currentPanelCount) && solarData == old(solarData)
        {
          if |panelPositions| >= maxPanels {
            break;
          }
          RowMajor(x, z, panelsZ);
          panelPositions := panelPositions + [PositionAt(x, z, panelsX, panelsZ, random(|panelPositions|))];
          z := z + 1;
        }
        NextRow(x, panelsZ);
        start := start + panelsZ;
        x := x + 1;
      }
    }

    /** `updatePanelCount`: nothing when `count` is the current count;
        otherwise pop panels down to `count`, then add panels at the next
        positions up to `count` or the end of the grid. */
    method UpdatePanelCount(count: nat)
      requires Valid()
      modifies this
      ensures Valid()
      ensures count == old(currentPanelCount) ==> panels == old(panels) && currentPanelCount == old(currentPanelCount)
      ensures count != old(currentPanelCount) ==>
        panels == AfterUpdate(old(panels), panelPositions, count) && currentPanelCount == count
      ensures panelPositions == old(panelPositions) && maxPanels == old(maxPanels)
      ensures roofMesh == old(roofMesh) && solarData == old(solarData)
    {
      if count == currentPanelCount {
        return;
      }
      while |panels| > count
        invariant |old(panels)| > count ==> |panels| >= count && panels == old(panels)[..|panels|]
        invariant |old(panels)| <= count ==> panels == old(panels)
        invariant panelPositions == old(panelPositions) && maxPanels == old(maxPanels)
        invariant roofMesh == old(roofMesh) && solarData == old(solarData)
        invariant currentPanelCount == old(currentPanelCount)
      {
        panels := panels[..|panels| - 1];
      }
      assert panels == Shrunk(old(panels), count);
      while |panels| < count && |panels| < |panelPositions|
        invariant Grown(panels, panelPositions, count) == AfterUpdate(old(panels), panelPositions, count)
        invariant panelPositions == old(panelPositions) && maxPanels == old(maxPanels)
        invariant roofMesh == old(roofMesh) && solarData == old(solarData)
        invariant currentPanelCount == old(currentPanelCount)
        decreases |panelPositions| - |panels|
      {
        AddPanel(|panels|);
      }
      currentPanelCount := count;
      AfterUpdateLength(old(panels), panelPositions, count);
    }

    /** `addPanel(index)`: nothing when there is no position `index`; otherwise
        a panel at that position goes on top of the stack. */
    method AddPanel(index: int)
      modifies this
      ensures 0 <= index < |panelPositions| ==> panels == old(panels) + [Panel(panelPositions[index])]
      ensures !(0 <= index < |panelPositions|) ==> panels == old(panels)
      ensures panelPositions == old(panelPositions) && maxPanels == old(maxPanels)
      ensures currentPanelCount == old(currentPanelCount)
      ensures roofMesh == old(roofMesh) && solarData == old(solarData)
    {
      if !(0 <= index < |panelPositions|) {
        return;
      }
      panels := panels + [Panel(panelPositions[index])];
    }

    /** `clearAllPanels`: removes every panel. */
    method ClearAllPanels()
      requires Valid()
      modifies this
      ensures Valid()
      ensures panels == [] && currentPanelCount == 0
      ensures panelPositions == old(panelPositions) && maxPanels == old(maxPanels)
      ensures roofMesh == old(roofMesh) && solarData == old(solarData)
    {
      UpdatePanelCount(0);
    }

    /** `setMaxPanels`: shows as many panels as the cap and the grid allow. */
    method SetMaxPanels()
      requires Valid()
      modifies this
      ensures Valid()
      ensures maxPanels == old(currentPanelCount) ==> panels == old(panels)
      ensures maxPanels != old(currentPanelCount) ==>
        panels == AfterUpdate(old(panels), panelPositions, maxPanels) && currentPanelCount == maxPanels
      ensures |old(panels)| <= |panelPositions| && maxPanels != old(currentPanelCount) ==>
        |panels| == Min(maxPanels, |panelPositions|)
      ensures Aligned(old(panels), panelPositions) && maxPanels != old(currentPanelCount) ==>
        Aligned(panels, panelPositions)
      ensures panelPositions == old(panelPositions) && maxPanels == old(maxPanels)
      ensures roofMesh == old(roofMesh) && solarData == old(solarData)
    {
      UpdatePanelCount(maxPanels);
      if maxPanels != old(currentPanelCount) {
        AfterUpdateLength(old(panels), panelPositions, maxPanels);
        if Aligned(old(panels), panelPositions) {
          AfterUpdateAligned(old(panels), panelPositions, maxPanels);
        }
      }
    }
  }
}
