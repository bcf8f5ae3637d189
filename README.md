# Solar scan web app — a Dafny model of its panel geometry and placement

The web app shows how many solar panels fit on a building's roof. It draws them
on a 2D canvas over a satellite view, and in a small 3D roof view.

This project models the logic behind those pictures, which lives in two files:
`script.js` and the `RoofVisualizer` class of `roofVisualizer.js`. The model
does not cover the drawing calls themselves.

The `script.js` logic modelled here:

- **Panel bounds.** `calculatePanelBounds` finds the latitude/longitude box
  around all panel centres.
- **Canvas mapping.** `latLngToCanvasCoords` maps a point into that box on the
  canvas.
- **Panel size on canvas.** `calculatePanelSizeOnCanvas` gives a panel's size in
  pixels.
- **Zoom.** `calculateOptimalZoom` gives the zoom level of the satellite image.
- **Orientation heuristic.** `calculatePanelEfficiency` scores a roof segment,
  and `getPanelColor`/`getPanelColorByEfficiency` turn scores into colour tiers.
- **Top N panels.** `drawSolarPanelsOnRealRoof` shows the N panels with the
  highest yearly energy.
- **Configuration choice.** `drawPanelsFromApiConfigs` picks a configuration for
  the slider value.
- **Greedy allocation.** `drawPanelsFromRoofSegments` shares the panel budget
  among roof segments, best orientation first.
- **Segment grid.** `drawPanelsOnSegment` lays out the grid cells on one segment.

The `RoofVisualizer` logic modelled here:

- the grid of candidate positions laid over a box-shaped roof;
- the stack of panels that grows and shrinks with the slider.

How the model is built:

- **Modules.** Each module follows one part of the source:
  - `GeoCanvas`, `Efficiency`, `Ranking` and `PanelPlacement` cover `script.js`;
  - `Visualizer` covers `roofVisualizer.js`.
- **Shared support modules.**
  - `JsNumber` models JavaScript numbers: finite values as `real`, plus
    `Infinity`, `-Infinity` and `NaN` where a division by zero can produce them.
  - `GridIndex` holds the row-major arithmetic that both nested-loop grids rely on.
  - `RealFacts` holds single real-arithmetic steps.
- **Loops become methods.** Each loop the model covers is a method with loop
  invariants, proved equal to a specification function, with one exception
  (below). The methods are `PanelBounds`, `ChooseConfigAsWritten`,
  `AllocateSegments`, `FillCells`, and the `SetupPanelGrid` and
  `UpdatePanelCount` methods of the class.
  - The exception is the per-panel `panels.forEach` of
    `drawSolarPanelsOnRealRoof` (script.js:948-969). It only draws, so the model
    states what it relies on as a quantified lemma over all shown panels
    (`PanelsInsideCanvas`, with `RealPanelColor` for the colour).
  - Loops that only draw or set up the page are left out: script.js:170, 360,
    509, 684, 804, 1040, 1049, and the fallback grid at script.js:1232-1233.
- **The class.** `RoofVisualizer` is a class whose methods update its fields.
  Its invariant `Valid` says that no more panels are shown than the slider last
  asked for.
- **Panels stay aligned.** The stronger fact — panel i stands at grid position
  i — is not a class invariant, because `setupPanelGrid` replaces the positions
  without touching the panels. It is proved instead as a property that
  `updatePanelCount` preserves (`AfterUpdateAligned`).
- **Outside effects are parameters.**
  - `Math.cos` of the centre latitude is the argument `cosCenter`.
  - `Math.log2` is a function argument `log2`.
  - `Math.sqrt` of the roof area in `createRoofGeometry` is a function argument
    `sqrt`. `Math.ceil(Math.sqrt(n))` in `drawPanelsOnSegment` needs no argument:
    it is computed exactly over whole numbers (`CeilSqrt`).
  - The successive `Math.random()` draws are a function `random` from the draw
    number to a real.
  - `script.js`'s globals (`window.buildingBounds`, the slider value, the
    configurations) are passed in as arguments.

## Model

| member | source | states |
|---|---|---|
| JsNumber.Clamp | script.js:1013-1014 | `Math.max(lo, Math.min(hi, x))`. It is NaN exactly when x is NaN, otherwise finite and within [lo, hi]. It returns x unchanged when x is already in range. |
| GeoCanvas.RunningExtremes | script.js:600-612 | The running minimum of the scan is one of the scanned values and no larger than any of them; the running maximum is one of them and no smaller than any of them. |
| GeoCanvas.Padding | script.js:620-621 | The padding is at least 0.0001 degrees and at least half the span, and it is one of the two. |
| GeoCanvas.BoundsOf | script.js:597-634 | The box is `null` exactly when there are no panels. |
| GeoCanvas.PanelBounds | script.js:597-634 | The scan loop computes exactly `BoundsOf`: the running extremes, padded. |
| GeoCanvas.BoundsContainPanels | script.js:615-633 | Every panel centre lies strictly inside the box. Each span is at least 0.0002 degrees. `centerLat`/`centerLng` are the midpoints of the raw extremes and also of the padded box. |
| GeoCanvas.ExtremesBySet | script.js:605-612 | Two lists with the same elements have the same minimum and maximum. |
| GeoCanvas.BoundsOrderIndependent | script.js:597-634 | The box does not depend on the order of the panels (same multiset, same box). |
| GeoCanvas.AxisToCanvas | script.js:985-990 | One axis of the map, `normalizedX * canvasWidth`, is finite exactly when the span is non-zero. |
| GeoCanvas.AxisMonotone | script.js:985-990 | On one axis, with a positive span and size, a larger offset from the edge maps further along the canvas. |
| GeoCanvas.AxisRoundTrip | script.js:985-990 | On one axis, dividing the canvas value by the size and multiplying by the span gives back the offset. |
| GeoCanvas.LatLngToCanvas | script.js:981-993 | It returns `null` exactly when the bounds are absent. x is finite exactly when the longitude span is non-zero, and y exactly when the latitude span is. |
| GeoCanvas.CanvasCorners | script.js:985-992 | (maxLat, minLng) maps to (0, 0) and (minLat, maxLng) maps to (W, H). |
| GeoCanvas.CanvasInside | script.js:985-992 | A point inside the bounds lands in [0, W]×[0, H]. |
| GeoCanvas.CanvasMonotone | script.js:985-992 | x grows with longitude; y falls as latitude grows (the Y axis is flipped). |
| GeoCanvas.CanvasRoundTrip | script.js:981-993 | The inverse map recovers the latitude and longitude of every point. |
| GeoCanvas.StrictlyInsideCanvas | script.js:985-992 | A point strictly inside the bounds lands strictly inside the canvas. |
| GeoCanvas.PanelsInsideCanvas | script.js:948-955 | Drawn against the box of all panels (the bounds stored at script.js:573-577), every panel lands strictly inside the canvas. |
| GeoCanvas.PanelSizeOnCanvas | script.js:996-1016 | The width is NaN or within [8, 40] px, and the height is NaN or within [6, 30] px. |
| GeoCanvas.PanelSizeFinite | script.js:996-1016 | With non-zero spans and a non-zero cosine, both sizes are finite and inside their clamps. |
| GeoCanvas.PanelSizeNaNWhenDegenerate | script.js:1001-1015 | A zero longitude span on a zero-height canvas gives a NaN width: the clamp does not hold for every input. |
| GeoCanvas.OptimalZoom | script.js:659-668 | The zoom is NaN exactly when an axis zoom is NaN. Otherwise it is a whole number in [15, 21]. |
| GeoCanvas.AxisZoom | script.js:664-665 | One axis zoom `Math.floor(Math.log2(360 / diff)) - 1` is a whole number when finite, and NaN exactly when `Math.log2` gives NaN. |
| GeoCanvas.OptimalZoomFinite | script.js:664-667 | With finite axis zooms, the result is the smaller of them clamped into [15, 21]. |
| Efficiency.PanelEfficiency | script.js:1256-1269 | The orientation score always lies in [0.6, 1.0]. |
| Efficiency.EfficiencyReference | script.js:1256-1269 | The score is 1.0 exactly at azimuth 180 and pitch 30. It is 0.8 at azimuth 0 and pitch 30. |
| Efficiency.EfficiencySymmetric | script.js:1261-1266 | The score is symmetric in azimuth around 180 and in pitch around 30. |
| Efficiency.EfficiencyMonotone | script.js:1261-1266 | An orientation closer to the optimum on both axes scores at least as high. |
| Efficiency.SegmentColor | script.js:1272-1277 | `getPanelColor` never gives gray. It gives a colour above red exactly when the score exceeds 0.7. |
| Efficiency.PanelColorByEfficiency | script.js:1060-1066 | `getPanelColorByEfficiency` gives gray exactly when the efficiency is at most 0.2. |
| Efficiency.RealPanelColor | script.js:962-963 | A panel is drawn emerald exactly when its yearly energy exceeds 640 kWh (0.8 of the 800 kWh scale). |
| Efficiency.ColorsMonotone | script.js:1060-1066 | A higher efficiency never gives a lower colour tier, in all three colour rules. |
| Efficiency.HexInjective | script.js:1060-1066 | The five CSS colour strings are distinct, so each colour tier stands for exactly one of the strings `getPanelColor` (script.js:1272-1277) and `getPanelColorByEfficiency` return. |
| Ranking.SortSorted | script.js:923-925 | The insertion sort used as the reference orders positions by energy, highest first, with equal energies kept in input order. |
| Ranking.StableOrder | script.js:923-925 | The stable descending sort of the positions lists each position in range, as many as there are keys. Its meaning is given by `StableOrderSpec` and `StableOrderUnique`. |
| Ranking.StableOrderSpec | script.js:923-925 | The sorted order is a permutation of the panel positions, ordered as a stable descending sort. |
| Ranking.ArrangementUnique | script.js:923-925 | Two stable descending arrangements of the same positions are equal. |
| Ranking.StableOrderUnique | script.js:923-925 | Any stable descending sort of the panels equals the modelled order, so the model fixes what the comparator sort returns. |
| Ranking.TopPanels | script.js:922-928 | `slice(0, N)` of the sorted copy has min(N, number of panels) entries. |
| Ranking.TopPanelsSpec | script.js:922-928 | Each shown panel is the panel at that place in the stable order. Every shown panel's energy is at least every unshown panel's, with a missing energy counting as 0. |
| PanelPlacement.ChooseConfigAsWritten | script.js:1079-1092 | The selection loop computes exactly the as-written choice, and the choice is a position in the list. |
| PanelPlacement.Scan | script.js:1082-1092 | The loop variables after the first n iterations: `bestConfig` is one of those n configurations or `null`. `AsWrittenNone` and `AsWrittenAllFit` give its meaning. |
| PanelPlacement.BestConfigAsWritten | script.js:1082-1092 | The as-written choice is `null` or a position in the list. `AsWrittenNone`, `AsWrittenAllFit` and the two Findings lemmas give its meaning. |
| PanelPlacement.AsWrittenNone | script.js:1079-1092 | The as-written choice is `null` exactly when no configuration reaches the slider value and none has a positive count. |
| PanelPlacement.AsWrittenAllFit | script.js:1082-1086 | When every configuration reaches the slider value, the as-written choice has the fewest panels, and the first one wins a tie. |
| PanelPlacement.AsWrittenMissesFittingConfig | script.js:1082-1092 | For configurations of 5 and 12 panels with 10 selected, the as-written loop picks 5; the intended choice is 12. |
| PanelPlacement.AsWrittenKeepsFirstShort | script.js:1087-1090 | For configurations of 3 and 7 panels with 10 selected, none reaches the slider value. The as-written loop keeps 3, and the intended choice is 7. |
| PanelPlacement.BestConfigAmongSpec | script.js:1079-1092 | The corrected choice is a candidate no candidate beats, and every earlier candidate is worse. There is no choice only when there is no candidate. |
| PanelPlacement.BestConfig | script.js:1079-1092 | The corrected choice is `null` or a configuration that reaches the slider value or has a positive count. `BestConfigAmongSpec` and `BestConfigClosest` give its meaning. |
| PanelPlacement.BestConfigClosest | script.js:1079-1092 | If some configuration reaches the slider value, the corrected choice is one that reaches it with the fewest panels. Otherwise it has the most panels, and it has some. |
| PanelPlacement.SegmentOrder | script.js:1113-1117 | The segment ranking is a list of segment positions (the stable order by orientation score). |
| PanelPlacement.SegmentOrderSpec | script.js:1113-1117 | Every segment appears in the ranking exactly once. A segment is ranked above another only if its orientation score is higher, or equal with the segment earlier in the input (a stable sort, best score first). |
| PanelPlacement.Take | script.js:1122-1127 | A segment's share never exceeds the budget left or its own count, and it is zero for a non-positive count. |
| PanelPlacement.Placed | script.js:1119-1131 | The running count of panels placed never passes the budget. |
| PanelPlacement.Share | script.js:1122-1127 | A ranked segment's share fits in the budget left after the segments ranked above it, never exceeds its count, and is 0 for a count that is not positive. `SharesGreedy` and `UnderBudgetAllFull` give the rest. |
| PanelPlacement.Draws | script.js:1119-1130 | There is at most one draw call per ranked segment. `DrawsSpec`, `DrawsTotal` and `DrawsContiguous` give the calls and their offsets. |
| PanelPlacement.Allocation | script.js:1109-1131 | `drawPanelsFromRoofSegments` makes at most one draw call per segment, over the ranking `SegmentOrder`. `AllocateSegments` computes it. |
| PanelPlacement.AllocateSegments | script.js:1109-1131 | The allocation loop with `break` makes exactly the draw calls of `Allocation`, and its final count is `Placed` over all segments. |
| PanelPlacement.AfterBudgetSpent | script.js:1120 | Once the budget is spent, later segments get nothing and add no draw call. |
| PanelPlacement.PlacedTotal | script.js:1119-1131 | Over the counts in ranked order, the total placed is min(selected, the sum of the positive counts). `RankedTotal` shows the sum is the same in input order. |
| PanelPlacement.SumPositiveAtPermutation | script.js:1113-1117 | Listing the same segment positions in another order does not change the sum of their positive counts. |
| PanelPlacement.SegmentOrderPermutes | script.js:1113-1117 | The ranking holds each input position exactly once, as a multiset. |
| PanelPlacement.RankedTotal | script.js:1113-1131 | The sum of the positive counts in ranked order equals the sum in input order. |
| PanelPlacement.UnderBudgetAllFull | script.js:1119-1131 | While the budget is not spent, every segment so far got its full count. |
| PanelPlacement.SharesGreedy | script.js:1119-1131 | A segment gets panels only if every segment ranked above it got its full count. By `SegmentOrderSpec`, "ranked above" means a better orientation score, or an equal one and earlier in the input. |
| PanelPlacement.DrawsSpec | script.js:1127-1130 | A draw call is made for a ranked segment exactly when its share is positive. The call carries that share and, as its offset, the panels placed before it. |
| PanelPlacement.DrawsTotal | script.js:1127-1130 | Together the draw calls draw every panel placed. |
| PanelPlacement.DrawsContiguous | script.js:1127-1130 | The draw calls number the panels consecutively: the first starts at 0, each starts where the previous one ended, and the last ends at the number placed. |
| PanelPlacement.PlanFromConfigs | script.js:1094-1106 | The basic fallback layout is used exactly when no configuration qualifies. Otherwise the plan names the corrected chosen configuration, which differs from the as-written one in both cases under "Findings". |
| PanelPlacement.PlanTotal | script.js:1103-1106 | A chosen configuration without segment summaries draws nothing. Otherwise its draw calls place min(selected, the sum of the positive panel counts of its segments, in input order). |
| PanelPlacement.CeilSqrt | script.js:1145 | `Math.ceil(Math.sqrt(n))` is the least c with c·c ≥ n. |
| PanelPlacement.CeilDiv | script.js:1146 | `Math.ceil(n / cols)` is the fewest rows of `cols` cells that hold n cells. |
| PanelPlacement.SegmentGrid | script.js:1145-1146 | For n > 0 the grid has min(⌈√n⌉, 6) columns: between 1 and 6, and one column fewer would not hold n cells even as a square, so the grid is square whenever the cap does not apply. rows·cols ≥ n, with no empty row. For n = 0 the grid is empty. |
| PanelPlacement.CappedColumns | script.js:1145 | Capping ⌈√n⌉ at 6 leaves between 1 and 6 columns, and one column fewer would not hold n cells as a square. |
| PanelPlacement.RowMajorCellsAt | script.js:1169-1170 | Cell k of the fill is in row k / cols, column k % cols. |
| PanelPlacement.CellsInGrid | script.js:1169-1170 | All n cells drawn lie within the rows × cols grid. |
| PanelPlacement.CellsDistinct | script.js:1169-1170 | No cell is drawn twice. |
| PanelPlacement.FillCells | script.js:1168-1187 | When the grid has room for n cells, the nested loop with its `panelsDrawn < panelCount` guards draws exactly the first n cells in row-major order. |
| PanelPlacement.SegmentCells | script.js:1145-1187 | On the grid `drawPanelsOnSegment` computes for n panels, the loop draws exactly the first n cells in row-major order. |
| PanelPlacement.LayoutOnSegment | script.js:1143-1162 | The segment's slot is `segmentIndex \|\| offset % 4`, and its origin is that slot's `SlotOrigin`. Cells are at least 8×6 px. The colour comes from the segment's orientation score. |
| PanelPlacement.SlotInQuadrant | script.js:1150-1155 | Slots 0 to 3 are the four quadrants. On a canvas wider and taller than 30 px the origin lies on the canvas, in the left half exactly for even slots and in the top half exactly for slots 0 and 1. |
| PanelPlacement.SlotBelowCanvas | script.js:1150-1155 | A `segmentIndex` of 4 or more is not a quadrant: the origin lies at least a canvas height plus 15 px down, below the canvas (slot 7 gives y = 3·H/2 + 15). |
| PanelPlacement.CellsApart | script.js:1171-1172 | Two different cells of one segment never overlap: a 2-pixel gap separates neighbouring columns and rows. |
| GridIndex.RowMajor | roofVisualizer.js:188-189 | In a nested fill with the inner index fastest, the cell at (i, j) is the (i·inner + j)-th cell. |
| GridIndex.InsideGrid | roofVisualizer.js:188-189 | The k-th cell filled, for k below rows·inner, is in one of the first `rows` rows. |
| Visualizer.MaxPanelsOf | roofVisualizer.js:128 | `maxArrayPanelsCount \|\| 20` is always positive. It is the given count when that is positive, and 20 otherwise. |
| Visualizer.RoofArea | roofVisualizer.js:145 | `areaMeters2 \|\| 100` is never zero, and it is the given area when that is non-zero. |
| Visualizer.RoofBoxFor | roofVisualizer.js:145-149 | The roof box is 0.7 times as deep as it is wide. |
| Visualizer.Fitting | roofVisualizer.js:183-184 | `Math.floor(extent / size)` as a loop count: that many panels fit in the extent, and one more would not. |
| Visualizer.PositionAt | roofVisualizer.js:191-200 | The position pushed for grid cell (x, z), with its random efficiency. `GridCentred`, `GridOnRoof` and `GridEfficiency` give its meaning. |
| Visualizer.GridFor | roofVisualizer.js:183-202 | `setupPanelGrid` yields min(maxPanels, panelsX·panelsZ) positions. `GridForSpec` gives their order and values. |
| Visualizer.GridForSpec | roofVisualizer.js:183-202 | The grid has min(maxPanels, panelsX·panelsZ) positions, x-major with z fastest. Position k is grid cell (k / panelsZ, k % panelsZ) and uses the k-th random draw. |
| Visualizer.GridCentred | roofVisualizer.js:192-193 | The grid is centred on the origin: cells i and panelsX−1−i mirror each other in x, and likewise in z. |
| Visualizer.GridOnRoof | roofVisualizer.js:178-197 | Every grid cell holds a whole panel inside the roof box, at height 0.5. |
| Visualizer.GridEfficiency | roofVisualizer.js:199 | With `Math.random()` in [0, 1), the position efficiencies lie in [0.7, 1.0). |
| Visualizer.Shrunk | roofVisualizer.js:209-212 | The `pop` loop leaves the first min(panels, count) panels, unchanged. |
| Visualizer.Grown | roofVisualizer.js:215-217 | The `addPanel(panels.length)` loop. `GrownSpec` gives its meaning. |
| Visualizer.AfterUpdate | roofVisualizer.js:209-217 | Popping then growing. `AfterUpdateLength`, `AfterUpdateAligned`, `AfterUpdateKeepsBottom` and `AfterUpdateIdempotent` give its meaning. |
| Visualizer.GrownSpec | roofVisualizer.js:215-217 | Growing appends panels at the next positions, up to the count or the end of the grid, and leaves the existing panels in place. |
| Visualizer.AfterUpdateLength | roofVisualizer.js:205-219 | After an update there are at most `count` panels. There are exactly min(count, positions) whenever there were no more panels than positions, aligned or not (as after a reload that leaves a larger grid). |
| Visualizer.AfterUpdateAligned | roofVisualizer.js:209-217 | If panel i stood at position i for every i before an update, it still does after. |
| Visualizer.AfterUpdateKeepsBottom | roofVisualizer.js:209-217 | The panels behave as a stack: the panels that survive an update are the old bottom of the stack, unchanged. |
| Visualizer.AfterUpdateIdempotent | roofVisualizer.js:205-219 | Repeating an update with the same count changes nothing. |
| Visualizer.RoofVisualizer.constructor | roofVisualizer.js:4-18 | It starts with no panels, no positions, zero counts, no roof and no data. |
| Visualizer.RoofVisualizer.LoadSolarData | roofVisualizer.js:120-141 | The data is always recorded. Without a solar potential nothing else changes. Otherwise the cap becomes `MaxPanelsOf` (positive), the roof box is built and the grid is laid out; panels and the current count are kept. |
| Visualizer.RoofVisualizer.CreateRoofGeometry | roofVisualizer.js:143-158 | Only the roof box is replaced. |
| Visualizer.RoofVisualizer.SetupPanelGrid | roofVisualizer.js:174-203 | Without a roof nothing changes. Otherwise the positions become the capped grid, even though the `break` leaves only the inner loop. Nothing else changes. |
| Visualizer.RoofVisualizer.UpdatePanelCount | roofVisualizer.js:205-221 | It does nothing when `count` is the current count. Otherwise the panels become `AfterUpdate` (pop down to `count`, then add at the next positions) and the current count becomes `count`. |
| Visualizer.RoofVisualizer.AddPanel | roofVisualizer.js:223-247 | It does nothing when there is no position `index`. Otherwise a panel at that position is pushed on the stack. |
| Visualizer.RoofVisualizer.ClearAllPanels | roofVisualizer.js:270-273 | Afterwards there are no panels and the current count is 0. |
| Visualizer.RoofVisualizer.SetMaxPanels | roofVisualizer.js:275-278 | It updates to `maxPanels`. When there were no more panels than positions, it then shows min(maxPanels, positions) panels. Aligned panels stay aligned. |

## Left out

- `server.js` and `vite.config.js`: network relay, static serving and build configuration, with no logic to prove.
- The raster/GeoTIFF decoding behind `/api/solar/image-proxy`: no shown file implements it.
- Google Maps loading, geocoding, `fetch` calls, DOM updates, slider values and text formatting: browser I/O. The slider resets in `loadSolarData`, `clearAllPanels` and `setMaxPanels` are among them.
- Canvas drawing: rounded rectangles, grid lines inside a panel (`drawPanelRectangle`), count overlays and the satellite-style background. Only the positions, sizes, counts and colours these draw from are modelled. `drawPanelRectangle` ignores a panel's orientation, so the model drops that field.
- `drawBasicPanelsOnLayer`: the fallback layout. The model records only when it is used (`ConfigPlan.BasicLayout`).
- `updateEnergyCalculations` in `roofVisualizer.js`: it only formats display text.
- The three.js scene, renderer, lights, camera controls, animation loop and resize handling. A panel mesh is modelled as the position it was placed at, and its colour is not modelled.
- IEEE-754 rounding and signed zero: arithmetic is exact over `real`, and a zero is +0. Infinities and NaN are kept only where a zero span can produce them.
- Missing azimuth, pitch or coordinates, which make JavaScript compute NaN: these fields are required numbers in the model. For the same reason, a comparator returning NaN during the segment sort is not modelled.
- `Math.cos`, `Math.log2` and `Math.random` are not computed: they are arguments of the model, and only bounds that hold for any value are proved. The same holds for `Math.sqrt` in `createRoofGeometry` (`RoofBoxFor`). The ceiling square root of a whole number in `drawPanelsOnSegment` is computed exactly (`CeilSqrt`).
- GeoCanvas.PanelsInsideCanvas: assumes `window.buildingBounds` is the box of the panels being drawn. This fails when `drawRealBuildingWithSatellite` returns early (script.js:562-565): the bounds of an earlier building, stored at script.js:577, stay in place. The model does not keep that global state.
- `calculateOptimalZoom`'s `width` and `height` arguments: the source ignores them.
- GeoCanvas.PanelSizeOnCanvas: states the [8, 40] and [6, 30] clamps only for results that are not NaN. A zero span with a zero canvas side makes the source compute NaN, and `Math.max`/`Math.min` pass NaN through (`PanelSizeNaNWhenDegenerate`).
- Visualizer.RoofBoxFor: measures the box as the absolute size of `sqrt(area)`. A negative area, which makes `Math.sqrt` return NaN in the source, is not modelled.
- Visualizer.RoofVisualizer.constructor: `panelPositions` starts as an empty list. In the source it is undefined until the first `setupPanelGrid`, so an earlier `updatePanelCount` with a positive count throws.
- `loadSolarData` is `async` in the source but awaits nothing, and its `lat`/`lng` arguments are unused. It is modelled as an ordinary method.
- The top-N sort works on a copy (`[...panels]`), so the input is never reordered. This holds by construction, because `TopPanels` is a function on an immutable sequence.

## Findings

| source | as written | input that shows it | evidently intended | confidence | as-written member | corrected member |
|---|---|---|---|---|---|---|
| script.js:1082-1092 | Once a configuration below the slider value is taken as `bestConfig`, `configPanelCount < bestConfig.panelsCount` is false for every later configuration that reaches the slider value, so none of them is chosen | configurations of 5 and 12 panels, 10 selected: the 5-panel configuration is chosen | the smallest configuration that reaches the slider value, otherwise the largest one below it | not executed | PanelPlacement.AsWrittenMissesFittingConfig | PanelPlacement.BestConfigClosest |
| script.js:1087-1090 | When no configuration reaches the slider value, `bestConfig` is set only while it is `null`, so it stays the first configuration with a positive count although `closestCount` keeps growing | configurations of 3 and 7 panels, 10 selected: the 3-panel configuration is chosen | the largest configuration below the slider value | not executed | PanelPlacement.AsWrittenKeepsFirstShort | PanelPlacement.BestConfigClosest |

`drawPanelsFromApiConfigs` (script.js:1069) has no caller in `script.js`, so
both discrepancies are latent in the code shown.
