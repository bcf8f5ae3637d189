/** Geo-to-canvas geometry of script.js: the bounding box around the panels'
    centres, the linear map from latitude/longitude to canvas pixels, the on-screen
    size of a panel and the zoom level of the satellite image. */
module GeoCanvas {
  import opened Options
  import opened JsNumber
  import opened SolarData
  import opened RealFacts

  /** The padded box `calculatePanelBounds` returns. */
  datatype GeoBounds = GeoBounds(
    minLat: real, maxLat: real,
    minLng: real, maxLng: real,
    centerLat: real, centerLng: real)

  /** `{ x, y }` on the canvas; a coordinate is non-finite when a span of the
      bounds is zero. */
  datatype CanvasPoint = CanvasPoint(x: Num, y: Num)

  /** `{ width, height }` of a panel in pixels. */
  datatype PanelSize = PanelSize(width: Num, height: Num)

  /** The padding floor, in degrees. */
  const MinPadding: real := 0.0001
  /** Metres in one degree of latitude (and of longitude at the equator). */
  const MetersPerDegree: real := 111000.0

  // ---------------------------------------------------------------- bounds

  function Lats(panels: seq<SolarPanel>): (r: seq<real>)
    ensures |r| == |panels|
  {
    seq(|panels|, k requires 0 <= k < |panels| => panels[k].center.latitude)
  }

  function Lngs(panels: seq<SolarPanel>): (r: seq<real>)
    ensures |r| == |panels|
  {
    seq(|panels|, k requires 0 <= k < |panels| => panels[k].center.longitude)
  }

  /** The smallest of the first `n` elements, found the way the loop finds it:
      the first element, then `if (x < m) m = x` for each further one. */
  function RunningMin(s: seq<real>, n: nat): (m: real)
    requires 1 <= n <= |s|
  {
    if n == 1 then s[0]
    else
      var m' := RunningMin(s, n - 1);
      if s[n - 1] < m' then s[n - 1] else m'
  }

  /** The largest of the first `n` elements, found by `if (x > m) m = x`. */
  function RunningMax(s: seq<real>, n: nat): (m: real)
    requires 1 <= n <= |s|
  {
    if n == 1 then s[0]
    else
      var m' := RunningMax(s, n - 1);
      if s[n - 1] > m' then s[n - 1] else m'
  }

  /** The running minimum (maximum) is one of the first `n` elements and no
      larger (smaller) than any of them. */
  lemma {:induction false} RunningExtremes(s: seq<real>, n: nat)
    requires 1 <= n <= |s|
    ensures (exists k :: 0 <= k < n && RunningMin(s, n) == s[k])
      && forall k :: 0 <= k < n ==> RunningMin(s, n) <= s[k]
    ensures (exists k :: 0 <= k < n && RunningMax(s, n) == s[k])
      && forall k :: 0 <= k < n ==> s[k] <= RunningMax(s, n)
  {
    if n > 1 {
      RunningExtremes(s, n - 1);
      var lo, hi := RunningMin(s, n - 1), RunningMax(s, n - 1);
      if s[n - 1] < lo {
        assert RunningMin(s, n) == s[n - 1];
      } else {
        var k :| 0 <= k < n - 1 && lo == s[k];
        assert RunningMin(s, n) == s[k];
      }
      if s[n - 1] > hi {
        assert RunningMax(s, n) == s[n - 1];
      } else {
        var k :| 0 <= k < n - 1 && hi == s[k];
        assert RunningMax(s, n) == s[k];
      }
    } else {
      assert RunningMin(s, n) == s[0] == RunningMax(s, n);
    }
  }

  /** `Math.max(diff * 0.5, 0.0001)` */
  function Padding(diff: real): (p: real)
    ensures p >= MinPadding && p >= diff * 0.5
    ensures p == MinPadding || p == diff * 0.5
  {
    if diff * 0.5 > MinPadding then diff * 0.5 else MinPadding
  }

  /** The box around the raw extremes, each axis padded by `Padding` of its span;
      the centre is the midpoint of the raw extremes. */
  function Padded(minLat: real, maxLat: real, minLng: real, maxLng: real): (b: GeoBounds) {
    var latPad := Padding(maxLat - minLat);
    var lngPad := Padding(maxLng - minLng);
    GeoBounds(minLat - latPad, maxLat + latPad, minLng - lngPad, maxLng + lngPad,
              (minLat + maxLat) / 2.0, (minLng + maxLng) / 2.0)
  }

  /** What `calculatePanelBounds` returns: `null` for no panels. */
  function BoundsOf(panels: seq<SolarPanel>): (r: Option<GeoBounds>)
    ensures r.None? <==> |panels| == 0
  {
    if |panels| == 0 then None
    else
      var lats, lngs := Lats(panels), Lngs(panels);
      Some(Padded(RunningMin(lats, |panels|), RunningMax(lats, |panels|),
                  RunningMin(lngs, |panels|), RunningMax(lngs, |panels|)))
  }

  /** `calculatePanelBounds`: one scan over the panels keeps the running extremes. */
  method PanelBounds(panels: seq<SolarPanel>) returns (r: Option<GeoBounds>)
    ensures r == BoundsOf(panels)
  {
    if |panels| == 0 {
      return None;
    }
    var minLat, maxLat := panels[0].center.latitude, panels[0].center.latitude;
    var minLng, maxLng := panels[0].center.longitude, panels[0].center.longitude;
    ghost var lats, lngs := Lats(panels), Lngs(panels);
    var i := 0;
    ghost var seen := 1;
    while i < |panels|
      invariant 0 <= i <= |panels| && seen == (if i == 0 then 1 else i)
      invariant minLat == RunningMin(lats, seen)
      invariant maxLat == RunningMax(lats, seen)
      invariant minLng == RunningMin(lngs, seen)
      invariant maxLng == RunningMax(lngs, seen)
    {
      var lat, lng := panels[i].center.latitude, panels[i].center.longitude;
      assert lat == lats[i] && lng == lngs[i];
      if lat < minLat { minLat := lat; }
      if lat > maxLat { maxLat := lat; }
      if lng < minLng { minLng := lng; }
      if lng > maxLng { maxLng := lng; }
      i := i + 1;
      seen := i;
    }
    r := Some(Padded(minLat, maxLat, minLng, maxLng));
  }

  /** Every panel centre lies strictly inside the box (the padding is at least
      0.0001 degrees on each side), and the centre is the midpoint both of the raw
      extremes and of the padded box. */
  lemma {:induction false} BoundsContainPanels(panels: seq<SolarPanel>)
    requires |panels| > 0
    ensures var b := BoundsOf(panels).value;
      && (forall p :: p in panels ==>
            b.minLat < p.center.latitude < b.maxLat && b.minLng < p.center.longitude < b.maxLng)
      && b.maxLat - b.minLat >= 2.0 * MinPadding
      && b.maxLng - b.minLng >= 2.0 * MinPadding
      && b.centerLat == (RunningMin(Lats(panels), |panels|) + RunningMax(Lats(panels), |panels|)) / 2.0
      && b.centerLng == (RunningMin(Lngs(panels), |panels|) + RunningMax(Lngs(panels), |panels|)) / 2.0
      && b.centerLat == (b.minLat + b.maxLat) / 2.0
      && b.centerLng == (b.minLng + b.maxLng) / 2.0
  {
    var lats, lngs, n := Lats(panels), Lngs(panels), |panels|;
    RunningExtremes(lats, n);
    RunningExtremes(lngs, n);
    forall p | p in panels
      ensures RunningMin(lats, n) <= p.center.latitude <= RunningMax(lats, n)
      ensures RunningMin(lngs, n) <= p.center.longitude <= RunningMax(lngs, n)
    {
      var k :| 0 <= k < n && panels[k] == p;
      assert lats[k] == p.center.latitude && lngs[k] == p.center.longitude;
    }
    assert RunningMin(lats, n) <= lats[0] <= RunningMax(lats, n);
    assert RunningMin(lngs, n) <= lngs[0] <= RunningMax(lngs, n);
  }

  /** Two sequences with the same elements have the same smallest and largest one. */
  lemma {:induction false} ExtremesBySet(s: seq<real>, t: seq<real>)
    requires |s| > 0 && |t| > 0
    requires forall x :: x in s <==> x in t
    ensures RunningMin(s, |s|) == RunningMin(t, |t|)
    ensures RunningMax(s, |s|) == RunningMax(t, |t|)
  {
    RunningExtremes(s, |s|);
    RunningExtremes(t, |t|);
    var a1 :| 0 <= a1 < |s| && RunningMin(s, |s|) == s[a1];
    assert s[a1] in t;
    var b1 :| 0 <= b1 < |t| && RunningMin(t, |t|) == t[b1];
    assert t[b1] in s;
    var a2 :| 0 <= a2 < |s| && RunningMax(s, |s|) == s[a2];
    assert s[a2] in t;
    var b2 :| 0 <= b2 < |t| && RunningMax(t, |t|) == t[b2];
    assert t[b2] in s;
  }

  /** The latitudes (longitudes) of a list of panels are those of its multiset. */
  lemma LatsOfPermutation(p: seq<SolarPanel>, q: seq<SolarPanel>)
    requires multiset(p) == multiset(q)
    ensures forall x :: x in Lats(p) <==> x in Lats(q)
    ensures forall x :: x in Lngs(p) <==> x in Lngs(q)
  {
    forall x | x in Lats(p) ensures x in Lats(q) {
      var k :| 0 <= k < |p| && Lats(p)[k] == x;
      assert p[k] in multiset(q);
      var j :| 0 <= j < |q| && q[j] == p[k];
      assert Lats(q)[j] == x;
    }
    forall x | x in Lats(q) ensures x in Lats(p) {
      var k :| 0 <= k < |q| && Lats(q)[k] == x;
      assert q[k] in multiset(p);
      var j :| 0 <= j < |p| && p[j] == q[k];
      assert Lats(p)[j] == x;
    }
    forall x | x in Lngs(p) ensures x in Lngs(q) {
      var k :| 0 <= k < |p| && Lngs(p)[k] == x;
      assert p[k] in multiset(q);
      var j :| 0 <= j < |q| && q[j] == p[k];
      assert Lngs(q)[j] == x;
    }
    forall x | x in Lngs(q) ensures x in Lngs(p) {
      var k :| 0 <= k < |q| && Lngs(q)[k] == x;
      assert q[k] in multiset(p);
      var j :| 0 <= j < |p| && p[j] == q[k];
      assert Lngs(p)[j] == x;
    }
  }

  /** The box does not depend on the order of the panels. */
  lemma BoundsOrderIndependent(p: seq<SolarPanel>, q: seq<SolarPanel>)
    requires multiset(p) == multiset(q)
    ensures BoundsOf(p) == BoundsOf(q)
  {
    assert |p| == |multiset(p)| == |multiset(q)| == |q|;
    if |p| > 0 {
      LatsOfPermutation(p, q);
      ExtremesBySet(Lats(p), Lats(q));
      ExtremesBySet(Lngs(p), Lngs(q));
    }
  }

  // ---------------------------------------------------------------- lat/lng -> canvas

  /** `a / d` for `0 <= a <= d` lies in [0, 1], strictly inside when `a` does. */
  lemma Fraction(a: real, d: real)
    requires 0.0 < d && 0.0 <= a <= d
    ensures 0.0 <= a / d <= 1.0
    ensures 0.0 < a < d ==> 0.0 < a / d < 1.0
  {
    DivSelf(d);
    DivLe(0.0, a, d);
    DivLe(a, d, d);
    if 0.0 < a < d {
      DivLt(0.0, a, d);
      DivLt(a, d, d);
    }
  }

  /** One axis of `latLngToCanvasCoords`: the offset from the edge as a fraction
      of the span (`normalizedX`), times the canvas size.  It is finite exactly
      when the span is non-zero. */
  function AxisToCanvas(offset: real, span: real, size: real): (r: Num)
    ensures r.Fin? <==> span != 0.0
  {
    Mul(Div(Fin(offset), Fin(span)), Fin(size))
  }

  /** `latLngToCanvasCoords`: a linear map, longitude to the right, latitude
      upwards (the y axis is flipped); `null` without bounds.  A coordinate is finite
      exactly when the span of its axis is non-zero. */
  function LatLngToCanvas(lat: real, lng: real, bounds: Option<GeoBounds>, width: real, height: real)
    : (r: Option<CanvasPoint>)
    ensures r.None? <==> bounds.None?
    ensures r.Some? ==> (r.value.x.Fin? <==> bounds.value.maxLng != bounds.value.minLng)
    ensures r.Some? ==> (r.value.y.Fin? <==> bounds.value.maxLat != bounds.value.minLat)
  {
    match bounds
    case None => None
    case Some(b) =>
      Some(CanvasPoint(AxisToCanvas(lng - b.minLng, b.maxLng - b.minLng, width),
                       AxisToCanvas(b.maxLat - lat, b.maxLat - b.minLat, height)))
  }

  /** The inverse map, from canvas pixels back to latitude/longitude. */
  function CanvasToLatLng(x: real, y: real, b: GeoBounds, width: real, height: real): (p: LatLng)
    requires width != 0.0 && height != 0.0
  {
    LatLng(b.maxLat - y / height * (b.maxLat - b.minLat),
           b.minLng + x / width * (b.maxLng - b.minLng))
  }

  /** With a non-zero span the axis value is the real fraction times the size. */
  lemma AxisExact(offset: real, span: real, size: real)
    requires span != 0.0
    ensures AxisToCanvas(offset, span, size) == Fin(offset / span * size)
  {
  }

  /** One axis of the canvas: the near edge maps to 0 and the far edge to the
      full size. */
  lemma AxisEnds(edge: real, span: real, size: real)
    requires span != 0.0
    ensures AxisToCanvas(edge - edge, span, size) == Fin(0.0)
    ensures AxisToCanvas(span, span, size) == Fin(size)
  {
    AxisExact(edge - edge, span, size);
    AxisExact(span, span, size);
    DivSelf(span);
  }

  /** One axis of the canvas: an offset within a positive span maps into
      [0, size]. */
  lemma AxisOnCanvas(offset: real, span: real, size: real)
    requires 0.0 < span && 0.0 < size && 0.0 <= offset <= span
    ensures AxisToCanvas(offset, span, size).Fin?
    ensures 0.0 <= AxisToCanvas(offset, span, size).v <= size
  {
    AxisExact(offset, span, size);
    Fraction(offset, span);
    MulLe(0.0, offset / span, size);
    MulLe(offset / span, 1.0, size);
  }

  /** One axis of the canvas: an offset strictly inside the span maps strictly
      inside (0, size). */
  lemma AxisInsideCanvas(offset: real, span: real, size: real)
    requires 0.0 < size && 0.0 < offset < span
    ensures AxisToCanvas(offset, span, size).Fin?
    ensures 0.0 < AxisToCanvas(offset, span, size).v < size
  {
    AxisExact(offset, span, size);
    Fraction(offset, span);
    MulLt(0.0, offset / span, size);
    MulLt(offset / span, 1.0, size);
  }

  /** One axis of the canvas: a larger offset maps further along. */
  lemma AxisMonotone(offset1: real, offset2: real, span: real, size: real)
    requires 0.0 < span && 0.0 < size && offset1 < offset2
    ensures AxisToCanvas(offset1, span, size).v < AxisToCanvas(offset2, span, size).v
  {
    AxisExact(offset1, span, size);
    AxisExact(offset2, span, size);
    DivLt(offset1, offset2, span);
    MulLt(offset1 / span, offset2 / span, size);
  }

  /** One axis of the canvas and back: scaling by size/span and then by
      span/size restores the offset. */
  lemma AxisRoundTrip(offset: real, span: real, size: real)
    requires span != 0.0 && size != 0.0
    ensures AxisToCanvas(offset, span, size).v / size * span == offset
  {
    AxisExact(offset, span, size);
    MulDiv(offset / span, size);
    DivMulCancel(offset, span);
  }

  /** The north-west corner maps to (0, 0) and the south-east corner to
      (width, height). */
  lemma CanvasCorners(b: GeoBounds, width: real, height: real)
    requires b.maxLat != b.minLat && b.maxLng != b.minLng
    ensures LatLngToCanvas(b.maxLat, b.minLng, Some(b), width, height) == Some(CanvasPoint(Fin(0.0), Fin(0.0)))
    ensures LatLngToCanvas(b.minLat, b.maxLng, Some(b), width, height) == Some(CanvasPoint(Fin(width), Fin(height)))
  {
    AxisEnds(b.minLng, b.maxLng - b.minLng, width);
    AxisEnds(b.maxLat, b.maxLat - b.minLat, height);
  }

  /** A point inside the bounds lands on the canvas. */
  lemma CanvasInside(b: GeoBounds, width: real, height: real, lat: real, lng: real)
    requires b.minLat < b.maxLat && b.minLng < b.maxLng
    requires 0.0 < width && 0.0 < height
    requires b.minLat <= lat <= b.maxLat && b.minLng <= lng <= b.maxLng
    ensures var p := LatLngToCanvas(lat, lng, Some(b), width, height).value;
      p.x.Fin? && p.y.Fin? && 0.0 <= p.x.v <= width && 0.0 <= p.y.v <= height
  {
    AxisOnCanvas(lng - b.minLng, b.maxLng - b.minLng, width);
    AxisOnCanvas(b.maxLat - lat, b.maxLat - b.minLat, height);
  }

  /** x grows with longitude and y falls as latitude grows. */
  lemma CanvasMonotone(b: GeoBounds, width: real, height: real,
                       lat1: real, lng1: real, lat2: real, lng2: real)
    requires b.minLat < b.maxLat && b.minLng < b.maxLng
    requires 0.0 < width && 0.0 < height
    ensures var p := LatLngToCanvas(lat1, lng1, Some(b), width, height).value;
      var q := LatLngToCanvas(lat2, lng2, Some(b), width, height).value;
      && (lng1 < lng2 ==> p.x.v < q.x.v)
      && (lat1 < lat2 ==> p.y.v > q.y.v)
  {
    if lng1 < lng2 {
      AxisMonotone(lng1 - b.minLng, lng2 - b.minLng, b.maxLng - b.minLng, width);
    }
    if lat1 < lat2 {
      AxisMonotone(b.maxLat - lat2, b.maxLat - lat1, b.maxLat - b.minLat, height);
    }
  }

  /** Mapping to the canvas and back gives the original latitude/longitude. */
  lemma CanvasRoundTrip(b: GeoBounds, width: real, height: real, lat: real, lng: real)
    requires b.maxLat != b.minLat && b.maxLng != b.minLng
    requires width != 0.0 && height != 0.0
    ensures var p := LatLngToCanvas(lat, lng, Some(b), width, height).value;
      CanvasToLatLng(p.x.v, p.y.v, b, width, height) == LatLng(lat, lng)
  {
    AxisRoundTrip(lng - b.minLng, b.maxLng - b.minLng, width);
    AxisRoundTrip(b.maxLat - lat, b.maxLat - b.minLat, height);
  }

  /** A point strictly inside the bounds lands strictly inside the canvas. */
  lemma StrictlyInsideCanvas(b: GeoBounds, width: real, height: real, lat: real, lng: real)
    requires b.minLat < lat < b.maxLat && b.minLng < lng < b.maxLng
    requires 0.0 < width && 0.0 < height
    ensures var c := LatLngToCanvas(lat, lng, Some(b), width, height).value;
      c.x.Fin? && c.y.Fin? && 0.0 < c.x.v < width && 0.0 < c.y.v < height
  {
    AxisInsideCanvas(lng - b.minLng, b.maxLng - b.minLng, width);
    AxisInsideCanvas(b.maxLat - lat, b.maxLat - b.minLat, height);
  }

  /** Every panel drawn against the box of all panels lands strictly inside a
      canvas of positive size. */
  lemma PanelsInsideCanvas(panels: seq<SolarPanel>, width: real, height: real)
    requires |panels| > 0
    requires 0.0 < width && 0.0 < height
    ensures forall p :: p in panels ==>
      var c := LatLngToCanvas(p.center.latitude, p.center.longitude, BoundsOf(panels), width, height).value;
      c.x.Fin? && c.y.Fin? && 0.0 < c.x.v < width && 0.0 < c.y.v < height
  {
    BoundsContainPanels(panels);
    var b := BoundsOf(panels).value;
    forall p | p in panels
      ensures var c := LatLngToCanvas(p.center.latitude, p.center.longitude, Some(b), width, height).value;
        c.x.Fin? && c.y.Fin? && 0.0 < c.x.v < width && 0.0 < c.y.v < height
    {
      StrictlyInsideCanvas(b, width, height, p.center.latitude, p.center.longitude);
    }
  }

  // ---------------------------------------------------------------- panel size

  /** `calculatePanelSizeOnCanvas`.  `cosCenter` stands for
      `Math.cos(bounds.centerLat * Math.PI / 180)`, which is not modelled.  The
      width is clamped to [8, 40] pixels and the height to [6, 30]; only a NaN
      product escapes the clamp, because `Math.min` and `Math.max` propagate NaN. */
  function PanelSizeOnCanvas(b: GeoBounds, canvasWidth: real, canvasHeight: real,
                             panelWidthMeters: real, panelHeightMeters: real, cosCenter: real)
    : (r: PanelSize)
    ensures r.width.NaN? || (r.width.Fin? && 8.0 <= r.width.v <= 40.0)
    ensures r.height.NaN? || (r.height.Fin? && 6.0 <= r.height.v <= 30.0)
  {
    var latDiff := b.maxLat - b.minLat;
    var lngDiff := b.maxLng - b.minLng;
    var metersPerDegreeLng := MetersPerDegree * cosCenter;
    var widthPixels := Mul(Div(Fin(panelWidthMeters), Fin(metersPerDegreeLng)),
                           Div(Fin(canvasWidth), Fin(lngDiff)));
    var heightPixels := Mul(Div(Fin(panelHeightMeters), Fin(MetersPerDegree)),
                            Div(Fin(canvasHeight), Fin(latDiff)));
    var scale := Min(Fin(canvasWidth / 400.0), Fin(canvasHeight / 300.0));
    PanelSize(Clamp(8.0, 40.0, Mul(widthPixels, scale)), Clamp(6.0, 30.0, Mul(heightPixels, scale)))
  }

  /** With non-zero spans and a non-zero cosine neither size is NaN, so both lie
      within their clamps. */
  lemma PanelSizeFinite(b: GeoBounds, canvasWidth: real, canvasHeight: real,
                        panelWidthMeters: real, panelHeightMeters: real, cosCenter: real)
    requires b.maxLat != b.minLat && b.maxLng != b.minLng && cosCenter != 0.0
    ensures var s := PanelSizeOnCanvas(b, canvasWidth, canvasHeight, panelWidthMeters, panelHeightMeters, cosCenter);
      && s.width.Fin? && 8.0 <= s.width.v <= 40.0
      && s.height.Fin? && 6.0 <= s.height.v <= 30.0
  {
    MulNonZero(MetersPerDegree, cosCenter);
  }

  /** The clamp does not hold for every input: a zero longitude span over a
      canvas of zero height multiplies Infinity by 0, and the width is NaN. */
  lemma PanelSizeNaNWhenDegenerate()
    ensures PanelSizeOnCanvas(GeoBounds(10.0, 11.0, 20.0, 20.0, 10.5, 20.0), 100.0, 0.0, 1.65, 0.99, 0.9).width.NaN?
  {
  }

  // ---------------------------------------------------------------- zoom

  /** `Math.floor(Math.log2(360 / diff)) - 1` for one axis; `log2` stands for
      `Math.log2`, which is not modelled. */
  function AxisZoom(diff: real, log2: Num -> Num): (z: Num)
    ensures z.NaN? <==> log2(Div(Fin(360.0), Fin(diff))).NaN?
    ensures z.Fin? ==> z.v == z.v.Floor as real
  {
    var f := Floor(log2(Div(Fin(360.0), Fin(diff))));
    assert f.Fin? ==> AddReal(f, -1.0) == Fin((f.v.Floor - 1) as real);
    AddReal(f, -1.0)
  }

  /** `calculateOptimalZoom`: the smaller axis zoom, clamped to [15, 21].  Whatever
      `log2` returns, the result is a whole zoom level in [15, 21] unless it is NaN,
      and it is NaN exactly when an axis zoom is. */
  function OptimalZoom(b: GeoBounds, log2: Num -> Num): (r: Num)
    ensures r.NaN? <==> AxisZoom(b.maxLat - b.minLat, log2).NaN? || AxisZoom(b.maxLng - b.minLng, log2).NaN?
    ensures !r.NaN? ==> r.Fin? && 15.0 <= r.v <= 21.0 && r.v == r.v.Floor as real
  {
    var latZoom := AxisZoom(b.maxLat - b.minLat, log2);
    var lngZoom := AxisZoom(b.maxLng - b.minLng, log2);
    Clamp(15.0, 21.0, Min(latZoom, lngZoom))
  }

  /** When both axis zooms are finite, the result is the smaller one clamped into
      [15, 21]. */
  lemma OptimalZoomFinite(b: GeoBounds, log2: Num -> Num)
    requires AxisZoom(b.maxLat - b.minLat, log2).Fin? && AxisZoom(b.maxLng - b.minLng, log2).Fin?
    ensures var z1, z2 := AxisZoom(b.maxLat - b.minLat, log2).v, AxisZoom(b.maxLng - b.minLng, log2).v;
      OptimalZoom(b, log2) == Fin(ClampReal(15.0, 21.0, if z1 <= z2 then z1 else z2))
  {
  }
}
