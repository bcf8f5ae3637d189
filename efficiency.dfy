/** The orientation heuristic of script.js and the colour tiers drawn from it. */
module Efficiency {
  import opened RealFacts

  /** Due south, in degrees of azimuth. */
  const OptimalAzimuth: real := 180.0
  /** The best roof pitch, in degrees. */
  const OptimalPitch: real := 30.0

  /** `Math.max(0.6, 1 - (diff / range) * 0.4)`: one penalty term. */
  function Term(diff: real, range: real): (t: real)
    requires range > 0.0
    ensures 0.6 <= t <= 1.0 || diff < 0.0
  {
    var raw := 1.0 - (diff / range) * 0.4;
    if 0.6 > raw then 0.6 else raw
  }

  /** `calculatePanelEfficiency`: the mean of an azimuth term (deviation from due
      south over 180 degrees) and a pitch term (deviation from 30 degrees over 60
      degrees), each floored at 0.6.  The result is always in [0.6, 1.0]. */
  function PanelEfficiency(azimuth: real, pitch: real): (e: real)
    ensures 0.6 <= e <= 1.0
  {
    var azimuthEfficiency := Term(Abs(azimuth - OptimalAzimuth), 180.0);
    var pitchEfficiency := Term(Abs(pitch - OptimalPitch), 60.0);
    (azimuthEfficiency + pitchEfficiency) / 2.0
  }

  /** Due south at 30 degrees is the only orientation with efficiency 1.0, and
      due north at 30 degrees scores 0.8. */
  lemma EfficiencyReference(azimuth: real, pitch: real)
    ensures PanelEfficiency(azimuth, pitch) == 1.0 <==> azimuth == OptimalAzimuth && pitch == OptimalPitch
    ensures PanelEfficiency(0.0, 30.0) == 0.8
  {
    var a, p := Abs(azimuth - OptimalAzimuth), Abs(pitch - OptimalPitch);
    if a > 0.0 {
      assert a / 180.0 > 0.0;
    }
    if p > 0.0 {
      assert p / 60.0 > 0.0;
    }
  }

  /** The heuristic is symmetric in azimuth around due south and in pitch around
      30 degrees. */
  lemma EfficiencySymmetric(da: real, dp: real)
    ensures PanelEfficiency(OptimalAzimuth + da, OptimalPitch + dp)
         == PanelEfficiency(OptimalAzimuth - da, OptimalPitch + dp)
    ensures PanelEfficiency(OptimalAzimuth + da, OptimalPitch + dp)
         == PanelEfficiency(OptimalAzimuth + da, OptimalPitch - dp)
  {
    assert Abs((OptimalAzimuth + da) - OptimalAzimuth) == Abs((OptimalAzimuth - da) - OptimalAzimuth);
    assert Abs((OptimalPitch + dp) - OptimalPitch) == Abs((OptimalPitch - dp) - OptimalPitch);
  }

  /** Turning further from south or further from 30 degrees never raises the
      efficiency. */
  lemma EfficiencyMonotone(a1: real, p1: real, a2: real, p2: real)
    requires Abs(a1 - OptimalAzimuth) <= Abs(a2 - OptimalAzimuth)
    requires Abs(p1 - OptimalPitch) <= Abs(p2 - OptimalPitch)
    ensures PanelEfficiency(a1, p1) >= PanelEfficiency(a2, p2)
  {
    assert Abs(a1 - OptimalAzimuth) / 180.0 <= Abs(a2 - OptimalAzimuth) / 180.0;
    assert Abs(p1 - OptimalPitch) / 60.0 <= Abs(p2 - OptimalPitch) / 60.0;
  }

  // ---------------------------------------------------------------- colours

  /** The five fill colours the panels are drawn in, from worst to best. */
  datatype PanelColor = Gray | Red | Amber | Blue | Emerald {

    /** The CSS colour the source uses. */
    function Hex(): (h: string) {
      match this
      case Gray => "#6b7280"
      case Red => "#ef4444"
      case Amber => "#f59e0b"
      case Blue => "#3b82f6"
      case Emerald => "#10b981"
    }

    /** Position in the order worst (0) to best (4). */
    function Rank(): (r: nat) {
      match this
      case Gray => 0
      case Red => 1
      case Amber => 2
      case Blue => 3
      case Emerald => 4
    }
  }

  /** The colour strings are distinct, so each tier stands for exactly one of
      the CSS colours `getPanelColor` and `getPanelColorByEfficiency` return. */
  lemma HexInjective(c1: PanelColor, c2: PanelColor)
    ensures c1.Hex() == c2.Hex() <==> c1 == c2
  {
  }

  /** `getPanelColor`, for roof segments: tiers above 0.9, 0.8 and 0.7; never gray. */
  function SegmentColor(efficiency: real): (c: PanelColor)
    ensures c != Gray
    ensures c.Rank() > 1 <==> efficiency > 0.7
  {
    if efficiency > 0.9 then Emerald
    else if efficiency > 0.8 then Blue
    else if efficiency > 0.7 then Amber
    else Red
  }

  /** `getPanelColorByEfficiency`, for individual panels: tiers above 0.8, 0.6,
      0.4 and 0.2. */
  function PanelColorByEfficiency(efficiency: real): (c: PanelColor)
    ensures c == Gray <==> efficiency <= 0.2
  {
    if efficiency > 0.8 then Emerald
    else if efficiency > 0.6 then Blue
    else if efficiency > 0.4 then Amber
    else if efficiency > 0.2 then Red
    else Gray
  }

  /** The colour of one panel on the real roof: its yearly energy over 800 kWh,
      capped at 1. */
  function RealPanelColor(yearlyEnergy: real): (c: PanelColor)
    ensures yearlyEnergy > 640.0 <==> c == Emerald
  {
    var efficiency := yearlyEnergy / 800.0;
    PanelColorByEfficiency(if efficiency < 1.0 then efficiency else 1.0)
  }

  /** A higher efficiency never gets a worse colour, under either scale. */
  lemma ColorsMonotone(e1: real, e2: real)
    requires e1 <= e2
    ensures SegmentColor(e1).Rank() <= SegmentColor(e2).Rank()
    ensures PanelColorByEfficiency(e1).Rank() <= PanelColorByEfficiency(e2).Rank()
    ensures RealPanelColor(e1).Rank() <= RealPanelColor(e2).Rank()
  {
    assert e1 / 800.0 <= e2 / 800.0;
  }
}
