/** The records the solar-data provider returns, as far as the modelled code reads
    them.  A field the code defaults with `|| 0` or tests for presence is an `Option`. */
module SolarData {
  import opened Options

  datatype LatLng = LatLng(latitude: real, longitude: real)

  /** One entry of `solarPotential.solarPanels`.  The `orientation` field is passed
      to the drawing routine, which ignores it, so it is not part of the model. */
  datatype SolarPanel = SolarPanel(center: LatLng, yearlyEnergyDcKwh: Option<real>)

  /** `panel.yearlyEnergyDcKwh || 0`: a missing (or zero) energy counts as 0. */
  function Energy(p: SolarPanel): (e: real) {
    p.yearlyEnergyDcKwh.GetOr(0.0)
  }

  /** One entry of a configuration's `roofSegmentSummaries`.  A missing
      `panelsCount` makes the source compute with NaN, which it then skips exactly
      like a count of 0; it is modelled as 0. */
  datatype RoofSegment = RoofSegment(
    panelsCount: int,
    azimuthDegrees: real,
    pitchDegrees: real,
    segmentIndex: Option<nat>)

  /** One entry of `solarPanelConfigs`. */
  datatype PanelConfig = PanelConfig(
    panelsCount: Option<nat>,
    roofSegmentSummaries: Option<seq<RoofSegment>>)
}
