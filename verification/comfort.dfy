/** The comfort section's verdict labels: each indicator of the reporting
    year's comfort record compared with its target. */
module Comfort {
  import opened Results
  import opened Records
  import opened Frames

  /** Indoor air quality score at or above which air quality is good. */
  const GoodIaqScore: real := 85.0
  /** Hours outside the thermal comfort band at or below which the year is
      within target. */
  const MaxThermalHours: real := 150.0
  /** Lighting score at or above which daylight and glare control are good. */
  const GoodLightingScore: real := 80.0
  /** Acoustic score at or above which noise protection is good. */
  const GoodAcousticScore: real := 80.0

  /** The label shown under each comfort indicator. */
  datatype ComfortLabels = ComfortLabels(iaq: string, thermal: string, lighting: string, acoustic: string)

  /** The verdict under the indoor air quality score. */
  function IaqLabel(score: real): (l: string)
    ensures l == "Good IAQ" <==> score >= GoodIaqScore
    ensures l == "" <==> score < GoodIaqScore
  {
    if score >= GoodIaqScore then "Good IAQ" else ""
  }

  /** The verdict under the hours spent outside the thermal comfort band. */
  function ThermalLabel(hours: real): (l: string)
    ensures l == "Within comfort targets" <==> hours <= MaxThermalHours
    ensures l == "Above target" <==> hours > MaxThermalHours
  {
    if hours <= MaxThermalHours then "Within comfort targets" else "Above target"
  }

  /** The verdict under the lighting and visual comfort score. */
  function LightingLabel(score: real): (l: string)
    ensures l == "Good daylight & glare control" <==> score >= GoodLightingScore
    ensures l == "" <==> score < GoodLightingScore
  {
    if score >= GoodLightingScore then "Good daylight & glare control" else ""
  }

  /** The verdict under the acoustics and noise protection score. */
  function AcousticLabel(score: real): (l: string)
    ensures l == "Good" <==> score >= GoodAcousticScore
    ensures l == "Consider noise mitigation" <==> score < GoodAcousticScore
  {
    if score >= GoodAcousticScore then "Good" else "Consider noise mitigation"
  }

  /** The labels of one comfort record. */
  function LabelsOf(c: ComfortRecord): ComfortLabels {
    ComfortLabels(IaqLabel(c.iaqScore), ThermalLabel(c.thermalHours),
                  LightingLabel(c.lightingScore), AcousticLabel(c.acousticScore))
  }

  /** Better readings never lose a positive label: a score at least as high
      (or fewer hours outside the comfort band) keeps every good verdict. */
  lemma LabelsAreMonotone(c: ComfortRecord, better: ComfortRecord)
    requires better.iaqScore >= c.iaqScore && better.lightingScore >= c.lightingScore
    requires better.acousticScore >= c.acousticScore && better.thermalHours <= c.thermalHours
    ensures LabelsOf(c).iaq == "Good IAQ" ==> LabelsOf(better).iaq == "Good IAQ"
    ensures LabelsOf(c).thermal == "Within comfort targets" ==> LabelsOf(better).thermal == "Within comfort targets"
    ensures LabelsOf(c).lighting != "" ==> LabelsOf(better).lighting == LabelsOf(c).lighting
    ensures LabelsOf(c).acoustic == "Good" ==> LabelsOf(better).acoustic == "Good"
  {
  }

  /** The comfort section for a reporting year: the labels of the year's
      first comfort record, or None when the year has no comfort record
      (the lookup raises in that case). */
  function ComfortSection(comfort: seq<ComfortRecord>, year: int): (o: Option<ComfortLabels>)
    ensures o.None? <==> forall i :: 0 <= i < |comfort| ==> comfort[i].year != year
    ensures o.Some? ==>
      exists i :: 0 <= i < |comfort| && comfort[i].year == year
               && (forall j :: 0 <= j < i ==> comfort[j].year != year)
               && o.value == LabelsOf(comfort[i])
  {
    match FirstMatch(comfort, (c: ComfortRecord) => c.year == year)
    case None => None
    case Some(i) => Some(LabelsOf(comfort[i]))
  }
}
