/**
 * The reading that the acquisition task publishes, the alert test every
 * consumer applies to it, and the percentage the display shows.
 */
module Sensor {

  /** The firmware's unsigned integer widths. */
  type uint8 = x: int | 0 <= x < 0x100
  type uint16 = x: int | 0 <= x < 0x1_0000

  /** Full scale of the 12-bit ADC. */
  const ADC_MAX: int := 4095

  /** Alert thresholds: 70% and 80% of full scale. */
  const WATER_LIMIT: int := 2867
  const RAIN_LIMIT: int := 3276

  /** One acquisition: water level (ADC channel 0) and rain volume (ADC channel 1). */
  datatype Sample = Sample(waterLevel: uint16, rainVolume: uint16)

  /** Both channels hold a value the 12-bit converter can produce. */
  predicate InAdcRange(s: Sample)
  {
    s.waterLevel <= ADC_MAX && s.rainVolume <= ADC_MAX
  }

  /** The alert test, written out identically by each of the four consumers. */
  predicate IsAlert(s: Sample)
  {
    s.waterLevel >= WATER_LIMIT || s.rainVolume >= RAIN_LIMIT
  }

  /**
   * `(v * 100) / 4095` stored into a `uint8_t`: the quotient is truncated to
   * eight bits, which never bites for a 12-bit reading.
   */
  function Percent(v: uint16): (p: uint8)
    ensures v <= ADC_MAX ==> p <= 100
    ensures v <= ADC_MAX ==> p * ADC_MAX <= v * 100 < (p + 1) * ADC_MAX
  {
    (v * 100 / ADC_MAX) % 0x100
  }

  lemma PercentEnds()
    ensures Percent(0) == 0 && Percent(ADC_MAX) == 100
  {
  }

  lemma PercentMonotone(a: uint16, b: uint16)
    requires a <= b <= ADC_MAX
    ensures Percent(a) <= Percent(b)
  {
  }

  /** The water threshold is the first reading the display shows as 70%. */
  lemma WaterLimitIsSeventyPercent(v: uint16)
    requires v <= ADC_MAX
    ensures v >= WATER_LIMIT <==> Percent(v) >= 70
  {
  }

  /** The rain threshold is the first reading the display shows as 80%. */
  lemma RainLimitIsEightyPercent(v: uint16)
    requires v <= ADC_MAX
    ensures v >= RAIN_LIMIT <==> Percent(v) >= 80
  {
  }

  /** A station alerts exactly when a channel reaches 70% (water) or 80% (rain) of full scale. */
  lemma AlertIsPercentThreshold(s: Sample)
    requires InAdcRange(s)
    ensures IsAlert(s) <==> Percent(s.waterLevel) >= 70 || Percent(s.rainVolume) >= 80
  {
    WaterLimitIsSeventyPercent(s.waterLevel);
    RainLimitIsEightyPercent(s.rainVolume);
  }

  lemma AlertBoundaries()
    ensures IsAlert(Sample(WATER_LIMIT, 0)) && !IsAlert(Sample(WATER_LIMIT - 1, 0))
    ensures IsAlert(Sample(0, RAIN_LIMIT)) && !IsAlert(Sample(0, RAIN_LIMIT - 1))
  {
  }

  /** Raising either reading never clears an alert. */
  lemma AlertMonotone(s: Sample, t: Sample)
    requires IsAlert(s)
    requires s.waterLevel <= t.waterLevel && s.rainVolume <= t.rainVolume
    ensures IsAlert(t)
  {
  }
}
