/**
 * examples/HistogramExample.py: the same monitor with its lists at module
 * level. Its gauge constants carry swapped names (`minBarHeight = 60`,
 * `maxBarHeight = 3`) but the same values, so the gauge and the blink rule
 * are those of `SysHistogram`. The one behavioural difference is that the
 * temperature read has no `try`: a missing file or unparsable text raises
 * out of `main` before the histogram is touched.
 */
module HistogramExample {
  import opened Wrappers
  import opened SysHistogram

  /** The exception that escapes `main` when the thermal-zone read fails. */
  datatype Failure = TemperatureUnreadable

  /** One call of `main` (one refresh) on the module-level state `m`. */
  method Update(m: Monitor, histogramHeight: real, contents: Option<string>) returns (r: Result<Frame, Failure>)
    requires m.Valid()
    modifies m
    ensures m.Valid()
    ensures TempCelsius(contents).None? ==>
              r == Err(TemperatureUnreadable) && m.data == old(m.data) && m.time == old(m.time) && m.blnk == old(m.blnk)
    ensures TempCelsius(contents).Some? ==>
              && r.Ok? && m.time == old(m.time)
              && m.data == Shifted(old(m.data), histogramHeight)
              && r.value.lines == Segments(m.time, [Clamped(histogramHeight)] + old(m.data))
              && (r.value.warning <==> histogramHeight <= MaxHistHeight)
              && (r.value.gauge, m.blnk) ==
                 ShowGauge(GaugeHeight(TempCelsius(contents).value), TempCelsius(contents).value, old(m.blnk))
  {
    if TempCelsius(contents).None? {
      return Err(TemperatureUnreadable);
    }
    var frame := m.Refresh(histogramHeight, contents);
    return Ok(frame);
  }
}
