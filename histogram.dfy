/**
 * The system monitor of examples/sys_histogram.py: a CPU-load histogram
 * kept in a list that takes each new value at the front, and a temperature
 * gauge that blinks when the temperature is high or cannot be read.
 *
 * Screen y grows downwards: the histogram area spans y = 30 (top) to
 * y = 60 (bottom), so a larger load gives a smaller y, and a new value is
 * clamped so that it never rises above the top line.
 */
module SysHistogram {
  import opened Wrappers
  import opened Text

  const HistogramResolution: int := 100
  /** The top line of the histogram area. */
  const MaxHistHeight: real := 30.0
  /** The top of the temperature gauge. */
  const MinBarHeight: real := 3.0
  /** The bottom of the temperature gauge. */
  const MaxBarHeight: real := 60.0

  /**
   * `init_histogram`: the x coordinates 104, 102, ..., 4 of the time axis
   * and a data list of the same length holding the baseline value 60.
   */
  method InitHistogram() returns (data: seq<real>, time: seq<int>)
    ensures |time| == 51 && |data| == |time|
    ensures forall i :: 0 <= i < |time| ==> time[i] == 104 - 2 * i && time[i] > 2
    ensures forall i :: 0 <= i < |data| ==> data[i] == 60.0
  {
    time := [];
    data := [];
    var x := 106;
    for pix := 0 to HistogramResolution
      invariant x == 106 - 2 * pix
      invariant |time| == if pix < 51 then pix else 51
      invariant forall i :: 0 <= i < |time| ==> time[i] == 104 - 2 * i
    {
      x := x - 2;
      if x > 2 {
        time := time + [x];
      }
    }
    for timeLen := 0 to |time|
      invariant |data| == timeLen
      invariant forall i :: 0 <= i < |data| ==> data[i] == 60.0
    {
      data := data + [60.0];
    }
  }

  /** The value the loop leaves at the head of the list. */
  function Clamped(h: real): real
  {
    if h > MaxHistHeight then h else MaxHistHeight
  }

  /**
   * One refresh of the data list: `insert(0, h)`, the clamp of the head,
   * then `pop(len(histogramTime) - 1)`, which on the lengthened list removes
   * the second-to-last slot, not the last.
   */
  function Shifted(data: seq<real>, h: real): (r: seq<real>)
    requires |data| >= 2
    ensures |r| == |data|
    ensures r[0] >= MaxHistHeight
    ensures h > MaxHistHeight ==> r[0] == h
    ensures h <= MaxHistHeight ==> r[0] == MaxHistHeight
    ensures forall i :: 1 <= i < |r| - 1 ==> r[i] == data[i - 1]
    ensures r[|r| - 1] == data[|data| - 1]
  {
    [Clamped(h)] + data[..|data| - 2] + [data[|data| - 1]]
  }

  /** The data list after a run of refreshes with the load values `hs`, oldest first. */
  function History(data: seq<real>, hs: seq<real>): (r: seq<real>)
    requires |data| >= 2
    ensures |r| == |data|
    decreases |hs|
  {
    if |hs| == 0 then data else Shifted(History(data, hs[..|hs| - 1]), hs[|hs| - 1])
  }

  /**
   * The histogram shows the newest values first, each clamped; older slots
   * hold the values from before the run, shifted along; and the final slot
   * is never replaced.
   */
  lemma {:induction false} HistoryNewestFirst(data: seq<real>, hs: seq<real>)
    requires |data| >= 2
    ensures var r := History(data, hs);
            && r[|r| - 1] == data[|data| - 1]
            && (forall i :: 0 <= i < |hs| && i < |r| - 1 ==> r[i] == Clamped(hs[|hs| - 1 - i]))
            && (forall i :: |hs| <= i < |r| - 1 ==> r[i] == data[i - |hs|])
    decreases |hs|
  {
    if |hs| > 0 {
      var hs' := hs[..|hs| - 1];
      HistoryNewestFirst(data, hs');
      var p := History(data, hs');
      var r := History(data, hs);
      assert r == Shifted(p, hs[|hs| - 1]);
      forall i | 1 <= i < |hs| && i < |r| - 1
        ensures r[i] == Clamped(hs[|hs| - 1 - i])
      {
        assert r[i] == p[i - 1];
        assert hs'[|hs'| - 1 - (i - 1)] == hs[|hs| - 1 - i];
      }
    }
  }

  /** From the initial list, every slot stays within the histogram area's top line. */
  lemma {:induction false} HistoryBelowTopLine(data: seq<real>, hs: seq<real>)
    requires |data| >= 2
    requires forall i :: 0 <= i < |data| ==> data[i] >= MaxHistHeight
    ensures forall i :: 0 <= i < |data| ==> History(data, hs)[i] >= MaxHistHeight
    decreases |hs|
  {
    if |hs| > 0 {
      HistoryBelowTopLine(data, hs[..|hs| - 1]);
    }
  }

  /** One `draw.line` of the histogram, from slot i+1 to slot i. */
  datatype Segment = Segment(x1: int, y1: real, x2: int, y2: real)

  /** The lines drawn over the time axis `time` and the values `d`. */
  function Segments(time: seq<int>, d: seq<real>): (r: seq<Segment>)
    requires |time| >= 1 && |d| >= |time|
    ensures |r| == |time| - 1
  {
    seq(|time| - 1, i requires 0 <= i < |time| - 1 => Segment(time[i + 1], d[i + 1], time[i], d[i]))
  }

  /** What the temperature gauge shows. */
  datatype Gauge =
    | Bar(top: real, degrees: int)        // the grey bar from `top` down, with the temperature
    | Flash(filled: bool, degrees: int)   // the full-height gauge, filled or hollow

  /** The part of one refresh that the model records. */
  datatype Frame = Frame(lines: seq<Segment>, warning: bool, gauge: Gauge)

  /**
   * `int(temp.read()[:2])` on the thermal-zone file, or `None` when the
   * file cannot be opened or the two characters are not an integer.
   */
  function TempCelsius(contents: Option<string>): Option<int>
  {
    match contents
    case None => None
    case Some(text) => PyInt(text[..if |text| < 2 then |text| else 2])
  }

  /** The thermal-zone file holds millidegrees: its first two characters are whole degrees. */
  lemma TempCelsiusOfFile(text: string)
    requires |text| >= 2 && '0' <= text[0] <= '9' && '0' <= text[1] <= '9'
    ensures TempCelsius(Some(text)) == Some(10 * (text[0] as int - '0' as int) + (text[1] as int - '0' as int))
  {
    var t := text[..2];
    StripUntrimmed(t);
    assert t[..1] == [text[0]];
    assert ParseNat(t[..1]) == text[0] as int - '0' as int;
  }

  /** The gauge top for `tmpCel` degrees: 60 at 0 degrees, 3 at 55 degrees. */
  function GaugeHeight(tmpCel: int): (h: real)
    ensures tmpCel == 0 ==> h == MaxBarHeight
    ensures tmpCel == 55 ==> h == MinBarHeight
    ensures h <= MinBarHeight <==> tmpCel >= 55
  {
    var tmpPercent := (tmpCel as real / 55.0) * 100.0;
    ((100.0 - tmpPercent) * (MaxBarHeight - MinBarHeight)) / 100.0 + MinBarHeight
  }

  /** The hotter the processor, the lower the gauge top. */
  lemma GaugeDecreasing(a: int, b: int)
    requires a < b
    ensures GaugeHeight(b) < GaugeHeight(a)
  {
    assert GaugeHeight(a) - GaugeHeight(b) == (b - a) as real * 57.0 / 55.0;
  }

  /** The `try`/`except` around the read: a failure gives 0 degrees and height 0. */
  function Reading(contents: Option<string>): (int, real)
  {
    match TempCelsius(contents)
    case None => (0, 0.0)
    case Some(t) => (t, GaugeHeight(t))
  }

  /** The gauge blinks exactly when the read fails or the temperature is 55 degrees or more. */
  lemma BlinkCondition(contents: Option<string>)
    ensures Reading(contents).1 <= MinBarHeight <==>
              TempCelsius(contents).None? || TempCelsius(contents).value >= 55
  {
  }

  /**
   * The temperature gauge and the blink flip-flop: below the top of the
   * gauge a bar; otherwise a full gauge that alternates between filled and
   * hollow on successive refreshes.
   */
  function ShowGauge(height: real, tmpCel: int, blnk: int): (r: (Gauge, int))
    ensures height > MinBarHeight ==> r == (Bar(height, tmpCel), blnk)
    ensures height <= MinBarHeight ==> r.0 == Flash(blnk == 1, tmpCel)
    ensures height <= MinBarHeight && (blnk == 0 || blnk == 1) ==> r.1 == 1 - blnk
    ensures r.1 == 0 || r.1 == 1 || r.1 == blnk
  {
    if height > MinBarHeight then (Bar(height, tmpCel), blnk)
    else if blnk == 1 then (Flash(true, tmpCel), 0)
    else (Flash(false, tmpCel), 1)
  }

  /** The monitor's state between refreshes: the two lists and the global `blnk`. */
  class Monitor {
    var data: seq<real>
    var time: seq<int>
    var blnk: int

    ghost predicate Valid()
      reads this
    {
      && |time| == 51 && |data| == |time|
      && (forall i :: 0 <= i < |time| ==> time[i] == 104 - 2 * i)
      && (blnk == 0 || blnk == 1)
    }

    constructor ()
      ensures Valid() && blnk == 1
      ensures forall i :: 0 <= i < |data| ==> data[i] == 60.0
    {
      var d, t := InitHistogram();
      data, time, blnk := d, t, 1;
    }

    /**
     * The histogram and temperature part of `main`, given the computed
     * `histogramHeight` and the thermal-zone file's contents.
     */
    method Refresh(histogramHeight: real, contents: Option<string>) returns (frame: Frame)
      requires Valid()
      modifies this
      ensures Valid()
      ensures time == old(time)
      ensures data == Shifted(old(data), histogramHeight)
      ensures frame.lines == Segments(time, [Clamped(histogramHeight)] + old(data))
      ensures frame.warning <==> histogramHeight <= MaxHistHeight
      ensures (frame.gauge, blnk) == ShowGauge(Reading(contents).1, Reading(contents).0, old(blnk))
    {
      var (tmpCel, height) := Reading(contents);
      ghost var d := [Clamped(histogramHeight)] + data;
      var lines := [];
      var warning := false;
      data := [histogramHeight] + data;
      for htime := 0 to |time| - 1
        invariant time == old(time) && blnk == old(blnk)
        invariant |data| == |time| + 1 && data[1..] == old(data)
        invariant data[0] == if htime == 0 then histogramHeight else Clamped(histogramHeight)
        invariant warning <==> htime > 0 && histogramHeight <= MaxHistHeight
        invariant |lines| == htime
        invariant forall i :: 0 <= i < htime ==> lines[i] == Segment(time[i + 1], d[i + 1], time[i], d[i])
      {
        var timePlusOne := htime + 1;
        if data[0] > MaxHistHeight {
          lines := lines + [Segment(time[timePlusOne], data[timePlusOne], time[htime], data[htime])];
        } else {
          data := data[0 := MaxHistHeight];
          warning := true;
          lines := lines + [Segment(time[timePlusOne], data[timePlusOne], time[htime], data[htime])];
        }
      }
      data := data[..|time| - 1] + data[|time|..];
      var g := ShowGauge(height, tmpCel, blnk);
      blnk := g.1;
      frame := Frame(lines, warning, g.0);
    }
  }
}
