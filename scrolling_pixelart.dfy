/**
 * examples/scrolling_pixelart.py: a picture larger than the display is
 * panned down, right, up and left through a viewport. The viewport keeps
 * the list of positions it was set to, in order.
 */
module ScrollingPixelart {

  /** A viewport of `width` x `height` pixels onto a display of `deviceWidth` x `deviceHeight`. */
  class Viewport {
    const width: int
    const height: int
    const deviceWidth: int
    const deviceHeight: int
    /** Every `set_position` argument so far. */
    var trace: seq<(int, int)>

    constructor (deviceWidth: int, deviceHeight: int, width: int, height: int)
      ensures this.width == width && this.height == height
      ensures this.deviceWidth == deviceWidth && this.deviceHeight == deviceHeight
      ensures trace == []
    {
      this.width := width;
      this.height := height;
      this.deviceWidth := deviceWidth;
      this.deviceHeight := deviceHeight;
      trace := [];
    }

    method SetPosition(pos: (int, int))
      modifies this
      ensures trace == old(trace) + [pos]
    {
      trace := trace + [pos];
    }
  }

  /** The positions a forward scroll visits: `from`, `from + 1`, ..., `limit - 1`, on the other axis `fixed`. */
  function Forward(from: int, limit: int): (r: seq<int>)
    ensures |r| == if from < limit then limit - from else 0
    ensures forall i :: 0 <= i < |r| ==> r[i] == from + i
  {
    if from < limit then seq(limit - from, i requires 0 <= i < limit - from => from + i) else []
  }

  /** The positions a backward scroll visits: `from`, `from - 1`, ..., 0. */
  function Backward(from: int): (r: seq<int>)
    ensures |r| == if from >= 0 then from + 1 else 0
    ensures forall i :: 0 <= i < |r| ==> r[i] == from - i
  {
    if from >= 0 then seq(from + 1, i requires 0 <= i < from + 1 => from - i) else []
  }

  /** Each y position paired with the fixed x. */
  function AtX(x: int, ys: seq<int>): (r: seq<(int, int)>)
    ensures |r| == |ys| && forall i :: 0 <= i < |r| ==> r[i] == (x, ys[i])
  {
    seq(|ys|, i requires 0 <= i < |ys| => (x, ys[i]))
  }

  /** Each x position paired with the fixed y. */
  function AtY(xs: seq<int>, y: int): (r: seq<(int, int)>)
    ensures |r| == |xs| && forall i :: 0 <= i < |r| ==> r[i] == (xs[i], y)
  {
    seq(|xs|, i requires 0 <= i < |xs| => (xs[i], y))
  }

  /**
   * `scroll_down`: when the picture is taller than the display, sets every
   * y from the start up to one before the bottom offset, then steps back
   * one; otherwise does nothing.
   */
  method ScrollDown(v: Viewport, pos: (int, int)) returns (r: (int, int))
    modifies v
    ensures v.height <= v.deviceHeight ==> r == pos && v.trace == old(v.trace)
    ensures v.height > v.deviceHeight ==>
              var limit := v.height - v.deviceHeight;
              && v.trace == old(v.trace) + AtX(pos.0, Forward(pos.1, limit))
              && r == (pos.0, if pos.1 < limit then limit - 1 else pos.1 - 1)
  {
    var (x, y) := pos;
    if v.height > v.deviceHeight {
      while y < v.height - v.deviceHeight
        invariant pos.1 < v.height - v.deviceHeight ==> pos.1 <= y <= v.height - v.deviceHeight
        invariant pos.1 >= v.height - v.deviceHeight ==> y == pos.1
        invariant v.trace == old(v.trace) + AtX(x, Forward(pos.1, y))
        invariant x == pos.0
        decreases v.height - v.deviceHeight - y
      {
        v.SetPosition((x, y));
        y := y + 1;
        assert AtX(x, Forward(pos.1, y)) == AtX(x, Forward(pos.1, y - 1)) + [(x, y - 1)];
      }
      y := y - 1;
    }
    return (x, y);
  }

  /** `scroll_right`: the same rule along x, against the widths. */
  method ScrollRight(v: Viewport, pos: (int, int)) returns (r: (int, int))
    modifies v
    ensures v.width <= v.deviceWidth ==> r == pos && v.trace == old(v.trace)
    ensures v.width > v.deviceWidth ==>
              var limit := v.width - v.deviceWidth;
              && v.trace == old(v.trace) + AtY(Forward(pos.0, limit), pos.1)
              && r == (if pos.0 < limit then limit - 1 else pos.0 - 1, pos.1)
  {
    var (x, y) := pos;
    if v.width > v.deviceWidth {
      while x < v.width - v.deviceWidth
        invariant pos.0 < v.width - v.deviceWidth ==> pos.0 <= x <= v.width - v.deviceWidth
        invariant pos.0 >= v.width - v.deviceWidth ==> x == pos.0
        invariant v.trace == old(v.trace) + AtY(Forward(pos.0, x), y)
        invariant y == pos.1
        decreases v.width - v.deviceWidth - x
      {
        v.SetPosition((x, y));
        x := x + 1;
        assert AtY(Forward(pos.0, x), y) == AtY(Forward(pos.0, x - 1), y) + [(x - 1, y)];
      }
      x := x - 1;
    }
    return (x, y);
  }

  /** `scroll_up`: sets every y from the start down to 0, then returns y = 0. */
  method ScrollUp(v: Viewport, pos: (int, int)) returns (r: (int, int))
    modifies v
    ensures v.trace == old(v.trace) + AtX(pos.0, Backward(pos.1))
    ensures r == (pos.0, 0)
  {
    var (x, y) := pos;
    while y >= 0
      invariant pos.1 >= 0 ==> -1 <= y <= pos.1
      invariant pos.1 < 0 ==> y == pos.1
      invariant v.trace == old(v.trace) + AtX(x, Backward(pos.1)[..pos.1 - y])
      invariant x == pos.0
    {
      v.SetPosition((x, y));
      y := y - 1;
      assert Backward(pos.1)[..pos.1 - y] == Backward(pos.1)[..pos.1 - y - 1] + [y + 1];
      assert AtX(x, Backward(pos.1)[..pos.1 - y]) == AtX(x, Backward(pos.1)[..pos.1 - y - 1]) + [(x, y + 1)];
    }
    assert Backward(pos.1)[..pos.1 - y] == Backward(pos.1);
    y := 0;
    return (x, y);
  }

  /** `scroll_left`: sets every x from the start down to 0, then returns x = 0. */
  method ScrollLeft(v: Viewport, pos: (int, int)) returns (r: (int, int))
    modifies v
    ensures v.trace == old(v.trace) + AtY(Backward(pos.0), pos.1)
    ensures r == (0, pos.1)
  {
    var (x, y) := pos;
    while x >= 0
      invariant pos.0 >= 0 ==> -1 <= x <= pos.0
      invariant pos.0 < 0 ==> x == pos.0
      invariant v.trace == old(v.trace) + AtY(Backward(pos.0)[..pos.0 - x], y)
      invariant y == pos.1
    {
      v.SetPosition((x, y));
      x := x - 1;
      assert Backward(pos.0)[..pos.0 - x] == Backward(pos.0)[..pos.0 - x - 1] + [x + 1];
      assert AtY(Backward(pos.0)[..pos.0 - x], y) == AtY(Backward(pos.0)[..pos.0 - x - 1], y) + [(x + 1, y)];
    }
    assert Backward(pos.0)[..pos.0 - x] == Backward(pos.0);
    x := 0;
    return (x, y);
  }

  /**
   * A downward scroll from 0 never sets the bottom offset itself: every y it
   * visits is below `limit`, and it finishes one short of it.
   */
  lemma ForwardStopsShort(limit: int)
    requires limit > 0
    ensures var ys := Forward(0, limit);
            |ys| == limit && ys[|ys| - 1] == limit - 1 && forall k :: 0 <= k < |ys| ==> 0 <= ys[k] < limit
  {
  }

  /**
   * One picture of `main`: a `w` x `h` viewport panned down, right, up and
   * left from (0, 0), ending back at (0, 0).
   */
  method ShowPicture(deviceWidth: int, deviceHeight: int, w: int, h: int) returns (pos: (int, int), trace: seq<(int, int)>)
    ensures pos == (0, 0)
    ensures var yd := if h > deviceHeight then h - deviceHeight - 1 else 0;
            var xr := if w > deviceWidth then w - deviceWidth - 1 else 0;
            trace == (if h > deviceHeight then AtX(0, Forward(0, h - deviceHeight)) else [])
                     + (if w > deviceWidth then AtY(Forward(0, w - deviceWidth), yd) else [])
                     + AtX(xr, Backward(yd))
                     + AtY(Backward(xr), 0)
  {
    var virtual := new Viewport(deviceWidth, deviceHeight, w, h);
    pos := (0, 0);
    pos := ScrollDown(virtual, pos);
    pos := ScrollRight(virtual, pos);
    pos := ScrollUp(virtual, pos);
    pos := ScrollLeft(virtual, pos);
    trace := virtual.trace;
  }
}
