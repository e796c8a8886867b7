/**
 * examples/sprite_animation.py: two sprite sheets played frame by frame.
 * `mickey` crops 256 x 308 cells from an 8-column sheet, scales each to the
 * display height and centres it; `explosion` crops 50 x 54 cells from a
 * 10-column sheet and centres them unscaled. Each frame shown is modelled
 * by the crop box, the size it is pasted at and the x offset of the paste.
 */
module SpriteAnimation {

  /** One frame shown: the crop box (left, top, right, bottom), the pasted size and the x offset. */
  datatype Shown = Shown(box: (int, int, int, int), size: (int, int), offset: int)

  const MickeyW: int := 256
  const MickeyH: int := 308
  const MickeyColumns: int := 8
  const ExplosionW: int := 50
  const ExplosionH: int := 54
  const ExplosionColumns: int := 10
  /** Both loops stop at `frame < 40`. */
  const Frames: int := 40
  /** `mickey` plays the sheet `range(5)` times. */
  const MickeyPasses: int := 5

  /** The top-left corner of mickey's cell for `frame`. */
  function MickeyCell(frame: int): (int, int)
  {
    (MickeyW * (frame % MickeyColumns), MickeyH * (frame / MickeyColumns))
  }

  /** The top-left corner of the explosion's cell for `frame`. */
  function ExplosionCell(frame: int): (int, int)
  {
    (ExplosionW * (frame % ExplosionColumns), ExplosionH * (frame / ExplosionColumns))
  }

  /** The crop box `(x, y, x + w, y + h)` of a cell at `corner`. */
  function CropBox(corner: (int, int), w: int, h: int): (box: (int, int, int, int))
    ensures box.2 - box.0 == w && box.3 - box.1 == h
    ensures (box.0, box.1) == corner
  {
    (corner.0, corner.1, corner.0 + w, corner.1 + h)
  }

  /** The frame a mickey cell shows: column plus 8 times row. */
  function MickeyFrameOf(corner: (int, int)): int
  {
    corner.0 / MickeyW + MickeyColumns * (corner.1 / MickeyH)
  }

  /**
   * Frames 0..39 land on the 8 x 5 grid of 256 x 308 cells, each on its
   * own cell: the frame is recovered from the cell.
   */
  lemma MickeyCells(frame: int)
    requires 0 <= frame < Frames
    ensures var (x, y) := MickeyCell(frame);
            && x % MickeyW == 0 && 0 <= x < MickeyW * MickeyColumns
            && y % MickeyH == 0 && 0 <= y < MickeyH * 5
            && MickeyFrameOf(MickeyCell(frame)) == frame
  {
  }

  /** Every cell of the 8 x 5 grid is shown by one of the frames 0..39. */
  lemma MickeyCovers(col: int, row: int)
    requires 0 <= col < MickeyColumns && 0 <= row < 5
    ensures 0 <= col + MickeyColumns * row < Frames
    ensures MickeyCell(col + MickeyColumns * row) == (MickeyW * col, MickeyH * row)
  {
  }

  /** Distinct frames of a pass show distinct cells. */
  lemma MickeyDistinct(f: int, g: int)
    requires 0 <= f < Frames && 0 <= g < Frames && f != g
    ensures MickeyCell(f) != MickeyCell(g)
  {
    MickeyCells(f);
    MickeyCells(g);
  }

  /** The frame an explosion cell shows: column plus 10 times row. */
  function ExplosionFrameOf(corner: (int, int)): int
  {
    corner.0 / ExplosionW + ExplosionColumns * (corner.1 / ExplosionH)
  }

  /** Frames 0..39 land on the 10 x 4 grid of 50 x 54 cells, each on its own cell. */
  lemma ExplosionCells(frame: int)
    requires 0 <= frame < Frames
    ensures var (x, y) := ExplosionCell(frame);
            && x % ExplosionW == 0 && 0 <= x < ExplosionW * ExplosionColumns
            && y % ExplosionH == 0 && 0 <= y < ExplosionH * 4
            && ExplosionFrameOf(ExplosionCell(frame)) == frame
  {
  }

  /** The 40 frames fill the 10 x 4 grid. */
  lemma ExplosionCovers(col: int, row: int)
    requires 0 <= col < ExplosionColumns && 0 <= row < 4
    ensures 0 <= col + ExplosionColumns * row < Frames
    ensures ExplosionCell(col + ExplosionColumns * row) == (ExplosionW * col, ExplosionH * row)
  {
  }

  /**
   * `new_size`: the cell scaled by `device.height / 308`, its width
   * truncated by `int`.
   */
  function MickeySize(deviceHeight: nat): (size: (int, int))
    ensures size == (deviceHeight * MickeyW / MickeyH, deviceHeight)
  {
    FloorOfQuotient(deviceHeight * MickeyW, MickeyH);
    assert deviceHeight as real / MickeyH as real * MickeyW as real == (deviceHeight * MickeyW) as real / MickeyH as real;
    ((deviceHeight as real / MickeyH as real * MickeyW as real).Floor, deviceHeight)
  }

  /** `int` of a non-negative quotient is floor division. */
  lemma FloorOfQuotient(a: nat, b: int)
    requires b > 0
    ensures (a as real / b as real).Floor == a / b
  {
    var q, r := a / b, a % b;
    assert a == b * q + r;
    assert a as real / b as real == q as real + r as real / b as real;
  }

  /** What mickey's frame `frame` shows. */
  function MickeyShown(deviceWidth: int, deviceHeight: nat, frame: int): Shown
  {
    var size := MickeySize(deviceHeight);
    Shown(CropBox(MickeyCell(frame), MickeyW, MickeyH), size, (deviceWidth - size.0) / 2)
  }

  /** What the explosion's frame `frame` shows: the cell, unscaled, at `(width - 50) // 2`. */
  function ExplosionShown(deviceWidth: int, frame: int): Shown
  {
    Shown(CropBox(ExplosionCell(frame), ExplosionW, ExplosionH), (ExplosionW, ExplosionH), (deviceWidth - ExplosionW) / 2)
  }

  /** `mickey()`: five passes over the 40 frames. */
  method Mickey(deviceWidth: int, deviceHeight: nat) returns (shown: seq<Shown>)
    ensures |shown| == MickeyPasses * Frames
    ensures forall k :: 0 <= k < |shown| ==> shown[k] == MickeyShown(deviceWidth, deviceHeight, k % Frames)
  {
    var w, h := MickeyW, MickeyH;
    var newSize := MickeySize(deviceHeight);
    shown := [];
    for pass := 0 to MickeyPasses
      invariant |shown| == Frames * pass
      invariant forall k :: 0 <= k < |shown| ==> shown[k] == MickeyShown(deviceWidth, deviceHeight, k % Frames)
    {
      var frame := 0;
      while frame < Frames
        invariant 0 <= frame <= Frames
        invariant |shown| == Frames * pass + frame
        invariant forall k :: 0 <= k < |shown| ==> shown[k] == MickeyShown(deviceWidth, deviceHeight, k % Frames)
      {
        var x := w * (frame % 8);
        var y := h * (frame / 8);
        var offset := (deviceWidth - newSize.0) / 2;
        assert (Frames * pass + frame) % Frames == frame;
        shown := shown + [Shown((x, y, x + w, y + h), newSize, offset)];
        frame := frame + 1;
      }
    }
  }

  /** `explosion()`: the 40 frames once. */
  method Explosion(deviceWidth: int) returns (shown: seq<Shown>)
    ensures |shown| == Frames
    ensures forall k :: 0 <= k < Frames ==> shown[k] == ExplosionShown(deviceWidth, k)
  {
    var w, h := ExplosionW, ExplosionH;
    var offset := (deviceWidth - w) / 2;
    var frame := 0;
    shown := [];
    while frame < Frames
      invariant 0 <= frame <= Frames && |shown| == frame
      invariant forall k :: 0 <= k < frame ==> shown[k] == ExplosionShown(deviceWidth, k)
    {
      var x := w * (frame % 10);
      var y := h * (frame / 10);
      shown := shown + [Shown((x, y, x + w, y + h), (w, h), offset)];
      frame := frame + 1;
    }
  }

  /**
   * One round of the `while True` loop: every crop box is one whole cell,
   * mickey fills the display height, and the explosion sits at
   * `(width - 50) // 2`.
   */
  method Round(deviceWidth: int, deviceHeight: nat) returns (shown: seq<Shown>)
    ensures |shown| == MickeyPasses * Frames + Frames
    ensures forall k :: 0 <= k < MickeyPasses * Frames ==>
              var s := shown[k];
              && s.box.2 - s.box.0 == MickeyW && s.box.3 - s.box.1 == MickeyH
              && s.size.1 == deviceHeight
              && (s.box.0, s.box.1) == MickeyCell(k % Frames)
    ensures forall k :: MickeyPasses * Frames <= k < |shown| ==>
              var s := shown[k];
              && s.box.2 - s.box.0 == ExplosionW && s.box.3 - s.box.1 == ExplosionH
              && s.offset == (deviceWidth - ExplosionW) / 2
              && (s.box.0, s.box.1) == ExplosionCell(k - MickeyPasses * Frames)
  {
    var m := Mickey(deviceWidth, deviceHeight);
    var e := Explosion(deviceWidth);
    shown := m + e;
  }
}
