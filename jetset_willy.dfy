/**
 * examples/jetset_willy.py: the frame loop of `main`. Willy walks between
 * the two edges of the display, turning round at each, while the hare
 * runs leftwards and wraps round to the right edge. Every fourth frame
 * moves them by 8 pixels. The sprite frames are 16 pixels wide.
 */
module JetsetWilly {

  const FrameWidth: int := 16
  const Stride: int := 8

  /** Which of willy's two animations is playing. */
  datatype Willy = WillyRight | WillyLeft

  /** The loop variables of `main`. */
  datatype Scene = Scene(wx: int, hx: int, dx: int, clock: int, willy: Willy)

  /** The values before the first frame on a display `width` pixels wide. */
  function Start(width: int): Scene
  {
    Scene(24, width, 8, 0, WillyRight)
  }

  /** One pass of the loop body after the sprites are pasted. */
  function Next(width: int, s: Scene): (t: Scene)
    ensures t.clock == s.clock + 1
    ensures t.dx == s.dx || t.dx == -s.dx
  {
    var clock := s.clock + 1;
    if clock % 4 != 0 then s.(clock := clock)
    else
      var wx, hx := s.wx + s.dx, s.hx - Stride;
      var (willy, dx, wx) := if wx >= width - FrameWidth then (WillyLeft, -s.dx, width - 24) else (s.willy, s.dx, wx);
      var (willy, dx, wx) := if wx <= 16 then (WillyRight, -dx, 24) else (willy, dx, wx);
      var hx := if hx + FrameWidth <= 0 then width else hx;
      Scene(wx, hx, dx, clock, willy)
  }

  /** Only frames where the clock reaches a multiple of 4 move anything. */
  lemma NextIdle(width: int, s: Scene)
    requires (s.clock + 1) % 4 != 0
    ensures Next(width, s) == s.(clock := s.clock + 1)
  {
  }

  /** The bounds the loop keeps on a display wider than 40 pixels. */
  predicate Inv(width: int, s: Scene)
  {
    && 16 < s.wx < width - 16
    && -16 < s.hx <= width
    && (s.dx == Stride || s.dx == -Stride)
  }

  /** One frame keeps the bounds. */
  lemma NextKeepsInv(width: int, s: Scene)
    requires width > 40 && Inv(width, s)
    ensures Inv(width, Next(width, s))
  {
  }

  /**
   * Turning round: reaching the right limit selects 'willy-left' at
   * width - 24, reaching the left limit 'willy-right' at 24.
   */
  lemma NextTurns(width: int, s: Scene)
    requires width > 40 && Inv(width, s) && (s.clock + 1) % 4 == 0
    ensures s.wx + s.dx >= width - FrameWidth ==>
              Next(width, s).willy == WillyLeft && Next(width, s).wx == width - 24 && Next(width, s).dx == -s.dx
    ensures s.wx + s.dx <= 16 ==>
              Next(width, s).willy == WillyRight && Next(width, s).wx == 24 && Next(width, s).dx == -s.dx
    ensures 16 < s.wx + s.dx < width - FrameWidth ==>
              Next(width, s).willy == s.willy && Next(width, s).wx == s.wx + s.dx && Next(width, s).dx == s.dx
  {
  }

  /** The scene after k frames. */
  function After(width: int, k: nat): Scene
  {
    if k == 0 then Start(width) else Next(width, After(width, k - 1))
  }

  /** Every frame of the loop keeps the bounds, and the clock counts the frames. */
  lemma {:induction false} AfterInv(width: int, k: nat)
    requires width > 40
    ensures Inv(width, After(width, k)) && After(width, k).clock == k
  {
    if k > 0 {
      AfterInv(width, k - 1);
      NextKeepsInv(width, After(width, k - 1));
    }
  }

  /** The statements of the loop body that follow the pasting. */
  method Advance(width: int, before: Scene) returns (after: Scene)
    ensures after == Next(width, before)
  {
    var Scene(wx, hx, dx, clock, willy) := before;
    clock := clock + 1;
    if clock % 4 == 0 {
      wx := wx + dx;
      hx := hx - 8;
      if wx >= width - FrameWidth {
        willy := WillyLeft;
        dx := -dx;
        wx := width - 24;
      }
      if wx <= 16 {
        willy := WillyRight;
        dx := -dx;
        wx := 24;
      }
      if hx + FrameWidth <= 0 {
        hx := width;
      }
    }
    return Scene(wx, hx, dx, clock, willy);
  }

  /**
   * `main(num_iterations)`: runs the frames and returns the final loop
   * variables with the (willy x, hare x) positions pasted on each frame.
   */
  method Play(width: int, numIterations: int) returns (s: Scene, pasted: seq<(int, int)>)
    ensures var frames := if numIterations > 0 then numIterations else 0;
            s == After(width, frames) && pasted == Pasted(width, frames)
  {
    s := Start(width);
    var n := numIterations;
    pasted := [];
    while n > 0
      invariant (if n > 0 then n else 0) + |pasted| == if numIterations > 0 then numIterations else 0
      invariant s == After(width, |pasted|) && pasted == Pasted(width, |pasted|)
    {
      n := n - 1;
      pasted := pasted + [(s.wx, s.hx)];
      s := Advance(width, s);
    }
  }

  /** The (willy x, hare x) positions pasted on the first k frames. */
  function Pasted(width: int, k: nat): (r: seq<(int, int)>)
    ensures |r| == k
  {
    if k == 0 then [] else Pasted(width, k - 1) + [(After(width, k - 1).wx, After(width, k - 1).hx)]
  }

  /** Frame k pastes willy and the hare where the k-th scene has them: the loop runs one frame per iteration. */
  lemma {:induction false} PastedAt(width: int, k: nat, i: nat)
    requires i < k
    ensures Pasted(width, k)[i] == (After(width, i).wx, After(width, i).hx)
    decreases k
  {
    if i < k - 1 {
      PastedAt(width, k - 1, i);
    }
  }

  /** On a display wider than 40 pixels the bounds hold after every frame of `main`. */
  lemma PlayBounds(width: int, frames: nat)
    requires width > 40
    ensures Inv(width, After(width, frames))
  {
    AfterInv(width, frames);
  }
}
