/**
 * examples/runner.py: the frame loop of `main`. The runner sprite (64
 * pixels wide) starts just off the left edge, moves 3 pixels a frame and
 * turns round once it reaches the right edge or gets back off the left one.
 */
module Runner {

  const FrameWidth: int := 64
  const Speed: int := 3

  /** Which of the two animations is playing. */
  datatype Facing = RunRight | RunLeft

  /** The loop variables of `main`. */
  datatype Track = Track(x: int, dx: int, runner: Facing)

  function Start(): Track
  {
    Track(-FrameWidth, Speed, RunRight)
  }

  /** The loop body after the sprite is pasted: move, then the two edge tests. */
  function Next(width: int, s: Track): (t: Track)
    ensures t.dx == s.dx || t.dx == -s.dx
  {
    var x := s.x + s.dx;
    var (runner, dx) := if x >= width then (RunLeft, -s.dx) else (s.runner, s.dx);
    var (runner, dx) := if x <= -FrameWidth then (RunRight, -dx) else (runner, dx);
    Track(x, dx, runner)
  }

  /** Whether both edge tests of one frame fire. */
  predicate DoubleFlip(width: int, s: Track)
  {
    var x := s.x + s.dx;
    x >= width && x <= -FrameWidth
  }

  /**
   * The loop keeps x on the 3-pixel grid through -64, within
   * [-64, width + 2], heading right only while left of the right edge and
   * left only while right of -64.
   */
  predicate Inv(width: int, s: Track)
  {
    && (s.x + FrameWidth) % Speed == 0
    && -FrameWidth <= s.x <= width + 2
    && ((s.dx == Speed && s.x < width) || (s.dx == -Speed && s.x > -FrameWidth))
  }

  lemma StartInv(width: nat)
    ensures Inv(width, Start())
  {
  }

  /**
   * One frame keeps the invariant, moves x by exactly dx, turns at the
   * edges as the source says, and never turns twice.
   */
  lemma NextKeepsInv(width: nat, s: Track)
    requires Inv(width, s)
    ensures Inv(width, Next(width, s))
    ensures Next(width, s).x == s.x + s.dx
    ensures !DoubleFlip(width, s)
    ensures s.x + s.dx >= width ==> Next(width, s).runner == RunLeft && Next(width, s).dx == -Speed
    ensures s.x + s.dx <= -FrameWidth ==> Next(width, s).runner == RunRight && Next(width, s).dx == Speed
  {
    var x := s.x + s.dx;
    assert (x + FrameWidth) % Speed == 0 by {
      assert x + FrameWidth == (s.x + FrameWidth) + s.dx;
    }
    if s.dx == -Speed {
      assert s.x >= -FrameWidth + Speed by {
        assert (s.x + FrameWidth) % Speed == 0 && s.x + FrameWidth > 0;
      }
    }
  }

  /** The track after k frames. */
  function After(width: int, k: nat): Track
  {
    if k == 0 then Start() else Next(width, After(width, k - 1))
  }

  lemma {:induction false} AfterInv(width: nat, k: nat)
    ensures Inv(width, After(width, k))
  {
    if k == 0 {
      StartInv(width);
    } else {
      AfterInv(width, k - 1);
      NextKeepsInv(width, After(width, k - 1));
    }
  }

  /** The x positions pasted on the first k frames. */
  function Pasted(width: int, k: nat): (r: seq<int>)
    ensures |r| == k
  {
    if k == 0 then [] else Pasted(width, k - 1) + [After(width, k - 1).x]
  }

  lemma {:induction false} PastedAt(width: int, k: nat, i: nat)
    requires i < k
    ensures Pasted(width, k)[i] == After(width, i).x
    decreases k
  {
    if i < k - 1 {
      PastedAt(width, k - 1, i);
    }
  }

  /** The statements of the loop body that follow the pasting. */
  method Advance(width: int, before: Track) returns (after: Track)
    ensures after == Next(width, before)
  {
    var Track(x, dx, runner) := before;
    x := x + dx;
    if x >= width {
      runner := RunLeft;
      dx := -dx;
    }
    if x <= -FrameWidth {
      runner := RunRight;
      dx := -dx;
    }
    return Track(x, dx, runner);
  }

  /** `main(num_iterations)`: the final loop variables and the x pasted on each frame. */
  method Play(width: int, numIterations: int) returns (s: Track, pasted: seq<int>)
    ensures var frames := if numIterations > 0 then numIterations else 0;
            s == After(width, frames) && pasted == Pasted(width, frames)
  {
    s := Start();
    var n := numIterations;
    pasted := [];
    while n > 0
      invariant (if n > 0 then n else 0) + |pasted| == if numIterations > 0 then numIterations else 0
      invariant s == After(width, |pasted|) && pasted == Pasted(width, |pasted|)
    {
      n := n - 1;
      pasted := pasted + [s.x];
      s := Advance(width, s);
    }
  }
}
