/**
 * examples/matrix.py: "digital rain". Every frame each drop draws a trail
 * of up to 16 coloured points above its head and then falls by its own
 * speed; on frames whose clock is a multiple of 3 or of 5 a new drop
 * appears on the top row, and the oldest drops are discarded once there are
 * more than 8 per pixel column.
 *
 * `random.randint` and `random.gauss` are parameters: each frame is given
 * the two numbers they would return on it. The y positions and speeds are
 * exact reals.
 */
module Matrix {

  /** `[x, y, speed]`, one entry of `blue_pilled_population`. */
  datatype Drop = Drop(x: int, y: real, speed: real)

  /** One `draw.point((x, y), fill=rgb)`. */
  datatype Point = Point(x: int, y: real, rgb: (int, int, int))

  /** `wrd_rgb`: the colour of each of the 16 trail positions, head first. */
  const Palette: seq<(int, int, int)> := [
    (154, 173, 154), (0, 255, 0), (0, 235, 0), (0, 220, 0),
    (0, 185, 0), (0, 165, 0), (0, 128, 0), (0, 0, 0),
    (154, 173, 154), (0, 145, 0), (0, 125, 0), (0, 100, 0),
    (0, 80, 0), (0, 60, 0), (0, 40, 0), (0, 0, 0)
  ]

  const TrailLength: nat := 16

  /** `max_population`. */
  function MaxPopulation(width: nat): nat
  {
    width * 8
  }

  /** Whether the k-th trail position of `d` is on the display. */
  predicate Visible(d: Drop, height: int, k: nat)
  {
    0.0 <= d.y - k as real < height as real
  }

  /** The point drawn for the k-th trail position. */
  function TrailPoint(d: Drop, k: nat): Point
    requires k < TrailLength
  {
    Point(d.x, d.y - k as real, Palette[k])
  }

  /** The points drawn for the first k trail positions of `d`, in order. */
  function TrailUpTo(d: Drop, height: int, k: nat): (pts: seq<Point>)
    requires k <= TrailLength
    ensures |pts| <= k
  {
    if k == 0 then []
    else TrailUpTo(d, height, k - 1) + (if Visible(d, height, k - 1) then [TrailPoint(d, k - 1)] else [])
  }

  /** The points the inner `for rgb in wrd_rgb` loop draws for `d`. */
  function Trail(d: Drop, height: int): seq<Point>
  {
    TrailUpTo(d, height, TrailLength)
  }

  /**
   * A point is drawn for the k-th position exactly when that position is
   * on the display, and every point drawn is one of those.
   */
  lemma {:induction false} TrailUpToMembers(d: Drop, height: int, k: nat, p: Point)
    requires k <= TrailLength
    ensures p in TrailUpTo(d, height, k) <==>
              exists j :: 0 <= j < k && Visible(d, height, j) && p == TrailPoint(d, j)
  {
    if k > 0 {
      TrailUpToMembers(d, height, k - 1, p);
      if p in TrailUpTo(d, height, k) && p !in TrailUpTo(d, height, k - 1) {
        assert Visible(d, height, k - 1) && p == TrailPoint(d, k - 1);
      }
    }
  }

  /**
   * The trail of a drop is the visible part of its 16 positions: at most
   * 16 points, all in its column and on the display.
   */
  lemma TrailShape(d: Drop, height: int, p: Point)
    ensures |Trail(d, height)| <= TrailLength
    ensures p in Trail(d, height) <==>
              exists j :: 0 <= j < TrailLength && Visible(d, height, j) && p == TrailPoint(d, j)
    ensures p in Trail(d, height) ==> p.x == d.x && 0.0 <= p.y < height as real
  {
    TrailUpToMembers(d, height, TrailLength, p);
  }

  /** Every point drawn in one frame for `pop`, drop by drop. */
  function Drawn(pop: seq<Drop>, height: int): seq<Point>
  {
    if |pop| == 0 then [] else Drawn(pop[..|pop| - 1], height) + Trail(pop[|pop| - 1], height)
  }

  /** A frame draws at most 16 points per drop, all of them on the display. */
  lemma {:induction false} DrawnBounds(pop: seq<Drop>, height: int, p: Point)
    ensures |Drawn(pop, height)| <= TrailLength * |pop|
    ensures p in Drawn(pop, height) ==> 0.0 <= p.y < height as real && exists d :: d in pop && p.x == d.x
  {
    if |pop| > 0 {
      var init, last := pop[..|pop| - 1], pop[|pop| - 1];
      DrawnBounds(init, height, p);
      TrailShape(last, height, p);
      if p in Drawn(init, height) {
        var d :| d in init && p.x == d.x;
        assert d in pop;
      } else if p in Trail(last, height) {
        assert last in pop;
      }
    }
  }

  /** `person[1] += speed`. */
  function Fall(d: Drop): (e: Drop)
    ensures e.x == d.x && e.speed == d.speed && e.y == d.y + d.speed
  {
    d.(y := d.y + d.speed)
  }

  /** Every drop after one frame of falling. */
  function Moved(pop: seq<Drop>): (r: seq<Drop>)
    ensures |r| == |pop| && forall i :: 0 <= i < |pop| ==> r[i] == Fall(pop[i])
  {
    seq(|pop|, i requires 0 <= i < |pop| => Fall(pop[i]))
  }

  /** Whether frame `clock` calls `increase_population`. */
  predicate Spawns(clock: int)
  {
    clock % 5 == 0 || clock % 3 == 0
  }

  /** `while len(population) > max: population.pop(0)`: keep the newest `max`. */
  function Trimmed(pop: seq<Drop>, max: nat): (r: seq<Drop>)
  {
    if |pop| > max then pop[|pop| - max..] else pop
  }

  /**
   * Trimming keeps min(|pop|, max) drops, and those are the newest ones,
   * in their order.
   */
  lemma TrimmedNewest(pop: seq<Drop>, max: nat)
    ensures var r := Trimmed(pop, max);
            |r| == (if |pop| < max then |pop| else max)
            && forall i :: 0 <= i < |r| ==> r[i] == pop[|pop| - |r| + i]
  {
  }

  /** The population that frame `clock` leaves behind, given the drop it would create. */
  function NextPopulation(pop: seq<Drop>, clock: int, newcomer: Drop, max: nat): seq<Drop>
  {
    Trimmed(Moved(pop) + (if Spawns(clock) then [newcomer] else []), max)
  }

  /** A drop created by `increase_population` from its `(randint, gauss)` draws: on the top row. */
  function NewDrop(choice: (int, real)): Drop
  {
    Drop(choice.0, 0.0, choice.1)
  }

  /**
   * The population after |choices| frames, frame k being offered the draws
   * `choices[k - 1]` (used only when it creates a drop).
   */
  function Population(width: nat, choices: seq<(int, real)>): seq<Drop>
  {
    if |choices| == 0 then []
    else NextPopulation(Population(width, choices[..|choices| - 1]), |choices|, NewDrop(choices[|choices| - 1]), MaxPopulation(width))
  }

  /** How many of the frames 1..k create a drop. */
  function SpawnCount(k: nat): nat
  {
    if k == 0 then 0 else SpawnCount(k - 1) + (if Spawns(k) then 1 else 0)
  }

  /** Seven of every fifteen consecutive frames create a drop. */
  lemma {:induction false} SpawnPeriod(k: nat)
    ensures SpawnCount(k + 15) == SpawnCount(k) + 7
  {
    if k > 0 {
      SpawnPeriod(k - 1);
      assert Spawns(k + 15) == Spawns(k);
    } else {
      assert SpawnCount(15) == 7;
    }
  }

  function Min(a: int, b: int): int
  {
    if a < b then a else b
  }

  /**
   * After k frames the population is the number of drops created so far,
   * capped at 8 per column.
   */
  lemma {:induction false} PopulationSize(width: nat, choices: seq<(int, real)>)
    ensures |Population(width, choices)| == Min(SpawnCount(|choices|), MaxPopulation(width))
  {
    if |choices| > 0 {
      PopulationSize(width, choices[..|choices| - 1]);
      var k := |choices|;
      var grown := Moved(Population(width, choices[..k - 1])) + (if Spawns(k) then [NewDrop(choices[k - 1])] else []);
      TrimmedNewest(grown, MaxPopulation(width));
    }
  }

  /** Whether every drop lies in one of the columns 0..width that `randint(0, width)` picks. */
  predicate InColumns(width: nat, pop: seq<Drop>)
  {
    forall i :: 0 <= i < |pop| ==> 0 <= pop[i].x <= width
  }

  /** Whether every `randint(0, width)` draw lies in 0..width, as `randint` promises. */
  predicate DrawsInColumns(width: nat, choices: seq<(int, real)>)
  {
    forall i :: 0 <= i < |choices| ==> 0 <= choices[i].0 <= width
  }

  /**
   * When every draw is a column 0..width, every drop of the population lies
   * in one: drops only fall.
   */
  lemma {:induction false} PopulationInColumns(width: nat, choices: seq<(int, real)>)
    requires DrawsInColumns(width, choices)
    ensures InColumns(width, Population(width, choices))
  {
    if |choices| > 0 {
      var k := |choices|;
      PopulationInColumns(width, choices[..k - 1]);
      var grown := Moved(Population(width, choices[..k - 1])) + (if Spawns(k) then [NewDrop(choices[k - 1])] else []);
      assert InColumns(width, grown);
      TrimmedNewest(grown, MaxPopulation(width));
    }
  }

  /**
   * The newest drop is the last one: on a frame that creates a drop (and
   * with room for at least one) the population ends with it.
   */
  lemma NewestLast(pop: seq<Drop>, clock: int, newcomer: Drop, max: nat)
    requires Spawns(clock) && max > 0
    ensures var r := NextPopulation(pop, clock, newcomer, max);
            |r| > 0 && r[|r| - 1] == newcomer
  {
    TrimmedNewest(Moved(pop) + [newcomer], max);
  }

  /** The inner loop over `wrd_rgb` for one drop. */
  method DrawTrail(d: Drop, height: int) returns (pts: seq<Point>)
    ensures pts == Trail(d, height)
  {
    var y := d.y;
    pts := [];
    for k := 0 to TrailLength
      invariant y == d.y - k as real
      invariant pts == TrailUpTo(d, height, k)
    {
      if 0.0 <= y < height as real {
        pts := pts + [Point(d.x, y, Palette[k])];
      }
      y := y - 1.0;
    }
  }

  /** The state `matrix(device)` keeps between frames. */
  class Rain {
    const width: nat
    const height: int
    var clock: int
    /** `blue_pilled_population`, oldest first. */
    var population: seq<Drop>

    constructor (width: nat, height: int)
      ensures this.width == width && this.height == height
      ensures clock == 0 && population == []
    {
      this.width := width;
      this.height := height;
      clock := 0;
      population := [];
    }

    /** The canvas block: draws every trail and moves every drop down. */
    method DrawAndFall() returns (points: seq<Point>)
      modifies this
      ensures clock == old(clock)
      ensures points == Drawn(old(population), height)
      ensures population == Moved(old(population))
    {
      var before := population;
      points := [];
      for i := 0 to |before|
        invariant clock == old(clock)
        invariant |population| == |before|
        invariant forall j :: 0 <= j < i ==> population[j] == Fall(before[j])
        invariant forall j :: i <= j < |before| ==> population[j] == before[j]
        invariant points == Drawn(before[..i], height)
      {
        var pts := DrawTrail(population[i], height);
        assert before[..i + 1][..i] == before[..i];
        points := points + pts;
        population := population[i := Fall(population[i])];
      }
      assert before[..|before|] == before;
    }

    /** The `while len(...) > max_population` loop. */
    method Trim()
      modifies this
      ensures clock == old(clock)
      ensures population == Trimmed(old(population), MaxPopulation(width))
    {
      var max := MaxPopulation(width);
      var s := population;
      while |population| > max
        invariant |population| <= |s| && population == s[|s| - |population|..]
        invariant |s| > max ==> |population| >= max
        invariant |s| <= max ==> population == s
        invariant clock == old(clock)
      {
        population := population[1..];
      }
    }

    /**
     * One pass of the `while True` loop, given the drop
     * `increase_population` would create on it.
     */
    method Frame(choice: (int, real)) returns (points: seq<Point>)
      modifies this
      ensures clock == old(clock) + 1
      ensures points == Drawn(old(population), height)
      ensures population == NextPopulation(old(population), clock, NewDrop(choice), MaxPopulation(width))
    {
      clock := clock + 1;
      points := DrawAndFall();
      if clock % 5 == 0 || clock % 3 == 0 {
        var (x, speed) := choice;
        population := population + [Drop(x, 0.0, speed)];
      }
      Trim();
    }
  }

  /**
   * `matrix(device)` run for |choices| frames, frame k being offered
   * the draws `choices[k - 1]`: the points of every frame and the
   * population at the end.
   */
  method Run(width: nat, height: int, choices: seq<(int, real)>) returns (frames: seq<seq<Point>>, pop: seq<Drop>)
    ensures pop == Population(width, choices)
    ensures |frames| == |choices|
    ensures forall k :: 0 <= k < |choices| ==> frames[k] == Drawn(Population(width, choices[..k]), height)
  {
    var rain := new Rain(width, height);
    frames := [];
    for i := 0 to |choices|
      invariant rain.width == width && rain.height == height
      invariant rain.clock == i
      invariant rain.population == Population(width, choices[..i])
      invariant |frames| == i
      invariant forall k :: 0 <= k < i ==> frames[k] == Drawn(Population(width, choices[..k]), height)
    {
      var points := rain.Frame(choices[i]);
      assert choices[..i + 1][..i] == choices[..i];
      frames := frames + [points];
    }
    assert choices[..|choices|] == choices;
    pop := rain.population;
  }
}
