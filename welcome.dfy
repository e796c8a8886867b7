/**
 * examples/welcome.py: the generators `lerp_1d`, `lerp_2d` and `pairs`,
 * modelled as the sequences they yield. The interpolation is done on exact
 * rationals rather than on floats.
 */
module Welcome {
  import opened Wrappers

  /** The exception `lerp_1d` raises on its first value when `n` is 0. */
  datatype Failure = ZeroDivisionError

  /** Python 3's `round` on a number: to the nearest integer, ties to even. */
  function RoundHalfEven(x: real): (r: int)
    ensures x.Floor <= r <= x.Floor + 1
    ensures r == x.Floor + 1 ==> x > x.Floor as real
    ensures -0.5 <= r as real - x <= 0.5
  {
    var f := x.Floor;
    var frac := x - f as real;
    if frac < 0.5 then f
    else if frac > 0.5 then f + 1
    else if f % 2 == 0 then f else f + 1
  }

  /** Rounding a number that lies between two integers keeps it between them. */
  lemma RoundWithin(x: real, lo: int, hi: int)
    requires lo as real <= x <= hi as real
    ensures lo <= RoundHalfEven(x) <= hi
  {
  }

  /** The i-th step of the interpolation from `start` to `end` in `n` steps. */
  function Step(start: int, end: int, n: int, i: int): int
    requires n != 0
  {
    RoundHalfEven(start as real + i as real * ((end - start) as real / n as real))
  }

  /**
   * `list(lerp_1d(start, end, n))`: the n rounded steps, then `end`. With
   * `n` = 0 the division raises before anything is yielded; with `n` < 0
   * only `end` is yielded.
   */
  function Lerp1d(start: int, end: int, n: int): (r: Result<seq<int>, Failure>)
    ensures n == 0 <==> r == Err(ZeroDivisionError)
    ensures n != 0 ==> r.Ok? && |r.value| == (if n > 0 then n else 0) + 1 && r.value[|r.value| - 1] == end
    ensures n > 0 ==> r.Ok? && r.value[0] == start
  {
    if n == 0 then Err(ZeroDivisionError)
    else
      var steps := if n > 0 then seq(n, i requires 0 <= i < n => Step(start, end, n, i)) else [];
      assert n > 0 ==> steps[0] == RoundHalfEven(start as real);
      Ok(steps + [end])
  }

  /** A product with a factor in [0, 1) stays between 0 and the other factor. */
  lemma ScaledDown(k: int, n: int, span: real)
    requires 0 <= k < n
    ensures var y := k as real * (span / n as real);
            (0.0 <= span ==> 0.0 <= y <= span) && (span <= 0.0 ==> span <= y <= 0.0)
  {
    var d := span / n as real;
    assert n as real * d == span;
    if 0.0 <= span {
      assert d >= 0.0;
      assert k as real * d <= n as real * d;
    } else {
      assert d <= 0.0;
      assert k as real * d >= n as real * d;
    }
  }

  /** Every step lies between the two end points. */
  lemma StepBetween(start: int, end: int, n: int, k: int)
    requires 0 <= k < n
    ensures var v := Step(start, end, n, k);
            (start <= end ==> start <= v <= end) && (end <= start ==> end <= v <= start)
  {
    var x := start as real + k as real * ((end - start) as real / n as real);
    ScaledDown(k, n, (end - start) as real);
    if start <= end {
      RoundWithin(x, start, end);
    } else {
      RoundWithin(x, end, start);
    }
  }

  /** Every value `lerp_1d` yields lies between the two end points. */
  lemma Lerp1dBetween(start: int, end: int, n: int, k: nat)
    requires n != 0 && k < |Lerp1d(start, end, n).value|
    ensures var v := Lerp1d(start, end, n).value[k];
            (start <= end ==> start <= v <= end) && (end <= start ==> end <= v <= start)
  {
    if k < n {
      StepBetween(start, end, n, k);
      assert Lerp1d(start, end, n).value[k] == Step(start, end, n, k);
    }
  }

  /**
   * `list(zip(xs, ys))` as `lerp_2d` builds it: it draws from `xs` first and
   * stops at the first generator that runs out.
   */
  function Zip<A, B>(xs: seq<A>, ys: seq<B>): (r: seq<(A, B)>)
    ensures |r| == if |xs| < |ys| then |xs| else |ys|
    ensures forall i :: 0 <= i < |r| ==> r[i] == (xs[i], ys[i])
  {
    var m := if |xs| < |ys| then |xs| else |ys|;
    seq(m, i requires 0 <= i < m => (xs[i], ys[i]))
  }

  /** `list(lerp_2d(start, end, n))`: both coordinates interpolated, step by step. */
  function Lerp2d(start: (int, int), end: (int, int), n: int): (r: Result<seq<(int, int)>, Failure>)
    ensures n == 0 <==> r == Err(ZeroDivisionError)
    ensures n != 0 ==> r.Ok? && |r.value| == (if n > 0 then n else 0) + 1 && r.value[|r.value| - 1] == end
    ensures n > 0 ==> r.Ok? && r.value[0] == start
  {
    match (Lerp1d(start.0, end.0, n), Lerp1d(start.1, end.1, n))
    case (Err(e), _) => Err(e)
    case (_, Err(e)) => Err(e)
    case (Ok(xs), Ok(ys)) => Ok(Zip(xs, ys))
  }

  /**
   * The glide in `main`, `lerp_2d(posn_a, posn_b, device.width // 4)`:
   * displays narrower than 4 pixels raise, wider ones visit
   * `width // 4 + 1` positions from `posn_a` to `posn_b`.
   */
  lemma Glide(posnA: (int, int), posnB: (int, int), width: nat)
    ensures width < 4 ==> Lerp2d(posnA, posnB, width / 4) == Err(ZeroDivisionError)
    ensures width >= 4 ==> var r := Lerp2d(posnA, posnB, width / 4).value;
                           |r| == width / 4 + 1 && r[0] == posnA && r[|r| - 1] == posnB
  {
  }

  /**
   * `list(pairs(items))`: each item with the one after it; a run of fewer
   * than two items gives nothing.
   */
  function Pairs<T>(items: seq<T>): (r: seq<(T, T)>)
    ensures |r| == if |items| < 2 then 0 else |items| - 1
    ensures forall i :: 0 <= i < |r| ==> r[i] == (items[i], items[i + 1])
  {
    if |items| < 2 then [] else [(items[0], items[1])] + Pairs(items[1..])
  }

  /** Consecutive pairs overlap: the second of one is the first of the next. */
  lemma PairsChain<T>(items: seq<T>, i: nat)
    requires i + 1 < |Pairs(items)|
    ensures Pairs(items)[i].1 == Pairs(items)[i + 1].0
  {
    assert Pairs(items)[i] == (items[i], items[i + 1]);
    assert Pairs(items)[i + 1] == (items[i + 1], items[i + 2]);
  }

  /** The items a run of overlapping pairs walks through. */
  function Walk<T>(ps: seq<(T, T)>): (items: seq<T>)
    requires |ps| > 0
  {
    [ps[0].0] + seq(|ps|, i requires 0 <= i < |ps| => ps[i].1)
  }

  /** Walking the pairs gives the items back. */
  lemma WalkPairs<T>(items: seq<T>)
    requires |items| >= 2
    ensures Walk(Pairs(items)) == items
  {
    var w := Walk(Pairs(items));
    assert |w| == |items|;
    forall k | 0 <= k < |items|
      ensures w[k] == items[k]
    {
      if k > 0 {
        assert w[k] == Pairs(items)[k - 1].1;
      }
    }
  }
}
