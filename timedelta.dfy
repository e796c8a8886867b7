/**
 * The part of Python's `datetime.timedelta` the uptime lines use: the
 * normalised (days, seconds, microseconds) form of a duration and `str()`
 * of it, "[D day[s], ]H:MM:SS[.ffffff]".
 */
module Timedelta {
  import opened Text

  const MicrosPerSecond: int := 1000000
  const SecondsPerDay: int := 86400

  /** A duration; `Normal` holds for every value Python constructs. */
  datatype Delta = Delta(days: int, seconds: int, microseconds: int)

  predicate Normal(d: Delta)
  {
    0 <= d.seconds < SecondsPerDay && 0 <= d.microseconds < MicrosPerSecond
  }

  /** The length of a duration in microseconds. */
  function TotalMicros(d: Delta): int
  {
    (d.days * SecondsPerDay + d.seconds) * MicrosPerSecond + d.microseconds
  }

  /** `timedelta(microseconds=us)`: the normal form of a duration, negative ones included. */
  function FromMicros(us: int): (d: Delta)
    ensures Normal(d)
    ensures TotalMicros(d) == us
  {
    var secs := us / MicrosPerSecond;
    Delta(secs / SecondsPerDay, secs % SecondsPerDay, us % MicrosPerSecond)
  }

  /** The normal form is unique: normalising a normal duration gives it back. */
  lemma FromMicrosOfNormal(d: Delta)
    requires Normal(d)
    ensures FromMicros(TotalMicros(d)) == d
  {
    var secs := d.days * SecondsPerDay + d.seconds;
    var us := secs * MicrosPerSecond + d.microseconds;
    assert us / MicrosPerSecond == secs && us % MicrosPerSecond == d.microseconds by {
      DivModUnique(us, MicrosPerSecond, secs, d.microseconds);
    }
    assert secs / SecondsPerDay == d.days && secs % SecondsPerDay == d.seconds by {
      DivModUnique(secs, SecondsPerDay, d.days, d.seconds);
    }
  }

  lemma DivModUnique(n: int, m: int, q: int, r: int)
    requires m > 0 && 0 <= r < m && n == q * m + r
    ensures n / m == q && n % m == r
  {
    var q', r' := n / m, n % m;
    assert (q' - q) * m == r - r';
    MultipleInOpenInterval(q' - q, m);
  }

  lemma MultipleInOpenInterval(k: int, m: int)
    requires m > 0 && -m < k * m < m
    ensures k == 0
  {
    MultipleSign(k, m);
  }

  lemma MultipleSign(k: int, m: int)
    requires m > 0
    ensures k >= 1 ==> k * m >= m
    ensures k <= -1 ==> k * m <= -m
  {
    if k >= 1 {
      assert k * m == (k - 1) * m + m;
      assert (k - 1) * m >= 0;
    } else if k <= -1 {
      assert k * m == (k + 1) * m - m;
      assert (k + 1) * m <= 0;
    }
  }

  /** `str(d)`. */
  function ToString(d: Delta): string
    requires Normal(d)
  {
    WholeSeconds(d) + (if d.microseconds != 0 then "." + ZeroPad(d.microseconds, 6) else "")
  }

  /** `str(d)` without the fractional part. */
  function WholeSeconds(d: Delta): string
    requires Normal(d)
  {
    var mm := d.seconds / 60;
    var ss := d.seconds % 60;
    var hh := mm / 60;
    var clock := NatToString(hh) + ":" + ZeroPad(mm % 60, 2) + ":" + ZeroPad(ss, 2);
    if d.days != 0 then
      IntToString(d.days) + " day" + (if d.days == 1 || d.days == -1 then "" else "s") + ", " + clock
    else clock
  }

  lemma DigitsHaveNoDot(s: string)
    requires IsDigits(s)
    ensures '.' !in s
  {
    assert forall k :: 0 <= k < |s| ==> s[k] != '.';
  }

  /** The fraction never leaks into the whole-seconds text. */
  lemma WholeSecondsHasNoDot(d: Delta)
    requires Normal(d)
    ensures '.' !in WholeSeconds(d)
  {
    var mm := d.seconds / 60;
    var hh := mm / 60;
    DigitsHaveNoDot(NatToString(hh));
    DigitsHaveNoDot(ZeroPad(mm % 60, 2));
    DigitsHaveNoDot(ZeroPad(d.seconds % 60, 2));
    IntToStringChars(d.days);
    assert '.' !in IntToString(d.days);
  }

  /**
   * `str(d).split('.')[0]`, the way the uptime lines print a duration, is
   * the text of `d` with its microseconds dropped.
   */
  lemma SplitAtDot(d: Delta)
    requires Normal(d)
    ensures TakeUntil(ToString(d), '.') == ToString(d.(microseconds := 0))
  {
    var w := WholeSeconds(d);
    var frac := if d.microseconds != 0 then "." + ZeroPad(d.microseconds, 6) else "";
    WholeSecondsHasNoDot(d);
    TakeUntilAppend(w, frac, '.');
    assert TakeUntil(frac, '.') == [];
    assert w + [] == w;
    assert WholeSeconds(d.(microseconds := 0)) == w;
  }

  /** The uptime as both uptime lines print it: `str(d)` cut at the first ".". */
  function UptimeText(d: Delta): (r: string)
    requires Normal(d)
    ensures r == ToString(d.(microseconds := 0))
  {
    SplitAtDot(d);
    TakeUntil(ToString(d), '.')
  }
}
