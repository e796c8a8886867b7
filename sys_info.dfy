/**
 * examples/sys_info.py: `bytes2human`, the cached public address of
 * `IPAddressChecker` and the uptime split of `cpu_usage`.
 */
module SysInfo {
  import opened Wrappers
  import opened Text
  import opened Timedelta

  /** The binary prefixes, smallest first. */
  const Symbols: string := "KMGTPEZY"

  /** 1024^k, the value of `1 << k * 10`. */
  function Pow1024(k: nat): (p: nat)
    ensures p >= 1
  {
    if k == 0 then 1 else 1024 * Pow1024(k - 1)
  }

  /** How often a count divides by 1024 while staying at least 1024, at most 8 times. */
  function Scale(n: int): (k: nat)
    ensures k <= 8
    decreases if n < 0 then 0 else n
  {
    if n < 1024 then 0 else var k := 1 + Scale(n / 1024); if k > 8 then 8 else k
  }

  /** The reading of a byte count: scaled down by 1024 while it fits, then the prefix letter. */
  function Human(n: int): string
  {
    var k := Scale(n);
    if k == 0 then IntToString(n) + "B" else IntToString(n / Pow1024(k)) + [Symbols[k - 1]]
  }

  lemma DivAtLeast(n: int, d: int, p: int)
    requires d > 0
    ensures n / d >= p <==> n >= d * p
  {
    var q := n / d;
    assert n - d * p == (q - p) * d + n % d;
    MultipleSign(q - p, d);
  }

  /** The scale reaches m exactly when the count reaches the m-th prefix. */
  lemma {:induction false} ScaleAtLeast(n: int, m: nat)
    requires 1 <= m <= 8
    ensures Scale(n) >= m <==> n >= Pow1024(m)
    decreases m
  {
    if m > 1 && n >= 1024 {
      ScaleAtLeast(n / 1024, m - 1);
      DivAtLeast(n, 1024, Pow1024(m - 1));
    } else if m > 1 {
      assert Pow1024(m) == 1024 * Pow1024(m - 1);
    }
  }

  /** The prefixes are distinct letters, so building the table loses no entry. */
  lemma SymbolsDistinct()
    ensures forall a, b :: 0 <= a < b < |Symbols| ==> Symbols[a] != Symbols[b]
  {
    forall a, b | 0 <= a < b < |Symbols|
      ensures Symbols[a] != Symbols[b]
    {
      assert Symbols == ['K', 'M', 'G', 'T', 'P', 'E', 'Z', 'Y'];
    }
  }

  /** The `prefix` table of `bytes2human`: the k-th letter stands for 1024^k. */
  method PrefixTable() returns (prefix: map<char, nat>)
    ensures forall j :: 0 <= j < |Symbols| ==> Symbols[j] in prefix && prefix[Symbols[j]] == Pow1024(j + 1)
  {
    SymbolsDistinct();
    prefix := map[];
    for i := 0 to |Symbols|
      invariant forall j :: 0 <= j < i ==> Symbols[j] in prefix && prefix[Symbols[j]] == Pow1024(j + 1)
    {
      prefix := prefix[Symbols[i] := Pow1024(i + 1)];
    }
  }

  /**
   * `bytes2human`: builds the prefix table, then tries the prefixes from
   * the largest down and uses the first that fits.
   */
  method Bytes2Human(n: int) returns (s: string)
    ensures s == Human(n)
  {
    var prefix := PrefixTable();
    var j := |Symbols|;
    while j > 0
      invariant 0 <= j <= |Symbols|
      invariant forall t :: j + 1 <= t <= |Symbols| ==> n < Pow1024(t)
    {
      j := j - 1;
      var sym := Symbols[j];
      if n >= prefix[sym] {
        HumanAt(n, j);
        return IntToString(n / prefix[sym]) + [sym];
      }
    }
    ScaleAtLeast(n, 1);
    return IntToString(n) + "B";
  }

  /** The reading of a count that reaches the (j+1)-th prefix but not the next. */
  lemma HumanAt(n: int, j: nat)
    requires j < |Symbols| && n >= Pow1024(j + 1)
    requires j + 1 < |Symbols| ==> n < Pow1024(j + 2)
    ensures Human(n) == IntToString(n / Pow1024(j + 1)) + [Symbols[j]]
  {
    ScaleIs(n, j + 1);
  }

  /** A count at least the m-th power of 1024 and below the next has scale m. */
  lemma ScaleIs(n: int, m: nat)
    requires 1 <= m <= 8 && n >= Pow1024(m)
    requires m < 8 ==> n < Pow1024(m + 1)
    ensures Scale(n) == m
  {
    ScaleAtLeast(n, m);
    if m < 8 {
      ScaleAtLeast(n, m + 1);
    }
  }

  /**
   * Below the largest prefix the figure printed before the letter lies
   * in [1, 1023]; with the largest it is at least 1.
   */
  lemma HumanFigure(n: int)
    ensures Scale(n) >= 1 ==> n / Pow1024(Scale(n)) >= 1
    ensures 1 <= Scale(n) < 8 ==> n / Pow1024(Scale(n)) <= 1023
  {
    var k := Scale(n);
    if k >= 1 {
      ScaleAtLeast(n, k);
      DivAtLeast(n, Pow1024(k), 1);
      if k < 8 {
        ScaleAtLeast(n, k + 1);
        DivAtLeast(n, Pow1024(k), 1024);
      }
    }
  }

  /** Counts below 1024 print as themselves followed by "B". */
  lemma HumanSmall(n: int)
    requires n < 1024
    ensures Human(n) == IntToString(n) + "B"
  {
  }

  /** The doctests of `bytes2human`. */
  lemma HumanDoctests()
    ensures Human(10000) == "9K"
    ensures Human(100001221) == "95M"
  {
    assert Scale(9) == 0 && Scale(10000) == 1;
    assert Scale(95) == 0 && Scale(97657) == 1 && Scale(100001221) == 2;
    assert Pow1024(2) == 1048576;
    assert NatToString(9) == "9";
    assert NatToString(95) == NatToString(9) + "5";
  }

  /** Python's `int(x)` (and `%d`) on a float: truncation toward zero. */
  function Trunc(x: real): int
  {
    if x >= 0.0 then x.Floor else -((-x).Floor)
  }

  /** `divmod(uptime.seconds, 3600)` and `divmod(remainder, 60)`: whole hours and minutes within the day. */
  function UptimeSplit(uptime: Delta): (r: (nat, nat))
    requires Normal(uptime)
    ensures r.0 <= 23 && r.1 <= 59
    ensures r.0 * 3600 + r.1 * 60 <= uptime.seconds < r.0 * 3600 + r.1 * 60 + 60
  {
    var hours := uptime.seconds / 3600;
    var remainder := uptime.seconds % 3600;
    (hours, remainder / 60)
  }

  /** `cpu_usage`: "CPU: <percent>% Up: <days>d<hours>h<minutes>m". */
  function CpuUsage(cpuPercent: real, uptime: Delta): string
    requires Normal(uptime)
  {
    var (hours, minutes) := UptimeSplit(uptime);
    "CPU: " + IntToString(Trunc(cpuPercent)) + "% Up: " + IntToString(uptime.days) + "d"
    + NatToString(hours) + "h" + NatToString(minutes) + "m"
  }

  const DefaultCacheDuration: real := 14400.0

  /** The two fields of an `IPAddressChecker` that `get_ip_address` updates. */
  datatype CheckerState = CheckerState(ipAddress: Option<string>, lastChecked: Option<real>)

  /** One `get_ip_address` call: the clock before, the retrieval (`None` when it raised) and the clock after. */
  datatype Call = Call(now: real, retrieved: Option<string>, later: real)

  /** `_retrieve_ip_address`: a failure is reported as the empty string. */
  function RetrievedText(retrieved: Option<string>): string
  {
    match retrieved
    case None => ""
    case Some(address) => address
  }

  /** A new retrieval is due on the first call and once strictly more than the cache time has passed. */
  predicate Due(lastChecked: Option<real>, now: real, cacheDuration: real)
  {
    lastChecked.None? || now - lastChecked.value > cacheDuration
  }

  /** The checker's state after one call. */
  function Next(st: CheckerState, cacheDuration: real, c: Call): (r: CheckerState)
    requires st.lastChecked.Some? ==> st.ipAddress.Some?
    ensures r.ipAddress.Some? && r.lastChecked.Some?
    ensures Due(st.lastChecked, c.now, cacheDuration) ==>
              r == CheckerState(Some(RetrievedText(c.retrieved)), Some(c.later))
    ensures !Due(st.lastChecked, c.now, cacheDuration) ==> r == st
    ensures st.lastChecked.None? ==> r.ipAddress == Some(RetrievedText(c.retrieved))
  {
    if Due(st.lastChecked, c.now, cacheDuration) then
      CheckerState(Some(RetrievedText(c.retrieved)), Some(c.later))
    else st
  }

  /** The state after a run of calls. */
  function Run(st: CheckerState, cacheDuration: real, calls: seq<Call>): (r: CheckerState)
    requires st.lastChecked.Some? ==> st.ipAddress.Some?
    ensures r.lastChecked.Some? ==> r.ipAddress.Some?
    ensures |calls| > 0 ==> r.ipAddress.Some?
    decreases |calls|
  {
    if |calls| == 0 then st else Run(Next(st, cacheDuration, calls[0]), cacheDuration, calls[1..])
  }

  /**
   * Calls that come no later than the cache time after the last retrieval
   * are all cache hits: they return the cached address and change nothing.
   */
  lemma {:induction false} CacheHits(st: CheckerState, cacheDuration: real, calls: seq<Call>)
    requires st.lastChecked.Some? && st.ipAddress.Some?
    requires forall k :: 0 <= k < |calls| ==> calls[k].now - st.lastChecked.value <= cacheDuration
    ensures Run(st, cacheDuration, calls) == st
    decreases |calls|
  {
    if |calls| > 0 {
      assert Next(st, cacheDuration, calls[0]) == st;
      assert forall k :: 0 <= k < |calls| - 1 ==> calls[1..][k] == calls[k + 1];
      CacheHits(st, cacheDuration, calls[1..]);
    }
  }

  class IPAddressChecker {
    var ipAddress: Option<string>
    var lastChecked: Option<real>
    const cacheDuration: real

    function State(): CheckerState
      reads this
    {
      CheckerState(ipAddress, lastChecked)
    }

    ghost predicate Valid()
      reads this
    {
      lastChecked.Some? ==> ipAddress.Some?
    }

    constructor (cacheDurationInSeconds: real := DefaultCacheDuration)
      ensures Valid() && State() == CheckerState(None, None)
      ensures cacheDuration == cacheDurationInSeconds
    {
      ipAddress := None;
      lastChecked := None;
      cacheDuration := cacheDurationInSeconds;
    }

    /** `get_ip_address`, with the clock readings and the retrieval's outcome as parameters. */
    method GetIpAddress(now: real, retrieved: Option<string>, later: real) returns (ip: string)
      requires Valid()
      modifies this
      ensures Valid()
      ensures State() == Next(old(State()), cacheDuration, Call(now, retrieved, later))
      ensures Some(ip) == ipAddress
    {
      if lastChecked.None? || now - lastChecked.value > cacheDuration {
        ipAddress := Some(RetrievedText(retrieved));
        lastChecked := Some(later);
      }
      return ipAddress.value;
    }
  }
}
