/**
 * examples/sysinfo.py, the compact monitor: the same `bytes2human` as
 * examples/sys_info.py (modelled once, in `SysInfo`), and `stats`, which
 * draws up to six 10-pixel lines depending on the display height.
 */
module SysinfoCompact {
  import opened Wrappers
  import opened Text
  import opened Timedelta
  import opened SysInfo

  /** The lines `stats` can draw, top to bottom. */
  datatype Row = Load | Memory | Disk | Network | Uptime | Ip

  /** `network('wlan0')`. */
  function NetworkLine(sent: int, recv: int): (r: string)
    ensures |r| == 13 + |Human(sent)| + |Human(recv)|
    ensures r[..9] == "wlan0: Tx" && r[9..9 + |Human(sent)|] == Human(sent)
    ensures r[9 + |Human(sent)|..13 + |Human(sent)|] == ", Rx" && r[13 + |Human(sent)|..] == Human(recv)
  {
    var a, b := Human(sent), Human(recv);
    ConcatParts("wlan0: Tx", a, ", Rx", b);
    "wlan0: Tx" + a + ", Rx" + b
  }

  /** `uptime_usage`: the uptime without its fraction of a second. */
  function UptimeUsage(uptime: Delta): (r: string)
    requires Normal(uptime)
    ensures r == "Up: " + ToString(uptime.(microseconds := 0))
  {
    "Up: " + UptimeText(uptime)
  }

  /** `ip_usage`: the first word of `hostname -I`. */
  function IpUsage(hostnameOutput: string): (r: string)
    ensures |r| >= 4 && r[..4] == "IP: " && ' ' !in r[4..]
    ensures r[4..] <= hostnameOutput
    ensures |r| - 4 < |hostnameOutput| ==> hostnameOutput[|r| - 4] == ' '
  {
    "IP: " + TakeUntil(hostnameOutput, ' ')
  }

  /** Lines are 10 pixels apart from the top. */
  function Place(rows: seq<Row>): (placed: seq<(int, Row)>)
    ensures |placed| == |rows|
    ensures forall k :: 0 <= k < |rows| ==> placed[k] == (10 * k, rows[k])
  {
    seq(|rows|, k requires 0 <= k < |rows| => (10 * k, rows[k]))
  }

  /**
   * `stats`: the rows drawn, with their y coordinates; `wlan0` says whether
   * the network counters have that key. The network line looks it up before
   * anything at y = 30 is drawn, so a `KeyError` drops that line and the two
   * after it, and keeps the ones above.
   */
  function Stats(height: int, wlan0: bool): (rows: seq<(int, Row)>)
    ensures |rows| == (if height < 32 then 1 else if height < 64 then 2 else if !wlan0 then 3 else 6)
    ensures forall k :: 0 <= k < |rows| ==> rows[k] == (10 * k, [Load, Memory, Disk, Network, Uptime, Ip][k])
  {
    var shown :=
      if height < 32 then [Load]
      else if height < 64 then [Load, Memory]
      else if !wlan0 then [Load, Memory, Disk]
      else [Load, Memory, Disk, Network, Uptime, Ip];
    Place(shown)
  }

  /**
   * The text of a row, for the rows whose text is not float formatting;
   * `counters` are the `wlan0` bytes sent and received.
   */
  function RowText(row: Row, counters: (int, int), uptime: Delta, hostnameOutput: string): (r: Option<string>)
    requires Normal(uptime)
    ensures r.Some? <==> row in {Network, Uptime, Ip}
    ensures row == Network ==> r == Some(NetworkLine(counters.0, counters.1))
    ensures row == Uptime ==> r == Some(UptimeUsage(uptime))
    ensures row == Ip ==> r == Some(IpUsage(hostnameOutput))
  {
    match row
    case Network => Some(NetworkLine(counters.0, counters.1))
    case Uptime => Some(UptimeUsage(uptime))
    case Ip => Some(IpUsage(hostnameOutput))
    case _ => None
  }

  /** Where each of four texts laid end to end sits. */
  lemma ConcatParts(p: string, a: string, q: string, b: string)
    ensures var r := p + a + q + b;
            && |r| == |p| + |a| + |q| + |b|
            && r[..|p|] == p && r[|p|..|p| + |a|] == a
            && r[|p| + |a|..|p| + |a| + |q|] == q && r[|p| + |a| + |q|..] == b
  {
    var r := p + a + q + b;
    assert r == p + (a + (q + b));
    assert r[|p|..] == a + (q + b);
  }
}
