/**
 * examples/sys_info_extended.py: choosing the IPv4 address to show, the
 * uptime text, the partial or full usage bars and the line that alternates
 * between uptime and address.
 */
module SysInfoExtended {
  import opened Wrappers
  import opened Text
  import opened Timedelta

  /** The address families `psutil.net_if_addrs` reports. */
  datatype Family = AfInet | AfInet6 | AfPacket

  datatype Addr = Addr(family: Family, address: string)

  /** The two fields of an interface's stats the sort uses, and its flag text. */
  datatype IfStat = IfStat(isup: bool, duplex: int, flags: string)

  /** `find_single_ipv4_address`: the first IPv4 entry's address, `None` if there is none. */
  function FindSingleIpv4(addrs: seq<Addr>): (r: Option<string>)
    ensures r.None? <==> forall k :: 0 <= k < |addrs| ==> addrs[k].family != AfInet
    ensures r.Some? ==> exists k :: 0 <= k < |addrs| && addrs[k].family == AfInet && addrs[k].address == r.value
                          && forall j :: 0 <= j < k ==> addrs[j].family != AfInet
  {
    if |addrs| == 0 then None
    else if addrs[0].family == AfInet then Some(addrs[0].address)
    else
      var r := FindSingleIpv4(addrs[1..]);
      assert forall k :: 1 <= k < |addrs| ==> addrs[1..][k - 1] == addrs[k];
      r
  }

  /** How `get_ipv4_address` was called: no name, a string, or some other value. */
  datatype NameArg = NoName | Name(name: string) | NotAString

  /** One entry of `if_stats`, in the dictionary's order. */
  datatype Interface = Interface(name: string, stat: IfStat)

  /** The sort key `(isup, duplex)`; `True` sorts above `False`. */
  predicate KeyAtLeast(a: IfStat, b: IfStat)
  {
    (a.isup && !b.isup) || (a.isup == b.isup && a.duplex >= b.duplex)
  }

  predicate SameKey(a: IfStat, b: IfStat)
  {
    a.isup == b.isup && a.duplex == b.duplex
  }

  /**
   * `"loopback" not in stat.flags`: the flags are one comma-separated
   * string. The entries kept stay in the order of `if_stats`
   * (`DropLoopbackAppend`).
   */
  function DropLoopback(ifs: seq<Interface>): (r: seq<Interface>)
    ensures |r| <= |ifs|
    ensures forall k :: 0 <= k < |r| ==> !Contains(r[k].stat.flags, "loopback") && r[k] in ifs
    ensures forall k :: 0 <= k < |ifs| && !Contains(ifs[k].stat.flags, "loopback") ==> ifs[k] in r
  {
    if |ifs| == 0 then []
    else (if Contains(ifs[0].stat.flags, "loopback") then [] else [ifs[0]]) + DropLoopback(ifs[1..])
  }

  /** The filter keeps order: filtering two lists laid end to end filters each in turn. */
  lemma {:induction false} DropLoopbackAppend(a: seq<Interface>, b: seq<Interface>)
    ensures DropLoopback(a + b) == DropLoopback(a) + DropLoopback(b)
    decreases |a|
  {
    if |a| == 0 {
      assert a + b == b;
    } else {
      assert (a + b)[0] == a[0];
      assert (a + b)[1..] == a[1..] + b;
      DropLoopbackAppend(a[1..], b);
    }
  }

  /** Places `x` after every entry whose key is at least its own. */
  function Insert(x: Interface, t: seq<Interface>): seq<Interface>
  {
    if |t| == 0 then [x]
    else if KeyAtLeast(t[0].stat, x.stat) then [t[0]] + Insert(x, t[1..])
    else [x] + t
  }

  /** `sorted(..., key=lambda x: (x[1].isup, x[1].duplex), reverse=True)`. */
  function SortDescending(s: seq<Interface>): seq<Interface>
    decreases |s|
  {
    if |s| == 0 then [] else Insert(s[|s| - 1], SortDescending(s[..|s| - 1]))
  }

  predicate Descending(t: seq<Interface>)
  {
    forall i, j :: 0 <= i < j < |t| ==> KeyAtLeast(t[i].stat, t[j].stat)
  }

  /** The entries of `t` with the key `k`, in order. */
  function WithKey(t: seq<Interface>, k: IfStat): seq<Interface>
  {
    if |t| == 0 then [] else (if SameKey(t[0].stat, k) then [t[0]] else []) + WithKey(t[1..], k)
  }

  lemma {:induction false} InsertMultiset(x: Interface, t: seq<Interface>)
    ensures multiset(Insert(x, t)) == multiset(t) + multiset{x}
    decreases |t|
  {
    if |t| > 0 && KeyAtLeast(t[0].stat, x.stat) {
      InsertMultiset(x, t[1..]);
      assert t == [t[0]] + t[1..];
    }
  }

  lemma {:induction false} InsertDescending(x: Interface, t: seq<Interface>)
    requires Descending(t)
    ensures Descending(Insert(x, t))
    decreases |t|
  {
    if |t| > 0 && KeyAtLeast(t[0].stat, x.stat) {
      var t' := t[1..];
      assert Descending(t');
      InsertDescending(x, t');
      InsertMultiset(x, t');
      var r := Insert(x, t);
      var r' := Insert(x, t');
      assert r == [t[0]] + r';
      forall i | 0 < i < |r|
        ensures KeyAtLeast(t[0].stat, r[i].stat)
      {
        assert r[i] == r'[i - 1];
        assert r'[i - 1] in multiset(r');
        assert r'[i - 1] in t' || r'[i - 1] == x;
      }
    }
  }

  lemma {:induction false} InsertWithKey(x: Interface, t: seq<Interface>, k: IfStat)
    requires Descending(t)
    ensures WithKey(Insert(x, t), k) == WithKey(t, k) + WithKey([x], k)
    decreases |t|
  {
    var r := Insert(x, t);
    assert WithKey([x], k) == (if SameKey(x.stat, k) then [x] else []) + WithKey([], k);
    if |t| == 0 {
    } else if KeyAtLeast(t[0].stat, x.stat) {
      var t' := t[1..];
      assert Descending(t');
      InsertWithKey(x, t', k);
      assert r[1..] == Insert(x, t');
    } else {
      assert r[1..] == t;
      if SameKey(x.stat, k) {
        NoneWithKey(t, k);
      }
    }
  }

  /** Below an entry whose key is above `k`, a descending list holds no entry with key `k`. */
  lemma {:induction false} NoneWithKey(t: seq<Interface>, k: IfStat)
    requires Descending(t) && |t| > 0
    requires !KeyAtLeast(t[0].stat, k)
    ensures WithKey(t, k) == []
    decreases |t|
  {
    if |t| > 1 {
      assert Descending(t[1..]);
      assert KeyAtLeast(t[0].stat, t[1].stat);
      NoneWithKey(t[1..], k);
    }
  }

  /**
   * The sort returns a rearrangement of its input, ordered by key from
   * highest to lowest, with entries of equal key in their original order.
   */
  lemma {:induction false} SortProperties(s: seq<Interface>)
    ensures Descending(SortDescending(s))
    ensures multiset(SortDescending(s)) == multiset(s)
    ensures forall k :: WithKey(SortDescending(s), k) == WithKey(s, k)
    decreases |s|
  {
    if |s| > 0 {
      var p := s[..|s| - 1];
      var x := s[|s| - 1];
      SortProperties(p);
      InsertDescending(x, SortDescending(p));
      InsertMultiset(x, SortDescending(p));
      assert s == p + [x];
      forall k
        ensures WithKey(SortDescending(s), k) == WithKey(s, k)
      {
        InsertWithKey(x, SortDescending(p), k);
        WithKeyAppend(p, [x], k);
      }
    }
  }

  lemma {:induction false} WithKeyAppend(a: seq<Interface>, b: seq<Interface>, k: IfStat)
    ensures WithKey(a + b, k) == WithKey(a, k) + WithKey(b, k)
    decreases |a|
  {
    if |a| == 0 {
      assert a + b == b;
    } else {
      assert (a + b)[0] == a[0];
      assert (a + b)[1..] == a[1..] + b;
      WithKeyAppend(a[1..], b, k);
    }
  }

  /**
   * The names in `ifs` that also have address entries, in the order of
   * `ifs` (`WithAddressesAppend`): the keys of the `OrderedDict` built from
   * the sorted names.
   */
  function WithAddresses(ifs: seq<Interface>, ifAddrs: map<string, seq<Addr>>): (r: seq<string>)
    ensures forall k :: 0 <= k < |r| ==> r[k] in ifAddrs
    ensures forall k :: 0 <= k < |ifs| && ifs[k].name in ifAddrs ==> ifs[k].name in r
  {
    if |ifs| == 0 then []
    else
      var rest := WithAddresses(ifs[1..], ifAddrs);
      assert forall k :: 1 <= k < |ifs| ==> ifs[1..][k - 1] == ifs[k];
      (if ifs[0].name in ifAddrs then [ifs[0].name] else []) + rest
  }

  /** The names kept from two lists laid end to end are those of each list, in order. */
  lemma {:induction false} WithAddressesAppend(a: seq<Interface>, b: seq<Interface>, ifAddrs: map<string, seq<Addr>>)
    ensures WithAddresses(a + b, ifAddrs) == WithAddresses(a, ifAddrs) + WithAddresses(b, ifAddrs)
    decreases |a|
  {
    if |a| == 0 {
      assert a + b == b;
    } else {
      assert (a + b)[0] == a[0];
      assert (a + b)[1..] == a[1..] + b;
      WithAddressesAppend(a[1..], b, ifAddrs);
    }
  }

  /** The automatic choice: the address of the first candidate that has an IPv4 entry, or "". */
  function FirstIpv4(names: seq<string>, ifAddrs: map<string, seq<Addr>>): (r: string)
    requires forall k :: 0 <= k < |names| ==> names[k] in ifAddrs
    ensures forall k :: 0 <= k < |names| && FindSingleIpv4(ifAddrs[names[k]]).Some?
                        && (forall j :: 0 <= j < k ==> FindSingleIpv4(ifAddrs[names[j]]).None?) ==>
                          r == FindSingleIpv4(ifAddrs[names[k]]).value
    ensures (forall k :: 0 <= k < |names| ==> FindSingleIpv4(ifAddrs[names[k]]).None?) ==> r == ""
    ensures r != "" ==> exists k :: 0 <= k < |names| && FindSingleIpv4(ifAddrs[names[k]]) == Some(r)
  {
    if |names| == 0 then ""
    else match FindSingleIpv4(ifAddrs[names[0]])
      case Some(address) => address
      case None =>
        var r := FirstIpv4(names[1..], ifAddrs);
        assert forall k :: 1 <= k < |names| ==> names[1..][k - 1] == names[k];
        r
  }

  /** The first IPv4 address of an interface that has address entries, `None` otherwise. */
  function Ipv4Of(i: Interface, ifAddrs: map<string, seq<Addr>>): Option<string>
  {
    if i.name in ifAddrs then FindSingleIpv4(ifAddrs[i.name]) else None
  }

  /** A first candidate without an IPv4 address is passed over. */
  lemma PassOver(t: seq<Interface>, ifAddrs: map<string, seq<Addr>>)
    requires |t| > 0 && Ipv4Of(t[0], ifAddrs).None?
    ensures FirstIpv4(WithAddresses(t, ifAddrs), ifAddrs) == FirstIpv4(WithAddresses(t[1..], ifAddrs), ifAddrs)
  {
    var names := WithAddresses(t, ifAddrs);
    var rest := WithAddresses(t[1..], ifAddrs);
    if t[0].name in ifAddrs {
      assert names == [t[0].name] + rest;
      assert names[0] == t[0].name && names[1..] == rest;
      assert FindSingleIpv4(ifAddrs[names[0]]).None?;
    } else {
      assert names == rest;
    }
  }

  /** When no candidate has an IPv4 address, the loop falls through to "". */
  lemma {:induction false} NoneAddressed(t: seq<Interface>, ifAddrs: map<string, seq<Addr>>)
    requires forall p :: 0 <= p < |t| ==> Ipv4Of(t[p], ifAddrs).None?
    ensures FirstIpv4(WithAddresses(t, ifAddrs), ifAddrs) == ""
    decreases |t|
  {
    if |t| > 0 {
      PassOver(t, ifAddrs);
      assert forall p :: 1 <= p < |t| ==> t[1..][p - 1] == t[p];
      NoneAddressed(t[1..], ifAddrs);
    }
  }

  /** The loop returns the address of the first candidate that has an IPv4 address. */
  lemma {:induction false} FirstAddressed(t: seq<Interface>, ifAddrs: map<string, seq<Addr>>, p: int)
    requires 0 <= p < |t| && Ipv4Of(t[p], ifAddrs).Some?
    requires forall q :: 0 <= q < p ==> Ipv4Of(t[q], ifAddrs).None?
    ensures FirstIpv4(WithAddresses(t, ifAddrs), ifAddrs) == Ipv4Of(t[p], ifAddrs).value
    decreases p
  {
    if p > 0 {
      PassOver(t, ifAddrs);
      assert forall q :: 1 <= q <= p ==> t[1..][q - 1] == t[q];
      FirstAddressed(t[1..], ifAddrs, p - 1);
    } else {
      assert WithAddresses(t, ifAddrs)[0] == t[0].name;
    }
  }

  /**
   * `r` is what the loop over candidates `t` returns: "" when no candidate
   * has an IPv4 address, otherwise the address of the first one that has.
   */
  ghost predicate FirstCandidateAddress(t: seq<Interface>, ifAddrs: map<string, seq<Addr>>, r: string)
  {
    && ((forall p :: 0 <= p < |t| ==> Ipv4Of(t[p], ifAddrs).None?) ==> r == "")
    && (forall p :: 0 <= p < |t| && Ipv4Of(t[p], ifAddrs).Some?
                      && (forall q :: 0 <= q < p ==> Ipv4Of(t[q], ifAddrs).None?) ==>
          r == Ipv4Of(t[p], ifAddrs).value)
  }

  /** Both cases of the loop together. */
  lemma FirstOrNone(t: seq<Interface>, ifAddrs: map<string, seq<Addr>>)
    ensures FirstCandidateAddress(t, ifAddrs, FirstIpv4(WithAddresses(t, ifAddrs), ifAddrs))
  {
    if forall p :: 0 <= p < |t| ==> Ipv4Of(t[p], ifAddrs).None? {
      NoneAddressed(t, ifAddrs);
    }
    forall p | 0 <= p < |t| && Ipv4Of(t[p], ifAddrs).Some? && (forall q :: 0 <= q < p ==> Ipv4Of(t[q], ifAddrs).None?)
      ensures FirstIpv4(WithAddresses(t, ifAddrs), ifAddrs) == Ipv4Of(t[p], ifAddrs).value
    {
      FirstAddressed(t, ifAddrs, p);
    }
  }

  /**
   * `get_ipv4_address`. A string name that has address entries gives that
   * interface's first IPv4 address or "" (`NamedInterface`). Otherwise the
   * candidates are the non-loopback interfaces of `if_stats` in stable
   * descending (isup, duplex) order, and the result is the address of the
   * first candidate with IPv4 address entries, or "" when there is none.
   */
  function GetIpv4Address(name: NameArg, ifAddrs: map<string, seq<Addr>>, ifStats: seq<Interface>): (r: string)
    ensures !(name.Name? && name.name in ifAddrs) ==>
              FirstCandidateAddress(SortDescending(DropLoopback(ifStats)), ifAddrs, r)
  {
    if name.Name? && name.name in ifAddrs then
      match FindSingleIpv4(ifAddrs[name.name])
      case Some(address) => address
      case None => ""
    else
      var cands := SortDescending(DropLoopback(ifStats));
      FirstOrNone(cands, ifAddrs);
      FirstIpv4(WithAddresses(cands, ifAddrs), ifAddrs)
  }

  /** A named interface present in the address table is the only one consulted. */
  lemma NamedInterface(name: string, ifAddrs: map<string, seq<Addr>>, ifStats: seq<Interface>)
    requires name in ifAddrs
    ensures GetIpv4Address(Name(name), ifAddrs, ifStats) ==
              match FindSingleIpv4(ifAddrs[name]) case Some(a) => a case None => ""
  {
  }

  /** The automatic choice never takes its address from a loopback interface. */
  lemma {:induction false} AutomaticSkipsLoopback(name: NameArg, ifAddrs: map<string, seq<Addr>>, ifStats: seq<Interface>)
    requires !(name.Name? && name.name in ifAddrs)
    ensures var r := GetIpv4Address(name, ifAddrs, ifStats);
            r != "" ==> exists i :: 0 <= i < |ifStats| && !Contains(ifStats[i].stat.flags, "loopback")
                                      && ifStats[i].name in ifAddrs && FindSingleIpv4(ifAddrs[ifStats[i].name]) == Some(r)
  {
    var kept := DropLoopback(ifStats);
    var sorted := SortDescending(kept);
    var names := WithAddresses(sorted, ifAddrs);
    var r := FirstIpv4(names, ifAddrs);
    if r != "" {
      var k :| 0 <= k < |names| && FindSingleIpv4(ifAddrs[names[k]]) == Some(r);
      WithAddressesFrom(sorted, ifAddrs, k);
      var j :| 0 <= j < |sorted| && sorted[j].name == names[k];
      SortProperties(kept);
      assert sorted[j] in multiset(kept);
      var i :| 0 <= i < |ifStats| && ifStats[i] == sorted[j];
    }
  }

  lemma {:induction false} WithAddressesFrom(ifs: seq<Interface>, ifAddrs: map<string, seq<Addr>>, k: int)
    requires 0 <= k < |WithAddresses(ifs, ifAddrs)|
    ensures exists j :: 0 <= j < |ifs| && ifs[j].name == WithAddresses(ifs, ifAddrs)[k]
    decreases |ifs|
  {
    var rest := WithAddresses(ifs[1..], ifAddrs);
    if ifs[0].name in ifAddrs {
      if k > 0 {
        WithAddressesFrom(ifs[1..], ifAddrs, k - 1);
        var j :| 0 <= j < |ifs[1..]| && ifs[1..][j].name == rest[k - 1];
        assert ifs[j + 1].name == WithAddresses(ifs, ifAddrs)[k];
      } else {
        assert ifs[0].name == WithAddresses(ifs, ifAddrs)[0];
      }
    } else {
      WithAddressesFrom(ifs[1..], ifAddrs, k);
      var j :| 0 <= j < |ifs[1..]| && ifs[1..][j].name == rest[k];
      assert ifs[j + 1].name == WithAddresses(ifs, ifAddrs)[k];
    }
  }

  /** `get_uptime`: the uptime with its fraction of a second cut off at the first ".". */
  function GetUptime(uptime: Delta): (r: string)
    requires Normal(uptime)
    ensures r == "UpTime: " + ToString(uptime.(microseconds := 0))
  {
    "UpTime: " + UptimeText(uptime)
  }

  const ToggleIntervalSeconds: int := 4

  /** What the bottom line shows. */
  datatype BottomLine = ShowUptime | ShowIp

  /** `now.second % (toggle_interval_seconds * 2) < toggle_interval_seconds`. */
  function Bottom(second: int): BottomLine
  {
    if second % (ToggleIntervalSeconds * 2) < ToggleIntervalSeconds then ShowUptime else ShowIp
  }

  /** The line shows the uptime for four seconds, then the address for four, and repeats every eight. */
  lemma BottomAlternates(second: int)
    ensures Bottom(second + 8) == Bottom(second)
    ensures Bottom(second + 4) != Bottom(second)
  {
    assert (second + 8) % 8 == second % 8;
    assert (second + 4) % 8 == (second % 8 + 4) % 8;
  }

  /** A usage row: the figure and a bar in proportion, or the full bar labelled "100 %" alone. */
  datatype UsageRow = Partial(percent: real) | Full

  /** The rule `stats` applies to CPU, memory and disk. */
  function Usage(percent: real): (r: UsageRow)
    ensures r.Partial? <==> percent < 100.0
    ensures r.Partial? ==> r.percent == percent
  {
    if percent < 100.0 then Partial(percent) else Full
  }
}
