# luma.examples core logic in Dafny

luma.examples is a set of demo scripts for small OLED, LCD and LED-matrix
displays driven by the luma libraries. Most of each script is drawing and
hardware set-up. This project models the parts that hold integer,
sequence and state logic, and proves what those parts promise:

- **The scroll synchroniser** of `image_composition.py`. `Synchroniser`
  is a barrier over a table of ready flags. `Scroller` is a four-phase
  machine. These become the classes `ScrollSync.Synchroniser` and
  `ScrollSync.Scroller`. Each `tick` is proved equal to a pure `Step`, and
  lemmas about `Step` give the phase cycle, the offset bounds, the barrier
  condition and the length of a solo cycle. `multiimage_demo.py` is the
  Python-2 copy; module `MultiImageDemo` models only where it differs.
- **The CPU-load histogram** of `sys_histogram.py`, in module
  `SysHistogram`, and its module-level copy `HistogramExample.py`, in
  module `HistogramExample`. They cover the 51-slot time axis built by a
  loop, the insert/clamp/pop update of the data list, the temperature read
  with its fallback, and the `blnk` flip-flop.
- **Byte counts and caching** of `sys_info.py`, in module `SysInfo`:
  - `bytes2human`, with its prefix table built by a loop, its scan from the largest prefix down, and its doctests;
  - the time-to-live rule of `IPAddressChecker`;
  - the `divmod` split of the uptime.

  `sysinfo.py`, in module `SysinfoCompact`, adds its height-gated line list and the `KeyError` cut-off.
- **Config files and device dispatch** of `demo_opts.py`, in module
  `DemoOpts`, and `cmdline.py`, in module `Cmdline`. They cover the
  `load_config` line filter, the arguments put before the command line,
  and first-match dispatch over the display families. `cmdline.py` also
  has its `display_settings` summary.
- **Interface selection** of `sys_info_extended.py`, in module
  `SysInfoExtended`. It covers the first-IPv4 search, the loopback filter,
  the stable descending sort, the uptime/IP toggle and the partial/full
  bar rule.
- **The generators** `lerp_1d`, `lerp_2d` and `pairs` of `welcome.py`, in
  module `Welcome`, as sequence-valued functions.
- **Animation state**: each frame loop is a `while` loop whose effect is
  proved equal to a pure function, with properties proved about that
  function.
  - `scrolling_pixelart.py`, in module `ScrollingPixelart`: the positions set are the `Forward`/`Backward` traces.
  - `jetset_willy.py`, in module `JetsetWilly`: the final state is `After`.
  - `runner.py`, in module `Runner`: the final state is `After`.
  - `matrix.py`, in module `Matrix`: the drops left are `Population`.
  - `sprite_animation.py`, in module `SpriteAnimation`: the frames shown are `MickeyShown`/`ExplosionShown`.
- **The recent-trades board** of `bitstamp_realtime.py`, in module
  `BitstampRealtime`.

Three helper modules are shared. `Wrappers` holds `Option`/`Result`.
`Text` holds Python's `str`/`int` on integers, `strip`, `replace`,
`split(c)[0]` and `str.count`. `Timedelta` holds `str(datetime.timedelta)`.

Sensor readings, file contents, the clock, the host name, random draws and
`argparse` results are all parameters of the model. Drawing calls
are recorded as data: the points, lines, rows or positions they would draw.

## Model

| member | source | states |
|---|---|---|
| ScrollSync.Synchroniser.constructor | examples/image_composition.py:41-42 | a new synchroniser starts with an empty table |
| ScrollSync.Synchroniser.Busy | examples/image_composition.py:44-45 | the caller's flag becomes False; every other entry is unchanged |
| ScrollSync.Synchroniser.Ready | examples/image_composition.py:47-48 | the caller's flag becomes True; every other entry is unchanged |
| ScrollSync.Synchroniser.IsSynchronised | examples/image_composition.py:50-54 | true exactly when every registered flag is True, so true on an empty table |
| ScrollSync.Signalled | examples/image_composition.py:44-48 | a busy/ready signal adds or overwrites only the ticking scroller's key; all other keys keep their flags |
| ScrollSync.Scroller.constructor | examples/image_composition.py:63-77 | speed 1, `max_pos` = image width − composition width, phase WAIT_SCROLL with zero counters and offset, and the scroller registered busy |
| ScrollSync.Scroller.Render | examples/image_composition.py:112-113 | the offset shown becomes `image_x_pos` |
| ScrollSync.Scroller.IsWaiting | examples/image_composition.py:115-120 | the answer and new counter are what `Waiting` gives for the old counter |
| ScrollSync.WaitCallsFrom | examples/image_composition.py:115-120 | starting from a counter in 0..delay, the calls answer True until the delay is used up and then False once, which resets the counter to 0 |
| ScrollSync.Scroller.GetCycles | examples/image_composition.py:122-123 | returns the cycle count |
| ScrollSync.Scroller.Tick | examples/image_composition.py:82-110 | the new state equals `Step` on the old state and the barrier answer; only the scroller's own flag changes, and it changes as the step's signal says |
| ScrollSync.Step | examples/image_composition.py:82-110 | at most one phase step, in the order WAIT_SCROLL→SCROLLING→WAIT_REWIND→WAIT_SYNC→WAIT_SCROLL. `cycles` grows by 1 exactly on WAIT_SCROLL→SCROLLING, which signals busy. WAIT_REWIND→WAIT_SYNC signals ready. WAIT_SYNC is left exactly when all are ready. x only rises by 1 while scrolling or resets to 0 on leaving WAIT_SYNC. Nothing moves when `must_scroll` is false |
| ScrollSync.StepKeepsInv | examples/image_composition.py:65-113 | one tick keeps 0 ≤ ticks ≤ delay, 0 ≤ image_x_pos ≤ max(0, max_pos), and the rendered offset ≤ max(0, max_pos − 1) |
| ScrollSync.RunKeepsInv | examples/image_composition.py:82-120 | the invariant holds after any run of ticks, whatever the barrier answers |
| ScrollSync.NoScrollKeepsOffset | examples/image_composition.py:77-108 | with `max_pos` ≤ 0 neither the position nor the offset shown ever changes |
| ScrollSync.WaitPhase | examples/image_composition.py:86-120 | in WAIT_SCROLL or WAIT_REWIND the scroller stays put for the rest of the delay |
| ScrollSync.ScrollPhase | examples/image_composition.py:104-110 | scrolling ticks take x up to max(0, max_pos), one per tick, and leave the offset shown at max_pos − 1 when the text moved |
| ScrollSync.SoloScroll | examples/image_composition.py:86-108 | from WAIT_SCROLL: the delay, one tick that starts cycle n+1, then the scroll to max(0, max_pos) |
| ScrollSync.SoloRewind | examples/image_composition.py:92-110 | at the end of the scroll: one tick to WAIT_REWIND, the delay, then one tick to WAIT_SYNC |
| ScrollSync.SoloCycle | examples/image_composition.py:82-120 | a scroller alone in its synchroniser goes once round the cycle in exactly 2·delay + max(0, max_pos) + 4 ticks, back at offset 0 with one more cycle; this also holds with `max_pos` ≤ 0 |
| ScrollSync.StepToSync | examples/image_composition.py:82-110 | outside WAIT_SYNC, with the barrier always answering, each tick brings the scroller exactly one tick closer to WAIT_SYNC and reaches it exactly when one tick was left |
| ScrollSync.NoSyncBefore | examples/image_composition.py:82-120 | outside WAIT_SYNC, no run shorter than the ticks left reaches WAIT_SYNC |
| ScrollSync.RoundProgress | examples/image_composition.py:152-156 | in one frame of a two-scroller round, the song either finishes a phase step or waits in WAIT_SYNC while the artist gets one tick closer to ready |
| ScrollSync.RoundBarrier | examples/image_composition.py:97-154 | neither scroller goes from WAIT_SYNC back to WAIT_SCROLL while the other is still scrolling or waiting to rewind |
| ScrollSync.TickOne | examples/image_composition.py:82-110 | ticking one scroller of a pair follows `Step` and leaves the other's state and flag alone |
| ScrollSync.Frame | examples/image_composition.py:152-156 | one frame (artist then song) keeps the pair's invariant. The song's cycle count grows by at most one. Neither scroller leaves WAIT_SYNC while the other is scrolling or waiting to rewind. The song either makes progress or is held in WAIT_SYNC while the artist gets closer to ready |
| ScrollSync.PlayTitle | examples/image_composition.py:145-156 | the round for one title terminates, after at least one frame, with the song's cycle count exactly 3 |
| MultiImageDemo.IsSynchronised | examples/multiimage_demo.py:47-51 | under Python 3 it raises AttributeError, even on an empty table; under Python 2 it answers whether every flag is True |
| MultiImageDemo.TickUnder | examples/multiimage_demo.py:78-106 | a tick fails exactly under Python 3 in WAIT_SYNC; otherwise it is `ScrollSync.Step` |
| MultiImageDemo.Python3RaisesAtFirstSync | examples/multiimage_demo.py:47-106 | a scroller started alone succeeds under Python 3 on each of its first 2·delay + max(0, max_pos) + 3 ticks, none of which is in WAIT_SYNC, and raises on the next tick, its first in WAIT_SYNC; under Python 2 that tick succeeds |
| SysHistogram.InitHistogram | examples/sys_histogram.py:24-39 | the time axis is 104, 102, …, 4: 51 entries, all > 2; the data list has the same length and holds 60 everywhere |
| SysHistogram.Shifted | examples/sys_histogram.py:116-126 | one update keeps the length; the new head is the load value clamped to at least 30; slots 1..n−2 take the previous slots 0..n−3; the last slot is never replaced |
| SysHistogram.History | examples/sys_histogram.py:116-126 | a run of updates keeps the list length |
| SysHistogram.HistoryNewestFirst | examples/sys_histogram.py:116-126 | after a run of updates the newest clamped values come first, the older slots hold the earlier values shifted along, and the final slot is the original one |
| SysHistogram.HistoryBelowTopLine | examples/sys_histogram.py:36-126 | from the initial list every slot stays ≥ 30, the top line of the histogram area |
| SysHistogram.Segments | examples/sys_histogram.py:117-124 | one line per adjacent pair of time slots, 50 in all |
| SysHistogram.TempCelsiusOfFile | examples/sys_histogram.py:64-66 | a thermal-zone file starting with two digits reads as those two digits, in degrees |
| SysHistogram.GaugeHeight | examples/sys_histogram.py:62-69 | the gauge top is maxBarHeight = 60 at 0 degrees and minBarHeight = 3 at 55 degrees, and it is at most 3 exactly at 55 degrees or more |
| SysHistogram.GaugeDecreasing | examples/sys_histogram.py:62-69 | a hotter reading gives a strictly lower gauge top |
| SysHistogram.BlinkCondition | examples/sys_histogram.py:64-131 | the gauge blinks exactly when the read fails or the temperature is 55 degrees or more |
| SysHistogram.ShowGauge | examples/sys_histogram.py:131-145 | above minBarHeight = 3 it shows a bar and `blnk` is unchanged; otherwise the full gauge is filled exactly when `blnk` is 1, and `blnk` flips between 1 and 0 |
| SysHistogram.Monitor.constructor | examples/sys_histogram.py:24-39 | the state before the first refresh: `blnk` = 1 and the initial lists |
| SysHistogram.Monitor.Refresh | examples/sys_histogram.py:61-145 | one refresh: the time axis is unchanged, the data list is `Shifted`, the lines drawn use the clamped head, WARNING! shows exactly when the load value is ≤ 30, and the gauge and `blnk` follow `ShowGauge` on the reading |
| HistogramExample.Update | examples/HistogramExample.py:61-129 | an unreadable temperature file raises, with the lists and `blnk` left as they were; otherwise the refresh is `SysHistogram`'s with no fallback |
| SysInfo.SymbolsDistinct | examples/sys_info.py:84 | the eight prefix letters are distinct, so building the table loses no entry |
| SysInfo.PrefixTable | examples/sys_info.py:84-87 | the table maps the k-th letter K, M, G, T, P, E, Z, Y to 2^(10·k) |
| SysInfo.Bytes2Human | examples/sys_info.py:77-92 | the loop and early return compute `Human(n)` |
| SysInfo.Scale | examples/sys_info.py:88-91 | the index of the prefix used is at most 8, the number of prefixes |
| SysInfo.ScaleAtLeast | examples/sys_info.py:88-91 | the scale reaches m exactly when n ≥ 1024^m |
| SysInfo.ScaleIs | examples/sys_info.py:88-91 | a count in [1024^m, 1024^(m+1)) has scale m |
| SysInfo.HumanAt | examples/sys_info.py:88-91 | a count that reaches the j-th prefix but not the next prints as floor(n / prefix) followed by that letter |
| SysInfo.HumanFigure | examples/sys_info.py:88-91 | below the Y prefix the figure printed lies in [1, 1023]; with Y it is at least 1 |
| SysInfo.HumanSmall | examples/sys_info.py:92 | n < 1024 prints as n followed by "B" |
| SysInfo.HumanDoctests | examples/sys_info.py:79-82 | 10000 gives "9K" and 100001221 gives "95M" |
| SysInfo.UptimeSplit | examples/sys_info.py:97-100 | the whole hours and minutes within the day: hours ≤ 23, minutes ≤ 59, and 3600·hours + 60·minutes ≤ seconds < that + 60 |
| SysInfo.Next | examples/sys_info.py:52-55 | on a due call the address and check time are both replaced; otherwise nothing changes |
| SysInfo.Run | examples/sys_info.py:51-55 | once a check time is set an address is cached, and after at least one call there is always a cached address |
| SysInfo.CacheHits | examples/sys_info.py:52-55 | calls no later than the cache time after the last retrieval return the cached address and change nothing |
| SysInfo.IPAddressChecker.constructor | examples/sys_info.py:43-49 | no address and no check time yet; the cache time defaults to 14400 seconds |
| SysInfo.IPAddressChecker.GetIpAddress | examples/sys_info.py:51-65 | the first call, and any call more than the cache time after the last retrieval, retrieves and caches the address ("" on failure) with the later clock reading; otherwise it returns the cached address unchanged |
| SysinfoCompact.UptimeUsage | examples/sysinfo.py:45-48 | "Up: " followed by the uptime without its fraction of a second |
| SysinfoCompact.IpUsage | examples/sysinfo.py:50-53 | "IP: " followed by the prefix of the host output before its first space (all of it when there is none) |
| SysinfoCompact.NetworkLine | examples/sysinfo.py:67-70 | "wlan0: Tx", the human-readable bytes sent, ", Rx", then the human-readable bytes received, in that order and nothing else |
| SysinfoCompact.RowText | examples/sysinfo.py:78-92 | a row has its own text exactly when it is the network, uptime or IP row, and that text is `network('wlan0')`, `uptime_usage()` or `ip_usage()` respectively |
| SysinfoCompact.Place | examples/sysinfo.py:79-88 | row k is drawn at y = 10·k |
| SysinfoCompact.Stats | examples/sysinfo.py:78-92 | one line below height 32; two below 64; otherwise load, memory and disk, plus network, uptime and IP only when `wlan0` exists; rows in that order, 10 pixels apart |
| DemoOpts.UniversalNewlines | examples/demo_opts.py:48 | text-mode reading leaves no carriage return and touches nothing else |
| DemoOpts.ReadLines | examples/demo_opts.py:49 | `readlines()` cuts the text into non-empty lines that rejoin to it, each but the last ending in a newline |
| DemoOpts.KeptLines | examples/demo_opts.py:49-51 | at most one argument per line, none holding a newline |
| DemoOpts.KeptLinesAppend | examples/demo_opts.py:49-51 | filtering keeps file order across two runs of lines |
| DemoOpts.KeptLinesSnoc | examples/demo_opts.py:49-51 | each further line adds its argument, if it is kept, at the end |
| DemoOpts.KeptLinesMembers | examples/demo_opts.py:49-51 | an argument comes out exactly when some kept line gives it |
| DemoOpts.KeepIff | examples/demo_opts.py:50 | a line is kept exactly when it has a non-blank character and does not begin with '#' |
| DemoOpts.LineArgument | examples/demo_opts.py:51 | the argument of a line is the line without its newline; other whitespace is kept |
| DemoOpts.IndentedHashKept | examples/demo_opts.py:50-51 | a line with blanks before its '#', such as "  #x", is kept with its indentation |
| DemoOpts.SkippedLine | examples/demo_opts.py:50 | blank and comment lines give no argument |
| DemoOpts.ReadLinesCons | examples/demo_opts.py:49 | `readlines()` splits off a first line that ends with a newline |
| DemoOpts.ArgumentFileNoReturn | examples/demo_opts.py:48 | a file of plain arguments, one per line, has no carriage return |
| DemoOpts.ArgumentLineKept | examples/demo_opts.py:50-51 | the line of a plain argument is kept and gives the argument |
| DemoOpts.ArgumentLines | examples/demo_opts.py:49 | one line per argument |
| DemoOpts.ReadArgumentFile | examples/demo_opts.py:49 | a file listing arguments one per line reads as one line per argument |
| DemoOpts.KeptLinesCons | examples/demo_opts.py:50-51 | a kept first line gives the first argument |
| DemoOpts.KeptArgumentLines | examples/demo_opts.py:49-51 | filtering those lines gives the arguments back, in order |
| DemoOpts.ConfigArgsOfArgumentFile | examples/demo_opts.py:43-53 | `load_config` on a file listing plain arguments one per line returns exactly those arguments, in order |
| DemoOpts.OptionArgument | examples/demo_opts.py:50 | an option such as "--width=800" is a plain argument |
| DemoOpts.TestConfigArguments | tests/test_demo_opts.py:54-65 | the four arguments the loading test expects, written one per line, come back as exactly those four, in order |
| DemoOpts.LoadConfig | examples/demo_opts.py:43-53 | a missing file raises IOError; otherwise the result is the kept lines of the file, newlines removed |
| DemoOpts.CollectArgs | examples/demo_opts.py:49-51 | the loop appends exactly the kept lines, in order |
| DemoOpts.Rank | examples/demo_opts.py:39 | each family's place in the order oled, lcd, led_matrix, emulator |
| DemoOpts.BuildDisplayTypes | examples/demo_opts.py:38-40 | the table has exactly the four family keys, each with its `get_choices` list |
| DemoOpts.Dispatch | examples/demo_opts.py:138-162 | a chosen family lists the name; a failure is only TypeError, from a family missing from the table |
| DemoOpts.DispatchFirstMatch | examples/demo_opts.py:138-162 | with every family's key present, family f is chosen exactly when it lists the name and no earlier family does |
| DemoOpts.DispatchNoMatch | examples/demo_opts.py:138-162 | with every key present the chain never raises, and it gives nothing exactly when no family lists the name |
| DemoOpts.FamilyFirstMatch | examples/demo_opts.py:138-162 | the same first-match rule over oled, lcd, led_matrix, emulator |
| DemoOpts.ActualArgs | examples/demo_opts.py:126-127 | `actual_args` defaults to `sys.argv[1:]` |
| DemoOpts.GetDevice | examples/demo_opts.py:122-167 | IOError exactly when a named config file is missing. On success the options are parsed from the config arguments followed by the original ones (or the first parse without a config) and the device family is the first match. TypeError never escapes. Otherwise the result is UnboundLocalError exactly when the chain picks no family: either no family lists the name and `device` is unbound, or a missing family key raised TypeError before any `import luma…` ran, and `except luma.core.error.Error` then finds `luma` unbound |
| DemoOpts.GetDeviceWithoutOled | examples/demo_opts.py:136-163 | a table without "oled" ends in UnboundLocalError, not TypeError |
| DemoOpts.GetDeviceListed | examples/demo_opts.py:136-167 | on a complete table, a listed display always yields a device |
| Cmdline.DisplaySettings | examples/cmdline.py:29-40 | the summary begins "Display: " + name + newline and ends with 40 dashes |
| Cmdline.Layout | examples/cmdline.py:35-40 | the "Dimensions: w x h" line comes just before the rule, and between it and the display line is the interface line for a non-emulator and nothing for an emulator |
| Cmdline.InterfaceLineIff | examples/cmdline.py:35-40 | the line after the display line is an "Interface: " line exactly when the display is not an emulator |
| Cmdline.InterfaceShown | examples/cmdline.py:37 | the interface line starts with "Interface: " |
| Cmdline.DimensionsFirst | examples/cmdline.py:39-40 | text that begins with the dimensions line does not begin with "Interface: ", so an emulator's summary has no interface line |
| Cmdline.LineBreaks | examples/cmdline.py:35-40 | the summary has two line breaks of its own, three with the interface line, plus any inside the names |
| Cmdline.CreateDevice | examples/cmdline.py:78-112 | a device built has the display's name and comes from a family that lists it; a failure is only TypeError |
| Cmdline.CreateDeviceFirstMatch | examples/cmdline.py:83-110 | with a complete table (the module table when `dtypes` is None), family f is built exactly when it is the first to list the display |
| Cmdline.CreateDeviceNoMatch | examples/cmdline.py:82-112 | with a complete table nothing raises, and the result is None exactly when no family lists the display |
| Cmdline.CreateDeviceWithoutOled | examples/cmdline.py:86 | a caller table without "oled" raises TypeError at the first test |
| SysInfoExtended.FindSingleIpv4 | examples/sys_info_extended.py:51-54 | None exactly when no entry is IPv4; otherwise the address of an IPv4 entry, the first one |
| SysInfoExtended.DropLoopback | examples/sys_info_extended.py:67 | keeps exactly the interfaces whose flags do not contain "loopback", and no more of them than there were |
| SysInfoExtended.DropLoopbackAppend | examples/sys_info_extended.py:67 | the filter keeps the order of `if_stats`: filtering two lists laid end to end filters each in turn |
| SysInfoExtended.InsertMultiset | examples/sys_info_extended.py:71 | insertion adds the entry and loses none |
| SysInfoExtended.InsertDescending | examples/sys_info_extended.py:71 | insertion keeps the list ordered by (isup, duplex), highest first |
| SysInfoExtended.InsertWithKey | examples/sys_info_extended.py:71 | insertion puts the entry after the earlier entries of its key |
| SysInfoExtended.NoneWithKey | examples/sys_info_extended.py:71 | below an entry whose key is above k, a descending list holds no entry with key k |
| SysInfoExtended.SortProperties | examples/sys_info_extended.py:71 | the sort is a permutation, ordered highest key first, and stable: entries with equal keys keep their order |
| SysInfoExtended.WithKeyAppend | examples/sys_info_extended.py:71 | the entries of one key in two lists laid end to end are those of each list, in order |
| SysInfoExtended.WithAddresses | examples/sys_info_extended.py:72 | a name is kept exactly when it has address entries |
| SysInfoExtended.WithAddressesAppend | examples/sys_info_extended.py:72 | the names stay in the sorted order: two lists laid end to end give the names of each in turn |
| SysInfoExtended.WithAddressesFrom | examples/sys_info_extended.py:72 | every name kept comes from the sorted interfaces |
| SysInfoExtended.FirstIpv4 | examples/sys_info_extended.py:74-79 | the address of the first candidate with an IPv4 entry, or "" when none has one |
| SysInfoExtended.PassOver | examples/sys_info_extended.py:74-77 | a first interface without an IPv4 address, or without address entries, is passed over |
| SysInfoExtended.NoneAddressed | examples/sys_info_extended.py:72-79 | when no interface of a list has an IPv4 address, the loop gives "" |
| SysInfoExtended.FirstAddressed | examples/sys_info_extended.py:72-79 | the loop gives the address of the first interface in the list that has address entries with an IPv4 one |
| SysInfoExtended.FirstOrNone | examples/sys_info_extended.py:72-79 | both cases together, over any list of interfaces |
| SysInfoExtended.GetIpv4Address | examples/sys_info_extended.py:57-79 | when the name is not a string present in `if_addrs`, the result is the IPv4 address of the first interface, in stable descending (isup, duplex) order of the non-loopback `if_stats` entries, that has address entries with an IPv4 one, and "" when there is none |
| SysInfoExtended.NamedInterface | examples/sys_info_extended.py:60-63 | a string name present in the address table yields that interface's first IPv4 address or ""; no other interface is consulted |
| SysInfoExtended.AutomaticSkipsLoopback | examples/sys_info_extended.py:60-79 | when the name is not a string present in `if_addrs`, a non-empty result is the first IPv4 address of some non-loopback `if_stats` interface that has address entries |
| SysInfoExtended.GetUptime | examples/sys_info_extended.py:46-48 | "UpTime: " followed by the uptime with its fraction of a second dropped |
| SysInfoExtended.BottomAlternates | examples/sys_info_extended.py:136-151 | the bottom line repeats every 8 seconds and switches every 4, between the uptime and the address |
| SysInfoExtended.Usage | examples/sys_info_extended.py:114-134 | a partial bar with its figure exactly when the value is below 100; otherwise the full "100 %" bar |
| Welcome.RoundHalfEven | examples/welcome.py:127 | `round` gives one of the two nearest integers, within 1/2 of the value |
| Welcome.RoundWithin | examples/welcome.py:127 | rounding a value that lies between two integers keeps it between them |
| Welcome.Lerp1d | examples/welcome.py:124-128 | n = 0 raises ZeroDivisionError; otherwise n+1 values (just `end` when n < 0), the last `end` and, for n > 0, the first `start` |
| Welcome.ScaledDown | examples/welcome.py:125-127 | a step fraction in [0, 1) keeps the offset between 0 and the full span |
| Welcome.StepBetween | examples/welcome.py:125-127 | each interior step lies between the two end points |
| Welcome.Lerp1dBetween | examples/welcome.py:124-128 | every value yielded lies between the two end points |
| Welcome.Zip | examples/welcome.py:135-139 | the two generators are drawn in step and the shorter one stops the pairing |
| Welcome.Lerp2d | examples/welcome.py:131-139 | n = 0 raises ZeroDivisionError; otherwise n+1 points, from `start` (for n > 0) to `end` |
| Welcome.Glide | examples/welcome.py:224 | displays narrower than 4 pixels raise; wider ones visit width div 4 + 1 positions from `posn_a` to `posn_b` |
| Welcome.Pairs | examples/welcome.py:142-150 | k items give k−1 pairs (a0,a1), (a1,a2), …, and fewer than two give none |
| Welcome.PairsChain | examples/welcome.py:146-148 | the second element of pair i is the first of pair i+1 |
| Welcome.WalkPairs | examples/welcome.py:142-150 | walking the pairs gives the items back |
| ScrollingPixelart.Viewport.constructor | examples/scrolling_pixelart.py:73 | a viewport of the picture's size on the device, with no positions set yet |
| ScrollingPixelart.Viewport.SetPosition | examples/scrolling_pixelart.py:24 | appends the position to the trace of `set_position` calls |
| ScrollingPixelart.Forward | examples/scrolling_pixelart.py:23-35 | the positions from, from+1, …, limit−1 |
| ScrollingPixelart.Backward | examples/scrolling_pixelart.py:42-53 | the positions from, from−1, …, 0 |
| ScrollingPixelart.ScrollDown | examples/scrolling_pixelart.py:20-27 | x never changes. A picture no taller than the display makes no calls and returns `pos`. Otherwise it visits y0 … H−h−1 and returns one less than the larger of y0 and H−h: one short of the bottom offset, or y0−1 with no calls when y0 ≥ H−h |
| ScrollingPixelart.ScrollRight | examples/scrolling_pixelart.py:30-37 | the same rule along x against the widths |
| ScrollingPixelart.ScrollUp | examples/scrolling_pixelart.py:40-46 | visits y0, y0−1, …, 0 and returns y = 0 |
| ScrollingPixelart.ScrollLeft | examples/scrolling_pixelart.py:49-55 | visits x0, x0−1, …, 0 and returns x = 0 |
| ScrollingPixelart.ForwardStopsShort | examples/scrolling_pixelart.py:23-26 | a downward scroll from 0 never sets the bottom offset itself and finishes one short of it |
| ScrollingPixelart.ShowPicture | examples/scrolling_pixelart.py:79-86 | the down, right, up, left sequence visits the traced positions and always ends at (0, 0) |
| JetsetWilly.Next | examples/jetset_willy.py:75-92 | the clock grows by 1 and dx keeps its size, flipping only its sign |
| JetsetWilly.NextIdle | examples/jetset_willy.py:75-77 | nothing but the clock changes unless it reaches a multiple of 4 |
| JetsetWilly.NextKeepsInv | examples/jetset_willy.py:60-92 | for width > 40 one frame keeps 16 < wx < width−16, −16 < hx ≤ width and dx = ±8 |
| JetsetWilly.NextTurns | examples/jetset_willy.py:81-89 | the right limit selects 'willy-left' at width−24, the left limit 'willy-right' at 24, and otherwise willy walks on |
| JetsetWilly.AfterInv | examples/jetset_willy.py:60-92 | after every frame the bounds hold and the clock counts the frames |
| JetsetWilly.Advance | examples/jetset_willy.py:75-92 | the loop body after pasting computes `Next` |
| JetsetWilly.Play | examples/jetset_willy.py:65-92 | exactly `num_iterations` frames (none if it is not positive); the final state is `After` and frame k pastes the k-th positions |
| JetsetWilly.Pasted | examples/jetset_willy.py:72-73 | one pasted position per frame |
| JetsetWilly.PastedAt | examples/jetset_willy.py:65-75 | frame i pastes willy and the hare where the i-th scene has them |
| JetsetWilly.PlayBounds | examples/jetset_willy.py:60-92 | on a display wider than 40 pixels the bounds hold after every frame of `main` |
| Runner.Next | examples/runner.py:49-57 | dx keeps its size, flipping only its sign |
| Runner.StartInv | examples/runner.py:39-40 | x starts at −64 heading right at 3 pixels a frame |
| Runner.NextKeepsInv | examples/runner.py:49-57 | x moves by exactly dx and stays ≡ −64 (mod 3) within [−64, width+2]. Reaching x ≥ width turns it left with 'run-left'; reaching x ≤ −64 turns it right with 'run-right'. It never flips twice in one frame |
| Runner.AfterInv | examples/runner.py:39-57 | the invariant holds after every frame |
| Runner.Pasted | examples/runner.py:47 | one pasted x per frame |
| Runner.PastedAt | examples/runner.py:42-49 | frame i pastes the runner at the i-th x |
| Runner.Advance | examples/runner.py:49-57 | the loop body after pasting computes `Next` |
| Runner.Play | examples/runner.py:42-57 | exactly `num_iterations` frames; the final state is `After` and the pasted positions are `Pasted` |
| Matrix.TrailUpTo | examples/matrix.py:54-57 | at most one point per trail position |
| Matrix.TrailUpToMembers | examples/matrix.py:54-57 | a point is drawn for a trail position exactly when that position is on the display |
| Matrix.TrailShape | examples/matrix.py:21-57 | one drop draws at most 16 points, all in its column and with 0 ≤ y < height, exactly its visible positions |
| Matrix.DrawnBounds | examples/matrix.py:52-57 | a frame draws at most 16 points per drop, each on the display and in some drop's column |
| Matrix.Fall | examples/matrix.py:58 | y grows by the drop's own speed; x and speed stay |
| Matrix.Moved | examples/matrix.py:52-58 | every drop falls, in order |
| Matrix.TrimmedNewest | examples/matrix.py:63-64 | trimming keeps min(len, max) drops, the newest ones, in their order |
| Matrix.SpawnPeriod | examples/matrix.py:60-61 | seven of every fifteen consecutive frames add a drop (clock divisible by 3 or 5) |
| Matrix.PopulationSize | examples/matrix.py:42-64 | after k frames the population is the number of drops created so far, capped at width·8 |
| Matrix.PopulationInColumns | examples/matrix.py:46-58 | when every `randint` draw is in 0..width, every drop stays in one of those columns |
| Matrix.NewestLast | examples/matrix.py:45-64 | on a frame that adds a drop, with room for one, the population ends with the new drop at y = 0 |
| Matrix.DrawTrail | examples/matrix.py:53-57 | the inner loop draws exactly the drop's `Trail` |
| Matrix.Rain.constructor | examples/matrix.py:40-42 | the clock at 0 and an empty population |
| Matrix.Rain.DrawAndFall | examples/matrix.py:51-58 | draws `Drawn` of the old population and leaves it `Moved` |
| Matrix.Rain.Trim | examples/matrix.py:63-64 | the population becomes the newest width·8 drops |
| Matrix.Rain.Frame | examples/matrix.py:48-64 | one frame: the clock grows by 1, the points drawn are those of the old population, and the new population is `NextPopulation` |
| Matrix.Run | examples/matrix.py:40-64 | k frames leave `Population`, and frame k draws the population of the frames before it |
| SpriteAnimation.CropBox | examples/sprite_animation.py:34-59 | every crop box is exactly w × h at the cell's corner |
| SpriteAnimation.MickeyCells | examples/sprite_animation.py:29-32 | frames 0..39 land on the 8 × 5 grid of 256 × 308 cells, and the cell gives the frame back |
| SpriteAnimation.MickeySize | examples/sprite_animation.py:23-26 | the scaled frame is (height · 256 div 308, height): the width is the floor of height / 308 · 256 |
| SpriteAnimation.MickeyCovers | examples/sprite_animation.py:29-32 | every cell of the 8 × 5 grid is shown by one of the 40 frames |
| SpriteAnimation.MickeyDistinct | examples/sprite_animation.py:29-32 | distinct frames show distinct cells |
| SpriteAnimation.ExplosionCells | examples/sprite_animation.py:54-57 | frames 0..39 land on the 10 × 4 grid of 50 × 54 cells, and the cell gives the frame back |
| SpriteAnimation.ExplosionCovers | examples/sprite_animation.py:54-57 | the 40 frames fill the 10 × 4 grid |
| SpriteAnimation.Mickey | examples/sprite_animation.py:23-41 | 5 passes of 40 frames; frame k shows cell k mod 40, scaled to the display height and centred |
| SpriteAnimation.Explosion | examples/sprite_animation.py:50-63 | 40 frames, frame k showing cell k unscaled at x = (width − 50) div 2 |
| SpriteAnimation.Round | examples/sprite_animation.py:23-63 | mickey's 200 frames, each a 256 × 308 cell at the display height, then the 40 explosion frames, each a 50 × 54 cell at (width − 50) div 2 |
| BitstampRealtime.RowText | examples/bitstamp_realtime.py:45 | "$" + price_str + two spaces + amount |
| BitstampRealtime.Pushed | examples/bitstamp_realtime.py:46-48 | the row count grows by one up to five and then stays |
| BitstampRealtime.PushedRows | examples/bitstamp_realtime.py:46-48 | with at most five rows before, at most five after. The new row is first and the others shift one place. Only the oldest is dropped, and only when a sixth arrives |
| BitstampRealtime.Reverse | examples/bitstamp_realtime.py:46 | the trades newest first |
| BitstampRealtime.PushAllNewest | examples/bitstamp_realtime.py:46-48 | after any run of trades the board shows the newest trades first, then the rows from before, cut to five |
| BitstampRealtime.LatestTrades | examples/bitstamp_realtime.py:46-48 | from an empty board, the board shows the last five trades, newest first |
| BitstampRealtime.Layout | examples/bitstamp_realtime.py:51-52 | row i is drawn at y = 2 + 12·i |
| BitstampRealtime.TradeBoard.constructor | examples/bitstamp_realtime.py:42-48 | the board starts with no rows |
| BitstampRealtime.TradeBoard.TradeCallback | examples/bitstamp_realtime.py:42-52 | the rows become `Pushed` with the new row text, at most five, and every row is redrawn at its place |
| Text.IntToStringRoundTrip | examples/sys_info.py:91 | `int(str(i)) == i`: the printed figure loses nothing |
| Text.IntToStringChars | examples/cmdline.py:39 | decimal text holds no dot and no line break |
| Text.StripEmpty | examples/demo_opts.py:50 | `strip()` is empty exactly when the text is all whitespace |
| Text.PyInt | examples/sys_histogram.py:66 | `int` succeeds only on text that is not all whitespace |
| Text.PyIntOfDigits | examples/sys_histogram.py:66 | `int` on a run of digits is their value |
| Text.RemoveChar | examples/demo_opts.py:51 | `replace("\n", "")` leaves no newline and changes nothing else in a text without one |
| Text.TakeUntil | examples/sys_info_extended.py:47 | `split(".")[0]` is the text before the first "." |
| Timedelta.FromMicros | examples/sys_info.py:97 | the normal form of a duration has the same length |
| Timedelta.FromMicrosOfNormal | examples/sys_info.py:97 | a normal duration is its own normal form |
| Timedelta.SplitAtDot | examples/sys_info_extended.py:47 | cutting `str(d)` at its first "." gives the text of d with its microseconds dropped |
| Timedelta.UptimeText | examples/sys_info_extended.py:47 | the uptime text both uptime lines print is that of the duration with its microseconds dropped |

## Left out

- Drawing is kept only as the data a call would draw. That covers `canvas`, PIL images, `draw.text` and `draw.line`, `ImageComposition`'s compositing, the viewport, spritesheets and `framerate_regulator`. Fonts, text measurement and colours other than the matrix trail colours are left out.
- The hardware and libraries are left out: `make_serial`, the device constructors, the lcd backlight, `get_choices` (the lists it finds are parameters), `create_parser` and argparse (the parse is a function parameter), and `parser.error` for `luma.core.error.Error`: no device construction is modelled, so nothing can raise it.
- System inputs are parameters: psutil readings, `/proc/uptime`, the thermal-zone file's contents, `os.getloadavg`, `hostname -I`, the socket lookup in `_retrieve_ip_address` and `time.time()`. The logging `print` on a failed retrieval is left out.
- `random.choice`, `randint` and `gauss` are parameters: each matrix frame and each pixel-art picture is given what they return.
- Sleeps, signal handlers, `KeyboardInterrupt` and the infinite top-level loops are left out. A `while True` round is modelled as one round or as a bounded run given the number of frames.
- Floating point is exact `real` arithmetic: histogram heights, matrix y and speed, the mickey scale factor and `lerp_1d`'s steps. Float rounding error is not modelled.
- The RAM bar, the percent bars' widths, the CPU/memory/disk percent texts (`%.0f`, `%.1f`, `%5.1f`, `format_percent`) and `cpu_usage`'s `%d%%` are left out. These are float formatting.
- SpriteAnimation.MickeySize: computes `int(device.height / 308.0 * 256)` in exact arithmetic; binary floating-point rounding, which can put the product just below a whole number, is not modelled.
- SysHistogram.GaugeHeight: uses exact reals for the source's float arithmetic; rounding is not modelled.
- SysInfo.Bytes2Human: uses integer floor division where the source divides floats, so counts of 2^53 and above may differ in the last digits from the source.
- SysInfo.CpuUsage: carries no contract of its own; `%d` of the CPU percent is modelled as truncation toward zero, and only the days/hours/minutes split (`UptimeSplit`) is proved.
- SysHistogram.Monitor.Refresh: the uptime text, the RAM bar and the `{0:.2f}` load label are not modelled; HistogramExample's `str(cpuLoad[0])` label is left out for the same reason.
- HistogramExample.Update: the failed read raises before `with canvas` draws anything, and the `/proc/uptime` read is not modelled.
- The `stats` function of `sys_info.py` (its font-height gating and the `KeyError` from a missing `wlan0`) is left out. `SysinfoCompact.Stats` models the same rule for `sysinfo.py`.
- `mem_usage`, `disk_usage` and `get_temp`/`get_cpu`/`get_mem` are left out. They only format psutil readings.
- The fixture tests/resources/config-test.txt is not part of this model. DemoOpts.TestConfigArguments uses a settings file that lists the four arguments the test expects, one per line.
- DemoOpts.GetDevice: both `parse_args` calls may exit on bad arguments; argparse's exits are not modelled.
- SpriteAnimation.Mickey: PIL's `resize` of a zero-width image (displays under about 2 pixels high) is not modelled; the size is recorded as computed.
- Welcome: `overlapping` and the widget layout in `main` are left out; `range_overlap` is not part of this model.
- The Pusher connection and the JSON decoding in `bitstamp_realtime.py` are left out; `TradeCallback` receives the decoded fields.
- BitstampRealtime.RowText: `amount` is the text `str()` gives for the decoded float (the source's own f-string does this conversion); float formatting is not modelled.
- `ImageComposition.refresh` and `ComposableImage` are left out: a scroller's output is the offset it would set.
- MultiImageDemo: `render` calls `set_offset` instead of assigning `offset`. The model records the same offset for both.
- Object identity (`id(task)`) is modelled by keying the synchroniser's table on the scroller object itself.
- Text: `strip` uses the characters Python's `str.isspace` accepts; no Unicode normalisation or case folding is modelled.
- Text.PyInt: only ASCII digits are accepted; Python's `int` also takes underscores between digits and non-ASCII decimal digits, which the two-character temperature read never meets.
