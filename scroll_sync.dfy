/**
 * The scroll synchroniser of the "scrolling artist + song" example: each
 * `Scroller` is a four-phase state machine driven by one `Tick` per frame,
 * and scrollers that share a `Synchroniser` rewind together once every one
 * of them has reported ready.
 */
module ScrollSync {

  datatype Phase = WaitScroll | Scrolling | WaitRewind | WaitSync

  /** The phase the cycle moves to from `p`. */
  function NextPhase(p: Phase): Phase
  {
    match p
    case WaitScroll => Scrolling
    case Scrolling => WaitRewind
    case WaitRewind => WaitSync
    case WaitSync => WaitScroll
  }

  /** The settings a scroller fixes at construction. */
  datatype Config = Config(speed: int, delay: int, maxPos: int)
  {
    /** `must_scroll`: the text is wider than the viewport. */
    predicate MustScroll() { maxPos > 0 }
  }

  /**
   * Everything `tick` updates: the phase, the wait counter, `image_x_pos`,
   * the offset last pushed to the composed image by `render`, and the
   * number of scroll cycles started.
   */
  datatype Snapshot = Snapshot(phase: Phase, ticks: int, x: int, shown: int, cycles: int)

  /** What a tick asks the synchroniser to record for the ticking scroller. */
  datatype Signal = NoSignal | Busy | Ready

  function Max(a: int, b: int): int { if a < b then b else a }

  /** `is_waiting`: the answer and the new value of `ticks`. */
  function Waiting(delay: int, ticks: int): (bool, int)
  {
    if ticks + 1 > delay then (false, 0) else (true, ticks + 1)
  }

  /** The answers of `n` consecutive `is_waiting` calls starting from `ticks`. */
  function WaitCalls(delay: int, ticks: int, n: nat): seq<bool>
    decreases n
  {
    if n == 0 then [] else [Waiting(delay, ticks).0] + WaitCalls(delay, Waiting(delay, ticks).1, n - 1)
  }

  /**
   * After a reset, `is_waiting` answers true on the first `delay` calls and
   * false on the next one, which resets the counter.
   */
  lemma {:induction false} WaitCallsFrom(delay: int, ticks: int)
    requires 0 <= ticks <= delay
    ensures WaitCalls(delay, ticks, delay + 1 - ticks) == seq(delay - ticks, _ => true) + [false]
    ensures Waiting(delay, delay) == (false, 0)
    decreases delay - ticks
  {
    if ticks < delay {
      WaitCallsFrom(delay, ticks + 1);
      assert seq(delay - ticks, _ => true) == [true] + seq(delay - ticks - 1, _ => true);
    } else {
      assert WaitCalls(delay, ticks, 1) == [false] + WaitCalls(delay, 0, 0);
    }
  }

  /** Writes a scroller's signal into the synchroniser's table. */
  function Signalled<K>(table: map<K, bool>, task: K, s: Signal): (t: map<K, bool>)
    ensures t.Keys == if s == NoSignal then table.Keys else table.Keys + {task}
    ensures forall k :: k in table && k != task ==> k in t && t[k] == table[k]
  {
    match s
    case NoSignal => table
    case Busy => table[task := false]
    case Ready => table[task := true]
  }

  /** `is_synchronised`: every registered task is ready. */
  predicate AllReady<K>(table: map<K, bool>)
  {
    forall k :: k in table ==> table[k]
  }

  /**
   * One `tick`, given whether the synchroniser reports every task ready at
   * that moment; the second component is the busy/ready call the tick makes.
   */
  function Step(cfg: Config, s: Snapshot, allReady: bool): (r: (Snapshot, Signal))
    // the phase moves at most one place along the cycle
    ensures r.0.phase == s.phase || r.0.phase == NextPhase(s.phase)
    // a cycle is counted, and the scroller marked busy, exactly when scrolling starts
    ensures r.0.cycles == s.cycles + (if s.phase == WaitScroll && r.0.phase == Scrolling then 1 else 0)
    ensures (r.1 == Busy) == (s.phase == WaitScroll && r.0.phase == Scrolling)
    ensures (r.1 == Ready) == (s.phase == WaitRewind && r.0.phase == WaitSync)
    // the barrier: WAIT_SYNC is left exactly on a tick where every task is ready
    ensures s.phase == WaitSync ==> (r.0.phase == WaitScroll <==> allReady)
    // the offset changes only by one scroll step or by the rewind to 0
    ensures r.0.x != s.x ==>
              (s.phase == Scrolling && s.x < cfg.maxPos && r.0.x == s.x + cfg.speed && r.0.shown == s.x)
              || (s.phase == WaitSync && r.0.x == 0 && r.0.shown == 0)
    ensures !cfg.MustScroll() ==> r.0.x == s.x && r.0.shown == s.shown
  {
    match s.phase
    case WaitScroll =>
      var (waiting, ticks) := Waiting(cfg.delay, s.ticks);
      if waiting then (s.(ticks := ticks), NoSignal)
      else (s.(ticks := ticks, cycles := s.cycles + 1, phase := Scrolling), Busy)
    case WaitRewind =>
      var (waiting, ticks) := Waiting(cfg.delay, s.ticks);
      if waiting then (s.(ticks := ticks), NoSignal)
      else (s.(ticks := ticks, phase := WaitSync), Ready)
    case WaitSync =>
      if allReady then
        ((if cfg.MustScroll() then s.(x := 0, shown := 0) else s).(phase := WaitScroll), NoSignal)
      else (s, NoSignal)
    case Scrolling =>
      if s.x < cfg.maxPos then
        (if cfg.MustScroll() then s.(shown := s.x, x := s.x + cfg.speed) else s, NoSignal)
      else (s.(phase := WaitRewind), NoSignal)
  }

  /**
   * The invariant every scroller keeps between ticks (speed 1): the wait
   * counter stays within `0..delay`, `image_x_pos` within `0..max(0, max_pos)`,
   * the rendered offset within `0..max(0, max_pos - 1)`, and each phase pins
   * the counter or the offset.
   */
  ghost predicate Inv(cfg: Config, s: Snapshot)
  {
    && cfg.speed == 1
    && 0 <= s.ticks <= Max(0, cfg.delay)
    && 0 <= s.x <= Max(0, cfg.maxPos)
    && 0 <= s.shown <= Max(0, cfg.maxPos - 1)
    && s.cycles >= 0
    && (s.phase == Scrolling || s.phase == WaitSync ==> s.ticks == 0)
    && (s.phase == WaitScroll ==> s.x == 0)
    && (s.phase == WaitRewind || s.phase == WaitSync ==> s.x == Max(0, cfg.maxPos))
  }

  /** The state a scroller is constructed in. */
  function Initial(): Snapshot { Snapshot(WaitScroll, 0, 0, 0, 0) }

  lemma StepKeepsInv(cfg: Config, s: Snapshot, allReady: bool)
    requires Inv(cfg, s)
    ensures Inv(cfg, Step(cfg, s, allReady).0)
  {
  }

  /** The scroller's state after one tick per entry of `readies`. */
  function RunWith(cfg: Config, s: Snapshot, readies: seq<bool>): Snapshot
    decreases |readies|
  {
    if |readies| == 0 then s else RunWith(cfg, Step(cfg, s, readies[0]).0, readies[1..])
  }

  /** However the other scrollers behave, the invariant holds after every tick. */
  lemma {:induction false} RunKeepsInv(cfg: Config, s: Snapshot, readies: seq<bool>)
    requires Inv(cfg, s)
    ensures Inv(cfg, RunWith(cfg, s, readies))
    decreases |readies|
  {
    if |readies| > 0 {
      StepKeepsInv(cfg, s, readies[0]);
      RunKeepsInv(cfg, Step(cfg, s, readies[0]).0, readies[1..]);
    }
  }

  /** Text that fits the viewport is never moved, whatever the other scrollers do. */
  lemma {:induction false} NoScrollKeepsOffset(cfg: Config, s: Snapshot, readies: seq<bool>)
    requires cfg.maxPos <= 0
    ensures RunWith(cfg, s, readies).x == s.x && RunWith(cfg, s, readies).shown == s.shown
    decreases |readies|
  {
    if |readies| > 0 {
      NoScrollKeepsOffset(cfg, Step(cfg, s, readies[0]).0, readies[1..]);
    }
  }

  lemma {:induction false} RunWithAppend(cfg: Config, s: Snapshot, a: seq<bool>, b: seq<bool>)
    ensures RunWith(cfg, s, a + b) == RunWith(cfg, RunWith(cfg, s, a), b)
    decreases |a|
  {
    if |a| > 0 {
      assert (a + b)[0] == a[0] && (a + b)[1..] == a[1..] + b;
      RunWithAppend(cfg, Step(cfg, s, a[0]).0, a[1..], b);
    } else {
      assert a + b == b;
    }
  }

  function Trues(n: nat): seq<bool> { seq(n, _ => true) }

  lemma TruesAdd(m: nat, n: nat)
    ensures Trues(m) + Trues(n) == Trues(m + n)
  {
  }

  /** Waiting out the delay in WAIT_SCROLL or WAIT_REWIND. */
  lemma {:induction false} WaitPhase(cfg: Config, s: Snapshot)
    requires Inv(cfg, s) && (s.phase == WaitScroll || s.phase == WaitRewind)
    ensures RunWith(cfg, s, Trues(Max(0, cfg.delay) - s.ticks)) == s.(ticks := Max(0, cfg.delay))
    decreases Max(0, cfg.delay) - s.ticks
  {
    var n := Max(0, cfg.delay) - s.ticks;
    if n > 0 {
      var s' := Step(cfg, s, true).0;
      assert s' == s.(ticks := s.ticks + 1);
      WaitPhase(cfg, s');
      assert Trues(n) == [true] + Trues(n - 1);
    }
  }

  /** Scrolling one pixel per tick from `x` up to `max_pos`. */
  lemma {:induction false} ScrollPhase(cfg: Config, s: Snapshot)
    requires Inv(cfg, s) && s.phase == Scrolling
    ensures RunWith(cfg, s, Trues(Max(0, cfg.maxPos) - s.x)) ==
            s.(x := Max(0, cfg.maxPos), shown := if cfg.MustScroll() && s.x < cfg.maxPos then cfg.maxPos - 1 else s.shown)
    decreases Max(0, cfg.maxPos) - s.x
  {
    var n := Max(0, cfg.maxPos) - s.x;
    if n > 0 {
      var s' := Step(cfg, s, true).0;
      assert s' == s.(shown := s.x, x := s.x + 1);
      ScrollPhase(cfg, s');
      assert Trues(n) == [true] + Trues(n - 1);
    }
  }

  /**
   * A scroller alone in its synchroniser (its own flag is the only one, and
   * it is set whenever the scroller waits in WAIT_SYNC) goes once round the
   * whole cycle in exactly `2 * delay + max(0, max_pos) + 4` ticks: it reaches
   * WAIT_SYNC one tick before the end and comes back to WAIT_SCROLL at offset 0
   * with one more cycle counted; this holds with `max_pos <= 0` as well.
   */
  lemma SoloCycle(cfg: Config, s: Snapshot)
    requires Inv(cfg, s) && s.phase == WaitScroll && s.ticks == 0
    ensures var d, m := Max(0, cfg.delay), Max(0, cfg.maxPos);
            && RunWith(cfg, s, Trues(2 * d + m + 3)).phase == WaitSync
            && RunWith(cfg, s, Trues(2 * d + m + 4)) == Snapshot(WaitScroll, 0, 0, 0, s.cycles + 1)
  {
    var d, m := Max(0, cfg.delay), Max(0, cfg.maxPos);
    SoloScroll(cfg, s);
    var s3 := s.(phase := Scrolling, ticks := 0, cycles := s.cycles + 1, x := m,
                 shown := if cfg.MustScroll() then cfg.maxPos - 1 else s.shown);
    SoloRewind(cfg, s3);
    RunTruesAdd(cfg, s, d + 1 + m, d + 2);
    var s6 := s3.(phase := WaitSync);
    assert RunWith(cfg, s, Trues(2 * d + m + 3)) == s6;
    assert Step(cfg, s6, true).0 == Snapshot(WaitScroll, 0, 0, 0, s.cycles + 1);
    RunTruesAdd(cfg, s, 2 * d + m + 3, 1);
    RunOne(cfg, s6);
  }

  /** The second half: one tick to stop scrolling, the delay, one tick into WAIT_SYNC. */
  lemma SoloRewind(cfg: Config, t: Snapshot)
    requires Inv(cfg, t) && t.phase == Scrolling && t.ticks == 0 && t.x == Max(0, cfg.maxPos)
    ensures RunWith(cfg, t, Trues(Max(0, cfg.delay) + 2)) == t.(phase := WaitSync)
  {
    var d := Max(0, cfg.delay);
    var s4 := Step(cfg, t, true).0;
    assert s4 == t.(phase := WaitRewind);
    WaitPhase(cfg, s4);
    var s5 := s4.(ticks := d);
    var s6 := Step(cfg, s5, true).0;
    assert s6 == t.(phase := WaitSync);
    RunOne(cfg, t);
    RunTruesAdd(cfg, t, 1, d);
    RunTruesAdd(cfg, t, d + 1, 1);
    RunOne(cfg, s5);
  }

  /** The first half of the solo cycle: the delay, one tick to start, then the scroll to `max_pos`. */
  lemma SoloScroll(cfg: Config, s: Snapshot)
    requires Inv(cfg, s) && s.phase == WaitScroll && s.ticks == 0
    ensures var d, m := Max(0, cfg.delay), Max(0, cfg.maxPos);
            RunWith(cfg, s, Trues(d + 1 + m)) ==
              s.(phase := Scrolling, ticks := 0, cycles := s.cycles + 1, x := m,
                 shown := if cfg.MustScroll() then cfg.maxPos - 1 else s.shown)
  {
    var d, m := Max(0, cfg.delay), Max(0, cfg.maxPos);
    WaitPhase(cfg, s);
    var s1 := s.(ticks := d);
    var s2 := Step(cfg, s1, true).0;
    assert s2 == s.(phase := Scrolling, ticks := 0, cycles := s.cycles + 1);
    ScrollPhase(cfg, s2);
    assert RunWith(cfg, s, Trues(d)) == s1;
    RunTruesAdd(cfg, s, d, 1);
    RunOne(cfg, s1);
    RunTruesAdd(cfg, s, d + 1, m);
  }

  lemma RunTruesAdd(cfg: Config, s: Snapshot, a: nat, b: nat)
    ensures RunWith(cfg, s, Trues(a + b)) == RunWith(cfg, RunWith(cfg, s, Trues(a)), Trues(b))
  {
    TruesAdd(a, b);
    RunWithAppend(cfg, s, Trues(a), Trues(b));
  }

  /**
   * The number of ticks a scroller alone in its synchroniser still needs
   * before it stands in WAIT_SYNC: the rest of the scroll delay, the tick
   * that starts the scroll, the scroll, the tick that stops it, the rewind
   * delay and the tick into WAIT_SYNC.
   */
  function ToSync(cfg: Config, s: Snapshot): int
  {
    var d, m := Max(0, cfg.delay), Max(0, cfg.maxPos);
    match s.phase
    case WaitScroll => 2 * d - s.ticks + m + 3
    case Scrolling => m - s.x + d + 2
    case WaitRewind => d - s.ticks + 1
    case WaitSync => 0
  }

  /** Each tick outside WAIT_SYNC brings the scroller one tick closer to it. */
  lemma StepToSync(cfg: Config, s: Snapshot)
    requires Inv(cfg, s) && s.phase != WaitSync
    ensures ToSync(cfg, s) >= 1
    ensures ToSync(cfg, Step(cfg, s, true).0) == ToSync(cfg, s) - 1
    ensures (Step(cfg, s, true).0.phase == WaitSync) == (ToSync(cfg, s) == 1)
  {
  }

  /** A scroller alone in its synchroniser is not in WAIT_SYNC before `ToSync` ticks. */
  lemma {:induction false} NoSyncBefore(cfg: Config, s: Snapshot, k: nat)
    requires Inv(cfg, s) && s.phase != WaitSync && k < ToSync(cfg, s)
    ensures RunWith(cfg, s, Trues(k)).phase != WaitSync
    decreases k
  {
    if k > 0 {
      var s' := Step(cfg, s, true).0;
      StepToSync(cfg, s);
      StepKeepsInv(cfg, s, true);
      NoSyncBefore(cfg, s', k - 1);
      assert Trues(k)[1..] == Trues(k - 1);
    }
  }

  lemma RunOne(cfg: Config, s: Snapshot)
    ensures RunWith(cfg, s, Trues(1)) == Step(cfg, s, true).0
  {
    assert Trues(1)[1..] == [];
  }

  /** Python's `Synchroniser`: a table from task to ready flag. */
  class Synchroniser {
    var synchronised: map<Scroller, bool>

    constructor ()
      ensures synchronised == map[]
    {
      synchronised := map[];
    }

    method Busy(task: Scroller)
      modifies this
      ensures synchronised == old(synchronised)[task := false]
    {
      synchronised := synchronised[task := false];
    }

    method Ready(task: Scroller)
      modifies this
      ensures synchronised == old(synchronised)[task := true]
    {
      synchronised := synchronised[task := true];
    }

    /** True iff no registered task is busy; true for an empty table. */
    method IsSynchronised() returns (r: bool)
      ensures r <==> forall t :: t in synchronised ==> synchronised[t]
      ensures synchronised == map[] ==> r
    {
      var pending := synchronised.Keys;
      while pending != {}
        invariant pending <= synchronised.Keys
        invariant forall t :: t in synchronised && t !in pending ==> synchronised[t]
        decreases pending
      {
        var t :| t in pending;
        if synchronised[t] == false {
          return false;
        }
        pending := pending - {t};
      }
      return true;
    }
  }

  /** Python's `Scroller`: one text image scrolling inside the composition. */
  class Scroller {
    const synchroniser: Synchroniser
    const speed: int
    const delay: int
    const maxPos: int
    const mustScroll: bool
    var state: Phase
    var ticks: int
    var imageXPos: int
    /** The horizontal offset last given to the composed image by `render`. */
    var offset: int
    var cycles: int

    function Cfg(): Config { Config(speed, delay, maxPos) }

    function Snap(): Snapshot
      reads this
    {
      Snapshot(state, ticks, imageXPos, offset, cycles)
    }

    /**
     * The scroller invariant, and its registration in the synchroniser: its
     * flag is set while it waits in WAIT_SYNC and clear while it scrolls or
     * waits to rewind.
     */
    ghost predicate Valid()
      reads this, synchroniser
    {
      && Inv(Cfg(), Snap())
      && mustScroll == Cfg().MustScroll()
      && this in synchroniser.synchronised
      && (state == WaitSync ==> synchroniser.synchronised[this])
      && (state == Scrolling || state == WaitRewind ==> !synchroniser.synchronised[this])
    }

    /**
     * `max_pos` is the rendered text's width less the composition's width;
     * the scroller renders at offset 0 and registers busy.
     */
    constructor (sync: Synchroniser, imageWidth: int, compositionWidth: int, scrollDelay: int)
      modifies sync
      ensures Valid() && synchroniser == sync
      ensures maxPos == imageWidth - compositionWidth && delay == scrollDelay && speed == 1
      ensures Snap() == Initial()
      ensures sync.synchronised == old(sync.synchronised)[this := false]
    {
      synchroniser := sync;
      speed := 1;
      imageXPos := 0;
      maxPos := imageWidth - compositionWidth;
      delay := scrollDelay;
      ticks := 0;
      state := WaitScroll;
      offset := 0;
      cycles := 0;
      mustScroll := imageWidth - compositionWidth > 0;
      new;
      sync.Busy(this);
    }

    method Render()
      modifies this`offset
      ensures offset == imageXPos
    {
      offset := imageXPos;
    }

    method IsWaiting() returns (waiting: bool)
      modifies this`ticks
      ensures (waiting, ticks) == Waiting(delay, old(ticks))
    {
      ticks := ticks + 1;
      if ticks > delay {
        ticks := 0;
        return false;
      }
      return true;
    }

    method GetCycles() returns (c: int)
      ensures c == cycles
    {
      c := cycles;
    }

    method Tick()
      requires Valid()
      modifies this, synchroniser
      ensures Valid()
      ensures Snap() == Step(Cfg(), old(Snap()), old(AllReady(synchroniser.synchronised))).0
      ensures synchroniser.synchronised ==
              Signalled(old(synchroniser.synchronised), this,
                        Step(Cfg(), old(Snap()), old(AllReady(synchroniser.synchronised))).1)
    {
      StepKeepsInv(Cfg(), Snap(), AllReady(synchroniser.synchronised));
      if state == WaitScroll {
        var waiting := IsWaiting();
        if !waiting {
          cycles := cycles + 1;
          state := Scrolling;
          synchroniser.Busy(this);
        }
      } else if state == WaitRewind {
        var waiting := IsWaiting();
        if !waiting {
          synchroniser.Ready(this);
          state := WaitSync;
        }
      } else if state == WaitSync {
        var all := synchroniser.IsSynchronised();
        if all {
          if mustScroll {
            imageXPos := 0;
            Render();
          }
          state := WaitScroll;
        }
      } else {
        if imageXPos < maxPos {
          if mustScroll {
            Render();
            imageXPos := imageXPos + speed;
          }
        } else {
          state := WaitRewind;
        }
      }
    }
  }

  /** The order of the phases within one counted cycle (scrolling starts it). */
  function Rank(p: Phase): nat
  {
    match p
    case Scrolling => 3
    case WaitRewind => 2
    case WaitSync => 1
    case WaitScroll => 0
  }

  /** Ticks left in the current phase before it can end on its own. */
  function Remaining(cfg: Config, s: Snapshot): int
  {
    match s.phase
    case WaitScroll => Max(0, cfg.delay) - s.ticks
    case Scrolling => Max(0, cfg.maxPos) - s.x
    case WaitRewind => Max(0, cfg.delay) - s.ticks
    case WaitSync => 0
  }

  /** Ticks until the scroller next reports ready (0 while it waits in WAIT_SYNC). */
  function TicksToReady(cfg: Config, s: Snapshot): int
  {
    var d, m := Max(0, cfg.delay), Max(0, cfg.maxPos);
    match s.phase
    case WaitScroll => (d - s.ticks + 1) + (m + 1) + (d + 1)
    case Scrolling => (m - s.x + 1) + (d + 1)
    case WaitRewind => d - s.ticks + 1
    case WaitSync => 0
  }

  /** The flag conditions `Scroller.Valid` ties to the phase. */
  ghost predicate FlagAgrees(p: Phase, flag: bool)
  {
    (p == WaitSync ==> flag) && (p == Scrolling || p == WaitRewind ==> !flag)
  }

  function ApplySignal(flag: bool, s: Signal): bool
  {
    match s
    case NoSignal => flag
    case Busy => false
    case Ready => true
  }

  /**
   * One frame of a two-scroller round (the artist ticks, then the song):
   * either the song finishes a phase step, or it is held in WAIT_SYNC while
   * the artist gets one tick closer to reporting ready.
   */
  lemma RoundProgress(cs: Config, ca: Config, s: Snapshot, a: Snapshot, fs: bool, fa: bool)
    requires Inv(cs, s) && Inv(ca, a) && FlagAgrees(s.phase, fs) && FlagAgrees(a.phase, fa)
    ensures var (a', sa) := Step(ca, a, fs && fa);
            var (s', _) := Step(cs, s, fs && ApplySignal(fa, sa));
            || s'.cycles > s.cycles
            || (s'.cycles == s.cycles && Rank(s'.phase) < Rank(s.phase))
            || (s'.cycles == s.cycles && s'.phase == s.phase && 0 <= Remaining(cs, s') < Remaining(cs, s))
            || (s' == s && s.phase == WaitSync && 0 <= TicksToReady(ca, a') < TicksToReady(ca, a))
  {
  }

  /** The barrier in one frame of a two-scroller round. */
  lemma RoundBarrier(cs: Config, ca: Config, s: Snapshot, a: Snapshot, fs: bool, fa: bool)
    requires FlagAgrees(s.phase, fs) && FlagAgrees(a.phase, fa)
    ensures var (a', sa) := Step(ca, a, fs && fa);
            var (s', _) := Step(cs, s, fs && ApplySignal(fa, sa));
            && (a.phase == WaitSync && a'.phase == WaitScroll ==> s.phase == WaitSync || s.phase == WaitScroll)
            && (s.phase == WaitSync && s'.phase == WaitScroll ==> a'.phase == WaitSync || a'.phase == WaitScroll)
  {
  }

  lemma AllReadyPair<K>(table: map<K, bool>, p: K, q: K)
    requires table.Keys == {p, q}
    ensures AllReady(table) == (table[p] && table[q])
  {
  }

  /** Two scrollers registered, and only they, in one synchroniser. */
  ghost predicate Pair(song: Scroller, artist: Scroller, synchroniser: Synchroniser)
    reads song, artist, synchroniser
  {
    && song != artist && song.synchroniser == synchroniser && artist.synchroniser == synchroniser
    && song.Valid() && artist.Valid()
    && synchroniser.synchronised.Keys == {song, artist}
  }

  /** One tick of `p`, the other member `q` of the pair left as it was. */
  method TickOne(p: Scroller, q: Scroller, synchroniser: Synchroniser)
    requires Pair(p, q, synchroniser)
    modifies p, synchroniser
    ensures Pair(p, q, synchroniser)
    ensures q.Snap() == old(q.Snap()) && synchroniser.synchronised[q] == old(synchroniser.synchronised[q])
    ensures var (p', sig) := Step(p.Cfg(), old(p.Snap()),
                                  old(synchroniser.synchronised[p] && synchroniser.synchronised[q]));
            p.Snap() == p' && synchroniser.synchronised[p] == ApplySignal(old(synchroniser.synchronised[p]), sig)
  {
    AllReadyPair(synchroniser.synchronised, p, q);
    p.Tick();
  }

  /** One frame of the round: the artist ticks, then the song. */
  method Frame(song: Scroller, artist: Scroller, synchroniser: Synchroniser)
    requires Pair(song, artist, synchroniser)
    modifies song, artist, synchroniser
    ensures Pair(song, artist, synchroniser)
    ensures song.cycles == old(song.cycles) || song.cycles == old(song.cycles) + 1
    // neither scroller rewinds while the other is still scrolling or waiting to rewind
    ensures old(artist.state) == WaitSync && artist.state == WaitScroll ==>
              old(song.state) == WaitSync || old(song.state) == WaitScroll
    ensures old(song.state) == WaitSync && song.state == WaitScroll ==>
              artist.state == WaitSync || artist.state == WaitScroll
    ensures var s, s' := old(song.Snap()), song.Snap();
            || s'.cycles > s.cycles
            || (s'.cycles == s.cycles && Rank(s'.phase) < Rank(s.phase))
            || (s'.cycles == s.cycles && s'.phase == s.phase
                && 0 <= Remaining(song.Cfg(), s') < Remaining(song.Cfg(), s))
            || (s' == s && s.phase == WaitSync
                && 0 <= TicksToReady(artist.Cfg(), artist.Snap()) < TicksToReady(artist.Cfg(), old(artist.Snap())))
  {
    ghost var cs, ca := song.Cfg(), artist.Cfg();
    ghost var s, a := song.Snap(), artist.Snap();
    ghost var fs, fa := synchroniser.synchronised[song], synchroniser.synchronised[artist];
    RoundProgress(cs, ca, s, a, fs, fa);
    RoundBarrier(cs, ca, s, a, fs, fa);
    TickOne(artist, song, synchroniser);
    TickOne(song, artist, synchroniser);
  }

  /**
   * The main loop for one title: a song scroller and an artist scroller share
   * a fresh synchroniser and are ticked (artist first) once per frame until
   * the song has started its third scroll cycle. The round always ends, and
   * it ends with the song's cycle count at exactly 3.
   */
  method PlayTitle(songWidth: int, artistWidth: int, screenWidth: int, scrollDelay: int)
    returns (cycles: int, frames: nat)
    ensures cycles == 3 && frames >= 1
  {
    var synchroniser := new Synchroniser();
    var song := new Scroller(synchroniser, songWidth, screenWidth, scrollDelay);
    var artist := new Scroller(synchroniser, artistWidth, screenWidth, scrollDelay);
    cycles, frames := 0, 0;
    while cycles < 3
      invariant Pair(song, artist, synchroniser)
      invariant cycles == song.cycles <= 3
      invariant cycles > 0 ==> frames > 0
      decreases 3 - song.cycles, Rank(song.state), Remaining(song.Cfg(), song.Snap()),
                TicksToReady(artist.Cfg(), artist.Snap())
    {
      Frame(song, artist, synchroniser);
      cycles := song.GetCycles();
      frames := frames + 1;
    }
  }
}
