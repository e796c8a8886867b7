/**
 * The older copy of the scroll synchroniser, written against `MultiImage`.
 * Its `Scroller` is the one in `ScrollSync` (it hands the offset to
 * `set_offset` instead of assigning `offset`); what differs is that its
 * `is_synchronised` walks the table with `dict.iteritems`, which only
 * Python 2 has.
 */
module MultiImageDemo {
  import opened Wrappers
  import opened ScrollSync

  datatype Interpreter = Python2 | Python3

  datatype PyError = AttributeError

  /**
   * `is_synchronised` of this copy: under Python 3 the attribute lookup of
   * `iteritems` raises before any entry is read, even on an empty table.
   */
  method IsSynchronised(sync: Synchroniser, interp: Interpreter) returns (r: Result<bool, PyError>)
    ensures interp == Python3 <==> r == Err(AttributeError)
    ensures r.Ok? ==> (r.value <==> forall t :: t in sync.synchronised ==> sync.synchronised[t])
  {
    if interp == Python3 {
      return Err(AttributeError);
    }
    var all := sync.IsSynchronised();
    return Ok(all);
  }

  /** One `tick` of this copy, which calls `is_synchronised` only in WAIT_SYNC. */
  function TickUnder(interp: Interpreter, cfg: Config, s: Snapshot, table: map<Scroller, bool>)
    : (r: Result<(Snapshot, Signal), PyError>)
    ensures r.Err? <==> (interp == Python3 && s.phase == WaitSync)
    ensures r.Ok? ==> r.value == Step(cfg, s, AllReady(table))
  {
    if s.phase == WaitSync && interp == Python3 then Err(AttributeError)
    else Ok(Step(cfg, s, AllReady(table)))
  }

  /**
   * Under Python 2 this copy behaves as `ScrollSync`; under Python 3 a
   * scroller started alone gets through its first
   * `2 * delay + max(0, max_pos) + 3` ticks, and raises on the next one,
   * the first tick it spends in WAIT_SYNC.
   */
  lemma Python3RaisesAtFirstSync(cfg: Config, table: map<Scroller, bool>)
    requires Inv(cfg, Initial())
    ensures var n := 2 * Max(0, cfg.delay) + Max(0, cfg.maxPos) + 3;
            && (forall k :: 0 <= k < n ==> TickUnder(Python3, cfg, RunWith(cfg, Initial(), Trues(k)), table).Ok?)
            && TickUnder(Python3, cfg, RunWith(cfg, Initial(), Trues(n)), table).Err?
            && TickUnder(Python2, cfg, RunWith(cfg, Initial(), Trues(n)), table).Ok?
  {
    SoloCycle(cfg, Initial());
    forall k | 0 <= k < 2 * Max(0, cfg.delay) + Max(0, cfg.maxPos) + 3
      ensures RunWith(cfg, Initial(), Trues(k)).phase != WaitSync
    {
      NoSyncBefore(cfg, Initial(), k);
    }
  }
}
