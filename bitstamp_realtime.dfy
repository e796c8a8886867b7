/**
 * examples/bitstamp_realtime.py: `trade_callback` keeps the five most
 * recent trades, newest first, in the module-level `rows`, and redraws
 * them one text line every 12 pixels. The JSON decoding is done by the
 * library; `amount` stands for the text the f-string's `str()` gives for
 * the decoded float, which is not modelled.
 */
module BitstampRealtime {

  const MaxRows: int := 5
  const LineHeight: int := 12
  const TopMargin: int := 2

  /** The line drawn for a trade: "$<price_str>  <amount>". */
  function RowText(priceStr: string, amount: string): (r: string)
    ensures |r| == |priceStr| + |amount| + 3
    ensures r[0] == '$' && r[1..|priceStr| + 1] == priceStr
    ensures r[|priceStr| + 1..|priceStr| + 3] == "  " && r[|priceStr| + 3..] == amount
  {
    "$" + priceStr + "  " + amount
  }

  /** `rows.insert(0, row)`, then `rows.pop()` when there are more than five. */
  function Pushed(rows: seq<string>, row: string): (r: seq<string>)
    ensures |r| == if |rows| + 1 > MaxRows then |rows| else |rows| + 1
  {
    var grown := [row] + rows;
    if |grown| > MaxRows then grown[..|grown| - 1] else grown
  }

  /**
   * With at most five rows before, there are at most five after; the new
   * row is first, the others move down one place, and only the oldest is
   * dropped, and only when a sixth arrives.
   */
  lemma PushedRows(rows: seq<string>, row: string)
    requires |rows| <= MaxRows
    ensures var r := Pushed(rows, row);
            && |r| <= MaxRows
            && r[0] == row
            && (forall i :: 0 <= i < |r| - 1 ==> r[i + 1] == rows[i])
            && (|rows| < MaxRows ==> r[1..] == rows)
            && (|rows| == MaxRows ==> r[1..] == rows[..MaxRows - 1])
  {
  }

  /** The rows after filing `trades` one by one, oldest first. */
  function PushAll(rows: seq<string>, trades: seq<string>): seq<string>
    decreases |trades|
  {
    if |trades| == 0 then rows else PushAll(Pushed(rows, trades[0]), trades[1..])
  }

  function Reverse(s: seq<string>): (r: seq<string>)
    ensures |r| == |s| && forall i :: 0 <= i < |s| ==> r[i] == s[|s| - 1 - i]
  {
    if |s| == 0 then [] else Reverse(s[1..]) + [s[0]]
  }

  function Min(a: int, b: int): int
  {
    if a < b then a else b
  }

  /**
   * After any run of trades the board shows the newest ones first, then
   * what it showed before, cut to five rows.
   */
  lemma {:induction false} PushAllNewest(rows: seq<string>, trades: seq<string>)
    requires |rows| <= MaxRows
    ensures PushAll(rows, trades) == (Reverse(trades) + rows)[..Min(|trades| + |rows|, MaxRows)]
    decreases |trades|
  {
    if |trades| > 0 {
      var t0, rest := trades[0], trades[1..];
      var p := Pushed(rows, t0);
      PushedRows(rows, t0);
      PushAllNewest(p, rest);
      var a := Reverse(rest);
      var m := Min(|trades| + |rows|, MaxRows);
      assert Min(|rest| + |p|, MaxRows) == m;
      assert Reverse(trades) == a + [t0];
      var lhs := (a + p)[..m];
      var rhs := (a + [t0] + rows)[..m];
      forall i | 0 <= i < m
        ensures lhs[i] == rhs[i]
      {
        if i > |a| {
          assert p[i - |a|] == rows[i - |a| - 1];
        }
      }
      assert lhs == rhs;
    } else {
      assert Reverse(trades) + rows == rows;
    }
  }

  /** From an empty board, the board shows the last five trades, newest first. */
  lemma LatestTrades(trades: seq<string>)
    ensures PushAll([], trades) == Reverse(trades)[..Min(|trades|, MaxRows)]
  {
    PushAllNewest([], trades);
    assert Reverse(trades) + [] == Reverse(trades);
  }

  /** Where each row is drawn: line i at y = 2 + 12 i. */
  function Layout(rows: seq<string>): (drawn: seq<(int, string)>)
    ensures |drawn| == |rows|
    ensures forall i :: 0 <= i < |rows| ==> drawn[i] == (TopMargin + i * LineHeight, rows[i])
  {
    seq(|rows|, i requires 0 <= i < |rows| => (TopMargin + i * LineHeight, rows[i]))
  }

  class TradeBoard {
    /** The module-level `rows`. */
    var rows: seq<string>

    ghost predicate Valid()
      reads this
    {
      |rows| <= MaxRows
    }

    constructor ()
      ensures Valid() && rows == []
    {
      rows := [];
    }

    /** `trade_callback`: file the trade, then redraw every row. */
    method TradeCallback(priceStr: string, amount: string) returns (drawn: seq<(int, string)>)
      requires Valid()
      modifies this
      ensures Valid()
      ensures rows == Pushed(old(rows), RowText(priceStr, amount))
      ensures drawn == Layout(rows)
    {
      var row := RowText(priceStr, amount);
      rows := [row] + rows;
      if |rows| > MaxRows {
        rows := rows[..|rows| - 1];
      }
      drawn := [];
      for i := 0 to |rows|
        invariant drawn == Layout(rows[..i])
      {
        assert rows[..i + 1] == rows[..i] + [rows[i]];
        drawn := drawn + [(TopMargin + i * LineHeight, rows[i])];
      }
      assert rows[..|rows|] == rows;
    }
  }
}
