/** What one redraw of the ticker shows: one row per symbol of the table, in
    ascending symbol order, on screen lines 1, 2, ..., with an indicator of the
    direction the price moved since the previous refresh. The terminal writes and
    the text formatting of each row are abstracted away. */
module Display {
  import opened Quotes
  import opened Order

  /** The last column: "-", the rune UP (8593, an up arrow) or the rune DOWN
      (8595, a down arrow). */
  datatype Indicator = Unchanged | Up | Down

  /** The third column: "-" or the previous price. */
  datatype Cell = Dash | Price(value: real)

  /** One screen row: its line, the symbol, the current price, the previous-price
      column and the indicator. */
  datatype Row = Row(line: nat, symbol: string, current: real, previous: Cell, indicator: Indicator)

  /** The indicator rule: no usable previous price (0) or no change shows "-";
      a rise shows UP; any other case shows DOWN. */
  function Trend(previous: real, current: real): (t: Indicator)
    ensures t == Unchanged <==> previous == 0.0 || previous == current
    ensures t == Up <==> previous != 0.0 && current > previous
    ensures t == Down <==> previous != 0.0 && current < previous
  {
    if previous == 0.0 || previous == current then Unchanged
    else if current > previous then Up
    else Down
  }

  /** The row printed for `symbol` at screen line `line`. */
  function RowFor(t: Table, symbol: string, line: nat): (r: Row)
    ensures r.line == line && r.symbol == symbol
    ensures r.current == CurrentOf(t, symbol)
    ensures r.indicator == Trend(PreviousOf(t, symbol), CurrentOf(t, symbol))
    ensures r.previous == Dash <==> r.indicator == Unchanged
    ensures r.previous.Price? ==> r.previous.value == PreviousOf(t, symbol) != 0.0
  {
    var previous, current := PreviousOf(t, symbol), CurrentOf(t, symbol);
    var indicator := Trend(previous, current);
    Row(line, symbol, current, if indicator == Unchanged then Dash else Price(previous), indicator)
  }

  /** The rows for the given symbols, on consecutive lines from 1. */
  function RowsOf(t: Table, keys: seq<string>): (rows: seq<Row>)
    ensures |rows| == |keys|
    ensures forall i :: 0 <= i < |rows| ==> rows[i].symbol == keys[i]
    ensures forall i :: 0 <= i < |rows| ==> rows[i] == RowFor(t, keys[i], i + 1)
  {
    seq(|keys|, i requires 0 <= i < |keys| => RowFor(t, keys[i], i + 1))
  }

  /** One more symbol adds one more row, on the next line. */
  lemma RowsOfSnoc(t: Table, keys: seq<string>, i: nat)
    requires i < |keys|
    ensures RowsOf(t, keys[..i + 1]) == RowsOf(t, keys[..i]) + [RowFor(t, keys[i], i + 1)]
  {
  }

  /** The whole screen for a table. */
  ghost function Screen(t: Table): (rows: seq<Row>)
    ensures |rows| == |t.Keys|
    ensures forall i :: 0 <= i < |rows| ==> rows[i].symbol in t
    ensures forall k :: k in t ==> exists i :: 0 <= i < |rows| && rows[i].symbol == k
    ensures forall i, j :: 0 <= i < j < |rows| ==> Less(rows[i].symbol, rows[j].symbol)
    ensures forall i :: 0 <= i < |rows| ==> rows[i] == RowFor(t, rows[i].symbol, i + 1)
  {
    var keys := SortedKeys(t.Keys);
    ScreenOfSortedKeys(t, keys);
    RowsOf(t, keys)
  }

  lemma ScreenOfSortedKeys(t: Table, keys: seq<string>)
    requires Ascending(keys) && |keys| == |t.Keys|
    requires forall x :: x in keys <==> x in t.Keys
    ensures forall i :: 0 <= i < |keys| ==> RowsOf(t, keys)[i].symbol in t
    ensures forall k :: k in t ==> exists i :: 0 <= i < |keys| && RowsOf(t, keys)[i].symbol == k
    ensures forall i, j :: 0 <= i < j < |keys| ==> Less(RowsOf(t, keys)[i].symbol, RowsOf(t, keys)[j].symbol)
  {
    var rows := RowsOf(t, keys);
    forall i | 0 <= i < |rows| ensures rows[i].symbol in t {
      assert keys[i] in keys;
    }
    forall k | k in t ensures exists i :: 0 <= i < |rows| && rows[i].symbol == k {
      assert k in keys;
      var i :| 0 <= i < |keys| && keys[i] == k;
      assert rows[i].symbol == k;
    }
  }

  /** No symbol is shown on two rows. */
  lemma ScreenDistinct(t: Table)
    ensures forall i, j :: 0 <= i < j < |Screen(t)| ==> Screen(t)[i].symbol != Screen(t)[j].symbol
  {
    var rows := Screen(t);
    forall i, j | 0 <= i < j < |rows| ensures rows[i].symbol != rows[j].symbol {
      LessIrreflexive(rows[i].symbol);
    }
  }

  /** After a refresh of `symbol` to `price`, its row compares the new price with the
      price it had before the refresh. */
  lemma UpdateThenTrend(t: Table, symbol: string, price: real, line: nat)
    ensures RowFor(Updated(t, symbol, price), symbol, line).indicator
         == Trend(CurrentOf(t, symbol), price)
    ensures RowFor(Updated(t, symbol, price), symbol, line).current == price
  {
  }

  /** A symbol that was only registered shows price 0 and "-". */
  lemma UnpricedRow(t: Table, symbol: string, line: nat)
    requires symbol in t && t[symbol] == Unpriced
    ensures RowFor(t, symbol, line) == Row(line, symbol, 0.0, Dash, Unchanged)
  {
  }
}
