/** The ticker object: its quote table changed in place by `Add` and `UpdateStock`,
    read by `PrintData`, and the start-up step that builds it from the `-s` and `-i`
    flags. Each call is treated as atomic; the lock that makes it so in the program
    is not modelled. */
module Ticker {
  import opened Quotes
  import opened Order
  import opened Display
  import opened Symbols

  /** Nanoseconds in a second: the refresh interval is held as a duration. */
  const SECOND: int := 1_000_000_000

  class StockTicker {
    var quotes: Table
    var interval: int

    constructor (interval: int)
      ensures quotes == map[]
      ensures this.interval == interval
    {
      quotes := map[];
      this.interval := interval;
    }

    /** Registers `symbol`, leaving an existing entry untouched. */
    method Add(symbol: string)
      modifies this`quotes
      ensures quotes == Added(old(quotes), symbol)
    {
      if symbol !in quotes {
        quotes := quotes[symbol := Unpriced];
      }
    }

    /** Records `price` as the current price of `symbol`; the old current price (0 when
        there was none) becomes the previous one. Unknown symbols are inserted. */
    method UpdateStock(symbol: string, price: real)
      modifies this`quotes
      ensures quotes == Updated(old(quotes), symbol, price)
      ensures quotes[symbol] == Priced(CurrentOf(old(quotes), symbol), price)
      ensures quotes.Keys == old(quotes).Keys + {symbol}
      ensures forall k :: k in old(quotes) && k != symbol ==> quotes[k] == old(quotes)[k]
    {
      quotes := quotes[symbol := Priced(CurrentOf(quotes, symbol), price)];
    }

    /** Registers every symbol of the `-s` flag: each comma-separated piece when the
        flag holds a comma, otherwise the whole flag. */
    method AddSymbols(symbolFlag: string)
      modifies this`quotes
      ensures quotes == AddedAll(old(quotes), Split(symbolFlag, ','))
    {
      if ',' in symbolFlag {
        var pieces := Split(symbolFlag, ',');
        for i := 0 to |pieces|
          invariant quotes == AddedAll(old(quotes), pieces[..i])
        {
          AddedAllSnoc(old(quotes), pieces, i);
          Add(pieces[i]);
        }
        assert pieces[..|pieces|] == pieces;
      } else {
        assert AddedAll(quotes, Split(symbolFlag, ',')) == Added(quotes, symbolFlag) by {
          SplitWithoutSeparator(symbolFlag, ',');
          AddedAllSnoc(quotes, [symbolFlag], 0);
          assert [symbolFlag][..1] == [symbolFlag] && [symbolFlag][..0] == [];
        }
        Add(symbolFlag);
      }
    }

    /** The rows one redraw writes: the symbols sorted, one row each on lines 1, 2, ... */
    method PrintData() returns (rows: seq<Row>)
      ensures rows == Screen(quotes)
    {
      var keys: seq<string> := [];
      var pending := quotes.Keys;
      while pending != {}
        invariant pending <= quotes.Keys
        invariant Ascending(keys)
        invariant forall x :: x in keys <==> x in quotes && x !in pending
        decreases pending
      {
        var k :| k in pending;
        keys := Insert(keys, k);
        pending := pending - {k};
      }
      AscendingUnique(keys, SortedKeys(quotes.Keys));
      rows := [];
      var pos := 1;
      for i := 0 to |keys|
        invariant pos == i + 1
        invariant rows == RowsOf(quotes, keys[..i])
      {
        var k := keys[i];
        var previous, current := PreviousOf(quotes, k), CurrentOf(quotes, k);
        var row;
        if previous == 0.0 || previous == current {
          row := Row(pos, k, current, Dash, Unchanged);
        } else if current > previous {
          row := Row(pos, k, current, Price(previous), Up);
        } else {
          row := Row(pos, k, current, Price(previous), Down);
        }
        assert row == RowFor(quotes, k, i + 1);
        RowsOfSnoc(quotes, keys, i);
        rows := rows + [row];
        pos := pos + 1;
      }
      assert keys[..|keys|] == keys;
    }
  }

  /** Start-up: a ticker with the given refresh interval in seconds and one empty
      entry per comma-separated piece of the symbol flag. */
  method Setup(symbolFlag: string, intervalSeconds: int) returns (t: StockTicker)
    ensures fresh(t)
    ensures t.interval == intervalSeconds * SECOND
    ensures t.quotes == AddedAll(map[], Split(symbolFlag, ','))
    ensures t.quotes.Keys == set p | p in Split(symbolFlag, ',')
    ensures forall k :: k in t.quotes ==> t.quotes[k] == Unpriced
  {
    t := new StockTicker(intervalSeconds * SECOND);
    t.AddSymbols(symbolFlag);
  }
}
