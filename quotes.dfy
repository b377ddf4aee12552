/** The ticker's quote table: one entry per symbol holding the last two prices seen.
    The functions here are the abstract value of `stockticker.quotes` and of the two
    operations that change it in place (see StockTicker in ticker.dfy). */
module Quotes {

  /** One entry of the table. The source stores an inner map from "previous" and
      "current" to a price; `add` stores it empty (Unpriced) and `updateStock` stores
      both keys (Priced). No other shape is ever written. */
  datatype Quote = Unpriced | Priced(previous: real, current: real)

  type Table = map<string, Quote>

  /** `t[symbol]["current"]`: a missing symbol or a missing key reads as 0. */
  function CurrentOf(t: Table, symbol: string): real
  {
    if symbol in t && t[symbol].Priced? then t[symbol].current else 0.0
  }

  /** `t[symbol]["previous"]`: a missing symbol or a missing key reads as 0. */
  function PreviousOf(t: Table, symbol: string): real
  {
    if symbol in t && t[symbol].Priced? then t[symbol].previous else 0.0
  }

  /** Registering a symbol: an absent symbol gets an empty entry, a present one is kept. */
  function Added(t: Table, symbol: string): (r: Table)
    ensures r.Keys == t.Keys + {symbol}
    ensures forall k :: k in t ==> k in r && r[k] == t[k]
    ensures symbol !in t ==> r[symbol] == Unpriced
    ensures symbol in t ==> r == t
  {
    if symbol in t then t else t[symbol := Unpriced]
  }

  /** Recording a fresh price: the old current price becomes the previous one. */
  function Updated(t: Table, symbol: string, price: real): (r: Table)
    ensures r.Keys == t.Keys + {symbol}
    ensures forall k :: k in t && k != symbol ==> r[k] == t[k]
    ensures r[symbol].Priced?
    ensures CurrentOf(r, symbol) == price
    ensures PreviousOf(r, symbol) == CurrentOf(t, symbol)
    ensures PreviousOf(r, symbol) == 0.0 <== symbol !in t || t[symbol] == Unpriced
  {
    t[symbol := Priced(CurrentOf(t, symbol), price)]
  }

  /** Registering every symbol of a list, first to last. */
  function AddedAll(t: Table, symbols: seq<string>): (r: Table)
    ensures r.Keys == t.Keys + (set s | s in symbols)
    ensures forall k :: k in t ==> r[k] == t[k]
    ensures forall k :: k in r && k !in t ==> r[k] == Unpriced
    decreases |symbols|
  {
    if symbols == [] then t
    else
      var init := symbols[..|symbols| - 1];
      assert symbols == init + [symbols[|symbols| - 1]];
      Added(AddedAll(t, init), symbols[|symbols| - 1])
  }

  /** Registering one more symbol of a list. */
  lemma AddedAllSnoc(t: Table, symbols: seq<string>, i: nat)
    requires i < |symbols|
    ensures AddedAll(t, symbols[..i + 1]) == Added(AddedAll(t, symbols[..i]), symbols[i])
  {
    assert symbols[..i + 1][..i] == symbols[..i];
  }

  /** Registering a symbol twice is the same as registering it once. */
  lemma AddIdempotent(t: Table, symbol: string)
    ensures Added(Added(t, symbol), symbol) == Added(t, symbol)
  {
  }

  /** Registering a symbol before its first price makes no difference to the table. */
  lemma AddBeforeUpdate(t: Table, symbol: string, price: real)
    ensures Updated(Added(t, symbol), symbol, price) == Updated(t, symbol, price)
  {
  }

  /** Registering a symbol that already has a price leaves the table alone. */
  lemma AddAfterUpdate(t: Table, symbol: string, price: real)
    ensures Added(Updated(t, symbol, price), symbol) == Updated(t, symbol, price)
  {
  }

  /** Two updates of a symbol leave exactly the two prices, in order. */
  lemma UpdateTwice(t: Table, symbol: string, first: real, second: real)
    ensures Updated(Updated(t, symbol, first), symbol, second)[symbol] == Priced(first, second)
  {
  }

  /** Two updates of the same symbol with different prices do not commute: the later
      one decides which price is current and which is previous. */
  lemma UpdatesOfOneSymbolDoNotCommute(t: Table, symbol: string, p1: real, p2: real)
    requires p1 != p2
    ensures Updated(Updated(t, symbol, p1), symbol, p2) != Updated(Updated(t, symbol, p2), symbol, p1)
  {
    assert Updated(Updated(t, symbol, p1), symbol, p2)[symbol] == Priced(p1, p2);
  }

  /** Updates of different symbols commute: when the responses name pairwise different
      symbols, the order in which the concurrent fetches finish does not change the
      table they leave. */
  lemma UpdatesCommute(t: Table, s1: string, p1: real, s2: string, p2: real)
    requires s1 != s2
    ensures Updated(Updated(t, s1, p1), s2, p2) == Updated(Updated(t, s2, p2), s1, p1)
  {
  }
}
