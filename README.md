# stockwatcher: the quote table, the display rule, symbol parsing and price truncation

stockwatcher is a terminal stock ticker. It takes a comma-separated list of
symbols (`-s`) and a refresh interval (`-i`). On every refresh it fetches each
symbol's quote concurrently and records the new price. It then redraws one line
per symbol: the symbol, its current price, its previous price, and an arrow for
the direction of the move.

This project models the sequential logic under that glue, all of it from
`stockticker.go`:

- **The quote table** (`quotes.dfy`, `ticker.dfy`). The table maps each symbol to
  an entry. The source's inner `map[string]float64` only ever takes two shapes:
  empty, as stored by `add` (`Unpriced`), or holding both "previous" and
  "current", as stored by `updateStock` (`Priced`). A missing symbol or key reads
  as 0, which is Go's zero value (`CurrentOf`, `PreviousOf`). `StockTicker` is a
  class whose `quotes` field its methods reassign in place. Pure functions
  (`Added`, `Updated`, `AddedAll`) give the new table, and the lemmas about the
  table are stated over them.
- **The display rule of `printData`** (`order.dfy`, `display.dfy`). Keys are
  sorted by Go's string order. Comparing UTF-8 bytes orders strings the same way
  as comparing code points, so the model uses code points (`Order.Less`). Each
  symbol gets one row, on lines 1, 2, … . The indicator is `Unchanged` ("-"),
  `Up` (rune 8593) or `Down` (rune 8595). `Screen` is the specification.
  `StockTicker.PrintData` is the imperative version. It collects the keys, sorts
  them by insertion, and counts `pos` the way the source does. It is proved
  equal to `Screen`.
- **Symbol-list parsing in `main`** (`symbols.dfy`, `ticker.dfy`). `Split`
  follows `strings.Split` with a one-character separator: there is one piece per
  comma plus one, and empty pieces are kept. `Join` is its inverse.
  `StockTicker.AddSymbols` is `main`'s switch and its loop of `add` calls.
- **Price truncation** (`price.dfy`). `^\d.+\.\d{2}` applied with `FindString`
  gives the longest prefix that matches the pattern, or "" when none does.
  `.+` is greedy, and Go's `.` does not match a newline.

Prices are `real`. The program only stores and compares them.

## Model

| member | source | states |
|---|---|---|
| Quotes.Added | stockticker.go:105-112 | registering adds exactly the symbol to the key set; an absent symbol gets an empty entry; a present symbol leaves the whole table unchanged |
| Quotes.Updated | stockticker.go:114-121 | the key set becomes the old one plus the symbol (unseen symbols are inserted); other entries are unchanged; the symbol's entry holds the new price as current and the old current (0 if none) as previous |
| Quotes.AddedAll | stockticker.go:214-221 | registering a list of symbols adds exactly the set of its elements as keys, keeps existing entries and gives every new key an empty entry |
| Quotes.AddIdempotent | stockticker.go:105-112 | registering a symbol twice equals registering it once |
| Quotes.AddBeforeUpdate | stockticker.go:108-118 | registering a symbol before its first update does not change the table the update leaves |
| Quotes.AddAfterUpdate | stockticker.go:105-121 | registering a symbol that has been updated leaves the table unchanged |
| Quotes.UpdateTwice | stockticker.go:114-121 | two updates of a symbol leave previous = first price, current = second price |
| Quotes.UpdatesCommute | stockticker.go:153-167 | updates of two different symbols give the same table in either order, so the finishing order of the concurrent fetches does not matter when the responses name pairwise different symbols |
| Quotes.UpdatesOfOneSymbolDoNotCommute | stockticker.go:153-167 | two updates of the same symbol with different prices give different tables in the two orders: the later update decides which price is current and which is previous |
| Order.LessTransitive | stockticker.go:175 | the symbol order is transitive |
| Order.LessTotal | stockticker.go:175 | any two distinct symbols are ordered one way or the other |
| Order.Insert | stockticker.go:171-175 | inserting a new key into a strictly ascending list gives a strictly ascending list with exactly one more element, the new key |
| Order.SortedKeys | stockticker.go:171-175 | the keys of a set as a strictly ascending list holding exactly the set's elements, of the set's size |
| Order.AscendingUnique | stockticker.go:171-175 | two strictly ascending lists with the same elements are equal, so the sorted key order is determined by the key set |
| Display.Trend | stockticker.go:178-190 | "-" exactly when previous is 0 or equals current; UP exactly when previous is non-zero and current > previous; DOWN exactly when previous is non-zero and current < previous |
| Display.RowFor | stockticker.go:177-190 | a row shows the symbol and its current price on the given line, with the indicator given by the rule; the previous column is "-" exactly when the indicator is "-", and otherwise shows the non-zero previous price |
| Display.Screen | stockticker.go:170-192 | one row per key of the table and no others, symbols strictly ascending, row i on line i + 1, and each row is the row for its symbol |
| Display.ScreenDistinct | stockticker.go:171-177 | no symbol is shown on two rows |
| Display.UpdateThenTrend | stockticker.go:178-190 | after an update, the symbol's row shows the new price, and its indicator compares the new price with the current price before the update |
| Display.UnpricedRow | stockticker.go:178-180 | a symbol that was only registered shows current price 0 and "-" in both the previous and the indicator columns |
| Symbols.Split | stockticker.go:216 | one piece per separator plus one; no piece contains the separator |
| Symbols.JoinSplit | stockticker.go:216 | joining the pieces with commas gives back the flag |
| Symbols.SplitJoin | stockticker.go:216 | splitting the join of comma-free pieces gives back the pieces, empty pieces included |
| Symbols.SplitWithoutSeparator | stockticker.go:219-220 | a flag without a comma is the single piece |
| Price.FindPrefix | stockticker.go:163 | `FindString` of the anchored pattern: a prefix of the input; "" exactly when no prefix matches; otherwise a matching prefix, and no longer prefix matches |
| Price.Truncate | stockticker.go:42 | "" or a prefix of the price; a non-empty result starts with a digit, is at least 5 characters long, has no newline between the first digit and the '.', and ends with '.' and two digits; it is "" exactly when no prefix matches, and is the longest matching prefix otherwise |
| Price.TruncateIdempotent | stockticker.go:163 | truncating a truncated price changes nothing |
| Price.NewlineBounds | stockticker.go:42 | a newline at position i ≥ 1 limits the kept prefix to i + 3 characters |
| Price.TruncateExample | stockticker.go:42 | "12.345" yields "12.34" |
| Price.ShortPriceDropped | stockticker.go:42 | a single digit, a '.', and any decimals yields "" |
| Price.TruncateKeepsTwoDecimals | stockticker.go:42 | a price with an integer part of two or more digits and at least two decimals keeps its integer part and its first two decimals |
| Price.TruncateFixed | stockticker.go:42 | the corrected pattern `^\d.*\.\d{2}`: "" or the longest matching prefix; a non-empty result starts with a digit and ends with '.' and two digits |
| Price.FindKeepsTwoDecimals | stockticker.go:42 | a price whose integer part is long enough for the pattern and which has at least two decimals keeps its integer part and exactly two decimals |
| Price.FixedKeepsTwoDecimals | stockticker.go:42 | with the corrected pattern every price with at least two decimals keeps its integer part and its first two decimals |
| Price.ShortPriceExample | stockticker.go:42 | "1.50" yields "" as written and "1.50" when corrected |
| Ticker.StockTicker.constructor | stockticker.go:97-103 | a new ticker has an empty table and the given interval |
| Ticker.StockTicker.Add | stockticker.go:105-112 | the new table is `Added` of the old one |
| Ticker.StockTicker.UpdateStock | stockticker.go:114-121 | the new table is `Updated` of the old one: the symbol's entry is (old current or 0, price), the key set gains the symbol, other entries are unchanged |
| Ticker.StockTicker.AddSymbols | stockticker.go:214-221 | after the switch and its loop of `add` calls, the table is the old table with every comma-separated piece registered; both branches of the switch agree with the comma split |
| Ticker.StockTicker.PrintData | stockticker.go:170-192 | the rows written are exactly `Screen` of the table |
| Ticker.Setup | stockticker.go:212-221 | the new ticker's interval is the flag in seconds, and its key set is exactly the set of comma-separated pieces of the symbol flag, each with an empty entry |

## Left out

- `query` (stockticker.go:123-140) is not modelled: it is an HTTP request with a timeout, and library JSON decoding into `Stock`, `List` and `Resources`.
- `convertPrice` (stockticker.go:142-149) is not modelled: it uses the floating-point parser of Go's library. On error, including the "" that a failed truncation gives, it logs and exits the process.
- `runner` (stockticker.go:151-168) is not modelled: its goroutine fan-out, `sync.WaitGroup` and indexing of `Resources[0]` all depend on the response. Each update is treated as one atomic step. `Quotes.UpdatesCommute` states that the order of updates does not matter when the responses name pairwise different symbols. The symbol that is updated is the one in the response, not necessarily the requested key, which is why `UpdateStock` inserts unseen symbols.
- The order of two concurrent updates of the same symbol is not modelled. This happens when two responses name the same symbol (for example the flag `aapl,AAPL`). The final table then depends on which fetch finishes last, and `Quotes.UpdatesOfOneSymbolDoNotCommute` shows that the two orders give different tables when the prices differ.
- The mutex in `add` and `updateStock` is not modelled: each method is atomic in the model.
- `printTb`, `clearScreen`, termbox and runewidth (stockticker.go:90-95, 194-200) are not modelled: they are terminal output through third-party libraries. `PrintData` returns the rows instead of writing them.
- The `fmt.Sprintf` widths and the `%v` float formatting in `printData` are not modelled. The source passes the ints UP and DOWN to `%s`, which prints `%!s(int=8593)` rather than an arrow. The model keeps the indicator as an enumeration.
- `main`'s termbox setup, key-event goroutine, timer/select loop, signal handling and exit (stockticker.go:203-210, 223-255) are not modelled: they are concurrency and I/O.
- Ticker.Setup: does not model the int64 wrap-around of `time.Duration(*intervalFlag) * time.Second`. The interval is an unbounded integer number of nanoseconds.
- Symbols and prices are strings of Unicode scalar values. Go strings are byte strings, so a `-s` flag or a price field that is not valid UTF-8 is outside the model. The claim that comparing bytes orders strings like comparing code points also holds only for valid UTF-8.
- Display.Trend: prices are reals, so NaN and signed zeros of float64 are not modelled. For real prices the final else branch means exactly current < previous.

## Findings

| source | as written | input that shows it | evidently intended | confidence | as-written member | corrected member |
|---|---|---|---|---|---|---|
| stockticker.go:42 | `^\d.+\.\d{2}` needs at least one character between the first digit and the '.'. A price whose integer part is a single digit matches nothing, so `FindString` gives "" and `convertPrice` then ends the program | "1.50" (any one digit, '.', digits) | keep the integer part and two decimals of every price; the comment on the pattern reads "this is to have only 2 decimal places". Corrected pattern: `^\d.*\.\d{2}` | not executed; follows from the pattern's definition | Price.ShortPriceDropped | Price.TruncateFixed |

`Price.ShortPriceExample` proves that "1.50" yields "" with the pattern as written and "1.50" with the corrected pattern. No other member of the model uses the truncation, so nothing else changes when the corrected pattern is used.
