# seller-apis: stock and price reconciliation, in Dafny

seller-apis pushes a watch shop's spreadsheet of remnants to two marketplaces.
For each feed row it reads the code, the quantity and the price, as text.
Ozon is handled by `seller.py` and Yandex.Market by `market.py`.

Both files build payloads from the feed and the marketplace's list of offer
ids:

- **create_stocks** walks the feed and takes every row whose code is still in
  the list.
  - It converts the quantity with the quantity rule: `">10"` is 100, `"1"` is
    0, and anything else goes through `int()`.
  - It removes the id from the caller's list, in place.
  - Finally it appends a zero stock for every id left.
- **create_prices** takes every row whose code is in the list. Its price
  goes through `price_conversion`, which keeps the digits before the first
  `.`.
- **divide** cuts a payload into batches.
- **upload_stocks** keeps the entries with a non-zero stock.

The project is split into these modules:

| module | file | contents |
|---|---|---|
| `Results` | `results.dfy` | the `Result` type; `ValueError` is what `int()` raises |
| `Lists` | `lists.dfy` | `list.remove` (`RemoveFirst`) and the subsequence relation |
| `Digits` | `digits.dfy` | `int()` on text (`ParseInt`), the `[^0-9]` filter (`KeepDigits`) and `split(".")[0]` (`BeforeFirstDot`) |
| `Reconcile` | `reconcile.dfy` | what both marketplaces share (see below) |
| `Seller` | `seller.dfy` | the Ozon payloads, `price_conversion`, `divide`, the non-zero filter and the stock-then-price sequence of `main` |
| `Market` | `market.dfy` | the Yandex.Market payloads and filter; it uses `Seller.PriceConversion` as `market.py` imports it |

`Reconcile` holds:

- the feed `Record` and the quantity rule;
- the caller's id list, as the class `OfferIdList` whose `Remove` shrinks it in place;
- the first loop of `create_stocks` as a pure fold (`Scan`/`Step`);
- two independent descriptions of that loop's outcome:
  - `FirstFits`: a row is taken iff fewer earlier rows share its code than the list holds copies of it;
  - `Survivors`: the list minus the first copy of an id per matching row;
- `Selected`, the row filter of `create_prices`.

The `create_stocks` methods run the two loops of the source on an
`OfferIdList`. Their postconditions tie the result and the list's new
contents to `Scan`. The lemmas about `Scan` then state what the payload means
in terms of the references.

When `int()` raises part-way through, the method returns `Err(ValueError)`.
It leaves the caller's list shrunk by the rows taken so far, as the Python
list is.

Ozon's `create_prices` stores `price` as the text `price_conversion` returns
(seller.py:256), where its docstring example (seller.py:243) shows the integer
5990; the model follows the code.

Both `create_stocks` also map a quantity of `"1"` to stock 0
(seller.py:218-219, market.py:178-179), a rule no docstring mentions; the
model keeps it.

## Model

| member | source | states |
|---|---|---|
| Lists.FirstIndex | seller.py:223 | the position of the first copy of x: it holds x and no earlier position does |
| Lists.RemoveFirst | seller.py:223 | removing a present id deletes its first copy and keeps the rest in order (so one copy leaves the multiset); removing an absent id leaves the list unchanged |
| Digits.ParseInt | seller.py:221 | `int()` succeeds exactly on a plain integer literal (an optional sign, then at least one digit), so such text ends in a digit; a leading `-` gives a value at most 0, any other text a value at least 0; a digit string gives its decimal value |
| Digits.ParseIntRejects | seller.py:221 | `int()` raises on text with a non-digit after its first character ("1x1", "1.5") and on text starting with neither a sign nor a digit |
| Digits.ParseShowInt | seller.py:221 | `int()` reads back the decimal text of every integer |
| Digits.ParseDigits | seller.py:221 | on a digit string, `int()` fails exactly on the empty string, and otherwise gives its decimal value |
| Digits.KeepDigits | seller.py:285 | the `[^0-9]` filter yields only digits and is never longer than its input |
| Digits.KeepDigitsCounts | seller.py:285 | the filter keeps every digit, as often as it occurs, and drops every other character |
| Digits.KeepDigitsSubsequence | seller.py:285 | the kept digits appear in their original order |
| Digits.BeforeFirstDot | seller.py:285 | `split(".")[0]` is a prefix without any `.`; when it is shorter than the input, a `.` follows it |
| Reconcile.Quantity | seller.py:215-221 | the rule raises iff the text is not ">10" and `int()` raises on it; away from ">10" and "1" it agrees with `int()`; a negative stock comes only from text starting with `-` |
| Reconcile.QuantityOfNumber | seller.py:215-221 | on the decimal text of any integer n the quantity rule gives n, except that "1" gives 0 |
| Reconcile.QuantityExamples | market.py:175-181 | ">10" gives 100, "1" gives 0, "42" gives 42; empty or non-numeric text raises |
| Reconcile.OfferIdList.Remove | seller.py:223 | the list loses the first copy of x and keeps the rest in order (RemoveFirst), and the result says whether x was there |
| Reconcile.Step | seller.py:214-223 | one row moves at most one id from the list to the matched rows and never changes their total; a raise changes only the flag; after a raise nothing changes |
| Reconcile.Scan | seller.py:213-223 | over the whole feed, the matched rows and the ids left add up to the original list's length, and no more rows are matched than the feed holds |
| Reconcile.Selected | seller.py:248-250 | the price loop's rows: no more than the feed holds, each a feed row with a listed code, and every feed row with a listed code among them |
| Reconcile.ScanMatchesReference | seller.py:212-223 | the stock loop raises iff a row it would take has an unreadable quantity; otherwise it takes exactly FirstFits in feed order and leaves Survivors |
| Reconcile.ScanTakesReference | seller.py:212-223 | a pass that does not raise takes FirstFits, leaves Survivors, conserves the list and counts every taken row by the quantity rule |
| Reconcile.ScanConserves | seller.py:222-223 | the codes taken plus the ids left over are exactly the original list, as multisets |
| Reconcile.ScanCounts | seller.py:215-222 | every taken row's stock is what the quantity rule gives for its quantity |
| Reconcile.FirstFitsCount | seller.py:214-223 | each code is taken min(rows with that code, copies in the list) times |
| Reconcile.SurvivorsCount | seller.py:223-225 | each id is left max(0, copies in the list minus rows with that code) times |
| Reconcile.FirstFitsSubsequence | seller.py:213-222 | the taken rows keep feed order |
| Reconcile.SurvivorsSubsequence | seller.py:225 | the ids left over keep list order |
| Reconcile.SelectedCount | seller.py:249-250 | the price loop takes every row whose code is listed, with repeats, and no other row |
| Reconcile.SelectedSubsequence | seller.py:249-258 | the price loop keeps feed order |
| Reconcile.SelectedAfterScan | seller.py:223 | after a complete stock pass, a row still selectable has a code with more copies in the list than rows in the feed |
| Seller.CreateStocks | seller.py:193-227 | returns Err exactly when the stock loop raises; otherwise it returns the matched entries followed by a zero entry per id left; the caller's list ends as the loop leaves it |
| Seller.StocksMeaning | seller.py:212-226 | one entry per original id (the same multiset of offer ids): first the FirstFits rows with their rule-given stock, then ZeroStocks of the Survivors ids (a zero per id, in list order) |
| Seller.StocksIds | seller.py:222-226 | the payload's offer ids are the taken codes followed by the ids left over |
| Seller.StocksCounted | seller.py:215-222 | the k-th matched entry names the k-th taken row and carries its rule-given stock |
| Seller.StocksOfPass | seller.py:212-226 | for any pass whose taken codes and left-over ids make up the list: one entry per id, taken rows first, then ZeroStocks of the ids left |
| Seller.PriceConversion | seller.py:285 | the converted price consists of digits only |
| Seller.PriceConversionIdempotent | seller.py:285 | converting a converted price changes nothing |
| Seller.PriceConversionEmpty | seller.py:283-285 | the conversion is empty iff no digit precedes the first `.` (the case where a later `int()` raises) |
| Seller.PriceConversionOfDecimal | seller.py:264-270 | a price written as units, a `.` and any fraction converts to the units' digits |
| Seller.PriceConversionGrouped | seller.py:264-285 | digit groups joined by one separator other than `.`, then a `.` and any fraction, convert to the groups' digits alone |
| Seller.PriceConversionApostrophe | seller.py:273-274 | "5'990.00 руб." converts to "5990" |
| Seller.PriceConversionComma | seller.py:275-276 | "12,890.50" converts to "12890" |
| Seller.PriceEntry | seller.py:251-257 | an entry names the row's code in "RUB" and carries a digits-only price no longer than the row's price text |
| Seller.CreatePrices | seller.py:230-259 | the result is one price entry per selected row, in feed order; the list is not changed |
| Seller.PricesShape | seller.py:251-257 | every entry carries "RUB", old price "0", "UNKNOWN" auto action, a listed id and a digits-only price |
| Seller.PricesIds | seller.py:248-258 | each offer id gets as many entries as there are feed rows with that code, and only if it is listed |
| Seller.Chunks | seller.py:306-307 | for a positive size: no chunks iff the list is empty, and every chunk holds 1 to n elements |
| Seller.ChunksReassemble | seller.py:306-307 | the chunks concatenate back to the list; each holds 1 to n elements, and all but the last exactly n |
| Seller.ChunksCount | seller.py:304-307 | there are ceil(len/n) chunks |
| Seller.ChunkSlice | seller.py:306-307 | chunk k is the slice from k*n to min(k*n+n, len) |
| Seller.Divide | seller.py:288-307 | raises iff the size is 0; every batch holds 1 to n elements; for a positive size the batches concatenate back to the list |
| Seller.DivideMeaning | seller.py:288-307 | a zero size raises; a negative size yields nothing; a positive size yields the chunks described above |
| Seller.DivideExamples | seller.py:300-301 | divide([1,2,3,4,5], 2) gives [[1,2],[3,4],[5]]; an empty list gives no batch; size 0 raises |
| Seller.NonZero | seller.py:359 | keeps exactly the entries whose stock is not 0, each as often as it occurs |
| Seller.NonZeroSubsequence | seller.py:359 | the kept entries keep their order |
| Seller.StocksThenPrices | seller.py:371-375 | main as written: stocks from the original list, prices from the list the stock pass has shrunk |
| Seller.PricesAfterStocksEmpty | seller.py:371-375 | with an id list free of repeats, that price pass selects no row at all |
| Seller.ScenarioAsWritten | seller.py:371-375 | feed [001, quantity 10, "5'990.00 руб."] with ids [001, 002] gives stocks [(001,10), (002,0)] and no prices |
| Seller.StocksAndPrices | seller.py:329-330 | the corrected sequence: prices are built from the list as it stood before the stock pass |
| Seller.StockedRecordsArePriced | seller.py:329-330 | every row whose stock is pushed is also priced, in order |
| Seller.ScenarioCorrected | seller.py:329-330 | the scenario above, priced from the original list, gets the price "5990" for 001 |
| Market.CreateStocks | market.py:151-211 | returns Err exactly when the stock loop raises; otherwise it returns the matched entries followed by a zero entry per id left, all for the given warehouse and time; the caller's list ends as the loop leaves it |
| Market.StocksShape | market.py:182-210 | every entry names the warehouse and holds exactly one "FIT" item stamped with the run's time |
| Market.StocksMeaning | market.py:173-210 | one entry per original id (the same multiset of skus): first the FirstFits rows with their rule-given count, then ZeroStocks of the Survivors ids (a zero per id, in list order) |
| Market.StocksSkus | market.py:184-200 | the skus are the taken codes followed by the ids left over |
| Market.StocksCounted | market.py:175-194 | the k-th matched entry names the k-th taken row and carries its rule-given count |
| Market.StocksOfPass | market.py:173-210 | for any pass whose taken codes and left-over ids make up the list: one entry per id, taken rows first, then ZeroStocks of the ids left |
| Market.PriceEntry | market.py:235-243 | an entry fails iff the converted price is empty; otherwise it names the row's code, in "RUR", with a value at least 0 |
| Market.PriceEntryMeaning | market.py:235-243 | a row's price entry fails iff its converted price is empty; otherwise it holds the code, the converted digits' value and "RUR" |
| Market.PriceEntryExample | market.py:226-227 | "5'990.00 руб." for 001 gives the value 5990 in "RUR" |
| Market.CreatePrices | market.py:214-248 | succeeds iff every selected row's price converts; then it returns one entry per selected row, in feed order |
| Market.NonZero | market.py:301-303 | keeps exactly the entries whose first item's count is not 0, each as often as it occurs |
| Market.NonZeroSubsequence | market.py:301-303 | the kept entries keep their order |

## Left out

- HTTP calls are not modelled: get_product_list, get_offer_ids (with its pagination), update_stocks, update_price, and their Yandex.Market counterparts. The id lists and the feed are parameters.
- download_stock is not modelled: the zip download and the Excel read. The feed is a parameter, and every cell is text.
- Market.CreateStocks: `datetime.utcnow()` becomes the `updatedAt` parameter, and its formatting is not modelled.
- The async wrappers upload_prices and upload_stocks are modelled only through the passes and filters they call. The batch sizes 100, 500, 900, 1000 and 2000 only instantiate Divide.
- main is modelled only through its stock-then-price sequence (seller.py:371-375). Environment variables and exception logging are out.
- Digits.ParseInt: accepts an optional sign and ASCII digits. It does not model the surrounding whitespace, `_` separators or non-ASCII digits that Python's `int()` also accepts, nor the limit of 4300 digits above which Python 3.11 and later raise; the model reads literals of any length.
- Cells read by `str(watch.get(...))` are modelled as text. A missing cell, which Python turns into "None", is not distinguished.
- The two reads that skip `str()` take the raw spreadsheet cell: `int(watch.get("Количество"))` (seller.py:221, market.py:181) and `price_conversion(watch.get("Цена"))` (seller.py:256, market.py:239). The model gives them the cell's text, so a numeric cell such as the float 10.0, which `int()` turns into 10, is not covered; its text "10.0" is an error in the model.
- Lists.RemoveFirst, Reconcile.OfferIdList.Remove: an absent id leaves the list unchanged and Remove returns found = false, where Python's list.remove raises ValueError. The stock loop only removes ids it has just found, so that path is never taken there.
- Divide: a function returning all batches, not a generator.
- Market.NonZero: requires every entry to have an item. The source would raise IndexError on an empty items list, and create_stocks never builds one.

## Findings

| source | as written | input that shows it | evidently intended | confidence | as-written member | corrected member |
|---|---|---|---|---|---|---|
| seller.py:371-375 | main passes create_prices the offer_ids list that create_stocks has just shrunk by one copy per matching row; with an id list free of repeats, that removes every id found in the feed | feed [001, quantity "10", price "5'990.00 руб."], ids ["001", "002"]: stocks are pushed for 001 and 002, and the price list is empty | prices are built from the full list, as upload_prices does by fetching the ids afresh (seller.py:329-330) | not executed | Seller.PricesAfterStocksEmpty | Seller.StockedRecordsArePriced |
