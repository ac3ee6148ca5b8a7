/**
 * seller.py, the Ozon side: the stock and price payloads, price_conversion,
 * divide, and the non-zero filter of upload_stocks.
 */
module Seller {
  import opened Results
  import opened Digits
  import opened Lists
  import opened Reconcile

  /** {"offer_id": ..., "stock": ...} */
  datatype OzonStock = OzonStock(offerId: string, stock: int)

  /** {"auto_action_enabled": ..., "currency_code": ..., "offer_id": ..., "old_price": ..., "price": ...} */
  datatype OzonPrice = OzonPrice(
    autoActionEnabled: string, currencyCode: string, offerId: string, oldPrice: string, price: string)

  // ---------------------------------------------------------------- stocks

  function MatchedStocks(ms: seq<Match>): (r: seq<OzonStock>)
  {
    seq(|ms|, k requires 0 <= k < |ms| => OzonStock(ms[k].record.code, ms[k].count))
  }

  function ZeroStocks(ids: seq<string>): (r: seq<OzonStock>)
  {
    seq(|ids|, k requires 0 <= k < |ids| => OzonStock(ids[k], 0))
  }

  lemma MatchedStocksSnoc(ms: seq<Match>, m: Match)
    ensures MatchedStocks(ms + [m]) == MatchedStocks(ms) + [OzonStock(m.record.code, m.count)]
  {
  }

  /** The payload create_stocks returns for a finished pass: matched entries, then a zero for every id left. */
  function Stocks(p: Pass): (r: seq<OzonStock>)
  {
    MatchedStocks(p.matched) + ZeroStocks(p.left)
  }

  function OfferIds(stocks: seq<OzonStock>): (r: seq<string>)
  {
    seq(|stocks|, k requires 0 <= k < |stocks| => stocks[k].offerId)
  }

  /**
   * create_stocks(watch_remnants, offer_ids). The caller's list ends as the
   * pass leaves it, also when int() raises part-way through.
   */
  method CreateStocks(feed: seq<Record>, offers: OfferIdList) returns (r: Result<seq<OzonStock>>)
    modifies offers
    ensures offers.items == Scan(feed, old(offers.items)).left
    ensures r == if Scan(feed, old(offers.items)).failed then Err(ValueError)
                 else Ok(Stocks(Scan(feed, old(offers.items))))
  {
    ghost var ids := offers.items;
    var stocks: seq<OzonStock> := [];
    ghost var pass := Pass([], ids, false);
    for i := 0 to |feed|
      invariant pass == Scan(feed[..i], ids) && !pass.failed
      invariant offers.items == pass.left
      invariant stocks == MatchedStocks(pass.matched)
    {
      var watch := feed[i];
      ScanPrefix(feed, i, ids);
      if watch.code in offers.items {
        var count := Quantity(watch.quantity);
        if count.Err? {
          ScanStopsAtFailure(feed, i + 1, ids);
          return Err(ValueError);
        }
        MatchedStocksSnoc(pass.matched, Match(watch, count.value));
        stocks := stocks + [OzonStock(watch.code, count.value)];
        var found := offers.Remove(watch.code);
        pass := Step(pass, watch);
      }
    }
    assert feed[..|feed|] == feed;
    ghost var matched := MatchedStocks(pass.matched);
    for j := 0 to |offers.items|
      invariant stocks == matched + ZeroStocks(offers.items[..j])
    {
      stocks := stocks + [OzonStock(offers.items[j], 0)];
    }
    assert offers.items[..|offers.items|] == offers.items;
    return Ok(stocks);
  }

  /**
   * What a successful create_stocks returns: one entry per original id (the
   * same multiset of ids, so the same length); first the taken records in feed
   * order with the stock the quantity rule gives, then a zero for every id
   * left over, in list order.
   */
  lemma StocksMeaning(feed: seq<Record>, ids: seq<string>)
    requires !Scan(feed, ids).failed
    ensures var s := Stocks(Scan(feed, ids));
      var taken := FirstFits(feed, ids);
      var left := Survivors(ids, multiset(Codes(feed)));
      |s| == |ids| && multiset(OfferIds(s)) == multiset(ids)
      && |s| == |taken| + |left|
      && (forall k | 0 <= k < |taken| ::
            s[k].offerId == taken[k].code && Quantity(taken[k].quantity) == Ok(s[k].stock))
      && (s[|taken|..] == ZeroStocks(left))
  {
    ScanTakesReference(feed, ids);
    StocksOfPass(Scan(feed, ids), FirstFits(feed, ids), Survivors(ids, multiset(Codes(feed))), ids);
  }

  lemma StocksOfPass(p: Pass, taken: seq<Record>, left: seq<string>, ids: seq<string>)
    requires Records(p.matched) == taken && p.left == left
    requires multiset(Codes(taken)) + multiset(left) == multiset(ids)
    requires forall m | m in p.matched :: Quantity(m.record.quantity) == Ok(m.count)
    ensures var s := Stocks(p);
      |s| == |ids| && multiset(OfferIds(s)) == multiset(ids)
      && |s| == |taken| + |left|
      && (forall k | 0 <= k < |taken| ::
            s[k].offerId == taken[k].code && Quantity(taken[k].quantity) == Ok(s[k].stock))
      && (s[|taken|..] == ZeroStocks(left))
  {
    StocksCoverIds(p, ids);
    StocksTaken(p, taken, left);
    StocksCounted(p, taken);
  }

  /** The payload names every id of the list exactly as often as the list does. */
  lemma StocksCoverIds(p: Pass, ids: seq<string>)
    requires multiset(Codes(Records(p.matched))) + multiset(p.left) == multiset(ids)
    ensures multiset(OfferIds(Stocks(p))) == multiset(ids) && |Stocks(p)| == |ids|
  {
    StocksIds(p);
    assert |OfferIds(Stocks(p))| == |multiset(OfferIds(Stocks(p)))|;
  }

  lemma StocksTaken(p: Pass, taken: seq<Record>, left: seq<string>)
    requires Records(p.matched) == taken && p.left == left
    ensures |Stocks(p)| == |taken| + |left|
    ensures forall k | 0 <= k < |taken| ::
      Stocks(p)[k].offerId == taken[k].code && Stocks(p)[k].stock == p.matched[k].count
    ensures Stocks(p)[|taken|..] == ZeroStocks(left)
  {
    assert (MatchedStocks(p.matched) + ZeroStocks(p.left))[|p.matched|..] == ZeroStocks(p.left);
  }

  lemma StocksIds(p: Pass)
    ensures OfferIds(Stocks(p)) == Codes(Records(p.matched)) + p.left
  {
    var a := OfferIds(Stocks(p));
    var rs := Records(p.matched);
    var cs := Codes(rs);
    var b := cs + p.left;
    assert |a| == |b|;
    forall k | 0 <= k < |a| ensures a[k] == b[k] {
      if k < |p.matched| {
        assert cs[k] == rs[k].code;
        assert rs[k] == p.matched[k].record;
      } else {
        assert b[k] == p.left[k - |p.matched|];
      }
    }
  }

  /** The k-th entry names the k-th taken record and carries the stock the quantity rule gives for it. */
  lemma StocksCounted(p: Pass, taken: seq<Record>)
    requires Records(p.matched) == taken
    requires forall m | m in p.matched :: Quantity(m.record.quantity) == Ok(m.count)
    ensures forall k | 0 <= k < |taken| ::
      Stocks(p)[k].offerId == taken[k].code && Quantity(taken[k].quantity) == Ok(Stocks(p)[k].stock)
  {
    forall k | 0 <= k < |taken|
      ensures Stocks(p)[k].offerId == taken[k].code
      ensures Quantity(taken[k].quantity) == Ok(Stocks(p)[k].stock)
    {
      assert p.matched[k] in p.matched;
    }
  }


  // ---------------------------------------------------------------- prices

  /**
   * price_conversion: the text before the first '.', digits only.
   * "5'990.00 руб." gives "5990".
   */
  function PriceConversion(price: string): (r: string)
    ensures AllDigits(r)
  {
    KeepDigits(BeforeFirstDot(price))
  }

  lemma BeforeFirstDotOfDotless(s: string)
    requires '.' !in s
    ensures BeforeFirstDot(s) == s
  {
  }

  lemma BeforeFirstDotSplit(a: string, b: string)
    requires '.' !in a
    ensures BeforeFirstDot(a + "." + b) == a
  {
    var s := a + "." + b;
    var r := BeforeFirstDot(s);
    assert s[|a|] == '.';
    assert r == s[..|r|] && a == s[..|a|];
  }

  /** Applying price_conversion to its own output changes nothing. */
  lemma PriceConversionIdempotent(price: string)
    ensures PriceConversion(PriceConversion(price)) == PriceConversion(price)
  {
    var r := PriceConversion(price);
    assert '.' !in r by {
      assert !IsDigit('.');
    }
    BeforeFirstDotOfDotless(r);
    KeepDigitsOfDigits(r);
  }

  /** The result is empty exactly when no digit comes before the first '.'. */
  lemma PriceConversionEmpty(price: string)
    ensures PriceConversion(price) == [] <==>
      forall i | 0 <= i < |BeforeFirstDot(price)| :: !IsDigit(BeforeFirstDot(price)[i])
  {
    var b := BeforeFirstDot(price);
    KeepDigitsEmpty(b);
    assert PriceConversion(price) == KeepDigits(b);
  }

  /** The digits of the integer part are kept in order and nothing after the '.' survives. */
  lemma PriceConversionOfDecimal(units: nat, fraction: string)
    ensures PriceConversion(ShowNat(units) + "." + fraction) == ShowNat(units)
  {
    ShowNatIsDigits(units);
    var a := ShowNat(units);
    assert '.' !in a by {
      assert !IsDigit('.');
    }
    BeforeFirstDotSplit(a, fraction);
    KeepDigitsOfDigits(a);
  }

  /**
   * A thousands separator (any non-digit other than '.') between the digit
   * groups of the integer part is dropped, and so is everything after the '.'.
   */
  lemma PriceConversionGrouped(a: string, sep: char, b: string, fraction: string)
    requires AllDigits(a) && AllDigits(b) && !IsDigit(sep) && sep != '.'
    ensures PriceConversion(a + [sep] + b + "." + fraction) == a + b
  {
    var w := a + [sep] + b;
    assert '.' !in a && '.' !in b by {
      assert !IsDigit('.');
    }
    assert '.' !in w;
    BeforeFirstDotSplit(w, fraction);
    assert KeepDigits(a + [sep]) == a by {
      KeepDigitsAppend(a, [sep]);
      assert KeepDigits([sep]) == [] by {
        assert [sep][..0] == [];
      }
      KeepDigitsOfDigits(a);
      assert a + [] == a;
    }
    assert KeepDigits(w) == a + b by {
      KeepDigitsAppend(a + [sep], b);
      KeepDigitsOfDigits(b);
    }
  }

  /** The first documented case of price_conversion: a thousands apostrophe and a currency suffix. */
  lemma PriceConversionApostrophe()
    ensures PriceConversion("5'990.00 руб.") == "5990"
  {
    PriceConversionGrouped("5", '\'', "990", "00 руб.");
    assert "5" + ['\''] + "990" + "." + "00 руб." == "5'990.00 руб.";
    assert "5" + "990" == "5990";
  }

  /** The second documented case of price_conversion: a thousands comma and kopecks. */
  lemma PriceConversionComma()
    ensures PriceConversion("12,890.50") == "12890"
  {
    PriceConversionGrouped("12", ',', "890", "50");
    assert "12" + [','] + "890" + "." + "50" == "12,890.50";
    assert "12" + "890" == "12890";
  }

  /** One price entry: the row's code in roubles, with the price reduced to its digits. */
  function PriceEntry(r: Record): (e: OzonPrice)
    ensures e.offerId == r.code && e.currencyCode == "RUB"
    ensures AllDigits(e.price) && |e.price| <= |r.price|
  {
    OzonPrice("UNKNOWN", "RUB", r.code, "0", PriceConversion(r.price))
  }

  function PriceEntries(rs: seq<Record>): (r: seq<OzonPrice>)
  {
    seq(|rs|, k requires 0 <= k < |rs| => PriceEntry(rs[k]))
  }

  /** create_prices(watch_remnants, offer_ids): reads the list, does not change it. */
  method CreatePrices(feed: seq<Record>, offers: OfferIdList) returns (prices: seq<OzonPrice>)
    ensures prices == PriceEntries(Selected(feed, offers.items))
  {
    prices := [];
    for i := 0 to |feed|
      invariant prices == PriceEntries(Selected(feed[..i], offers.items))
    {
      var watch := feed[i];
      assert feed[..i + 1][..i] == feed[..i];
      if watch.code in offers.items {
        var price := OzonPrice("UNKNOWN", "RUB", watch.code, "0", PriceConversion(watch.price));
        prices := prices + [price];
      }
    }
    assert feed[..|feed|] == feed;
  }

  function PriceOfferIds(prices: seq<OzonPrice>): (r: seq<string>)
  {
    seq(|prices|, k requires 0 <= k < |prices| => prices[k].offerId)
  }

  /**
   * Every price entry carries RUB, old price "0", auto action "UNKNOWN", an
   * id from the list and a digits-only price.
   */
  lemma PricesShape(feed: seq<Record>, ids: seq<string>)
    ensures forall e | e in PriceEntries(Selected(feed, ids)) ::
      e.currencyCode == "RUB" && e.oldPrice == "0" && e.autoActionEnabled == "UNKNOWN"
      && e.offerId in ids && AllDigits(e.price)
  {
    var sel := Selected(feed, ids);
    SelectedCount(feed, ids);
    forall e | e in PriceEntries(sel) ensures e.offerId in ids {
      var k :| 0 <= k < |sel| && PriceEntries(sel)[k] == e;
      assert sel[k] in sel;
      assert multiset(sel)[sel[k]] > 0;
    }
  }

  /**
   * An id gets one price entry per feed record with that code when the code
   * is in the list, repeats included, and none otherwise.
   */
  lemma PricesIds(feed: seq<Record>, ids: seq<string>)
    ensures forall c :: multiset(PriceOfferIds(PriceEntries(Selected(feed, ids))))[c] ==
                        (if c in ids then multiset(Codes(feed))[c] else 0)
  {
    var sel := Selected(feed, ids);
    SelectedOfferIds(feed, ids);
    assert PriceOfferIds(PriceEntries(sel)) == Codes(sel);
  }

  lemma {:induction false} SelectedOfferIds(feed: seq<Record>, ids: seq<string>)
    ensures forall c :: multiset(Codes(Selected(feed, ids)))[c] ==
                        (if c in ids then multiset(Codes(feed))[c] else 0)
    decreases |feed|
  {
    if feed != [] {
      var init := feed[..|feed| - 1];
      var r := feed[|feed| - 1];
      SelectedOfferIds(init, ids);
      CodesAppend(Selected(init, ids), if r.code in ids then [r] else []);
    }
  }

  // ---------------------------------------------------------------- batches and filter

  function Flatten<T>(chunks: seq<seq<T>>): (r: seq<T>)
  {
    if chunks == [] then [] else chunks[0] + Flatten(chunks[1..])
  }

  /**
   * divide(lst, n) for n > 0: consecutive slices of n elements, the last
   * one possibly shorter; together they give back lst.
   */
  function Chunks<T>(lst: seq<T>, n: nat): (r: seq<seq<T>>)
    requires n > 0
    ensures (r == []) == (lst == [])
    ensures forall k | 0 <= k < |r| :: 1 <= |r[k]| <= n
    decreases |lst|
  {
    if lst == [] then []
    else if |lst| <= n then [lst]
    else [lst[..n]] + Chunks(lst[n..], n)
  }

  /** The chunks give back lst in order; each has 1 to n elements, and all but the last exactly n. */
  lemma {:induction false} ChunksReassemble<T>(lst: seq<T>, n: nat)
    requires n > 0
    ensures var r := Chunks(lst, n);
      Flatten(r) == lst
      && (forall k | 0 <= k < |r| :: 1 <= |r[k]| <= n)
      && (forall k | 0 <= k < |r| - 1 :: |r[k]| == n)
    decreases |lst|
  {
    if |lst| > n {
      ChunksReassemble(lst[n..], n);
      var r := Chunks(lst, n);
      assert r[1..] == Chunks(lst[n..], n);
      assert lst == lst[..n] + lst[n..];
    } else if lst != [] {
      assert Flatten([lst]) == lst + Flatten<T>([]);
    }
  }

  /** divide as Python runs it: range() refuses a zero step, and a negative step yields nothing. */
  function Divide<T>(lst: seq<T>, n: int): (r: Result<seq<seq<T>>>)
    ensures r.Err? <==> n == 0
    ensures r.Ok? ==> forall k | 0 <= k < |r.value| :: 1 <= |r.value[k]| <= n
    ensures n > 0 ==> Flatten(r.value) == lst
  {
    if n == 0 then Err(ValueError)
    else if n < 0 then Ok([])
    else
      ChunksReassemble(lst, n);
      Ok(Chunks(lst, n))
  }

  /**
   * divide for every n: a zero size raises, a negative one yields nothing,
   * and a positive one yields ceil(len/n) chunks of at most n elements,
   * all full but the last, that concatenate back to lst.
   */
  lemma DivideMeaning<T>(lst: seq<T>, n: int)
    ensures Divide(lst, n).Err? <==> n == 0
    ensures n < 0 ==> Divide(lst, n) == Ok([])
    ensures n > 0 ==> var r := Divide(lst, n).value;
      Flatten(r) == lst && |r| == (|lst| + n - 1) / n
      && (forall k | 0 <= k < |r| :: 1 <= |r[k]| <= n)
      && (forall k | 0 <= k < |r| - 1 :: |r[k]| == n)
  {
    if n > 0 {
      ChunksReassemble(lst, n);
      ChunksCount(lst, n);
    }
  }

  /** There are ceil(len/n) chunks, and an empty list gives none. */
  lemma ChunksCount<T>(lst: seq<T>, n: nat)
    requires n > 0
    ensures |Chunks(lst, n)| == (|lst| + n - 1) / n
  {
    ChunksBounds(lst, n);
    CeilDiv(|Chunks(lst, n)|, |lst|, n);
  }

  lemma {:induction false} ChunksBounds<T>(lst: seq<T>, n: nat)
    requires n > 0
    ensures (|Chunks(lst, n)| - 1) * n < |lst| <= |Chunks(lst, n)| * n
    decreases |lst|
  {
    if |lst| > n {
      ChunksBounds(lst[n..], n);
      var m := |Chunks(lst[n..], n)|;
      assert (m + 1) * n == m * n + n;
    }
  }

  lemma MulLess(a: int, b: int, n: int)
    requires n > 0 && a * n < b * n
    ensures a < b
  {
  }

  lemma CeilDiv(m: int, len: int, n: int)
    requires n > 0 && (m - 1) * n < len <= m * n
    ensures m == (len + n - 1) / n
  {
    var q := (len + n - 1) / n;
    assert q * n <= len + n - 1 < (q + 1) * n;
    assert m * n == (m - 1) * n + n;
    assert (m + 1) * n == m * n + n;
    MulLess(m, q + 1, n);
    MulLess(q, m + 1, n);
  }

  /** Chunk k is the slice lst[k*n : k*n + n] of the generator's loop. */
  lemma ChunkSlice<T>(lst: seq<T>, n: nat, k: nat)
    requires n > 0 && k < |Chunks(lst, n)|
    ensures k * n < |lst|
    ensures Chunks(lst, n)[k] == lst[k * n .. if k * n + n < |lst| then k * n + n else |lst|]
  {
    ChunkFrom(lst, n, k, k * n);
  }

  lemma {:induction false} ChunkFrom<T>(lst: seq<T>, n: nat, k: nat, start: nat)
    requires n > 0 && k < |Chunks(lst, n)| && start == k * n
    ensures start < |lst|
    ensures Chunks(lst, n)[k] == lst[start .. if start + n < |lst| then start + n else |lst|]
    decreases k
  {
    if k > 0 {
      var rest := lst[n..];
      assert start - n == (k - 1) * n;
      ChunkFrom(rest, n, k - 1, start - n);
      var hi := if start < |rest| then start else |rest|;
      SliceOfDrop(lst, n, start - n, hi);
    }
  }

  lemma SliceOfDrop<T>(s: seq<T>, d: nat, a: nat, b: nat)
    requires d <= |s| && a <= b <= |s| - d
    ensures s[d..][a..b] == s[d + a .. d + b]
  {
  }

  lemma DivideExamples()
    ensures Divide([1, 2, 3, 4, 5], 2) == Ok([[1, 2], [3, 4], [5]])
    ensures Divide<int>([], 100) == Ok([])
    ensures Divide([1], 0).Err?
  {
    assert [1, 2, 3, 4, 5][..2] == [1, 2];
    assert [1, 2, 3, 4, 5][2..] == [3, 4, 5];
    assert [3, 4, 5][..2] == [3, 4];
    assert [3, 4, 5][2..] == [5];
    assert Chunks([5], 2) == [[5]];
    assert Chunks([3, 4, 5], 2) == [[3, 4], [5]];
    assert Chunks([1, 2, 3, 4, 5], 2) == [[1, 2], [3, 4], [5]];
  }

  /** The not_empty filter of upload_stocks: the entries whose stock is not 0, in order. */
  function NonZero(stocks: seq<OzonStock>): (r: seq<OzonStock>)
    ensures forall s | s in r :: s.stock != 0
    ensures forall s :: multiset(r)[s] == if s.stock != 0 then multiset(stocks)[s] else 0
    decreases |stocks|
  {
    if stocks == [] then []
    else
      var last := stocks[|stocks| - 1];
      assert stocks == stocks[..|stocks| - 1] + [last];
      NonZero(stocks[..|stocks| - 1]) + (if last.stock != 0 then [last] else [])
  }

  lemma {:induction false} NonZeroSubsequence(stocks: seq<OzonStock>)
    ensures Subsequence(NonZero(stocks), stocks)
    decreases |stocks|
  {
    if stocks != [] {
      var init := stocks[..|stocks| - 1];
      var last := stocks[|stocks| - 1];
      NonZeroSubsequence(init);
      assert init + [last] == stocks;
      if last.stock != 0 {
        SubsequenceSnoc(NonZero(init), init, last);
      } else {
        assert NonZero(stocks) == NonZero(init);
        SubsequenceExtend(NonZero(init), init, last);
      }
    }
  }

  // ---------------------------------------------------------------- main

  ghost predicate Distinct(ids: seq<string>)
  {
    forall c :: multiset(ids)[c] <= 1
  }

  /**
   * The stock and price passes of main as written: create_prices is handed
   * the list create_stocks has just shrunk.
   */
  method StocksThenPrices(feed: seq<Record>, offers: OfferIdList)
    returns (r: Result<(seq<OzonStock>, seq<OzonPrice>)>)
    modifies offers
    ensures offers.items == Scan(feed, old(offers.items)).left
    ensures r.Ok? <==> !Scan(feed, old(offers.items)).failed
    ensures r.Ok? ==> r.value == (Stocks(Scan(feed, old(offers.items))),
                                  PriceEntries(Selected(feed, Scan(feed, old(offers.items)).left)))
  {
    var stocks := CreateStocks(feed, offers);
    if stocks.Err? {
      return Err(stocks.error);
    }
    var prices := CreatePrices(feed, offers);
    return Ok((stocks.value, prices));
  }

  /**
   * The consequence for main: with an id list free of repeats (one listing
   * per offer), the price pass after the stock pass selects no record at all.
   */
  lemma PricesAfterStocksEmpty(feed: seq<Record>, ids: seq<string>)
    requires Distinct(ids) && !Scan(feed, ids).failed
    ensures Selected(feed, Scan(feed, ids).left) == []
  {
    var left := Scan(feed, ids).left;
    var sel := Selected(feed, left);
    SelectedAfterScan(feed, ids);
    SelectedCount(feed, left);
    forall x ensures multiset(sel)[x] == 0 {
      if multiset(sel)[x] > 0 {
        CodesMember(feed, x);
      }
    }
    assert multiset(sel) == multiset{};
  }

  /**
   * The scenario of one feed row and two listed ids, run through main as
   * written: the stocks are right, the prices are lost.
   */
  lemma ScenarioAsWritten()
    ensures var feed := [Record("001", "10", "5'990.00 руб.")];
      var ids := ["001", "002"];
      Stocks(Scan(feed, ids)) == [OzonStock("001", 10), OzonStock("002", 0)]
      && PriceEntries(Selected(feed, Scan(feed, ids).left)) == []
  {
    var feed := [Record("001", "10", "5'990.00 руб.")];
    var p := Pass([Match(feed[0], 10)], ["002"], false);
    ScenarioPass();
    assert MatchedStocks(p.matched) == [OzonStock("001", 10)];
    assert ZeroStocks(p.left) == [OzonStock("002", 0)];
    assert feed[..0] == [];
    assert Selected(feed, ["002"]) == [];
  }

  /** The stock pass of that scenario takes the row for "001" with stock 10 and leaves "002". */
  lemma ScenarioPass()
    ensures Scan([Record("001", "10", "5'990.00 руб.")], ["001", "002"])
            == Pass([Match(Record("001", "10", "5'990.00 руб."), 10)], ["002"], false)
  {
    var feed := [Record("001", "10", "5'990.00 руб.")];
    var ids := ["001", "002"];
    assert feed[..0] == [];
    assert Quantity("10") == Ok(10) by {
      assert "10"[..1] == "1" && "1"[..0] == "";
      assert ValueOf("10") == 10;
    }
    assert RemoveFirst(ids, "001") == ["002"];
  }

  /**
   * The passes of main with the price pass given the list as it stood before
   * the stock pass, as upload_prices does by fetching it afresh.
   */
  method StocksAndPrices(feed: seq<Record>, offers: OfferIdList)
    returns (r: Result<(seq<OzonStock>, seq<OzonPrice>)>)
    modifies offers
    ensures offers.items == Scan(feed, old(offers.items)).left
    ensures r.Ok? <==> !Scan(feed, old(offers.items)).failed
    ensures r.Ok? ==> r.value == (Stocks(Scan(feed, old(offers.items))),
                                  PriceEntries(Selected(feed, old(offers.items))))
  {
    var listed := new OfferIdList(offers.items);
    var stocks := CreateStocks(feed, offers);
    if stocks.Err? {
      return Err(stocks.error);
    }
    var prices := CreatePrices(feed, listed);
    return Ok((stocks.value, prices));
  }

  /**
   * With the price pass given the original list, every record whose stock is
   * pushed also has its price pushed, in the same order.
   */
  lemma StockedRecordsArePriced(feed: seq<Record>, ids: seq<string>)
    requires !Scan(feed, ids).failed
    ensures Subsequence(Records(Scan(feed, ids).matched), Selected(feed, ids))
  {
    ScanMatchesReference(feed, ids);
    FirstFitsSelected(feed, ids);
  }

  /**
   * The scenario of one feed row and two listed ids, with the price pass
   * given the original list: "001" gets the price 5990.
   */
  lemma ScenarioCorrected()
    ensures PriceEntries(Selected([Record("001", "10", "5'990.00 руб.")], ["001", "002"]))
            == [OzonPrice("UNKNOWN", "RUB", "001", "0", "5990")]
  {
    PriceConversionApostrophe();
    var one := [Record("001", "10", "5'990.00 руб.")];
    assert one[..0] == [];
  }
}
