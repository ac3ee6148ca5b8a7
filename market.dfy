/**
 * market.py, the Yandex.Market side: the stock payload for one warehouse,
 * the price payload, and the non-zero filter of upload_stocks. It reuses
 * price_conversion from seller.py, as the source imports it.
 */
module Market {
  import opened Results
  import opened Digits
  import opened Lists
  import opened Reconcile
  import Seller

  /** {"count": ..., "type": ..., "updatedAt": ...} */
  datatype StockItem = StockItem(count: int, itemType: string, updatedAt: string)

  /** {"sku": ..., "warehouseId": ..., "items": [...]} */
  datatype MarketStock = MarketStock(sku: string, warehouseId: string, items: seq<StockItem>)

  /** {"value": ..., "currencyId": ...} */
  datatype PriceValue = PriceValue(value: int, currencyId: string)

  /** {"id": ..., "price": {...}} */
  datatype MarketPrice = MarketPrice(id: string, price: PriceValue)

  // ---------------------------------------------------------------- stocks

  /** One stock entry: a single "FIT" item stamped with the run's time. */
  function Entry(sku: string, warehouseId: string, count: int, updatedAt: string): (r: MarketStock)
  {
    MarketStock(sku, warehouseId, [StockItem(count, "FIT", updatedAt)])
  }

  function MatchedStocks(ms: seq<Match>, warehouseId: string, updatedAt: string): (r: seq<MarketStock>)
  {
    seq(|ms|, k requires 0 <= k < |ms| => Entry(ms[k].record.code, warehouseId, ms[k].count, updatedAt))
  }

  function ZeroStocks(ids: seq<string>, warehouseId: string, updatedAt: string): (r: seq<MarketStock>)
  {
    seq(|ids|, k requires 0 <= k < |ids| => Entry(ids[k], warehouseId, 0, updatedAt))
  }

  /** The payload create_stocks returns for a finished pass: matched entries, then a zero for every id left. */
  function Stocks(p: Pass, warehouseId: string, updatedAt: string): (r: seq<MarketStock>)
  {
    MatchedStocks(p.matched, warehouseId, updatedAt) + ZeroStocks(p.left, warehouseId, updatedAt)
  }

  function Skus(stocks: seq<MarketStock>): (r: seq<string>)
  {
    seq(|stocks|, k requires 0 <= k < |stocks| => stocks[k].sku)
  }

  lemma MatchedStocksSnoc(ms: seq<Match>, m: Match, warehouseId: string, updatedAt: string)
    ensures MatchedStocks(ms + [m], warehouseId, updatedAt)
            == MatchedStocks(ms, warehouseId, updatedAt) + [Entry(m.record.code, warehouseId, m.count, updatedAt)]
  {
  }

  /**
   * create_stocks(watch_remnants, offer_ids, warehouse_id), with the
   * timestamp it reads from the clock passed in as updatedAt. The caller's
   * list ends as the pass leaves it, also when int() raises part-way through.
   */
  method CreateStocks(feed: seq<Record>, offers: OfferIdList, warehouseId: string, updatedAt: string)
    returns (r: Result<seq<MarketStock>>)
    modifies offers
    ensures offers.items == Scan(feed, old(offers.items)).left
    ensures r == if Scan(feed, old(offers.items)).failed then Err(ValueError)
                 else Ok(Stocks(Scan(feed, old(offers.items)), warehouseId, updatedAt))
  {
    ghost var ids := offers.items;
    var stocks: seq<MarketStock> := [];
    ghost var pass := Pass([], ids, false);
    for i := 0 to |feed|
      invariant pass == Scan(feed[..i], ids) && !pass.failed
      invariant offers.items == pass.left
      invariant stocks == MatchedStocks(pass.matched, warehouseId, updatedAt)
    {
      var watch := feed[i];
      ScanPrefix(feed, i, ids);
      if watch.code in offers.items {
        var count := Quantity(watch.quantity);
        if count.Err? {
          ScanStopsAtFailure(feed, i + 1, ids);
          return Err(ValueError);
        }
        MatchedStocksSnoc(pass.matched, Match(watch, count.value), warehouseId, updatedAt);
        stocks := stocks + [MarketStock(watch.code, warehouseId, [StockItem(count.value, "FIT", updatedAt)])];
        var found := offers.Remove(watch.code);
        pass := Step(pass, watch);
      }
    }
    assert feed[..|feed|] == feed;
    ghost var matched := MatchedStocks(pass.matched, warehouseId, updatedAt);
    for j := 0 to |offers.items|
      invariant stocks == matched + ZeroStocks(offers.items[..j], warehouseId, updatedAt)
    {
      stocks := stocks + [MarketStock(offers.items[j], warehouseId, [StockItem(0, "FIT", updatedAt)])];
    }
    assert offers.items[..|offers.items|] == offers.items;
    return Ok(stocks);
  }

  /** Every entry names the given warehouse and holds exactly one "FIT" item with the run's timestamp. */
  lemma StocksShape(p: Pass, warehouseId: string, updatedAt: string)
    ensures forall e | e in Stocks(p, warehouseId, updatedAt) ::
      e.warehouseId == warehouseId && |e.items| == 1
      && e.items[0].itemType == "FIT" && e.items[0].updatedAt == updatedAt
  {
    var m := MatchedStocks(p.matched, warehouseId, updatedAt);
    var z := ZeroStocks(p.left, warehouseId, updatedAt);
    forall e: MarketStock | e in m + z
      ensures e.warehouseId == warehouseId && |e.items| == 1
      ensures e.items[0].itemType == "FIT" && e.items[0].updatedAt == updatedAt
    {
      if e in m {
        var k :| 0 <= k < |m| && m[k] == e;
      } else {
        var k :| 0 <= k < |z| && z[k] == e;
      }
    }
  }

  lemma StocksSkus(p: Pass, warehouseId: string, updatedAt: string)
    ensures Skus(Stocks(p, warehouseId, updatedAt)) == Codes(Records(p.matched)) + p.left
  {
    var a := Skus(Stocks(p, warehouseId, updatedAt));
    var rs := Records(p.matched);
    var cs := Codes(rs);
    var b := cs + p.left;
    assert |a| == |b|;
    forall k | 0 <= k < |a| ensures a[k] == b[k] {
      if k < |p.matched| {
        assert cs[k] == rs[k].code;
        assert rs[k] == p.matched[k].record;
      } else {
        assert b[k] == p.left[k - |p.matched|];
      }
    }
  }

  /** The k-th entry names the k-th taken record and carries the stock the quantity rule gives for it. */
  lemma StocksCounted(p: Pass, taken: seq<Record>, warehouseId: string, updatedAt: string)
    requires Records(p.matched) == taken
    requires forall m | m in p.matched :: Quantity(m.record.quantity) == Ok(m.count)
    ensures forall k | 0 <= k < |taken| ::
      Stocks(p, warehouseId, updatedAt)[k].sku == taken[k].code && Quantity(taken[k].quantity) == Ok(Stocks(p, warehouseId, updatedAt)[k].items[0].count)
  {
    forall k | 0 <= k < |taken|
      ensures Stocks(p, warehouseId, updatedAt)[k].sku == taken[k].code
      ensures Quantity(taken[k].quantity) == Ok(Stocks(p, warehouseId, updatedAt)[k].items[0].count)
    {
      assert p.matched[k] in p.matched;
    }
  }



  /**
   * What a successful create_stocks returns: one entry per original id (the
   * same multiset of skus, so the same length); first the taken records in
   * feed order, counted by the quantity rule, then a zero count for every id
   * left over, in list order.
   */
  lemma StocksMeaning(feed: seq<Record>, ids: seq<string>, warehouseId: string, updatedAt: string)
    requires !Scan(feed, ids).failed
    ensures var s := Stocks(Scan(feed, ids), warehouseId, updatedAt);
      var taken := FirstFits(feed, ids);
      var left := Survivors(ids, multiset(Codes(feed)));
      |s| == |ids| && multiset(Skus(s)) == multiset(ids)
      && |s| == |taken| + |left|
      && (forall k | 0 <= k < |taken| ::
            s[k].sku == taken[k].code && Quantity(taken[k].quantity) == Ok(s[k].items[0].count))
      && (s[|taken|..] == ZeroStocks(left, warehouseId, updatedAt))
  {
    ScanTakesReference(feed, ids);
    StocksOfPass(Scan(feed, ids), FirstFits(feed, ids), Survivors(ids, multiset(Codes(feed))), ids, warehouseId, updatedAt);
  }

  lemma StocksOfPass(p: Pass, taken: seq<Record>, left: seq<string>, ids: seq<string>, warehouseId: string, updatedAt: string)
    requires Records(p.matched) == taken && p.left == left
    requires multiset(Codes(taken)) + multiset(left) == multiset(ids)
    requires forall m | m in p.matched :: Quantity(m.record.quantity) == Ok(m.count)
    ensures var s := Stocks(p, warehouseId, updatedAt);
      |s| == |ids| && multiset(Skus(s)) == multiset(ids)
      && |s| == |taken| + |left|
      && (forall k | 0 <= k < |taken| ::
            s[k].sku == taken[k].code && Quantity(taken[k].quantity) == Ok(s[k].items[0].count))
      && (s[|taken|..] == ZeroStocks(left, warehouseId, updatedAt))
  {
    StocksCoverIds(p, ids, warehouseId, updatedAt);
    StocksTaken(p, taken, left, warehouseId, updatedAt);
    StocksCounted(p, taken, warehouseId, updatedAt);
  }

  /** The payload names every id of the list exactly as often as the list does. */
  lemma StocksCoverIds(p: Pass, ids: seq<string>, warehouseId: string, updatedAt: string)
    requires multiset(Codes(Records(p.matched))) + multiset(p.left) == multiset(ids)
    ensures multiset(Skus(Stocks(p, warehouseId, updatedAt))) == multiset(ids) && |Stocks(p, warehouseId, updatedAt)| == |ids|
  {
    StocksSkus(p, warehouseId, updatedAt);
    assert |Skus(Stocks(p, warehouseId, updatedAt))| == |multiset(Skus(Stocks(p, warehouseId, updatedAt)))|;
  }

  lemma StocksTaken(p: Pass, taken: seq<Record>, left: seq<string>, warehouseId: string, updatedAt: string)
    requires Records(p.matched) == taken && p.left == left
    ensures |Stocks(p, warehouseId, updatedAt)| == |taken| + |left|
    ensures forall k | 0 <= k < |taken| ::
      Stocks(p, warehouseId, updatedAt)[k].sku == taken[k].code && Stocks(p, warehouseId, updatedAt)[k].items[0].count == p.matched[k].count
    ensures Stocks(p, warehouseId, updatedAt)[|taken|..] == ZeroStocks(left, warehouseId, updatedAt)
  {
    assert (MatchedStocks(p.matched, warehouseId, updatedAt) + ZeroStocks(p.left, warehouseId, updatedAt))[|p.matched|..] == ZeroStocks(p.left, warehouseId, updatedAt);
  }



  // ---------------------------------------------------------------- prices

  /** One price entry: int() of price_conversion, in roubles; int() raises on an empty conversion. */
  function PriceEntry(r: Record): (e: Result<MarketPrice>)
    ensures e.Err? <==> Seller.PriceConversion(r.price) == []
    ensures e.Ok? ==> e.value.id == r.code && e.value.price.value >= 0 && e.value.price.currencyId == "RUR"
  {
    ParseDigits(Seller.PriceConversion(r.price));
    match ParseInt(Seller.PriceConversion(r.price))
    case Ok(v) => Ok(MarketPrice(r.code, PriceValue(v, "RUR")))
    case Err(e) => Err(e)
  }

  /**
   * A record's price entry fails exactly when no digit precedes the first
   * '.' of its price; otherwise it carries the record's code, the value of
   * the converted digits and "RUR".
   */
  lemma PriceEntryMeaning(r: Record)
    ensures PriceEntry(r).Err? <==> Seller.PriceConversion(r.price) == []
    ensures PriceEntry(r).Ok? ==>
      PriceEntry(r).value == MarketPrice(r.code, PriceValue(ValueOf(Seller.PriceConversion(r.price)), "RUR"))
  {
    ParseDigits(Seller.PriceConversion(r.price));
  }

  lemma ValueOfExample()
    ensures AllDigits("5990") && ValueOf("5990") == 5990
  {
    assert "5"[..0] == "" && ValueOf("5") == 5;
    assert "59"[..1] == "5" && ValueOf("59") == 59;
    assert "599"[..2] == "59" && ValueOf("599") == 599;
    assert "5990"[..3] == "599";
  }

  /** The example of the create_prices docstring: "5'990.00 руб." becomes the value 5990 in RUR. */
  lemma PriceEntryExample()
    ensures PriceEntry(Record("001", "10", "5'990.00 руб.")) == Ok(MarketPrice("001", PriceValue(5990, "RUR")))
  {
    Seller.PriceConversionApostrophe();
    ValueOfExample();
    ParseDigits("5990");
  }

  /**
   * create_prices(watch_remnants, offer_ids): reads the list, does not change
   * it; fails when int() meets a price with no digits before its first '.'.
   */
  method CreatePrices(feed: seq<Record>, offers: OfferIdList) returns (r: Result<seq<MarketPrice>>)
    ensures r.Ok? <==> forall x | x in Selected(feed, offers.items) :: PriceEntry(x).Ok?
    ensures r.Ok? ==> |r.value| == |Selected(feed, offers.items)|
    ensures r.Ok? ==> forall k | 0 <= k < |r.value| ::
      PriceEntry(Selected(feed, offers.items)[k]) == Ok(r.value[k])
  {
    var prices: seq<MarketPrice> := [];
    ghost var sel: seq<Record> := [];
    for i := 0 to |feed|
      invariant sel == Selected(feed[..i], offers.items)
      invariant forall x | x in sel :: PriceEntry(x).Ok?
      invariant |prices| == |sel|
      invariant forall k | 0 <= k < |prices| :: PriceEntry(sel[k]) == Ok(prices[k])
    {
      var watch := feed[i];
      assert feed[..i + 1][..i] == feed[..i];
      if watch.code in offers.items {
        var value := ParseInt(Seller.PriceConversion(watch.price));
        if value.Err? {
          assert watch in Selected(feed, offers.items) && PriceEntry(watch).Err?;
          return Err(ValueError);
        }
        var price := MarketPrice(watch.code, PriceValue(value.value, "RUR"));
        PushEntry(sel, prices, watch, price);
        prices := prices + [price];
        sel := sel + [watch];
      }
    }
    assert feed[..|feed|] == feed;
    return Ok(prices);
  }

  /** The loop step of create_prices: a row whose entry is Ok extends both sequences in step. */
  lemma PushEntry(sel: seq<Record>, prices: seq<MarketPrice>, watch: Record, price: MarketPrice)
    requires |prices| == |sel| && PriceEntry(watch) == Ok(price)
    requires forall k | 0 <= k < |prices| :: PriceEntry(sel[k]) == Ok(prices[k])
    ensures forall k | 0 <= k < |prices| + 1 :: PriceEntry((sel + [watch])[k]) == Ok((prices + [price])[k])
  {
  }

  // ---------------------------------------------------------------- filter

  /** The not_empty filter of upload_stocks: the entries whose first item's count is not 0, in order. */
  function NonZero(stocks: seq<MarketStock>): (r: seq<MarketStock>)
    requires forall s | s in stocks :: s.items != []
    ensures forall s | s in r :: s.items != [] && s.items[0].count != 0
    ensures forall s :: multiset(r)[s] ==
                        (if s.items != [] && s.items[0].count != 0 then multiset(stocks)[s] else 0)
    decreases |stocks|
  {
    if stocks == [] then []
    else
      var last := stocks[|stocks| - 1];
      assert stocks == stocks[..|stocks| - 1] + [last];
      NonZero(stocks[..|stocks| - 1]) + (if last.items[0].count != 0 then [last] else [])
  }

  lemma {:induction false} NonZeroSubsequence(stocks: seq<MarketStock>)
    requires forall s | s in stocks :: s.items != []
    ensures Subsequence(NonZero(stocks), stocks)
    decreases |stocks|
  {
    if stocks != [] {
      var init := stocks[..|stocks| - 1];
      var last := stocks[|stocks| - 1];
      assert init + [last] == stocks;
      NonZeroSubsequence(init);
      if last.items[0].count != 0 {
        SubsequenceSnoc(NonZero(init), init, last);
      } else {
        assert NonZero(stocks) == NonZero(init);
        SubsequenceExtend(NonZero(init), init, last);
      }
    }
  }
}
