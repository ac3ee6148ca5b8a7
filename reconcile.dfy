/**
 * The reconciliation both marketplaces share: the feed record, the quantity
 * rule, the caller's offer-id list (shrunk in place by the stock pass), the
 * stock pass itself as a pure specification (Scan) together with an
 * independent description of its outcome (FirstFits, Survivors), and the
 * record filter of the price pass (Selected).
 */
module Reconcile {
  import opened Results
  import opened Digits
  import opened Lists

  /** One spreadsheet row: the columns Код (code), Количество (quantity) and Цена (price), as text. */
  datatype Record = Record(code: string, quantity: string, price: string)

  /** The stock rule of both create_stocks: ">10" means 100, "1" means 0, anything else is read by int(). */
  function Quantity(text: string): (r: Result<int>)
    ensures r.Err? <==> text != ">10" && ParseInt(text).Err?
    ensures text != ">10" && text != "1" ==> r == ParseInt(text)
    ensures r.Ok? && r.value < 0 ==> text[0] == '-'
  {
    if text == ">10" then Ok(100)
    else if text == "1" then Ok(0)
    else ParseInt(text)
  }

  /** On the decimal text of any integer the rule agrees with int(), except that "1" gives 0. */
  lemma QuantityOfNumber(n: int)
    ensures Quantity(ShowInt(n)) == Ok(if n == 1 then 0 else n)
  {
    ParseShowInt(n);
    assert ParseInt(">10").Err? by {
      assert !IsDigit('>');
    }
    assert ParseInt("1") == Ok(1);
    if n == 1 {
      assert ShowInt(1) == "1";
    }
  }

  /** The sentinels and two ordinary cases. */
  lemma QuantityExamples()
    ensures Quantity(">10") == Ok(100) && Quantity("1") == Ok(0)
    ensures Quantity("42") == Ok(42) && Quantity("").Err? && Quantity("много").Err?
  {
    assert ParseInt("42") == Ok(42) by {
      assert AllDigits("42");
      assert "42"[..1] == "4" && "4"[..0] == "";
      assert ValueOf("4") == 4;
      assert ValueOf("42") == 42;
    }
    assert !IsDigit('м');
  }

  /** The codes of the records, in order. */
  function Codes(feed: seq<Record>): (r: seq<string>)
    ensures |r| == |feed| && forall k | 0 <= k < |feed| :: r[k] == feed[k].code
    decreases |feed|
  {
    if feed == [] then [] else Codes(feed[..|feed| - 1]) + [feed[|feed| - 1].code]
  }

  lemma CodesMember(feed: seq<Record>, x: Record)
    requires x in feed
    ensures multiset(Codes(feed))[x.code] > 0
  {
    var k :| 0 <= k < |feed| && feed[k] == x;
    assert Codes(feed)[k] == x.code;
  }

  /** The caller's list of offer ids; create_stocks shrinks it in place. */
  class OfferIdList {
    var items: seq<string>

    constructor (items: seq<string>)
      ensures this.items == items
    {
      this.items := items;
    }

    /** list.remove(x): drops the first occurrence of x; found is false where Python raises ValueError. */
    method Remove(x: string) returns (found: bool)
      modifies this
      ensures found == (x in old(items))
      ensures items == RemoveFirst(old(items), x)
      ensures found ==> multiset(items) == multiset(old(items)) - multiset{x}
    {
      found := x in items;
      items := RemoveFirst(items, x);
    }
  }

  /** A record the stock pass matched, with the stock its quantity gave. */
  datatype Match = Match(record: Record, count: int)

  /**
   * The state of the stock pass: the records matched so far, what is left of
   * the offer-id list, and whether int() has raised (after which nothing more
   * is processed).
   */
  datatype Pass = Pass(matched: seq<Match>, left: seq<string>, failed: bool)

  function Records(ms: seq<Match>): (r: seq<Record>)
    ensures |r| == |ms| && forall k | 0 <= k < |ms| :: r[k] == ms[k].record
    decreases |ms|
  {
    if ms == [] then [] else Records(ms[..|ms| - 1]) + [ms[|ms| - 1].record]
  }

  /** One iteration of the first loop of create_stocks. */
  function Step(p: Pass, r: Record): (q: Pass)
    ensures |q.matched| + |q.left| == |p.matched| + |p.left|
    ensures |p.matched| <= |q.matched| <= |p.matched| + 1
    ensures q.failed ==> q.matched == p.matched && q.left == p.left
    ensures p.failed ==> q == p
  {
    if p.failed || r.code !in p.left then p
    else match Quantity(r.quantity)
      case Err(_) => p.(failed := true)
      case Ok(q) =>
        assert |multiset(RemoveFirst(p.left, r.code))| == |multiset(p.left)| - 1;
        Pass(p.matched + [Match(r, q)], RemoveFirst(p.left, r.code), false)
  }

  /** The first loop of create_stocks over the whole feed, starting from the caller's list ids. */
  function Scan(feed: seq<Record>, ids: seq<string>): (s: Pass)
    ensures |s.matched| + |s.left| == |ids|
    ensures |s.matched| <= |feed|
    decreases |feed|
  {
    if feed == [] then Pass([], ids, false)
    else Step(Scan(feed[..|feed| - 1], ids), feed[|feed| - 1])
  }

  /**
   * Reference for the records the stock pass takes: a record is taken when
   * fewer earlier records share its code than the id list holds copies of it.
   */
  function FirstFits(feed: seq<Record>, ids: seq<string>): (r: seq<Record>)
    decreases |feed|
  {
    if feed == [] then []
    else
      var init := feed[..|feed| - 1];
      var r := feed[|feed| - 1];
      FirstFits(init, ids)
        + (if multiset(Codes(init))[r.code] < multiset(ids)[r.code] then [r] else [])
  }

  /** Reference for the ids left over: ids with the first budget[c] copies of every c removed. */
  function Survivors(ids: seq<string>, budget: multiset<string>): (r: seq<string>)
  {
    if ids == [] then []
    else if budget[ids[0]] > 0 then Survivors(ids[1..], budget - multiset{ids[0]})
    else [ids[0]] + Survivors(ids[1..], budget)
  }

  /** The records of create_prices: those whose code is in ids, in feed order, repeats included. */
  function Selected(feed: seq<Record>, ids: seq<string>): (r: seq<Record>)
    ensures |r| <= |feed|
    ensures forall x | x in r :: x in feed && x.code in ids
    ensures forall k | 0 <= k < |feed| && feed[k].code in ids :: feed[k] in r
    decreases |feed|
  {
    if feed == [] then []
    else
      var r := feed[|feed| - 1];
      Selected(feed[..|feed| - 1], ids) + (if r.code in ids then [r] else [])
  }

  lemma {:induction false} SurvivorsCount(ids: seq<string>, budget: multiset<string>)
    ensures forall c :: multiset(Survivors(ids, budget))[c] ==
                        (if budget[c] < multiset(ids)[c] then multiset(ids)[c] - budget[c] else 0)
    decreases |ids|
  {
    if ids != [] {
      var x := ids[0];
      assert ids == [x] + ids[1..];
      if budget[x] > 0 {
        SurvivorsCount(ids[1..], budget - multiset{x});
      } else {
        SurvivorsCount(ids[1..], budget);
      }
    }
  }

  /** The ids left over keep their relative order. */
  lemma {:induction false} SurvivorsSubsequence(ids: seq<string>, budget: multiset<string>)
    ensures Subsequence(Survivors(ids, budget), ids)
    decreases |ids|
  {
    if ids != [] {
      var x := ids[0];
      assert ids == [x] + ids[1..];
      if budget[x] > 0 {
        SurvivorsSubsequence(ids[1..], budget - multiset{x});
        SubsequencePrepend(Survivors(ids[1..], budget - multiset{x}), ids[1..], x);
      } else {
        SurvivorsSubsequence(ids[1..], budget);
        SubsequenceCons(Survivors(ids[1..], budget), ids[1..], x);
      }
    }
  }

  lemma {:induction false} SurvivorsRemove(ids: seq<string>, budget: multiset<string>, c: string)
    requires c in Survivors(ids, budget)
    ensures RemoveFirst(Survivors(ids, budget), c) == Survivors(ids, budget + multiset{c})
    decreases |ids|
  {
    var x := ids[0];
    var rest := ids[1..];
    if budget[x] > 0 {
      assert (budget + multiset{c}) - multiset{x} == (budget - multiset{x}) + multiset{c};
      SurvivorsRemove(rest, budget - multiset{x}, c);
    } else if x == c {
      assert (budget + multiset{c}) - multiset{x} == budget;
    } else {
      SurvivorsRemove(rest, budget, c);
    }
  }

  lemma {:induction false} SurvivorsAbsent(ids: seq<string>, budget: multiset<string>, c: string)
    requires c !in Survivors(ids, budget)
    ensures Survivors(ids, budget + multiset{c}) == Survivors(ids, budget)
    decreases |ids|
  {
    if ids != [] {
      var x := ids[0];
      var rest := ids[1..];
      if budget[x] > 0 {
        assert (budget + multiset{c}) - multiset{x} == (budget - multiset{x}) + multiset{c};
        SurvivorsAbsent(rest, budget - multiset{x}, c);
      } else {
        SurvivorsAbsent(rest, budget, c);
      }
    }
  }

  /** A code is taken as often as it occurs in both the feed and the id list, and no more. */
  lemma {:induction false} FirstFitsCount(feed: seq<Record>, ids: seq<string>)
    ensures forall c :: multiset(Codes(FirstFits(feed, ids)))[c] ==
                        (if multiset(Codes(feed))[c] < multiset(ids)[c] then multiset(Codes(feed))[c]
                         else multiset(ids)[c])
    decreases |feed|
  {
    if feed != [] {
      var init := feed[..|feed| - 1];
      var r := feed[|feed| - 1];
      FirstFitsCount(init, ids);
      var before := multiset(Codes(init));
      var extra := if before[r.code] < multiset(ids)[r.code] then [r] else [];
      assert FirstFits(feed, ids) == FirstFits(init, ids) + extra;
      CodesAppend(FirstFits(init, ids), extra);
      var bonus := if before[r.code] < multiset(ids)[r.code] then multiset{r.code} else multiset{};
      assert multiset(Codes(extra)) == bonus;
      assert multiset(Codes(FirstFits(feed, ids))) == multiset(Codes(FirstFits(init, ids))) + bonus;
      assert multiset(Codes(feed)) == before + multiset{r.code};
      CountStep(multiset(Codes(FirstFits(init, ids))), before, multiset(ids), r.code);
    }
  }

  /** One more record with code x: the count of taken codes follows min(feed count, list count). */
  lemma CountStep(taken: multiset<string>, seen: multiset<string>, listed: multiset<string>, x: string)
    requires forall c :: taken[c] == if seen[c] < listed[c] then seen[c] else listed[c]
    ensures var bonus := if seen[x] < listed[x] then multiset{x} else multiset{};
      forall c :: (taken + bonus)[c] ==
        if (seen + multiset{x})[c] < listed[c] then (seen + multiset{x})[c] else listed[c]
  {
  }

  lemma {:induction false} CodesAppend(a: seq<Record>, b: seq<Record>)
    ensures Codes(a + b) == Codes(a) + Codes(b)
    decreases |b|
  {
    if b == [] {
      assert a + b == a;
    } else {
      CodesAppend(a, b[..|b| - 1]);
      assert (a + b)[..|a + b| - 1] == a + b[..|b| - 1];
    }
  }

  /** Taken records appear in feed order. */
  lemma {:induction false} FirstFitsSubsequence(feed: seq<Record>, ids: seq<string>)
    ensures Subsequence(FirstFits(feed, ids), feed)
    decreases |feed|
  {
    if feed != [] {
      var init := feed[..|feed| - 1];
      var r := feed[|feed| - 1];
      FirstFitsSubsequence(init, ids);
      assert init + [r] == feed;
      SubsequenceStep(FirstFits(init, ids), init, r, multiset(Codes(init))[r.code] < multiset(ids)[r.code]);
    }
  }

  /** Every record the stock pass takes is also one of the records the price pass selects, in the same order. */
  lemma {:induction false} FirstFitsSelected(feed: seq<Record>, ids: seq<string>)
    ensures Subsequence(FirstFits(feed, ids), Selected(feed, ids))
    decreases |feed|
  {
    if feed != [] {
      var init := feed[..|feed| - 1];
      var r := feed[|feed| - 1];
      FirstFitsSelected(init, ids);
      if multiset(Codes(init))[r.code] < multiset(ids)[r.code] {
        assert r.code in ids;
        SubsequenceSnoc(FirstFits(init, ids), Selected(init, ids), r);
      } else if r.code in ids {
        assert FirstFits(feed, ids) == FirstFits(init, ids);
        SubsequenceExtend(FirstFits(init, ids), Selected(init, ids), r);
      } else {
        assert FirstFits(feed, ids) == FirstFits(init, ids);
        assert Selected(feed, ids) == Selected(init, ids);
      }
    }
  }

  /** The price pass keeps every record whose code is in ids, as often as the feed has it, and nothing else. */
  lemma {:induction false} SelectedCount(feed: seq<Record>, ids: seq<string>)
    ensures forall x :: multiset(Selected(feed, ids))[x] == if x.code in ids then multiset(feed)[x] else 0
    decreases |feed|
  {
    if feed != [] {
      var init := feed[..|feed| - 1];
      SelectedCount(init, ids);
      assert init + [feed[|feed| - 1]] == feed;
    }
  }

  /** Selected records appear in feed order. */
  lemma {:induction false} SelectedSubsequence(feed: seq<Record>, ids: seq<string>)
    ensures Subsequence(Selected(feed, ids), feed)
    decreases |feed|
  {
    if feed != [] {
      var init := feed[..|feed| - 1];
      var r := feed[|feed| - 1];
      SelectedSubsequence(init, ids);
      assert init + [r] == feed;
      if r.code in ids {
        SubsequenceSnoc(Selected(init, ids), init, r);
      } else {
        assert Selected(feed, ids) == Selected(init, ids);
        SubsequenceExtend(Selected(init, ids), init, r);
      }
    }
  }

  /** Scan over one more record of the feed is one more Step. */
  lemma ScanPrefix(feed: seq<Record>, i: nat, ids: seq<string>)
    requires i < |feed|
    ensures Scan(feed[..i + 1], ids) == Step(Scan(feed[..i], ids), feed[i])
  {
    assert feed[..i + 1][..i] == feed[..i];
  }

  /** Once int() has raised, the rest of the feed changes nothing. */
  lemma {:induction false} ScanStopsAtFailure(feed: seq<Record>, k: nat, ids: seq<string>)
    requires k <= |feed| && Scan(feed[..k], ids).failed
    ensures Scan(feed, ids) == Scan(feed[..k], ids)
    decreases |feed| - k
  {
    if k == |feed| {
      assert feed[..k] == feed;
    } else {
      var init := feed[..|feed| - 1];
      assert init[..k] == feed[..k];
      ScanStopsAtFailure(init, k, ids);
    }
  }

  /** Every matched id comes out of the list: matched codes and left-over ids together are the original list. */
  lemma {:induction false} ScanConserves(feed: seq<Record>, ids: seq<string>)
    ensures var p := Scan(feed, ids);
      multiset(Codes(Records(p.matched))) + multiset(p.left) == multiset(ids)
    decreases |feed|
  {
    if feed != [] {
      var init := feed[..|feed| - 1];
      var r := feed[|feed| - 1];
      ScanConserves(init, ids);
      var p := Scan(init, ids);
      if !p.failed && r.code in p.left && Quantity(r.quantity).Ok? {
        var ms := p.matched + [Match(r, Quantity(r.quantity).value)];
        assert ms[..|ms| - 1] == p.matched;
        var rs := Records(ms);
        assert rs[..|rs| - 1] == Records(p.matched);
        var taken := multiset(Codes(Records(p.matched)));
        assert multiset(Codes(rs)) == taken + multiset{r.code} by {
          assert Codes(rs) == Codes(Records(p.matched)) + [r.code];
        }
        MoveOne(taken, multiset(p.left), r.code);
      } else {
        assert Scan(feed, ids).matched == p.matched && Scan(feed, ids).left == p.left;
      }
    }
  }

  /** Each matched record's stock is what the quantity rule gives for its quantity text. */
  lemma {:induction false} ScanCounts(feed: seq<Record>, ids: seq<string>)
    ensures forall m | m in Scan(feed, ids).matched :: Quantity(m.record.quantity) == Ok(m.count)
    decreases |feed|
  {
    if feed != [] {
      ScanCounts(feed[..|feed| - 1], ids);
    }
  }

  /**
   * The stock pass against its reference: it raises exactly when a record it
   * would take has a quantity int() cannot read; otherwise it takes exactly
   * FirstFits, in feed order, and leaves the list with the first copy of an
   * id removed once per matching record.
   */
  lemma {:induction false} ScanMatchesReference(feed: seq<Record>, ids: seq<string>)
    ensures var p := Scan(feed, ids);
      (p.failed <==> exists x :: x in FirstFits(feed, ids) && Quantity(x.quantity).Err?)
      && (!p.failed ==> Records(p.matched) == FirstFits(feed, ids)
                        && p.left == Survivors(ids, multiset(Codes(feed))))
    decreases |feed|
  {
    if feed == [] {
      assert Survivors(ids, multiset{}) == ids by { SurvivorsNoBudget(ids); }
    } else {
      var init := feed[..|feed| - 1];
      var r := feed[|feed| - 1];
      ScanMatchesReference(init, ids);
      var p0 := Scan(init, ids);
      var budget := multiset(Codes(init));
      assert multiset(Codes(feed)) == budget + multiset{r.code};
      if p0.failed {
        var x :| x in FirstFits(init, ids) && Quantity(x.quantity).Err?;
        assert x in FirstFits(feed, ids);
      } else {
        SurvivorsCount(ids, budget);
        assert r.code in p0.left <==> multiset(p0.left)[r.code] > 0;
        if r.code !in p0.left {
          SurvivorsAbsent(ids, budget, r.code);
        } else if Quantity(r.quantity).Err? {
          assert r in FirstFits(feed, ids);
        } else {
          SurvivorsRemove(ids, budget, r.code);
          var m := Match(r, Quantity(r.quantity).value);
          assert (p0.matched + [m])[..|p0.matched|] == p0.matched;
          forall x | x in FirstFits(feed, ids) ensures Quantity(x.quantity).Ok? {
            if x != r {
              assert x in FirstFits(init, ids);
            }
          }
        }
      }
    }
  }

  /**
   * The successful half of ScanMatchesReference, together with what any
   * finished pass keeps: the taken codes and the ids left over make up the
   * list, and each count is what the quantity rule gives.
   */
  lemma ScanTakesReference(feed: seq<Record>, ids: seq<string>)
    requires !Scan(feed, ids).failed
    ensures Records(Scan(feed, ids).matched) == FirstFits(feed, ids)
    ensures Scan(feed, ids).left == Survivors(ids, multiset(Codes(feed)))
    ensures multiset(Codes(FirstFits(feed, ids))) + multiset(Survivors(ids, multiset(Codes(feed)))) == multiset(ids)
    ensures forall m | m in Scan(feed, ids).matched :: Quantity(m.record.quantity) == Ok(m.count)
  {
    ScanMatchesReference(feed, ids);
    ScanConserves(feed, ids);
    ScanCounts(feed, ids);
  }

  lemma {:induction false} SurvivorsNoBudget(ids: seq<string>)
    ensures Survivors(ids, multiset{}) == ids
    decreases |ids|
  {
    if ids != [] {
      SurvivorsNoBudget(ids[1..]);
      assert ids == [ids[0]] + ids[1..];
    }
  }

  /**
   * What the price pass sees when it is handed the list the stock pass left:
   * only records whose code the feed holds fewer times than the original list.
   */
  lemma SelectedAfterScan(feed: seq<Record>, ids: seq<string>)
    requires !Scan(feed, ids).failed
    ensures forall x | x in Selected(feed, Scan(feed, ids).left) ::
      multiset(Codes(feed))[x.code] < multiset(ids)[x.code]
  {
    var left := Scan(feed, ids).left;
    ScanMatchesReference(feed, ids);
    SurvivorsCount(ids, multiset(Codes(feed)));
    forall x | x in Selected(feed, left)
      ensures multiset(Codes(feed))[x.code] < multiset(ids)[x.code]
    {
      assert multiset(left)[x.code] > 0;
    }
  }
}
