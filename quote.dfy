/** The quote of one ticker as `get_dividend_info_async` reconciles it
    (kr_etf_investor/loader.py): the ETF quote is back-filled from the stock
    quote where it lacks a name or a price, the daily change gets its sign,
    missing short returns are filled from the price history, and the display
    name falls back through the fund page and the stock quote to the ticker.
    The fast refresh `fetch_basic_info_only` signs the stock quote's change by
    its status name. */
module Quote {
  import opened Common
  import opened DistributionHistory
  import opened Horizons

  /** The stock quote endpoint's answer; None is a missing key. */
  datatype StockBasic = StockBasic(
    stockName: Option<string>,
    closePrice: Option<string>,
    fluctuationsRatio: Option<real>,
    comparePrev: Option<string>,
    statusName: string,
    industryCodeName: Option<string>)

  predicate Falling(status: string) { status == "FALLING" || status == "SHOCK" || status == "LOWER_LIMIT" }
  predicate Rising(status: string) { status == "RISING" || status == "UPPER_LIMIT" }

  function AbsInt(v: int): nat { if v < 0 then -v else v }
  function AbsReal(v: real): real { if v < 0.0 then -v else v }

  /** A change value signed by the status name: made non-positive when
      falling, non-negative when rising, left alone otherwise. */
  function SignValue(v: int, status: string): (r: int)
    ensures AbsInt(r) == AbsInt(v)
    ensures Falling(status) ==> r <= 0
    ensures Rising(status) ==> r >= 0
    ensures !Falling(status) && !Rising(status) ==> r == v
  {
    if Falling(status) then -(AbsInt(v) as int) else if Rising(status) then AbsInt(v) else v
  }

  function SignRate(v: real, status: string): (r: real)
    ensures AbsReal(r) == AbsReal(v)
    ensures Falling(status) ==> r <= 0.0
    ensures Rising(status) ==> r >= 0.0
    ensures !Falling(status) && !Rising(status) ==> r == v
  {
    if Falling(status) then -AbsReal(v) else if Rising(status) then AbsReal(v) else v
  }

  /** `_safe_int(_clean_num(s or '0'))` on an optional field. */
  function NumberField(s: Option<string>): int {
    SafeInt(CleanNum(Some(s.GetOr("0"))))
  }

  /** The fast refresh's quote from the stock endpoint. */
  datatype FastQuote = FastQuote(closePrice: int, changeRate: real, changeValue: int, name: string)

  /** The stock branch of `fetch_basic_info_only`: rate and value signed by
      the same status, so they never disagree in sign under a known status. */
  function StockQuote(sb: StockBasic, ticker: string): (q: FastQuote)
    ensures q.closePrice == NumberField(sb.closePrice)
    ensures AbsReal(q.changeRate) == AbsReal(sb.fluctuationsRatio.GetOr(0.0))
    ensures AbsInt(q.changeValue) == AbsInt(NumberField(sb.comparePrev))
    ensures Falling(sb.statusName) ==> q.changeRate <= 0.0 && q.changeValue <= 0
    ensures Rising(sb.statusName) ==> q.changeRate >= 0.0 && q.changeValue >= 0
    ensures q.name == sb.stockName.GetOr(ticker)
  {
    FastQuote(NumberField(sb.closePrice),
              SignRate(sb.fluctuationsRatio.GetOr(0.0), sb.statusName),
              SignValue(NumberField(sb.comparePrev), sb.statusName),
              sb.stockName.GetOr(ticker))
  }

  // ---------------------------------------------------------------- the ETF quote

  /** The ETF quote fields the stock quote can fill in. */
  datatype QuoteFields = QuoteFields(name: string, closePrice: int, sector: string,
                                     fluctuationRate: Option<real>, comparePrev: Option<int>)

  /** The back-fill of an ETF quote lacking a price or a name from the stock
      quote (`sb` is None when that came back empty): only missing fields are
      filled, a present value is never replaced. */
  function Backfilled(q: QuoteFields, sb: Option<StockBasic>): (r: QuoteFields)
    ensures q.closePrice != 0 ==> r.closePrice == q.closePrice
    ensures q.name != "" ==> r.name == q.name
    ensures q.fluctuationRate.Some? ==> r.fluctuationRate == q.fluctuationRate
    ensures q.comparePrev.Some? ==> r.comparePrev == q.comparePrev
    ensures q.sector != "Etc" ==> r.sector == q.sector
    ensures (q.closePrice != 0 && q.name != "") || sb.None? ==> r == q
    ensures (q.closePrice == 0 || q.name == "") && sb.Some? ==>
      (q.name == "" ==> r.name == sb.value.stockName.GetOr("")) &&
      (q.closePrice == 0 ==> r.closePrice == NumberField(sb.value.closePrice)) &&
      (q.fluctuationRate.None? ==> r.fluctuationRate == Some(sb.value.fluctuationsRatio.GetOr(0.0))) &&
      (q.comparePrev.None? ==> r.comparePrev == Some(SignValue(NumberField(sb.value.comparePrev), sb.value.statusName))) &&
      (q.sector == "Etc" ==> r.sector == sb.value.industryCodeName.GetOr("Etc"))
  {
    if (q.closePrice == 0 || q.name == "") && sb.Some? then
      var b := sb.value;
      QuoteFields(
        if q.name == "" then b.stockName.GetOr("") else q.name,
        if q.closePrice == 0 then NumberField(b.closePrice) else q.closePrice,
        if q.sector == "Etc" then b.industryCodeName.GetOr("Etc") else q.sector,
        if q.fluctuationRate.None? then Some(b.fluctuationsRatio.GetOr(0.0)) else q.fluctuationRate,
        if q.comparePrev.None? then Some(SignValue(NumberField(b.comparePrev), b.statusName)) else q.comparePrev)
    else q
  }

  /** A failed ETF quote filled from a falling stock quote carries a
      non-positive change value, and a second back-fill changes nothing once
      price and name are present. */
  lemma BackfillFalling(sb: StockBasic)
    requires Falling(sb.statusName)
    ensures var r := Backfilled(QuoteFields("", 0, "Etc", None, None), Some(sb));
      r.comparePrev.Some? && r.comparePrev.value <= 0 &&
      (r.name != "" && r.closePrice != 0 ==> Backfilled(r, Some(sb)) == r)
  {
  }


  /** A day's close in the price history. */
  datatype PricePoint = PricePoint(date: int, price: int)

  /** The ETF quote `naver_info`, a dict the fetch code updates in place. A
      price of 0 and an empty name are the falsy values the code tests;
      `fluctuationRate` and `compareToPreviousClosePrice` may be absent. */
  class NaverInfo {
    var name: string
    var closePrice: int
    var sector: string
    var fluctuationRate: Option<real>
    var changeRate: real
    var comparePrev: Option<int>
    var siteReturns: map<string, real>

    /** What the ETF quote fetch returns after three failed attempts. */
    constructor Empty()
      ensures name == "" && closePrice == 0 && sector == "Etc"
      ensures fluctuationRate.None? && changeRate == 0.0 && comparePrev.None? && siteReturns == map[]
    {
      name, closePrice, sector := "", 0, "Etc";
      fluctuationRate, changeRate, comparePrev := None, 0.0, None;
      siteReturns := map[];
    }

    /** A successful ETF quote: rate and change value are both present. */
    constructor Fetched(name: string, closePrice: int, sector: string, rate: real, value: int, siteReturns: map<string, real>)
      ensures this.name == name && this.closePrice == closePrice && this.sector == sector
      ensures fluctuationRate == Some(rate) && changeRate == rate && comparePrev == Some(value)
      ensures this.siteReturns == siteReturns
    {
      this.name, this.closePrice, this.sector := name, closePrice, sector;
      fluctuationRate, changeRate, comparePrev := Some(rate), rate, Some(value);
      this.siteReturns := siteReturns;
    }

    /** The fields the back-fill may touch. */
    function Fields(): QuoteFields
      reads this
    {
      QuoteFields(name, closePrice, sector, fluctuationRate, comparePrev)
    }

    /** The back-fill from the stock quote (see `Backfilled`). */
    method Backfill(sb: Option<StockBasic>)
      modifies this
      ensures Fields() == Backfilled(old(Fields()), sb)
      ensures changeRate == old(changeRate) && siteReturns == old(siteReturns)
    {
      var r := Backfilled(Fields(), sb);
      name, closePrice, sector, fluctuationRate, comparePrev := r.name, r.closePrice, r.sector, r.fluctuationRate, r.comparePrev;
    }

    /** `daily_change_rate` and `daily_change_value`: the rate falls back to
        `change_rate` when 0, and a positive value under a negative rate is
        negated. */
    function DailyChange(): (c: (real, int))
      reads this
      ensures c.0 == (if fluctuationRate.GetOr(0.0) == 0.0 then changeRate else fluctuationRate.GetOr(0.0))
      ensures AbsInt(c.1) == AbsInt(comparePrev.GetOr(0))
      ensures c.0 < 0.0 ==> c.1 <= 0
      ensures c.0 >= 0.0 ==> c.1 == comparePrev.GetOr(0)
    {
      var rate := if fluctuationRate.GetOr(0.0) == 0.0 then changeRate else fluctuationRate.GetOr(0.0);
      var value := comparePrev.GetOr(0);
      (rate, if rate < 0.0 && value > 0 then -value else value)
    }

    /** The gap filling of the short returns: each of "1m", "3m", "6m", "1y"
        that is missing or 0 takes the history return over 30, 90, 180 or 365
        days when that is not 0. The rounding to two places is not modelled. */
    method FillReturns(hist: seq<PricePoint>, today: int)
      modifies this
      ensures siteReturns == Filled(old(siteReturns), hist, today)
      ensures name == old(name) && closePrice == old(closePrice) && sector == old(sector)
      ensures fluctuationRate == old(fluctuationRate) && changeRate == old(changeRate) && comparePrev == old(comparePrev)
    {
      var steps := FillSteps();
      var i := 0;
      while i < |steps|
        invariant 0 <= i <= |steps|
        invariant siteReturns == FillAll(old(siteReturns), steps[..i], hist, today)
        invariant name == old(name) && closePrice == old(closePrice) && sector == old(sector)
        invariant fluctuationRate == old(fluctuationRate) && changeRate == old(changeRate) && comparePrev == old(comparePrev)
      {
        var (k, d) := steps[i];
        if GetOr0(siteReturns, k) == 0.0 {
          var v := HistReturn(hist, today - d);
          if v != 0.0 {
            siteReturns := siteReturns[k := v];
          }
        }
        assert steps[..i + 1][..i] == steps[..i];
        i := i + 1;
      }
      assert steps[..i] == steps;
    }
  }

  /** `d.get(k, 0)`. */
  function GetOr0(m: map<string, real>, k: string): real {
    if k in m then m[k] else 0.0
  }

  function FillSteps(): seq<(string, int)> {
    [("1m", 30), ("3m", 90), ("6m", 180), ("1y", 365)]
  }

  function FillOne(m: map<string, real>, k: string, v: real): map<string, real> {
    if GetOr0(m, k) == 0.0 && v != 0.0 then m[k := v] else m
  }

  function FillAll(m: map<string, real>, steps: seq<(string, int)>, hist: seq<PricePoint>, today: int): map<string, real> {
    if steps == [] then m
    else
      var (k, d) := steps[|steps| - 1];
      FillOne(FillAll(m, steps[..|steps| - 1], hist, today), k, HistReturnOf(hist, today - d))
  }

  function Filled(m: map<string, real>, hist: seq<PricePoint>, today: int): map<string, real> {
    FillAll(m, FillSteps(), hist, today)
  }

  /** A non-zero return is never replaced, keys outside the four short
      horizons are untouched, and a missing or 0 short return ends up as the
      history return over its number of days. */
  lemma FilledMeans(m: map<string, real>, hist: seq<PricePoint>, today: int)
    ensures forall k :: k in m && m[k] != 0.0 ==> k in Filled(m, hist, today) && Filled(m, hist, today)[k] == m[k]
    ensures forall k :: k != "1m" && k != "3m" && k != "6m" && k != "1y" ==>
      (k in Filled(m, hist, today) <==> k in m) && (k in m ==> Filled(m, hist, today)[k] == m[k])
    ensures forall j :: 0 <= j < |FillSteps()| && GetOr0(m, FillSteps()[j].0) == 0.0 ==>
      GetOr0(Filled(m, hist, today), FillSteps()[j].0) == HistReturnOf(hist, today - FillSteps()[j].1)
  {
    var steps := FillSteps();
    FillAllKeeps(m, steps, hist, today);
    forall j | 0 <= j < |steps| && GetOr0(m, steps[j].0) == 0.0
      ensures GetOr0(Filled(m, hist, today), steps[j].0) == HistReturnOf(hist, today - steps[j].1)
    {
      FillAllFills(m, steps, hist, today, j);
    }
  }

  lemma {:induction false} FillAllKeeps(m: map<string, real>, steps: seq<(string, int)>, hist: seq<PricePoint>, today: int)
    ensures forall k :: k in m && m[k] != 0.0 ==> k in FillAll(m, steps, hist, today) && FillAll(m, steps, hist, today)[k] == m[k]
    ensures forall k :: (forall j :: 0 <= j < |steps| ==> steps[j].0 != k) ==>
      (k in FillAll(m, steps, hist, today) <==> k in m) && (k in m ==> FillAll(m, steps, hist, today)[k] == m[k])
  {
    if steps != [] {
      var init := steps[..|steps| - 1];
      FillAllKeeps(m, init, hist, today);
    }
  }

  lemma {:induction false} FillAllFills(m: map<string, real>, steps: seq<(string, int)>, hist: seq<PricePoint>, today: int, j: nat)
    requires j < |steps| && forall a, b :: 0 <= a < b < |steps| ==> steps[a].0 != steps[b].0
    requires GetOr0(m, steps[j].0) == 0.0
    ensures GetOr0(FillAll(m, steps, hist, today), steps[j].0) == HistReturnOf(hist, today - steps[j].1)
  {
    var init := steps[..|steps| - 1];
    var (k, d) := steps[|steps| - 1];
    var prev := FillAll(m, init, hist, today);
    if j == |steps| - 1 {
      FillAllKeeps(m, init, hist, today);
      assert forall i :: 0 <= i < |init| ==> init[i].0 != k by {
        forall i | 0 <= i < |init| ensures init[i].0 != k {
          assert init[i] == steps[i];
        }
      }
      assert GetOr0(prev, k) == 0.0;
    } else {
      assert init[j] == steps[j];
      FillAllFills(m, init, hist, today, j);
      assert steps[j].0 != k;
    }
  }

  /** Index of the first point at or before `cutoff`, from `from` on. */
  function FirstAtOrBefore(hist: seq<PricePoint>, cutoff: int, from: nat): (r: Option<nat>)
    requires from <= |hist|
    ensures r.Some? ==> from <= r.value < |hist| && hist[r.value].date <= cutoff
    ensures r.Some? ==> forall j :: from <= j < r.value ==> hist[j].date > cutoff
    ensures r.None? ==> forall j :: from <= j < |hist| ==> hist[j].date > cutoff
    decreases |hist| - from
  {
    if from == |hist| then None
    else if hist[from].date <= cutoff then Some(from)
    else FirstAtOrBefore(hist, cutoff, from + 1)
  }

  /** `calc_hist_return`: the newest close against the first close on or
      before the cutoff; 0 without such a close or with a non-positive one. */
  function HistReturnOf(hist: seq<PricePoint>, cutoff: int): (r: real)
    ensures hist == [] || FirstAtOrBefore(hist, cutoff, 0).None? ==> r == 0.0
    ensures hist != [] && FirstAtOrBefore(hist, cutoff, 0).Some? ==>
      r == CalcReturnPct(hist[0].price, hist[FirstAtOrBefore(hist, cutoff, 0).value].price)
  {
    if hist == [] then 0.0
    else match FirstAtOrBefore(hist, cutoff, 0)
      case None => 0.0
      case Some(i) => if hist[i].price > 0 then CalcReturnPct(hist[0].price, hist[i].price) else 0.0
  }

  /** The loop of `calc_hist_return`, returning at the first close on or
      before the cutoff. */
  method HistReturn(hist: seq<PricePoint>, cutoff: int) returns (r: real)
    ensures r == HistReturnOf(hist, cutoff)
  {
    if hist == [] {
      return 0.0;
    }
    var now := hist[0].price;
    var i := 0;
    while i < |hist|
      invariant 0 <= i <= |hist|
      invariant FirstAtOrBefore(hist, cutoff, 0) == FirstAtOrBefore(hist, cutoff, i)
    {
      if hist[i].date <= cutoff {
        if hist[i].price > 0 {
          return (now - hist[i].price) as real / hist[i].price as real * 100.0;
        }
        return 0.0;
      }
      i := i + 1;
    }
    return 0.0;
  }

  // ---------------------------------------------------------------- name

  /** A name that says more than the ticker. */
  predicate Informative(name: string, ticker: string) {
    name != "" && name != ticker
  }

  /** The display name: the ETF quote's name; else, with a fund page, the
      page title; then, when still empty or just the ticker, the stock quote's
      name if it has one; else the ticker. */
  function ResolveName(quoteName: string, htmlText: string, htmlTitle: Option<string>,
                       stockName: Option<string>, ticker: string): (n: string)
    ensures n == "" ==> ticker == ""
    ensures quoteName != "" && quoteName != ticker ==> n == quoteName
    ensures n == quoteName || n == ticker || (htmlTitle.Some? && n == htmlTitle.value) ||
            (stockName.Some? && n == stockName.value)
    ensures n == ticker && ticker != "" ==> stockName.None? || stockName.value == "" || stockName.value == ticker
    ensures quoteName == "" && htmlText != "" && htmlTitle.Some? && Informative(htmlTitle.value, ticker) ==>
      n == htmlTitle.value
    ensures !Informative(quoteName, ticker) &&
            !(quoteName == "" && htmlText != "" && htmlTitle.Some? && Informative(htmlTitle.value, ticker)) ==>
      n == if stockName.Some? && stockName.value != "" then stockName.value else ticker
  {
    var a := if quoteName == "" && htmlText != "" && htmlTitle.Some? then htmlTitle.value else quoteName;
    var b := if (a == "" || a == ticker) && stockName.Some? && stockName.value != "" then stockName.value else a;
    if b == "" then ticker else b
  }
}
