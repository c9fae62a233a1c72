/** Horizon returns of one ticker (kr_etf_investor/loader.py):
    `calc_return_pct`, the guards of `_calc_cagr`, `_total_cagr` and
    `_total_return_from_cagr`, and how `process_single_ticker` derives the
    return, price CAGR, total CAGR and total return of each horizon from the
    master price table. A horizon whose past price is missing counts as 0, and
    a 0 past price gives 0 for every derived figure rather than a computed
    loss. The fractional power of `_calc_cagr` is the parameter `pow`. */
module Horizons {
  import opened Common

  /** `calc_return_pct(now, past)`: 0 without a positive past price, else the
      change in percent of the past price. */
  function CalcReturnPct(now: int, past: int): (r: real)
    ensures past <= 0 ==> r == 0.0
    ensures past > 0 ==> r * past as real == (now - past) as real * 100.0
    ensures past > 0 ==> (r > 0.0 <==> now > past) && (r < 0.0 <==> now < past)
  {
    if past <= 0 then 0.0 else (now - past) as real / past as real * 100.0
  }

  /** 100 against a past price of 80 is a 25 percent return. */
  lemma ReturnExample()
    ensures CalcReturnPct(100, 80) == 25.0
  {
    assert (100 - 80) as real / 80 as real == 0.25;
  }

  /** `_calc_cagr(now, past, years)`, with `pow(x, y)` for `x ** y`: 0 unless
      both prices and the number of years are positive. */
  function CalcCagr(now: int, past: int, years: int, pow: (real, real) -> real): (c: real)
    ensures past <= 0 || now <= 0 || years <= 0 ==> c == 0.0
    ensures past > 0 && now > 0 && years > 0 ==>
      c == (pow(now as real / past as real, 1.0 / years as real) - 1.0) * 100.0
  {
    if past <= 0 || now <= 0 || years <= 0 then 0.0
    else (pow(now as real / past as real, 1.0 / years as real) - 1.0) * 100.0
  }

  /** Over one year the CAGR is the plain return, for any `pow` with
      `x ** 1 == x`. */
  lemma CagrOneYear(now: int, past: int, pow: (real, real) -> real)
    requires now > 0 && past > 0
    requires pow(now as real / past as real, 1.0) == now as real / past as real
    ensures CalcCagr(now, past, 1, pow) == CalcReturnPct(now, past)
  {
    var n, p := now as real, past as real;
    var x := n / p;
    assert p / p == 1.0;
    assert (n - p) / p == n / p - p / p;
  }

  /** `_total_cagr(price_cagr, income_yield)`: price growth and income
      compounded together, all in percent. */
  function TotalCagr(pc: real, iy: real): (t: real)
    ensures t == pc + iy + pc * iy / 100.0
  {
    ((1.0 + pc / 100.0) * (1.0 + iy / 100.0) - 1.0) * 100.0
  }

  /** Compounding is symmetric, and either part alone is the whole. */
  lemma TotalCagrParts(pc: real, iy: real)
    ensures TotalCagr(pc, iy) == TotalCagr(iy, pc)
    ensures TotalCagr(pc, 0.0) == pc && TotalCagr(0.0, iy) == iy
    ensures pc >= 0.0 && iy >= 0.0 ==> TotalCagr(pc, iy) >= pc + iy
  {
  }

  function RealPow(x: real, n: nat): real {
    if n == 0 then 1.0 else x * RealPow(x, n - 1)
  }

  /** `_total_return_from_cagr(tc, years)`: the rate compounded over the whole
      number of years. */
  function TotalReturnFromCagr(tc: real, years: nat): (r: real)
    ensures years == 1 ==> r == tc
    ensures years == 0 ==> r == 0.0
  {
    var base := 1.0 + tc / 100.0;
    assert RealPow(base, 1) == base * RealPow(base, 0);
    (RealPow(base, years) - 1.0) * 100.0
  }

  lemma {:induction false} RealPowAtLeastOne(x: real, n: nat)
    requires x >= 1.0
    ensures RealPow(x, n) >= 1.0
    ensures n >= 1 ==> RealPow(x, n) >= x
  {
    if n > 0 {
      RealPowAtLeastOne(x, n - 1);
      var r := RealPow(x, n - 1);
      assert RealPow(x, n) == x * r;
      assert x * r - x == x * (r - 1.0);
      assert x * (r - 1.0) >= 0.0;
    }
  }

  /** No growth stays no growth, and positive growth compounds to at least
      one year's worth. */
  lemma TotalReturnGrowth(tc: real, years: nat)
    ensures tc == 0.0 ==> TotalReturnFromCagr(tc, years) == 0.0
    ensures tc >= 0.0 && years >= 1 ==> TotalReturnFromCagr(tc, years) >= tc
  {
    if tc == 0.0 {
      RealPowOne(years);
    } else if tc >= 0.0 {
      RealPowAtLeastOne(1.0 + tc / 100.0, years);
    }
  }

  lemma {:induction false} RealPowOne(n: nat)
    ensures RealPow(1.0, n) == 1.0
  {
    if n > 0 {
      RealPowOne(n - 1);
    }
  }

  // ---------------------------------------------------------------- per horizon

  datatype Horizon = M1 | M3 | M6 | Y1 | Y3 | Y5

  /** The horizons whose return the retail site can fill in. */
  predicate HasSiteReturn(h: Horizon) { h == M1 || h == M3 || h == M6 || h == Y1 }

  /** The horizons with a CAGR, total CAGR and total return, and their years. */
  function Years(h: Horizon): nat {
    match h
    case Y1 => 1
    case Y3 => 3
    case Y5 => 5
    case _ => 0
  }

  function SiteKey(h: Horizon): string {
    match h
    case M1 => "1m"
    case M3 => "3m"
    case M6 => "6m"
    case _ => "1y"
  }

  /** A master-table row: the close and the past closes it holds; a horizon
      absent from `past` is a missing value. */
  datatype MasterRow = MasterRow(close: int, past: map<Horizon, int>)

  /** `price_<h>`: 0 for a ticker outside the table or a missing value. */
  function PastPrice(master: map<string, MasterRow>, ticker: string, h: Horizon): (p: int)
    ensures ticker !in master || h !in master[ticker].past ==> p == 0
    ensures ticker in master && h in master[ticker].past ==> p == master[ticker].past[h]
  {
    if ticker in master && h in master[ticker].past then master[ticker].past[h] else 0
  }

  /** `price_now`: the table's close, replaced by the price of the quote
      service when that is positive. */
  function PriceNow(master: map<string, MasterRow>, ticker: string, updatedPrice: int): (p: int)
    ensures updatedPrice > 0 ==> p == updatedPrice
    ensures updatedPrice <= 0 ==> p == (if ticker in master then master[ticker].close else 0)
  {
    if updatedPrice > 0 then updatedPrice else if ticker in master then master[ticker].close else 0
  }

  datatype Figures = Figures(ret: real, priceCagr: real, totalCagr: real, totalReturn: real)

  /** The figures of one horizon. The return is computed only from a positive
      past price; a computed 0 is replaced by a non-zero return of the retail
      site on the four short horizons. The CAGR figures exist on the three
      long horizons and need a positive past price. */
  function Derive(h: Horizon, now: int, past: int, siteReturns: map<string, real>, incomeYield: real,
                  pow: (real, real) -> real): (f: Figures)
    ensures past <= 0 || Years(h) == 0 ==> f.priceCagr == 0.0 && f.totalCagr == 0.0 && f.totalReturn == 0.0
    ensures past > 0 && now > past ==> f.ret == CalcReturnPct(now, past) && f.ret > 0.0
    ensures past > 0 && now < past ==> f.ret == CalcReturnPct(now, past) && f.ret < 0.0
    ensures f.ret != 0.0 && (past <= 0 || now == past) ==>
      HasSiteReturn(h) && SiteKey(h) in siteReturns && f.ret == siteReturns[SiteKey(h)]
    ensures (past <= 0 || now == past) && HasSiteReturn(h) && SiteKey(h) in siteReturns ==>
      f.ret == siteReturns[SiteKey(h)]
    ensures (past <= 0 || now == past) && !(HasSiteReturn(h) && SiteKey(h) in siteReturns) ==> f.ret == 0.0
    ensures past > 0 && Years(h) > 0 ==> f.priceCagr == CalcCagr(now, past, Years(h), pow)
    ensures past > 0 && Years(h) > 0 ==>
      f.totalCagr == TotalCagr(CalcCagr(now, past, Years(h), pow), incomeYield) &&
      f.totalReturn == TotalReturnFromCagr(f.totalCagr, Years(h))
  {
    var computed := if past > 0 then CalcReturnPct(now, past) else 0.0;
    var ret := if computed == 0.0 && HasSiteReturn(h) && SiteKey(h) in siteReturns && siteReturns[SiteKey(h)] != 0.0
               then siteReturns[SiteKey(h)] else computed;
    if past > 0 && Years(h) > 0 then
      var pc := CalcCagr(now, past, Years(h), pow);
      var tc := TotalCagr(pc, incomeYield);
      Figures(ret, pc, tc, TotalReturnFromCagr(tc, Years(h)))
    else Figures(ret, 0.0, 0.0, 0.0)
  }

  /** The figures of a horizon as `process_single_ticker` builds them. */
  function TickerFigures(master: map<string, MasterRow>, ticker: string, updatedPrice: int, h: Horizon,
                         siteReturns: map<string, real>, incomeYield: real, pow: (real, real) -> real): Figures {
    Derive(h, PriceNow(master, ticker, updatedPrice), PastPrice(master, ticker, h), siteReturns, incomeYield, pow)
  }

  /** A ticker outside the master table (a new listing) has no computed
      figures: its 3- and 5-year figures are all 0 and its short returns come
      from the retail site or are 0. */
  lemma UnknownTicker(master: map<string, MasterRow>, ticker: string, updatedPrice: int, h: Horizon,
                      siteReturns: map<string, real>, incomeYield: real, pow: (real, real) -> real)
    requires ticker !in master
    ensures var f := TickerFigures(master, ticker, updatedPrice, h, siteReturns, incomeYield, pow);
      f.priceCagr == 0.0 && f.totalCagr == 0.0 && f.totalReturn == 0.0 &&
      (!HasSiteReturn(h) || SiteKey(h) !in siteReturns ==> f.ret == 0.0)
  {
  }

  /** A site return never overrides a non-zero computed return. */
  lemma ComputedWins(h: Horizon, now: int, past: int, siteReturns: map<string, real>, incomeYield: real,
                     pow: (real, real) -> real)
    requires past > 0 && now != past
    ensures Derive(h, now, past, siteReturns, incomeYield, pow).ret == CalcReturnPct(now, past)
  {
  }
}
