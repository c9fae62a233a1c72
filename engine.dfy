/** `PortfolioEngine.calculate` (kr_etf_investor/portfolio.py, and the same
    code in the v1.0.1 backup): the holdings that count, their total, the
    amount-weighted yield and 1-year return, and the annual and monthly
    income with its flat 12-month simulation. Rounding to two places is not
    modelled. */
module PortfolioEngine {
  import opened Common

  /** One holding: its ticker ("" when missing) and invested amount. */
  datatype Holding = Holding(ticker: string, amount: real)

  /** The universe record of a ticker as far as the engine reads it. */
  datatype Info = Info(yieldPct: real, totalReturn1y: real, return1y: real)

  /** A holding that counts, with its universe record. */
  datatype Valid = Valid(amount: real, info: Info)

  datatype Summary = Summary(totalInvestment: int, weightedYield: real, annualIncome: int,
                             monthlyIncome: int, weightedReturn1y: real, monthlySimulation: seq<int>)

  const ZeroSummary := Summary(0, 0.0, 0, 0, 0.0, [0, 0, 0, 0, 0, 0, 0, 0, 0, 0, 0, 0])

  /** The 1-year figure of a record: its total return, or the price return
      when that is 0. */
  function Ret1y(info: Info): (r: real)
    ensures info.totalReturn1y != 0.0 ==> r == info.totalReturn1y
    ensures info.totalReturn1y == 0.0 ==> r == info.return1y
  {
    if info.totalReturn1y != 0.0 then info.totalReturn1y else info.return1y
  }

  /** The holdings that count, in order: a ticker, a positive amount, and a
      non-empty universe record (`None` stands for an absent or empty one). */
  function ValidHoldings(hs: seq<Holding>, universe: map<string, Option<Info>>): (v: seq<Valid>)
    ensures |v| <= |hs|
    ensures forall i :: 0 <= i < |v| ==> v[i].amount > 0.0
  {
    if hs == [] then []
    else
      var p := ValidHoldings(hs[..|hs| - 1], universe);
      var h := hs[|hs| - 1];
      if h.ticker != "" && h.amount > 0.0 && h.ticker in universe && universe[h.ticker].Some?
      then p + [Valid(h.amount, universe[h.ticker].value)]
      else p
  }

  predicate Counts(h: Holding, universe: map<string, Option<Info>>) {
    h.ticker != "" && h.amount > 0.0 && h.ticker in universe && universe[h.ticker].Some?
  }

  /** A holding counts exactly when it has a ticker, a positive amount and a
      non-empty record; it then counts with that amount and record. */
  lemma {:induction false} ValidHoldingsMeans(hs: seq<Holding>, universe: map<string, Option<Info>>, x: Valid)
    ensures x in ValidHoldings(hs, universe) <==>
      exists h :: h in hs && Counts(h, universe) && x == Valid(h.amount, universe[h.ticker].value)
  {
    if hs != [] {
      var p := hs[..|hs| - 1];
      ValidHoldingsMeans(p, universe, x);
      assert forall g :: g in hs <==> g in p || g == hs[|hs| - 1];
    }
  }

  function Total(v: seq<Valid>): real {
    if v == [] then 0.0 else Total(v[..|v| - 1]) + v[|v| - 1].amount
  }

  /** The sums of amount × yield and amount × 1-year return. */
  function YieldSum(v: seq<Valid>): real {
    if v == [] then 0.0 else YieldSum(v[..|v| - 1]) + v[|v| - 1].amount * v[|v| - 1].info.yieldPct
  }

  function ReturnSum(v: seq<Valid>): real {
    if v == [] then 0.0 else ReturnSum(v[..|v| - 1]) + v[|v| - 1].amount * Ret1y(v[|v| - 1].info)
  }

  /** The weighted sums as the second loop accumulates them, weight by weight. */
  function WeightedYield(v: seq<Valid>, total: real): real
    requires total != 0.0
  {
    if v == [] then 0.0
    else WeightedYield(v[..|v| - 1], total) + v[|v| - 1].info.yieldPct * (v[|v| - 1].amount / total)
  }

  function WeightedReturn(v: seq<Valid>, total: real): real
    requires total != 0.0
  {
    if v == [] then 0.0
    else WeightedReturn(v[..|v| - 1], total) + Ret1y(v[|v| - 1].info) * (v[|v| - 1].amount / total)
  }

  /** The weighted sums are the amount-weighted sums over the total. */
  lemma {:induction false} WeightedYieldIsAverage(v: seq<Valid>, total: real)
    requires total != 0.0
    ensures WeightedYield(v, total) == YieldSum(v) / total
  {
    if v != [] {
      var p, x := v[..|v| - 1], v[|v| - 1];
      WeightedYieldIsAverage(p, total);
      Weighted(x.info.yieldPct, x.amount, total);
      DivSum(YieldSum(p), x.amount * x.info.yieldPct, total);
    }
  }

  lemma {:induction false} WeightedReturnIsAverage(v: seq<Valid>, total: real)
    requires total != 0.0
    ensures WeightedReturn(v, total) == ReturnSum(v) / total
  {
    if v != [] {
      var p, x := v[..|v| - 1], v[|v| - 1];
      WeightedReturnIsAverage(p, total);
      Weighted(Ret1y(x.info), x.amount, total);
      DivSum(ReturnSum(p), x.amount * Ret1y(x.info), total);
    }
  }

  lemma Weighted(y: real, a: real, d: real)
    requires d != 0.0
    ensures y * (a / d) == a * y / d
  {
  }

  lemma DivSum(a: real, b: real, d: real)
    requires d != 0.0
    ensures a / d + b / d == (a + b) / d
  {
  }

  /** With positive amounts the total is 0 exactly when nothing counts. */
  lemma {:induction false} TotalPositive(v: seq<Valid>)
    requires forall i :: 0 <= i < |v| ==> v[i].amount > 0.0
    ensures v == [] <==> Total(v) == 0.0
    ensures Total(v) >= 0.0
  {
    if v != [] {
      TotalPositive(v[..|v| - 1]);
    }
  }

  /** The weighted yield lies between the lowest and the highest yield held. */
  lemma YieldBetween(v: seq<Valid>, lo: real, hi: real)
    requires forall i :: 0 <= i < |v| ==> v[i].amount > 0.0 && lo <= v[i].info.yieldPct <= hi
    ensures lo * Total(v) <= YieldSum(v) <= hi * Total(v)
  {
    YieldAbove(v, lo);
    YieldBelow(v, hi);
  }

  lemma {:induction false} YieldAbove(v: seq<Valid>, lo: real)
    requires forall i :: 0 <= i < |v| ==> v[i].amount > 0.0 && lo <= v[i].info.yieldPct
    ensures lo * Total(v) <= YieldSum(v)
  {
    if v != [] {
      var x := v[|v| - 1];
      var p := v[..|v| - 1];
      var t, a, y := Total(p), x.amount, x.info.yieldPct;
      assert lo * t <= YieldSum(p) by {
        YieldAbove(p, lo);
      }
      assert lo * a <= a * y by {
        ScaleAbove(lo, y, a);
      }
      assert lo * Total(v) == lo * t + lo * a by {
        assert Total(v) == t + a;
        Distrib(lo, t, a);
      }
      assert YieldSum(v) == YieldSum(p) + a * y;
      AddLe(lo * t, YieldSum(p), lo * a, a * y, lo * Total(v), YieldSum(v));
    }
  }

  lemma {:induction false} YieldBelow(v: seq<Valid>, hi: real)
    requires forall i :: 0 <= i < |v| ==> v[i].amount > 0.0 && v[i].info.yieldPct <= hi
    ensures YieldSum(v) <= hi * Total(v)
  {
    if v != [] {
      var x := v[|v| - 1];
      var p := v[..|v| - 1];
      var t, a, y := Total(p), x.amount, x.info.yieldPct;
      assert YieldSum(p) <= hi * t by {
        YieldBelow(p, hi);
      }
      assert a * y <= hi * a by {
        ScaleBelow(y, hi, a);
      }
      assert hi * Total(v) == hi * t + hi * a by {
        assert Total(v) == t + a;
        Distrib(hi, t, a);
      }
      assert YieldSum(v) == YieldSum(p) + a * y;
      AddLe(YieldSum(p), hi * t, a * y, hi * a, YieldSum(v), hi * Total(v));
    }
  }

  /** Adding two inequalities side by side. */
  lemma AddLe(l1: real, m1: real, l2: real, m2: real, l: real, m: real)
    requires l1 <= m1 && l2 <= m2 && l == l1 + l2 && m == m1 + m2
    ensures l <= m
  {
  }

  lemma Distrib(c: real, u: real, w: real)
    ensures c * (u + w) == c * u + c * w
  {
  }

  lemma ScaleAbove(lo: real, y: real, a: real)
    requires lo <= y && a > 0.0
    ensures lo * a <= a * y
  {
  }

  lemma ScaleBelow(y: real, hi: real, a: real)
    requires y <= hi && a > 0.0
    ensures a * y <= hi * a
  {
  }

  /** The income of the summary: the yield sum as a percentage, and a twelfth
      of it per month. */
  lemma IncomeOf(total: real, wy: real, ys: real)
    requires total != 0.0 && wy == ys / total
    ensures total * (wy / 100.0) == ys / 100.0
    ensures total * (wy / 100.0) / 12.0 == ys / 1200.0
  {
  }

  /** The first loop of `calculate`: the holdings that count and their total. */
  method CollectValid(holdings: seq<Holding>, universe: map<string, Option<Info>>)
    returns (valid: seq<Valid>, total: real)
    ensures valid == ValidHoldings(holdings, universe)
    ensures total == Total(valid)
    ensures valid == [] <==> total == 0.0
  {
    valid := [];
    total := 0.0;
    for i := 0 to |holdings|
      invariant valid == ValidHoldings(holdings[..i], universe)
      invariant total == Total(valid)
    {
      assert holdings[..i + 1] == holdings[..i] + [holdings[i]];
      assert holdings[..i + 1][..i] == holdings[..i];
      var h := holdings[i];
      if h.ticker == "" || h.amount <= 0.0 {
        continue;
      }
      if h.ticker !in universe || universe[h.ticker].None? {
        continue;
      }
      valid := valid + [Valid(h.amount, universe[h.ticker].value)];
      total := total + h.amount;
    }
    assert holdings[..|holdings|] == holdings;
    TotalPositive(valid);
  }

  /** The second loop of `calculate`: the weighted yield and 1-year return. */
  method WeightedSums(valid: seq<Valid>, total: real) returns (wy: real, wr: real)
    requires total != 0.0
    ensures wy == YieldSum(valid) / total
    ensures wr == ReturnSum(valid) / total
  {
    wy, wr := 0.0, 0.0;
    for i := 0 to |valid|
      invariant wy == WeightedYield(valid[..i], total)
      invariant wr == WeightedReturn(valid[..i], total)
    {
      assert valid[..i + 1][..i] == valid[..i];
      var weight := valid[i].amount / total;
      wy := wy + valid[i].info.yieldPct * weight;
      wr := wr + Ret1y(valid[i].info) * weight;
    }
    assert valid[..|valid|] == valid;
    WeightedYieldIsAverage(valid, total);
    WeightedReturnIsAverage(valid, total);
  }

  /** `calculate`: the all-zero summary when nothing counts, else the total,
      the weighted figures and the income, spread evenly over 12 months. */
  method Calculate(holdings: seq<Holding>, universe: map<string, Option<Info>>) returns (s: Summary)
    ensures |s.monthlySimulation| == 12
    ensures forall i :: 0 <= i < 12 ==> s.monthlySimulation[i] == s.monthlyIncome
    ensures ValidHoldings(holdings, universe) == [] ==> s == ZeroSummary
    ensures var v := ValidHoldings(holdings, universe); var t := Total(v);
      v != [] ==> (t > 0.0 &&
        s.totalInvestment == Trunc(t) &&
        s.weightedYield == YieldSum(v) / t &&
        s.weightedReturn1y == ReturnSum(v) / t &&
        s.annualIncome == Trunc(YieldSum(v) / 100.0) &&
        s.monthlyIncome == Trunc(YieldSum(v) / 1200.0))
  {
    var valid, total := CollectValid(holdings, universe);
    if total == 0.0 {
      return ZeroSummary;
    }
    TotalPositive(valid);
    var wy, wr := WeightedSums(valid, total);
    var annual := total * (wy / 100.0);
    IncomeOf(total, wy, YieldSum(valid));
    var monthly := annual / 12.0;
    var m := Trunc(monthly);
    s := Summary(Trunc(total), wy, Trunc(annual), m, wr, [m, m, m, m, m, m, m, m, m, m, m, m]);
  }
}
