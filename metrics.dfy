/** The distribution figures `get_dividend_info_async` and
    `process_single_ticker` derive from a ticker's history
    (kr_etf_investor/loader.py): the trailing-twelve-month (TTM) scan, the
    payout frequency inferred from the two newest dates, the `recent x freq`
    estimate, and the TTM-then-estimate income precedence with its warning and
    label. Yields are exact quotients; the rounding to four or two places is
    not modelled. */
module DistributionMetrics {
  import opened Common
  import opened Sorting
  import opened DistributionHistory

  // ---------------------------------------------------------------- TTM scan

  /** The TTM window: ex-dates no older than 365 days before `today`. */
  predicate InWindow(r: Row, today: int) { r.date >= today - 365 }

  /** Sum, count and first in-window date of a scan. */
  datatype Ttm = Ttm(amount: int, count: nat, lastDate: Option<int>)

  /** The scan of the loop over `hist`, as far as it has gone: amount and count
      grow with every in-window row, the date is set by the first one. */
  function TtmOf(s: seq<Row>, today: int): (t: Ttm)
    ensures t.count <= |s|
    ensures t.lastDate.Some? <==> t.count > 0
  {
    if s == [] then Ttm(0, 0, None)
    else
      var t := TtmOf(s[..|s| - 1], today);
      var r := s[|s| - 1];
      if InWindow(r, today)
      then Ttm(t.amount + r.amount, t.count + 1, if t.lastDate.None? then Some(r.date) else t.lastDate)
      else t
  }

  /** The TTM loop: `dist_ttm_amount`, `dist_ttm_count`, `dist_ttm_last_date`. */
  method ScanTtm(hist: seq<Row>, today: int) returns (amount: int, count: nat, lastDate: Option<int>)
    ensures Ttm(amount, count, lastDate) == TtmOf(hist, today)
    ensures count == |Window(hist, today)| && amount == SumAmounts(Window(hist, today))
  {
    amount, count, lastDate := 0, 0, None;
    var i := 0;
    while i < |hist|
      invariant 0 <= i <= |hist|
      invariant Ttm(amount, count, lastDate) == TtmOf(hist[..i], today)
    {
      var r := hist[i];
      if r.date >= today - 365 {
        amount := amount + r.amount;
        count := count + 1;
        if lastDate.None? {
          lastDate := Some(r.date);
        }
      }
      assert hist[..i + 1][..i] == hist[..i];
      i := i + 1;
    }
    assert hist[..i] == hist;
    TtmAsFilter(hist, today);
  }

  /** The rows inside the window, in order: the reference definition. */
  function Window(s: seq<Row>, today: int): (w: seq<Row>)
    ensures forall r :: r in w <==> r in s && InWindow(r, today)
  {
    if s == [] then []
    else
      var init, r := s[..|s| - 1], s[|s| - 1];
      assert forall x :: x in s <==> x in init || x == r;
      Window(init, today) + (if InWindow(r, today) then [r] else [])
  }

  function SumAmounts(s: seq<Row>): int {
    if s == [] then 0 else SumAmounts(s[..|s| - 1]) + s[|s| - 1].amount
  }

  /** The scan counts and sums exactly the in-window rows, and its date is the
      first in-window row's. */
  lemma {:induction false} TtmAsFilter(s: seq<Row>, today: int)
    ensures TtmOf(s, today).count == |Window(s, today)|
    ensures TtmOf(s, today).amount == SumAmounts(Window(s, today))
    ensures TtmOf(s, today).lastDate == if Window(s, today) == [] then None else Some(Window(s, today)[0].date)
  {
    if s != [] {
      var init, r := s[..|s| - 1], s[|s| - 1];
      TtmAsFilter(init, today);
      if InWindow(r, today) {
        var w := Window(init, today);
        assert Window(s, today) == w + [r];
        assert (w + [r])[..|w + [r]| - 1] == w;
        assert SumAmounts(w + [r]) == SumAmounts(w) + r.amount;
        assert w != [] ==> (w + [r])[0] == w[0];
      } else {
        assert TtmOf(s, today) == TtmOf(init, today);
        assert Window(s, today) == Window(init, today) + [];
        assert Window(s, today) == Window(init, today);
      }
    }
  }

  /** No date exactly when nothing was counted. */
  lemma TtmDateIffCount(s: seq<Row>, today: int)
    ensures TtmOf(s, today).lastDate.None? <==> TtmOf(s, today).count == 0
  {
    TtmAsFilter(s, today);
  }

  /** On a history sorted newest first, the TTM date is the newest in-window
      date, and it lies in the window. */
  lemma TtmNewest(s: seq<Row>, today: int)
    requires SortedDesc(s, DateKey)
    requires TtmOf(s, today).lastDate.Some?
    ensures TtmOf(s, today).lastDate.value >= today - 365
    ensures forall r :: r in s && InWindow(r, today) ==> r.date <= TtmOf(s, today).lastDate.value
  {
    TtmAsFilter(s, today);
    var w := Window(s, today);
    assert w[0] in w;
    forall r | r in s && InWindow(r, today) ensures r.date <= w[0].date {
      var j :| 0 <= j < |s| && s[j] == r;
      var i := WindowFirst(s, today, j);
      assert DateKey(s[i]) >= DateKey(s[j]);
    }
  }

  /** The first in-window row sits no later than any in-window row. */
  lemma {:induction false} WindowFirst(s: seq<Row>, today: int, j: nat) returns (i: nat)
    requires j < |s| && InWindow(s[j], today)
    ensures Window(s, today) != [] && i <= j && Window(s, today)[0] == s[i]
  {
    var init, r := s[..|s| - 1], s[|s| - 1];
    var wi := Window(init, today);
    assert Window(s, today) == wi + (if InWindow(r, today) then [r] else []);
    if wi != [] {
      assert wi[0] in wi;
      var k :| 0 <= k < |init| && init[k] == wi[0];
      var i' := WindowFirst(init, today, if j == |s| - 1 then k else j);
      i := i';
      assert init[i] == s[i];
    } else {
      assert s[j] !in init;
      i := |s| - 1;
    }
  }

  lemma {:induction false} SumAmountsConcat(a: seq<Row>, b: seq<Row>)
    ensures SumAmounts(a + b) == SumAmounts(a) + SumAmounts(b)
    decreases |b|
  {
    if b == [] {
      assert a + b == a;
    } else {
      assert (a + b)[..|a + b| - 1] == a + b[..|b| - 1];
      SumAmountsConcat(a, b[..|b| - 1]);
    }
  }

  lemma {:induction false} WindowConcat(a: seq<Row>, b: seq<Row>, today: int)
    ensures Window(a + b, today) == Window(a, today) + Window(b, today)
    decreases |b|
  {
    if b == [] {
      assert a + b == a;
    } else {
      assert (a + b)[..|a + b| - 1] == a + b[..|b| - 1];
      WindowConcat(a, b[..|b| - 1], today);
    }
  }

  /** TTM amount and count do not depend on the order of the history. */
  lemma {:induction false} TtmOrderFree(a: seq<Row>, b: seq<Row>, today: int)
    requires multiset(a) == multiset(b)
    ensures TtmOf(a, today).amount == TtmOf(b, today).amount
    ensures TtmOf(a, today).count == TtmOf(b, today).count
  {
    TtmAsFilter(a, today);
    TtmAsFilter(b, today);
    WindowOrderFree(a, b, today);
  }

  lemma {:induction false} WindowOrderFree(a: seq<Row>, b: seq<Row>, today: int)
    requires multiset(a) == multiset(b)
    ensures |Window(a, today)| == |Window(b, today)|
    ensures SumAmounts(Window(a, today)) == SumAmounts(Window(b, today))
    decreases |a|
  {
    if a != [] {
      var init, x := a[..|a| - 1], a[|a| - 1];
      assert x in multiset(b);
      var i :| 0 <= i < |b| && b[i] == x;
      var b' := b[..i] + b[i + 1..];
      RemoveOne(a, b, i);
      WindowOrderFree(init, b', today);
      WindowSplit(init, x, today);
      WindowRemoveAt(b, i, today);
    }
  }

  /** Taking the last element of `a` and the same element out of `b` leaves
      two sequences with equal multisets. */
  lemma RemoveOne(a: seq<Row>, b: seq<Row>, i: nat)
    requires multiset(a) == multiset(b) && a != [] && i < |b| && b[i] == a[|a| - 1]
    ensures multiset(a[..|a| - 1]) == multiset(b[..i] + b[i + 1..])
  {
    var init, x := a[..|a| - 1], a[|a| - 1];
    var pre, post := b[..i], b[i + 1..];
    assert a == init + [x];
    assert b == pre + [x] + post;
    forall y ensures multiset(init)[y] == multiset(pre + post)[y] {
      assert multiset(a)[y] == multiset(init)[y] + multiset{x}[y];
      assert multiset(b)[y] == multiset(pre)[y] + multiset{x}[y] + multiset(post)[y];
      assert multiset(pre + post)[y] == multiset(pre)[y] + multiset(post)[y];
    }
  }

  function WindowOf(x: Row, today: int): seq<Row> { if InWindow(x, today) then [x] else [] }

  lemma WindowSplit(init: seq<Row>, x: Row, today: int)
    ensures Window(init + [x], today) == Window(init, today) + WindowOf(x, today)
    ensures SumAmounts(Window(init + [x], today)) == SumAmounts(Window(init, today)) + SumAmounts(WindowOf(x, today))
  {
    assert (init + [x])[..|init|] == init;
    SumAmountsConcat(Window(init, today), WindowOf(x, today));
  }

  lemma WindowRemoveAt(b: seq<Row>, i: nat, today: int)
    requires i < |b|
    ensures |Window(b, today)| == |Window(b[..i] + b[i + 1..], today)| + |WindowOf(b[i], today)|
    ensures SumAmounts(Window(b, today)) ==
      SumAmounts(Window(b[..i] + b[i + 1..], today)) + SumAmounts(WindowOf(b[i], today))
  {
    var pre, x, post := b[..i], b[i], b[i + 1..];
    assert b == (pre + [x]) + post;
    WindowConcat(pre + [x], post, today);
    WindowSplit(pre, x, today);
    WindowConcat(pre, post, today);
    var wp, wx, wq := Window(pre, today), WindowOf(x, today), Window(post, today);
    SumAmountsConcat(wp + wx, wq);
    SumAmountsConcat(wp, wx);
    SumAmountsConcat(wp, wq);
  }

  /** `dist_ttm_yield`: amount over price in percent, only with at least one
      in-window row and a positive price. */
  function TtmYield(amount: int, count: nat, price: int): (y: real)
    ensures count > 0 && price > 0 ==> y * price as real == amount as real * 100.0
    ensures count == 0 || price <= 0 ==> y == 0.0
    ensures amount >= 0 ==> y >= 0.0
  {
    if count > 0 && price > 0 then amount as real / price as real * 100.0 else 0.0
  }

  /** Rows 10, 100 and 400 days old of 100 won each, at a price of 1000: two
      rows in the window, 200 won, a yield of 20 percent, newest date 10 days
      ago. */
  lemma TtmExample(today: int)
    ensures var t := TtmOf([Row(today - 10, 100), Row(today - 100, 100), Row(today - 400, 100)], today);
      t == Ttm(200, 2, Some(today - 10)) && TtmYield(t.amount, t.count, 1000) == 20.0
  {
    var s1 := [Row(today - 10, 100)];
    assert s1[..0] == [];
    assert TtmOf(s1, today) == Ttm(100, 1, Some(today - 10));
    var s2 := s1 + [Row(today - 100, 100)];
    assert s2[..1] == s1;
    assert TtmOf(s2, today) == Ttm(200, 2, Some(today - 10));
    var s := s2 + [Row(today - 400, 100)];
    assert s[..2] == s2;
    assert s == [Row(today - 10, 100), Row(today - 100, 100), Row(today - 400, 100)];
    assert TtmOf(s, today) == Ttm(200, 2, Some(today - 10));
    assert 200 as real / 1000 as real == 0.2;
    assert TtmYield(200, 2, 1000) == 20.0;
  }

  // ---------------------------------------------------------------- frequency

  /** Payouts per year for a gap in days between the two newest payouts:
      monthly, quarterly, half-yearly or yearly bands, else unknown (0). */
  function GapFreq(gap: int): (f: int)
    ensures f == 0 || f == 1 || f == 2 || f == 4 || f == 12
    ensures f > 0 ==> 240 <= gap * f <= 480
    ensures 20 <= gap <= 40 <==> f == 12
    ensures 80 <= gap <= 110 <==> f == 4
    ensures 170 <= gap <= 200 <==> f == 2
    ensures 340 <= gap <= 380 <==> f == 1
  {
    if 20 <= gap <= 40 then 12
    else if 80 <= gap <= 110 then 4
    else if 170 <= gap <= 200 then 2
    else if 340 <= gap <= 380 then 1
    else 0
  }

  function Abs(x: int): nat { if x < 0 then -x else x }

  /** `dist_freq_1y` after inference: a frequency read from the fund page is
      kept; a missing one (0) is inferred from the gap between the first two
      rows when there are at least two. */
  function InferFreq(parsed: int, hist: seq<Row>): (f: int)
    ensures parsed != 0 || |hist| < 2 ==> f == parsed
    ensures parsed == 0 && |hist| >= 2 ==> f == GapFreq(Abs(hist[0].date - hist[1].date))
  {
    if parsed == 0 && |hist| >= 2 then GapFreq(Abs(hist[0].date - hist[1].date)) else parsed
  }

  /** The bands and the gaps between them. */
  lemma GapFreqBands()
    ensures GapFreq(30) == 12 && GapFreq(91) == 4 && GapFreq(182) == 2 && GapFreq(365) == 1
    ensures GapFreq(60) == 0 && GapFreq(0) == 0 && GapFreq(400) == 0
  {
  }

  /** Inference reads only the two newest payouts of a history: what comes
      after them and the order of the two do not matter, and two payouts a
      month apart give 12. */
  lemma InferFreqFromNewest(parsed: int, hist: seq<Row>)
    requires |hist| >= 2
    ensures InferFreq(parsed, hist) == InferFreq(parsed, hist[..2])
    ensures InferFreq(parsed, [hist[1], hist[0]] + hist[2..]) == InferFreq(parsed, hist)
    ensures parsed == 0 && 20 <= Abs(hist[0].date - hist[1].date) <= 40 ==> InferFreq(parsed, hist) == 12
  {
    var swapped := [hist[1], hist[0]] + hist[2..];
    assert swapped[0] == hist[1] && swapped[1] == hist[0];
  }

  // ---------------------------------------------------------------- estimate

  datatype Estimate = Estimate(amount: int, yieldPct: real, methodName: string)

  /** The `recent x freq` estimate: only without TTM rows and with a positive
      recent amount, frequency and price. */
  function EstimateOf(ttmCount: nat, recent: int, freq: int, price: int): (e: Estimate)
    ensures e.methodName == "recent_x_freq" <==> ttmCount == 0 && recent > 0 && freq > 0 && price > 0
    ensures e.methodName != "recent_x_freq" ==> e == Estimate(0, 0.0, "")
    ensures e.methodName == "recent_x_freq" ==>
      e.amount == recent * freq && e.amount > 0 && e.yieldPct > 0.0 &&
      e.yieldPct * price as real == e.amount as real * 100.0
  {
    if ttmCount == 0 && recent > 0 && freq > 0 && price > 0 then
      var amount := recent * freq;
      Estimate(amount, amount as real / price as real * 100.0, "recent_x_freq")
    else Estimate(0, 0.0, "")
  }

  /** 50 won monthly at a price of 1000: 600 won a year, 60 percent. */
  lemma EstimateExample()
    ensures EstimateOf(0, 50, 12, 1000) == Estimate(600, 60.0, "recent_x_freq")
  {
  }

  // ---------------------------------------------------------------- income precedence

  /** The distribution fields the per-ticker record is built from. */
  datatype DivInfo = DivInfo(ttmAmount: int, ttmCount: nat, ttmYield: real, estAmount: int, estYield: real)

  /** Builds the fields from a history the way `get_dividend_info_async` does. */
  function DivInfoOf(hist: seq<Row>, today: int, price: int, recent: int, parsedFreq: int): (d: DivInfo)
    ensures d.ttmCount > 0 ==> d.estAmount == 0 && d.estYield == 0.0
    ensures d.ttmCount == 0 ==> d.ttmAmount == 0 && d.ttmYield == 0.0
  {
    var t := TtmOf(hist, today);
    TtmAsFilter(hist, today);
    var e := EstimateOf(t.count, recent, InferFreq(parsedFreq, hist), price);
    DivInfo(t.amount, t.count, TtmYield(t.amount, t.count, price), e.amount, e.yieldPct)
  }

  /** `get_income_yield_annual`. */
  function IncomeYieldAnnual(d: DivInfo): (y: real)
    ensures y == 0.0 || (y > 0.0 && (y == d.ttmYield || y == d.estYield))
    ensures d.ttmYield > 0.0 ==> y == d.ttmYield
    ensures y == 0.0 <==> d.ttmYield <= 0.0 && d.estYield <= 0.0
  {
    if d.ttmYield > 0.0 then d.ttmYield
    else if d.estYield > 0.0 then d.estYield
    else 0.0
  }

  /** `get_income_amount_annual`. */
  function IncomeAmountAnnual(d: DivInfo): (a: int)
    ensures a == 0 || (a > 0 && (a == d.ttmAmount || a == d.estAmount))
    ensures d.ttmAmount > 0 ==> a == d.ttmAmount
    ensures a == 0 <==> d.ttmAmount <= 0 && d.estAmount <= 0
  {
    if d.ttmAmount > 0 then d.ttmAmount
    else if d.estAmount > 0 then d.estAmount
    else 0
  }

  /** `annual_yield_label`. */
  function YieldLabel(d: DivInfo): (l: string)
    ensures l == "TTM" <==> d.ttmYield > 0.0
    ensures l == "EST" <==> d.ttmYield <= 0.0 && d.estYield > 0.0
    ensures l == "NONE" <==> d.ttmYield <= 0.0 && d.estYield <= 0.0
  {
    if d.ttmYield > 0.0 then "TTM" else if d.estYield > 0.0 then "EST" else "NONE"
  }

  /** `dist_warning`. */
  function DistWarning(d: DivInfo): (w: bool)
    ensures w <==> d.ttmYield <= 0.0 && d.estYield <= 0.0
  {
    IncomeYieldAnnual(d) == 0.0
  }

  /** The warning is raised exactly when the label is NONE, and otherwise the
      yield used is the one the label names. */
  lemma WarningMatchesLabel(d: DivInfo)
    ensures DistWarning(d) <==> YieldLabel(d) == "NONE"
    ensures YieldLabel(d) == "TTM" ==> IncomeYieldAnnual(d) == d.ttmYield
    ensures YieldLabel(d) == "EST" ==> IncomeYieldAnnual(d) == d.estYield
  {
  }

  /** `monthly_income_est` before rounding. */
  function MonthlyIncomeEst(d: DivInfo): (m: real)
    ensures m * 12.0 == IncomeAmountAnnual(d) as real
  {
    var a := IncomeAmountAnnual(d);
    if a > 0 then a as real / 12.0 else 0.0
  }

  /** With TTM rows but no price the yield is 0 and the warning is raised,
      yet the annual income amount is the TTM amount. */
  lemma WarningWithIncome(today: int)
    ensures var d := DivInfoOf([Row(today, 100)], today, 0, 0, 0);
      DistWarning(d) && IncomeAmountAnnual(d) == 100
  {
    var s := [Row(today, 100)];
    assert s[..0] == [];
    assert TtmOf(s, today) == Ttm(100, 1, Some(today));
  }

  /** A history built from estimated figures only: no TTM row, recent 50 won,
      monthly, price 1000 gives the EST label and a 60 percent yield. */
  lemma EstimateUsed(today: int)
    ensures var d := DivInfoOf([], today, 1000, 50, 12);
      YieldLabel(d) == "EST" && IncomeYieldAnnual(d) == 60.0 && IncomeAmountAnnual(d) == 600
  {
    EstimateExample();
  }
}
