/** The market insight aggregations of services/insight.py: the sector
    rotation table (`get_sector_rotation`) and the capped net-buy ranking
    (`process_df` inside `get_supply_demand_ranking`). The pykrx calls that
    produce the frames are not modelled; a frame is a parameter. */
module Insight {
  import opened Common
  import opened Sorting

  // ---------------------------------------------------------------- sector rotation

  /** The sector of an ETF without one. */
  const DefaultSector: string := "기타"

  /** The classifier's "could not classify" label. */
  const Unclassified: string := "[기타] 분류미상"

  /** The group that unclassified and empty sectors are reported under. */
  const Ungrouped: string := "기타_미분류"

  /** The fields of one universe entry the rotation reads: the sector (None
      when the key is absent), the returns (None when absent or null), and
      the two yields (0 when absent). */
  datatype EtfData = EtfData(sector: Option<string>, return1m: Option<real>, return3m: Option<real>,
                             ttmYield: real, estYield: real)

  /** The sector an ETF is grouped under. */
  function SectorOf(d: EtfData): (s: string)
    ensures s != "" && s != Unclassified
    ensures d.sector.None? ==> s == DefaultSector
    ensures d.sector.Some? && d.sector.value != "" && d.sector.value != Unclassified ==> s == d.sector.value
    ensures d.sector == Some("") || d.sector == Some(Unclassified) ==> s == Ungrouped
  {
    var s := d.sector.GetOr(DefaultSector);
    if s == Unclassified || s == "" then Ungrouped else s
  }

  /** The yield an ETF contributes: the trailing yield when positive, else
      the estimated one. */
  function YieldOf(d: EtfData): (y: real)
    ensures d.ttmYield > 0.0 ==> y == d.ttmYield
    ensures d.ttmYield <= 0.0 ==> y == d.estYield
    ensures y > 0.0 <==> d.ttmYield > 0.0 || d.estYield > 0.0
  {
    if d.ttmYield > 0.0 then d.ttmYield else d.estYield
  }

  /** The running totals of one sector. */
  datatype Stat = Stat(count: nat, sum1m: real, sum3m: real, sumYear: real)

  const NoStat := Stat(0, 0.0, 0.0, 0.0)

  function AddTo(st: Stat, d: EtfData): Stat {
    Stat(st.count + 1, st.sum1m + d.return1m.GetOr(0.0), st.sum3m + d.return3m.GetOr(0.0), st.sumYear + YieldOf(d))
  }

  /** The totals after visiting the tickers `ts` in order. */
  function Tally(u: map<string, EtfData>, ts: seq<string>): map<string, Stat> {
    if ts == [] then map[]
    else
      var p := Tally(u, ts[..|ts| - 1]);
      var t := ts[|ts| - 1];
      if t !in u then p
      else
        var s := SectorOf(u[t]);
        p[s := AddTo(if s in p then p[s] else NoStat, u[t])]
  }

  lemma TallyStep(u: map<string, EtfData>, ts: seq<string>, i: nat)
    requires i < |ts| && ts[i] in u
    ensures var p, s := Tally(u, ts[..i]), SectorOf(u[ts[i]]);
      Tally(u, ts[..i + 1]) == p[s := AddTo(if s in p then p[s] else NoStat, u[ts[i]])]
  {
    assert ts[..i + 1][..i] == ts[..i];
  }

  /** The tickers among `ts` grouped under sector `s`. */
  function InSector(u: map<string, EtfData>, ts: seq<string>, s: string): set<string> {
    set t | t in ts && t in u && SectorOf(u[t]) == s
  }

  /** All the universe's tickers grouped under sector `s`. */
  function Members(u: map<string, EtfData>, s: string): set<string> {
    set t | t in u && SectorOf(u[t]) == s
  }

  lemma InSectorSnoc(u: map<string, EtfData>, p: seq<string>, x: string, s: string)
    requires x in u
    ensures InSector(u, p + [x], s) == InSector(u, p, s) + (if SectorOf(u[x]) == s then {x} else {})
  {
  }

  lemma InSectorSkip(u: map<string, EtfData>, p: seq<string>, x: string, s: string)
    requires x !in u
    ensures InSector(u, p + [x], s) == InSector(u, p, s)
  {
  }

  lemma InSectorAll(u: map<string, EtfData>, ts: seq<string>, s: string)
    requires forall t :: t in ts <==> t in u
    ensures InSector(u, ts, s) == Members(u, s)
  {
  }

  /** A sector is tallied exactly when some visited ticker is in it, and its
      count is the number of such tickers. */
  lemma {:induction false} TallyCounts(u: map<string, EtfData>, ts: seq<string>, s: string)
    requires Distinct(ts)
    ensures s in Tally(u, ts) <==> InSector(u, ts, s) != {}
    ensures s in Tally(u, ts) ==> Tally(u, ts)[s].count == |InSector(u, ts, s)|
  {
    if ts != [] {
      var n := |ts| - 1;
      var p, x := ts[..n], ts[n];
      DistinctPrefix(ts, n);
      NextIsNew(ts, n);
      TallyCounts(u, p, s);
      assert ts == p + [x];
      if x in u {
        InSectorSnoc(u, p, x, s);
        assert x !in InSector(u, p, s);
      } else {
        InSectorSkip(u, p, x, s);
      }
    }
  }

  lemma DistinctPrefix<T>(s: seq<T>, n: nat)
    requires Distinct(s) && n <= |s|
    ensures Distinct(s[..n])
  {
  }

  lemma NextIsNew<T>(s: seq<T>, i: nat)
    requires Distinct(s) && i < |s|
    ensures s[i] !in s[..i]
  {
  }

  /** One row of the result: the sector, its count and its averages. */
  datatype SectorRow = SectorRow(sector: string, count: nat, avg1m: real, avg3m: real, avgYield: real)

  function RowOf(s: string, st: Stat): SectorRow
    requires st.count > 0
  {
    var n := st.count as real;
    SectorRow(s, st.count, st.sum1m / n, st.sum3m / n, st.sumYear / n)
  }

  /** The rows for the sectors `ns`, in order, skipping empty totals. */
  function RowsFor(stats: map<string, Stat>, ns: seq<string>): seq<SectorRow> {
    if ns == [] then []
    else
      var s := ns[|ns| - 1];
      RowsFor(stats, ns[..|ns| - 1]) +
      if s in stats && stats[s].count > 0 then [RowOf(s, stats[s])] else []
  }

  lemma RowsForStep(stats: map<string, Stat>, ns: seq<string>, i: nat)
    requires i < |ns|
    ensures RowsFor(stats, ns[..i + 1]) ==
      RowsFor(stats, ns[..i]) + if ns[i] in stats && stats[ns[i]].count > 0 then [RowOf(ns[i], stats[ns[i]])] else []
  {
    assert ns[..i + 1][..i] == ns[..i];
  }

  /** The sum of the rows' counts. */
  function CountSum(rows: seq<SectorRow>): nat {
    if rows == [] then 0 else CountSum(rows[..|rows| - 1]) + rows[|rows| - 1].count
  }

  lemma {:induction false} CountSumConcat(a: seq<SectorRow>, b: seq<SectorRow>)
    ensures CountSum(a + b) == CountSum(a) + CountSum(b)
  {
    if b != [] {
      var n := |b| - 1;
      assert (a + b)[..|a| + n] == a + b[..n];
      CountSumConcat(a, b[..n]);
    } else {
      assert a + b == a;
    }
  }

  /** Taking one row out of a sequence takes it out of its multiset. */
  lemma RemoveRowMultiset(b: seq<SectorRow>, j: nat)
    requires j < |b|
    ensures multiset(b) == multiset(b[..j] + b[j + 1..]) + multiset{b[j]}
  {
    assert b == b[..j] + [b[j]] + b[j + 1..];
  }

  /** Taking one row out of a sequence takes its count off the sum. */
  lemma RemoveRowSum(b: seq<SectorRow>, j: nat)
    requires j < |b|
    ensures CountSum(b) == CountSum(b[..j] + b[j + 1..]) + b[j].count
  {
    var pre, post := b[..j], b[j + 1..];
    assert b == (pre + [b[j]]) + post;
    CountSumConcat(pre + [b[j]], post);
    assert CountSum(pre + [b[j]]) == CountSum(pre) + b[j].count by {
      assert (pre + [b[j]])[..|pre|] == pre;
    }
    CountSumConcat(pre, post);
  }

  /** The sum does not depend on the order of the rows. */
  lemma {:induction false} CountSumPerm(a: seq<SectorRow>, b: seq<SectorRow>)
    requires multiset(a) == multiset(b)
    ensures CountSum(a) == CountSum(b)
    decreases |a|
  {
    if a != [] {
      var n := |a| - 1;
      var x := a[n];
      assert a == a[..n] + [x];
      assert multiset(a) == multiset(a[..n]) + multiset{x};
      assert x in multiset(b);
      var j :| 0 <= j < |b| && b[j] == x;
      var rest := b[..j] + b[j + 1..];
      RemoveRowMultiset(b, j);
      RemoveRowSum(b, j);
      forall y
        ensures multiset(a[..n])[y] == multiset(rest)[y]
      {
        assert multiset(a)[y] == multiset(b)[y];
      }
      assert multiset(a[..n]) == multiset(rest);
      CountSumPerm(a[..n], rest);
    } else {
      assert b == [] by {
        assert |multiset(b)| == 0;
      }
    }
  }

  /** The tickers whose sector is among `ns`. */
  function Covered(u: map<string, EtfData>, ns: seq<string>): set<string> {
    set t | t in u && SectorOf(u[t]) in ns
  }

  lemma CoveredSnoc(u: map<string, EtfData>, p: seq<string>, s: string)
    ensures Covered(u, p + [s]) == Covered(u, p) + Members(u, s)
  {
  }

  lemma CoveredFresh(u: map<string, EtfData>, p: seq<string>, s: string)
    requires s !in p
    ensures Covered(u, p) * Members(u, s) == {}
  {
  }

  /** Counting sector by sector counts every ticker of the covered sectors
      once. */
  lemma {:induction false} RowsCount(u: map<string, EtfData>, stats: map<string, Stat>, ns: seq<string>)
    requires Distinct(ns)
    requires forall s :: s in stats ==> stats[s].count == |Members(u, s)|
    requires forall s :: s in ns ==> s in stats
    ensures CountSum(RowsFor(stats, ns)) == |Covered(u, ns)|
  {
    if ns != [] {
      var n := |ns| - 1;
      var p, s := ns[..n], ns[n];
      DistinctPrefix(ns, n);
      NextIsNew(ns, n);
      RowsCount(u, stats, p);
      assert ns == p + [s];
      CoveredSnoc(u, p, s);
      CoveredFresh(u, p, s);
      var last := if stats[s].count > 0 then [RowOf(s, stats[s])] else [];
      CountSumConcat(RowsFor(stats, p), last);
      if stats[s].count > 0 {
        assert [RowOf(s, stats[s])][..0] == [];
      } else {
        assert Members(u, s) == {};
      }
    }
  }

  /** Tallying the whole universe: every sector counts its members. */
  lemma TallyAll(u: map<string, EtfData>, order: seq<string>)
    requires Distinct(order) && forall t :: t in order <==> t in u
    ensures forall s :: s in Tally(u, order) <==> Members(u, s) != {}
    ensures forall s :: s in Tally(u, order) ==> Tally(u, order)[s].count == |Members(u, s)|
  {
    forall s
      ensures s in Tally(u, order) <==> Members(u, s) != {}
      ensures s in Tally(u, order) ==> Tally(u, order)[s].count == |Members(u, s)|
    {
      TallyCounts(u, order, s);
      InSectorAll(u, order, s);
    }
  }

  /** Every ticker of the universe falls in a tallied sector. */
  lemma CoveredAll(u: map<string, EtfData>, names: seq<string>)
    requires forall s :: s in names <==> Members(u, s) != {}
    ensures Covered(u, names) == u.Keys
  {
    forall t | t in u
      ensures t in Covered(u, names)
    {
      assert t in Members(u, SectorOf(u[t]));
    }
  }


  function Avg3m(r: SectorRow): real {
    r.avg3m
  }

  /** Row `x` reports the totals `stats` keep for its sector, and counts the
      universe's tickers in it. */
  ghost predicate Reports(u: map<string, EtfData>, stats: map<string, Stat>, x: SectorRow) {
    x.sector in stats && stats[x.sector].count > 0 &&
    x == RowOf(x.sector, stats[x.sector]) && x.count == |Members(u, x.sector)|
  }

  /** The rows report exactly the universe's sectors. */
  ghost predicate ReportsAll(u: map<string, EtfData>, stats: map<string, Stat>, rows: seq<SectorRow>) {
    (forall i :: 0 <= i < |rows| ==> Reports(u, stats, rows[i])) &&
    forall s :: (exists i :: 0 <= i < |rows| && rows[i].sector == s) <==> Members(u, s) != {}
  }

  datatype Rotation = NoData | Ranked(rows: seq<SectorRow>)

  /** `get_sector_rotation`: no data for an empty universe; otherwise one row
      per sector, in descending order of the 3-month average, each reporting
      the totals of the tickers grouped under it; the counts add up to the
      size of the universe. */
  method SectorRotation(u: map<string, EtfData>) returns (r: Rotation, ghost order: seq<string>)
    ensures r.NoData? <==> u == map[]
    ensures Distinct(order) && forall t :: t in order <==> t in u
    ensures r.Ranked? ==>
      SortedDesc(r.rows, Avg3m) && ReportsAll(u, Tally(u, order), r.rows) && CountSum(r.rows) == |u|
  {
    var tickers := KeysOf(u);
    order := tickers;
    if u == map[] {
      return NoData, order;
    }
    var stats: map<string, Stat> := map[];
    for i := 0 to |tickers|
      invariant stats == Tally(u, tickers[..i])
    {
      TallyStep(u, tickers, i);
      var t := tickers[i];
      var s := SectorOf(u[t]);
      var st := if s in stats then stats[s] else NoStat;
      stats := stats[s := AddTo(st, u[t])];
    }
    assert tickers[..|tickers|] == tickers;
    var names := KeysOf(stats);
    var rows: seq<SectorRow> := [];
    for i := 0 to |names|
      invariant rows == RowsFor(stats, names[..i])
    {
      RowsForStep(stats, names, i);
      var s := names[i];
      if stats[s].count > 0 {
        rows := rows + [RowOf(s, stats[s])];
      }
    }
    assert names[..|names|] == names;
    var sorted := SortDesc(rows, Avg3m);
    RankedRows(u, order, names, sorted);
    r := Ranked(sorted);
  }

  /** The sorted rows of all the tallied sectors report the universe. */
  lemma RankedRows(u: map<string, EtfData>, order: seq<string>, names: seq<string>, sorted: seq<SectorRow>)
    requires Distinct(order) && forall t :: t in order <==> t in u
    requires Distinct(names) && forall s :: s in names <==> s in Tally(u, order)
    requires sorted == SortDesc(RowsFor(Tally(u, order), names), Avg3m)
    ensures ReportsAll(u, Tally(u, order), sorted) && CountSum(sorted) == |u|
  {
    var stats := Tally(u, order);
    var rows := RowsFor(stats, names);
    TallyAll(u, order);
    RowsCount(u, stats, names);
    CoveredAll(u, names);
    RowsForFacts(u, stats, names);
    CountSumPerm(rows, sorted);
    SortedRowsFacts(rows, sorted, u, stats);
  }

  /** The rows built from the sectors `ns`. */
  lemma {:induction false} RowsForFacts(u: map<string, EtfData>, stats: map<string, Stat>, ns: seq<string>)
    requires forall s :: s in stats ==> stats[s].count == |Members(u, s)|
    ensures forall x :: x in RowsFor(stats, ns) ==> Reports(u, stats, x)
    ensures forall s :: s in ns && s in stats && stats[s].count > 0 ==>
      exists x :: x in RowsFor(stats, ns) && x.sector == s
  {
    if ns != [] {
      var n := |ns| - 1;
      var s := ns[n];
      RowsForFacts(u, stats, ns[..n]);
      assert ns == ns[..n] + [s];
      if s in stats && stats[s].count > 0 {
        assert RowOf(s, stats[s]) in RowsFor(stats, ns);
      }
    }
  }

  /** What the sort keeps of the rows. */
  lemma SortedRowsFacts(rows: seq<SectorRow>, sorted: seq<SectorRow>, u: map<string, EtfData>, stats: map<string, Stat>)
    requires multiset(sorted) == multiset(rows)
    requires forall s :: s in stats <==> Members(u, s) != {}
    requires forall s :: s in stats ==> stats[s].count == |Members(u, s)|
    requires forall x :: x in rows ==> Reports(u, stats, x)
    requires forall s :: s in stats && stats[s].count > 0 ==> exists x :: x in rows && x.sector == s
    ensures ReportsAll(u, stats, sorted)
  {
    forall i | 0 <= i < |sorted|
      ensures Reports(u, stats, sorted[i])
    {
      assert sorted[i] in multiset(sorted);
    }
    forall s | Members(u, s) != {}
      ensures exists i :: 0 <= i < |sorted| && sorted[i].sector == s
    {
      var x :| x in rows && x.sector == s;
      assert x in multiset(sorted);
      var i :| 0 <= i < |sorted| && sorted[i] == x;
    }
  }

  /** A sector of one ticker reports that ticker's returns and yield: the
      trailing yield when positive, else the estimate. */
  lemma SingleTickerSector(u: map<string, EtfData>, order: seq<string>, t: string)
    requires Distinct(order) && (forall x :: x in order <==> x in u) && t in u
    requires Members(u, SectorOf(u[t])) == {t}
    ensures var s := SectorOf(u[t]);
      s in Tally(u, order) && Tally(u, order)[s].count == 1 &&
      RowOf(s, Tally(u, order)[s]) ==
        SectorRow(s, 1, u[t].return1m.GetOr(0.0), u[t].return3m.GetOr(0.0),
                  if u[t].ttmYield > 0.0 then u[t].ttmYield else u[t].estYield)
  {
    TallyAlone(u, order, t);
  }

  /** The totals of a sector that only `t` belongs to are `t`'s own. */
  lemma {:induction false} TallyAlone(u: map<string, EtfData>, ts: seq<string>, t: string)
    requires Distinct(ts)
    requires t in u && Members(u, SectorOf(u[t])) == {t}
    ensures SectorOf(u[t]) in Tally(u, ts) <==> t in ts
    ensures t in ts ==> Tally(u, ts)[SectorOf(u[t])] == AddTo(NoStat, u[t])
  {
    if ts != [] {
      var n := |ts| - 1;
      var p, x := ts[..n], ts[n];
      DistinctPrefix(ts, n);
      NextIsNew(ts, n);
      TallyAlone(u, p, t);
      assert ts == p + [x];
      if x in u && SectorOf(u[x]) == SectorOf(u[t]) {
        assert x in Members(u, SectorOf(u[t]));
      }
    }
  }

  // ---------------------------------------------------------------- net-buy ranking

  /** The column `process_df` ranks by. */
  const NetBuyColumn: string := "순매수거래대금"

  /** How many entries a ranking keeps at most. */
  const TopCount: nat := 10

  /** One row of a net-purchase frame: ticker (the index), name and net
      purchase amount. */
  datatype FrameRow = FrameRow(ticker: string, name: string, netBuy: int)

  /** A frame from pykrx: its column names and its rows. */
  datatype Frame = Frame(columns: set<string>, rows: seq<FrameRow>)

  datatype TopEntry = TopEntry(ticker: string, name: string, netBuy: int, kind: string)

  function NetBuyKey(r: FrameRow): real {
    r.netBuy as real
  }

  function EntryOf(r: FrameRow, kind: string): TopEntry {
    TopEntry(r.ticker, r.name, r.netBuy, kind)
  }

  /** The entries the loop takes from the sorted rows: it stops at the first
      row that is not a net purchase or once `room` entries are taken, and
      skips rows outside a non-empty universe. */
  function Top(rows: seq<FrameRow>, universe: set<string>, kind: string, room: nat): (top: seq<TopEntry>)
    ensures |top| <= room
    ensures forall i :: 0 <= i < |top| ==> top[i].netBuy > 0 && top[i].kind == kind
    ensures universe != {} ==> forall i :: 0 <= i < |top| ==> top[i].ticker in universe
  {
    if rows == [] || room == 0 || rows[0].netBuy <= 0 then []
    else if universe != {} && rows[0].ticker !in universe then Top(rows[1..], universe, kind, room)
    else [EntryOf(rows[0], kind)] + Top(rows[1..], universe, kind, room - 1)
  }

  /** Entries taken from rows below `bound` are below it. */
  lemma {:induction false} TopBelow(rows: seq<FrameRow>, universe: set<string>, kind: string, room: nat, bound: int)
    requires forall j :: 0 <= j < |rows| ==> rows[j].netBuy <= bound
    ensures forall e :: e in Top(rows, universe, kind, room) ==> e.netBuy <= bound
  {
    if rows != [] && room > 0 && rows[0].netBuy > 0 {
      var skip := universe != {} && rows[0].ticker !in universe;
      TopBelow(rows[1..], universe, kind, if skip then room else room - 1, bound);
    }
  }

  /** Entries in descending order of net purchase. */
  predicate NetBuyDescending(top: seq<TopEntry>) {
    forall i, j :: 0 <= i < j < |top| ==> top[i].netBuy >= top[j].netBuy
  }

  /** From rows in descending order the entries come out in descending order. */
  lemma {:induction false} TopDescending(rows: seq<FrameRow>, universe: set<string>, kind: string, room: nat)
    requires SortedDesc(rows, NetBuyKey)
    ensures NetBuyDescending(Top(rows, universe, kind, room))
  {
    if rows != [] && room > 0 && rows[0].netBuy > 0 {
      var skip := universe != {} && rows[0].ticker !in universe;
      var room' := if skip then room else room - 1;
      var tail := rows[1..];
      assert SortedDesc(tail, NetBuyKey);
      TopDescending(tail, universe, kind, room');
      if !skip {
        forall j | 0 <= j < |tail|
          ensures tail[j].netBuy <= rows[0].netBuy
        {
          assert NetBuyKey(rows[0]) >= NetBuyKey(rows[j + 1]);
        }
        TopBelow(tail, universe, kind, room', rows[0].netBuy);
        var rest := Top(tail, universe, kind, room');
        var top := Top(rows, universe, kind, room);
        assert top == [EntryOf(rows[0], kind)] + rest;
        assert NetBuyDescending(rest);
        forall i, j | 0 <= i < j < |top|
          ensures top[i].netBuy >= top[j].netBuy
        {
          assert top[j] == rest[j - 1] && rest[j - 1] in rest;
          if i > 0 {
            assert top[i] == rest[i - 1];
            assert rest[i - 1].netBuy >= rest[j - 1].netBuy;
          } else {
            assert rest[j - 1].netBuy <= rows[0].netBuy;
          }
        }
      } else {
        assert Top(rows, universe, kind, room) == Top(tail, universe, kind, room');
      }
    }
  }

  /** One step of the loop over the sorted rows. */
  lemma TopUnfold(rows: seq<FrameRow>, i: nat, universe: set<string>, kind: string, room: nat)
    requires i < |rows| && room > 0 && rows[i].netBuy > 0
    ensures Top(rows[i..], universe, kind, room) ==
      if universe != {} && rows[i].ticker !in universe then Top(rows[i + 1..], universe, kind, room)
      else [EntryOf(rows[i], kind)] + Top(rows[i + 1..], universe, kind, room - 1)
  {
    assert rows[i..][1..] == rows[i + 1..];
  }

  /** Skipping a row outside the universe leaves the entries still to take. */
  lemma TopSkips(all: seq<TopEntry>, top: seq<TopEntry>, rows: seq<FrameRow>, i: nat,
                 universe: set<string>, kind: string, room: nat)
    requires i < |rows| && room > 0 && rows[i].netBuy > 0
    requires universe != {} && rows[i].ticker !in universe
    requires all == top + Top(rows[i..], universe, kind, room)
    ensures all == top + Top(rows[i + 1..], universe, kind, room)
  {
    TopUnfold(rows, i, universe, kind, room);
  }

  /** Taking a row moves its entry from the rest to the entries taken. */
  lemma TopTakes(all: seq<TopEntry>, top: seq<TopEntry>, rows: seq<FrameRow>, i: nat,
                 universe: set<string>, kind: string, room: nat)
    requires i < |rows| && room > 0 && rows[i].netBuy > 0
    requires !(universe != {} && rows[i].ticker !in universe)
    requires all == top + Top(rows[i..], universe, kind, room)
    ensures all == (top + [EntryOf(rows[i], kind)]) + Top(rows[i + 1..], universe, kind, room - 1)
  {
    TopUnfold(rows, i, universe, kind, room);
  }

  /** The loop stops at the first row that is not a net purchase. */
  lemma TopStops(rows: seq<FrameRow>, i: nat, universe: set<string>, kind: string, room: nat)
    requires i < |rows| && rows[i].netBuy <= 0
    ensures Top(rows[i..], universe, kind, room) == []
  {
  }

  /** `process_df`: no frame, an empty frame or one without the net-buy
      column gives no entries; otherwise the rows sorted by net purchase,
      descending, and taken as `Top` takes them, at most ten. */
  method ProcessFrame(df: Option<Frame>, universe: set<string>, kind: string) returns (top: seq<TopEntry>)
    ensures df.None? || df.value.rows == [] || NetBuyColumn !in df.value.columns ==> top == []
    ensures df.Some? && df.value.rows != [] && NetBuyColumn in df.value.columns ==>
      top == Top(SortDesc(df.value.rows, NetBuyKey), universe, kind, TopCount)
  {
    if df.None? || df.value.rows == [] {
      return [];
    }
    if NetBuyColumn !in df.value.columns {
      return [];
    }
    var sorted := SortDesc(df.value.rows, NetBuyKey);
    top := TakeTop(sorted, universe, kind);
  }

  /** The loop of `process_df` over the sorted rows: stop at the first row
      that is not a net purchase, skip rows outside a non-empty universe,
      stop once ten entries are taken. */
  method TakeTop(sorted: seq<FrameRow>, universe: set<string>, kind: string) returns (top: seq<TopEntry>)
    ensures top == Top(sorted, universe, kind, TopCount)
  {
    ghost var all := Top(sorted, universe, kind, TopCount);
    top := [];
    ghost var room: nat := TopCount;
    var i := 0;
    while i < |sorted|
      invariant 0 <= i <= |sorted| && |top| + room == TopCount && room > 0
      invariant all == top + Top(sorted[i..], universe, kind, room)
    {
      var row := sorted[i];
      if row.netBuy <= 0 {
        TopStops(sorted, i, universe, kind, room);
        assert all == top + [];
        break;
      }
      if universe != {} && row.ticker !in universe {
        TopSkips(all, top, sorted, i, universe, kind, room);
        i := i + 1;
        continue;
      }
      TopTakes(all, top, sorted, i, universe, kind, room);
      top := top + [EntryOf(row, kind)];
      room := room - 1;
      if |top| >= TopCount {
        assert all == top + [];
        break;
      }
      i := i + 1;
    }
    if i == |sorted| {
      assert sorted[i..] == [];
      assert all == top + [];
    }
  }

  /** The ranking keeps at most ten net purchases, largest first, and only
      tickers of a non-empty universe. */
  lemma RankingShape(df: Frame, universe: set<string>, kind: string)
    ensures var top := Top(SortDesc(df.rows, NetBuyKey), universe, kind, TopCount);
      |top| <= 10 &&
      (forall i :: 0 <= i < |top| ==> top[i].netBuy > 0) &&
      NetBuyDescending(top) &&
      (universe != {} ==> forall i :: 0 <= i < |top| ==> top[i].ticker in universe)
  {
    TopDescending(SortDesc(df.rows, NetBuyKey), universe, kind, TopCount);
  }
}
