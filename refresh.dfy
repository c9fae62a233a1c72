/** One refresh run of the universe file (kr_etf_investor/loader.py):
    which tickers `process_tickers_async` processes (full-update detection,
    the discovery union and the "must be a listed ETF" filter), the results
    its completion loop collects together with the progress percentages it
    reports, and how `load_data` picks its ticker list, rebuilds past prices
    from the cache and merges the results into the stored universe unless
    the run was stopped. The per-ticker work (`process_single_ticker`) is the
    parameter `run`; tasks are taken to complete in list order. */
module Refresh {
  import opened Common

  // ---------------------------------------------------------------- selection

  /** A full update: more than 50 tickers, none at all, or one the master
      price table does not know (a possible new listing). */
  predicate IsFullUpdate(tickers: seq<string>, known: set<string>) {
    |tickers| > 50 || tickers == [] || exists t :: t in tickers && t !in known
  }

  /** Discovery replaces the ticker list: a full update with a non-empty
      discovery map that lists a ticker the input lacks. */
  predicate Discovers(tickers: seq<string>, known: set<string>, listed: set<string>) {
    IsFullUpdate(tickers, known) && listed != {} && exists t :: t in listed && t !in tickers
  }

  /** The tickers of `s` in `keep`, in order, repeats kept. */
  function FilterIn(s: seq<string>, keep: set<string>): (r: seq<string>)
    ensures forall t :: t in r <==> t in s && t in keep
    ensures |r| <= |s|
  {
    if s == [] then []
    else
      var p := FilterIn(s[..|s| - 1], keep);
      assert forall t :: t in s <==> t in s[..|s| - 1] || t == s[|s| - 1];
      if s[|s| - 1] in keep then p + [s[|s| - 1]] else p
  }

  /** Filtering works piece by piece, so the kept tickers stay in order. */
  lemma {:induction false} FilterInConcat(a: seq<string>, b: seq<string>, keep: set<string>)
    ensures FilterIn(a + b, keep) == FilterIn(a, keep) + FilterIn(b, keep)
    decreases |b|
  {
    if b == [] {
      assert a + b == a;
    } else {
      var c := b[..|b| - 1];
      assert (a + b)[..|a + b| - 1] == a + c;
      FilterInConcat(a, c, keep);
    }
  }

  /** A single ticker is kept exactly when it is in the set. */
  lemma FilterInOne(t: string, keep: set<string>)
    ensures FilterIn([t], keep) == if t in keep then [t] else []
  {
    assert [t][..0] == [];
  }

  /** Filtering a list whose tickers are all kept changes nothing. */
  lemma {:induction false} FilterInAll(s: seq<string>, keep: set<string>)
    requires forall t :: t in s ==> t in keep
    ensures FilterIn(s, keep) == s
  {
    if s != [] {
      FilterInAll(s[..|s| - 1], keep);
      assert s == s[..|s| - 1] + [s[|s| - 1]];
    }
  }

  /** Filtering keeps a list free of repeats. */
  lemma {:induction false} FilterInDistinct(s: seq<string>, keep: set<string>)
    requires Distinct(s)
    ensures Distinct(FilterIn(s, keep))
  {
    if s != [] {
      var t := s[..|s| - 1];
      assert Distinct(t);
      FilterInDistinct(t, keep);
      assert s[|s| - 1] !in t;
    }
  }

  /** The ticker list before the filter: the input, or after a discovery
      every input and every listed ticker once, in an unspecified order. */
  method Candidates<R>(tickers: seq<string>, known: set<string>, listed: map<string, R>)
    returns (candidates: seq<string>)
    ensures !Discovers(tickers, known, listed.Keys) ==> candidates == tickers
    ensures Discovers(tickers, known, listed.Keys) ==>
      Distinct(candidates) && forall t :: t in candidates <==> t in tickers || t in listed
  {
    candidates := tickers;
    if IsFullUpdate(tickers, known) && |listed| > 0 {
      var inputSet := set t | t in tickers;
      var newDiscoveries := listed.Keys - inputSet;
      if newDiscoveries != {} {
        var t :| t in newDiscoveries;
        assert t in listed && t !in tickers;
        candidates := ElementsOf(inputSet + listed.Keys);
      } else {
        assert !Discovers(tickers, known, listed.Keys) by {
          forall t | t in listed ensures t in tickers {
            assert t !in newDiscoveries;
          }
        }
      }
    }
  }

  /** The filter loop: the candidates in the discovery map, in order. */
  method KeepListed<R>(candidates: seq<string>, listed: map<string, R>) returns (valid: seq<string>)
    ensures valid == FilterIn(candidates, listed.Keys)
  {
    valid := [];
    for i := 0 to |candidates|
      invariant valid == FilterIn(candidates[..i], listed.Keys)
    {
      assert candidates[..i + 1] == candidates[..i] + [candidates[i]];
      if candidates[i] in listed {
        valid := valid + [candidates[i]];
      }
    }
    assert candidates[..|candidates|] == candidates;
  }

  /** The tickers `process_tickers_async` processes, in order: the candidates
      that are in the discovery map `listed`. */
  method SelectValid<R>(tickers: seq<string>, known: set<string>, listed: map<string, R>)
    returns (valid: seq<string>)
    ensures forall t :: t in valid ==> t in listed
    ensures !Discovers(tickers, known, listed.Keys) ==> valid == FilterIn(tickers, listed.Keys)
    ensures Discovers(tickers, known, listed.Keys) ==>
      Distinct(valid) && forall t :: t in valid <==> t in listed
  {
    var candidates := Candidates(tickers, known, listed);
    valid := KeepListed(candidates, listed);
    if Discovers(tickers, known, listed.Keys) {
      FilterInDistinct(candidates, listed.Keys);
    }
  }

  /** A partial update is 1 to 50 tickers the price table knows, and never
      grows by discovery. */
  lemma PartialUpdateStaysSmall<R>(tickers: seq<string>, known: set<string>, listed: map<string, R>)
    requires !IsFullUpdate(tickers, known)
    ensures 1 <= |tickers| <= 50 && forall t :: t in tickers ==> t in known
    ensures !Discovers(tickers, known, listed.Keys)
  {
  }

  // ---------------------------------------------------------------- progress

  /** `int(done / total * 100)`: the percentage of completed tasks, rounded
      down. */
  function ProgressPct(done: nat, total: nat): (p: int)
    requires total > 0
    ensures done <= total ==> 0 <= p <= 100
    ensures done <= total ==> (p == 100 <==> done == total)
    ensures p * total <= done * 100 < (p + 1) * total
  {
    FloorPct(done, total);
    done * 100 / total
  }

  lemma FloorPct(done: nat, total: nat)
    requires total > 0
    ensures var p := done * 100 / total;
      p * total <= done * 100 < (p + 1) * total &&
      (done <= total ==> 0 <= p <= 100 && (p == 100 <==> done == total))
  {
    var a := done * 100;
    var p := a / total;
    DivBounds(a, total);
    if done <= total {
      MulMono(done, total, 100);
      if p > 100 {
        MulMono(101, p, total);
      }
      if done == total && p < 100 {
        MulMono(p + 1, 100, total);
      }
      if done < total {
        MulMono(done + 1, total, 100);
        if p >= 100 {
          MulMono(100, p, total);
        }
      }
    }
  }

  /** The quotient of Euclidean division brackets the dividend. */
  lemma DivBounds(a: nat, t: nat)
    requires t > 0
    ensures 0 <= a / t && (a / t) * t <= a < (a / t + 1) * t
  {
    var p, m := a / t, a % t;
    assert a == p * t + m && 0 <= m < t;
    assert (p + 1) * t == p * t + t;
  }

  lemma MulMono(x: int, y: int, k: nat)
    requires x <= y
    ensures x * k <= y * k
  {
  }

  /** More completed tasks never lower the percentage. */
  lemma ProgressMonotone(d1: nat, d2: nat, total: nat)
    requires total > 0 && d1 <= d2
    ensures ProgressPct(d1, total) <= ProgressPct(d2, total)
  {
    var p1, p2 := ProgressPct(d1, total), ProgressPct(d2, total);
    assert p1 * total <= d1 * 100 <= d2 * 100 < (p2 + 1) * total;
    MulCancel(p1, p2 + 1, total);
  }

  lemma MulCancel(x: int, y: int, k: nat)
    requires k > 0 && x * k < y * k
    ensures x < y
  {
  }

  // ---------------------------------------------------------------- collection

  /** The results map after the completions `done`, a completion carrying the
      ticker and its record, or nothing when that ticker's job failed. */
  function Collected<R>(done: seq<Option<(string, R)>>): map<string, R> {
    if done == [] then map[]
    else
      var m := Collected(done[..|done| - 1]);
      match done[|done| - 1]
      case Some(p) => m[p.0 := p.1]
      case None => m
  }

  /** A ticker has a result exactly when one of its completions carried one,
      and it holds the record of the last such completion. */
  lemma {:induction false} CollectedMeans<R>(done: seq<Option<(string, R)>>, t: string)
    ensures t in Collected(done) <==> exists i :: 0 <= i < |done| && done[i].Some? && done[i].value.0 == t
    ensures forall i ::
      (0 <= i < |done| && done[i].Some? && done[i].value.0 == t &&
       forall j :: i < j < |done| && done[j].Some? ==> done[j].value.0 != t) ==>
      t in Collected(done) && Collected(done)[t] == done[i].value.1
  {
    if done != [] {
      var n := |done| - 1;
      var pre := done[..n];
      CollectedMeans(pre, t);
      assert forall i :: 0 <= i < n ==> pre[i] == done[i];
    }
  }

  /** The number of completions the loop handles before the stop flag, found
      set ahead of completion `stopAt`, ends it. */
  function Handled(count: nat, stopAt: Option<nat>): (h: nat)
    ensures h <= count
    ensures stopAt.None? ==> h == count
    ensures stopAt.Some? ==> h == if stopAt.value < count then stopAt.value else count
  {
    match stopAt
    case Some(s) => if s < count then s else count
    case None => count
  }

  /** The completion loop of `process_tickers_async`: until the stop flag is
      seen, each completion is counted, its result stored under its ticker,
      and the progress percentage reported. */
  method CollectResults<R>(done: seq<Option<(string, R)>>, stopAt: Option<nat>)
    returns (results: map<string, R>, count: nat, progress: seq<int>)
    ensures count == Handled(|done|, stopAt)
    ensures results == Collected(done[..count])
    ensures |progress| == count
    ensures forall i :: 0 <= i < count ==> progress[i] == ProgressPct(i + 1, |done|)
    ensures forall i :: 0 <= i < count ==> 0 <= progress[i] <= 100
    ensures count == |done| && count > 0 ==> progress[count - 1] == 100
  {
    results := map[];
    count := 0;
    progress := [];
    while count < |done|
      invariant count <= Handled(|done|, stopAt)
      invariant results == Collected(done[..count])
      invariant |progress| == count
      invariant forall i :: 0 <= i < count ==> progress[i] == ProgressPct(i + 1, |done|)
    {
      if stopAt.Some? && stopAt.value <= count {
        break;
      }
      var res := done[count];
      assert done[..count + 1][..count] == done[..count];
      count := count + 1;
      if res.Some? {
        results := results[res.value.0 := res.value.1];
      }
      progress := progress + [ProgressPct(count, |done|)];
    }
  }

  /** `process_tickers_async` after the discovery fetch: the selected tickers,
      run one by one until the stop flag, with their results keyed by ticker.
      Nothing selected gives no results. */
  method ProcessTickers<R, D>(tickers: seq<string>, known: set<string>, listed: map<string, D>,
                              run: string -> Option<R>, stopAt: Option<nat>)
    returns (results: map<string, R>)
    ensures forall t :: t in results ==> t in listed && run(t).Some? && results[t] == run(t).value
    ensures stopAt.None? ==> forall t ::
      (t in listed && run(t).Some? && (t in tickers || Discovers(tickers, known, listed.Keys))) ==>
      t in results
    ensures forall t :: t in results ==> t in tickers || Discovers(tickers, known, listed.Keys)
    ensures !Discovers(tickers, known, listed.Keys) && (forall t :: t in tickers ==> t !in listed) ==>
      results == map[]
  {
    var valid := SelectValid(tickers, known, listed);
    if valid == [] {
      return map[];
    }
    var done := seq(|valid|, i requires 0 <= i < |valid| =>
                      if run(valid[i]).Some? then Some((valid[i], run(valid[i]).value)) else None);
    var count, progress;
    results, count, progress := CollectResults(done, stopAt);
    forall t | t in results
      ensures t in listed && run(t).Some? && results[t] == run(t).value
      ensures t in tickers || Discovers(tickers, known, listed.Keys)
    {
      CollectedMeans(done[..count], t);
      var i :| 0 <= i < count && done[..count][i].Some? && done[..count][i].value.0 == t;
      var j := LastFor(done[..count], t, i);
      assert valid[j] == t;
    }
    if stopAt.None? {
      assert done[..count] == done;
      forall t | t in listed && run(t).Some? && (t in tickers || Discovers(tickers, known, listed.Keys))
        ensures t in results
      {
        if !Discovers(tickers, known, listed.Keys) {
          assert t in FilterIn(tickers, listed.Keys);
        }
        var i :| 0 <= i < |valid| && valid[i] == t;
        assert done[i].Some? && done[i].value.0 == t;
        CollectedMeans(done, t);
      }
    }
  }

  /** The last completion at or after `i` carrying ticker `t`. */
  lemma {:induction false} LastFor<R>(done: seq<Option<(string, R)>>, t: string, i: nat) returns (j: nat)
    requires i < |done| && done[i].Some? && done[i].value.0 == t
    ensures i <= j < |done| && done[j].Some? && done[j].value.0 == t
    ensures forall k :: j < k < |done| && done[k].Some? ==> done[k].value.0 != t
    ensures t in Collected(done)
    ensures Collected(done)[t] == done[j].value.1
    decreases |done| - i
  {
    if exists k :: i < k < |done| && done[k].Some? && done[k].value.0 == t {
      var k :| i < k < |done| && done[k].Some? && done[k].value.0 == t;
      j := LastFor(done, t, k);
    } else {
      j := i;
    }
    CollectedMeans(done, t);
  }

  // ---------------------------------------------------------------- load_data

  /** The tickers `load_data` hands on: every ticker of the price table, or,
      for a targeted refresh, the non-empty targets in order. */
  function TargetList(master: seq<string>, targets: seq<string>): (r: seq<string>)
    ensures targets == [] ==> r == master
    ensures targets != [] ==> forall t :: t in r <==> t in targets && t != ""
    ensures targets != [] ==> |r| <= |targets|
  {
    if targets == [] then master else NonEmpty(targets)
  }

  function NonEmpty(s: seq<string>): (r: seq<string>)
    ensures forall t :: t in r <==> t in s && t != ""
    ensures |r| <= |s|
  {
    if s == [] then []
    else
      var p := NonEmpty(s[..|s| - 1]);
      assert forall t :: t in s <==> t in s[..|s| - 1] || t == s[|s| - 1];
      if s[|s| - 1] != "" then p + [s[|s| - 1]] else p
  }

  /** Dropping the empty targets of two lists one after the other is dropping
      them from the whole list, so the comprehension keeps order and repeats. */
  lemma {:induction false} NonEmptyConcat(a: seq<string>, b: seq<string>)
    ensures NonEmpty(a + b) == NonEmpty(a) + NonEmpty(b)
    decreases |b|
  {
    if b == [] {
      assert a + b == a;
    } else {
      var b' := b[..|b| - 1];
      assert (a + b)[..|a + b| - 1] == a + b';
      NonEmptyConcat(a, b');
    }
  }

  /** One target survives exactly when it is not empty. */
  lemma NonEmptyOne(x: string)
    ensures NonEmpty([x]) == if x != "" then [x] else []
  {
    assert [x][..0] == [];
  }

  /** A past price rebuilt from a cached price `p` and return `r` in percent:
      `int(p / (1 + r / 100))`, or 0 (a missing price) when either is 0 or the
      price is not positive. A return of -100 divides by zero; the raised
      error ends the load, shown as None. */
  function FallbackPast(p: real, r: real): (v: Option<int>)
    ensures p <= 0.0 || r == 0.0 ==> v == Some(0)
    ensures v.None? <==> p > 0.0 && r == -100.0
    ensures p > 0.0 && r != 0.0 && r != -100.0 ==>
      v.Some? && v.value == Trunc(p / (1.0 + r / 100.0))
    ensures p > 0.0 && r > 0.0 ==> v.Some? && 0 <= v.value && v.value as real < p
    ensures p > 0.0 && -100.0 < r < 0.0 ==> v.Some? && v.value as real > p - 1.0
  {
    if p > 0.0 && r != 0.0 then
      var d := 1.0 + r / 100.0;
      if d == 0.0 then None
      else
        ScaledBelowAbove(p, d);
        Some(Trunc(p / d))
    else Some(0)
  }

  /** Dividing a positive price by more than 1 lowers it, by less than 1
      raises it. */
  lemma ScaledBelowAbove(p: real, d: real)
    requires p > 0.0 && d != 0.0
    ensures d > 1.0 ==> p / d < p
    ensures 0.0 < d < 1.0 ==> p / d > p
  {
    var q := p / d;
    assert q * d == p;
    if d > 1.0 {
      assert q > 0.0;
      assert q * d > q * 1.0;
    } else if 0.0 < d < 1.0 {
      assert q > 0.0;
      assert q * d < q * 1.0;
    }
  }

  /** The fallback column of one horizon: a rebuilt past price per cached
      ticker, or None when one of them raises. */
  method FallbackColumn(cached: seq<(real, real)>) returns (vals: Option<seq<int>>)
    ensures vals.None? <==> exists i :: 0 <= i < |cached| && FallbackPast(cached[i].0, cached[i].1).None?
    ensures vals.Some? ==> (|vals.value| == |cached| &&
      forall i :: 0 <= i < |cached| ==> Some(vals.value[i]) == FallbackPast(cached[i].0, cached[i].1))
  {
    var acc: seq<int> := [];
    for i := 0 to |cached|
      invariant |acc| == i
      invariant forall k :: 0 <= k < i ==> Some(acc[k]) == FallbackPast(cached[k].0, cached[k].1)
    {
      var p, r := cached[i].0, cached[i].1;
      if p > 0.0 && r != 0.0 {
        if 1.0 + r / 100.0 == 0.0 {
          return None;
        }
        acc := acc + [Trunc(p / (1.0 + r / 100.0))];
      } else {
        acc := acc + [0];
      }
    }
    vals := Some(acc);
  }

  /** The end of `load_data`: nothing is written when the run was stopped;
      otherwise the stored universe, each ticker of `results` overwritten by
      its new record. */
  method FinishRun<R>(existing: map<string, R>, results: map<string, R>, stopped: bool)
    returns (saved: Option<map<string, R>>)
    ensures stopped <==> saved.None?
    ensures saved.Some? ==> forall t :: t in saved.value <==> t in existing || t in results
    ensures saved.Some? ==> forall t :: t in results ==> saved.value[t] == results[t]
    ensures saved.Some? ==> forall t :: t in existing && t !in results ==> saved.value[t] == existing[t]
  {
    if stopped {
      return None;
    }
    var merged := existing;
    var ks := KeysOf(results);
    for i := 0 to |ks|
      invariant forall t :: t in merged <==> t in existing || t in ks[..i]
      invariant forall t :: t in ks[..i] ==> merged[t] == results[t]
      invariant forall t :: t in existing && t !in ks[..i] ==> merged[t] == existing[t]
    {
      assert ks[..i + 1] == ks[..i] + [ks[i]];
      merged := merged[ks[i] := results[ks[i]]];
    }
    assert ks[..|ks|] == ks;
    saved := Some(merged);
  }
}
