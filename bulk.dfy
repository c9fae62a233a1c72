/** The position filter of `update_portfolio_bulk`, the same in
    backups/kr_etf_investor_backup_v1.0.1_20260102_2215/kr_etf_investor/flask_app.py
    and backups/kr_etf_investor_backup_v1.0.3_20260103_1436/kr_etf_investor/flask_app.py:
    each posted value is a bare number or an object with a `qty` key, and
    only a positive quantity is kept, truncated to an integer. */
module BulkPositions {
  import opened Common

  /** A posted value: a bare number, or an object whose `qty` may be absent. */
  datatype RawQty = Bare(x: real) | Object(qty: Option<real>)

  /** The quantity a posted value stands for; an absent `qty` is 0. */
  function QtyOf(v: RawQty): real {
    match v
    case Bare(x) => x
    case Object(q) => q.GetOr(0.0)
  }

  /** The positions kept, each as `int(qty)`. */
  function Formatted(raw: map<string, RawQty>): (f: map<string, int>)
    ensures forall s :: s in f <==> s in raw && QtyOf(raw[s]) > 0.0
    ensures forall s :: s in f ==> f[s] >= 0 && f[s] as real <= QtyOf(raw[s]) < f[s] as real + 1.0
  {
    map s | s in raw && QtyOf(raw[s]) > 0.0 :: Trunc(QtyOf(raw[s]))
  }

  /** The filter loop. */
  method FormatPositions(raw: map<string, RawQty>) returns (formatted: map<string, int>)
    ensures formatted == Formatted(raw)
  {
    formatted := map[];
    var syms := KeysOf(raw);
    for i := 0 to |syms|
      invariant forall s :: s in formatted <==> s in syms[..i] && QtyOf(raw[s]) > 0.0
      invariant forall s :: s in formatted ==> formatted[s] == Trunc(QtyOf(raw[s]))
    {
      assert syms[..i + 1] == syms[..i] + [syms[i]];
      var s := syms[i];
      var qty := QtyOf(raw[s]);
      if qty > 0.0 {
        formatted := formatted[s := Trunc(qty)];
      }
    }
    assert syms[..|syms|] == syms;
  }

  /** Whole quantities of at least 1 survive unchanged; a fractional
      quantity below 1 passes the filter and is kept as 0. */
  lemma FormattedQuantities(raw: map<string, RawQty>, s: string, n: int)
    requires s in raw
    ensures QtyOf(raw[s]) >= 1.0 ==> Formatted(raw)[s] >= 1
    ensures n >= 1 && QtyOf(raw[s]) == n as real ==> Formatted(raw)[s] == n
    ensures 0.0 < QtyOf(raw[s]) < 1.0 ==> Formatted(raw)[s] == 0
  {
  }
}
