/** The older `PortfolioStorage` (backups/kr_etf_investor_backup_v1.0.1_20260102_2215/
    kr_etf_investor/portfolio.py): one flat map from symbol to quantity, no
    accounts and no migration. The file is the field `file`, the named copies
    of `save_as` the field `named`; the clock is the parameter `now` and
    writes always succeed. */
module FlatPortfolio {
  import opened Common
  import PortfolioStore

  /** The stored document; `positions` is absent from a file that lacks the
      key. A position is stored as exactly `{'qty': n}`, modelled as `n`. */
  datatype FlatDoc = FlatDoc(updatedAt: string, positions: Option<map<string, int>>)

  datatype FlatFile = Missing | Unreadable | Stored(doc: FlatDoc)

  const EmptyDoc := FlatDoc("", Some(map[]))

  /** What `load` returns: the file's document, or the empty one. */
  function LoadedFlat(f: FlatFile): (d: FlatDoc)
    ensures f.Stored? ==> d == f.doc
    ensures !f.Stored? ==> d.positions == Some(map[])
  {
    if f.Stored? then f.doc else EmptyDoc
  }

  /** `upsert` on the positions. */
  function FlatUpserted(ps: map<string, int>, symbol: string, qty: int): (r: map<string, int>)
    ensures forall s :: s != symbol ==> (s in r <==> s in ps)
    ensures forall s :: s != symbol && s in ps ==> r[s] == ps[s]
    ensures qty <= 0 ==> symbol !in r
    ensures qty > 0 ==> symbol in r && r[symbol] == qty
  {
    if qty <= 0 then (if symbol in ps then ps - {symbol} else ps)
    else ps[symbol := qty]
  }

  /** Setting a quantity and then setting 0 removes the symbol, whatever was
      there before; setting the same quantity twice is setting it once. */
  lemma FlatUpsertLaws(ps: map<string, int>, symbol: string, qty: int)
    ensures FlatUpserted(FlatUpserted(ps, symbol, qty), symbol, 0) == ps - {symbol}
    ensures FlatUpserted(FlatUpserted(ps, symbol, qty), symbol, qty) == FlatUpserted(ps, symbol, qty)
  {
    var once := FlatUpserted(ps, symbol, qty);
    assert FlatUpserted(once, symbol, 0).Keys == (ps - {symbol}).Keys;
    assert FlatUpserted(once, symbol, qty).Keys == once.Keys;
  }

  class FlatStorage {
    var file: FlatFile
    var named: map<string, FlatDoc>

    constructor (f: FlatFile)
      ensures file == f && named == map[]
    {
      file := f;
      named := map[];
    }

    /** `load`: never writes. */
    method Load() returns (d: FlatDoc)
      ensures d == LoadedFlat(file)
    {
      if file.Stored? {
        d := file.doc;
      } else {
        d := EmptyDoc;
      }
    }

    method Save(d: FlatDoc, now: string) returns (saved: FlatDoc)
      modifies this
      ensures saved == d.(updatedAt := now)
      ensures file == Stored(saved) && named == old(named)
    {
      saved := d.(updatedAt := now);
      file := Stored(saved);
    }

    /** `upsert`: the stored positions (none when the key is absent) with the
        one symbol set or removed. */
    method Upsert(symbol: string, qty: int, now: string) returns (d: FlatDoc, success: bool)
      modifies this
      ensures var l := LoadedFlat(old(file));
        d == FlatDoc(now, Some(FlatUpserted(l.positions.GetOr(map[]), symbol, qty)))
      ensures file == Stored(d) && success && named == old(named)
    {
      var data := Load();
      var positions := data.positions.GetOr(map[]);
      if qty <= 0 {
        if symbol in positions {
          positions := positions - {symbol};
        }
      } else {
        positions := positions[symbol := qty];
      }
      d := Save(data.(positions := Some(positions)), now);
      success := true;
    }

    /** `bulk_save`: the document becomes exactly these positions and the
        time. */
    method BulkSave(positions: map<string, int>, now: string) returns (d: FlatDoc, success: bool)
      modifies this
      ensures d == FlatDoc(now, Some(positions))
      ensures file == Stored(d) && success && named == old(named)
    {
      d := Save(FlatDoc("", Some(positions)), now);
      success := true;
    }

    /** `clear` is `bulk_save({})`. */
    method Clear(now: string) returns (d: FlatDoc, success: bool)
      modifies this
      ensures d == FlatDoc(now, Some(map[]))
      ensures file == Stored(d) && success && named == old(named)
    {
      d, success := BulkSave(map[], now);
    }

    /** `save_as`: a valid name gets a copy of the loaded document. */
    method SaveAs(name: string) returns (ok: bool, msg: string)
      modifies this
      ensures !PortfolioStore.ValidSaveName(name) ==> !ok && msg == "Invalid name" && unchanged(this)
      ensures PortfolioStore.ValidSaveName(name) ==>
        (ok && msg == "Saved" && file == old(file) && named == old(named)[name := LoadedFlat(old(file))])
    {
      if name == "" || '/' in name || '\\' in name {
        return false, "Invalid name";
      }
      var current := Load();
      named := named[name := current];
      return true, "Saved";
    }
  }
}
