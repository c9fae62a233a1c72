/** `PortfolioStorage` (kr_etf_investor/portfolio.py): a document of accounts,
    each a map from symbol to position, kept in one JSON file. Every
    operation loads the file (migrating older layouts on the way), changes
    the accounts and saves. The file is the field `file`; the named copies
    written by `save_as` are the field `named`; the clock is the parameter
    `now` (one value per call), and writes always succeed. */
module PortfolioStore {
  import opened Common

  /** "기본 계좌", the account used when none is named. */
  const DefaultAccount: string := "\U{AE30}\U{BCF8} \U{ACC4}\U{C88C}"

  /** A position; a key absent from the stored JSON object is `None`. */
  datatype Position = Position(qty: int, avgPrice: Option<real>, addedAt: Option<string>)

  type Positions = map<string, Position>
  type Accounts = map<string, Positions>

  /** The stored document: `accounts` is absent in the legacy layout, which
      keeps a top-level `positions` map instead. */
  datatype Doc = Doc(updatedAt: string, accounts: Option<Accounts>, legacy: Option<Positions>)

  datatype FileState = Missing | Unreadable | Stored(doc: Doc)

  const DefaultAccounts: Accounts := map[DefaultAccount := map[]]
  const DefaultDoc := Doc("", Some(DefaultAccounts), None)

  /** The result of an account operation: refused with a message, or the new
      accounts and a message. */
  datatype Outcome = Refused(msg: string) | Changed(accounts: Accounts, msg: string)

  // ---------------------------------------------------------------- load

  predicate Unstamped(ps: Positions) {
    exists s :: s in ps && ps[s].addedAt.None?
  }

  function Stamp(p: Position, now: string): Position {
    if p.addedAt.None? then p.(addedAt := Some(now)) else p
  }

  /** The positions with `added_at` set to `now` where it was missing. */
  function Stamped(ps: Positions, now: string): (r: Positions)
    ensures r.Keys == ps.Keys
    ensures forall s :: s in r ==> r[s].addedAt.Some?
    ensures forall s :: s in r ==> r[s].qty == ps[s].qty && r[s].avgPrice == ps[s].avgPrice
    ensures forall s :: s in ps && ps[s].addedAt.Some? ==> r[s] == ps[s]
    ensures !Unstamped(ps) ==> r == ps
  {
    map s | s in ps :: Stamp(ps[s], now)
  }

  /** The accounts after the two layout migrations: legacy positions move
      under the default account, and no accounts at all become the default. */
  function BaseAccounts(d: Doc): (r: Accounts)
    ensures r != map[]
    ensures d.accounts.None? ==> r == map[DefaultAccount := d.legacy.GetOr(map[])]
    ensures d.accounts.Some? && d.accounts.value != map[] ==> r == d.accounts.value
    ensures d.accounts == Some(map[]) ==> r == DefaultAccounts
  {
    var accs := if d.accounts.None? then map[DefaultAccount := d.legacy.GetOr(map[])] else d.accounts.value;
    assert DefaultAccount in DefaultAccounts;
    assert DefaultAccount in map[DefaultAccount := d.legacy.GetOr(map[])];
    if accs == map[] then DefaultAccounts else accs
  }

  /** Whether `load` rewrites the file. */
  predicate NeedsSave(d: Doc) {
    d.accounts.None? || d.accounts.value == map[] ||
    exists a :: a in BaseAccounts(d) && Unstamped(BaseAccounts(d)[a])
  }

  function StampedAccounts(accs: Accounts, now: string): (r: Accounts)
    ensures r.Keys == accs.Keys
    ensures forall a :: a in r ==> r[a] == Stamped(accs[a], now)
  {
    map a | a in accs :: Stamped(accs[a], now)
  }

  /** What `load` returns for a file. */
  function Loaded(f: FileState, now: string): (d: Doc)
    ensures d.accounts.Some? && d.accounts.value != map[]
    ensures forall a, s :: a in d.accounts.value && s in d.accounts.value[a] ==>
      d.accounts.value[a][s].addedAt.Some?
    ensures !f.Stored? ==> d == DefaultDoc
    ensures f.Stored? ==> d.accounts == Some(StampedAccounts(BaseAccounts(f.doc), now))
    ensures f.Stored? ==> d.updatedAt == if NeedsSave(f.doc) then now else f.doc.updatedAt
    ensures f.Stored? ==> d.legacy == if f.doc.accounts.None? then None else f.doc.legacy
  {
    match f
    case Stored(doc) =>
      var m := Doc(doc.updatedAt, Some(StampedAccounts(BaseAccounts(doc), now)),
                   if doc.accounts.None? then None else doc.legacy);
      if NeedsSave(doc) then m.(updatedAt := now) else m
    case _ =>
      assert DefaultAccount in DefaultAccounts;
      DefaultDoc
  }

  /** The file after `load`: rewritten with the loaded document when a
      migration happened. */
  function AfterLoad(f: FileState, now: string): (g: FileState)
    ensures g == f || g == Stored(Loaded(f, now))
  {
    if f.Stored? && NeedsSave(f.doc) then Stored(Loaded(f, now)) else f
  }

  /** A legacy file keeps its positions, now under the default account, with
      the top-level key gone. */
  lemma LegacyMigration(d: Doc, now: string)
    requires d.accounts.None?
    ensures var l := Loaded(Stored(d), now);
      l.legacy.None? && l.accounts.value.Keys == {DefaultAccount} &&
      l.accounts.value[DefaultAccount].Keys == d.legacy.GetOr(map[]).Keys &&
      l.updatedAt == now
    ensures var l, legacy := Loaded(Stored(d), now), d.legacy.GetOr(map[]);
      forall s :: s in legacy ==> l.accounts.value[DefaultAccount][s] == Stamp(legacy[s], now)
  {
  }

  /** Loading twice is loading once: the loaded document needs no migration. */
  lemma LoadIdempotent(f: FileState, now: string, later: string)
    ensures !NeedsSave(Loaded(f, now))
    ensures AfterLoad(AfterLoad(f, now), later) == AfterLoad(f, now)
  {
    var d := Loaded(f, now);
    assert BaseAccounts(d) == d.accounts.value;
    if f.Stored? && NeedsSave(f.doc) {
      assert !NeedsSave(d);
      assert Loaded(Stored(d), later) == d by {
        assert StampedAccounts(d.accounts.value, later) == d.accounts.value;
      }
    }
  }

  // ---------------------------------------------------------------- operations

  /** The account an operation targets: the default when none is named. */
  function Target(account: string): (name: string)
    ensures name != ""
    ensures account != "" ==> name == account
  {
    if account == "" then DefaultAccount else account
  }

  /** `upsert` on the accounts. */
  function Upserted(accs: Accounts, account: string, symbol: string, qty: int,
                    avgPrice: Option<real>, now: string): Accounts
  {
    var name := Target(account);
    var ps := if name in accs then accs[name] else map[];
    if qty <= 0 then accs[name := ps - {symbol}]
    else
      var cur := if symbol in ps then ps[symbol] else Position(0, None, None);
      var avg := if avgPrice.Some? then avgPrice.value else cur.avgPrice.GetOr(0.0);
      var added := cur.addedAt.GetOr(now);
      accs[name := ps[symbol := Position(qty, Some(avg), Some(added))]]
  }

  /** What `upsert` does: the target account is created when missing; other
      accounts and the account's other symbols are untouched; a quantity of
      0 or less removes the symbol; a positive one stores it with that
      quantity, the given average price (for an explicit None the stored one,
      else 0) and the stored `added_at` (else `now`). */
  lemma UpsertedMeans(accs: Accounts, account: string, symbol: string, qty: int,
                      avgPrice: Option<real>, now: string)
    ensures var r := Upserted(accs, account, symbol, qty, avgPrice, now);
      r.Keys == accs.Keys + {Target(account)} &&
      forall a :: a in accs && a != Target(account) ==> r[a] == accs[a]
    ensures var r := Upserted(accs, account, symbol, qty, avgPrice, now);
      var old_ := if Target(account) in accs then accs[Target(account)] else map[];
      forall s :: s in old_ && s != symbol ==> s in r[Target(account)] && r[Target(account)][s] == old_[s]
    ensures var r := Upserted(accs, account, symbol, qty, avgPrice, now);
      var old_ := if Target(account) in accs then accs[Target(account)] else map[];
      qty <= 0 ==> r[Target(account)] == old_ - {symbol}
    ensures var r := Upserted(accs, account, symbol, qty, avgPrice, now);
      var old_ := if Target(account) in accs then accs[Target(account)] else map[];
      qty > 0 ==> var p := r[Target(account)][symbol];
       (r[Target(account)].Keys == old_.Keys + {symbol} && p.qty == qty &&
        (avgPrice.Some? ==> p.avgPrice == avgPrice) &&
        (avgPrice.None? && symbol in old_ && old_[symbol].avgPrice.Some? ==> p.avgPrice == old_[symbol].avgPrice) &&
        (avgPrice.None? && (symbol !in old_ || old_[symbol].avgPrice.None?) ==> p.avgPrice == Some(0.0)) &&
        (symbol in old_ && old_[symbol].addedAt.Some? ==> p.addedAt == old_[symbol].addedAt) &&
        (symbol !in old_ || old_[symbol].addedAt.None? ==> p.addedAt == Some(now)))
  {
  }

  /** Upserting the same position twice is upserting it once. */
  lemma UpsertTwice(accs: Accounts, account: string, symbol: string, qty: int,
                    avgPrice: Option<real>, now: string, later: string)
    requires avgPrice.Some? || qty <= 0
    ensures var once := Upserted(accs, account, symbol, qty, avgPrice, now);
      Upserted(once, account, symbol, qty, avgPrice, later) == once
  {
    var once := Upserted(accs, account, symbol, qty, avgPrice, now);
    var twice := Upserted(once, account, symbol, qty, avgPrice, later);
    var name := Target(account);
    assert twice[name] == once[name];
    assert forall a :: a in twice <==> a in once;
  }

  /** `add_account` on the accounts. */
  function AddAccountTo(accs: Accounts, name: string): (o: Outcome)
    ensures name == "" ==> o == Refused("Invalid name")
    ensures name != "" && name in accs ==> o == Refused("Account already exists")
    ensures o.Changed? <==> name != "" && name !in accs
    ensures o.Changed? ==> (o.msg == "Added" && o.accounts.Keys == accs.Keys + {name} &&
      o.accounts[name] == map[] && forall a :: a in accs ==> o.accounts[a] == accs[a])
  {
    if name == "" then Refused("Invalid name")
    else if name in accs then Refused("Account already exists")
    else Changed(accs[name := map[]], "Added")
  }

  /** `rename_account` on the accounts. */
  function RenameIn(accs: Accounts, oldName: string, newName: string): (o: Outcome)
    ensures newName == "" || oldName == newName ==> o == Refused("Invalid name")
    ensures o.Changed? <==> newName != "" && oldName != newName && oldName in accs && newName !in accs
    ensures newName != "" && oldName != newName && oldName !in accs ==> o == Refused("Account not found")
    ensures newName != "" && oldName != newName && oldName in accs && newName in accs ==>
      o == Refused("New name already exists")
    ensures o.Changed? ==> (o.msg == "Renamed" &&
      o.accounts.Keys == accs.Keys - {oldName} + {newName} &&
      o.accounts[newName] == accs[oldName] &&
      forall a :: a in accs && a != oldName ==> o.accounts[a] == accs[a])
  {
    if newName == "" || oldName == newName then Refused("Invalid name")
    else if oldName !in accs then Refused("Account not found")
    else if newName in accs then Refused("New name already exists")
    else Changed((accs - {oldName})[newName := accs[oldName]], "Renamed")
  }

  /** Renaming back restores the accounts. */
  lemma RenameBack(accs: Accounts, oldName: string, newName: string)
    requires oldName != "" && RenameIn(accs, oldName, newName).Changed?
    ensures RenameIn(RenameIn(accs, oldName, newName).accounts, newName, oldName) == Changed(accs, "Renamed")
  {
    var r := RenameIn(accs, oldName, newName).accounts;
    assert newName in r && oldName !in r;
    var back := RenameIn(r, newName, oldName);
    assert back.Changed?;
    assert back.accounts == accs;
  }

  /** `delete_account` on the accounts: the last account cannot go. */
  function DeleteFrom(accs: Accounts, name: string): (o: Outcome)
    ensures name !in accs ==> o == Refused("Account not found")
    ensures name in accs && |accs| <= 1 ==> o == Refused("Cannot delete last account")
    ensures o.Changed? <==> name in accs && |accs| > 1
    ensures o.Changed? ==> (o.msg == "Deleted" && o.accounts.Keys == accs.Keys - {name} &&
      o.accounts != map[] && forall a :: a in o.accounts ==> o.accounts[a] == accs[a])
  {
    if name !in accs then Refused("Account not found")
    else if |accs| <= 1 then Refused("Cannot delete last account")
    else
      var r := accs - {name};
      assert |r| == |accs| - 1;
      Changed(r, "Deleted")
  }

  /** Adding an account and deleting it again restores the accounts. */
  lemma AddThenDelete(accs: Accounts, name: string)
    requires accs != map[] && AddAccountTo(accs, name).Changed?
    ensures DeleteFrom(AddAccountTo(accs, name).accounts, name) == Changed(accs, "Deleted")
  {
    var added := AddAccountTo(accs, name).accounts;
    assert |added| == |accs| + 1;
    assert added - {name} == accs;
  }

  /** `save_as`'s name check: not empty, no path separator. */
  predicate ValidSaveName(name: string) {
    name != "" && '/' !in name && '\\' !in name
  }

  // ---------------------------------------------------------------- the class

  class PortfolioStorage {
    var file: FileState
    var named: map<string, Doc>

    constructor (f: FileState)
      ensures file == f && named == map[]
    {
      file := f;
      named := map[];
    }

    /** `save`: the document gets the time and replaces the file. */
    method Save(d: Doc, now: string) returns (saved: Doc)
      modifies this
      ensures saved == d.(updatedAt := now)
      ensures file == Stored(saved) && named == old(named)
    {
      saved := d.(updatedAt := now);
      file := Stored(saved);
    }

    /** The timestamp loop of one account's positions. */
    static method StampPositions(ps: Positions, now: string) returns (r: Positions, modified: bool)
      ensures r == Stamped(ps, now)
      ensures modified <==> Unstamped(ps)
    {
      r := ps;
      modified := false;
      var rest := ps.Keys;
      while rest != {}
        invariant rest <= ps.Keys && r.Keys == ps.Keys
        invariant forall s :: s in ps ==> r[s] == if s in rest then ps[s] else Stamp(ps[s], now)
        invariant modified <==> exists s :: s in ps && s !in rest && ps[s].addedAt.None?
        decreases |rest|
      {
        var s :| s in rest;
        if r[s].addedAt.None? {
          r := r[s := r[s].(addedAt := Some(now))];
          modified := true;
        }
        rest := rest - {s};
      }
      assert forall s :: s in ps ==> r[s] == Stamped(ps, now)[s];
    }

    /** The timestamp loop over all accounts. */
    static method StampAll(accs: Accounts, now: string) returns (r: Accounts, modified: bool)
      ensures r == StampedAccounts(accs, now)
      ensures modified <==> exists a :: a in accs && Unstamped(accs[a])
    {
      r := accs;
      modified := false;
      var rest := accs.Keys;
      while rest != {}
        invariant rest <= accs.Keys && r.Keys == accs.Keys
        invariant forall a :: a in accs ==> r[a] == if a in rest then accs[a] else Stamped(accs[a], now)
        invariant modified <==> exists a :: a in accs && a !in rest && Unstamped(accs[a])
        decreases |rest|
      {
        var a :| a in rest;
        var ps, m := StampPositions(accs[a], now);
        r := r[a := ps];
        modified := modified || m;
        rest := rest - {a};
      }
      assert forall a :: a in accs ==> r[a] == StampedAccounts(accs, now)[a];
    }

    /** `load`: the default document for a missing or unreadable file;
        otherwise the migrated document, saved back when anything changed. */
    method Load(now: string) returns (d: Doc)
      modifies this
      ensures d == Loaded(old(file), now)
      ensures file == AfterLoad(old(file), now) && named == old(named)
    {
      if !file.Stored? {
        return DefaultDoc;
      }
      var data := file.doc;
      ghost var orig := data;
      var modified := false;
      if data.accounts.None? {
        var positions := data.legacy.GetOr(map[]);
        data := data.(accounts := Some(map[DefaultAccount := positions]), legacy := None);
        modified := true;
      }
      if data.accounts.value == map[] {
        data := data.(accounts := Some(DefaultAccounts));
        modified := true;
      }
      assert data.accounts.value == BaseAccounts(orig);
      var accs, stamped := StampAll(data.accounts.value, now);
      data := data.(accounts := Some(accs));
      modified := modified || stamped;
      assert modified == NeedsSave(orig);
      if modified {
        d := Save(data, now);
      } else {
        d := data;
      }
    }

    /** The in-place change of `upsert` to the loaded accounts. */
    static method UpsertAccounts(accs: Accounts, symbol: string, qty: int, account: string,
                                 avgPrice: Option<real>, now: string) returns (r: Accounts)
      ensures r == Upserted(accs, account, symbol, qty, avgPrice, now)
    {
      r := accs;
      var name := if account == "" then DefaultAccount else account;
      if name !in r {
        r := r[name := map[]];
      }
      var positions := r[name];
      if qty <= 0 {
        if symbol in positions {
          positions := positions - {symbol};
        } else {
          assert positions == positions - {symbol};
        }
      } else {
        var current := if symbol in positions then positions[symbol] else Position(0, None, None);
        var finalAvg := if avgPrice.None? then current.avgPrice.GetOr(0.0) else avgPrice.value;
        var addedAt := current.addedAt.GetOr(now);
        positions := positions[symbol := Position(qty, Some(finalAvg), Some(addedAt))];
      }
      r := r[name := positions];
    }

    /** `upsert`. */
    method Upsert(symbol: string, qty: int, account: string, avgPrice: Option<real>, now: string)
      returns (d: Doc, success: bool)
      modifies this
      ensures var l := Loaded(old(file), now);
        d == l.(updatedAt := now, accounts := Some(Upserted(l.accounts.value, account, symbol, qty, avgPrice, now)))
      ensures file == Stored(d) && success && named == old(named)
    {
      var data := Load(now);
      var accs := UpsertAccounts(data.accounts.value, symbol, qty, account, avgPrice, now);
      d := Save(data.(accounts := Some(accs)), now);
      success := true;
    }

    /** `bulk_save_account`: one account's positions replaced wholesale. */
    method BulkSaveAccount(account: string, positions: Positions, now: string) returns (d: Doc, success: bool)
      modifies this
      ensures var l := Loaded(old(file), now);
        d == l.(updatedAt := now, accounts := Some(l.accounts.value[Target(account) := positions]))
      ensures file == Stored(d) && success && named == old(named)
    {
      var data := Load(now);
      var name := if account == "" then DefaultAccount else account;
      d := Save(data.(accounts := Some(data.accounts.value[name := positions])), now);
      success := true;
    }

    /** `bulk_save`: the whole accounts map replaced. */
    method BulkSave(all: Accounts, now: string) returns (d: Doc, success: bool)
      modifies this
      ensures d == Loaded(old(file), now).(updatedAt := now, accounts := Some(all))
      ensures file == Stored(d) && success && named == old(named)
    {
      var data := Load(now);
      d := Save(data.(accounts := Some(all)), now);
      success := true;
    }

    /** `clear`: only the default account, empty, remains. */
    method Clear(now: string) returns (d: Doc, success: bool)
      modifies this
      ensures d.accounts == Some(DefaultAccounts)
      ensures d == Loaded(old(file), now).(updatedAt := now, accounts := Some(DefaultAccounts))
      ensures file == Stored(d) && success && named == old(named)
    {
      var data := Load(now);
      d := Save(data.(accounts := Some(DefaultAccounts)), now);
      success := true;
    }

    /** `add_account`, `rename_account` and `delete_account`: a refused
        operation writes nothing beyond what `load` migrated. */
    method AddAccount(name: string, now: string) returns (ok: bool, msg: string)
      modifies this
      ensures name == "" ==> !ok && msg == "Invalid name" && file == old(file)
      ensures name != "" ==> var l := Loaded(old(file), now); var o := AddAccountTo(l.accounts.value, name);
        ok == o.Changed? && msg == o.msg &&
        file == (if o.Changed? then Stored(l.(updatedAt := now, accounts := Some(o.accounts)))
                 else AfterLoad(old(file), now))
      ensures named == old(named)
    {
      if name == "" {
        return false, "Invalid name";
      }
      var data := Load(now);
      if name in data.accounts.value {
        return false, "Account already exists";
      }
      var _ := Save(data.(accounts := Some(data.accounts.value[name := map[]])), now);
      return true, "Added";
    }

    method RenameAccount(oldName: string, newName: string, now: string) returns (ok: bool, msg: string)
      modifies this
      ensures newName == "" || oldName == newName ==> !ok && msg == "Invalid name" && file == old(file)
      ensures newName != "" && oldName != newName ==> var l := Loaded(old(file), now);
        var o := RenameIn(l.accounts.value, oldName, newName);
        ok == o.Changed? && msg == o.msg &&
        file == (if o.Changed? then Stored(l.(updatedAt := now, accounts := Some(o.accounts)))
                 else AfterLoad(old(file), now))
      ensures named == old(named)
    {
      if newName == "" || oldName == newName {
        return false, "Invalid name";
      }
      var data := Load(now);
      var accs := data.accounts.value;
      if oldName !in accs {
        return false, "Account not found";
      }
      if newName in accs {
        return false, "New name already exists";
      }
      var moved := accs[oldName];
      accs := accs - {oldName};
      accs := accs[newName := moved];
      var _ := Save(data.(accounts := Some(accs)), now);
      return true, "Renamed";
    }

    method DeleteAccount(name: string, now: string) returns (ok: bool, msg: string)
      modifies this
      ensures var l := Loaded(old(file), now); var o := DeleteFrom(l.accounts.value, name);
        ok == o.Changed? && msg == o.msg &&
        file == (if o.Changed? then Stored(l.(updatedAt := now, accounts := Some(o.accounts)))
                 else AfterLoad(old(file), now))
      ensures named == old(named)
    {
      var data := Load(now);
      var accs := data.accounts.value;
      if name !in accs {
        return false, "Account not found";
      }
      if |accs| <= 1 {
        return false, "Cannot delete last account";
      }
      var _ := Save(data.(accounts := Some(accs - {name})), now);
      return true, "Deleted";
    }

    /** `save_as`: a valid name gets a copy of the loaded document. */
    method SaveAs(name: string, now: string) returns (ok: bool, msg: string)
      modifies this
      ensures !ValidSaveName(name) ==> !ok && msg == "Invalid name" && unchanged(this)
      ensures ValidSaveName(name) ==> (ok && msg == "Saved" &&
        file == AfterLoad(old(file), now) && named == old(named)[name := Loaded(old(file), now)])
    {
      if name == "" || '/' in name || '\\' in name {
        return false, "Invalid name";
      }
      var current := Load(now);
      named := named[name := current];
      return true, "Saved";
    }
  }
}
