/** The account-aware handlers of the v1.0.3 Flask front end
    (backups/kr_etf_investor_backup_v1.0.3_20260103_1436/kr_etf_investor/flask_app.py)
    over the account storage: the bulk update of one account, the CSV export
    "Account,Ticker,Qty", the CSV import that merges an upload into the
    accounts and files a named copy, and the choice of tickers a refresh
    targets. Request parsing and the HTTP responses are reduced to
    parameters and results. */
module AccountCsv {
  import opened Common
  import opened PortfolioStore
  import BulkPositions

  const Header: string := "Account,Ticker,Qty"

  /** The account a two-column line goes to. */
  const ImportedAccount: string := "Imported"

  /** The ticker a targeted refresh always includes (KODEX 200). */
  const SeedTicker: string := "069500"

  /** A CSV line that carries a position. */
  datatype Row = Row(account: string, ticker: string, qty: int)

  /** What the import loop collects: account, then ticker, then quantity. */
  type Uploaded = map<string, map<string, int>>

  // ---------------------------------------------------------------- bulk update

  /** Formatted positions stored as `{'qty': n}`: no average price, no date. */
  function Plain(ps: map<string, int>): (r: Positions)
    ensures r.Keys == ps.Keys
    ensures forall t :: t in r ==> r[t] == Position(ps[t], None, None)
  {
    map t | t in ps :: Position(ps[t], None, None)
  }

  /** `update_portfolio_bulk`: the named account (the default one when the
      request names none) becomes exactly the posted positive quantities. */
  method BulkUpdate(store: PortfolioStorage, raw: map<string, BulkPositions.RawQty>, account: Option<string>,
                    now: string) returns (d: Doc)
    modifies store
    ensures var l := Loaded(old(store.file), now);
      d == l.(updatedAt := now,
               accounts := Some(l.accounts.value[Target(account.GetOr("")) := Plain(BulkPositions.Formatted(raw))]))
    ensures store.file == Stored(d) && store.named == old(store.named)
  {
    var formatted := BulkPositions.FormatPositions(raw);
    var success;
    d, success := store.BulkSaveAccount(account.GetOr(""), Plain(formatted), now);
  }

  // ---------------------------------------------------------------- parsing a line

  /** The account, ticker and quantity fields of a split line, stripped:
      three or more parts name the account, two parts go to "Imported". */
  function LineFields(parts: seq<string>): (string, string, string)
    requires |parts| >= 2
  {
    if |parts| >= 3 then (Strip(parts[0]), Strip(parts[1]), Strip(parts[2]))
    else (ImportedAccount, Strip(parts[0]), Strip(parts[1]))
  }

  /** No field is a header word or empty, and the quantity reads as a
      positive integer. */
  predicate Accepted(acc: string, t: string, q: string) {
    Lower(t) != "ticker" && Lower(q) != "qty" && Lower(acc) != "account"
    && t != "" && q != "" && ParseQty(q).Some? && ParseQty(q).value > 0
  }

  /** The checks on the fields: header words, empty fields, and a quantity
      that does not read as a positive integer skip the line. */
  function RowOf(acc: string, t: string, q: string): (r: Option<Row>)
    ensures r.Some? ==> r == Some(Row(acc, t, r.value.qty)) && t != "" && r.value.qty > 0
  {
    if Lower(t) == "ticker" || Lower(q) == "qty" || Lower(acc) == "account" then None
    else if t == "" || q == "" then None
    else
      match ParseQty(q)
      case Some(n) => if n > 0 then Some(Row(acc, t, n)) else None
      case None => None
  }

  /** The fields give a row exactly when they pass the checks, and the row
      carries the account, the ticker and the quantity read. */
  lemma RowOfMeans(acc: string, t: string, q: string)
    ensures RowOf(acc, t, q).Some? <==> Accepted(acc, t, q)
    ensures RowOf(acc, t, q).Some? ==> RowOf(acc, t, q).value == Row(acc, t, ParseQty(q).value)
  {
  }

  /** One line of an upload: `Account,Ticker,Qty` or `Ticker,Qty`; a line of
      fewer than two fields is skipped (None). */
  function ParseLine(line: string): (r: Option<Row>)
    ensures r.Some? ==> r.value.ticker != "" && r.value.qty > 0
  {
    var parts := Split(line, ',');
    if |parts| < 2 then None
    else
      var f := LineFields(parts);
      RowOf(f.0, f.1, f.2)
  }

  /** How a line's fields are checked: fewer than two are skipped, two go to
      the "Imported" account, and the first three of more are account,
      ticker and quantity, each stripped. */
  lemma ParseLineFields(line: string)
    ensures var p := Split(line, ','); |p| < 2 ==> ParseLine(line).None?
    ensures var p := Split(line, ',');
      |p| == 2 ==> ParseLine(line) == RowOf(ImportedAccount, Strip(p[0]), Strip(p[1]))
    ensures var p := Split(line, ',');
      |p| >= 3 ==> ParseLine(line) == RowOf(Strip(p[0]), Strip(p[1]), Strip(p[2]))
  {
  }

  /** `imported_accounts[acc][t] = {'qty': n}` for one line. */
  function AddRow(up: Uploaded, r: Row): Uploaded {
    var ps := if r.account in up then up[r.account] else map[];
    up[r.account := ps[r.ticker := r.qty]]
  }

  /** Each line parsed on its own. */
  function ParseLines(lines: seq<string>): (rows: seq<Option<Row>>)
    ensures |rows| == |lines|
    ensures forall i :: 0 <= i < |lines| ==> rows[i] == ParseLine(lines[i])
  {
    seq(|lines|, i requires 0 <= i < |lines| => ParseLine(lines[i]))
  }

  /** What the import loop collects from the parsed lines, in order. */
  function Collect(rows: seq<Option<Row>>): (up: Uploaded)
    ensures forall a :: a in up ==> |up[a]| > 0
  {
    if rows == [] then map[]
    else
      var p := Collect(rows[..|rows| - 1]);
      match rows[|rows| - 1]
      case None => p
      case Some(r) => AddRow(p, r)
  }

  /** What the import loop collects from the lines of an upload. */
  function UploadedFrom(lines: seq<string>): Uploaded {
    Collect(ParseLines(lines))
  }

  /** The parsed line is a position of ticker `t` in account `a`. */
  predicate Carries(row: Option<Row>, a: string, t: string) {
    row.Some? && row.value.account == a && row.value.ticker == t
  }

  predicate Has(up: Uploaded, a: string, t: string) {
    a in up && t in up[a]
  }

  /** One more line adds at most its own position. */
  lemma CollectStep(rows: seq<Option<Row>>, a: string, t: string)
    requires rows != []
    ensures var n := |rows| - 1;
      Has(Collect(rows), a, t) <==> Has(Collect(rows[..n]), a, t) || Carries(rows[n], a, t)
    ensures var n := |rows| - 1;
      Has(Collect(rows), a, t) && !Carries(rows[n], a, t) ==> Collect(rows)[a][t] == Collect(rows[..n])[a][t]
    ensures var n := |rows| - 1;
      Carries(rows[n], a, t) ==> Collect(rows)[a][t] == rows[n].value.qty
  {
  }

  /** Some line carries the position. */
  predicate CarriedIn(rows: seq<Option<Row>>, a: string, t: string) {
    exists i :: 0 <= i < |rows| && Carries(rows[i], a, t)
  }

  lemma CarriedStep(rows: seq<Option<Row>>, a: string, t: string)
    requires rows != []
    ensures CarriedIn(rows, a, t) <==> CarriedIn(rows[..|rows| - 1], a, t) || Carries(rows[|rows| - 1], a, t)
  {
    var n := |rows| - 1;
    var p := rows[..n];
    if CarriedIn(rows, a, t) {
      var i :| 0 <= i < |rows| && Carries(rows[i], a, t);
      if i < n {
        assert p[i] == rows[i];
      }
    }
    if CarriedIn(p, a, t) {
      var i :| 0 <= i < |p| && Carries(p[i], a, t);
      assert rows[i] == p[i];
    }
  }

  /** A position is collected exactly when some line carries it. */
  lemma {:induction false} CollectHas(rows: seq<Option<Row>>, a: string, t: string)
    ensures Has(Collect(rows), a, t) <==> CarriedIn(rows, a, t)
  {
    if rows != [] {
      CollectHas(rows[..|rows| - 1], a, t);
      CollectStep(rows, a, t);
      CarriedStep(rows, a, t);
    }
  }

  /** The quantity collected is that of the last line carrying the position. */
  lemma {:induction false} CollectLast(rows: seq<Option<Row>>, a: string, t: string) returns (i: nat)
    requires Has(Collect(rows), a, t)
    ensures i < |rows| && Carries(rows[i], a, t)
    ensures rows[i].value.qty == Collect(rows)[a][t]
    ensures forall j :: i < j < |rows| ==> !Carries(rows[j], a, t)
  {
    var n := |rows| - 1;
    CollectStep(rows, a, t);
    if Carries(rows[n], a, t) {
      i := n;
    } else {
      var p := rows[..n];
      i := CollectLast(p, a, t);
      assert rows[i] == p[i];
      forall j | i < j < |rows|
        ensures !Carries(rows[j], a, t)
      {
        if j < n {
          assert rows[j] == p[j];
        }
      }
    }
  }

  /** Every position collected from an upload has a ticker and a positive
      quantity. */
  lemma UploadedPositive(lines: seq<string>, a: string, t: string)
    requires Has(UploadedFrom(lines), a, t)
    ensures t != "" && UploadedFrom(lines)[a][t] > 0
  {
    var i := CollectLast(ParseLines(lines), a, t);
  }

  /** The body of the parse loop for one line. */
  method ReadLine(line: string) returns (row: Option<Row>)
    ensures row == ParseLine(line)
  {
    var parts := Split(line, ',');
    if |parts| < 2 {
      return None;
    }
    var acc, t, q := ImportedAccount, "", "";
    if |parts| >= 3 {
      acc, t, q := Strip(parts[0]), Strip(parts[1]), Strip(parts[2]);
    } else {
      t, q := Strip(parts[0]), Strip(parts[1]);
    }
    assert (acc, t, q) == LineFields(parts);
    row := RowOf(acc, t, q);
  }

  /** The parse loop of `import_portfolio`. */
  method ParseUpload(content: string) returns (up: Uploaded)
    ensures up == UploadedFrom(SplitLines(content))
  {
    up := CollectUpload(SplitLines(content));
  }

  /** The loop over the lines of an upload. */
  method CollectUpload(lines: seq<string>) returns (up: Uploaded)
    ensures up == UploadedFrom(lines)
  {
    ghost var parsed := ParseLines(lines);
    up := map[];
    for i := 0 to |lines|
      invariant up == Collect(parsed[..i])
    {
      assert parsed[..i + 1][..i] == parsed[..i];
      var row := ReadLine(lines[i]);
      assert row == parsed[i];
      if row.Some? {
        up := AddRow(up, row.value);
      }
    }
    assert parsed[..|lines|] == parsed;
  }

  // ---------------------------------------------------------------- merging

  /** An account's positions with the uploaded ones written over them: the
      uploaded tickers get `{'qty': n}`, the others are kept. */
  function Overwritten(ps: Positions, incoming: map<string, int>): (r: Positions)
    ensures r.Keys == ps.Keys + incoming.Keys
    ensures forall t :: t in incoming ==> r[t] == Position(incoming[t], None, None)
    ensures forall t :: t in ps && t !in incoming ==> r[t] == ps[t]
  {
    ps + Plain(incoming)
  }

  /** The accounts after the merge: every uploaded account exists, each
      uploaded ticker replaces its whole position, and nothing else changes. */
  function Merged(accs: Accounts, up: Uploaded): (r: Accounts)
    ensures r.Keys == accs.Keys + up.Keys
  {
    map a | a in accs.Keys + up.Keys ::
      if a in up then Overwritten(if a in accs then accs[a] else map[], up[a]) else accs[a]
  }

  lemma MergedMeans(accs: Accounts, up: Uploaded, a: string, t: string)
    ensures var r := Merged(accs, up);
      (a in r && t in r[a]) <==> (a in accs && t in accs[a]) || (a in up && t in up[a])
    ensures a in up && t in up[a] ==> Merged(accs, up)[a][t] == Position(up[a][t], None, None)
    ensures !(a in up && t in up[a]) && a in accs && t in accs[a] ==> Merged(accs, up)[a][t] == accs[a][t]
  {
  }

  /** The distinct account and ticker pairs of an upload. */
  function Pairs(up: Uploaded): set<(string, string)> {
    set a, t | a in up && t in up[a] :: (a, t)
  }

  /** The pairs of one account. */
  function AccountPairs(a: string, ks: set<string>): set<(string, string)> {
    set t | t in ks :: (a, t)
  }

  lemma {:induction false} AccountPairsCount(a: string, ks: set<string>)
    ensures |AccountPairs(a, ks)| == |ks|
    decreases |ks|
  {
    if ks != {} {
      var x :| x in ks;
      var rest := ks - {x};
      AccountPairsCount(a, rest);
      assert AccountPairs(a, ks) == AccountPairs(a, rest) + {(a, x)};
    }
  }

  /** The positions after the inner merge loop has written the tickers `ks`. */
  function Overlay(ps: Positions, incoming: map<string, int>, ks: seq<string>): Positions
    requires forall k :: k in ks ==> k in incoming
  {
    if ks == [] then ps
    else
      var k := ks[|ks| - 1];
      Overlay(ps, incoming, ks[..|ks| - 1])[k := Position(incoming[k], None, None)]
  }

  lemma {:induction false} OverlayMeans(ps: Positions, incoming: map<string, int>, ks: seq<string>, t: string)
    requires forall k :: k in ks ==> k in incoming
    ensures t in Overlay(ps, incoming, ks) <==> t in ps || t in ks
    ensures t in Overlay(ps, incoming, ks) ==>
      Overlay(ps, incoming, ks)[t] == if t in ks then Position(incoming[t], None, None) else ps[t]
  {
    if ks != [] {
      var p := ks[..|ks| - 1];
      assert ks == p + [ks[|ks| - 1]];
      OverlayMeans(ps, incoming, p, t);
    }
  }

  /** Writing every incoming ticker gives the positions overlaid by the upload. */
  lemma OverlayAll(ps: Positions, incoming: map<string, int>, ks: seq<string>)
    requires forall k :: k in ks <==> k in incoming
    ensures Overlay(ps, incoming, ks) == Overwritten(ps, incoming)
  {
    var r := Overlay(ps, incoming, ks);
    forall t
      ensures t in r <==> t in Overwritten(ps, incoming)
      ensures t in r ==> r[t] == Overwritten(ps, incoming)[t]
    {
      OverlayMeans(ps, incoming, ks, t);
    }
    assert r.Keys == Overwritten(ps, incoming).Keys;
  }

  /** The inner merge loop: each incoming ticker overwrites its position. */
  method MergeAccount(ps: Positions, incoming: map<string, int>) returns (r: Positions, n: nat)
    ensures r == Overwritten(ps, incoming)
    ensures n == |incoming|
  {
    r, n := ps, 0;
    var tickers := KeysOf(incoming);
    for j := 0 to |tickers|
      invariant n == j
      invariant r == Overlay(ps, incoming, tickers[..j])
    {
      assert tickers[..j + 1][..j] == tickers[..j];
      var t := tickers[j];
      r := r[t := Position(incoming[t], None, None)];
      n := n + 1;
    }
    assert tickers[..|tickers|] == tickers;
    OverlayAll(ps, incoming, tickers);
  }

  /** The accounts after the outer merge loop has handled the accounts `ns`. */
  function MergedOver(accs: Accounts, up: Uploaded, ns: seq<string>): Accounts {
    if ns == [] then accs
    else
      var a := ns[|ns| - 1];
      var m := MergedOver(accs, up, ns[..|ns| - 1]);
      m[a := Overwritten(if a in m then m[a] else map[], if a in up then up[a] else map[])]
  }

  lemma MergedOverStep(accs: Accounts, up: Uploaded, ns: seq<string>, i: nat)
    requires i < |ns|
    ensures var m := MergedOver(accs, up, ns[..i]); var a := ns[i];
      MergedOver(accs, up, ns[..i + 1]) ==
        m[a := Overwritten(if a in m then m[a] else map[], if a in up then up[a] else map[])]
  {
    assert ns[..i + 1][..i] == ns[..i];
  }

  lemma {:induction false} MergedOverMeans(accs: Accounts, up: Uploaded, ns: seq<string>, a: string)
    requires forall b :: b in ns ==> b in up
    requires Distinct(ns)
    ensures a in MergedOver(accs, up, ns) <==> a in accs || a in ns
    ensures a in MergedOver(accs, up, ns) ==>
      MergedOver(accs, up, ns)[a] ==
        if a in ns then Overwritten(if a in accs then accs[a] else map[], up[a]) else accs[a]
  {
    if ns != [] {
      var p := ns[..|ns| - 1];
      assert ns == p + [ns[|ns| - 1]];
      DistinctPrefix(ns, |ns| - 1);
      NextIsNew(ns, |ns| - 1);
      MergedOverMeans(accs, up, p, a);
      MergedOverMeans(accs, up, p, ns[|ns| - 1]);
    }
  }

  /** Once every uploaded account is handled, the loop has merged the upload. */
  lemma MergedOverAll(accs: Accounts, up: Uploaded, ns: seq<string>)
    requires Distinct(ns) && forall a :: a in ns <==> a in up
    ensures MergedOver(accs, up, ns) == Merged(accs, up)
  {
    var r := MergedOver(accs, up, ns);
    forall a
      ensures a in r <==> a in Merged(accs, up)
      ensures a in r ==> r[a] == Merged(accs, up)[a]
    {
      MergedOverMeans(accs, up, ns, a);
    }
    assert r.Keys == Merged(accs, up).Keys;
  }

  /** In a list without repeats, the next element is not among those before it. */
  lemma NextIsNew<T>(ns: seq<T>, i: nat)
    requires Distinct(ns) && i < |ns|
    ensures ns[i] !in ns[..i]
  {
  }

  lemma DistinctPrefix<T>(ns: seq<T>, k: nat)
    requires Distinct(ns) && k <= |ns|
    ensures Distinct(ns[..k])
  {
  }

  /** The number of positions of the accounts `ns`, as the merge loop counts them. */
  function SizeOver(up: Uploaded, ns: seq<string>): nat {
    if ns == [] then 0
    else
      var a := ns[|ns| - 1];
      SizeOver(up, ns[..|ns| - 1]) + if a in up then |up[a]| else 0
  }

  lemma SizeOverStep(up: Uploaded, ns: seq<string>, i: nat)
    requires i < |ns|
    ensures SizeOver(up, ns[..i + 1]) == SizeOver(up, ns[..i]) + if ns[i] in up then |up[ns[i]]| else 0
  {
    assert ns[..i + 1][..i] == ns[..i];
  }

  /** The pairs of the accounts `ns`. */
  function PairsIn(up: Uploaded, ns: seq<string>): set<(string, string)> {
    set a, t | a in ns && a in up && t in up[a] :: (a, t)
  }

  /** One more account adds its own pairs ... */
  lemma PairsInSnoc(up: Uploaded, p: seq<string>, a: string)
    requires a in up
    ensures PairsIn(up, p + [a]) == PairsIn(up, p) + AccountPairs(a, up[a].Keys)
  {
  }

  /** ... none of which was there before when the account is new. */
  lemma PairsInFresh(up: Uploaded, p: seq<string>, a: string)
    requires a in up && a !in p
    ensures PairsIn(up, p) * AccountPairs(a, up[a].Keys) == {}
  {
  }

  lemma PairsInSkip(up: Uploaded, p: seq<string>, a: string)
    requires a !in up
    ensures PairsIn(up, p + [a]) == PairsIn(up, p)
  {
  }

  /** Counted account by account, the positions are the distinct pairs. */
  lemma {:induction false} SizeOverPairs(up: Uploaded, ns: seq<string>)
    requires Distinct(ns)
    ensures SizeOver(up, ns) == |PairsIn(up, ns)|
  {
    if ns != [] {
      var n := |ns| - 1;
      var p, a := ns[..n], ns[n];
      DistinctPrefix(ns, n);
      NextIsNew(ns, n);
      SizeOverPairs(up, p);
      assert ns == p + [a];
      if a in up {
        AccountPairsCount(a, up[a].Keys);
        PairsInSnoc(up, p, a);
        PairsInFresh(up, p, a);
      } else {
        PairsInSkip(up, p, a);
      }
    }
  }

  /** ... and counted its distinct pairs. */
  lemma SizeOverAll(up: Uploaded, ns: seq<string>)
    requires Distinct(ns) && forall a :: a in ns <==> a in up
    ensures SizeOver(up, ns) == |Pairs(up)|
  {
    SizeOverPairs(up, ns);
    assert PairsIn(up, ns) == Pairs(up);
  }

  /** The merge loop: the merged accounts and how many positions were written. */
  method MergeUpload(accs: Accounts, up: Uploaded) returns (r: Accounts, count: nat)
    ensures r == Merged(accs, up)
    ensures count == |Pairs(up)|
  {
    r, count := accs, 0;
    var names := KeysOf(up);
    for i := 0 to |names|
      invariant r == MergedOver(accs, up, names[..i])
      invariant count == SizeOver(up, names[..i])
    {
      MergedOverStep(accs, up, names, i);
      SizeOverStep(up, names, i);
      var a := names[i];
      var current := if a in r then r[a] else map[];
      var merged, n := MergeAccount(current, up[a]);
      r := r[a := merged];
      count := count + n;
    }
    assert names[..|names|] == names;
    MergedOverAll(accs, up, names);
    SizeOverAll(up, names);
  }

  // ---------------------------------------------------------------- import

  /** An uploaded file: its name and its decoded text. */
  datatype Upload = Upload(filename: string, content: string)

  datatype ImportResult = ImportError(error: string) | ImportDone(count: nat, accounts: seq<string>)

  /** `import_portfolio`: the upload is parsed; nothing usable is an error
      that writes nothing; otherwise the merged accounts are saved and a
      named copy is filed under the file name without its extension. */
  method ImportPortfolio(store: PortfolioStorage, upload: Option<Upload>, now: string) returns (res: ImportResult)
    modifies store
    ensures upload.None? ==> res == ImportError("No file part") && unchanged(store)
    ensures upload.Some? && upload.value.filename == "" ==> res == ImportError("No selected file") && unchanged(store)
    ensures upload.Some? && upload.value.filename != "" && UploadedFrom(SplitLines(upload.value.content)) == map[] ==>
      res == ImportError("No valid data found") && unchanged(store)
    ensures upload.Some? && upload.value.filename != "" ==>
      var up := UploadedFrom(SplitLines(upload.value.content));
      var l := Loaded(old(store.file), now);
      var d := l.(updatedAt := now, accounts := Some(Merged(l.accounts.value, up)));
      var base := SplitExtRoot(upload.value.filename);
      up != map[] ==>
        res.ImportDone? && res.count == |Pairs(up)| &&
        Distinct(res.accounts) && (forall a :: a in res.accounts <==> a in up) &&
        (ValidSaveName(base) ==>
          store.file == AfterLoad(Stored(d), now) && store.named == old(store.named)[base := Loaded(Stored(d), now)]) &&
        (!ValidSaveName(base) ==> store.file == Stored(d) && store.named == old(store.named))
  {
    if upload.None? {
      return ImportError("No file part");
    }
    var filename := upload.value.filename;
    if filename == "" {
      return ImportError("No selected file");
    }
    var up := ParseUpload(upload.value.content);
    if up == map[] {
      return ImportError("No valid data found");
    }
    var data := store.Load(now);
    var accs, count := MergeUpload(data.accounts.value, up);
    var _ := store.Save(data.(accounts := Some(accs)), now);
    var base := SplitExtRoot(filename);
    var _, _ := store.SaveAs(base, now);
    var names := KeysOf(up);
    res := ImportDone(count, names);
  }

  // ---------------------------------------------------------------- export

  /** One exported line, `f"{acc},{t},{qty}"`. */
  function RowLine(r: Row): string {
    r.account + "," + r.ticker + "," + IntToString(r.qty)
  }

  function RowLines(rows: seq<Row>): (ls: seq<string>)
    ensures |ls| == |rows| && forall i :: 0 <= i < |rows| ==> ls[i] == RowLine(rows[i])
  {
    seq(|rows|, i requires 0 <= i < |rows| => RowLine(rows[i]))
  }

  const HeaderLine := Header + "\n"

  /** The exported text: the header line, then one line per row, each ended
      by a line break, as the handler appends them. */
  function CsvText(rows: seq<Row>): string {
    if rows == [] then HeaderLine else CsvText(rows[..|rows| - 1]) + RowLine(rows[|rows| - 1]) + "\n"
  }

  lemma CsvTextAppend(rows: seq<Row>, r: Row)
    ensures CsvText(rows + [r]) == CsvText(rows) + RowLine(r) + "\n"
  {
    assert (rows + [r])[..|rows|] == rows;
  }

  /** The lines of the rows, each ended by a line break. */
  function RowsText(rows: seq<Row>): string {
    if rows == [] then "" else RowsText(rows[..|rows| - 1]) + RowLine(rows[|rows| - 1]) + "\n"
  }

  lemma RowsTextAppend(rows: seq<Row>, r: Row)
    ensures RowsText(rows + [r]) == RowsText(rows) + RowLine(r) + "\n"
  {
    assert (rows + [r])[..|rows|] == rows;
  }

  /** Appending the lines of more rows to an export exports them too. */
  lemma {:induction false} CsvTextConcat(rows: seq<Row>, added: seq<Row>)
    ensures CsvText(rows + added) == CsvText(rows) + RowsText(added)
  {
    if added == [] {
      assert rows + added == rows;
      assert CsvText(rows) + RowsText(added) == CsvText(rows) + "";
    } else {
      var p, r := added[..|added| - 1], added[|added| - 1];
      assert added == p + [r];
      assert rows + added == (rows + p) + [r];
      CsvTextConcat(rows, p);
      CsvTextAppend(rows + p, r);
      RowsTextAppend(p, r);
      Glue(CsvText(rows), RowsText(p), RowLine(r), CsvText(rows + p), CsvText(rows + added), RowsText(added));
    }
  }

  /** The string algebra of one more exported line. */
  lemma Glue(t: string, q: string, l: string, a: string, b: string, c: string)
    requires a == t + q && b == a + l + "\n" && c == q + l + "\n"
    ensures b == t + c
  {
    Assoc(t, q + l, "\n");
    Assoc(t, q, l);
  }

  lemma Assoc(a: string, b: string, c: string)
    ensures a + (b + c) == (a + b) + c
  {
  }

  lemma HeadedLinesSnoc(rows: seq<Row>, r: Row)
    ensures [Header] + RowLines(rows + [r]) == ([Header] + RowLines(rows)) + [RowLine(r)]
  {
    assert RowLines(rows + [r]) == RowLines(rows) + [RowLine(r)];
  }

  lemma CsvTextStep(rows: seq<Row>)
    requires rows != []
    ensures CsvText(rows) == CsvText(rows[..|rows| - 1]) + RowLine(rows[|rows| - 1]) + "\n"
  {
  }

  /** The text is the header and the rows' lines, joined. */
  lemma {:induction false} CsvTextLines(rows: seq<Row>)
    ensures CsvText(rows) == JoinLines([Header] + RowLines(rows))
  {
    if rows == [] {
      assert [Header] + RowLines(rows) == [Header] + [];
      JoinLinesSnoc([], Header);
    } else {
      var p, r := rows[..|rows| - 1], rows[|rows| - 1];
      assert rows == p + [r];
      CsvTextLines(p);
      CsvTextStep(rows);
      HeadedLinesSnoc(p, r);
      JoinLinesSnoc([Header] + RowLines(p), RowLine(r));
    }
  }

  /** `rows` lists every position of the account `a` exactly once, with its
      quantity. */
  predicate AccountListed(rows: seq<Row>, a: string, ps: Positions) {
    (forall i :: 0 <= i < |rows| ==>
      rows[i].account == a && rows[i].ticker in ps && rows[i].qty == ps[rows[i].ticker].qty) &&
    (forall i, j :: 0 <= i < j < |rows| ==> rows[i].ticker != rows[j].ticker) &&
    (forall t :: t in ps ==> exists i :: 0 <= i < |rows| && rows[i].ticker == t)
  }

  /** `rows` lists every position of `accs` exactly once, with its quantity. */
  predicate ListsAll(rows: seq<Row>, accs: Accounts) {
    (forall i :: 0 <= i < |rows| ==>
      rows[i].account in accs && rows[i].ticker in accs[rows[i].account] &&
      rows[i].qty == accs[rows[i].account][rows[i].ticker].qty) &&
    (forall i, j :: 0 <= i < j < |rows| ==> rows[i].account != rows[j].account || rows[i].ticker != rows[j].ticker) &&
    (forall a, t :: a in accs && t in accs[a] ==> exists i :: 0 <= i < |rows| && rows[i].account == a && rows[i].ticker == t)
  }

  /** The rows of one account for the given tickers, in their order. */
  function TickerRows(a: string, ps: Positions, syms: seq<string>): (rows: seq<Row>)
    ensures |rows| == |syms|
  {
    seq(|syms|, i requires 0 <= i < |syms| => Row(a, syms[i], if syms[i] in ps then ps[syms[i]].qty else 0))
  }

  lemma TickerRowsStep(a: string, ps: Positions, syms: seq<string>, k: nat)
    requires k < |syms|
    ensures TickerRows(a, ps, syms[..k + 1]) ==
      TickerRows(a, ps, syms[..k]) + [Row(a, syms[k], if syms[k] in ps then ps[syms[k]].qty else 0)]
  {
  }

  /** Listing the tickers of an account, each once, lists the account. */
  lemma TickerRowsListed(a: string, ps: Positions, syms: seq<string>)
    requires Distinct(syms) && forall t :: t in syms <==> t in ps
    ensures AccountListed(TickerRows(a, ps, syms), a, ps)
  {
    var rows := TickerRows(a, ps, syms);
    forall t | t in ps
      ensures exists i :: 0 <= i < |rows| && rows[i].ticker == t
    {
      var i :| 0 <= i < |syms| && syms[i] == t;
      assert rows[i].ticker == t;
    }
  }

  /** The inner loop of the export: the lines of one account, in the order
      its positions are iterated, appended to the text so far. */
  method AppendAccount(text: string, a: string, ps: Positions) returns (out: string, ghost added: seq<Row>)
    ensures out == text + RowsText(added)
    ensures AccountListed(added, a, ps)
  {
    out := text;
    var symbols := KeysOf(ps);
    assert RowsText(TickerRows(a, ps, symbols[..0])) == "";
    for k := 0 to |symbols|
      invariant out == text + RowsText(TickerRows(a, ps, symbols[..k]))
    {
      var sym := symbols[k];
      AccountStep(text, out, a, ps, symbols, k);
      out := out + RowLine(Row(a, sym, ps[sym].qty)) + "\n";
    }
    added := TickerRows(a, ps, symbols[..|symbols|]);
    AllTickersListed(a, ps, symbols, added);
  }

  lemma AllTickersListed(a: string, ps: Positions, symbols: seq<string>, added: seq<Row>)
    requires Distinct(symbols) && forall t :: t in symbols <==> t in ps
    requires added == TickerRows(a, ps, symbols[..|symbols|])
    ensures AccountListed(added, a, ps)
  {
    assert symbols[..|symbols|] == symbols;
    TickerRowsListed(a, ps, symbols);
  }

  /** One more position of the account: its line appended to the text. */
  lemma AccountStep(text: string, out: string, a: string, ps: Positions, symbols: seq<string>, k: nat)
    requires k < |symbols| && symbols[k] in ps
    requires out == text + RowsText(TickerRows(a, ps, symbols[..k]))
    ensures out + RowLine(Row(a, symbols[k], ps[symbols[k]].qty)) + "\n" ==
      text + RowsText(TickerRows(a, ps, symbols[..k + 1]))
  {
    var r := Row(a, symbols[k], ps[symbols[k]].qty);
    var q, l := RowsText(TickerRows(a, ps, symbols[..k])), RowLine(r);
    TickerRowsStep(a, ps, symbols, k);
    RowsTextAppend(TickerRows(a, ps, symbols[..k]), r);
    Assoc(text, q + l, "\n");
    Assoc(text, q, l);
  }

  /** The accounts among `names`. */
  function Among(accs: Accounts, names: seq<string>): (sub: Accounts)
    ensures forall a :: a in sub <==> a in accs && a in names
  {
    map a | a in accs && a in names :: accs[a]
  }

  lemma AmongStep(accs: Accounts, names: seq<string>, k: nat)
    requires k < |names| && names[k] in accs
    ensures Among(accs, names[..k + 1]) == Among(accs, names[..k])[names[k] := accs[names[k]]]
  {
    assert names[..k + 1] == names[..k] + [names[k]];
  }

  /** Appending the rows of a new account keeps every row listed ... */
  lemma ListedRowsStep(rows: seq<Row>, rs: seq<Row>, all: seq<Row>, accs: Accounts, next: Accounts,
                       a: string, ps: Positions)
    requires ListsAll(rows, accs) && a !in accs && AccountListed(rs, a, ps)
    requires all == rows + rs && next == accs[a := ps]
    ensures forall i :: 0 <= i < |all| ==>
      all[i].account in next && all[i].ticker in next[all[i].account] &&
      all[i].qty == next[all[i].account][all[i].ticker].qty
  {
    forall i | 0 <= i < |all|
      ensures all[i].account in next && all[i].ticker in next[all[i].account] &&
        all[i].qty == next[all[i].account][all[i].ticker].qty
    {
      if i < |rows| {
        assert all[i] == rows[i];
      } else {
        assert all[i] == rs[i - |rows|];
      }
    }
  }

  /** ... each pair still once ... */
  lemma DistinctRowsStep(rows: seq<Row>, rs: seq<Row>, all: seq<Row>, accs: Accounts, a: string, ps: Positions)
    requires ListsAll(rows, accs) && a !in accs && AccountListed(rs, a, ps)
    requires all == rows + rs
    ensures forall i, j :: 0 <= i < j < |all| ==> all[i].account != all[j].account || all[i].ticker != all[j].ticker
  {
    forall i, j | 0 <= i < j < |all|
      ensures all[i].account != all[j].account || all[i].ticker != all[j].ticker
    {
      if j < |rows| {
        assert all[i] == rows[i] && all[j] == rows[j];
      } else if i < |rows| {
        assert all[i] == rows[i] && all[j] == rs[j - |rows|];
      } else {
        assert all[i] == rs[i - |rows|] && all[j] == rs[j - |rows|];
      }
    }
  }

  /** ... and every position of the new account is covered. */
  lemma CoveredRowsStep(rows: seq<Row>, rs: seq<Row>, all: seq<Row>, accs: Accounts, next: Accounts,
                        a: string, ps: Positions)
    requires ListsAll(rows, accs) && a !in accs && AccountListed(rs, a, ps)
    requires all == rows + rs && next == accs[a := ps]
    ensures forall b, t :: b in next && t in next[b] ==>
      exists i :: 0 <= i < |all| && all[i].account == b && all[i].ticker == t
  {
    forall b, t | b in next && t in next[b]
      ensures exists i :: 0 <= i < |all| && all[i].account == b && all[i].ticker == t
    {
      if b == a {
        var i :| 0 <= i < |rs| && rs[i].ticker == t;
        assert all[|rows| + i] == rs[i];
      } else {
        var i :| 0 <= i < |rows| && rows[i].account == b && rows[i].ticker == t;
        assert all[i] == rows[i];
      }
    }
  }

  lemma ListsAllStep(rows: seq<Row>, rs: seq<Row>, accs: Accounts, a: string, ps: Positions)
    requires ListsAll(rows, accs) && a !in accs && AccountListed(rs, a, ps)
    ensures ListsAll(rows + rs, accs[a := ps])
  {
    var all, next := rows + rs, accs[a := ps];
    ListedRowsStep(rows, rs, all, accs, next, a, ps);
    DistinctRowsStep(rows, rs, all, accs, a, ps);
    CoveredRowsStep(rows, rs, all, accs, next, a, ps);
  }

  /** The CSV branch of `export_portfolio` for a set of accounts. */
  method ExportAccounts(accs: Accounts) returns (text: string, ghost rows: seq<Row>)
    ensures text == CsvText(rows)
    ensures ListsAll(rows, accs)
  {
    text, rows := HeaderLine, [];
    var names := KeysOf(accs);
    for k := 0 to |names|
      invariant text == CsvText(rows)
      invariant ListsAll(rows, Among(accs, names[..k]))
    {
      var a := names[k];
      NextIsNew(names, k);
      AmongStep(accs, names, k);
      ghost var added;
      text, added := AppendAccount(text, a, accs[a]);
      CsvTextConcat(rows, added);
      ListsAllStep(rows, added, Among(accs, names[..k]), a, accs[a]);
      rows := rows + added;
    }
    assert names[..|names|] == names;
    assert Among(accs, names) == accs;
  }

  datatype ExportResult = NotFound | Csv(text: string)

  /** The CSV branch of `export_portfolio`: the active portfolio (loaded,
      with its migrations) when no name is given, else the named copy as
      stored, whose accounts may be absent. */
  method ExportCsv(store: PortfolioStorage, name: string, now: string) returns (res: ExportResult, ghost rows: seq<Row>)
    modifies store
    ensures name == "" ==>
      res.Csv? && res.text == CsvText(rows) && ListsAll(rows, Loaded(old(store.file), now).accounts.value) &&
      store.file == AfterLoad(old(store.file), now) && store.named == old(store.named)
    ensures name != "" ==> unchanged(store)
    ensures name != "" && name !in store.named ==> res == NotFound
    ensures name != "" && name in store.named ==>
      res.Csv? && res.text == CsvText(rows) && ListsAll(rows, store.named[name].accounts.GetOr(map[]))
  {
    var accs: Accounts;
    if name != "" {
      if name !in store.named {
        return NotFound, [];
      }
      accs := store.named[name].accounts.GetOr(map[]);
    } else {
      var data := store.Load(now);
      accs := data.accounts.value;
    }
    var text;
    text, rows := ExportAccounts(accs);
    res := Csv(text);
  }

  // ---------------------------------------------------------------- export, then import

  /** Account and ticker names that survive the CSV format: no comma or line
      break, no surrounding white space, a non-empty ticker, and no name that
      reads as a header. */
  predicate Exportable(accs: Accounts) {
    forall a, t :: a in accs && t in accs[a] ==> NamesExportable(a, t)
  }

  predicate NamesExportable(a: string, t: string) {
    SafeField(a) && SafeField(t) && t != "" && Lower(t) != "ticker" && Lower(a) != "account"
  }

  lemma JoinThree(a: string, t: string, q: string)
    ensures JoinWith([a, t, q], ',') == a + "," + t + "," + q
  {
    assert [a, t, q][1..] == [t, q];
    assert [t, q][1..] == [q];
    assert JoinWith([q], ',') == q;
    assert JoinWith([t, q], ',') == t + [','] + q;
    assert JoinWith([a, t, q], ',') == a + [','] + (t + [','] + q);
  }

  lemma SplitJoinThree(a: string, t: string, q: string)
    requires ',' !in a && ',' !in t && ',' !in q
    ensures Split(JoinWith([a, t, q], ','), ',') == [a, t, q]
  {
    var parts := [a, t, q];
    assert forall i :: 0 <= i < |parts| ==> ',' !in parts[i];
    SplitJoin(parts, ',');
  }

  /** A line of three comma-free fields splits back into them. */
  lemma SplitThree(a: string, t: string, q: string)
    requires ',' !in a && ',' !in t && ',' !in q
    ensures Split(a + "," + t + "," + q, ',') == [a, t, q]
  {
    JoinThree(a, t, q);
    SplitJoinThree(a, t, q);
  }

  /** A line of three stripped fields is checked as those fields. */
  lemma ParseThree(line: string, a: string, t: string, q: string)
    requires Split(line, ',') == [a, t, q]
    requires Strip(a) == a && Strip(t) == t && Strip(q) == q
    ensures ParseLine(line) == RowOf(a, t, q)
  {
    assert LineFields([a, t, q]) == (a, t, q);
  }

  /** A two-field line is a position of the "Imported" account. */
  lemma TwoFieldsImported(t: string, q: string)
    requires ',' !in t && ',' !in q
    ensures ParseLine(t + "," + q) == RowOf(ImportedAccount, Strip(t), Strip(q))
  {
    SplitPair(t, q);
    ParseLineFields(t + "," + q);
  }

  lemma SplitPair(t: string, q: string)
    requires ',' !in t && ',' !in q
    ensures Split(t + "," + q, ',') == [t, q]
  {
    JoinPair(t, q);
    SplitCons(t, ',', q);
  }

  lemma JoinPair(t: string, q: string)
    ensures t + "," + q == t + [','] + q
  {
  }

  /** Fields after the third do not change how a line is read. */
  lemma ExtraFieldsIgnored(a: string, t: string, q: string, rest: string)
    requires ',' !in a && ',' !in t && ',' !in q
    ensures ParseLine(a + "," + t + "," + q + "," + rest) == ParseLine(a + "," + t + "," + q)
  {
    SplitFour(a, t, q, rest);
    SplitThree(a, t, q);
    ParseLineFields(a + "," + t + "," + q + "," + rest);
    ParseLineFields(a + "," + t + "," + q);
  }

  lemma SplitFour(a: string, t: string, q: string, rest: string)
    requires ',' !in a && ',' !in t && ',' !in q
    ensures var p := Split(a + "," + t + "," + q + "," + rest, ',');
      |p| > 3 && p[0] == a && p[1] == t && p[2] == q
  {
    var tail := q + [','] + rest;
    var mid := t + [','] + tail;
    JoinFour(a, t, q, rest);
    SplitCons(q, ',', rest);
    SplitCons(t, ',', tail);
    SplitCons(a, ',', mid);
  }

  lemma JoinFour(a: string, t: string, q: string, rest: string)
    ensures a + "," + t + "," + q + "," + rest == a + [','] + (t + [','] + (q + [','] + rest))
  {
  }

  /** A line whose third field reads "qty" is skipped. */
  lemma SkippedAsQty(a: string, t: string, q: string)
    requires ',' !in a && ',' !in t && ',' !in q
    requires a != [] && !IsSpace(a[0]) && !IsSpace(a[|a| - 1])
    requires t != [] && !IsSpace(t[0]) && !IsSpace(t[|t| - 1])
    requires q != [] && !IsSpace(q[0]) && !IsSpace(q[|q| - 1])
    requires Lower(q) == "qty"
    ensures ParseLine(a + "," + t + "," + q) == None
  {
    SplitThree(a, t, q);
    StripUnchanged(a);
    StripUnchanged(t);
    StripUnchanged(q);
    ParseThree(a + "," + t + "," + q, a, t, q);
  }

  lemma HeaderJoined()
    ensures Header == "Account" + "," + "Ticker" + "," + "Qty"
  {
  }

  lemma HeaderWordsSkipped()
    ensures ParseLine("Account" + "," + "Ticker" + "," + "Qty") == None
  {
    var l := Lower("Qty");
    assert l[0] == 'q' && l[1] == 't' && l[2] == 'y';
    SkippedAsQty("Account", "Ticker", "Qty");
  }

  /** The header line is skipped by the import. */
  lemma HeaderSkipped()
    ensures ParseLine(Header) == None
  {
    HeaderJoined();
    HeaderWordsSkipped();
  }

  /** The fields of an exported row pass the import's checks exactly when
      the quantity is positive. */
  lemma RowOfExported(r: Row)
    requires r.ticker != "" && Lower(r.ticker) != "ticker" && Lower(r.account) != "account"
    requires Lower(IntToString(r.qty)) != "qty"
    ensures RowOf(r.account, r.ticker, IntToString(r.qty)) == if r.qty > 0 then Some(r) else None
  {
    QtyRoundTrip(r.qty);
  }

  /** Three fields without a line break make a line without one. */
  lemma NoBreakThree(a: string, t: string, q: string)
    requires '\n' !in a && '\n' !in t && '\n' !in q
    ensures '\n' !in a + "," + t + "," + q
  {
  }

  /** An exported line is read back as its row, or skipped when the quantity
      is not positive. */
  lemma RowParsed(r: Row)
    requires SafeField(r.account) && SafeField(r.ticker) && r.ticker != ""
    requires Lower(r.ticker) != "ticker" && Lower(r.account) != "account"
    ensures ParseLine(RowLine(r)) == if r.qty > 0 then Some(r) else None
    ensures '\n' !in RowLine(r)
  {
    var q := IntToString(r.qty);
    QtyTextSafe(r.qty);
    SplitThree(r.account, r.ticker, q);
    ParseThree(RowLine(r), r.account, r.ticker, q);
    RowOfExported(r);
    NoBreakThree(r.account, r.ticker, q);
  }

  /** A row whose fields survive the CSV format. */
  lemma ExportableRowParsed(r: Row)
    requires NamesExportable(r.account, r.ticker)
    ensures ParseLine(RowLine(r)) == if r.qty > 0 then Some(r) else None
    ensures '\n' !in RowLine(r)
  {
    RowParsed(r);
  }

  /** A row listing exportable accounts is exportable. */
  lemma ListedRowExportable(rows: seq<Row>, accs: Accounts, i: nat)
    requires ListsAll(rows, accs) && Exportable(accs) && i < |rows|
    ensures NamesExportable(rows[i].account, rows[i].ticker)
  {
    assert rows[i].account in accs && rows[i].ticker in accs[rows[i].account];
  }

  lemma ListedRowsExportable(rows: seq<Row>, accs: Accounts)
    requires ListsAll(rows, accs) && Exportable(accs)
    ensures forall i :: 0 <= i < |rows| ==> NamesExportable(rows[i].account, rows[i].ticker)
  {
    forall i | 0 <= i < |rows|
      ensures NamesExportable(rows[i].account, rows[i].ticker)
    {
      ListedRowExportable(rows, accs, i);
    }
  }

  /** No exported line contains a line break. */
  lemma ExportedLinesUnbroken(rows: seq<Row>)
    requires forall i :: 0 <= i < |rows| ==> NamesExportable(rows[i].account, rows[i].ticker)
    ensures forall i :: 0 <= i < |[Header] + RowLines(rows)| ==> '\n' !in ([Header] + RowLines(rows))[i]
  {
    var lines := [Header] + RowLines(rows);
    forall i | 0 <= i < |lines|
      ensures '\n' !in lines[i]
    {
      if i > 0 {
        ExportableRowParsed(rows[i - 1]);
      }
    }
  }

  /** The import splits an export back into its lines. */
  lemma ExportedSplit(rows: seq<Row>)
    requires forall i :: 0 <= i < |rows| ==> NamesExportable(rows[i].account, rows[i].ticker)
    ensures SplitLines(CsvText(rows)) == [Header] + RowLines(rows)
  {
    ExportedLinesUnbroken(rows);
    CsvTextLines(rows);
    SplitLinesJoin([Header] + RowLines(rows));
  }

  /** The import reads the header line of an export as nothing ... */
  lemma HeaderLineParsed(rows: seq<Row>)
    ensures ParseLines([Header] + RowLines(rows))[0] == None
  {
    assert ([Header] + RowLines(rows))[0] == Header;
    HeaderSkipped();
  }

  /** ... and each further line as its row, or as nothing when the quantity
      is not positive. */
  lemma RowLineParsed(lines: seq<string>, i: nat, r: Row)
    requires i < |lines| && lines[i] == RowLine(r) && NamesExportable(r.account, r.ticker)
    ensures ParseLine(lines[i]) == if r.qty > 0 then Some(r) else None
  {
    ExportableRowParsed(r);
  }

  lemma ParsedRow(p: Option<Row>, line: string, r: Row)
    requires p == ParseLine(line) && line == RowLine(r) && NamesExportable(r.account, r.ticker)
    ensures p == if r.qty > 0 then Some(r) else None
  {
    ExportableRowParsed(r);
  }

  /** The lines of an export as the import parses them: the header skipped,
      then each row, or nothing for a row whose quantity is not positive. */
  lemma ExportLinesParsed(rows: seq<Row>)
    requires forall i :: 0 <= i < |rows| ==> NamesExportable(rows[i].account, rows[i].ticker)
    ensures var parsed := ParseLines([Header] + RowLines(rows));
      |parsed| == |rows| + 1 && parsed[0] == None &&
      forall i :: 1 <= i < |parsed| ==> parsed[i] == if rows[i - 1].qty > 0 then Some(rows[i - 1]) else None
  {
    var lines := [Header] + RowLines(rows);
    var parsed := ParseLines(lines);
    forall i | 1 <= i < |parsed|
      ensures parsed[i] == if rows[i - 1].qty > 0 then Some(rows[i - 1]) else None
    {
      AfterFirst(Header, RowLines(rows), i);
      ParsedRow(parsed[i], lines[i], rows[i - 1]);
    }
    HeaderLineParsed(rows);
  }

  /** What the import collects from the parsed lines of an export. */
  lemma CollectedExport(rows: seq<Row>, accs: Accounts, parsed: seq<Option<Row>>, a: string, t: string)
    requires ListsAll(rows, accs)
    requires |parsed| == |rows| + 1 && parsed[0] == None
    requires forall i :: 1 <= i < |parsed| ==>
      parsed[i] == if rows[i - 1].qty > 0 then Some(rows[i - 1]) else None
    ensures Has(Collect(parsed), a, t) <==> (a in accs && t in accs[a] && accs[a][t].qty > 0)
    ensures Has(Collect(parsed), a, t) ==> Collect(parsed)[a][t] == accs[a][t].qty
  {
    CollectHas(parsed, a, t);
    if a in accs && t in accs[a] && accs[a][t].qty > 0 {
      var i :| 0 <= i < |rows| && rows[i].account == a && rows[i].ticker == t;
      assert Carries(parsed[i + 1], a, t);
    }
    if Has(Collect(parsed), a, t) {
      var i := CollectLast(parsed, a, t);
      assert i >= 1;
      assert rows[i - 1].account == a && rows[i - 1].ticker == t;
    }
  }

  /** Exporting accounts and importing the text back yields exactly their
      positive positions, each with its quantity. */
  lemma ExportThenImport(rows: seq<Row>, accs: Accounts, a: string, t: string)
    requires ListsAll(rows, accs) && Exportable(accs)
    ensures var up := UploadedFrom(SplitLines(CsvText(rows)));
      (a in up && t in up[a]) <==> (a in accs && t in accs[a] && accs[a][t].qty > 0)
    ensures var up := UploadedFrom(SplitLines(CsvText(rows)));
      a in up && t in up[a] ==> up[a][t] == accs[a][t].qty
  {
    ListedRowsExportable(rows, accs);
    var parsed := ParseLines([Header] + RowLines(rows));
    ExportedSplit(rows);
    ExportLinesParsed(rows);
    CollectedExport(rows, accs, parsed, a, t);
  }

  // ---------------------------------------------------------------- update targets

  /** Every ticker held in some account. */
  function Held(accs: Accounts): set<string> {
    set a, t | a in accs && t in accs[a] :: t
  }

  /** Adding an account adds its tickers to the held ones. */
  lemma HeldAdd(m: Accounts, a: string, ps: Positions)
    requires a !in m
    ensures Held(m[a := ps]) == Held(m) + ps.Keys
  {
    forall t | t in Held(m)
      ensures t in Held(m[a := ps])
    {
      var b :| b in m && t in m[b];
      assert b != a && t in m[a := ps][b];
    }
    forall t | t in Held(m[a := ps])
      ensures t in Held(m) + ps.Keys
    {
      var b :| b in m[a := ps] && t in m[a := ps][b];
      if b != a {
        assert t in m[b];
      }
    }
    forall t | t in ps
      ensures t in Held(m[a := ps])
    {
      assert t in m[a := ps][a];
    }
  }

  lemma HeldStep(accs: Accounts, names: seq<string>, k: nat)
    requires Distinct(names) && k < |names| && forall a :: a in names <==> a in accs
    ensures Held(Among(accs, names[..k + 1])) == Held(Among(accs, names[..k])) + accs[names[k]].Keys
  {
    AmongStep(accs, names, k);
    NextIsNew(names, k);
    HeldAdd(Among(accs, names[..k]), names[k], accs[names[k]]);
  }

  lemma HeldAmongAll(accs: Accounts, names: seq<string>)
    requires forall a :: a in names <==> a in accs
    ensures Held(Among(accs, names[..|names|])) == Held(accs)
  {
    assert names[..|names|] == names;
    assert Among(accs, names) == accs;
  }

  /** The targets of `trigger_system_update`: everything (None) for a full
      update or an empty portfolio, else each held ticker once plus the seed
      ticker. */
  method SelectTargets(full: bool, accs: Accounts) returns (targets: Option<seq<string>>)
    ensures targets.None? <==> full || Held(accs) == {}
    ensures targets.Some? ==>
      Distinct(targets.value) && forall t :: t in targets.value <==> t in Held(accs) || t == SeedTicker
  {
    if full {
      return None;
    }
    var held: set<string> := {};
    var names := KeysOf(accs);
    for k := 0 to |names|
      invariant held == Held(Among(accs, names[..k]))
    {
      HeldStep(accs, names, k);
      held := held + accs[names[k]].Keys;
    }
    HeldAmongAll(accs, names);
    var tickers := ElementsOf(held);
    if tickers == [] {
      return None;
    }
    if SeedTicker !in tickers {
      tickers := tickers + [SeedTicker];
    }
    return Some(tickers);
  }

  /** `trigger_system_update`: `full` is the query argument compared without
      case to "true"; a targeted update reads the portfolio (which may
      migrate the file). */
  method TriggerTargets(store: PortfolioStorage, fullArg: string, now: string) returns (targets: Option<seq<string>>)
    modifies store
    ensures Lower(fullArg) == "true" ==> targets.None? && unchanged(store)
    ensures Lower(fullArg) != "true" ==>
      var accs := Loaded(old(store.file), now).accounts.value;
      store.file == AfterLoad(old(store.file), now) && store.named == old(store.named) &&
      (targets.None? <==> Held(accs) == {}) &&
      (targets.Some? ==>
        Distinct(targets.value) && forall t :: t in targets.value <==> t in Held(accs) || t == SeedTicker)
  {
    var full := Lower(fullArg) == "true";
    if full {
      return None;
    }
    var pfl := store.Load(now);
    targets := SelectTargets(false, pfl.accounts.value);
  }
}
