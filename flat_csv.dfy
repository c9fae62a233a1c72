/** The CSV and JSON handlers of the v1.0.1 Flask front end
    (backups/kr_etf_investor_backup_v1.0.1_20260102_2215/kr_etf_investor/flask_app.py)
    over the flat storage: the bulk update, the CSV export "Ticker,Qty", and
    the import that parses a CSV or JSON upload and writes it as a named
    portfolio. Request parsing and the HTTP responses are reduced to
    parameters and results. */
module FlatCsv {
  import opened Common
  import opened FlatPortfolio
  import BulkPositions

  const Header: string := "Ticker,Qty"

  /** A CSV line that carries a position. */
  datatype Entry = Entry(ticker: string, qty: int)

  // ---------------------------------------------------------------- bulk update

  /** `update_portfolio_bulk`: the document becomes exactly the posted
      positive quantities. */
  method BulkUpdate(store: FlatStorage, raw: map<string, BulkPositions.RawQty>, now: string) returns (d: FlatDoc)
    modifies store
    ensures d == FlatDoc(now, Some(BulkPositions.Formatted(raw)))
    ensures store.file == Stored(d) && store.named == old(store.named)
  {
    var formatted := BulkPositions.FormatPositions(raw);
    var success;
    d, success := store.BulkSave(formatted, now);
  }

  // ---------------------------------------------------------------- parsing a line

  /** The ticker is not the header word and the quantity reads as a
      positive integer; an empty ticker passes. */
  predicate Accepted(t: string, q: string) {
    Lower(t) != "ticker" && ParseQty(q).Some? && ParseQty(q).value > 0
  }

  /** The checks on the stripped fields: the header word and a quantity that
      does not read as a positive integer skip the line; the ticker itself
      is not checked. */
  function EntryOf(t: string, q: string): (e: Option<Entry>)
    ensures e.Some? <==> Accepted(t, q)
    ensures e.Some? ==> e.value == Entry(t, ParseQty(q).value) && e.value.qty > 0
  {
    if Lower(t) == "ticker" then None
    else
      match ParseQty(q)
      case Some(n) => if n > 0 then Some(Entry(t, n)) else None
      case None => None
  }

  /** One line of a CSV upload: the first two fields are ticker and
      quantity; a line of fewer than two fields is skipped (None). */
  function ParseFlatLine(line: string): (e: Option<Entry>)
    ensures var p := Split(line, ','); |p| < 2 ==> e.None?
    ensures var p := Split(line, ','); |p| >= 2 ==> e == EntryOf(Strip(p[0]), Strip(p[1]))
    ensures e.Some? ==> e.value.qty > 0
  {
    var parts := Split(line, ',');
    if |parts| < 2 then None else EntryOf(Strip(parts[0]), Strip(parts[1]))
  }

  function ParseFlatLines(lines: seq<string>): (es: seq<Option<Entry>>)
    ensures |es| == |lines|
    ensures forall i :: 0 <= i < |lines| ==> es[i] == ParseFlatLine(lines[i])
  {
    seq(|lines|, i requires 0 <= i < |lines| => ParseFlatLine(lines[i]))
  }

  /** What the import loop collects from the parsed lines, in order: a later
      line for the same ticker overwrites an earlier one. */
  function FlatCollect(es: seq<Option<Entry>>): map<string, int> {
    if es == [] then map[]
    else
      var p := FlatCollect(es[..|es| - 1]);
      match es[|es| - 1]
      case None => p
      case Some(e) => p[e.ticker := e.qty]
  }

  /** The positions the import reads from the lines of a CSV upload. */
  function FlatPositionsFrom(lines: seq<string>): map<string, int> {
    FlatCollect(ParseFlatLines(lines))
  }

  predicate Names(e: Option<Entry>, t: string) {
    e.Some? && e.value.ticker == t
  }

  /** Some line names the ticker. */
  predicate NamedIn(es: seq<Option<Entry>>, t: string) {
    exists i :: 0 <= i < |es| && Names(es[i], t)
  }

  /** One more line adds at most its own ticker. */
  lemma FlatCollectStep(es: seq<Option<Entry>>, t: string)
    requires es != []
    ensures var n := |es| - 1;
      t in FlatCollect(es) <==> t in FlatCollect(es[..n]) || Names(es[n], t)
    ensures var n := |es| - 1;
      t in FlatCollect(es) && !Names(es[n], t) ==> FlatCollect(es)[t] == FlatCollect(es[..n])[t]
    ensures var n := |es| - 1;
      Names(es[n], t) ==> FlatCollect(es)[t] == es[n].value.qty
  {
  }

  lemma NamedStep(es: seq<Option<Entry>>, t: string)
    requires es != []
    ensures NamedIn(es, t) <==> NamedIn(es[..|es| - 1], t) || Names(es[|es| - 1], t)
  {
    var n := |es| - 1;
    var p := es[..n];
    if NamedIn(es, t) {
      var i :| 0 <= i < |es| && Names(es[i], t);
      if i < n {
        assert p[i] == es[i];
      }
    }
    if NamedIn(p, t) {
      var i :| 0 <= i < |p| && Names(p[i], t);
      assert es[i] == p[i];
    }
  }

  /** A ticker is collected exactly when some line names it. */
  lemma {:induction false} FlatCollectHas(es: seq<Option<Entry>>, t: string)
    ensures t in FlatCollect(es) <==> NamedIn(es, t)
  {
    if es != [] {
      FlatCollectHas(es[..|es| - 1], t);
      FlatCollectStep(es, t);
      NamedStep(es, t);
    }
  }

  /** The quantity collected is that of the last line naming the ticker. */
  lemma {:induction false} FlatCollectLast(es: seq<Option<Entry>>, t: string) returns (i: nat)
    requires t in FlatCollect(es)
    ensures i < |es| && Names(es[i], t)
    ensures es[i].value.qty == FlatCollect(es)[t]
    ensures forall j :: i < j < |es| ==> !Names(es[j], t)
  {
    var n := |es| - 1;
    FlatCollectStep(es, t);
    if Names(es[n], t) {
      i := n;
    } else {
      var p := es[..n];
      i := FlatCollectLast(p, t);
      assert es[i] == p[i];
      forall j | i < j < |es|
        ensures !Names(es[j], t)
      {
        if j < n {
          assert es[j] == p[j];
        }
      }
    }
  }

  /** Every position read from a CSV upload has a positive quantity. */
  lemma FlatPositionsPositive(lines: seq<string>, t: string)
    requires t in FlatPositionsFrom(lines)
    ensures FlatPositionsFrom(lines)[t] > 0
  {
    var i := FlatCollectLast(ParseFlatLines(lines), t);
  }

  /** The body of the parse loop for one line. */
  method ReadFlatLine(line: string) returns (e: Option<Entry>)
    ensures e == ParseFlatLine(line)
  {
    var parts := Split(line, ',');
    if |parts| < 2 {
      return None;
    }
    var t := Strip(parts[0]);
    var q := Strip(parts[1]);
    if Lower(t) == "ticker" {
      return None;
    }
    var qty := ParseQty(q);
    if qty.Some? && qty.value > 0 {
      e := Some(Entry(t, qty.value));
    } else {
      e := None;
    }
  }

  /** The CSV branch of `import_portfolio`: the line loop. */
  method ParseFlatCsv(content: string) returns (positions: map<string, int>)
    ensures positions == FlatPositionsFrom(SplitLines(content))
  {
    positions := CollectFlat(SplitLines(content));
  }

  /** The loop over the lines of an upload. */
  method CollectFlat(lines: seq<string>) returns (positions: map<string, int>)
    ensures positions == FlatPositionsFrom(lines)
  {
    ghost var parsed := ParseFlatLines(lines);
    positions := map[];
    for i := 0 to |lines|
      invariant positions == FlatCollect(parsed[..i])
    {
      assert parsed[..i + 1][..i] == parsed[..i];
      var e := ReadFlatLine(lines[i]);
      assert e == parsed[i];
      if e.Some? {
        positions := positions[e.value.ticker := e.value.qty];
      }
    }
    assert parsed[..|lines|] == parsed;
  }

  // ---------------------------------------------------------------- import

  /** The upload read as JSON: not JSON at all, or a document whose
      `positions` key may be absent. */
  datatype JsonBody = Malformed | JsonDoc(positions: Option<map<string, int>>)

  /** An uploaded file: its name, the optional `name` form field (empty when
      absent), and its content decoded as text and read as JSON. */
  datatype FlatUpload = FlatUpload(filename: string, formName: string, text: string, json: JsonBody)

  datatype FlatImportResult =
    | ImportError(error: string)
    | ImportWarning(warning: string)
    | Imported(name: string, count: nat)

  /** `os.path.splitext(p)[1]`: the extension with its dot, or "". */
  function SplitExtSuffix(p: string): (ext: string)
    ensures SplitExtRoot(p) + ext == p
  {
    p[|SplitExtRoot(p)|..]
  }

  /** Files read as CSV text; every other extension is read as JSON. */
  predicate IsTextExt(filename: string) {
    var ext := Lower(SplitExtSuffix(filename));
    ext == ".csv" || ext == ".txt"
  }

  /** The name a portfolio is imported under: the form field, else the file
      name without its extension. */
  function NameBase(u: FlatUpload): string {
    if u.formName != "" then u.formName else SplitExtRoot(u.filename)
  }

  /** The positions an upload yields: parsed from the lines of a CSV/TXT
      file, else the `positions` key of a JSON document; None when the JSON
      is malformed or the key is missing. */
  function UploadPositions(u: FlatUpload): (ps: Option<map<string, int>>)
    ensures IsTextExt(u.filename) ==> ps == Some(FlatPositionsFrom(SplitLines(u.text)))
    ensures ps.None? <==> !IsTextExt(u.filename) && (u.json.Malformed? || u.json.positions.None?)
  {
    if IsTextExt(u.filename) then Some(FlatPositionsFrom(SplitLines(u.text)))
    else if u.json.JsonDoc? then u.json.positions else None
  }

  /** The reading half of `import_portfolio`: a CSV/TXT upload goes through
      the line loop, anything else is taken from its JSON document. */
  method ReadUpload(u: FlatUpload) returns (read: Option<map<string, int>>)
    ensures read == UploadPositions(u)
  {
    if IsTextExt(u.filename) {
      var positions := ParseFlatCsv(u.text);
      return Some(positions);
    }
    match u.json {
      case Malformed =>
        return None;
      case JsonDoc(ps) =>
        return ps;
    }
  }

  /** `import_portfolio`: a CSV/TXT upload is parsed line by line, anything
      else as JSON with a `positions` key; non-empty positions are written,
      with the time, as the named portfolio (the name is not checked), and
      nothing else changes. */
  method ImportFlat(store: FlatStorage, upload: Option<FlatUpload>, now: string) returns (res: FlatImportResult)
    modifies store
    ensures upload.None? ==> res == ImportError("No file part") && unchanged(store)
    ensures upload.Some? && upload.value.filename == "" ==> res == ImportError("No selected file") && unchanged(store)
    ensures upload.Some? && upload.value.filename != "" && !IsTextExt(upload.value.filename) ==>
      (upload.value.json.Malformed? ==> res == ImportError("Parse Error") && unchanged(store)) &&
      (upload.value.json.JsonDoc? && upload.value.json.positions.None? ==>
        res == ImportError("Invalid JSON structure (missing positions)") && unchanged(store))
    ensures upload.Some? && upload.value.filename != "" && UploadPositions(upload.value) == Some(map[]) ==>
      res == ImportWarning("No valid positions found imported") && unchanged(store)
    ensures upload.Some? && upload.value.filename != "" && UploadPositions(upload.value).Some? &&
            UploadPositions(upload.value).value != map[] ==>
      res == Imported(NameBase(upload.value), |UploadPositions(upload.value).value|) &&
      store.file == old(store.file) &&
      store.named == old(store.named)[NameBase(upload.value) := FlatDoc(now, UploadPositions(upload.value))]
  {
    if upload.None? {
      return ImportError("No file part");
    }
    var u := upload.value;
    if u.filename == "" {
      return ImportError("No selected file");
    }
    var nameBase := NameBase(u);
    var read := ReadUpload(u);
    if read.None? {
      if u.json.Malformed? {
        return ImportError("Parse Error");
      }
      return ImportError("Invalid JSON structure (missing positions)");
    }
    var positions := read.value;
    if positions == map[] {
      return ImportWarning("No valid positions found imported");
    }
    store.named := store.named[nameBase := FlatDoc(now, Some(positions))];
    res := Imported(nameBase, |positions|);
  }

  // ---------------------------------------------------------------- export

  /** One exported line, `f"{sym},{qty}"`. */
  function EntryLine(e: Entry): string {
    e.ticker + "," + IntToString(e.qty)
  }

  function EntryLines(es: seq<Entry>): (ls: seq<string>)
    ensures |ls| == |es| && forall i :: 0 <= i < |es| ==> ls[i] == EntryLine(es[i])
  {
    seq(|es|, i requires 0 <= i < |es| => EntryLine(es[i]))
  }

  const HeaderLine := Header + "\n"

  /** The exported text: the header line, then one line per entry, each
      ended by a line break, as the handler appends them. */
  function FlatCsvText(es: seq<Entry>): string {
    if es == [] then HeaderLine else FlatCsvText(es[..|es| - 1]) + EntryLine(es[|es| - 1]) + "\n"
  }

  lemma FlatCsvTextAppend(es: seq<Entry>, e: Entry)
    ensures FlatCsvText(es + [e]) == FlatCsvText(es) + EntryLine(e) + "\n"
  {
    assert (es + [e])[..|es|] == es;
  }

  lemma HeadedEntriesSnoc(es: seq<Entry>, e: Entry)
    ensures [Header] + EntryLines(es + [e]) == ([Header] + EntryLines(es)) + [EntryLine(e)]
  {
    assert EntryLines(es + [e]) == EntryLines(es) + [EntryLine(e)];
  }

  lemma FlatCsvTextStep(es: seq<Entry>)
    requires es != []
    ensures FlatCsvText(es) == FlatCsvText(es[..|es| - 1]) + EntryLine(es[|es| - 1]) + "\n"
  {
  }

  /** The text is the header and the entries' lines, joined. */
  lemma {:induction false} FlatCsvTextLines(es: seq<Entry>)
    ensures FlatCsvText(es) == JoinLines([Header] + EntryLines(es))
  {
    if es == [] {
      assert [Header] + EntryLines(es) == [Header] + [];
      JoinLinesSnoc([], Header);
    } else {
      var p, e := es[..|es| - 1], es[|es| - 1];
      assert es == p + [e];
      FlatCsvTextLines(p);
      FlatCsvTextStep(es);
      HeadedEntriesSnoc(p, e);
      JoinLinesSnoc([Header] + EntryLines(p), EntryLine(e));
    }
  }

  /** `es` lists every position of `ps` exactly once, with its quantity. */
  predicate ListsAll(es: seq<Entry>, ps: map<string, int>) {
    (forall i :: 0 <= i < |es| ==> es[i].ticker in ps && es[i].qty == ps[es[i].ticker]) &&
    (forall i, j :: 0 <= i < j < |es| ==> es[i].ticker != es[j].ticker) &&
    (forall t :: t in ps ==> exists i :: 0 <= i < |es| && es[i].ticker == t)
  }

  /** The entries for the given tickers, in their order. */
  function EntriesFor(ps: map<string, int>, syms: seq<string>): (es: seq<Entry>)
    ensures |es| == |syms|
  {
    seq(|syms|, i requires 0 <= i < |syms| => Entry(syms[i], if syms[i] in ps then ps[syms[i]] else 0))
  }

  /** Listing each ticker once lists the positions. */
  lemma EntriesListed(ps: map<string, int>, syms: seq<string>)
    requires Distinct(syms) && forall t :: t in syms <==> t in ps
    ensures ListsAll(EntriesFor(ps, syms), ps)
  {
    var es := EntriesFor(ps, syms);
    forall t | t in ps
      ensures exists i :: 0 <= i < |es| && es[i].ticker == t
    {
      var i :| 0 <= i < |syms| && syms[i] == t;
      assert es[i].ticker == t;
    }
  }

  /** One more position: its entry and its line. */
  lemma EntryStep(out: string, ps: map<string, int>, syms: seq<string>, k: nat)
    requires k < |syms| && syms[k] in ps
    requires out == FlatCsvText(EntriesFor(ps, syms[..k]))
    ensures var e := Entry(syms[k], ps[syms[k]]);
      EntriesFor(ps, syms[..k + 1]) == EntriesFor(ps, syms[..k]) + [e] &&
      out + EntryLine(e) + "\n" == FlatCsvText(EntriesFor(ps, syms[..k + 1]))
  {
    EntriesForStep(ps, syms, k);
    FlatCsvTextAppend(EntriesFor(ps, syms[..k]), Entry(syms[k], ps[syms[k]]));
  }

  lemma EntriesForStep(ps: map<string, int>, syms: seq<string>, k: nat)
    requires k < |syms| && syms[k] in ps
    ensures EntriesFor(ps, syms[..k + 1]) == EntriesFor(ps, syms[..k]) + [Entry(syms[k], ps[syms[k]])]
  {
  }

  /** The CSV loop of `export_portfolio`. */
  method ExportPositions(ps: map<string, int>) returns (text: string, ghost es: seq<Entry>)
    ensures text == FlatCsvText(es)
    ensures ListsAll(es, ps)
  {
    text, es := HeaderLine, [];
    var symbols := KeysOf(ps);
    for k := 0 to |symbols|
      invariant es == EntriesFor(ps, symbols[..k])
      invariant text == FlatCsvText(es)
    {
      var sym := symbols[k];
      var e := Entry(sym, ps[sym]);
      EntryStep(text, ps, symbols, k);
      text := text + EntryLine(e) + "\n";
      es := es + [e];
    }
    assert symbols[..|symbols|] == symbols;
    EntriesListed(ps, symbols);
  }

  datatype ExportResult = NotFound | Csv(text: string)

  /** The CSV branch of `export_portfolio`: the active portfolio when no
      name is given, else the named one; a document without positions
      exports none. Nothing is written. */
  method ExportFlatCsv(store: FlatStorage, name: string) returns (res: ExportResult, ghost es: seq<Entry>)
    ensures name == "" ==>
      res.Csv? && res.text == FlatCsvText(es) && ListsAll(es, LoadedFlat(store.file).positions.GetOr(map[]))
    ensures name != "" && name !in store.named ==> res == NotFound
    ensures name != "" && name in store.named ==>
      res.Csv? && res.text == FlatCsvText(es) && ListsAll(es, store.named[name].positions.GetOr(map[]))
  {
    var data: FlatDoc;
    if name != "" {
      if name !in store.named {
        return NotFound, [];
      }
      data := store.named[name];
    } else {
      data := store.Load();
    }
    var text;
    text, es := ExportPositions(data.positions.GetOr(map[]));
    res := Csv(text);
  }

  // ---------------------------------------------------------------- export, then import

  lemma JoinTwo(t: string, q: string)
    ensures JoinWith([t, q], ',') == t + "," + q
  {
    assert [t, q][1..] == [q];
    assert JoinWith([q], ',') == q;
  }

  lemma SplitJoinTwo(t: string, q: string)
    requires ',' !in t && ',' !in q
    ensures Split(JoinWith([t, q], ','), ',') == [t, q]
  {
    var parts := [t, q];
    assert forall i :: 0 <= i < |parts| ==> ',' !in parts[i];
    SplitJoin(parts, ',');
  }

  /** A line of two comma-free fields splits back into them. */
  lemma SplitTwo(t: string, q: string)
    requires ',' !in t && ',' !in q
    ensures Split(t + "," + q, ',') == [t, q]
  {
    JoinTwo(t, q);
    SplitJoinTwo(t, q);
  }

  lemma NoBreakTwo(t: string, q: string)
    requires '\n' !in t && '\n' !in q
    ensures '\n' !in t + "," + q
  {
  }

  /** A line of two safe fields is checked as those fields. */
  lemma ParseTwo(t: string, q: string)
    requires SafeField(t) && SafeField(q)
    ensures ParseFlatLine(t + "," + q) == EntryOf(t, q)
  {
    SplitTwo(t, q);
  }

  /** Columns after the second do not change how a line is read. */
  lemma ExtraColumnsIgnored(t: string, q: string, rest: string)
    requires ',' !in t && ',' !in q
    ensures ParseFlatLine(t + "," + q + "," + rest) == ParseFlatLine(t + "," + q)
  {
    SplitThreeOrMore(t, q, rest);
    SplitCons(t, ',', q);
    assert t + "," + q == t + [','] + q;
  }

  lemma SplitThreeOrMore(t: string, q: string, rest: string)
    requires ',' !in t && ',' !in q
    ensures var p := Split(t + "," + q + "," + rest, ',');
      |p| > 2 && p[0] == t && p[1] == q
  {
    var tail := q + [','] + rest;
    JoinTail(t, q, rest);
    SplitCons(q, ',', rest);
    SplitCons(t, ',', tail);
  }

  lemma JoinTail(t: string, q: string, rest: string)
    ensures t + "," + q + "," + rest == t + [','] + (q + [','] + rest)
  {
  }

  lemma HeaderJoined()
    ensures Header == "Ticker" + "," + "Qty"
  {
  }

  /** A line whose first field reads "ticker" is skipped. */
  lemma SkippedAsTicker(t: string, q: string)
    requires ',' !in t && ',' !in q
    requires t != [] && !IsSpace(t[0]) && !IsSpace(t[|t| - 1])
    requires q != [] && !IsSpace(q[0]) && !IsSpace(q[|q| - 1])
    requires Lower(t) == "ticker"
    ensures ParseFlatLine(t + "," + q) == None
  {
    SplitTwo(t, q);
    StripUnchanged(t);
    StripUnchanged(q);
  }

  lemma TickerWord()
    ensures Lower("Ticker") == "ticker"
  {
    var l := Lower("Ticker");
    assert l[0] == 't' && l[1] == 'i' && l[2] == 'c' && l[3] == 'k' && l[4] == 'e' && l[5] == 'r';
  }

  lemma HeaderWordsSkipped()
    ensures ParseFlatLine("Ticker" + "," + "Qty") == None
  {
    TickerWord();
    SkippedAsTicker("Ticker", "Qty");
  }

  /** The header line is skipped by the import. */
  lemma HeaderSkipped()
    ensures ParseFlatLine(Header) == None
  {
    HeaderJoined();
    HeaderWordsSkipped();
  }

  /** An exported line is read back as its entry, or skipped when the
      quantity is not positive. */
  lemma EntryParsed(e: Entry)
    requires SafeField(e.ticker) && Lower(e.ticker) != "ticker"
    ensures ParseFlatLine(EntryLine(e)) == if e.qty > 0 then Some(e) else None
    ensures '\n' !in EntryLine(e)
  {
    var q := IntToString(e.qty);
    QtyTextSafe(e.qty);
    ParseTwo(e.ticker, q);
    QtyRoundTrip(e.qty);
    NoBreakTwo(e.ticker, q);
  }

  /** A ticker that survives the CSV format: no comma or line break, no
      surrounding white space, and not the header word. */
  predicate TickerExportable(t: string) {
    SafeField(t) && Lower(t) != "ticker"
  }

  lemma ExportableEntryParsed(e: Entry)
    requires TickerExportable(e.ticker)
    ensures ParseFlatLine(EntryLine(e)) == if e.qty > 0 then Some(e) else None
    ensures '\n' !in EntryLine(e)
  {
    EntryParsed(e);
  }

  lemma LineOfEntry(es: seq<Entry>, i: nat)
    requires 1 <= i <= |es|
    ensures ([Header] + EntryLines(es))[i] == EntryLine(es[i - 1])
  {
    AfterFirst(Header, EntryLines(es), i);
  }

  /** No exported line contains a line break. */
  lemma ExportedLinesUnbroken(es: seq<Entry>)
    requires forall i :: 0 <= i < |es| ==> TickerExportable(es[i].ticker)
    ensures forall i :: 0 <= i < |[Header] + EntryLines(es)| ==> '\n' !in ([Header] + EntryLines(es))[i]
  {
    var lines := [Header] + EntryLines(es);
    forall i | 0 <= i < |lines|
      ensures '\n' !in lines[i]
    {
      if i > 0 {
        LineOfEntry(es, i);
        ExportableEntryParsed(es[i - 1]);
      }
    }
  }

  /** The import splits an export back into its lines. */
  lemma ExportedSplit(es: seq<Entry>)
    requires forall i :: 0 <= i < |es| ==> TickerExportable(es[i].ticker)
    ensures SplitLines(FlatCsvText(es)) == [Header] + EntryLines(es)
  {
    ExportedLinesUnbroken(es);
    FlatCsvTextLines(es);
    SplitLinesJoin([Header] + EntryLines(es));
  }

  lemma HeaderLineParsed(es: seq<Entry>)
    ensures ParseFlatLine(([Header] + EntryLines(es))[0]) == None
  {
    assert ([Header] + EntryLines(es))[0] == Header;
    HeaderSkipped();
  }

  lemma EntryLineParsed(es: seq<Entry>, i: nat)
    requires 1 <= i <= |es| && TickerExportable(es[i - 1].ticker)
    ensures ParseFlatLine(([Header] + EntryLines(es))[i]) == if es[i - 1].qty > 0 then Some(es[i - 1]) else None
  {
    LineOfEntry(es, i);
    ExportableEntryParsed(es[i - 1]);
  }

  /** The lines of an export as the import parses them: the header skipped,
      then each entry, or nothing for a quantity that is not positive. */
  lemma ExportLinesParsed(es: seq<Entry>)
    requires forall i :: 0 <= i < |es| ==> TickerExportable(es[i].ticker)
    ensures var parsed := ParseFlatLines([Header] + EntryLines(es));
      |parsed| == |es| + 1 && parsed[0] == None &&
      forall i :: 1 <= i < |parsed| ==> parsed[i] == if es[i - 1].qty > 0 then Some(es[i - 1]) else None
  {
    var lines := [Header] + EntryLines(es);
    var parsed := ParseFlatLines(lines);
    forall i | 1 <= i < |parsed|
      ensures parsed[i] == if es[i - 1].qty > 0 then Some(es[i - 1]) else None
    {
      EntryLineParsed(es, i);
      assert parsed[i] == ParseFlatLine(lines[i]);
    }
    HeaderLineParsed(es);
    assert parsed[0] == ParseFlatLine(lines[0]);
  }

  /** Every entry listing exportable positions is exportable. */
  lemma ListedEntriesExportable(es: seq<Entry>, ps: map<string, int>)
    requires ListsAll(es, ps) && forall t :: t in ps ==> TickerExportable(t)
    ensures forall i :: 0 <= i < |es| ==> TickerExportable(es[i].ticker)
  {
  }

  /** The import of an export collects from its parsed lines. */
  lemma ExportedParsed(es: seq<Entry>) returns (parsed: seq<Option<Entry>>)
    requires forall i :: 0 <= i < |es| ==> TickerExportable(es[i].ticker)
    ensures FlatPositionsFrom(SplitLines(FlatCsvText(es))) == FlatCollect(parsed)
    ensures |parsed| == |es| + 1 && parsed[0] == None
    ensures forall i :: 1 <= i < |parsed| ==> parsed[i] == if es[i - 1].qty > 0 then Some(es[i - 1]) else None
  {
    var lines := [Header] + EntryLines(es);
    ExportedSplit(es);
    assert SplitLines(FlatCsvText(es)) == lines;
    parsed := ParseFlatLines(lines);
    assert FlatPositionsFrom(SplitLines(FlatCsvText(es))) == FlatCollect(parsed);
    ExportLinesParsed(es);
  }

  /** What the import collects from the parsed lines of an export. */
  lemma CollectedExport(es: seq<Entry>, ps: map<string, int>, parsed: seq<Option<Entry>>, t: string)
    requires ListsAll(es, ps)
    requires |parsed| == |es| + 1 && parsed[0] == None
    requires forall i :: 1 <= i < |parsed| ==>
      parsed[i] == if es[i - 1].qty > 0 then Some(es[i - 1]) else None
    ensures t in FlatCollect(parsed) <==> t in ps && ps[t] > 0
    ensures t in FlatCollect(parsed) ==> FlatCollect(parsed)[t] == ps[t]
  {
    FlatCollectHas(parsed, t);
    if t in ps && ps[t] > 0 {
      var i :| 0 <= i < |es| && es[i].ticker == t;
      assert Names(parsed[i + 1], t);
    }
    if t in FlatCollect(parsed) {
      var i := FlatCollectLast(parsed, t);
      assert i >= 1;
      assert es[i - 1].ticker == t;
    }
  }

  /** Exporting positions and importing the text back yields exactly the
      positive ones, each with its quantity. */
  lemma ExportThenImport(es: seq<Entry>, ps: map<string, int>, t: string)
    requires ListsAll(es, ps) && forall s :: s in ps ==> TickerExportable(s)
    ensures var back := FlatPositionsFrom(SplitLines(FlatCsvText(es)));
      (t in back <==> t in ps && ps[t] > 0) && (t in back ==> back[t] == ps[t])
  {
    ListedEntriesExportable(es, ps);
    var parsed := ExportedParsed(es);
    CollectedExport(es, ps, parsed, t);
  }
}
