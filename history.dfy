/** How one ticker's distribution history is assembled in
    `get_dividend_info_async` (kr_etf_investor/loader.py): the rows of the
    mobile history API win, then the manual override rows, then the rows read
    from the HTML tables of the fund page; whichever is chosen is de-duplicated
    and sorted newest first. Dates are day numbers; `_parse_date_any` is the
    partial function `parseDate`, which the model does not look inside. */
module DistributionHistory {
  import opened Common
  import opened Sorting

  /** One distribution: ex-date (a day number) and amount in won. */
  datatype Row = Row(date: int, amount: int)

  function DateKey(r: Row): real { r.date as real }

  /** Both sequences hold the same rows, ignoring order and repeats. */
  ghost predicate SameRows(a: seq<Row>, b: seq<Row>) {
    forall r :: r in a <==> r in b
  }

  // ---------------------------------------------------------------- _clean_num

  /** The characters `_clean_num` keeps: digits, '.' and '-'. */
  predicate NumChar(c: char) { IsDigit(c) || c == '.' || c == '-' }

  /** `re.sub(r"[^\d\.\-]", "", s)`: every kept character, in order, as often
      as it occurs, and nothing else. */
  function KeepNumChars(s: string): (r: string)
    ensures |r| <= |s|
    ensures forall i :: 0 <= i < |r| ==> NumChar(r[i])
  {
    if s == [] then []
    else
      assert s == s[..|s| - 1] + [s[|s| - 1]];
      KeepNumChars(s[..|s| - 1]) + (if NumChar(s[|s| - 1]) then [s[|s| - 1]] else [])
  }

  /** Every kept character survives as often as it occurs; nothing else does. */
  lemma {:induction false} KeepNumCharsCounts(s: string)
    ensures forall c :: multiset(KeepNumChars(s))[c] == (if NumChar(c) then multiset(s)[c] else 0)
  {
    if s != [] {
      var init, last := s[..|s| - 1], s[|s| - 1];
      assert s == init + [last];
      KeepNumCharsCounts(init);
    }
  }

  /** `_clean_num(x)`: None gives the empty text. */
  function CleanNum(x: Option<string>): (r: string)
    ensures x.None? ==> r == ""
    ensures x.Some? ==> r == KeepNumChars(x.value)
  {
    match x
    case None => ""
    case Some(s) => KeepNumChars(s)
  }

  /** Cleaning distributes over concatenation: it never looks across
      characters, so it keeps their order. */
  lemma {:induction false} KeepNumCharsConcat(a: string, b: string)
    ensures KeepNumChars(a + b) == KeepNumChars(a) + KeepNumChars(b)
    decreases |b|
  {
    if b != [] {
      var b', last := b[..|b| - 1], b[|b| - 1];
      var tail := if NumChar(last) then [last] else [];
      assert (a + b)[..|a + b| - 1] == a + b';
      assert (a + b)[|a + b| - 1] == last;
      assert KeepNumChars(a + b) == KeepNumChars(a + b') + tail;
      assert KeepNumChars(b) == KeepNumChars(b') + tail;
      KeepNumCharsConcat(a, b');
    } else {
      assert a + b == a;
    }
  }

  /** A text made only of kept characters is left as it is. */
  lemma {:induction false} KeepNumCharsFixed(s: string)
    requires forall i :: 0 <= i < |s| ==> NumChar(s[i])
    ensures KeepNumChars(s) == s
  {
    if s != [] {
      KeepNumCharsFixed(s[..|s| - 1]);
      assert s == s[..|s| - 1] + [s[|s| - 1]];
    }
  }

  /** `_clean_num` is idempotent. */
  lemma CleanNumIdempotent(x: Option<string>)
    ensures CleanNum(Some(CleanNum(x))) == CleanNum(x)
  {
    KeepNumCharsFixed(CleanNum(x));
  }

  // ---------------------------------------------------------------- _safe_int

  /** `_safe_int(s)` on a text: Python's `int(s)` for an optionally signed run
      of ASCII digits with white space around it, and 0 where `int` raises. */
  function SafeInt(s: string): (n: int)
    ensures var t := Strip(s); t != [] && AllDigits(t) ==> n == DigitsValue(t)
    ensures var t := Strip(s); |t| >= 2 && t[0] == '-' && AllDigits(t[1..]) ==> n == 0 - DigitsValue(t[1..])
    ensures var t := Strip(s); |t| >= 2 && t[0] == '+' && AllDigits(t[1..]) ==> n == DigitsValue(t[1..])
    ensures var t := Strip(s);
      !(t != [] && AllDigits(t)) && !(|t| >= 2 && (t[0] == '-' || t[0] == '+') && AllDigits(t[1..])) ==> n == 0
    ensures n < 0 ==> |Strip(s)| >= 2 && Strip(s)[0] == '-'
  {
    var t := Strip(s);
    if t != [] && AllDigits(t) then DigitsValue(t)
    else if |t| >= 2 && t[0] == '-' && AllDigits(t[1..]) then 0 - DigitsValue(t[1..])
    else if |t| >= 2 && t[0] == '+' && AllDigits(t[1..]) then DigitsValue(t[1..])
    else 0
  }

  /** `_safe_int(str(n)) == n`. */
  lemma SafeIntPrinted(n: nat)
    ensures SafeInt(NatToString(n)) == n
  {
    var s := NatToString(n);
    assert !IsSpace(s[0]) && !IsSpace(s[|s| - 1]);
    StripUnchanged(s);
    NatToStringValue(n);
  }

  // ---------------------------------------------------------------- API rows

  /** What the API branch makes of one `(date text, amount text)` pair: a row
      when the date parses and the amount's integer value is positive. */
  function ApiRow(p: (string, string), parseDate: string -> Option<int>): seq<Row> {
    var d := parseDate(p.0);
    if d.Some? && SafeInt(p.1) > 0 then [Row(d.value, SafeInt(p.1))] else []
  }

  /** The rows of the API branch, in input order. */
  function ApiRows(raw: seq<(string, string)>, parseDate: string -> Option<int>): (rows: seq<Row>)
    ensures forall r :: r in rows ==> r.amount > 0
    ensures forall r :: r in rows <==>
      exists p :: p in raw && parseDate(p.0) == Some(r.date) && SafeInt(p.1) == r.amount && r.amount > 0
  {
    if raw == [] then []
    else
      var init := raw[..|raw| - 1];
      var p := raw[|raw| - 1];
      assert forall q :: q in raw <==> q in init || q == p;
      ApiRows(init, parseDate) + ApiRow(p, parseDate)
  }

  // ---------------------------------------------------------------- manual rows

  /** One entry of the manual override file: `{"date": ..., "amount": ...}`. */
  datatype ManualItem = ManualItem(date: string, amount: int)

  /** The manual branch keeps every item whose date parses; it does not look
      at the amount. */
  function ManualRows(items: seq<ManualItem>, parseDate: string -> Option<int>): (rows: seq<Row>)
    ensures forall r :: r in rows <==>
      exists it :: it in items && parseDate(it.date) == Some(r.date) && it.amount == r.amount
  {
    if items == [] then []
    else
      var init := items[..|items| - 1];
      var it := items[|items| - 1];
      assert forall q :: q in items <==> q in init || q == it;
      ManualRows(init, parseDate) +
        (if parseDate(it.date).Some? then [Row(parseDate(it.date).value, it.amount)] else [])
  }

  // ---------------------------------------------------------------- HTML tables

  /** A table as `pd.read_html` gives it: column names and rows of cells, each
      cell the text `str()` makes of it, or None for a missing value. */
  datatype Table = Table(columns: seq<string>, rows: seq<seq<Option<string>>>)

  const DateKeys: seq<string> := ["지급기준일", "분배기준일", "기준일", "지급일", "일자", "날짜"]
  const AmountKeys: seq<string> := ["분배금", "현금분배", "현금 분배", "분배금(원)", "현금분배(원)", "금액"]

  /** `s.replace(" ", "")`. */
  function RemoveSpaces(s: string): (r: string)
    ensures ' ' !in r && |r| <= |s|
  {
    if s == [] then []
    else
      assert s == s[..|s| - 1] + [s[|s| - 1]];
      RemoveSpaces(s[..|s| - 1]) + (if s[|s| - 1] == ' ' then [] else [s[|s| - 1]])
  }

  lemma {:induction false} RemoveSpacesConcat(a: string, b: string)
    ensures RemoveSpaces(a + b) == RemoveSpaces(a) + RemoveSpaces(b)
    decreases |b|
  {
    if b != [] {
      var b', last := b[..|b| - 1], b[|b| - 1];
      var tail := if last == ' ' then [] else [last];
      assert (a + b)[..|a + b| - 1] == a + b';
      assert (a + b)[|a + b| - 1] == last;
      assert RemoveSpaces(a + b) == RemoveSpaces(a + b') + tail;
      assert RemoveSpaces(b) == RemoveSpaces(b') + tail;
      RemoveSpacesConcat(a, b');
    } else {
      assert a + b == a;
    }
  }

  lemma {:induction false} RemoveSpacesNone(s: string)
    requires ' ' !in s
    ensures RemoveSpaces(s) == s
  {
    if s != [] {
      RemoveSpacesNone(s[..|s| - 1]);
      assert s == s[..|s| - 1] + [s[|s| - 1]];
    }
  }

  function RemoveSpacesAll(keys: seq<string>): (r: seq<string>)
    ensures |r| == |keys| && forall i :: 0 <= i < |keys| ==> r[i] == RemoveSpaces(keys[i])
  {
    if keys == [] then [] else [RemoveSpaces(keys[0])] + RemoveSpacesAll(keys[1..])
  }

  /** A column matches when, with spaces removed on both sides, one of the
      keys occurs in its name. */
  predicate ColumnMatches(col: string, keys: seq<string>) {
    ContainsAny(RemoveSpaces(col), RemoveSpacesAll(keys))
  }

  /** `find_col(cols, keys)`: the first matching column. */
  function FindColumn(cols: seq<string>, keys: seq<string>): (r: Option<nat>)
    ensures r.Some? ==> r.value < |cols| && ColumnMatches(cols[r.value], keys)
    ensures r.Some? ==> forall j :: 0 <= j < r.value ==> !ColumnMatches(cols[j], keys)
    ensures r.None? <==> forall j :: 0 <= j < |cols| ==> !ColumnMatches(cols[j], keys)
  {
    if cols == [] then None
    else if ColumnMatches(cols[0], keys) then Some(0)
    else match FindColumn(cols[1..], keys)
      case None => None
      case Some(j) => Some(j + 1)
  }

  /** The column-matching rule in terms of the keys themselves. */
  lemma ColumnMatchesMeans(col: string, keys: seq<string>)
    ensures ColumnMatches(col, keys) <==>
      exists i :: 0 <= i < |keys| && Contains(RemoveSpaces(col), RemoveSpaces(keys[i]))
  {
    ContainsAnyMeans(RemoveSpaces(col), RemoveSpacesAll(keys));
  }

  function Cell(row: seq<Option<string>>, c: nat): Option<string> {
    if c < |row| then row[c] else None
  }

  /** `v.isdigit()`: a non-empty run of digits. */
  predicate IsDigitText(v: string) { v != [] && AllDigits(v) }

  /** What one table row contributes: nothing when either cell is missing
      (`dropna`), when the date does not parse, or when the cleaned amount is
      not a plain digit run. */
  function CellRow(row: seq<Option<string>>, dc: nat, ac: nat, parseDate: string -> Option<int>): seq<Row> {
    var d, a := Cell(row, dc), Cell(row, ac);
    if d.Some? && a.Some? && parseDate(d.value).Some? && IsDigitText(CleanNum(a))
    then [Row(parseDate(d.value).value, DigitsValue(CleanNum(a)))]
    else []
  }

  function CellRows(rows: seq<seq<Option<string>>>, dc: nat, ac: nat, parseDate: string -> Option<int>): (out: seq<Row>)
    ensures forall r :: r in out ==> r.amount >= 0
    ensures forall r :: r in out <==> exists row :: row in rows && CellRow(row, dc, ac, parseDate) == [r]
  {
    if rows == [] then []
    else
      var init := rows[..|rows| - 1];
      var row := rows[|rows| - 1];
      assert forall q :: q in rows <==> q in init || q == row;
      CellRows(init, dc, ac, parseDate) + CellRow(row, dc, ac, parseDate)
  }

  /** The rows one table yields. A table lacking a date or an amount column
      yields none; so does one where both rules pick the same column, since
      selecting that column twice makes every cell a pair and the date test
      raises, which skips the table. */
  function TableRows(t: Table, parseDate: string -> Option<int>): (rows: seq<Row>)
    ensures forall r :: r in rows ==> r.amount >= 0
    ensures rows != [] ==> var dc, ac := FindColumn(t.columns, DateKeys), FindColumn(t.columns, AmountKeys);
      dc.Some? && ac.Some? && dc.value != ac.value
  {
    match (FindColumn(t.columns, DateKeys), FindColumn(t.columns, AmountKeys))
    case (Some(dc), Some(ac)) => if dc == ac then [] else CellRows(t.rows, dc, ac, parseDate)
    case _ => []
  }

  function AllTableRows(tables: seq<Table>, parseDate: string -> Option<int>): seq<Row> {
    if tables == [] then [] else AllTableRows(tables[..|tables| - 1], parseDate) + TableRows(tables[|tables| - 1], parseDate)
  }

  /** `_extract_history_from_html_tables`. */
  function HtmlRows(tables: seq<Table>, parseDate: string -> Option<int>): (rows: seq<Row>)
    ensures Distinct(rows) && SortedDesc(rows, DateKey)
    ensures forall r :: r in rows <==> r in AllTableRows(tables, parseDate)
  {
    NormalizeProps(AllTableRows(tables, parseDate));
    Normalize(AllTableRows(tables, parseDate))
  }

  /** A table whose first column matches both rules yields no rows, whatever
      its other columns are. */
  lemma SharedColumn(t: Table, parseDate: string -> Option<int>)
    requires t.columns != []
    requires ColumnMatches(t.columns[0], DateKeys) && ColumnMatches(t.columns[0], AmountKeys)
    ensures TableRows(t, parseDate) == []
  {
  }

  lemma MatchesFirstKey(col: string, keys: seq<string>)
    requires keys != [] && Contains(RemoveSpaces(col), RemoveSpaces(keys[0]))
    ensures ColumnMatches(col, keys)
  {
    assert RemoveSpacesAll(keys)[0] == RemoveSpaces(keys[0]);
  }

  /** "분배금 지급기준일" (payout base date) matches both rules, so a table
      headed by it yields no rows. */
  lemma SharedColumnExample()
    ensures ColumnMatches("분배금 지급기준일", DateKeys)
    ensures ColumnMatches("분배금 지급기준일", AmountKeys)
  {
    var col, amt, date := "분배금 지급기준일", "분배금", "지급기준일";
    PayoutColumnUnspaced();
    PayoutWordsUnspaced();
    ContainsJoined(amt, date);
    assert DateKeys[0] == date && AmountKeys[0] == amt;
    MatchesFirstKey(col, DateKeys);
    MatchesFirstKey(col, AmountKeys);
  }

  lemma PayoutColumnUnspaced()
    ensures RemoveSpaces("분배금 지급기준일") == "분배금" + "지급기준일"
  {
    assert "분배금 지급기준일" == "분배금" + " " + "지급기준일";
    SpaceRemoved("분배금", "지급기준일");
  }

  /** Removing the one space between two words joins them. */
  lemma SpaceRemoved(a: string, b: string)
    requires ' ' !in a && ' ' !in b
    ensures RemoveSpaces(a + " " + b) == a + b
  {
    var a' := a + " ";
    assert a'[..|a'| - 1] == a && a'[|a'| - 1] == ' ';
    assert RemoveSpaces(a') == RemoveSpaces(a);
    RemoveSpacesConcat(a', b);
    RemoveSpacesNone(a);
    RemoveSpacesNone(b);
  }

  lemma PayoutWordsUnspaced()
    ensures RemoveSpaces("분배금") == "분배금" && RemoveSpaces("지급기준일") == "지급기준일"
  {
    RemoveSpacesNone("분배금");
    RemoveSpacesNone("지급기준일");
  }

  /** Both halves of a concatenation occur in it. */
  lemma ContainsJoined(a: string, b: string)
    ensures Contains(a + b, a) && Contains(a + b, b)
  {
    assert (a + b)[0..|a|] == a;
    ContainsAt(a + b, a, 0);
    assert (a + b)[|a|..|a| + |b|] == b;
    ContainsAt(a + b, b, |a|);
  }

  // ---------------------------------------------------------------- dedup and sort

  /** `hist = list(set(hist)); hist.sort(key=date, reverse=True)`. */
  function Normalize(rows: seq<Row>): seq<Row> {
    SortDesc(Dedup(rows), DateKey)
  }

  /** The normalised history holds each input row exactly once, newest first. */
  lemma NormalizeProps(rows: seq<Row>)
    ensures Distinct(Normalize(rows))
    ensures SortedDesc(Normalize(rows), DateKey)
    ensures SameRows(Normalize(rows), rows)
  {
    var d := Dedup(rows);
    var n := SortDesc(d, DateKey);
    DistinctPerm(d, n);
    forall r ensures r in n <==> r in d {
      assert r in n <==> r in multiset(n);
      assert r in d <==> r in multiset(d);
    }
  }

  /** Normalising twice is normalising once: the HTML rows, normalised inside
      the table reader, are not changed by the second pass. */
  lemma NormalizeTwice(rows: seq<Row>)
    ensures Normalize(Normalize(rows)) == Normalize(rows)
  {
    var n := Normalize(rows);
    NormalizeProps(rows);
    DedupDistinct(n);
    SortSorted(n, DateKey);
  }

  // ---------------------------------------------------------------- precedence

  /** API rows if any, else manual rows if any, else the HTML rows when the
      fund page text is non-empty. */
  function Chosen(api: seq<Row>, manual: seq<Row>, htmlText: string, html: seq<Row>): seq<Row> {
    if api != [] then api
    else if manual != [] then manual
    else if htmlText != "" then html
    else []
  }

  /** The history block of `get_dividend_info_async`: the manual loop, the API
      loop, the precedence and the dedup/sort. */
  method BuildHistory(raw: seq<(string, string)>, manualData: map<string, seq<ManualItem>>, ticker: string,
                      htmlText: string, tables: seq<Table>, parseDate: string -> Option<int>)
    returns (hist: seq<Row>)
    ensures var api, manual := ApiRows(raw, parseDate),
                               if ticker in manualData then ManualRows(manualData[ticker], parseDate) else [];
      hist == Normalize(Chosen(api, manual, htmlText, HtmlRows(tables, parseDate)))
    ensures Distinct(hist) && SortedDesc(hist, DateKey)
    ensures ApiRows(raw, parseDate) != [] ==> SameRows(hist, ApiRows(raw, parseDate))
    ensures ApiRows(raw, parseDate) == [] && ticker in manualData && ManualRows(manualData[ticker], parseDate) != [] ==>
      SameRows(hist, ManualRows(manualData[ticker], parseDate))
    ensures ApiRows(raw, parseDate) == [] && (ticker !in manualData || ManualRows(manualData[ticker], parseDate) == []) ==>
      (if htmlText != "" then SameRows(hist, AllTableRows(tables, parseDate)) else hist == [])
  {
    var manual: seq<Row> := [];
    if ticker in manualData {
      var items := manualData[ticker];
      var i := 0;
      while i < |items|
        invariant 0 <= i <= |items|
        invariant manual == ManualRows(items[..i], parseDate)
      {
        ManualRowsStep(items, i, parseDate);
        var d := parseDate(items[i].date);
        if d.Some? {
          manual := manual + [Row(d.value, items[i].amount)];
        }
        i := i + 1;
      }
      assert items[..i] == items;
    }

    var rows: seq<Row> := [];
    var j := 0;
    while j < |raw|
      invariant 0 <= j <= |raw|
      invariant rows == ApiRows(raw[..j], parseDate)
    {
      ApiRowsStep(raw, j, parseDate);
      var d := parseDate(raw[j].0);
      var v := SafeInt(raw[j].1);
      if d.Some? && v > 0 {
        rows := rows + [Row(d.value, v)];
      }
      j := j + 1;
    }
    assert raw[..j] == raw;

    var chosen := rows;
    if chosen == [] && manual != [] {
      chosen := manual;
    }
    if chosen == [] && htmlText != "" {
      chosen := HtmlRows(tables, parseDate);
    }
    hist := Normalize(chosen);
    ChosenHistory(rows, manual, htmlText, tables, parseDate);
  }

  lemma ManualRowsStep(items: seq<ManualItem>, i: nat, parseDate: string -> Option<int>)
    requires i < |items|
    ensures var d := parseDate(items[i].date);
      ManualRows(items[..i + 1], parseDate) ==
        ManualRows(items[..i], parseDate) + if d.Some? then [Row(d.value, items[i].amount)] else []
  {
    assert items[..i + 1][..i] == items[..i];
  }

  lemma ApiRowsStep(raw: seq<(string, string)>, j: nat, parseDate: string -> Option<int>)
    requires j < |raw|
    ensures var d, v := parseDate(raw[j].0), SafeInt(raw[j].1);
      ApiRows(raw[..j + 1], parseDate) ==
        ApiRows(raw[..j], parseDate) + if d.Some? && v > 0 then [Row(d.value, v)] else []
  {
    assert raw[..j + 1][..j] == raw[..j];
  }

  /** What the precedence and the dedup/sort make of the three sources. */
  lemma ChosenHistory(api: seq<Row>, manual: seq<Row>, htmlText: string, tables: seq<Table>,
                      parseDate: string -> Option<int>)
    ensures var hist := Normalize(Chosen(api, manual, htmlText, HtmlRows(tables, parseDate)));
      Distinct(hist) && SortedDesc(hist, DateKey) &&
      (api != [] ==> SameRows(hist, api)) &&
      (api == [] && manual != [] ==> SameRows(hist, manual)) &&
      (api == [] && manual == [] ==>
        if htmlText != "" then SameRows(hist, AllTableRows(tables, parseDate)) else hist == [])
  {
    NormalizeProps(Chosen(api, manual, htmlText, HtmlRows(tables, parseDate)));
    NormalizeProps(AllTableRows(tables, parseDate));
  }

  // ---------------------------------------------------------------- fetch retries

  /** One entry of the API's `result` list; None is a missing key. */
  datatype Item = Item(exDividendAt: Option<string>, dividendAmount: Option<string>)

  /** What one attempt of the history fetch meets. */
  datatype Response =
    | Ok(result: Option<seq<Item>>)   // status 200; None when the body has no `result` list
    | Throttled                       // status 403 or 429: wait and retry
    | OtherStatus                     // any other status: give up
    | Raised                          // timeout, connection error or bad body: wait and retry

  /** `s.replace('.', '-')`. */
  function DotsToDashes(s: string): (r: string)
    ensures |r| == |s| && '.' !in r
    ensures forall i :: 0 <= i < |s| ==> r[i] == (if s[i] == '.' then '-' else s[i])
  {
    if s == [] then [] else [if s[0] == '.' then '-' else s[0]] + DotsToDashes(s[1..])
  }

  /** The `(date text, amount text)` pair of an item: a missing date is "",
      a missing amount "0". */
  function PairOf(it: Item): (p: (string, string))
    ensures '.' !in p.0
  {
    (DotsToDashes(it.exDividendAt.GetOr("")), it.dividendAmount.GetOr("0"))
  }

  /** An item is kept only when its date is non-empty and its amount neither
      empty nor "0". */
  predicate Usable(it: Item) {
    var p := PairOf(it);
    p.0 != "" && p.1 != "" && p.1 != "0"
  }

  /** The pairs of a 200 answer: those of the usable items, in order. */
  function Payload(result: Option<seq<Item>>): (pairs: seq<(string, string)>)
    ensures forall p :: p in pairs ==> p.0 != "" && '.' !in p.0 && p.1 != "" && p.1 != "0"
    ensures result.None? ==> pairs == []
    ensures result.Some? ==> |pairs| <= |result.value|
    ensures result.Some? ==> forall p :: p in pairs <==> exists it :: it in result.value && Usable(it) && PairOf(it) == p
    decreases if result.Some? then |result.value| else 0
  {
    match result
    case None => []
    case Some(items) =>
      if items == [] then []
      else
        var it := items[0];
        var rest := Payload(Some(items[1..]));
        assert forall x :: x in items <==> x == it || x in items[1..];
        (if Usable(it) then [PairOf(it)] else []) + rest
  }

  /** The pairs of consecutive item lists follow each other: the order of the
      answer is kept and every usable item gives its pair. */
  lemma {:induction false} PayloadConcat(a: seq<Item>, b: seq<Item>)
    ensures Payload(Some(a + b)) == Payload(Some(a)) + Payload(Some(b))
    decreases |a|
  {
    if a != [] {
      assert (a + b)[1..] == a[1..] + b;
      PayloadConcat(a[1..], b);
    } else {
      assert a + b == b;
    }
  }

  /** One item gives its pair when usable and nothing otherwise. */
  lemma PayloadOne(it: Item)
    ensures Payload(Some([it])) == if Usable(it) then [PairOf(it)] else []
  {
    assert [it][1..] == [];
  }

  predicate Retryable(r: Response) { r.Throttled? || r.Raised? }

  /** The outcome of attempts `attempt`, `attempt + 1`, ... (three in all). */
  function FetchFrom(respond: nat -> Response, attempt: nat): seq<(string, string)>
    requires attempt <= 3
    decreases 3 - attempt
  {
    if attempt == 3 then []
    else match respond(attempt)
      case Ok(result) => Payload(result)
      case OtherStatus => []
      case _ => FetchFrom(respond, attempt + 1)
  }

  /** `fetch_naver_etf_dividend_history_async`: at most three attempts, a
      throttled or failed attempt is retried, the first 200 decides, any other
      status ends the fetch with nothing. `respond(i)` is what attempt `i`
      meets; the one-second waits are not modelled. */
  method FetchDividendHistory(respond: nat -> Response) returns (pairs: seq<(string, string)>, attempts: nat)
    ensures 1 <= attempts <= 3
    ensures pairs == FetchFrom(respond, 0)
    ensures forall i :: 0 <= i < attempts - 1 ==> Retryable(respond(i))
    ensures attempts < 3 ==> !Retryable(respond(attempts - 1))
    ensures respond(attempts - 1).Ok? ==> pairs == Payload(respond(attempts - 1).result)
    ensures !respond(attempts - 1).Ok? ==> pairs == []
  {
    var attempt := 0;
    while attempt < 3
      invariant 0 <= attempt <= 3
      invariant forall i :: 0 <= i < attempt ==> Retryable(respond(i))
      invariant FetchFrom(respond, 0) == FetchFrom(respond, attempt)
    {
      var r := respond(attempt);
      if r.Ok? {
        return Payload(r.result), attempt + 1;
      } else if r.OtherStatus? {
        return [], attempt + 1;
      }
      attempt := attempt + 1;
    }
    return [], 3;
  }
}
