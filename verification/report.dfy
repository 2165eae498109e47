/** Workbook assembly (`ParseBhavCopy.write_xlsx`): the `ALL SCRIPS` sheet
    with every record after the first, then one sheet per client line of the
    registry, in file order, holding the records whose name the client lists. */
module Report {
  import opened Outcomes
  import opened Text
  import opened Paths
  import opened Records
  import opened Clients
  import opened Sheets
  import Seqs

  datatype Workbook = Workbook(path: string, sheets: seq<Sheet>)

  /** Why `parse_csv` and `write_xlsx` do not complete: a short CSV row, a price
      that cannot be written as a number (the position of its record), a registry file that does not exist yet
      (it is created from the template and the run stops), or a registry line
      that cannot be read. */
  datatype Failure =
    | BadRow(rowError: RowError)
    | BadPrice(record: nat)
    | RegistryMissing
    | BadRegistry(lineError: RegistryError)

  const AllScrips := "ALL SCRIPS"

  /** `scrip_data[1:]`: every record but the first, which is the header. */
  function Body(records: seq<ScripRecord>): (b: seq<ScripRecord>)
    ensures |b| == if records == [] then 0 else |records| - 1
    ensures forall i :: 0 <= i < |b| ==> b[i] == records[i + 1]
  {
    if records == [] then [] else records[1..]
  }

  /** `os.path.dirname(csv) + '/' + csv_name[-6:] + '.xlsx'`. */
  function WorkbookPath(csvPath: string): string {
    Dirname(csvPath) + "/" + Last(Stem(csvPath), 6) + ".xlsx"
  }

  /** The workbook is named after the last six characters of the CSV's name
      without extension. It sits in the CSV's directory when that directory
      does not end in '/' (it ends in '/' only when it is the root), and in
      the root `/` when the CSV path has no directory at all. */
  lemma WorkbookName(csvPath: string)
    ensures var p := WorkbookPath(csvPath);
      var d := Dirname(csvPath);
      && Basename(p) == Last(Stem(csvPath), 6) + ".xlsx"
      && |Basename(p)| <= 11
      && p[..|d|] == d
      && (d == [] <==> '/' !in csvPath)
      && (d != [] && d[|d| - 1] != '/' ==> Dirname(p) == d)
      && (d == [] ==> Dirname(p) == "/")
  {
    var stem := Stem(csvPath);
    StemNoSlash(csvPath);
    LastAbsent(stem, 6, '/');
    DirnameEmpty(csvPath);
    WorkbookFile(Dirname(csvPath), Last(stem, 6));
  }

  lemma WorkbookFile(dir: string, tail: string)
    requires '/' !in tail
    ensures var p := dir + "/" + tail + ".xlsx";
      && Basename(p) == tail + ".xlsx"
      && p[..|dir|] == dir
      && (dir == [] || dir[|dir| - 1] != '/' ==> Dirname(p) == if dir == [] then "/" else dir)
  {
    var name := tail + ".xlsx";
    assert '/' !in name;
    assert dir + "/" + tail + ".xlsx" == dir + "/" + name;
    BasenameOfJoin(dir, name);
    if dir == [] || dir[|dir| - 1] != '/' {
      DirnameOfJoin(dir, name);
    }
  }

  /** All four prices of a record can be written as numbers: `float()`
      accepts each text and yields a finite value. xlsxwriter's `write`
      raises on nan and infinities unless the workbook is opened with
      `nan_inf_to_errors`, which `write_xlsx` does not pass, so texts such
      as `nan` or `1e999` fail too. The set of texts meeting both conditions
      is Python's own grammar; `numeric` stands for it. */
  predicate PricesNumeric(record: ScripRecord, numeric: string -> bool) {
    numeric(record.open) && numeric(record.high) && numeric(record.low) && numeric(record.close)
  }

  /** Every record written to `ALL SCRIPS`, all but the first, has numeric
      prices. */
  predicate AllPricesNumeric(records: seq<ScripRecord>, numeric: string -> bool) {
    forall i :: 1 <= i < |records| ==> PricesNumeric(records[i], numeric)
  }

  /** The position of the first record whose prices do not all convert, or
      the length when they all do: where the `ALL SCRIPS` loop stops. */
  function FirstBadPrice(records: seq<ScripRecord>, numeric: string -> bool): (k: nat)
    ensures k <= |records|
    ensures forall i :: 0 <= i < k ==> PricesNumeric(records[i], numeric)
    ensures k < |records| ==> !PricesNumeric(records[k], numeric)
    decreases |records|
  {
    if records == [] then 0
    else if !PricesNumeric(records[0], numeric) then 0
    else 1 + FirstBadPrice(records[1..], numeric)
  }

  function AllScripsSheet(records: seq<ScripRecord>): Sheet {
    Sheet(AllScrips, Header + Layout(Body(records), FirstBodyRow))
  }

  function ClientSheet(records: seq<ScripRecord>, client: ClientLine): Sheet
    requires client.Client?
  {
    Sheet(client.name, Header + WriteMatching(Body(records), client.scrips, FirstBodyRow))
  }

  /** The loop over registry lines: a sheet for each client line, none for a
      comment. */
  function ClientSheets(records: seq<ScripRecord>, entries: seq<ClientLine>): seq<Sheet>
    decreases |entries|
  {
    if entries == [] then []
    else
      (if entries[0].Client? then [ClientSheet(records, entries[0])] else [])
      + ClientSheets(records, entries[1..])
  }

  /** Sheet k after `ALL SCRIPS` belongs to the k-th client line. */
  lemma {:induction false} ClientSheetsFollowRegistry(records: seq<ScripRecord>, entries: seq<ClientLine>)
    ensures |ClientSheets(records, entries)| == |Registered(entries)|
    ensures forall k :: 0 <= k < |Registered(entries)| ==>
      ClientSheets(records, entries)[k] == ClientSheet(records, Registered(entries)[k])
    decreases |entries|
  {
    if entries != [] {
      var e := entries[0];
      var rest := entries[1..];
      ClientSheetsFollowRegistry(records, rest);
      RegisteredCons(e, rest);
      assert entries == [e] + rest;
      var sheets := ClientSheets(records, entries);
      var sheets' := ClientSheets(records, rest);
      var reg := Registered(entries);
      var reg' := Registered(rest);
      if e.Client? {
        assert reg == [e] + reg';
        assert sheets == [ClientSheet(records, e)] + sheets';
        forall k | 0 <= k < |reg| ensures sheets[k] == ClientSheet(records, reg[k]) {
          if k > 0 {
            assert sheets[k] == sheets'[k - 1];
            assert reg[k] == reg'[k - 1];
          }
        }
      } else {
        assert reg == reg';
        assert sheets == sheets';
      }
    }
  }

  lemma RegisteredCons(e: ClientLine, rest: seq<ClientLine>)
    ensures Registered([e] + rest) == (if e.Client? then [e] else []) + Registered(rest)
  {
    Seqs.FilterAppend([e], rest, IsClient);
    Seqs.FilterAllOrNone([e], IsClient);
  }

  /** The workbook written for parsed records and registry entries. */
  function Assemble(path: string, records: seq<ScripRecord>, entries: seq<ClientLine>): Workbook {
    Workbook(path, [AllScripsSheet(records)] + ClientSheets(records, entries))
  }

  /** `write_xlsx` for parsed records: every price of every record but the
      first goes through `float()` and `write` while `ALL SCRIPS` is written, then the
      registry is read. The client sheets convert only prices `ALL SCRIPS`
      has already converted, so they add no failure of their own. */
  function WriteBook(csvPath: string, records: seq<ScripRecord>, numeric: string -> bool, registry: Option<seq<string>>): (r: Result<Workbook, Failure>)
    ensures r.Ok? <==> AllPricesNumeric(records, numeric) && registry.Some? && ParseRegistry(registry.value).Ok?
    ensures r.Err? && r.error.BadPrice? ==>
      && 1 <= r.error.record < |records|
      && !PricesNumeric(records[r.error.record], numeric)
      && forall i :: 1 <= i < r.error.record ==> PricesNumeric(records[i], numeric)
    ensures r.Err? ==> !r.error.BadRow?
    ensures !AllPricesNumeric(records, numeric) ==> r.Err? && r.error.BadPrice?
    ensures AllPricesNumeric(records, numeric) && registry.None? ==> r == Err(RegistryMissing)
    ensures AllPricesNumeric(records, numeric) && registry.Some? && ParseRegistry(registry.value).Err? ==>
      r == Err(BadRegistry(ParseRegistry(registry.value).error))
    ensures r.Ok? ==> r.value == Assemble(WorkbookPath(csvPath), records, ParseRegistry(registry.value).value)
  {
    var body := Body(records);
    var k := FirstBadPrice(body, numeric);
    if k < |body| then
      assert body[k] == records[k + 1];
      Err(BadPrice(k + 1))
    else
      assert forall i :: 1 <= i < |records| ==> records[i] == body[i - 1];
      match registry
      case None => Err(RegistryMissing)
      case Some(lines) =>
        match ParseRegistry(lines)
        case Err(e) => Err(BadRegistry(e))
        case Ok(entries) => Ok(Assemble(WorkbookPath(csvPath), records, entries))
  }

  /** `parse_csv` followed by `write_xlsx`: rows are parsed first, then the
      prices are converted, then the registry is read; any failure means
      `write_xlsx` does not complete. */
  function Build(csvPath: string, rows: seq<seq<string>>, numeric: string -> bool, registry: Option<seq<string>>): (r: Result<Workbook, Failure>)
    ensures r.Ok? <==>
      && ParseRows(rows).Ok? && AllPricesNumeric(ParseRows(rows).value, numeric)
      && registry.Some? && ParseRegistry(registry.value).Ok?
    ensures ParseRows(rows).Err? ==> r == Err(BadRow(ParseRows(rows).error))
    ensures ParseRows(rows).Ok? && !AllPricesNumeric(ParseRows(rows).value, numeric) ==>
      r.Err? && r.error.BadPrice?
    ensures r.Err? && r.error.BadPrice? ==>
      && ParseRows(rows).Ok?
      && var records := ParseRows(rows).value;
      && 1 <= r.error.record < |records|
      && !PricesNumeric(records[r.error.record], numeric)
      && forall i :: 1 <= i < r.error.record ==> PricesNumeric(records[i], numeric)
    ensures ParseRows(rows).Ok? && AllPricesNumeric(ParseRows(rows).value, numeric) && registry.None? ==>
      r == Err(RegistryMissing)
    ensures (&& ParseRows(rows).Ok? && AllPricesNumeric(ParseRows(rows).value, numeric)
             && registry.Some? && ParseRegistry(registry.value).Err?) ==>
      r == Err(BadRegistry(ParseRegistry(registry.value).error))
    ensures r.Ok? ==> r.value.path == WorkbookPath(csvPath)
    ensures r.Ok? ==> |r.value.sheets| >= 1 && r.value.sheets[0].name == AllScrips
  {
    match ParseRows(rows)
    case Err(e) => Err(BadRow(e))
    case Ok(records) => WriteBook(csvPath, records, numeric, registry)
  }

  /** A successful build is the workbook assembled from what was parsed. */
  lemma BuildValue(csvPath: string, rows: seq<seq<string>>, numeric: string -> bool, lines: seq<string>,
                   records: seq<ScripRecord>, entries: seq<ClientLine>)
    requires ParseRows(rows) == Ok(records) && ParseRegistry(lines) == Ok(entries)
    requires AllPricesNumeric(records, numeric)
    ensures Build(csvPath, rows, numeric, Some(lines)) == Ok(Assemble(WorkbookPath(csvPath), records, entries))
  {
  }

  /** `ALL SCRIPS` read back row by row: the header in row 1, record `i` in
      sheet row `i + 1` for every record but the first, and nothing below the
      last record; the first record (the CSV header) never appears. */
  lemma AllScripsRows(records: seq<ScripRecord>, n: nat)
    ensures WritesAt(AllScripsSheet(records).writes, n) ==
      if n == HeaderRow then Header
      else if FirstBodyRow <= n < |records| + 1 then RecordWrites(records[n - 1], n)
      else []
  {
    var body := Body(records);
    SheetRows(body, n);
    assert |body| + FirstBodyRow == |records| + 1 || records == [];
    if FirstBodyRow <= n < |records| + 1 {
      assert body[n - FirstBodyRow] == records[n - 1];
    }
  }

  /** There is one sheet per client line, after `ALL SCRIPS`, in registry order. */
  lemma SheetOrder(path: string, records: seq<ScripRecord>, entries: seq<ClientLine>)
    ensures var sheets := Assemble(path, records, entries).sheets;
      var clients := Registered(entries);
      && |sheets| == 1 + |clients|
      && sheets[0].name == AllScrips
      && forall k :: 0 <= k < |clients| ==> sheets[k + 1].name == clients[k].name
  {
    ClientSheetsFollowRegistry(records, entries);
    var sheets := Assemble(path, records, entries).sheets;
    forall k | 0 <= k < |Registered(entries)| ensures sheets[k + 1].name == Registered(entries)[k].name {
      assert sheets[k + 1] == ClientSheets(records, entries)[k];
    }
  }

  /** A client's sheet is the header followed, from row 2 on without gaps, by
      exactly the records after the first whose name the client lists, in CSV
      order. */
  lemma ClientRows(path: string, records: seq<ScripRecord>, entries: seq<ClientLine>, k: nat)
    requires k < |Registered(entries)|
    ensures var sheets := Assemble(path, records, entries).sheets;
      var client := Registered(entries)[k];
      k + 1 < |sheets| &&
      sheets[k + 1].writes == Header + Layout(Selected(Body(records), client.scrips), FirstBodyRow)
  {
    var client := Registered(entries)[k];
    ClientSheetsFollowRegistry(records, entries);
    MatchingIsLayout(Body(records), client.scrips, FirstBodyRow);
  }

  /** A registry holding only comments yields a workbook with `ALL SCRIPS`
      alone. */
  lemma CommentsOnlyWorkbook(path: string, records: seq<ScripRecord>, entries: seq<ClientLine>)
    requires forall i :: 0 <= i < |entries| ==> entries[i] == Comment
    ensures Assemble(path, records, entries).sheets == [AllScripsSheet(records)]
  {
    CommentsOnly(entries);
    ClientSheetsFollowRegistry(records, entries);
    assert [AllScripsSheet(records)] + [] == [AllScripsSheet(records)];
  }

  /** A client none of whose scrips occurs after the first record gets the
      header row alone. */
  lemma UnmatchedClient(records: seq<ScripRecord>, client: ClientLine)
    requires client.Client?
    requires forall i :: 1 <= i < |records| ==> records[i].name !in client.scrips
    ensures ClientSheet(records, client).writes == Header
  {
    var body := Body(records);
    assert forall j :: 0 <= j < |body| ==> body[j] == records[j + 1];
    MatchingIsLayout(body, client.scrips, FirstBodyRow);
    Seqs.FilterAllOrNone(body, NameIn(client.scrips));
    assert Header + [] == Header;
  }
}
