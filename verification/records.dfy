/** Row extraction (`ParseBhavCopy.parse_csv`): every CSV row, already split
    into fields, becomes one record. Prices stay as the text of their cells;
    they are converted to numbers only when written to a sheet. */
module Records {
  import opened Outcomes
  import opened Text

  /** One scrip's open/high/low/close for the day. */
  datatype ScripRecord = ScripRecord(name: string, open: string, high: string, low: string, close: string)

  /** Highest field index read from a row (the close price). */
  const CloseField := 7

  /** A row shorter than eight fields makes `row[k]` fail; the error carries
      the row's position in the file and its field count. */
  datatype RowError = ShortRow(row: nat, fields: nat)

  /** The record of one row: field 1 stripped of whitespace is the name,
      fields 4 to 7 are the four prices. */
  function ParseRow(row: seq<string>): (r: Option<ScripRecord>)
    ensures r.Some? <==> |row| > CloseField
    ensures r.Some? ==>
      && r.value.name == Strip(row[1])
      && r.value.open == row[4] && r.value.high == row[5]
      && r.value.low == row[6] && r.value.close == row[7]
  {
    if |row| <= CloseField then None
    else Some(ScripRecord(Strip(row[1]), row[4], row[5], row[6], row[7]))
  }

  /** All rows in file order, the header row included; the first short row
      aborts the whole parse. */
  function ParseRows(rows: seq<seq<string>>): (r: Result<seq<ScripRecord>, RowError>)
    ensures r.Ok? <==> forall i :: 0 <= i < |rows| ==> |rows[i]| > CloseField
    ensures r.Ok? ==> |r.value| == |rows|
    ensures r.Ok? ==> forall i :: 0 <= i < |rows| ==> ParseRow(rows[i]) == Some(r.value[i])
    ensures r.Err? ==>
      && r.error.row < |rows|
      && r.error.fields == |rows[r.error.row]| <= CloseField
      && forall i :: 0 <= i < r.error.row ==> |rows[i]| > CloseField
    decreases |rows|
  {
    if rows == [] then Ok([])
    else
      match ParseRow(rows[0])
      case None => Err(ShortRow(0, |rows[0]|))
      case Some(record) =>
        match ParseRows(rows[1..])
        case Err(ShortRow(i, n)) => Err(ShortRow(i + 1, n))
        case Ok(rest) => Ok([record] + rest)
  }
}
