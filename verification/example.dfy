/** A worked example: a header and three scrips, one client holding two. */
module ReportExample {
  import opened Outcomes
  import opened Text
  import opened Records
  import opened Clients
  import opened Sheets
  import opened Report

  const HeaderFields: seq<string> := ["SC_CODE", "SC_NAME", "SC_GROUP", "SC_TYPE", "OPEN", "HIGH", "LOW", "CLOSE"]

  function Row(code: string, name: string, o: string, h: string, l: string, c: string): seq<string> {
    [code, name, "A", "Q", o, h, l, c]
  }

  lemma StripName(s: string)
    requires s != [] && !IsSpace(s[0]) && !IsSpace(s[|s| - 1])
    ensures Strip(s) == s
  {
    assert [] + s + [] == s;
    StripPadded([], s, []);
  }

  const Rows := [HeaderFields, Row("1", "AAA ", "10", "12", "9", "11"),
                 Row("2", "BBB", "5", "6", "4", "5"), Row("3", "CCC", "20", "21", "19", "20")]

  const Aaa := ScripRecord("AAA", "10", "12", "9", "11")
  const Bbb := ScripRecord("BBB", "5", "6", "4", "5")
  const Ccc := ScripRecord("CCC", "20", "21", "19", "20")

  /** The header row reads as a record like any other. */
  lemma HeaderParses()
    ensures ParseRow(HeaderFields) == Some(HeaderRecord)
  {
    StripName("SC_NAME");
  }

  /** The trailing blank after `AAA` is stripped from the name. */
  lemma AaaParses()
    ensures ParseRow(Rows[1]) == Some(Aaa)
  {
    assert AllSpace([' ']);
    assert IsTrimmed("AAA");
    StripPadded([], "AAA", [' ']);
    assert [] + "AAA" + [' '] == "AAA ";
  }

  lemma BbbParses()
    ensures ParseRow(Rows[2]) == Some(Bbb)
  {
    StripName("BBB");
  }

  lemma CccParses()
    ensures ParseRow(Rows[3]) == Some(Ccc)
  {
    StripName("CCC");
  }

  /** Four rows that each read as a record parse to those four records. */
  lemma ParseFour(rows: seq<seq<string>>, expected: seq<ScripRecord>)
    requires |rows| == 4 && |expected| == 4
    requires ParseRow(rows[0]) == Some(expected[0]) && ParseRow(rows[1]) == Some(expected[1])
    requires ParseRow(rows[2]) == Some(expected[2]) && ParseRow(rows[3]) == Some(expected[3])
    ensures ParseRows(rows) == Ok(expected)
  {
    var r := ParseRows(rows);
    assert forall i :: 0 <= i < 4 ==> ParseRow(rows[i]) == Some(expected[i]);
    assert r.Ok?;
    assert |r.value| == 4;
    assert forall i :: 0 <= i < 4 ==> r.value[i] == expected[i];
    assert r.value == expected;
  }

  lemma ExampleRecords()
    ensures ParseRows(Rows) == Ok([HeaderRecord, Aaa, Bbb, Ccc])
  {
    HeaderParses();
    AaaParses();
    BbbParses();
    CccParses();
    ParseFour(Rows, [HeaderRecord, Aaa, Bbb, Ccc]);
  }

  const Alpha := Client("Alpha", ["AAA", "CCC"])

  lemma ExampleRegistry()
    ensures ParseClientLine(FormatClientLine(Alpha.name, Alpha.scrips)) == Ok(Alpha)
  {
    assert PlainField("AAA") && PlainField("CCC") && PlainField("Alpha");
    ParseFormat(Alpha.name, Alpha.scrips);
  }

  lemma ExampleRegistryFile()
    ensures ParseRegistry([FormatClientLine(Alpha.name, Alpha.scrips)]) == Ok([Alpha])
  {
    ExampleRegistry();
    var r := ParseRegistry([FormatClientLine(Alpha.name, Alpha.scrips)]);
    assert r.Ok? && |r.value| == 1 && r.value[0] == Alpha;
    assert r.value == [Alpha];
  }

  const HeaderRecord := ScripRecord("SC_NAME", "OPEN", "HIGH", "LOW", "CLOSE")

  /** A client holding the first and third of three scrips: its sheet has
      the first in row 2 and the third in row 3, and skips the second. */
  lemma SkipUnlisted(a: ScripRecord, b: ScripRecord, c: ScripRecord, line: nat)
    requires b.name != a.name && b.name != c.name
    ensures WriteMatching([a, b, c], [a.name, c.name], line) ==
      RecordWrites(a, line) + RecordWrites(c, line + 1)
  {
    var scrips := [a.name, c.name];
    assert [a, b, c][1..] == [b, c] && [b, c][1..] == [c] && [c][1..] == [];
    assert b.name !in scrips;
    assert WriteMatching([c], scrips, line + 1) == RecordWrites(c, line + 1) + [];
  }

  /** Records that read as a header and three scrips, with a registry that
      reads as one client holding the first and third (as `Rows` and Alpha's
      formatted line do): the client's sheet lists the first scrip in row 2
      and the third in row 3 with their prices; the second and the header
      record are left out. */
  lemma ThreeScripsOneClient(path: string, h: ScripRecord, a: ScripRecord, b: ScripRecord, c: ScripRecord, name: string)
    requires b.name != a.name && b.name != c.name
    ensures var book := Assemble(path, [h, a, b, c], [Client(name, [a.name, c.name])]);
      && |book.sheets| == 2
      && book.sheets[1] == Sheet(name, Header + RecordWrites(a, 2) + RecordWrites(c, 3))
  {
    var records := [h, a, b, c];
    var client := Client(name, [a.name, c.name]);
    SkipUnlisted(a, b, c, FirstBodyRow);
    assert Body(records) == [a, b, c];
    assert ClientSheets(records, [client]) == [ClientSheet(records, client)] + ClientSheets(records, []);
  }

  /** The rows and registry line of this example build that workbook, when
      the scrips' prices convert; the header's `OPEN`, `HIGH`, ... never go
      through `float()`. */
  lemma ExampleBuild(csvPath: string, numeric: string -> bool)
    requires PricesNumeric(Aaa, numeric) && PricesNumeric(Bbb, numeric) && PricesNumeric(Ccc, numeric)
    ensures Build(csvPath, Rows, numeric, Some([FormatClientLine(Alpha.name, Alpha.scrips)])) ==
      Ok(Assemble(WorkbookPath(csvPath), [HeaderRecord, Aaa, Bbb, Ccc], [Alpha]))
  {
    ExampleRecords();
    ExampleRegistryFile();
    ExamplePrices(HeaderRecord, Aaa, Bbb, Ccc, numeric);
    BuildValue(csvPath, Rows, numeric, [FormatClientLine(Alpha.name, Alpha.scrips)], [HeaderRecord, Aaa, Bbb, Ccc], [Alpha]);
  }

  /** Only the records after the header need numeric prices. */
  lemma ExamplePrices(h: ScripRecord, a: ScripRecord, b: ScripRecord, c: ScripRecord, numeric: string -> bool)
    requires PricesNumeric(a, numeric) && PricesNumeric(b, numeric) && PricesNumeric(c, numeric)
    ensures AllPricesNumeric([h, a, b, c], numeric)
  {
    var records := [h, a, b, c];
    forall i | 1 <= i < |records| ensures PricesNumeric(records[i], numeric) {
      assert records[i] == a || records[i] == b || records[i] == c;
    }
  }
}
