/** Worksheets as the sequence of cell writes `write_xlsx` issues: a bold
    header in row 1, then one row of five cells per record from row 2 on. */
module Sheets {
  import opened Records
  import Seqs

  datatype Column = A | B | C | D | E

  /** A heading is written bold; a label holds a scrip name as text; a price
      cell holds the text that `float()` turns into the number written. */
  datatype Cell = Heading(text: string) | Label(text: string) | Number(text: string)

  datatype Write = Write(row: nat, column: Column, cell: Cell)

  datatype Sheet = Sheet(name: string, writes: seq<Write>)

  const HeaderRow := 1
  const FirstBodyRow := 2

  /** `SCRIP NAME | OPEN | HIGH | LOW | CLOSE` in cells A1 to E1. */
  const Header: seq<Write> :=
    [ Write(HeaderRow, A, Heading("SCRIP NAME")),
      Write(HeaderRow, B, Heading("OPEN")),
      Write(HeaderRow, C, Heading("HIGH")),
      Write(HeaderRow, D, Heading("LOW")),
      Write(HeaderRow, E, Heading("CLOSE")) ]

  /** One record in row `line`: the name in A, the prices in B to E. */
  function RecordWrites(r: ScripRecord, line: nat): seq<Write> {
    [ Write(line, A, Label(r.name)),
      Write(line, B, Number(r.open)),
      Write(line, C, Number(r.high)),
      Write(line, D, Number(r.low)),
      Write(line, E, Number(r.close)) ]
  }

  /** Records in consecutive rows starting at `line`. */
  function Layout(records: seq<ScripRecord>, line: nat): seq<Write>
    decreases |records|
  {
    if records == [] then []
    else RecordWrites(records[0], line) + Layout(records[1..], line + 1)
  }

  /** The per-client loop: every record is visited, but a record is written,
      and the row counter advanced, only when its name is one of `scrips`. */
  function WriteMatching(records: seq<ScripRecord>, scrips: seq<string>, line: nat): seq<Write>
    decreases |records|
  {
    if records == [] then []
    else if records[0].name in scrips then
      RecordWrites(records[0], line) + WriteMatching(records[1..], scrips, line + 1)
    else WriteMatching(records[1..], scrips, line)
  }

  function NameIn(scrips: seq<string>): ScripRecord -> bool {
    (r: ScripRecord) => r.name in scrips
  }

  /** The records whose name is exactly one of `scrips`, in record order. */
  function Selected(records: seq<ScripRecord>, scrips: seq<string>): seq<ScripRecord> {
    Seqs.Filter(records, NameIn(scrips))
  }

  /** Selection keeps, in record order, exactly the records whose name is in
      the list (compared exactly, case included), each as often as it occurs. */
  lemma SelectedSpec(records: seq<ScripRecord>, scrips: seq<string>)
    ensures Seqs.IsSubsequence(Selected(records, scrips), records)
    ensures forall x: ScripRecord :: x in Selected(records, scrips) <==> x in records && x.name in scrips
    ensures forall x: ScripRecord ::
              multiset(Selected(records, scrips))[x] == if x.name in scrips then multiset(records)[x] else 0
  {
    Seqs.FilterSpec(records, NameIn(scrips));
    forall x: ScripRecord {
      Seqs.FilterMembership(records, NameIn(scrips), x);
    }
  }

  /** The counter loop lays out exactly the selected records, in consecutive
      rows: skipping a record leaves no gap. */
  lemma {:induction false} MatchingIsLayout(records: seq<ScripRecord>, scrips: seq<string>, line: nat)
    ensures WriteMatching(records, scrips, line) == Layout(Selected(records, scrips), line)
    decreases |records|
  {
    if records != [] {
      MatchingIsLayout(records[1..], scrips, line + 1);
      MatchingIsLayout(records[1..], scrips, line);
      var s := Selected(records[1..], scrips);
      if records[0].name in scrips {
        assert Selected(records, scrips) == [records[0]] + s;
        assert ([records[0]] + s)[1..] == s;
      } else {
        assert Selected(records, scrips) == s;
      }
    }
  }

  /** Only the order and membership of the scrip list matter: listing the
      same names in another order, or repeating them, selects the same rows. */
  lemma ScripOrderIrrelevant(records: seq<ScripRecord>, scrips: seq<string>, other: seq<string>)
    requires forall n :: n in scrips <==> n in other
    ensures Selected(records, scrips) == Selected(records, other)
    ensures WriteMatching(records, scrips, FirstBodyRow) == WriteMatching(records, other, FirstBodyRow)
  {
    Seqs.FilterCongruent(records, NameIn(scrips), NameIn(other));
    MatchingIsLayout(records, scrips, FirstBodyRow);
    MatchingIsLayout(records, other, FirstBodyRow);
  }

  function OnRow(n: nat): Write -> bool {
    (w: Write) => w.row == n
  }

  /** The writes that land in row `n`, in the order they were issued. */
  function WritesAt(ws: seq<Write>, n: nat): seq<Write> {
    Seqs.Filter(ws, OnRow(n))
  }

  lemma RecordRow(r: ScripRecord, line: nat, n: nat)
    ensures WritesAt(RecordWrites(r, line), n) == if n == line then RecordWrites(r, line) else []
  {
    Seqs.FilterAllOrNone(RecordWrites(r, line), OnRow(n));
  }

  /** Reading a layout back row by row: row `line + i` holds exactly record
      `i`, and no other row holds anything. */
  lemma {:induction false} LayoutRows(records: seq<ScripRecord>, line: nat, n: nat)
    ensures WritesAt(Layout(records, line), n) ==
      if line <= n < line + |records| then RecordWrites(records[n - line], n) else []
    decreases |records|
  {
    if records != [] {
      Seqs.FilterAppend(RecordWrites(records[0], line), Layout(records[1..], line + 1), OnRow(n));
      RecordRow(records[0], line, n);
      LayoutRows(records[1..], line + 1, n);
    }
  }

  /** A sheet's content row by row: the header in row 1, record `i` of `body`
      in row `2 + i`, and nothing anywhere else. */
  lemma SheetRows(body: seq<ScripRecord>, n: nat)
    ensures WritesAt(Header + Layout(body, FirstBodyRow), n) ==
      if n == HeaderRow then Header
      else if FirstBodyRow <= n < FirstBodyRow + |body| then RecordWrites(body[n - FirstBodyRow], n)
      else []
  {
    Seqs.FilterAppend(Header, Layout(body, FirstBodyRow), OnRow(n));
    HeaderRowOnly(n);
    LayoutRows(body, FirstBodyRow, n);
  }

  lemma HeaderRowOnly(n: nat)
    ensures WritesAt(Header, n) == if n == HeaderRow then Header else []
  {
    Seqs.FilterAllOrNone(Header, OnRow(n));
  }
}
