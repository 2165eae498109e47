# BhavCopyParser core in Dafny

BhavCopyParser fetches the BSE equity "Bhavcopy" for a day and turns its CSV into
an Excel workbook. The workbook has an `ALL SCRIPS` sheet with every scrip's
open/high/low/close prices. It also has one sheet per client listed in the
registry file `Clients.txt`, holding only the scrips that client follows.

This project models the data-shaping part of `BCparse.py` as pure functions over
strings and sequences, and proves what that code promises:

- `records.dfy` (`Records`): the CSV row to scrip-record mapping of `parse_csv`.
- `clients.dfy` (`Clients`): parsing one registry line (`NAME:SCRIP1;SCRIP2;...`,
  with `#` marking a comment) and the whole registry.
- `sheets.dfy` (`Sheets`): a worksheet as the sequence of cell writes
  `write_xlsx` issues. It covers the five-cell header, the row-counter loop, and
  reading a sheet back row by row.
- `report.dfy` (`Report`): the whole of `write_xlsx`. It builds the workbook
  path, puts `ALL SCRIPS` first and then one sheet per client line, and fails
  on a short row, a price that cannot be written as a number, a missing registry or a bad
  registry line.
- `download.dfy` (`Download`): the file names of `do_the_dew`. It covers the
  `ddmmyy` stamp, the default link, and the stamp taken back out of a custom
  link.
- `text.dfy` (`Text`): the Python string operations used:
  - `str.strip()`, with Python's `isspace` set;
  - `split`, `join` and `replace(c, '')`;
  - negative slices, `str(n)` and `zfill`.
- `paths.dfy` (`Paths`): `rfind`, `basename`, `dirname` and `splitext` with
  POSIX semantics, and `rsplit('/', 1)[1]`.
- `seqs.dfy` (`Seqs`): order-preserving filtering, the one selection concept
  behind client sheets and comment skipping.
- `outcomes.dfy` (`Outcomes`): `Option` and `Result`.
- `example.dfy` (`ReportExample`): a worked example with a header, three scrips
  and one client.

The Python code crashes on an index error in five places:
- a row with fewer than eight fields;
- a registry line without `:`;
- a registry line with an empty name;
- a custom link without `/`;
- an archive with no members (`bc_zip.filelist[0]` at `BCparse.py:79`).

It also crashes on a price that cannot be written as a number. Either
`float()` raises a `ValueError`, or it yields nan or an infinity (from `nan`,
`inf` or `1e999`), which xlsxwriter's `write` rejects because line 110 opens
the workbook without `nan_inf_to_errors`. The first four index errors and the
price failure are explicit error values here. The fifth index error is part of
the ZIP extraction, which is not modelled (see Left out). Which price texts are
writable numbers is a parameter, `numeric`, of the workbook build: `float()`
accepts the text and its value is finite.

`BCparse.py` reads one CSV layout, with the name in field 1 and the prices in
fields 4 to 7. Client names go to `add_worksheet` unchanged.

## Model

| member | source | states |
|---|---|---|
| Records.ParseRows | BCparse.py:99-105 | Parsing succeeds exactly when every row has at least eight fields, and then yields one record per row, in order. Record i's name is field 1 of row i stripped, and its prices are fields 4–7. On failure, the error names the first short row and its field count, and every earlier row was long enough. |
| Text.StripSpec | BCparse.py:101 | The stripped name has no whitespace at either end. It is the text between an all-whitespace prefix and an all-whitespace suffix of the field. |
| Text.StripPadded | BCparse.py:101 | Any whitespace padding around a trimmed name is removed, and the name comes back unchanged. |
| Text.StripIdempotent | BCparse.py:101 | Stripping an already stripped name changes nothing. |
| Text.SplitAtFirst | BCparse.py:151-152 | The first `:` ends the first piece of a split. The rest of the line is split on its own. |
| Text.JoinSplit | BCparse.py:151-152 | Joining the pieces of a split with the separator gives back the original text, so splitting loses nothing but the separators. |
| Text.SplitJoin | BCparse.py:152 | Splitting a `;`-join of separator-free scrips gives back exactly those scrips. |
| Text.RemoveTerminator | BCparse.py:150 | Removing `\n` from a line read with its terminator leaves exactly the line's text. |
| Text.RemoveAllSpec | BCparse.py:150 | After removing `\n`, no `\n` is left. Every other character is kept as often as it occurred and in its original order, which fixes the result. |
| Text.RemoveAllAppend | BCparse.py:150 | Removing a character from a concatenation is removing it from each part. |
| Clients.SplitFields | BCparse.py:151-152 | The split has a second field exactly when the line contains `:`. That field is the text between the first `:` and the next `:` or the end of the line. |
| Clients.ParseClientLineSpec | BCparse.py:150-155 | With newlines removed, a line is a missing-separator error exactly when it has no `:`. It is an empty-name error exactly when it starts with `:`, and a comment exactly when it has a `:` and starts with `#`. Otherwise it is a client named by the text before the first `:`, with the `;`-pieces of the second field as its scrips. |
| Clients.ParseFormat | BCparse.py:150-152 | A line formatted as `NAME:S1;S2;...` with a newline parses back to that client and those scrips. |
| Clients.ClientLineShape | BCparse.py:150-152 | A client line consists of three parts: the name, `:`, and the scrips joined by `;`. These are followed by the end of the line or by a second `:`, and anything after that second `:` is ignored. The name holds no `:`, and no scrip holds `:` or `;`. |
| Clients.LinesWithoutSeparator | BCparse.py:150-155 | A blank line and a `#` line without `:` are both errors, not skipped comments. |
| Clients.TemplateIsComment | BCparse.py:143-155 | The template line written into a new registry reads as a comment. |
| Clients.ParseRegistry | BCparse.py:146-155 | The registry reads successfully exactly when every line does, and then yields one entry per line, in file order. Otherwise the error names the first failing line and its reason, and every earlier line was readable. |
| Clients.RegisteredSpec | BCparse.py:149-156 | The entries that get a sheet form an order-preserving subsequence of the registry. It holds every client line as often as it occurs, and no comment. |
| Clients.CommentsOnly | BCparse.py:155 | A registry of comments only registers nobody. |
| Seqs.FilterSpec | BCparse.py:167-172 | Filtering keeps an order-preserving subsequence. Every kept element passes the test, and each passing element is kept exactly as often as it occurs. |
| Sheets.SelectedSpec | BCparse.py:167-172 | A client's selection is an order-preserving subsequence of the records. A record is in it exactly when its name is exactly one of the client's scrips, and it occurs as often as in the records. |
| Sheets.MatchingIsLayout | BCparse.py:166-179 | The loop that advances its row counter only on a match writes exactly the selected records, in consecutive rows from the start row, with no gaps. |
| Sheets.ScripOrderIrrelevant | BCparse.py:172 | Listing the same scrips in another order, or with repeats, selects the same records and writes the same sheet. |
| Sheets.LayoutRows | BCparse.py:124-134 | In a laid-out sequence of records, row `line + i` holds exactly record i, and every other row is empty. |
| Sheets.SheetRows | BCparse.py:118-134 | A sheet read row by row has the five header cells in row 1 and body record i in row 2 + i. Every other row is empty. |
| Report.AllScripsRows | BCparse.py:118-134 | `ALL SCRIPS` has the header in row 1 and record i in row i + 1 for every record but the first. Nothing lies below the last record, and the first record never appears. |
| Report.ClientSheetsFollowRegistry | BCparse.py:149-156 | There are as many client sheets as client lines, and sheet k is built for the k-th client line. |
| Report.SheetOrder | BCparse.py:113-156 | The workbook has `ALL SCRIPS` first, then exactly one sheet per client line, named after the client, in registry order. |
| Report.ClientRows | BCparse.py:160-179 | Client k's sheet is the header followed by exactly its selected records, all records but the first, laid out from row 2 without gaps. |
| Report.UnmatchedClient | BCparse.py:166-179 | A client none of whose scrips occurs gets a sheet with the header row alone. |
| Report.WriteBook | BCparse.py:109-179 | For parsed records, `write_xlsx` completes exactly when every price of every record but the first is `numeric` (`float()` accepts it and the value is finite), the registry exists and every registry line parses. Failures take precedence in that order. Any price that is not `numeric` makes it fail with a price failure, and that failure names the first such record. A completed workbook is the assembly of the records and the registry entries. |
| Report.Build | BCparse.py:95-179 | `parse_csv` followed by `write_xlsx` completes exactly when every row has at least eight fields, every price written to `ALL SCRIPS` is `numeric`, the registry exists and every registry line parses. Failures take precedence in that order: short rows first, then any rejected price. The workbook's path is derived from the CSV path, and its first sheet is `ALL SCRIPS`. xlsxwriter's own rejections of sheet names are not modelled (see Left out). |
| Report.BuildValue | BCparse.py:95-179 | When the rows parse, the prices are `numeric` and the registry parses, the build is the workbook assembled from the parsed records and registry entries. |
| Report.CommentsOnlyWorkbook | BCparse.py:146-156 | When every registry line is a comment, the workbook holds exactly one sheet, `ALL SCRIPS`. |
| Report.WorkbookName | BCparse.py:110 | The workbook's file name is the last six characters of the CSV's stem plus `.xlsx`, so at most 11 characters long. The path starts with the CSV's directory. When that directory is neither empty nor the root, the workbook's directory is the CSV's. When the CSV path has no `/`, the workbook's directory is the root `/`. |
| Paths.BasenameSpec | BCparse.py:92 | The basename holds no `/`, ends the path, and is preceded by a `/` unless it is the whole path. |
| Paths.DirnameSpec | BCparse.py:91 | The directory is a prefix of the path, separated from the basename by nothing but slashes. It is empty exactly when the path has no `/`. It ends in `/` only when it is the whole run of slashes before the basename (the root). Together these fix the result. |
| Paths.DirnameOfJoin | BCparse.py:110 | `dir + '/' + name` has directory `dir` when `dir` does not end in `/`, and the root `/` when `dir` is empty. |
| Paths.BasenameOfJoin | BCparse.py:110 | `dir + '/' + name` has `name` as its basename when `name` holds no `/`. |
| Paths.SplitExtSpec | BCparse.py:50 | The stem and extension rebuild the name. The extension is empty, or a `.` followed by neither `.` nor `/`. A split-off extension leaves a final component that is not all dots. |
| Paths.SplitExtOf | BCparse.py:50 | A name `stem.ext` whose stem's final component is not all dots splits into `stem` and `.ext`. |
| Paths.SplitExtNoDot | BCparse.py:50 | A name without `.` has no extension. |
| Paths.StemNoSlash | BCparse.py:92 | The stem of a path holds no `/`. |
| Paths.AfterLastSlash | BCparse.py:49 | Taking the text after the last `/` fails exactly when the link has no `/`. Otherwise it yields the link's basename, shorter than the link. |
| Text.DecimalRoundTrip | BCparse.py:44 | `str(n)` reads back as `n`. |
| Text.Last | BCparse.py:110 | `s[-n:]` (also used at line 50) has `min(n, len(s))` characters and is the end of `s`. |
| Text.Drop | BCparse.py:44 | `s[k:]` has `len(s) - k` characters, or none when `s` is shorter. It is what follows the first `k` characters. |
| Text.ZFillValue | BCparse.py:44 | Zero-filling a digit string keeps it all digits and keeps its value. |
| Download.DateStamp | BCparse.py:44 | The stamp consists of digits only, and it is six characters long exactly when the year has four digits. |
| Download.StampRoundTrip | BCparse.py:44 | A six-character stamp reads back as the day, the month and the year modulo 100. |
| Download.MakePlan | BCparse.py:41-51 | Without a custom link, the date is the stamp and the file is `EQ_ISINCODE_<stamp>.zip`. The link is the exchange folder, `/` and the file, and it ends in the file name. A custom link fails exactly when it has no `/`. Otherwise the file is the link's basename, and the date is the last six characters of the link's stem. |
| Download.DefaultNames | BCparse.py:44-50 | The default link contains a `/`. The text after its last `/` is the default archive name, and that name without `.zip` ends in the date stamp. |
| Download.DefaultLinkRoundTrip | BCparse.py:42-51 | Passing the default link back in as a custom link derives the same file, date and link. |
| ReportExample.ExampleRecords | BCparse.py:99-105 | Four concrete rows, one with a padded name, parse to the expected four records. |
| ReportExample.ThreeScripsOneClient | BCparse.py:160-179 | Take a client following the first and third of three scrips. Its sheet has the first scrip in row 2 and the third in row 3, and skips the second and the header record. |
| ReportExample.ExampleBuild | BCparse.py:99-179 | The example rows and the example registry line build the expected workbook whenever the three scrips' prices are `numeric`. The header row's prices never go through `float()`. |

## Left out

- Network download (`urlretrieve`), HTTP error handling, ZIP extraction (including the index error on an empty archive at line 79), file reads, directory creation and moves: I/O. The model takes the CSV rows already split into fields and the registry already read as lines. Whether the registry exists is an `Option` parameter.
- CSV tokenising (`csv.reader`): a library. Rows arrive as sequences of fields.
- `strptime` date parsing at lines 33 and 36: a library call. A date is given as day, month and year numbers, with day 1–31, month 1–12 and year 1–9999. The calendar is not checked (31 February passes), since the stamp does not depend on it.
- `datetime.date.today()`: the clock. The date is a parameter.
- `float()` on price cells and xlsxwriter's check for nan and infinities: floating point. Prices stay as their text, tagged as numeric cells. Which texts `float()` accepts with a finite value is Python's grammar, taken as the parameter `numeric`. A `ValueError` from `float()` and xlsxwriter's `TypeError` for a non-finite value are both modelled as `BadPrice`.
- xlsxwriter: formats, column widths, cell addresses as strings, and its own checks on sheet names (length, forbidden characters, duplicates). A sheet is a name plus the sequence of cell writes issued.
- Whether a file appears on disk: `write_xlsx` never calls `workbook.close()` (lines 109-179), so whether the workbook is written, including a partial one after a failure at lines 129-132, 144 or 151-156, is decided by xlsxwriter's teardown. The model states only whether `write_xlsx` completes and which sheets and writes it issues.
- Writing the registry template and `exit(1)` when the registry is missing: modelled only as the `RegistryMissing` failure; the template text is modelled.
- `argparse`, console colours and messages, and `main`: user interface.
- Report.WriteBook, Report.Build: do not fail on a client name xlsxwriter's `add_worksheet` rejects at line 156. For example, such names are longer than 31 characters, contain one of `[]*?/\`, or repeat an earlier sheet name ignoring case. These rules belong to xlsxwriter, and the case-insensitive comparison needs Unicode case folding. For such a name the source raises and the model still returns `Ok`.
- Download.DateStamp: six characters only for four-digit years. Python's `str(year)[2:]` is shorter for earlier years, which `strptime`'s `%y` and `today()` never produce.
- Windows path rules (`ntpath`): the paths are treated with POSIX rules only.
