/** Naming of the file to fetch (`DownloadBhavCopy.do_the_dew`): the `ddmmyy`
    date stamp, the default exchange link built from it, and the stamp taken
    back out of a custom link. The download, the directory creation and the
    move are left to the caller. */
module Download {
  import opened Outcomes
  import opened Text
  import opened Paths

  /** A calendar date as Python's `datetime` holds it. */
  datatype Date = Date(day: nat, month: nat, year: nat)

  /** Day 1 to 31, month 1 to 12, year 1 to 9999: every date `datetime` can
      hold passes, and so do a few it rejects (31 February); the stamp does
      not depend on the calendar. */
  predicate ValidDate(d: Date) {
    1 <= d.day <= 31 && 1 <= d.month <= 12 && 1 <= d.year <= 9999
  }

  /** Day and month zero-filled to two digits, then the year's decimal form
      without its first two characters. */
  function DateStamp(d: Date): (s: string)
    requires ValidDate(d)
    ensures AllDigits(s)
    ensures d.year >= 1000 <==> |s| == 6
  {
    var day := ZFill(Decimal(d.day), 2);
    var month := ZFill(Decimal(d.month), 2);
    var year := Drop(Decimal(d.year), 2);
    DayMonthWidth(d.day);
    DayMonthWidth(d.month);
    ZFillValue(Decimal(d.day), 2);
    ZFillValue(Decimal(d.month), 2);
    YearWidth(d.year);
    day + month + year
  }

  lemma DayMonthWidth(n: nat)
    requires 1 <= n <= 99
    ensures |Decimal(n)| <= 2
  {
    if n < 10 { DecimalWidth(n, 0); } else { DecimalWidth(n, 1); }
  }

  lemma YearWidth(y: nat)
    requires 1 <= y <= 9999
    ensures y >= 1000 <==> |Decimal(y)| == 4
    ensures |Decimal(y)| <= 4
  {
    if y < 10 { DecimalWidth(y, 0); }
    else if y < 100 { DecimalWidth(y, 1); }
    else if y < 1000 { DecimalWidth(y, 2); }
    else { DecimalWidth(y, 3); }
  }

  /** Reading a six-digit `ddmmyy` stamp as day, month and two-digit year. */
  function ParseStamp(s: string): (int, int, int)
    requires |s| == 6 && AllDigits(s)
  {
    (DecimalValue(s[..2]), DecimalValue(s[2..4]), DecimalValue(s[4..]))
  }

  /** The last two characters of a four-digit year's decimal form are the
      year modulo 100, with a leading zero kept. */
  lemma YearSuffix(y: nat)
    requires 1000 <= y <= 9999
    ensures |Drop(Decimal(y), 2)| == 2 && AllDigits(Drop(Decimal(y), 2))
    ensures DecimalValue(Drop(Decimal(y), 2)) == y % 100
  {
    YearWidth(y);
    DecimalWidth(y / 100, 1);
    assert y / 10 / 10 == y / 100;
    var tens := DigitChar((y / 10) % 10);
    var ones := DigitChar(y % 10);
    assert Decimal(y) == Decimal(y / 100) + [tens] + [ones];
    var t := Drop(Decimal(y), 2);
    assert t == [tens, ones];
    assert t[..1] == [tens];
    assert DecimalValue([tens]) == (y / 10) % 10 by {
      assert [tens][..0] == [];
    }
    assert y % 100 == 10 * ((y / 10) % 10) + y % 10;
  }

  /** The stamp reads back as the date it was built from: day, month and the
      year's last two digits. */
  lemma StampRoundTrip(d: Date)
    requires ValidDate(d) && d.year >= 1000
    ensures |DateStamp(d)| == 6
    ensures ParseStamp(DateStamp(d)) == (d.day, d.month, d.year % 100)
  {
    var s := DateStamp(d);
    var day := ZFill(Decimal(d.day), 2);
    var month := ZFill(Decimal(d.month), 2);
    DayMonthWidth(d.day);
    DayMonthWidth(d.month);
    ZFillValue(Decimal(d.day), 2);
    ZFillValue(Decimal(d.month), 2);
    DecimalRoundTrip(d.day);
    DecimalRoundTrip(d.month);
    YearSuffix(d.year);
    assert s[..2] == day && s[2..4] == month && s[4..] == Drop(Decimal(d.year), 2);
  }

  const ExchangeFolder := "http://www.bseindia.com/download/BhavCopy/Equity"

  /** What `do_the_dew` derives before downloading: the date stamp naming the
      working directory, the archive's file name and the link to fetch. */
  datatype Plan = Plan(fileDate: string, downloadFile: string, downloadLink: string)

  /** Without a custom link the names are built from the date; with one, the
      file is the text after the link's last '/' and the date is the last six
      characters of that file name without its extension. */
  function MakePlan(d: Date, custom: Option<string>): (r: Result<Plan, LinkError>)
    requires ValidDate(d)
    ensures r.Err? <==> custom.Some? && '/' !in custom.value
    ensures r.Ok? ==> '/' !in r.value.downloadFile
    ensures r.Ok? ==> Basename(r.value.downloadLink) == r.value.downloadFile
    ensures r.Ok? && custom.Some? ==> r.value.downloadLink == custom.value
    ensures r.Ok? && custom.Some? ==>
      |r.value.fileDate| <= 6 && r.value.fileDate == Last(Stem(custom.value), 6)
    ensures r.Ok? && custom.None? ==> r.value.fileDate == DateStamp(d)
    ensures r.Ok? && custom.None? ==>
      && r.value.downloadFile == DefaultFile(r.value.fileDate)
      && r.value.downloadLink == ExchangeFolder + "/" + r.value.downloadFile
  {
    match custom
    case None =>
      var fileDate := DateStamp(d);
      var file := DefaultFile(fileDate);
      BasenameOfJoin(ExchangeFolder, file);
      Ok(Plan(fileDate, file, ExchangeFolder + "/" + file))
    case Some(link) =>
      var file :- AfterLastSlash(link);
      BasenameSpec(link);
      Ok(Plan(Last(SplitExt(file).0, 6), file, link))
  }

  /** The archive named after a date stamp. */
  function DefaultFile(stamp: string): (f: string)
    requires AllDigits(stamp)
    ensures '/' !in f
  {
    var f := "EQ_ISINCODE_" + stamp + ".zip";
    assert forall i :: 0 <= i < |f| ==> f[i] != '/' by {
      forall i | 0 <= i < |f| ensures f[i] != '/' {
        if 12 <= i < 12 + |stamp| { assert f[i] == stamp[i - 12]; }
      }
    }
    f
  }

  /** A default link read back as a custom one: it has a '/', its file is
      the default file, and that file's stem ends in the stamp. */
  lemma DefaultNames(folder: string, stamp: string)
    requires |stamp| == 6 && AllDigits(stamp)
    ensures var link := folder + "/" + DefaultFile(stamp);
      && '/' in link
      && Basename(link) == DefaultFile(stamp)
      && Last(SplitExt(DefaultFile(stamp)).0, 6) == stamp
  {
    var link := folder + "/" + DefaultFile(stamp);
    assert link[|folder|] == '/';
    BasenameOfJoin(folder, DefaultFile(stamp));
    var stem := "EQ_ISINCODE_" + stamp;
    assert DefaultFile(stamp) == stem + "." + "zip";
    assert forall i :: 0 <= i < |stem| ==> stem[i] != '/' by {
      forall i | 0 <= i < |stem| ensures stem[i] != '/' {
        if i >= 12 { assert stem[i] == stamp[i - 12]; }
      }
    }
    BasenameNoSlash(stem);
    assert stem[0] != '.';
    SplitExtOf(stem, "zip");
    assert stem[|stem| - 6..] == stamp;
  }

  /** Handing the default link back in as a custom link derives the same
      file, the same date stamp and the same link, for four-digit years. */
  lemma DefaultLinkRoundTrip(d: Date)
    requires ValidDate(d) && d.year >= 1000
    ensures MakePlan(d, None).Ok?
    ensures MakePlan(d, Some(MakePlan(d, None).value.downloadLink)) == MakePlan(d, None)
  {
    DefaultNames(ExchangeFolder, DateStamp(d));
  }
}
