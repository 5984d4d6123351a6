/** The run of `update_readme_and_archive`: the ranked table under a fixed
    page text with the update time, written to the status file and to a file
    of the day under the archive directory. The clock reading is an input and
    the two file writes are returned as data, in the order they happen. */
module Archive {
  import opened Decimal
  import opened Ranking
  import opened Table

  const ReadmePath: string := "README.md"
  const ArchiveDir: string := "archive"

  /** How many records the page shows (`update_daily_coin_price.py` line 72). */
  const TopN: nat := 20

  datatype Option<T> = None | Some(value: T)

  /** A calendar day of the proleptic Gregorian calendar, as Python's
      `datetime` holds it. */
  datatype Date = Date(year: nat, month: nat, day: nat)

  predicate LeapYear(year: nat) {
    year % 4 == 0 && (year % 100 != 0 || year % 400 == 0)
  }

  function DaysInMonth(year: nat, month: nat): (n: nat)
    requires 1 <= month <= 12
    ensures 28 <= n <= 31
  {
    if month == 2 then (if LeapYear(year) then 29 else 28)
    else if month in {4, 6, 9, 11} then 30
    else 31
  }

  /** The days `datetime` can represent: years 1 to 9999. */
  predicate ValidDate(d: Date) {
    1 <= d.year <= 9999 && 1 <= d.month <= 12 && 1 <= d.day <= DaysInMonth(d.year, d.month)
  }

  /** A UTC clock reading to the second; sub-second digits are never shown. */
  datatype Instant = Instant(date: Date, hour: nat, minute: nat, second: nat)

  predicate ValidInstant(t: Instant) {
    ValidDate(t.date) && t.hour < 24 && t.minute < 60 && t.second < 60
  }

  /** `strftime("%Y-%m-%d")`: four-digit year, two-digit month and day,
      zero-padded (`update_daily_coin_price.py` line 70). */
  function DateString(d: Date): string
    requires ValidDate(d)
  {
    LowDigits(d.year, 4) + "-" + LowDigits(d.month, 2) + "-" + LowDigits(d.day, 2)
  }

  /** Reads `YYYY-MM-DD` back as a valid day, or nothing. */
  function ParseDate(s: string): (r: Option<Date>)
    ensures r.Some? ==> ValidDate(r.value)
  {
    if |s| == 10 && s[4] == '-' && s[7] == '-'
       && AllDigits(s[..4]) && AllDigits(s[5..7]) && AllDigits(s[8..])
    then
      var d := Date(ValueOf(s[..4]), ValueOf(s[5..7]), ValueOf(s[8..]));
      if ValidDate(d) then Some(d) else None
    else None
  }

  /** Reading back the rendered day gives the day. */
  lemma DateRoundTrip(d: Date)
    requires ValidDate(d)
    ensures ParseDate(DateString(d)) == Some(d)
  {
    var s := DateString(d);
    assert s[..4] == LowDigits(d.year, 4);
    assert s[5..7] == LowDigits(d.month, 2);
    assert s[8..] == LowDigits(d.day, 2);
    assert Pow10(2) == 100 && Pow10(4) == 10000;
    LowDigitsRoundTrip(d.year, 4);
    LowDigitsRoundTrip(d.month, 2);
    LowDigitsRoundTrip(d.day, 2);
  }

  /** Every string that reads as a day is that day's rendering. */
  lemma DateStringRoundTrip(s: string)
    requires ParseDate(s).Some?
    ensures DateString(ParseDate(s).value) == s
  {
    FixedWidthRoundTrip(s[..4]);
    FixedWidthRoundTrip(s[5..7]);
    FixedWidthRoundTrip(s[8..]);
    assert s == s[..4] + "-" + s[5..7] + "-" + s[8..];
  }

  /** `strftime("%Y-%m-%d %H:%M:%S")` (`update_daily_coin_price.py` line 69). */
  function TimestampString(t: Instant): (s: string)
    requires ValidInstant(t)
    ensures |s| == 19 && s[..10] == DateString(t.date)
  {
    DateString(t.date) + " " + LowDigits(t.hour, 2) + ":" + LowDigits(t.minute, 2)
    + ":" + LowDigits(t.second, 2)
  }

  /** `os.path.join("archive", date_str + ".md")` on a POSIX system
      (`update_daily_coin_price.py` line 96). */
  function ArchivePath(d: Date): string
    requires ValidDate(d)
  {
    ArchiveDir + "/" + DateString(d) + ".md"
  }

  /** The archive path is `archive/`, the ten-character day, `.md`; the day
      reads back from it. */
  lemma ArchivePathShape(d: Date)
    requires ValidDate(d)
    ensures var p := ArchivePath(d);
      && |p| == 21 && p[..8] == "archive/" && p[18..] == ".md"
      && ParseDate(p[8..18]) == Some(d)
  {
    var p := ArchivePath(d);
    assert p[8..18] == DateString(d);
    DateRoundTrip(d);
  }

  /** Distinct days have distinct archive files, and a run never archives to
      the status file. */
  lemma ArchivePathInjective(d1: Date, d2: Date)
    requires ValidDate(d1) && ValidDate(d2)
    ensures ArchivePath(d1) == ArchivePath(d2) <==> d1 == d2
    ensures ArchivePath(d1) != ReadmePath
  {
    ArchivePathShape(d1);
    ArchivePathShape(d2);
  }

  /** The page text before the update time, between it and the table, and
      after the table (`update_daily_coin_price.py` lines 74-85). */
  const PageHead: string := "\n# 📈 \"라고 할 때 살걸...\" — 시총 500위 코인 24시간 상승률 TOP 20 🚀\n\n> 매일 아침 시가총액 상위 500위 중 24시간 상승률 기준 상위 20개 업데이트  \n> ⏰ 업데이트 시간: **"
  const PageMid: string := " (UTC)**\n\n"
  const PageTail: string := "\n\n---\n\n✨ *자동 업데이트 봇에 의해 관리됩니다.*\n"

  function Page(nowStr: string, table: string): string {
    PageHead + nowStr + PageMid + table + PageTail
  }

  /** One file write: the whole content replaces the file at `path`. */
  datatype FileWrite = FileWrite(path: string, content: string)

  /** `update_readme_and_archive` after the fetch: rank the records, render
      the top 20, wrap the table in the page text with the update time, and
      write the page to the status file, then to the archive file of the
      day. */
  function UpdateReadmeAndArchive(fetched: seq<Coin>, now: Instant, fixed2: real -> string)
    : (writes: seq<FileWrite>)
    requires ValidInstant(now)
    ensures |writes| == 2
    ensures writes[0].path == ReadmePath && writes[1].path == ArchivePath(now.date)
    ensures writes[0].content == writes[1].content
  {
    var table := FormatTable(Rank(fetched), TopN, fixed2);
    var content := Page(TimestampString(now), table);
    [FileWrite(ReadmePath, content), FileWrite(ArchivePath(now.date), content)]
  }

  /** Both files hold the update time and, right after the fixed text
      around it, the table of the top 20 ranked records. */
  lemma PageHoldsTable(fetched: seq<Coin>, now: Instant, fixed2: real -> string)
    requires ValidInstant(now)
    ensures var content := UpdateReadmeAndArchive(fetched, now, fixed2)[0].content;
      var table := FormatTable(Rank(fetched), TopN, fixed2);
      var start := |PageHead| + 19 + |PageMid|;
      && |content| == start + |table| + |PageTail|
      && content[|PageHead|..|PageHead| + 19] == TimestampString(now)
      && content[start..start + |table|] == table
  {
    var table := FormatTable(Rank(fetched), TopN, fixed2);
    var nowStr := TimestampString(now);
    assert UpdateReadmeAndArchive(fetched, now, fixed2)[0].content == Page(nowStr, table);
    PageSlices(nowStr, table);
  }

  /** The update time and the table sit at fixed offsets in the page. */
  lemma PageSlices(nowStr: string, table: string)
    ensures var page := Page(nowStr, table);
      var start := |PageHead| + |nowStr| + |PageMid|;
      && |page| == start + |table| + |PageTail|
      && page[|PageHead|..|PageHead| + |nowStr|] == nowStr
      && page[start..start + |table|] == table
  {
    Between(PageHead, nowStr, PageMid + table + PageTail);
    Between(PageHead + nowStr + PageMid, table, PageTail);
    assert Page(nowStr, table) == PageHead + nowStr + (PageMid + table + PageTail);
  }

  lemma Between(a: string, x: string, b: string)
    ensures (a + x + b)[|a|..|a| + |x|] == x
  {
  }

  /** Two runs write the same archive file exactly when they run on the same
      day, whatever the time of day. */
  lemma SameDaySameArchive(fetched1: seq<Coin>, t1: Instant, fetched2: seq<Coin>, t2: Instant,
                           fixed2: real -> string)
    requires ValidInstant(t1) && ValidInstant(t2)
    ensures UpdateReadmeAndArchive(fetched1, t1, fixed2)[1].path
         == UpdateReadmeAndArchive(fetched2, t2, fixed2)[1].path
       <==> t1.date == t2.date
  {
    ArchivePathInjective(t1.date, t2.date);
  }

  /** The run of 1 March 2024 archives to `archive/2024-03-01.md`. */
  lemma ArchivePathExample()
    ensures ArchivePath(Date(2024, 3, 1)) == "archive/2024-03-01.md"
  {
    DateStringExample();
  }

  lemma DateStringExample()
    ensures DateString(Date(2024, 3, 1)) == "2024-03-01"
  {
    YearExample();
    MonthDayExample();
  }

  lemma MonthDayExample()
    ensures LowDigits(3, 2) == "03" && LowDigits(1, 2) == "01"
  {
    assert LowDigits(0, 1) == "0";
  }

  lemma YearExample()
    ensures LowDigits(2024, 4) == "2024"
  {
    assert LowDigits(2, 1) == "2";
    assert LowDigits(20, 2) == "20";
    assert LowDigits(202, 3) == "202";
  }
}
