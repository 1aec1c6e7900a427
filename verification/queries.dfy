/** The three public lookups of `Handler` on the value model: a solar date to its day record,
    a lunar date to its day record, and the solar terms of a lunar year. A lookup first asks
    the tables; only on a miss does it read a calendar file, and every file it opens is listed
    in `opens`, in order. */
module Queries {
  import opened Dates
  import opened Numerals
  import opened Store
  import opened Scanner

  /** The calendar file of a year with its three header lines removed, each line split on
      white space; `None` when the file cannot be opened or its header cannot be read. */
  type FileSource = int -> Option<seq<Line>>

  /** The file of year `y`, when there is one, has only lines `parseLine` can index. */
  predicate SourceOk(files: FileSource, y: int)
  {
    files(y).Some? ==> LinesOk(files(y).value)
  }

  /** Every month line of the file of year `y`, when there is one, names a real month. */
  predicate MonthsKnownIn(files: FileSource, y: int)
    requires SourceOk(files, y)
  {
    files(y).Some? ==> MonthsKnown(files(y).value)
  }

  /** A lookup's heap afterwards, its outcome, and the file-years whose files it opened, in order. */
  datatype Answer<T> = Answer(st: State, outcome: Outcome<T>, opens: seq<int>)

  /** The file of `fileYear` scanned from an empty pending list, or the read error. */
  function Load(st: State, files: FileSource, d: Date, byDate: bool, fileYear: int, lunarMonth: int,
                parse: TimeParser): (f: FindResult)
    requires WF(st) && SourceOk(files, fileYear)
    ensures WF(f.st) && |st.records| <= |f.st.records|
    ensures f.outcome.Ok? ==> f.outcome.value < |f.st.records| && fileYear in f.st.cacheMap
    ensures byDate && f.outcome.Ok? ==> f.st.records[f.outcome.value].date == d
    ensures files(fileYear).None? ==> f == FindResult(st, Err(IOError), lunarMonth)
  {
    match files(fileYear)
    case None => FindResult(st, Err(IOError), lunarMonth)
    case Some(lines) => Find(st, lines, d, byDate, fileYear, fileYear - 1, lunarMonth, parse)
  }

  /** Go's `Handler.DateToLunarDate`. The tables of `d.year` answer when they hold `d`;
      otherwise the file of `d.year` is read, even when its tables already exist. */
  function DateToLunarDate(st: State, d: Date, files: FileSource, parse: TimeParser): (a: Answer<Id>)
    requires WF(st) && SourceOk(files, d.year)
    ensures WF(a.st) && |st.records| <= |a.st.records|
    ensures var q := QueryCache(st.cacheMap, d.year, d, true);
      (a.opens == [] <==> q.1.Some?) &&
      (q.1.Some? ==> a == Answer(st, Ok(q.1.value), [])) &&
      (q.1.None? ==> a.opens == [d.year])
    ensures files(d.year).None? && a.opens != [] ==> a == Answer(st, Err(IOError), [d.year])
    ensures a.outcome.Ok? ==>
      a.outcome.value < |a.st.records| && a.st.records[a.outcome.value].date == d &&
      d.year in a.st.cacheMap
  {
    var q := QueryCache(st.cacheMap, d.year, d, true);
    if q.0 && q.1.Some? then Answer(st, Ok(q.1.value), [])
    else
      var f := Load(st, files, d, true, d.year, 0, parse);
      Answer(f.st, f.outcome, [d.year])
  }

  /** The second half of Go's `Handler.LunarDateToDate`: the tables of the following
      file-year, then its file, scanned with the running month left by the first file. */
  function NextYear(st: State, d: Date, lunarMonth: int, opens: seq<int>, files: FileSource,
                    parse: TimeParser): (a: Answer<Id>)
    requires WF(st) && SourceOk(files, d.year + 1)
    ensures WF(a.st) && |st.records| <= |a.st.records|
    ensures var q := QueryCache(st.cacheMap, d.year + 1, d, false);
      (q.0 ==> a == Answer(st, if q.1.Some? then Ok(q.1.value) else Err(NotFound), opens)) &&
      (!q.0 ==> a.opens == opens + [d.year + 1])
    ensures a.outcome.Ok? ==>
      a.outcome.value < |a.st.records| && d.year + 1 in a.st.cacheMap
    ensures !QueryCache(st.cacheMap, d.year + 1, d, false).0 && files(d.year + 1).None? ==>
      a == Answer(st, Err(IOError), opens + [d.year + 1])
    ensures d.Valid() && MonthsKnownIn(files, d.year + 1) && a.outcome.Ok? ==>
      QueryCache(st.cacheMap, d.year + 1, d, false).1 == Some(a.outcome.value) ||
      (|st.records| <= a.outcome.value && LunarMatch(a.st.records, |st.records|, a.outcome.value, d))
    ensures d.Valid() && d.year > 0 && MonthsKnownIn(files, d.year + 1) && a.outcome == Err(NotFound) ==>
      forall j :: |st.records| <= j < |a.st.records| ==> a.st.records[j].lunarDate != d
  {
    var q := QueryCache(st.cacheMap, d.year + 1, d, false);
    if q.0 && q.1.Some? then Answer(st, Ok(q.1.value), opens)
    else if q.0 then Answer(st, Err(NotFound), opens)
    else
      var f := match files(d.year + 1)
               case None => FindResult(st, Err(IOError), lunarMonth)
               case Some(lines) => Find(st, lines, d, false, d.year + 1, d.year, lunarMonth, parse);
      Answer(f.st, f.outcome, opens + [d.year + 1])
  }

  /** Go's `Handler.LunarDateToDate`. A lunar year spans two solar years, so the lookup tries
      the file-year `d.year` and then `d.year + 1`. A file-year whose tables exist is never read
      again; a read error, or any error but not-found, ends the lookup. */
  function LunarDateToDate(st: State, d: Date, files: FileSource, parse: TimeParser): (a: Answer<Id>)
    requires WF(st) && SourceOk(files, d.year) && SourceOk(files, d.year + 1)
    ensures WF(a.st) && |st.records| <= |a.st.records|
    ensures a.outcome.Ok? ==> a.outcome.value < |a.st.records|
    ensures var q := QueryCache(st.cacheMap, d.year, d, false);
      q.1.Some? ==> a == Answer(st, Ok(q.1.value), [])
    ensures !QueryCache(st.cacheMap, d.year, d, false).0 && files(d.year).None? ==>
      a == Answer(st, Err(IOError), [d.year])
    ensures var q := QueryCache(st.cacheMap, d.year, d, false);
      var q1 := QueryCache(st.cacheMap, d.year + 1, d, false);
      q.0 && q.1.None? ==>
        (q1.0 ==> a == Answer(st, if q1.1.Some? then Ok(q1.1.value) else Err(NotFound), [])) &&
        (!q1.0 && files(d.year + 1).None? ==> a == Answer(st, Err(IOError), [d.year + 1]))
  {
    var q := QueryCache(st.cacheMap, d.year, d, false);
    if q.0 && q.1.Some? then Answer(st, Ok(q.1.value), [])
    else if q.0 then NextYear(st, d, 0, [], files, parse)
    else
      var f := Load(st, files, d, false, d.year, 0, parse);
      if f.outcome.Ok? || f.outcome.error != NotFound then Answer(f.st, f.outcome, [d.year])
      else
        NextYear(f.st, d, f.lunarMonth, [d.year], files, parse)
  }

  /** The record `LunarDateToDate` answers with, for a valid date and files whose month lines
      name real months: an entry the tables of `d.year` or `d.year + 1` already had under `d`,
      or a record read by this lookup that carries `d`, or the month-line record whose flush
      gave `d` to a record read by this lookup. Conversely, for a positive year, the answer is
      not-found only when no record read by this lookup carries `d`. */
  lemma LunarDateToDateFinds(st: State, d: Date, files: FileSource, parse: TimeParser)
    requires WF(st) && SourceOk(files, d.year) && SourceOk(files, d.year + 1)
    requires d.Valid() && MonthsKnownIn(files, d.year) && MonthsKnownIn(files, d.year + 1)
    ensures var a := LunarDateToDate(st, d, files, parse);
      a.outcome.Ok? ==>
        QueryCache(st.cacheMap, d.year, d, false).1 == Some(a.outcome.value) ||
        QueryCache(st.cacheMap, d.year + 1, d, false).1 == Some(a.outcome.value) ||
        (|st.records| <= a.outcome.value && LunarMatch(a.st.records, |st.records|, a.outcome.value, d))
    ensures var a := LunarDateToDate(st, d, files, parse);
      d.year > 0 && a.outcome == Err(NotFound) ==>
        forall j :: |st.records| <= j < |a.st.records| ==> a.st.records[j].lunarDate != d
  {
    if d.year !in st.cacheMap && files(d.year).Some? {
      LunarDateToDateLoads(st, d, files, parse);
      NextYearFrame(st, d, files, parse);
      var f := Find(st, files(d.year).value, d, false, d.year, d.year - 1, 0, parse);
      FindFrame(st, files(d.year).value, d, false, d.year, d.year - 1, 0, parse);
      NextYearKeeps(f.st, d, f.lunarMonth, [d.year], files, parse);
    }
  }

  /** `NextYear` leaves the records it did not create alone. */
  lemma NextYearKeeps(st: State, d: Date, lunarMonth: int, opens: seq<int>, files: FileSource, parse: TimeParser)
    requires WF(st) && SourceOk(files, d.year + 1)
    ensures var a := NextYear(st, d, lunarMonth, opens, files, parse);
      forall i :: 0 <= i < |st.records| ==> a.st.records[i] == st.records[i]
  {
    if !QueryCache(st.cacheMap, d.year + 1, d, false).0 && files(d.year + 1).Some? {
      FindFrame(st, files(d.year + 1).value, d, false, d.year + 1, d.year, lunarMonth, parse);
    }
  }

  /** Which files `LunarDateToDate` opens: none when the answer is in the tables of `d.year` or
      both years have tables; `d.year` first exactly when it has no tables; `d.year + 1` only
      when it had none before the lookup. */
  lemma LunarDateToDateOpens(st: State, d: Date, files: FileSource, parse: TimeParser)
    requires WF(st) && SourceOk(files, d.year) && SourceOk(files, d.year + 1)
    ensures var a := LunarDateToDate(st, d, files, parse);
      var q := QueryCache(st.cacheMap, d.year, d, false);
      var q1 := QueryCache(st.cacheMap, d.year + 1, d, false);
      (a.opens == [] <==> q.1.Some? || (q.0 && q1.0)) &&
      (|a.opens| > 0 && a.opens[0] == d.year <==> !q.0) &&
      (d.year + 1 in a.opens ==> !q1.0) &&
      (a.opens == [] || a.opens == [d.year] || a.opens == [d.year + 1] || a.opens == [d.year, d.year + 1])
  {
    if d.year !in st.cacheMap && files(d.year).Some? {
      LunarDateToDateLoads(st, d, files, parse);
      NextYearAfterLoad(st, d, files, parse);
    }
  }

  /** After the file of `d.year` was read without an answer, the following file-year is read
      only when it had no tables before the first read. */
  lemma NextYearAfterLoad(st: State, d: Date, files: FileSource, parse: TimeParser)
    requires WF(st) && SourceOk(files, d.year) && SourceOk(files, d.year + 1) && files(d.year).Some?
    ensures var f := Find(st, files(d.year).value, d, false, d.year, d.year - 1, 0, parse);
      var a := NextYear(f.st, d, f.lunarMonth, [d.year], files, parse);
      |st.records| <= |a.st.records| &&
      (a.opens == [d.year] || a.opens == [d.year, d.year + 1]) &&
      (d.year + 1 in a.opens ==> !QueryCache(st.cacheMap, d.year + 1, d, false).0)
  {
    var f := Find(st, files(d.year).value, d, false, d.year, d.year - 1, 0, parse);
    FindFrame(st, files(d.year).value, d, false, d.year, d.year - 1, 0, parse);
    assert QueryCache(f.st.cacheMap, d.year + 1, d, false).0 == QueryCache(st.cacheMap, d.year + 1, d, false).0;
  }

  /** Reading the file of `d.year` leaves the tables of `d.year + 1` as they were. */
  lemma NextYearFrame(st: State, d: Date, files: FileSource, parse: TimeParser)
    requires WF(st) && SourceOk(files, d.year) && files(d.year).Some?
    ensures var f := Find(st, files(d.year).value, d, false, d.year, d.year - 1, 0, parse);
      QueryCache(f.st.cacheMap, d.year + 1, d, false) == QueryCache(st.cacheMap, d.year + 1, d, false)
  {
    FindFrame(st, files(d.year).value, d, false, d.year, d.year - 1, 0, parse);
  }

  /** `DateToLunarDate` when the tables of `d.year` do not hold `d` and its file opens. */
  lemma DateToLunarDateLoads(st: State, d: Date, files: FileSource, parse: TimeParser)
    requires WF(st) && SourceOk(files, d.year)
    requires QueryCache(st.cacheMap, d.year, d, true).1.None? && files(d.year).Some?
    ensures var f := Find(st, files(d.year).value, d, true, d.year, d.year - 1, 0, parse);
      DateToLunarDate(st, d, files, parse) == Answer(f.st, f.outcome, [d.year])
  {
  }

  /** A date `DateToLunarDate` found by reading the file of its year is answered from the
      tables the next time, with no file opened, as long as no other record read by that lookup
      has the same solar date. Go re-reads the file on every miss, so a date the file does not
      hold is read again. */
  lemma DateToLunarDateCaches(st: State, d: Date, files: FileSource, parse: TimeParser)
    requires WF(st) && SourceOk(files, d.year)
    requires var a := DateToLunarDate(st, d, files, parse);
      a.opens != [] && a.outcome.Ok? &&
      forall k :: |st.records| <= k < |a.st.records| && k != a.outcome.value ==> a.st.records[k].date != d
    ensures var a := DateToLunarDate(st, d, files, parse);
      DateToLunarDate(a.st, d, files, parse) == Answer(a.st, a.outcome, [])
  {
    var a := DateToLunarDate(st, d, files, parse);
    var lines := files(d.year).value;
    DateToLunarDateLoads(st, d, files, parse);
    FindCaches(st, lines, d, true, d.year, d.year - 1, 0, parse);
    var v: Id := a.outcome.value;
    assert |st.records| <= v && a.st.records[v].lunarDate.month != 0;
    assert UniqueKey(a.st.records, |st.records|, v, true);
  }

  /** `LunarDateToDate` when the tables of `d.year` do not exist yet and its file opens. */
  lemma LunarDateToDateLoads(st: State, d: Date, files: FileSource, parse: TimeParser)
    requires WF(st) && SourceOk(files, d.year) && SourceOk(files, d.year + 1)
    requires d.year !in st.cacheMap && files(d.year).Some?
    ensures var f := Find(st, files(d.year).value, d, false, d.year, d.year - 1, 0, parse);
      LunarDateToDate(st, d, files, parse) ==
        if f.outcome.Ok? || f.outcome.error != NotFound then Answer(f.st, f.outcome, [d.year])
        else NextYear(f.st, d, f.lunarMonth, [d.year], files, parse)
  {
  }

  // ---------------------------------------------------------------------
  // Solar terms
  // ---------------------------------------------------------------------

  /** A record `getSolarTerms` keeps: it has a solar term, its lunar year is `year`, and when
      names are given its term is one of them. */
  predicate Qualifies(rec: Record, year: int, names: seq<string>)
  {
    rec.solarTerm != "" && rec.lunarDate.year == year && (|names| == 0 || rec.solarTerm in names)
  }

  /** The lunar-table entries of file-year `y` whose records qualify, named by (file-year, key);
      the records `getSolarTerms` returns are the ones these entries point at, in map order. */
  function Entries(st: State, y: int, year: int, names: seq<string>): set<(int, Date)>
    requires WF(st)
  {
    if y !in st.cacheMap then {}
    else
      var table := st.cacheMap[y].lunarDateCache;
      set k | k in table && Qualifies(st.records[table[k]], year, names) :: (y, k)
  }

  /** Go's `Handler.GetSolarTerms`: make sure the tables of `year` and `year + 1` exist by looking
      up 1 January of each, then keep the qualifying entries of their lunar tables. Any error of
      either lookup, not-found included, is the answer. */
  function SolarTerms(st: State, year: int, names: seq<string>, files: FileSource, parse: TimeParser): (a: Answer<set<(int, Date)>>)
    requires WF(st) && SourceOk(files, year) && SourceOk(files, year + 1)
    ensures WF(a.st) && |st.records| <= |a.st.records|
    ensures a.outcome.Ok? ==> year in a.st.cacheMap && year + 1 in a.st.cacheMap
    ensures a.outcome.Ok? ==> forall e :: e in a.outcome.value ==> e.0 == year || e.0 == year + 1
  {
    var a1 := DateToLunarDate(st, Date(year, 1, 1), files, parse);
    if a1.outcome.Err? then Answer(a1.st, Err(a1.outcome.error), a1.opens)
    else
      var terms := Entries(a1.st, year, year, names);
      var a2 := DateToLunarDate(a1.st, Date(year + 1, 1, 1), files, parse);
      if a2.outcome.Err? then Answer(a2.st, Err(a2.outcome.error), a1.opens + a2.opens)
      else
        LookupFrame(a1.st, Date(year + 1, 1, 1), files, parse);
        Answer(a2.st, Ok(terms + Entries(a2.st, year + 1, year, names)), a1.opens + a2.opens)
  }

  /** `SolarTerms` in steps: the year's entries are taken after the first lookup, yet they are
      also the year's entries once the second lookup is done, which leaves that table alone. */
  lemma SolarTermsSteps(st: State, year: int, names: seq<string>, files: FileSource, parse: TimeParser)
    requires WF(st) && SourceOk(files, year) && SourceOk(files, year + 1)
    ensures var a1 := DateToLunarDate(st, Date(year, 1, 1), files, parse);
      var a2 := DateToLunarDate(a1.st, Date(year + 1, 1, 1), files, parse);
      SolarTerms(st, year, names, files, parse) ==
        if a1.outcome.Err? then Answer(a1.st, Err(a1.outcome.error), a1.opens)
        else if a2.outcome.Err? then Answer(a2.st, Err(a2.outcome.error), a1.opens + a2.opens)
        else Answer(a2.st, Ok(Entries(a2.st, year, year, names) + Entries(a2.st, year + 1, year, names)), a1.opens + a2.opens)
  {
    var a1 := DateToLunarDate(st, Date(year, 1, 1), files, parse);
    if a1.outcome.Ok? {
      var a2 := DateToLunarDate(a1.st, Date(year + 1, 1, 1), files, parse);
      if a2.outcome.Ok? {
        LookupFrame(a1.st, Date(year + 1, 1, 1), files, parse);
        EntriesKept(a1.st, a2.st, year, year, names);
      }
    }
  }

  /** A solar lookup leaves earlier records alone and changes only the tables of its year. */
  lemma LookupFrame(st: State, d: Date, files: FileSource, parse: TimeParser)
    requires WF(st) && SourceOk(files, d.year)
    ensures var a := DateToLunarDate(st, d, files, parse);
      (forall i :: 0 <= i < |st.records| ==> a.st.records[i] == st.records[i]) &&
      st.cacheMap.Keys <= a.st.cacheMap.Keys <= st.cacheMap.Keys + {d.year} &&
      (forall y :: y in st.cacheMap && y != d.year ==> a.st.cacheMap[y] == st.cacheMap[y])
  {
    if files(d.year).Some? {
      FindFrame(st, files(d.year).value, d, true, d.year, d.year - 1, 0, parse);
    }
  }

  /** The terms `GetSolarTerms` returns are exactly the qualifying entries of the lunar tables of
      `year` and `year + 1` as they stand when it returns: every entry it lists is in one of the two
      tables and its record qualifies, and every qualifying entry of the two tables is listed. */
  lemma SolarTermsExact(st: State, year: int, names: seq<string>, files: FileSource, parse: TimeParser)
    requires WF(st) && SourceOk(files, year) && SourceOk(files, year + 1)
    ensures var a := SolarTerms(st, year, names, files, parse);
      a.outcome.Ok? ==>
        (forall e :: e in a.outcome.value ==>
           (e.0 == year || e.0 == year + 1) && e.0 in a.st.cacheMap &&
           e.1 in a.st.cacheMap[e.0].lunarDateCache &&
           Qualifies(a.st.records[a.st.cacheMap[e.0].lunarDateCache[e.1]], year, names)) &&
        (forall y, k ::
           ((y == year || y == year + 1) && y in a.st.cacheMap && k in a.st.cacheMap[y].lunarDateCache &&
            Qualifies(a.st.records[a.st.cacheMap[y].lunarDateCache[k]], year, names)) ==>
           (y, k) in a.outcome.value)
  {
    var a1 := DateToLunarDate(st, Date(year, 1, 1), files, parse);
    if a1.outcome.Ok? {
      var a2 := DateToLunarDate(a1.st, Date(year + 1, 1, 1), files, parse);
      if a2.outcome.Ok? {
        LookupFrame(a1.st, Date(year + 1, 1, 1), files, parse);
        EntriesKept(a1.st, a2.st, year, year, names);
        EntriesExact(a2.st, year, year, names);
        EntriesExact(a2.st, year + 1, year, names);
      }
    }
  }

  /** A year's entries stay the same while its table and the records it points at do. */
  lemma EntriesKept(st: State, st': State, y: int, year: int, names: seq<string>)
    requires WF(st) && WF(st') && y in st.cacheMap && y in st'.cacheMap
    requires st'.cacheMap[y] == st.cacheMap[y] && |st.records| <= |st'.records|
    requires forall i :: 0 <= i < |st.records| ==> st'.records[i] == st.records[i]
    ensures Entries(st', y, year, names) == Entries(st, y, year, names)
  {
    var table := st.cacheMap[y].lunarDateCache;
    assert forall k :: k in table ==> table[k] < |st.records| && st'.records[table[k]] == st.records[table[k]];
  }

  /** The entries of a year are exactly its qualifying lunar keys. */
  lemma EntriesExact(st: State, y: int, year: int, names: seq<string>)
    requires WF(st)
    ensures forall e :: e in Entries(st, y, year, names) ==>
      e.0 == y && y in st.cacheMap && e.1 in st.cacheMap[y].lunarDateCache &&
      Qualifies(st.records[st.cacheMap[y].lunarDateCache[e.1]], year, names)
    ensures forall k ::
      (y in st.cacheMap && k in st.cacheMap[y].lunarDateCache &&
       Qualifies(st.records[st.cacheMap[y].lunarDateCache[k]], year, names)) ==> (y, k) in Entries(st, y, year, names)
  {
  }

  // ---------------------------------------------------------------------
  // A worked lookup
  // ---------------------------------------------------------------------

  /** Two lines of the 2021 file: a day whose month is not yet known, then the first day of the
      twelfth month. */
  const ExampleLines: seq<Line> := [["2021年1月12日", "廿九", "星期二"], ["2021年1月13日", "十二月", "星期三"]]

  /** The solar-date parser restricted to the two example dates. */
  function ExampleParse(layout: string, text: string): Option<Date>
  {
    if text == "2021年1月12日" then Some(Date(2021, 1, 12))
    else if text == "2021年1月13日" then Some(Date(2021, 1, 13))
    else None
  }

  /** A 2020 file without day lines and the 2021 file above. */
  function ExampleFiles(y: int): Option<seq<Line>>
  {
    if y == 2020 then Some([]) else if y == 2021 then Some(ExampleLines) else None
  }

  /** The record of the first example line: month still unknown. */
  const ExampleRecord0: Record := Record(Date(2021, 1, 12), Date(2020, 0, 29), 2, "星期二", "")

  /** The scan state after the first example line: its record is pending. */
  const ExampleAfterFirst: ScanState := ScanState(State([ExampleRecord0], map[]), 2020, 0, None, [0], false)

  lemma ExampleFirstLine()
    ensures Scan(StartScan(State([], map[]), 2020, 0), ExampleLines[..1], Date(2020, 11, 29), false, 2021, ExampleParse)
            == ExampleAfterFirst
  {
    DayNameDecodes(29);
    assert DayName(29) == "廿九";
    var init := StartScan(State([], map[]), 2020, 0);
    var l0 := ExampleLines[0];
    assert ExampleLines[..1] == [l0] && [l0][..0] == [];
    assert ParseLine(init.st, l0, 2021, 2020, 0, [], ExampleParse) ==
           LineStep(State([ExampleRecord0], map[]), Parsed(0, [0]));
  }

  /** The month line flushes the pending record into month 11 and picks its own record. */
  lemma ExampleSecondLine()
    ensures var s := ScanStep(ExampleAfterFirst, ExampleLines[1], Date(2020, 11, 29), false, 2021, ExampleParse);
      s.result == Some(1) && !s.failed &&
      s.st.records[0].lunarDate == Date(2020, 11, 29) &&
      s.st.records[1].date == Date(2021, 1, 13) && s.st.records[1].lunarDate == Date(2020, 12, 1)
  {
    MonthNameDecodes(12);
    assert MonthName(12) == "十二月";
    var s1 := ExampleAfterFirst;
    var step := ParseLine(s1.st, ExampleLines[1], 2021, 2020, 0, [0], ExampleParse);
    FlushLookup(s1.st, [0], 11, 2021, 0);
    assert step.st.records[0].lunarDate == Date(2020, 11, 29);
    assert FlushHit(step.st, [0], Date(2020, 11, 29));
  }

  /** Looking up the lunar date 2020-11-29 on an empty handler: the 2020 file has no match, so the
      2021 file is read. Its first day is 2020-11-29 once the month line flushes it, and that match
      among the flushed records returns the record of the month line, 2020-12-01 (solar
      2021-01-13), not the record that carries the date asked for. */
  lemma FlushMatchReturnsMonthStart()
    ensures var a := LunarDateToDate(State([], map[]), Date(2020, 11, 29), ExampleFiles, ExampleParse);
      a.outcome == Ok(1) && a.opens == [2020, 2021] &&
      a.st.records[0].date == Date(2021, 1, 12) && a.st.records[0].lunarDate == Date(2020, 11, 29) &&
      a.st.records[1].date == Date(2021, 1, 13) && a.st.records[1].lunarDate == Date(2020, 12, 1)
  {
    var st0 := State([], map[]);
    var d := Date(2020, 11, 29);
    assert Find(st0, [], d, false, 2020, 2019, 0, ExampleParse) == FindResult(st0, Err(NotFound), 0);
    ExampleLinesOk();
    LunarDateToDateLoads(st0, d, ExampleFiles, ExampleParse);
    var f := Find(st0, ExampleLines, d, false, 2021, 2020, 0, ExampleParse);
    assert LunarDateToDate(st0, d, ExampleFiles, ExampleParse) == Answer(f.st, f.outcome, [2020, 2021]);
    ExampleScan();
  }

  /** The 2021 file, scanned for 2020-11-29 with month 0 carried over from the 2020 file. */
  lemma ExampleScan()
    ensures var f := Find(State([], map[]), ExampleLines, Date(2020, 11, 29), false, 2021, 2020, 0, ExampleParse);
      f.outcome == Ok(1) &&
      f.st.records[0].date == Date(2021, 1, 12) && f.st.records[0].lunarDate == Date(2020, 11, 29) &&
      f.st.records[1].date == Date(2021, 1, 13) && f.st.records[1].lunarDate == Date(2020, 12, 1)
  {
    var d := Date(2020, 11, 29);
    ExampleScanState();
    ExampleSecondLine();
    FindFromScan(State([], map[]), ExampleLines, d, false, 2021, 2020, 0, ExampleParse);
  }

  /** The scan of the 2021 file ends in the state the month line leaves. */
  lemma ExampleScanState()
    ensures LinesOk(ExampleLines)
    ensures Scan(StartScan(State([], map[]), 2020, 0), ExampleLines, Date(2020, 11, 29), false, 2021, ExampleParse) ==
            ScanStep(ExampleAfterFirst, ExampleLines[1], Date(2020, 11, 29), false, 2021, ExampleParse)
  {
    var d := Date(2020, 11, 29);
    var init := StartScan(State([], map[]), 2020, 0);
    ExampleLinesOk();
    ExampleFirstLine();
    ScanNext(init, ExampleLines, 1, d, false, 2021, ExampleParse);
    assert ExampleLines[..2] == ExampleLines;
  }

  lemma ExampleLinesOk()
    ensures LinesOk(ExampleLines)
  {
    DayNameDecodes(29);
    MonthNameDecodes(12);
    assert DayName(29) == "廿九" && MonthName(12) == "十二月";
  }
}
