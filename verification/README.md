# lunar: solar ↔ lunar date lookup, modelled in Dafny

The Go package `lunar` answers three questions from the Hong Kong Observatory's yearly
calendar files (`T<year>c.txt`, one line per solar day):

- the day record of a solar date (`DateToLunarDate`);
- the day record of a lunar date (`LunarDateToDate`);
- the solar terms of a lunar year (`GetSolarTerms`).

A line holds:

- a solar date in the file-year's layout;
- a lunar day written in Chinese numerals, or, on the first day of a month, the month's name
  (`十二月`, `閏四月`);
- the weekday;
- optionally, a solar term.

A day's lunar month is only known once a month line has been read. Days read before the first
month line of a file wait in a pending list. When the month line arrives, each gets the month
before it (12 before month 1). `Handler` caches every record whose month becomes known in two
tables per file-year: one keyed by solar date, one keyed by lunar date. The tables point at the same
`*Result` objects as the pending list, so the month written into a pending record shows up in
both.

The model has two layers.

- **A value model** (`Store`, `Scanner`, `Queries`).
  - The handler's heap is a `State`: the sequence of every record allocated so far, plus the
    per-year tables, which hold positions in that sequence. Shared positions reproduce the
    pointer sharing of the Go code.
  - `parseLine`, `find`, `cache`, `queryCache` and the three lookups are functions on `State`.
  - The properties are lemmas about these functions.
- **The handler itself** (`Handler`).
  - `Result` and `Handler` are classes; the methods update fields and tables in place, as the
    Go code does.
  - Each method is proved to refine the value model through `Handler.Abs()`: it leaves the heap
    that the model's function computes, and returns the same record.

Inputs the Go code takes from its environment are parameters of the model:

- `files: int -> Option<seq<Line>>` is the opened file of a year, with its three header lines
  skipped and each line split on white space. `None` means the file could not be opened.
- `parse: (string, string) -> Option<Date>` is `time.Parse`.
- Ghost outputs `opens` record which files a lookup opened, in order.

The model reproduces the following behaviours of the source as written:

- In lunar mode, a match among the records flushed by a month line picks the month line's own
  record, not the matching one. `Queries.FlushMatchReturnsMonthStart` exhibits this on a two-line
  file.
- `LunarDateToDate` starts the scan of the second file from the running month the first scan left.
- A year whose tables exist but miss the date is read again by `DateToLunarDate`. In
  `LunarDateToDate`, a year with tables is never read again.
- A day read while the month is unknown is appended to the pending list the line received, even
  when that list was just flushed. The flush happens before the solar date is parsed, so it
  survives a format error.
- A character missing from the numeral table reads as 0.
- A leap month decodes as the month it repeats, so its days replace that month's days in the
  lunar table.

## Model

| member | source | states |
|---|---|---|
| Dates.Date.Valid | lunar.go:62-64 | a date is valid exactly when none of its year, month and day is the zero sentinel |
| Dates.Date.Equal | lunar.go:54-56 | two dates are equal exactly when year, month and day agree |
| Dates.FileDateFormat | lunar.go:66-73 | the zero-padded layout is used exactly for file-years up to 2010, the plain layout otherwise |
| Numerals.Digit | lunar.go:75-90 | a numeral is between 0 and 10, and a character outside the table reads as 0 |
| Numerals.DecodeLunar | lunar.go:274-306 | the decoded value lies in 0..99; the field names a month exactly when it ends in the month marker; it starts a new lunar year exactly when its last numeral is the first-month character |
| Numerals.WeekdayIndex | lunar.go:327-332 | the weekday index read off the last character of the weekday text lies between 0 and 10; the values of the seven weekday texts are stated by `Numerals.WeekdayNameDecodes` |
| Numerals.PrevMonth | lunar.go:310-313 | the month given to pending records is never 0; it is the month before, and 12 exactly when the new month is 1 |
| Numerals.DayNameDecodes | lunar.go:285-302 | every day 1..30 as the files spell it decodes to that day, not a month, not a new year |
| Numerals.MonthNameDecodes | lunar.go:274-306 | every month 1..12 as the files spell it decodes to that month; with the leap marker in front it decodes to the same month; only month 1 starts a new year |
| Numerals.WeekdayNameDecodes | lunar.go:327-332 | the weekday texts 星期日, 星期一 … 星期六 give weekdays 0..6 |
| Numerals.LeapMarkerIgnored | lunar.go:274-277 | a leading leap marker never changes the decoded numeral |
| Numerals.MonthMarkerMakesMonth | lunar.go:279-283 | appending the month marker keeps the number and turns the field into a month start |
| Numerals.DecodeExamples | lunar.go:285-302 | 廿三 is 23, 初一 is 1, 十 and 初十 are 10, 三十 is 30, 十五 is 15 |
| Numerals.MonthExamples | lunar.go:274-306 | 正月 is month 1 of a new lunar year; 閏四月 is month 4 |
| Store.QueryCache | lunar.go:361-375 | the year is reported loaded exactly when it has tables; a record comes back exactly when the chosen table has the date, and it is that entry |
| Store.Cache | lunar.go:347-359 | afterwards the year has tables and both of them return the record under its own solar and lunar date; every other lookup is unchanged; the records are untouched |
| Store.Allocate | lunar.go:328-333 | a new record goes after all existing ones and no table changes |
| Scanner.SetMonth | lunar.go:316 | only the given record changes, and only its lunar month |
| Scanner.FlushRecords | lunar.go:309-320 | a flush gives exactly the pending records the new month and leaves every other record unchanged |
| Scanner.FlushTables | lunar.go:309-320 | a flush changes only the tables of its file-year, creates them when something is pending, and enters only pending records |
| Scanner.FlushLookup | lunar.go:309-320 | after a flush, each pending record has the month before the new one and is found under its solar and lunar date, unless a later pending record has the same key and replaced it |
| Scanner.ParseLine | lunar.go:268-345 | a blank line changes nothing; a non-blank line is malformed exactly when its solar date does not parse; exactly one record is allocated when the line parses and none otherwise |
| Scanner.EnterRecord | lunar.go:338-344 | the record is appended to the heap; a record whose month is unknown goes to the end of the pending list and into no table; otherwise the file-year has tables, the record is found in both of them under its dates, every other lookup of every year is unchanged, and the pending list handed on is the kept one |
| Scanner.ParsedLine | lunar.go:268-345 | a parsed line's record has the parsed solar date, the weekday index and raw text of the third field, and the fourth field as its solar term (empty when absent); the first-month character moves the lunar year on by one; a month line is day 1 of that month; a day line keeps the running month; the record is cached or pending according to its month |
| Scanner.ParseLineRecords | lunar.go:268-345 | the new record carries the running month; the pending list handed on holds only earlier pending records and the new one; earlier records change only through the flush |
| Scanner.ParseLineTables | lunar.go:268-345 | a line changes only its file-year's tables; they exist after anything is entered; each new entry is a flushed record or the line's own |
| Scanner.ParseLineKeepsResolved | lunar.go:268-345 | if no table points at a record of unknown month before a line, none does after it |
| Scanner.Flush | lunar.go:309-320 | the flush loop keeps the heap well formed and allocates no record |
| Scanner.ScanStep | lunar.go:229-258 | a loop iteration keeps the scan well formed and never removes records |
| Scanner.Scan | lunar.go:221-259 | the loop keeps the scan well formed and never removes records |
| Scanner.Find | lunar.go:213-266 | a found record is new to this scan, has a valid lunar date, and its year has tables; in solar mode its solar date is the one asked for; in lunar mode, for a valid date and a file whose month lines name real months, the record carries the asked lunar date, or it is day 1 of a month of the date's lunar year or later and an earlier record of this scan carries the asked date; conversely, for a positive year, the answer is not-found only when no record of the scan carries the date |
| Scanner.ScanSolarResult | lunar.go:240-243 | in solar mode the pick is the last record of the scan with the asked date, and none exists when nothing was picked |
| Scanner.KnownMonthsStay | lunar.go:309-320 | while every pending record has month 0, a line changes no record whose month is known |
| Scanner.ScanLunarResult | lunar.go:244-256 | in lunar mode, for a valid date and month lines that name real months, pending records are new and keep month 0 and a lunar year no later than the running one; the pick carries the asked lunar date or is a month start preceded by a record of the scan that carries it; while nothing failed and nothing is picked, no record of the scan carries the date |
| Scanner.LunarNoneKept | lunar.go:244-256 | after a parsed line leaves nothing picked, neither an older record, nor a just-flushed one, nor the line's own record carries the asked lunar date |
| Scanner.LunarFlushPick | lunar.go:249-255 | when a month line empties a non-empty pending list and a flushed record now carries the asked lunar date, the line's own record is day 1 of a known month and the match precedes it |
| Scanner.ScanAfterFailure | lunar.go:235-237 | after a line fails to parse, the remaining lines change nothing |
| Scanner.FindFrame | lunar.go:213-266 | `find` leaves earlier records alone, adds no year but its own, and changes no other year's tables |
| Scanner.FindKeepsResolved | lunar.go:213-266 | if no table points at a record whose lunar month is 0 before `find`, none does after it |
| Scanner.FlushElsewhere | lunar.go:315-318 | a flush leaves unchanged the lookup under any key that no flushed record ends up with |
| Scanner.FlushMovesNoKey | lunar.go:309-320 | a record the flush does not touch keeps its value, so its key stays unique and no flushed record takes it |
| Scanner.FlushCached | lunar.go:309-320 | after a flush, every record of the scan whose month is known and whose key no other record of the scan shares is found under that key, including each record the flush resolves; for the lunar table, provided the pending records have month 0 |
| Scanner.EnterCached | lunar.go:338-344 | entering a record keeps every such record found and finds the new one when its month is known |
| Scanner.LineCached | lunar.go:268-345 | one line keeps every such record found |
| Scanner.PendingKept | lunar.go:308-340 | the pending list a parsed line hands on holds only records of this scan, and records of month 0 when the line's month field names a real month |
| Scanner.CachedStep | lunar.go:229-258 | a loop iteration keeps every such record found |
| Scanner.ScanCaches | lunar.go:221-259 | after the loop, every record of the scan whose month is known and whose key no other record of the scan shares is found under that key; for the lunar table, when the file's month lines name real months |
| Scanner.FindCaches | lunar.go:213-266 | after `find`, every record it read whose month became known is in the solar table of the file-year under its solar date, unless another record of the file has the same date; when every month line names a real month, the same for the lunar table and lunar dates |
| Queries.Load | lunar.go:157-164 | a file that does not open gives the read error with the heap unchanged; a found record is in the heap, its year has tables, and in solar mode it has the asked date |
| Queries.DateToLunarDate | lunar.go:151-165 | a cached hit answers from the tables and opens nothing; otherwise exactly the year's file is opened, a read failure gives the read error, and a found record has the asked solar date and its year has tables |
| Queries.DateToLunarDateCaches | lunar.go:151-165 | a date found by reading its year's file is answered from the tables the next time, with nothing opened, when no other record read by that lookup has the same solar date |
| Queries.NextYear | lunar.go:196-210 | when the next year has tables, they answer (not-found on a miss) and nothing is opened; otherwise its file is opened, and a file that does not open gives the read error with the heap unchanged; for a valid date and month lines naming real months, a found record is the tables' entry under the date, or a record this call read that carries the date, or the month-start record whose flush gave the date to a record this call read; for a positive year, not-found means no record this call read carries the date |
| Queries.NextYearKeeps | lunar.go:196-210 | the records that existed before the call keep their values |
| Queries.LunarDateToDate | lunar.go:171-211 | a hit in the year's lunar table answers with no file opened; when the year has no tables and its file does not open, the answer is the read error with the heap unchanged; when the year has tables without the date, the next year's tables answer (not-found on a miss) with nothing opened, or, without tables, its file is read and a failed open is the read error; a found record lies in the heap afterwards |
| Queries.LunarDateToDateFinds | lunar.go:171-211 | for a valid date and files whose month lines name real months, the answer is an entry the tables of the year or the next year already held under the date, or a record read by this lookup that carries the date, or the month-start record whose flush gave the date to a record read by this lookup; for a positive year, not-found means that no record read by this lookup, in either file, carries the date |
| Queries.LunarDateToDateOpens | lunar.go:171-211 | nothing is opened exactly when the year's table hits or both years have tables; the year's own file is opened first exactly when it has no tables; the next year's file is opened only when it had no tables |
| Queries.SolarTerms | lunar.go:127-145 | on success both years have tables and every listed entry belongs to one of them |
| Queries.SolarTermsExact | lunar.go:127-145 | on success the listed entries are exactly the qualifying lunar-table entries of the two years: a solar term, the lunar year asked for, and a name among `names` when names are given |
| Queries.LookupFrame | lunar.go:151-165 | a solar lookup leaves earlier records alone and changes only its year's tables |
| Queries.FlushMatchReturnsMonthStart | lunar.go:245-255 | for a day that is pending until the 十二月 line, looking up its lunar date returns the month line's record (solar 2021-01-13, lunar 2020-12-01), after opening the 2020 and then the 2021 file |
| Handler.Result.constructor | lunar.go:328-333 | a new object holds exactly the given record |
| Handler.Handler.constructor | lunar.go:103-107 | a new handler has no tables and no records |
| Handler.Handler.Cache | lunar.go:347-359 | the in-place update of the tables leaves the heap `Store.Cache` computes |
| Handler.Handler.QueryCache | lunar.go:361-375 | the loaded flag and object returned are those of `Store.QueryCache`, and the object is one the handler allocated |
| Handler.Handler.NewResult | lunar.go:328-333 | allocation appends one fresh object holding the record, as `Store.Allocate` |
| Handler.Handler.SetMonth | lunar.go:316 | writing the month into the shared object changes the model record as `Scanner.SetMonth` |
| Handler.Handler.FlushOne | lunar.go:315-318 | one iteration of the flush loop: set the month, then cache |
| Handler.Handler.Flush | lunar.go:309-320 | the flush loop leaves the heap of `Scanner.Flush` on the pending objects' positions |
| Handler.Handler.Enter | lunar.go:338-344 | the new object is appended to the pending list or cached, as `Scanner.EnterRecord` |
| Handler.Handler.ParseLine | lunar.go:268-345 | the heap and outcome are those of `Scanner.ParseLine`; the pending list returned holds only objects of the list received and the new one |
| Handler.PickLine | lunar.go:240-256 | the line's record is picked exactly when it was already the pick, or in solar mode its solar date matches, or in lunar mode its lunar date matches or a just-flushed pending object has the asked lunar date; otherwise the pick is unchanged |
| Handler.Handler.ScanLine | lunar.go:229-258 | one iteration of the loop leaves the scan state of `Scanner.ScanStep` |
| Handler.Handler.Find | lunar.go:213-266 | the heap, the answer and the running month written back are those of `Scanner.Find` |
| Handler.Handler.DateToLunarDate | lunar.go:151-165 | heap, answer and opened files are those of `Queries.DateToLunarDate` |
| Handler.Handler.NextYear | lunar.go:196-210 | heap, answer and opened files are those of `Queries.NextYear` |
| Handler.Handler.LunarDateToDate | lunar.go:171-211 | heap, answer and opened files are those of `Queries.LunarDateToDate` |
| Handler.Handler.NameSet | lunar.go:117-120 | a name is in the set exactly when it is among the names given |
| Handler.Handler.CollectTerms | lunar.go:135-141 | the objects returned are exactly those of the qualifying entries of the year's lunar table, one object per entry |
| Handler.Handler.TermsOfYear | lunar.go:129-142 | the 1 January lookup of the year, then its qualifying entries; a lookup error is returned as is |
| Handler.Handler.GetSolarTerms | lunar.go:113-145 | heap, error and opened files are those of `Queries.SolarTerms`; on success the objects returned are those of the entries of its answer, one object per entry |

## Left out

- Reading files: `loadFileFunc`, the file name `T<year>c.txt`, `Close`, `bufio` and the header
  skip of `prepareReader` (lunar.go:377-389) are not modelled. A year's file is a given list of
  already split lines, or `None` when it cannot be opened.
- A read error in the middle of a file (lunar.go:222-228) or in its header is not modelled. A
  header error is folded into `None`, and a file is never cut short.
- Errors carry no text: a failed open is `IOError`, a line whose solar date fails to parse is
  `FormatError`, and `ErrNotFound` is `NotFound`.
- `strings.Fields`: lines arrive split into fields.
- `time.Parse` is the parameter `parse`; `DateByTime`, `Date.Time`, `Date.String` and `NewDate`
  are time-library conversions and are not modelled.
- The weekday is an integer, not a `time.Weekday`.
- Run-time panics are preconditions (`LineOk`), not modelled failures: a line with fewer than two
  fields, a parsed line with fewer than three, or a lunar field with nothing left once the markers
  are removed.
- Scanner.LineOk: it asks three fields of every non-blank line. A two-field line whose solar date
  fails to parse returns the format error in Go (lunar.go:322-324) before the weekday field is read
  (lunar.go:327); the model does not cover that line.
- The package-level functions and `defaultHandler` only forward to a `Handler` and are not modelled.
- The download commands in the comment at lunar.go:12-15 are not part of the package's behaviour.
- Map iteration order: `Handler.Handler.CollectTerms` visits the keys of the lunar table in an
  order it picks freely. The model states which objects are returned, not their order.
- `Handler.Handler.GetSolarTerms` writes the two-year loop of `getSolarTerms` as two calls of
  `TermsOfYear`, one per year.
- Scanner.ScanStep: its own contract states only that the scan stays well formed; what an
  iteration picks and hands on is stated through `Handler.PickLine` and `Handler.Handler.ScanLine`.
- Scanner.Flush: its own contract states only well-formedness and the record count; what the
  flush does to records and tables is stated by `Scanner.FlushRecords`, `Scanner.FlushTables` and
  `Scanner.FlushLookup`.
- Scanner.Scan: its own contract states only well-formedness and growth; the pick is stated by
  `Scanner.ScanSolarResult` and `Scanner.ScanLunarResult`, the heap by `Scanner.FindFrame`.
- Scanner.Find: in lunar mode the record returned is stated only for a valid date and a file whose
  month lines name a real month. A month field whose numeral reads 0 (such as 初月) decodes to
  month 0; its flush sets month -1 and the flushed records stay pending, so a later flush can
  rewrite a record already returned. That a not-found answer means no record of the scan carries
  the date is stated, in addition, only for a positive lunar year: for a year of 0 or less a
  month-start pick may carry year 0 and be refused as invalid.
- Scanner.FindCaches: a record whose key another record of the same file shares is not stated;
  which of them the table keeps depends on the order of flushes and entries.
- Queries.DateToLunarDate: its own contract does not state what the read enters in the tables;
  `Scanner.FindCaches` and `Queries.DateToLunarDateCaches` do. A date the file does not hold is
  read again on every lookup.
- Queries.NextYear: the lunar-mode record and the not-found case are stated under the same
  conditions as `Scanner.Find`.
- Queries.LunarDateToDateFinds: the same conditions, for both files.
- Scanner.ParseLine: its own contract states only the blank-line, malformed-line and allocation cases; the
  record it builds and where it goes are stated by `Scanner.ParsedLine`, `Scanner.ParseLineRecords`
  and `Scanner.ParseLineTables`.
- Concurrency: a `Handler` is not safe for concurrent use, and the model is sequential.
- `Result` fields other than the lunar date are constants, because the package never assigns
  them after `parseLine` has built the record: the solar term is set before the record is cached
  or made pending.
