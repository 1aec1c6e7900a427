/** One calendar file read line by line: `parseLine` and the `find` loop that drives it.
    A file lists its days in order; a day's lunar month is only known once a line
    announces a month, so days seen before the first such line wait in a pending
    list and receive their month when the announcement arrives. */
module Scanner {
  import opened Dates
  import opened Numerals
  import opened Store

  /** A text line split on white space: solar date, lunar day or month, weekday, optional solar term. */
  type Line = seq<string>

  /** `time.Parse` restricted to what the package uses: layout and text to a date, or a parse error. */
  type TimeParser = (string, string) -> Option<Date>

  /** Lines `parseLine` can index without a run-time panic. */
  predicate LineOk(fields: Line)
  {
    |fields| == 0 || (|fields| >= 3 && Decodable(fields[1]) && |fields[2]| > 0)
  }

  predicate LinesOk(lines: seq<Line>)
  {
    forall i :: 0 <= i < |lines| ==> LineOk(lines[i])
  }

  predicate PendingBelow(pending: seq<Id>, n: nat)
  {
    forall i :: 0 <= i < |pending| ==> pending[i] < n
  }

  function WithMonth(rec: Record, month: int): Record
  {
    rec.(lunarDate := rec.lunarDate.(month := month))
  }

  /** The tables of a file-year, empty when the year has none yet. */
  function TablesOf(cacheMap: map<int, FileCache<Id>>, fileYear: int): FileCache<Id>
  {
    if fileYear in cacheMap then cacheMap[fileYear] else FileCache(map[], map[])
  }

  /** Every entry of `c` either points at one of `entered` or is the entry `prior` had for that key. */
  predicate EnteredOver(c: FileCache<Id>, prior: FileCache<Id>, entered: seq<Id>)
  {
    (forall k :: k in c.dateCache ==>
       c.dateCache[k] in entered || (k in prior.dateCache && c.dateCache[k] == prior.dateCache[k])) &&
    (forall k :: k in c.lunarDateCache ==>
       c.lunarDateCache[k] in entered || (k in prior.lunarDateCache && c.lunarDateCache[k] == prior.lunarDateCache[k]))
  }

  /** The in-place `v.LunarDate.Month = month` on the record `id`. */
  function SetMonth(st: State, id: Id, month: int): (r: State)
    requires WF(st) && id < |st.records|
    ensures WF(r) && r.cacheMap == st.cacheMap && |r.records| == |st.records|
    ensures forall i :: 0 <= i < |st.records| ==>
      r.records[i] == if i == id then WithMonth(st.records[i], month) else st.records[i]
  {
    st.(records := st.records[id := WithMonth(st.records[id], month)])
  }

  /** The flush loop of `parseLine`: each pending record in turn gets `month` and is cached. */
  function Flush(st: State, pending: seq<Id>, month: int, fileYear: int): (r: State)
    requires WF(st) && PendingBelow(pending, |st.records|)
    ensures WF(r) && |r.records| == |st.records|
    decreases |pending|
  {
    if pending == [] then st
    else
      var last := pending[|pending| - 1];
      Cache(SetMonth(Flush(st, pending[..|pending| - 1], month, fileYear), last, month), last, fileYear)
  }

  /** One more iteration of the flush loop. */
  lemma FlushNext(st: State, pending: seq<Id>, j: nat, month: int, fileYear: int)
    requires WF(st) && PendingBelow(pending, |st.records|) && j < |pending|
    ensures PendingBelow(pending[..j], |st.records|) && PendingBelow(pending[..j + 1], |st.records|)
    ensures Flush(st, pending[..j + 1], month, fileYear) ==
      Cache(SetMonth(Flush(st, pending[..j], month, fileYear), pending[j], month), pending[j], fileYear)
  {
    assert pending[..j + 1][..j] == pending[..j];
  }

  /** Flushing rewrites the month of exactly the pending records. */
  lemma {:induction false} FlushRecords(st: State, pending: seq<Id>, month: int, fileYear: int)
    requires WF(st) && PendingBelow(pending, |st.records|)
    ensures var r := Flush(st, pending, month, fileYear);
      forall i :: 0 <= i < |st.records| ==>
        r.records[i] == if i in pending then WithMonth(st.records[i], month) else st.records[i]
  {
    if pending != [] {
      var last := pending[|pending| - 1];
      var prefix := pending[..|pending| - 1];
      FlushRecords(st, prefix, month, fileYear);
      FlushLastRecords(st, pending, month, fileYear);
      var s0 := Flush(st, prefix, month, fileYear);
      var r := Flush(st, pending, month, fileYear);
      forall i | 0 <= i < |st.records|
        ensures r.records[i] == if i in pending then WithMonth(st.records[i], month) else st.records[i]
      {
        InPrefixOrLast(pending, i);
        if i != last {
          assert r.records[i] == s0.records[i];
        }
      }
    }
  }

  lemma InPrefixOrLast(s: seq<Id>, x: Id)
    requires s != []
    ensures x in s <==> x in s[..|s| - 1] || x == s[|s| - 1]
  {
    if x in s && x != s[|s| - 1] {
      var k :| 0 <= k < |s| && s[k] == x;
      assert s[..|s| - 1][k] == x;
    }
  }

  /** The records after a flush are those after flushing all but the last pending record, with
      the last one's month set. */
  lemma FlushLastRecords(st: State, pending: seq<Id>, month: int, fileYear: int)
    requires WF(st) && PendingBelow(pending, |st.records|) && pending != []
    ensures PendingBelow(pending[..|pending| - 1], |st.records|)
    ensures var last := pending[|pending| - 1];
      var s0 := Flush(st, pending[..|pending| - 1], month, fileYear);
      Flush(st, pending, month, fileYear).records == s0.records[last := WithMonth(s0.records[last], month)]
  {
  }

  /** Flushing touches only the tables of `fileYear`, creating them if there is something
      to enter, and every entry it makes points at a pending record. */
  lemma {:induction false} FlushTables(st: State, pending: seq<Id>, month: int, fileYear: int)
    requires WF(st) && PendingBelow(pending, |st.records|)
    ensures var r := Flush(st, pending, month, fileYear);
      r.cacheMap.Keys == st.cacheMap.Keys + (if pending == [] then {} else {fileYear}) &&
      (forall y :: y in st.cacheMap && y != fileYear ==> r.cacheMap[y] == st.cacheMap[y]) &&
      EnteredOver(TablesOf(r.cacheMap, fileYear), TablesOf(st.cacheMap, fileYear), pending)
  {
    if pending != [] {
      var prefix := pending[..|pending| - 1];
      FlushTables(st, prefix, month, fileYear);
      assert forall i :: i in prefix ==> i in pending;
    }
  }

  /** Whether the line's lunar field announces a month while records are pending. */
  predicate Flushes(fields: Line, pending: seq<Id>)
    requires LineOk(fields)
  {
    |fields| > 0 && DecodeLunar(fields[1]).isMonth && |pending| > 0
  }

  /** The running lunar month after the line: the announced month, or the carried one. */
  function NewMonth(fields: Line, lunarMonth: int): int
    requires LineOk(fields) && |fields| > 0
  {
    var n := DecodeLunar(fields[1]);
    if n.isMonth then n.value else lunarMonth
  }

  /** What `parseLine` returns besides the heap: nothing for a blank line, the new record
      and the pending list to carry on with, or the date-format error. */
  datatype LineOutcome<R> = Blank | Parsed(result: R, pending: seq<R>) | Malformed

  datatype LineStep = LineStep(st: State, outcome: LineOutcome<Id>)

  /** Go's `parseLine`. The flush happens before the solar date is parsed, so it survives a
      format error; a record created while the month is unknown is appended to the list the
      call received, even when that list has just been flushed. */
  function ParseLine(st: State, fields: Line, fileYear: int, lunarYear: int, lunarMonth: int,
                     pending: seq<Id>, parse: TimeParser): (r: LineStep)
    requires WF(st) && PendingBelow(pending, |st.records|) && LineOk(fields)
    ensures WF(r.st)
    ensures r.outcome.Blank? <==> |fields| == 0
    ensures r.outcome.Blank? ==> r.st == st
    ensures |r.st.records| == |st.records| + (if r.outcome.Parsed? then 1 else 0)
    ensures r.outcome.Parsed? ==>
      r.outcome.result == |st.records| && PendingBelow(r.outcome.pending, |r.st.records|)
    ensures |fields| > 0 ==> (r.outcome.Malformed? <==> parse(FileDateFormat(fileYear), fields[0]).None?)
  {
    if |fields| == 0 then LineStep(st, Blank)
    else
      var n := DecodeLunar(fields[1]);
      var year := if n.newYear then lunarYear + 1 else lunarYear;
      var month := NewMonth(fields, lunarMonth);
      var day := if n.isMonth then 1 else n.value;
      var flushing := Flushes(fields, pending);
      var st1 := if flushing then Flush(st, pending, PrevMonth(month), fileYear) else st;
      match parse(FileDateFormat(fileYear), fields[0])
      case None => LineStep(st1, Malformed)
      case Some(date) =>
        var rec := Record(date, Date(year, month, day), WeekdayIndex(fields[2]), fields[2],
                          if |fields| > 3 then fields[3] else "");
        EnterRecord(st1, rec, fileYear, pending, if flushing then [] else pending)
  }

  /** The end of `parseLine`: the new record is allocated; while its month is unknown it goes
      to the end of `pending` and into no table, otherwise it is cached and `kept` is handed on. */
  function EnterRecord(st: State, rec: Record, fileYear: int, pending: seq<Id>, kept: seq<Id>): (r: LineStep)
    requires WF(st) && PendingBelow(pending, |st.records|) && PendingBelow(kept, |st.records|)
    ensures WF(r.st) && r.st.records == st.records + [rec]
    ensures r.outcome.Parsed? && r.outcome.result == |st.records| && PendingBelow(r.outcome.pending, |r.st.records|)
    ensures rec.lunarDate.month == 0 ==> r.st.cacheMap == st.cacheMap && r.outcome.pending == pending + [|st.records|]
    ensures var id: Id := |st.records|;
      rec.lunarDate.month != 0 ==>
        r.outcome.pending == kept &&
        QueryCache(r.st.cacheMap, fileYear, rec.date, true) == (true, Some(id)) &&
        QueryCache(r.st.cacheMap, fileYear, rec.lunarDate, false) == (true, Some(id)) &&
        r.st.cacheMap.Keys == st.cacheMap.Keys + {fileYear} &&
        forall y, k, b :: (y != fileYear || k != (if b then rec.date else rec.lunarDate)) ==>
          QueryCache(r.st.cacheMap, y, k, b).1 == QueryCache(st.cacheMap, y, k, b).1
  {
    var id := |st.records|;
    var st2 := Allocate(st, rec);
    if rec.lunarDate.month == 0 then LineStep(st2, Parsed(id, pending + [id]))
    else LineStep(Cache(st2, id, fileYear), Parsed(id, kept))
  }

  /** The heap and outcome of a line whose solar date parses: the flush, if any, then the
      new record entered. */
  lemma ParseLineSteps(st: State, fields: Line, fileYear: int, lunarYear: int, lunarMonth: int,
                       pending: seq<Id>, parse: TimeParser, date: Date) returns (st1: State, rec: Record)
    requires WF(st) && PendingBelow(pending, |st.records|) && LineOk(fields) && |fields| > 0
    requires parse(FileDateFormat(fileYear), fields[0]) == Some(date)
    ensures WF(st1) && PendingBelow(pending, |st1.records|)
    ensures st1 == if Flushes(fields, pending) then Flush(st, pending, PrevMonth(NewMonth(fields, lunarMonth)), fileYear) else st
    ensures var n := DecodeLunar(fields[1]);
      rec == Record(date, Date(if n.newYear then lunarYear + 1 else lunarYear, NewMonth(fields, lunarMonth),
                               if n.isMonth then 1 else n.value),
                    WeekdayIndex(fields[2]), fields[2], if |fields| > 3 then fields[3] else "")
    ensures ParseLine(st, fields, fileYear, lunarYear, lunarMonth, pending, parse) ==
      EnterRecord(st1, rec, fileYear, pending, if Flushes(fields, pending) then [] else pending)
  {
    var n := DecodeLunar(fields[1]);
    st1 := if Flushes(fields, pending) then Flush(st, pending, PrevMonth(NewMonth(fields, lunarMonth)), fileYear) else st;
    rec := Record(date, Date(if n.newYear then lunarYear + 1 else lunarYear, NewMonth(fields, lunarMonth),
                             if n.isMonth then 1 else n.value),
                  WeekdayIndex(fields[2]), fields[2], if |fields| > 3 then fields[3] else "");
  }

  /** Caching a record changes only the tables of its file-year, by entering that record. */
  lemma CacheTables(st: State, id: Id, fileYear: int)
    requires WF(st) && id < |st.records|
    ensures var r := Cache(st, id, fileYear);
      (forall y :: y in st.cacheMap && y != fileYear ==> r.cacheMap[y] == st.cacheMap[y]) &&
      EnteredOver(TablesOf(r.cacheMap, fileYear), TablesOf(st.cacheMap, fileYear), [id])
  {
  }

  lemma EnteredOverChain(c0: FileCache<Id>, c1: FileCache<Id>, c2: FileCache<Id>, e1: seq<Id>, e2: seq<Id>)
    requires EnteredOver(c1, c0, e1) && EnteredOver(c2, c1, e2)
    ensures EnteredOver(c2, c0, e1 + e2)
  {
  }

  /** The record a parsed line creates carries the running month, and the pending list it
      hands on holds only earlier pending records and that new record. Earlier records change
      only by the flush, which gives every pending record the month before the new one. */
  lemma ParseLineRecords(st: State, fields: Line, fileYear: int, lunarYear: int, lunarMonth: int,
                         pending: seq<Id>, parse: TimeParser)
    requires WF(st) && PendingBelow(pending, |st.records|) && LineOk(fields)
    ensures var r := ParseLine(st, fields, fileYear, lunarYear, lunarMonth, pending, parse);
      (r.outcome.Parsed? ==>
         r.st.records[|st.records|].lunarDate.month == NewMonth(fields, lunarMonth) &&
         (forall p :: p in r.outcome.pending ==> p in pending || p == |st.records|)) &&
      (forall i :: 0 <= i < |st.records| ==>
         r.st.records[i] == if Flushes(fields, pending) && i in pending
                            then WithMonth(st.records[i], PrevMonth(NewMonth(fields, lunarMonth)))
                            else st.records[i])
  {
    if Flushes(fields, pending) {
      FlushRecords(st, pending, PrevMonth(NewMonth(fields, lunarMonth)), fileYear);
    }
  }

  /** A line changes only the tables of its own file-year. They exist afterwards whenever
      something was entered, and each new entry is a flushed record or, when the month is
      known, the line's own record. */
  lemma ParseLineTables(st: State, fields: Line, fileYear: int, lunarYear: int, lunarMonth: int,
                        pending: seq<Id>, parse: TimeParser)
    requires WF(st) && PendingBelow(pending, |st.records|) && LineOk(fields)
    ensures var r := ParseLine(st, fields, fileYear, lunarYear, lunarMonth, pending, parse);
      st.cacheMap.Keys <= r.st.cacheMap.Keys <= st.cacheMap.Keys + {fileYear} &&
      (forall y :: y in st.cacheMap && y != fileYear ==> r.st.cacheMap[y] == st.cacheMap[y]) &&
      ((Flushes(fields, pending) || (r.outcome.Parsed? && NewMonth(fields, lunarMonth) != 0)) ==>
         fileYear in r.st.cacheMap) &&
      EnteredOver(TablesOf(r.st.cacheMap, fileYear), TablesOf(st.cacheMap, fileYear),
        (if Flushes(fields, pending) then pending else []) +
        (if r.outcome.Parsed? && NewMonth(fields, lunarMonth) != 0 then [|st.records|] else []))
  {
    if |fields| > 0 {
      var flushing := Flushes(fields, pending);
      if flushing {
        FlushTables(st, pending, PrevMonth(NewMonth(fields, lunarMonth)), fileYear);
      }
      var st1 := if flushing then Flush(st, pending, PrevMonth(NewMonth(fields, lunarMonth)), fileYear) else st;
      var flushed := if flushing then pending else [];
      assert EnteredOver(TablesOf(st1.cacheMap, fileYear), TablesOf(st.cacheMap, fileYear), flushed);
      var parsed := parse(FileDateFormat(fileYear), fields[0]);
      if parsed.Some? {
        var st1', rec := ParseLineSteps(st, fields, fileYear, lunarYear, lunarMonth, pending, parse, parsed.value);
        var st2 := Allocate(st1, rec);
        var own: seq<Id> := [];
        if rec.lunarDate.month != 0 {
          CacheTables(st2, |st1.records|, fileYear);
          own := [|st1.records|];
        }
        EnteredOverChain(TablesOf(st.cacheMap, fileYear), TablesOf(st1.cacheMap, fileYear),
                         TablesOf(EnterRecord(st1, rec, fileYear, pending, if flushing then [] else pending).st.cacheMap, fileYear),
                         flushed, own);
      }
    }
  }

  /** The variables of the `find` loop: the heap, the running lunar year and month, the
      record picked so far, the pending list, and whether a line failed to parse. */
  datatype ScanState = ScanState(st: State, lunarYear: int, lunarMonth: int, result: Option<Id>,
                                 pending: seq<Id>, failed: bool)

  predicate ScanOk(s: ScanState)
  {
    WF(s.st) && PendingBelow(s.pending, |s.st.records|) &&
    (s.result.Some? ==> s.result.value < |s.st.records|)
  }

  /** Whether some record of the flushed list now carries the lunar date `d`. */
  predicate FlushHit(st: State, pending: seq<Id>, d: Date)
    requires PendingBelow(pending, |st.records|)
  {
    exists i :: 0 <= i < |pending| && st.records[pending[i]].lunarDate == d
  }

  /** One iteration of the `find` loop. In lunar mode a match among flushed records picks
      the current line's record, not the matching one. */
  function ScanStep(s: ScanState, fields: Line, d: Date, byDate: bool, fileYear: int, parse: TimeParser): (r: ScanState)
    requires ScanOk(s) && LineOk(fields)
    ensures ScanOk(r) && |r.st.records| >= |s.st.records|
  {
    if s.failed then s
    else
      var step := ParseLine(s.st, fields, fileYear, s.lunarYear, s.lunarMonth, s.pending, parse);
      match step.outcome
      case Blank => s
      case Malformed => s.(st := step.st, failed := true)
      case Parsed(id, pending') =>
        var rec := step.st.records[id];
        var hit := if byDate then rec.date == d
                   else rec.lunarDate == d ||
                        (|s.pending| > 0 && |pending'| == 0 && FlushHit(step.st, s.pending, d));
        ScanState(step.st, rec.lunarDate.year, rec.lunarDate.month,
                  if hit then Some(id) else s.result, pending', false)
  }

  /** The `find` loop over the first |lines| lines. */
  function Scan(init: ScanState, lines: seq<Line>, d: Date, byDate: bool, fileYear: int, parse: TimeParser): (r: ScanState)
    requires ScanOk(init) && LinesOk(lines)
    ensures ScanOk(r) && |r.st.records| >= |init.st.records|
    decreases |lines|
  {
    if lines == [] then init
    else
      var before := Scan(init, lines[..|lines| - 1], d, byDate, fileYear, parse);
      ScanStep(before, lines[|lines| - 1], d, byDate, fileYear, parse)
  }

  /** One more iteration of the `find` loop. */
  lemma ScanNext(init: ScanState, lines: seq<Line>, i: nat, d: Date, byDate: bool, fileYear: int, parse: TimeParser)
    requires ScanOk(init) && LinesOk(lines) && i < |lines|
    ensures LinesOk(lines[..i]) && LinesOk(lines[..i + 1]) && ScanOk(Scan(init, lines[..i], d, byDate, fileYear, parse))
    ensures Scan(init, lines[..i + 1], d, byDate, fileYear, parse) ==
      ScanStep(Scan(init, lines[..i], d, byDate, fileYear, parse), lines[i], d, byDate, fileYear, parse)
  {
    assert lines[..i + 1][..i] == lines[..i];
  }

  /** The result `find` returns, the heap it leaves and the running month it writes back. */
  datatype FindResult = FindResult(st: State, outcome: Outcome<Id>, lunarMonth: int)

  function StartScan(st: State, lunarYear: int, lunarMonth: int): ScanState
  {
    ScanState(st, lunarYear, lunarMonth, None, [], false)
  }

  /** Go's `find` over a file's lines (header removed). */
  function Find(st: State, lines: seq<Line>, d: Date, byDate: bool, fileYear: int,
                lunarYear: int, lunarMonth: int, parse: TimeParser): (r: FindResult)
    requires WF(st) && LinesOk(lines)
    ensures WF(r.st) && |r.st.records| >= |st.records|
    ensures r.outcome.Ok? ==>
      |st.records| <= r.outcome.value < |r.st.records| &&
      r.st.records[r.outcome.value].lunarDate.Valid() && fileYear in r.st.cacheMap
    ensures byDate && r.outcome.Ok? ==> r.st.records[r.outcome.value].date == d
    ensures !byDate && d.Valid() && MonthsKnown(lines) && r.outcome.Ok? ==>
      LunarMatch(r.st.records, |st.records|, r.outcome.value, d)
    ensures !byDate && d.Valid() && d.year > 0 && MonthsKnown(lines) && r.outcome == Err(NotFound) ==>
      forall j :: |st.records| <= j < |r.st.records| ==> r.st.records[j].lunarDate != d
  {
    var init := StartScan(st, lunarYear, lunarMonth);
    var s := Scan(init, lines, d, byDate, fileYear, parse);
    ScanExtends(init, lines, d, byDate, fileYear, parse);
    SolarPick(init, lines, d, byDate, fileYear, parse);
    LunarPick(init, lines, d, byDate, fileYear, parse);
    var outcome :=
      if s.failed then Err(FormatError)
      else if s.result.None? || !s.st.records[s.result.value].lunarDate.Valid() then Err(NotFound)
      else Ok(s.result.value);
    FindResult(s.st, outcome, s.lunarMonth)
  }

  /** `find`'s answer read off the state its loop ends in. */
  lemma FindFromScan(st: State, lines: seq<Line>, d: Date, byDate: bool, fileYear: int,
                     lunarYear: int, lunarMonth: int, parse: TimeParser)
    requires WF(st) && LinesOk(lines)
    ensures var s := Scan(StartScan(st, lunarYear, lunarMonth), lines, d, byDate, fileYear, parse);
      Find(st, lines, d, byDate, fileYear, lunarYear, lunarMonth, parse) ==
        FindResult(s.st, if s.failed then Err(FormatError)
                         else if s.result.None? || !s.st.records[s.result.value].lunarDate.Valid() then Err(NotFound)
                         else Ok(s.result.value), s.lunarMonth)
  {
  }

  // ---------------------------------------------------------------------
  // What a scan does to the heap
  // ---------------------------------------------------------------------

  /** The scan only adds records and entries: records older than the scan keep their values,
      the pending list and the pick are new records, only the scanned year's tables change, and
      while that year has no tables every new record still has month 0. */
  ghost predicate Extends(init: ScanState, s: ScanState, fileYear: int)
    requires ScanOk(init) && ScanOk(s)
  {
    var base := |init.st.records|;
    base <= |s.st.records| &&
    (forall i :: 0 <= i < base ==> s.st.records[i] == init.st.records[i]) &&
    (forall i :: 0 <= i < |s.pending| ==> s.pending[i] >= base) &&
    (s.result.Some? ==> s.result.value >= base) &&
    init.st.cacheMap.Keys <= s.st.cacheMap.Keys <= init.st.cacheMap.Keys + {fileYear} &&
    (forall y :: y in init.st.cacheMap && y != fileYear ==> s.st.cacheMap[y] == init.st.cacheMap[y]) &&
    (fileYear !in s.st.cacheMap ==>
       forall i :: base <= i < |s.st.records| ==> s.st.records[i].lunarDate.month == 0)
  }

  lemma {:induction false} ScanExtends(init: ScanState, lines: seq<Line>, d: Date, byDate: bool, fileYear: int, parse: TimeParser)
    requires ScanOk(init) && LinesOk(lines) && init.pending == [] && init.result == None
    ensures Extends(init, Scan(init, lines, d, byDate, fileYear, parse), fileYear)
  {
    if lines != [] {
      var prefix := lines[..|lines| - 1];
      ScanExtends(init, prefix, d, byDate, fileYear, parse);
      ExtendsStep(init, Scan(init, prefix, d, byDate, fileYear, parse), lines[|lines| - 1], d, byDate, fileYear, parse);
    }
  }

  /** One more line keeps the scan an extension of its start. */
  lemma ExtendsStep(init: ScanState, s: ScanState, fields: Line, d: Date, byDate: bool, fileYear: int, parse: TimeParser)
    requires ScanOk(init) && ScanOk(s) && LineOk(fields) && Extends(init, s, fileYear)
    ensures Extends(init, ScanStep(s, fields, d, byDate, fileYear, parse), fileYear)
  {
    if !s.failed {
      var step := ParseLine(s.st, fields, fileYear, s.lunarYear, s.lunarMonth, s.pending, parse);
      ParseLineRecords(s.st, fields, fileYear, s.lunarYear, s.lunarMonth, s.pending, parse);
      ParseLineTables(s.st, fields, fileYear, s.lunarYear, s.lunarMonth, s.pending, parse);
      var base := |init.st.records|;
      forall i | 0 <= i < base
        ensures step.st.records[i] == init.st.records[i]
      {
        assert i !in s.pending;
      }
    }
  }

  /** The pick is the last record from index `base` on whose solar date is `d`. */
  ghost predicate LastWithDate(s: ScanState, base: nat, d: Date)
    requires ScanOk(s)
  {
    (s.result.Some? ==>
       base <= s.result.value && s.st.records[s.result.value].date == d &&
       forall j :: s.result.value < j < |s.st.records| ==> s.st.records[j].date != d) &&
    (s.result.None? ==> forall j :: base <= j < |s.st.records| ==> s.st.records[j].date != d)
  }

  lemma SolarStep(s: ScanState, fields: Line, base: nat, d: Date, fileYear: int, parse: TimeParser)
    requires ScanOk(s) && LineOk(fields) && base <= |s.st.records| && LastWithDate(s, base, d)
    ensures LastWithDate(ScanStep(s, fields, d, true, fileYear, parse), base, d)
  {
    if !s.failed {
      var step := ParseLine(s.st, fields, fileYear, s.lunarYear, s.lunarMonth, s.pending, parse);
      ParseLineRecords(s.st, fields, fileYear, s.lunarYear, s.lunarMonth, s.pending, parse);
      assert forall j :: 0 <= j < |s.st.records| ==> step.st.records[j].date == s.st.records[j].date;
    }
  }

  /** In solar mode the pick is the last record of the scan whose solar date is `d`. */
  lemma {:induction false} ScanSolarResult(init: ScanState, lines: seq<Line>, d: Date, fileYear: int, parse: TimeParser)
    requires ScanOk(init) && LinesOk(lines) && init.result == None
    ensures LastWithDate(Scan(init, lines, d, true, fileYear, parse), |init.st.records|, d)
  {
    if lines != [] {
      var prefix := lines[..|lines| - 1];
      ScanSolarResult(init, prefix, d, fileYear, parse);
      SolarStep(Scan(init, prefix, d, true, fileYear, parse), lines[|lines| - 1], |init.st.records|, d, fileYear, parse);
    }
  }

  lemma SolarPick(init: ScanState, lines: seq<Line>, d: Date, byDate: bool, fileYear: int, parse: TimeParser)
    requires ScanOk(init) && LinesOk(lines) && init.result == None
    ensures var s := Scan(init, lines, d, byDate, fileYear, parse);
      byDate && s.result.Some? ==> s.st.records[s.result.value].date == d
  {
    if byDate {
      ScanSolarResult(init, lines, d, fileYear, parse);
    }
  }

  /** A month line of the file names a real month: the numeral before the month marker does
      not read 0, as it does in 初月. */
  predicate MonthKnown(fields: Line)
    requires LineOk(fields)
  {
    |fields| > 0 && DecodeLunar(fields[1]).isMonth ==> DecodeLunar(fields[1]).value != 0
  }

  predicate MonthsKnown(lines: seq<Line>)
    requires LinesOk(lines)
  {
    forall i :: 0 <= i < |lines| ==> MonthKnown(lines[i])
  }

  /** What a lunar lookup may answer with: a record from `base` on carrying `d`, or the record
      of a month line (day 1 of a known month, in the lunar year of `d` or later) preceded, from
      `base` on, by a record that the line's flush gave the date `d`. */
  predicate LunarMatch(records: seq<Record>, base: nat, id: nat, d: Date)
    requires id < |records|
  {
    records[id].lunarDate == d ||
    (records[id].lunarDate.day == 1 && records[id].lunarDate.month != 0 && records[id].lunarDate.year >= d.year &&
     exists j :: base <= j < id && records[j].lunarDate == d)
  }

  /** The lunar-mode loop so far: pending records are new and, until a failure, still have
      month 0 and a lunar year no later than the running one; the pick is a match in the sense
      of `LunarMatch`; and until a failure, nothing is picked only while no record of the scan
      carries `d`. */
  ghost predicate LunarPicked(s: ScanState, base: nat, d: Date)
    requires ScanOk(s)
  {
    (forall i :: 0 <= i < |s.pending| ==> base <= s.pending[i]) &&
    (!s.failed ==> forall i :: 0 <= i < |s.pending| ==>
       s.st.records[s.pending[i]].lunarDate.month == 0 && s.st.records[s.pending[i]].lunarDate.year <= s.lunarYear) &&
    (s.result.Some? ==> base <= s.result.value && LunarMatch(s.st.records, base, s.result.value, d)) &&
    (!s.failed && s.result.None? ==> forall j :: base <= j < |s.st.records| ==> s.st.records[j].lunarDate != d)
  }

  /** A line changes no record whose month is known, when every pending record has month 0. */
  lemma KnownMonthsStay(st: State, fields: Line, fileYear: int, lunarYear: int, lunarMonth: int,
                        pending: seq<Id>, parse: TimeParser)
    requires WF(st) && PendingBelow(pending, |st.records|) && LineOk(fields)
    requires forall i :: 0 <= i < |pending| ==> st.records[pending[i]].lunarDate.month == 0
    ensures var r := ParseLine(st, fields, fileYear, lunarYear, lunarMonth, pending, parse);
      forall i :: 0 <= i < |st.records| && st.records[i].lunarDate.month != 0 ==> r.st.records[i] == st.records[i]
    ensures var r := ParseLine(st, fields, fileYear, lunarYear, lunarMonth, pending, parse);
      forall i :: 0 <= i < |st.records| ==> r.st.records[i].lunarDate.year == st.records[i].lunarDate.year
  {
    ParseLineRecords(st, fields, fileYear, lunarYear, lunarMonth, pending, parse);
    forall i | 0 <= i < |st.records| && i in pending
      ensures st.records[i].lunarDate.month == 0
    {
      var k :| 0 <= k < |pending| && pending[k] == i;
    }
  }

  lemma LunarStep(s: ScanState, fields: Line, base: nat, d: Date, fileYear: int, parse: TimeParser)
    requires ScanOk(s) && LineOk(fields) && MonthKnown(fields) && d.Valid()
    requires base <= |s.st.records| && LunarPicked(s, base, d)
    ensures LunarPicked(ScanStep(s, fields, d, false, fileYear, parse), base, d)
  {
    if !s.failed && |fields| > 0 {
      var step := ParseLine(s.st, fields, fileYear, s.lunarYear, s.lunarMonth, s.pending, parse);
      KnownMonthsStay(s.st, fields, fileYear, s.lunarYear, s.lunarMonth, s.pending, parse);
      LunarMatchStays(s.st.records, step.st.records, base, s.result, d);
      if step.outcome.Parsed? {
        LunarParsed(s, fields, base, d, fileYear, parse);
      }
    }
  }

  /** A pick survives a step that changes no record whose month is known. */
  lemma LunarMatchStays(records: seq<Record>, records': seq<Record>, base: nat, result: Option<Id>, d: Date)
    requires d.Valid() && |records| <= |records'|
    requires forall i :: 0 <= i < |records| && records[i].lunarDate.month != 0 ==> records'[i] == records[i]
    requires result.Some? ==> base <= result.value < |records| && LunarMatch(records, base, result.value, d)
    ensures result.Some? ==> LunarMatch(records', base, result.value, d)
  {
    if result.Some? && records[result.value].lunarDate != d {
      var j :| base <= j < result.value && records[j].lunarDate == d;
      assert records'[j] == records[j];
    }
  }

  /** A line that parses keeps the lunar-mode loop invariant. */
  lemma LunarParsed(s: ScanState, fields: Line, base: nat, d: Date, fileYear: int, parse: TimeParser)
    requires ScanOk(s) && LineOk(fields) && MonthKnown(fields) && d.Valid() && !s.failed && |fields| > 0
    requires base <= |s.st.records| && LunarPicked(s, base, d)
    requires ParseLine(s.st, fields, fileYear, s.lunarYear, s.lunarMonth, s.pending, parse).outcome.Parsed?
    requires var step := ParseLine(s.st, fields, fileYear, s.lunarYear, s.lunarMonth, s.pending, parse);
      forall i :: 0 <= i < |s.st.records| && s.st.records[i].lunarDate.month != 0 ==> step.st.records[i] == s.st.records[i]
    ensures LunarPicked(ScanStep(s, fields, d, false, fileYear, parse), base, d)
  {
    ParseLineRecords(s.st, fields, fileYear, s.lunarYear, s.lunarMonth, s.pending, parse);
    ParsedLine(s.st, fields, fileYear, s.lunarYear, s.lunarMonth, s.pending, parse);
    LunarFlushPick(s, fields, base, d, fileYear, parse);
    if s.result.None? {
      LunarNoneKept(s, fields, base, d, fileYear, parse);
    }
  }

  /** Nothing is picked after a parsed line only if no record, old, flushed or new, carries `d`. */
  lemma LunarNoneKept(s: ScanState, fields: Line, base: nat, d: Date, fileYear: int, parse: TimeParser)
    requires ScanOk(s) && LineOk(fields) && MonthKnown(fields) && !s.failed && |fields| > 0
    requires base <= |s.st.records| && LunarPicked(s, base, d) && s.result.None?
    requires parse(FileDateFormat(fileYear), fields[0]).Some?
    ensures var r := ScanStep(s, fields, d, false, fileYear, parse);
      r.result.None? ==> forall j :: base <= j < |r.st.records| ==> r.st.records[j].lunarDate != d
  {
    var step := ParseLine(s.st, fields, fileYear, s.lunarYear, s.lunarMonth, s.pending, parse);
    var r := ScanStep(s, fields, d, false, fileYear, parse);
    ParseLineRecords(s.st, fields, fileYear, s.lunarYear, s.lunarMonth, s.pending, parse);
    ParsedLine(s.st, fields, fileYear, s.lunarYear, s.lunarMonth, s.pending, parse);
    if r.result.None? {
      forall j | base <= j < |s.st.records| && Flushes(fields, s.pending) && j in s.pending
        ensures step.st.records[j].lunarDate != d
      {
        var k :| 0 <= k < |s.pending| && s.pending[k] == j;
        assert step.outcome.pending == [];
      }
    }
  }

  /** A match among the flushed records picks a month start preceded by the match. */
  lemma LunarFlushPick(s: ScanState, fields: Line, base: nat, d: Date, fileYear: int, parse: TimeParser)
    requires ScanOk(s) && LineOk(fields) && MonthKnown(fields) && !s.failed && |fields| > 0
    requires forall i :: 0 <= i < |s.pending| ==> base <= s.pending[i]
    requires forall i :: 0 <= i < |s.pending| ==> s.st.records[s.pending[i]].lunarDate.year <= s.lunarYear
    requires parse(FileDateFormat(fileYear), fields[0]).Some?
    ensures var step := ParseLine(s.st, fields, fileYear, s.lunarYear, s.lunarMonth, s.pending, parse);
      step.outcome.Parsed? &&
      (|s.pending| > 0 && |step.outcome.pending| == 0 && FlushHit(step.st, s.pending, d) ==>
         LunarMatch(step.st.records, base, step.outcome.result, d))
  {
    var step := ParseLine(s.st, fields, fileYear, s.lunarYear, s.lunarMonth, s.pending, parse);
    ParsedLine(s.st, fields, fileYear, s.lunarYear, s.lunarMonth, s.pending, parse);
    ParseLineRecords(s.st, fields, fileYear, s.lunarYear, s.lunarMonth, s.pending, parse);
    if |s.pending| > 0 && |step.outcome.pending| == 0 && FlushHit(step.st, s.pending, d) {
      var k :| 0 <= k < |s.pending| && step.st.records[s.pending[k]].lunarDate == d;
      assert Flushes(fields, s.pending);
      assert base <= s.pending[k] < step.outcome.result;
    }
  }

  /** In lunar mode the pick is a `LunarMatch` among the records of the scan. */
  lemma {:induction false} ScanLunarResult(init: ScanState, lines: seq<Line>, d: Date, fileYear: int, parse: TimeParser)
    requires ScanOk(init) && LinesOk(lines) && MonthsKnown(lines) && d.Valid()
    requires init.result == None && init.pending == []
    ensures LunarPicked(Scan(init, lines, d, false, fileYear, parse), |init.st.records|, d)
  {
    if lines != [] {
      var prefix := lines[..|lines| - 1];
      assert forall i :: 0 <= i < |prefix| ==> prefix[i] == lines[i];
      ScanLunarResult(init, prefix, d, fileYear, parse);
      LunarStep(Scan(init, prefix, d, false, fileYear, parse), lines[|lines| - 1], |init.st.records|, d, fileYear, parse);
    }
  }

  lemma LunarPick(init: ScanState, lines: seq<Line>, d: Date, byDate: bool, fileYear: int, parse: TimeParser)
    requires ScanOk(init) && LinesOk(lines) && init.result == None && init.pending == []
    ensures var s := Scan(init, lines, d, byDate, fileYear, parse);
      !byDate && d.Valid() && MonthsKnown(lines) ==>
        (s.result.Some? ==> LunarMatch(s.st.records, |init.st.records|, s.result.value, d)) &&
        (!s.failed && s.result.None? ==> forall j :: |init.st.records| <= j < |s.st.records| ==> s.st.records[j].lunarDate != d)
  {
    if !byDate && d.Valid() && MonthsKnown(lines) {
      ScanLunarResult(init, lines, d, fileYear, parse);
    }
  }

  /** `find` leaves earlier records alone and changes only the tables of its file-year. */
  lemma FindFrame(st: State, lines: seq<Line>, d: Date, byDate: bool, fileYear: int,
                  lunarYear: int, lunarMonth: int, parse: TimeParser)
    requires WF(st) && LinesOk(lines)
    ensures var r := Find(st, lines, d, byDate, fileYear, lunarYear, lunarMonth, parse);
      |st.records| <= |r.st.records| &&
      (forall i :: 0 <= i < |st.records| ==> r.st.records[i] == st.records[i]) &&
      st.cacheMap.Keys <= r.st.cacheMap.Keys <= st.cacheMap.Keys + {fileYear} &&
      (forall y :: y in st.cacheMap && y != fileYear ==> r.st.cacheMap[y] == st.cacheMap[y])
  {
    ScanExtends(StartScan(st, lunarYear, lunarMonth), lines, d, byDate, fileYear, parse);
  }

  /** Once a line has failed to parse, later lines change nothing: `find` has returned. */
  lemma {:induction false} ScanAfterFailure(init: ScanState, lines: seq<Line>, k: nat, d: Date, byDate: bool,
                                            fileYear: int, parse: TimeParser)
    requires ScanOk(init) && LinesOk(lines) && k <= |lines|
    requires Scan(init, lines[..k], d, byDate, fileYear, parse).failed
    ensures Scan(init, lines, d, byDate, fileYear, parse) == Scan(init, lines[..k], d, byDate, fileYear, parse)
    decreases |lines| - k
  {
    if k < |lines| {
      var prefix := lines[..|lines| - 1];
      assert prefix[..k] == lines[..k];
      ScanAfterFailure(init, prefix, k, d, byDate, fileYear, parse);
    } else {
      assert lines[..k] == lines;
    }
  }

  // ---------------------------------------------------------------------
  // No record is cached while its month is unknown
  // ---------------------------------------------------------------------

  /** Every record a table points at has a known (non-zero) lunar month. */
  ghost predicate Resolved(st: State)
    requires WF(st)
  {
    (forall y, k :: y in st.cacheMap && k in st.cacheMap[y].dateCache ==>
       st.records[st.cacheMap[y].dateCache[k]].lunarDate.month != 0) &&
    (forall y, k :: y in st.cacheMap && k in st.cacheMap[y].lunarDateCache ==>
       st.records[st.cacheMap[y].lunarDateCache[k]].lunarDate.month != 0)
  }

  /** A step that keeps known months known, changes only one year's tables, and enters only
      records whose month is known, keeps every table free of unknown months. */
  lemma ResolvedAfter(st: State, r: State, fileYear: int, entered: seq<Id>)
    requires WF(st) && WF(r) && Resolved(st) && |st.records| <= |r.records|
    requires forall i :: 0 <= i < |st.records| && st.records[i].lunarDate.month != 0 ==>
      r.records[i].lunarDate.month != 0
    requires forall i :: 0 <= i < |entered| ==> entered[i] < |r.records| && r.records[entered[i]].lunarDate.month != 0
    requires st.cacheMap.Keys <= r.cacheMap.Keys <= st.cacheMap.Keys + {fileYear}
    requires forall y :: y in st.cacheMap && y != fileYear ==> r.cacheMap[y] == st.cacheMap[y]
    requires EnteredOver(TablesOf(r.cacheMap, fileYear), TablesOf(st.cacheMap, fileYear), entered)
    ensures Resolved(r)
  {
    forall y, k | y in r.cacheMap && k in r.cacheMap[y].dateCache
      ensures r.records[r.cacheMap[y].dateCache[k]].lunarDate.month != 0
    {
      if y == fileYear {
        assert TablesOf(r.cacheMap, fileYear) == r.cacheMap[y];
      }
    }
    forall y, k | y in r.cacheMap && k in r.cacheMap[y].lunarDateCache
      ensures r.records[r.cacheMap[y].lunarDateCache[k]].lunarDate.month != 0
    {
      if y == fileYear {
        assert TablesOf(r.cacheMap, fileYear) == r.cacheMap[y];
      }
    }
  }

  /** The records a line enters in its tables: the flushed ones, then its own when its month is known. */
  function EnteredBy(st: State, fields: Line, lunarMonth: int, pending: seq<Id>, outcome: LineOutcome<Id>): seq<Id>
    requires LineOk(fields)
  {
    (if Flushes(fields, pending) then pending else []) +
    (if outcome.Parsed? && |fields| > 0 && NewMonth(fields, lunarMonth) != 0 then [|st.records|] else [])
  }

  /** Every record a line enters has a known month, and no known month is lost. */
  lemma ParseLineMonths(st: State, fields: Line, fileYear: int, lunarYear: int, lunarMonth: int,
                        pending: seq<Id>, parse: TimeParser)
    requires WF(st) && PendingBelow(pending, |st.records|) && LineOk(fields)
    ensures var r := ParseLine(st, fields, fileYear, lunarYear, lunarMonth, pending, parse);
      var entered := EnteredBy(st, fields, lunarMonth, pending, r.outcome);
      (forall i :: 0 <= i < |entered| ==> entered[i] < |r.st.records| && r.st.records[entered[i]].lunarDate.month != 0) &&
      (forall i :: 0 <= i < |st.records| && st.records[i].lunarDate.month != 0 ==> r.st.records[i].lunarDate.month != 0)
  {
    var r := ParseLine(st, fields, fileYear, lunarYear, lunarMonth, pending, parse);
    ParseLineRecords(st, fields, fileYear, lunarYear, lunarMonth, pending, parse);
    var flushed := if Flushes(fields, pending) then pending else [];
    var entered := EnteredBy(st, fields, lunarMonth, pending, r.outcome);
    forall i | 0 <= i < |entered|
      ensures entered[i] < |r.st.records| && r.st.records[entered[i]].lunarDate.month != 0
    {
      if i < |flushed| {
        assert entered[i] in pending;
      }
    }
  }

  lemma ParseLineKeepsResolved(st: State, fields: Line, fileYear: int, lunarYear: int, lunarMonth: int,
                               pending: seq<Id>, parse: TimeParser)
    requires WF(st) && PendingBelow(pending, |st.records|) && LineOk(fields) && Resolved(st)
    ensures Resolved(ParseLine(st, fields, fileYear, lunarYear, lunarMonth, pending, parse).st)
  {
    var r := ParseLine(st, fields, fileYear, lunarYear, lunarMonth, pending, parse);
    ParseLineMonths(st, fields, fileYear, lunarYear, lunarMonth, pending, parse);
    ParseLineTables(st, fields, fileYear, lunarYear, lunarMonth, pending, parse);
    ResolvedAfter(st, r.st, fileYear, EnteredBy(st, fields, lunarMonth, pending, r.outcome));
  }

  lemma {:induction false} ScanKeepsResolved(init: ScanState, lines: seq<Line>, d: Date, byDate: bool,
                                             fileYear: int, parse: TimeParser)
    requires ScanOk(init) && LinesOk(lines) && Resolved(init.st)
    ensures Resolved(Scan(init, lines, d, byDate, fileYear, parse).st)
  {
    if lines != [] {
      var prefix := lines[..|lines| - 1];
      var s := Scan(init, prefix, d, byDate, fileYear, parse);
      ScanKeepsResolved(init, prefix, d, byDate, fileYear, parse);
      if !s.failed {
        ParseLineKeepsResolved(s.st, lines[|lines| - 1], fileYear, s.lunarYear, s.lunarMonth, s.pending, parse);
      }
    }
  }

  /** A scan never caches a record whose month is 0: no table points at one afterwards if
      none did before. */
  lemma FindKeepsResolved(st: State, lines: seq<Line>, d: Date, byDate: bool, fileYear: int,
                          lunarYear: int, lunarMonth: int, parse: TimeParser)
    requires WF(st) && LinesOk(lines) && Resolved(st)
    ensures var r := Find(st, lines, d, byDate, fileYear, lunarYear, lunarMonth, parse);
      Resolved(r.st)
  {
    ScanKeepsResolved(StartScan(st, lunarYear, lunarMonth), lines, d, byDate, fileYear, parse);
  }

  // ---------------------------------------------------------------------
  // One line
  // ---------------------------------------------------------------------

  /** A parsed line: a month field starts that month on day 1, a day field keeps the running
      month; the first-month character moves the lunar year on by exactly one. A record whose
      month is known is entered in both tables at once and the pending list is emptied if it
      was flushed; a record whose month is unknown goes to the end of the list the call
      received and into no table. */
  lemma ParsedLine(st: State, fields: Line, fileYear: int, lunarYear: int, lunarMonth: int,
                   pending: seq<Id>, parse: TimeParser)
    requires WF(st) && PendingBelow(pending, |st.records|) && LineOk(fields) && |fields| > 0
    requires parse(FileDateFormat(fileYear), fields[0]).Some?
    ensures var r := ParseLine(st, fields, fileYear, lunarYear, lunarMonth, pending, parse);
      var n := DecodeLunar(fields[1]);
      var id: Id := |st.records|;
      r.outcome.Parsed? && r.outcome.result == id &&
      var rec := r.st.records[id];
      rec.date == parse(FileDateFormat(fileYear), fields[0]).value &&
      rec.weekday == WeekdayIndex(fields[2]) && rec.weekdayRaw == fields[2] &&
      rec.solarTerm == (if |fields| > 3 then fields[3] else "") &&
      rec.lunarDate.year == (if n.newYear then lunarYear + 1 else lunarYear) &&
      (n.isMonth ==> rec.lunarDate.month == n.value && rec.lunarDate.day == 1) &&
      (!n.isMonth ==> rec.lunarDate.month == lunarMonth && rec.lunarDate.day == n.value) &&
      (rec.lunarDate.month == 0 ==>
         r.outcome.pending == pending + [id] &&
         (forall y, k :: y in r.st.cacheMap && k in r.st.cacheMap[y].dateCache ==> r.st.cacheMap[y].dateCache[k] != id) &&
         (forall y, k :: y in r.st.cacheMap && k in r.st.cacheMap[y].lunarDateCache ==> r.st.cacheMap[y].lunarDateCache[k] != id)) &&
      (rec.lunarDate.month != 0 ==>
         r.outcome.pending == (if Flushes(fields, pending) then [] else pending) &&
         QueryCache(r.st.cacheMap, fileYear, rec.date, true) == (true, Some(id)) &&
         QueryCache(r.st.cacheMap, fileYear, rec.lunarDate, false) == (true, Some(id)))
  {
    var r := ParseLine(st, fields, fileYear, lunarYear, lunarMonth, pending, parse);
    ParseLineTables(st, fields, fileYear, lunarYear, lunarMonth, pending, parse);
    if NewMonth(fields, lunarMonth) == 0 {
      var prior := TablesOf(st.cacheMap, fileYear);
      assert IdsBelow(TablesOf(st.cacheMap, fileYear), |st.records|);
    }
  }

  /** The key a record is entered under in the solar (`byDate`) or lunar table. */
  function Key(rec: Record, byDate: bool): Date
  {
    if byDate then rec.date else rec.lunarDate
  }

  /** No pending record after the i-th has the same key as it. */
  predicate NoLaterKey(records: seq<Record>, pending: seq<Id>, i: nat, byDate: bool)
    requires PendingBelow(pending, |records|) && i < |pending|
  {
    forall j :: i < j < |pending| ==> Key(records[pending[j]], byDate) != Key(records[pending[i]], byDate)
  }

  /** After a flush, a pending record is found under its key unless a later pending record
      has the same key. */
  lemma {:induction false} FlushFinds(st: State, pending: seq<Id>, month: int, fileYear: int, i: nat, byDate: bool)
    requires WF(st) && PendingBelow(pending, |st.records|) && i < |pending|
    requires NoLaterKey(Flush(st, pending, month, fileYear).records, pending, i, byDate)
    ensures var r := Flush(st, pending, month, fileYear);
      QueryCache(r.cacheMap, fileYear, Key(r.records[pending[i]], byDate), byDate) == (true, Some(pending[i]))
    decreases |pending|
  {
    var last := |pending| - 1;
    var prefix := pending[..last];
    var s0 := Flush(st, prefix, month, fileYear);
    var s1 := SetMonth(s0, pending[last], month);
    var r := Cache(s1, pending[last], fileYear);
    assert r == Flush(st, pending, month, fileYear);
    if i == last {
      CacheFinds(s1, pending[last], fileYear, byDate);
    } else {
      var key := Key(r.records[pending[i]], byDate);
      FlushPrefixRecords(st, pending, month, fileYear);
      assert NoLaterKey(s0.records, prefix, i, byDate) by {
        forall j | i < j < |prefix|
          ensures Key(s0.records[prefix[j]], byDate) != key
        {
          assert prefix[j] == pending[j];
        }
      }
      FlushFinds(st, prefix, month, fileYear, i, byDate);
      CacheElsewhere(s1, pending[last], fileYear, key, byDate);
    }
  }

  /** A record flushed before the last pending one already has its final value. */
  lemma FlushPrefixRecords(st: State, pending: seq<Id>, month: int, fileYear: int)
    requires WF(st) && PendingBelow(pending, |st.records|) && pending != []
    ensures PendingBelow(pending[..|pending| - 1], |st.records|)
    ensures var s0 := Flush(st, pending[..|pending| - 1], month, fileYear);
      var r := Flush(st, pending, month, fileYear);
      forall j :: 0 <= j < |pending| - 1 ==> s0.records[pending[j]] == r.records[pending[j]]
  {
    var prefix := pending[..|pending| - 1];
    FlushRecords(st, pending, month, fileYear);
    FlushRecords(st, prefix, month, fileYear);
    forall j | 0 <= j < |pending| - 1
      ensures pending[j] in prefix && pending[j] in pending
    {
      assert prefix[j] == pending[j];
    }
  }

  /** A record just entered is found under its own key. */
  lemma CacheFinds(st: State, id: Id, fileYear: int, byDate: bool)
    requires WF(st) && id < |st.records|
    ensures var r := Cache(st, id, fileYear);
      QueryCache(r.cacheMap, fileYear, Key(r.records[id], byDate), byDate) == (true, Some(id))
  {
    var r := Cache(st, id, fileYear);
    if byDate {
      assert QueryCache(r.cacheMap, fileYear, st.records[id].date, true) == (true, Some(id));
    } else {
      assert QueryCache(r.cacheMap, fileYear, st.records[id].lunarDate, false) == (true, Some(id));
    }
  }

  /** Entering a record leaves a lookup under any other key as it was. */
  lemma CacheElsewhere(st: State, id: Id, fileYear: int, key: Date, byDate: bool)
    requires WF(st) && id < |st.records| && Key(st.records[id], byDate) != key
    requires fileYear in st.cacheMap
    ensures QueryCache(Cache(st, id, fileYear).cacheMap, fileYear, key, byDate) == QueryCache(st.cacheMap, fileYear, key, byDate)
  {
    var r := Cache(st, id, fileYear);
    assert QueryCache(r.cacheMap, fileYear, key, byDate).1 == QueryCache(st.cacheMap, fileYear, key, byDate).1;
  }

  /** The flush of a month-start line: every pending record gets the month before the new one
      (12 when the new month is 1), and each is found in both tables unless a later pending
      record has the same key, which then replaces it. */
  lemma FlushLookup(st: State, pending: seq<Id>, month: int, fileYear: int, i: nat)
    requires WF(st) && PendingBelow(pending, |st.records|) && i < |pending|
    ensures var r := Flush(st, pending, month, fileYear);
      var rec := r.records[pending[i]];
      rec == WithMonth(st.records[pending[i]], month) &&
      ((forall j :: i < j < |pending| ==> r.records[pending[j]].date != rec.date) ==>
         QueryCache(r.cacheMap, fileYear, rec.date, true) == (true, Some(pending[i]))) &&
      ((forall j :: i < j < |pending| ==> r.records[pending[j]].lunarDate != rec.lunarDate) ==>
         QueryCache(r.cacheMap, fileYear, rec.lunarDate, false) == (true, Some(pending[i])))
  {
    FlushRecords(st, pending, month, fileYear);
    assert pending[i] in pending;
    var r := Flush(st, pending, month, fileYear);
    if NoLaterKey(r.records, pending, i, true) {
      FlushFinds(st, pending, month, fileYear, i, true);
    }
    if NoLaterKey(r.records, pending, i, false) {
      FlushFinds(st, pending, month, fileYear, i, false);
    }
  }

  // ---------------------------------------------------------------------
  // The records a scan resolves are found in the tables
  // ---------------------------------------------------------------------

  /** No other record from `base` on has the same key as record `j`. */
  predicate UniqueKey(records: seq<Record>, base: nat, j: nat, byDate: bool)
    requires j < |records|
  {
    forall k :: base <= k < |records| && k != j ==> Key(records[k], byDate) != Key(records[j], byDate)
  }

  /** Every record from `base` on whose month is known is found under its key in the tables of
      `fileYear`, unless another record from `base` on has the same key. */
  ghost predicate Cached(st: State, base: nat, fileYear: int, byDate: bool)
  {
    forall j: nat :: base <= j < |st.records| && st.records[j].lunarDate.month != 0 && UniqueKey(st.records, base, j, byDate) ==>
      QueryCache(st.cacheMap, fileYear, Key(st.records[j], byDate), byDate) == (true, Some(j as Id))
  }

  /** The last position of `x` in `s`. */
  lemma {:induction false} LastPosition(s: seq<Id>, x: Id) returns (i: nat)
    requires x in s
    ensures i < |s| && s[i] == x && forall k :: i < k < |s| ==> s[k] != x
    decreases |s|
  {
    if s[|s| - 1] == x {
      i := |s| - 1;
    } else {
      InPrefixOrLast(s, x);
      i := LastPosition(s[..|s| - 1], x);
    }
  }

  /** A flush leaves alone the lookup under a key that no flushed record ends up with. */
  lemma {:induction false} FlushElsewhere(st: State, pending: seq<Id>, month: int, fileYear: int, key: Date, byDate: bool)
    requires WF(st) && PendingBelow(pending, |st.records|)
    requires forall i :: 0 <= i < |pending| ==> Key(Flush(st, pending, month, fileYear).records[pending[i]], byDate) != key
    ensures QueryCache(Flush(st, pending, month, fileYear).cacheMap, fileYear, key, byDate).1 ==
            QueryCache(st.cacheMap, fileYear, key, byDate).1
    decreases |pending|
  {
    if pending != [] {
      var last := |pending| - 1;
      var prefix := pending[..last];
      FlushPrefixRecords(st, pending, month, fileYear);
      var s0 := Flush(st, prefix, month, fileYear);
      var s1 := SetMonth(s0, pending[last], month);
      assert Flush(st, pending, month, fileYear) == Cache(s1, pending[last], fileYear);
      forall i | 0 <= i < |prefix|
        ensures Key(s0.records[prefix[i]], byDate) != key
      {
        assert prefix[i] == pending[i];
      }
      FlushElsewhere(st, prefix, month, fileYear, key, byDate);
    }
  }

  /** A flush keeps every resolved record found, and finds the records it resolves. In the lunar
      table this needs the pending records to have month 0, so that no key of a record whose
      month is known moves. */
  lemma FlushCached(st: State, pending: seq<Id>, month: int, fileYear: int, base: nat, byDate: bool)
    requires WF(st) && PendingBelow(pending, |st.records|) && Cached(st, base, fileYear, byDate)
    requires forall i :: 0 <= i < |pending| ==> base <= pending[i]
    requires !byDate ==> forall i :: 0 <= i < |pending| ==> st.records[pending[i]].lunarDate.month == 0
    ensures Cached(Flush(st, pending, month, fileYear), base, fileYear, byDate)
  {
    var r := Flush(st, pending, month, fileYear);
    FlushRecords(st, pending, month, fileYear);
    forall j: nat | base <= j < |r.records| && r.records[j].lunarDate.month != 0 && UniqueKey(r.records, base, j, byDate)
      ensures QueryCache(r.cacheMap, fileYear, Key(r.records[j], byDate), byDate) == (true, Some(j as Id))
    {
      if j in pending {
        var i := LastPosition(pending, j);
        FlushLookup(st, pending, month, fileYear, i);
        assert forall k :: i < k < |pending| ==> Key(r.records[pending[k]], byDate) != Key(r.records[j], byDate);
      } else {
        FlushMovesNoKey(st, pending, month, fileYear, base, j, byDate);
        FlushElsewhere(st, pending, month, fileYear, Key(st.records[j], byDate), byDate);
      }
    }
  }

  /** A record the flush does not touch keeps its key and its uniqueness. */
  lemma FlushMovesNoKey(st: State, pending: seq<Id>, month: int, fileYear: int, base: nat, j: nat, byDate: bool)
    requires WF(st) && PendingBelow(pending, |st.records|) && j < |st.records| && j !in pending
    requires forall i :: 0 <= i < |pending| ==> base <= pending[i]
    requires !byDate ==> forall i :: 0 <= i < |pending| ==> st.records[pending[i]].lunarDate.month == 0
    requires var r := Flush(st, pending, month, fileYear);
      r.records[j].lunarDate.month != 0 && UniqueKey(r.records, base, j, byDate)
    ensures var r := Flush(st, pending, month, fileYear);
      r.records[j] == st.records[j] && UniqueKey(st.records, base, j, byDate) &&
      forall i :: 0 <= i < |pending| ==> Key(r.records[pending[i]], byDate) != Key(st.records[j], byDate)
  {
    var r := Flush(st, pending, month, fileYear);
    FlushRecords(st, pending, month, fileYear);
    forall k | base <= k < |st.records| && k != j
      ensures Key(st.records[k], byDate) != Key(st.records[j], byDate)
    {
      if k in pending && !byDate {
        var i :| 0 <= i < |pending| && pending[i] == k;
      }
    }
  }

  /** Entering a record keeps every resolved record found, and finds the new one when its month
      is known. */
  lemma EnterCached(st: State, rec: Record, fileYear: int, pending: seq<Id>, kept: seq<Id>, base: nat, byDate: bool)
    requires WF(st) && PendingBelow(pending, |st.records|) && PendingBelow(kept, |st.records|)
    requires base <= |st.records| && Cached(st, base, fileYear, byDate)
    ensures Cached(EnterRecord(st, rec, fileYear, pending, kept).st, base, fileYear, byDate)
  {
    var r := EnterRecord(st, rec, fileYear, pending, kept).st;
    var id := |st.records|;
    forall j: nat | base <= j < |r.records| && r.records[j].lunarDate.month != 0 && UniqueKey(r.records, base, j, byDate)
      ensures QueryCache(r.cacheMap, fileYear, Key(r.records[j], byDate), byDate) == (true, Some(j as Id))
    {
      if j < id {
        assert r.records[j] == st.records[j];
        assert UniqueKey(st.records, base, j, byDate) by {
          forall k | base <= k < |st.records| && k != j
            ensures Key(st.records[k], byDate) != Key(st.records[j], byDate)
          {
            assert r.records[k] == st.records[k];
          }
        }
        assert Key(r.records[id], byDate) != Key(r.records[j], byDate);
      }
    }
  }

  /** One line keeps every resolved record of the scan found. */
  lemma LineCached(st: State, fields: Line, fileYear: int, lunarYear: int, lunarMonth: int,
                   pending: seq<Id>, parse: TimeParser, base: nat, byDate: bool)
    requires WF(st) && PendingBelow(pending, |st.records|) && LineOk(fields)
    requires base <= |st.records| && Cached(st, base, fileYear, byDate)
    requires forall i :: 0 <= i < |pending| ==> base <= pending[i]
    requires !byDate ==> forall i :: 0 <= i < |pending| ==> st.records[pending[i]].lunarDate.month == 0
    ensures Cached(ParseLine(st, fields, fileYear, lunarYear, lunarMonth, pending, parse).st, base, fileYear, byDate)
  {
    if |fields| > 0 {
      var flushing := Flushes(fields, pending);
      var month := PrevMonth(NewMonth(fields, lunarMonth));
      if flushing {
        FlushCached(st, pending, month, fileYear, base, byDate);
      }
      var st1 := if flushing then Flush(st, pending, month, fileYear) else st;
      var parsed := parse(FileDateFormat(fileYear), fields[0]);
      if parsed.Some? {
        var st1', rec := ParseLineSteps(st, fields, fileYear, lunarYear, lunarMonth, pending, parse, parsed.value);
        EnterCached(st1, rec, fileYear, pending, if flushing then [] else pending, base, byDate);
      }
    }
  }

  /** The scan's bookkeeping for `Cached`: pending records are new, and for the lunar table they
      still have month 0 until a line fails. */
  ghost predicate ScanCached(s: ScanState, base: nat, fileYear: int, byDate: bool)
    requires ScanOk(s)
  {
    (forall i :: 0 <= i < |s.pending| ==> base <= s.pending[i]) &&
    (!byDate && !s.failed ==> forall i :: 0 <= i < |s.pending| ==> s.st.records[s.pending[i]].lunarDate.month == 0) &&
    Cached(s.st, base, fileYear, byDate)
  }

  /** The pending list a parsed line hands on holds new records, and, when the line's month
      field names a real month, records of month 0. */
  lemma PendingKept(st: State, fields: Line, fileYear: int, lunarYear: int, lunarMonth: int,
                    pending: seq<Id>, parse: TimeParser, base: nat)
    requires WF(st) && PendingBelow(pending, |st.records|) && LineOk(fields) && base <= |st.records|
    requires forall i :: 0 <= i < |pending| ==> base <= pending[i]
    ensures var r := ParseLine(st, fields, fileYear, lunarYear, lunarMonth, pending, parse);
      r.outcome.Parsed? ==>
        (forall i :: 0 <= i < |r.outcome.pending| ==> base <= r.outcome.pending[i]) &&
        (MonthKnown(fields) && (forall i :: 0 <= i < |pending| ==> st.records[pending[i]].lunarDate.month == 0) ==>
           forall i :: 0 <= i < |r.outcome.pending| ==> r.st.records[r.outcome.pending[i]].lunarDate.month == 0)
  {
    var r := ParseLine(st, fields, fileYear, lunarYear, lunarMonth, pending, parse);
    ParseLineRecords(st, fields, fileYear, lunarYear, lunarMonth, pending, parse);
    if r.outcome.Parsed? {
      ParsedLine(st, fields, fileYear, lunarYear, lunarMonth, pending, parse);
      forall i | 0 <= i < |r.outcome.pending|
        ensures base <= r.outcome.pending[i]
      {
        var p := r.outcome.pending[i];
        assert p in r.outcome.pending;
        if p in pending {
          var k :| 0 <= k < |pending| && pending[k] == p;
        }
      }
    }
  }

  /** A loop iteration keeps the bookkeeping of `ScanCached`. */
  lemma CachedStep(s: ScanState, fields: Line, d: Date, mode: bool, fileYear: int, parse: TimeParser,
                   base: nat, byDate: bool)
    requires ScanOk(s) && LineOk(fields) && base <= |s.st.records| && ScanCached(s, base, fileYear, byDate)
    requires !byDate ==> MonthKnown(fields)
    ensures ScanCached(ScanStep(s, fields, d, mode, fileYear, parse), base, fileYear, byDate)
  {
    if !s.failed {
      LineCached(s.st, fields, fileYear, s.lunarYear, s.lunarMonth, s.pending, parse, base, byDate);
      PendingKept(s.st, fields, fileYear, s.lunarYear, s.lunarMonth, s.pending, parse, base);
    }
  }

  /** The loop keeps the bookkeeping of `ScanCached` from an empty pending list on. */
  lemma {:induction false} ScanCaches(init: ScanState, lines: seq<Line>, d: Date, mode: bool, fileYear: int,
                                      parse: TimeParser, byDate: bool)
    requires ScanOk(init) && LinesOk(lines) && init.pending == []
    requires !byDate ==> MonthsKnown(lines)
    ensures ScanCached(Scan(init, lines, d, mode, fileYear, parse), |init.st.records|, fileYear, byDate)
  {
    if lines != [] {
      var prefix := lines[..|lines| - 1];
      assert forall i :: 0 <= i < |prefix| ==> prefix[i] == lines[i];
      ScanCaches(init, prefix, d, mode, fileYear, parse, byDate);
      CachedStep(Scan(init, prefix, d, mode, fileYear, parse), lines[|lines| - 1], d, mode, fileYear, parse,
                 |init.st.records|, byDate);
    }
  }

  /** After `find`, every record it read whose lunar month became known is found in the solar
      table of its file-year under its solar date, unless another record of the file has the same
      date; when no month line of the file reads month 0, the same holds for the lunar table. */
  lemma FindCaches(st: State, lines: seq<Line>, d: Date, byDate: bool, fileYear: int,
                   lunarYear: int, lunarMonth: int, parse: TimeParser)
    requires WF(st) && LinesOk(lines)
    ensures var r := Find(st, lines, d, byDate, fileYear, lunarYear, lunarMonth, parse);
      Cached(r.st, |st.records|, fileYear, true) &&
      (MonthsKnown(lines) ==> Cached(r.st, |st.records|, fileYear, false))
  {
    var init := StartScan(st, lunarYear, lunarMonth);
    FindFromScan(st, lines, d, byDate, fileYear, lunarYear, lunarMonth, parse);
    ScanCaches(init, lines, d, byDate, fileYear, parse, true);
    if MonthsKnown(lines) {
      ScanCaches(init, lines, d, byDate, fileYear, parse, false);
    }
  }
}
