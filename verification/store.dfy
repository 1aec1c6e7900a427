/** The handler's heap as a value: every `Result` the handler allocated, and the
    per-file-year lookup tables that point at them. Records are named by their
    allocation index, so two tables (or a table and the pending list) that hold
    the same index share one record, exactly as Go's `*Result` pointers do. */
module Store {
  import opened Dates

  /** One day of a calendar file: Go's `Result`. */
  datatype Record = Record(date: Date, lunarDate: Date, weekday: int, weekdayRaw: string, solarTerm: string)

  /** Go's `fileCache`: a solar-date table and a lunar-date table for one file-year.
      `R` is what the tables point at (an index here, an object in the handler). */
  datatype FileCache<R> = FileCache(dateCache: map<Date, R>, lunarDateCache: map<Date, R>)

  /** Index of a record in `State.records`. */
  type Id = nat

  /** `records[i]` is the current value of the i-th record allocated; `cacheMap` is `Handler.cacheMap`. */
  datatype State = State(records: seq<Record>, cacheMap: map<int, FileCache<Id>>)

  predicate IdsBelow(c: FileCache<Id>, n: nat)
  {
    (forall k :: k in c.dateCache ==> c.dateCache[k] < n) &&
    (forall k :: k in c.lunarDateCache ==> c.lunarDateCache[k] < n)
  }

  /** The solar-date table is keyed by each record's own solar date. */
  predicate DateKeyed(c: FileCache<Id>, records: seq<Record>)
    requires IdsBelow(c, |records|)
  {
    forall k :: k in c.dateCache ==> records[c.dateCache[k]].date == k
  }

  /** Well-formed heap: tables point at allocated records, and solar keys are truthful. */
  predicate WF(st: State)
  {
    forall y :: y in st.cacheMap ==>
      IdsBelow(st.cacheMap[y], |st.records|) && DateKeyed(st.cacheMap[y], st.records)
  }

  /** A new record is allocated after the existing ones; the tables are untouched. */
  function Allocate(st: State, rec: Record): (r: State)
    requires WF(st)
    ensures WF(r) && r.records == st.records + [rec] && r.cacheMap == st.cacheMap
  {
    var r := st.(records := st.records + [rec]);
    forall y | y in r.cacheMap
      ensures IdsBelow(r.cacheMap[y], |r.records|) && DateKeyed(r.cacheMap[y], r.records)
    {
      assert IdsBelow(st.cacheMap[y], |st.records|);
    }
    r
  }

  /** Go's `queryCache`: whether the file-year has a table at all, and the entry
      for `d` in the solar (`byDate`) or lunar table. */
  function QueryCache<R>(cacheMap: map<int, FileCache<R>>, fileYear: int, d: Date, byDate: bool): (res: (bool, Option<R>))
    ensures res.0 <==> fileYear in cacheMap
    ensures res.1.Some? ==> res.0
    ensures fileYear in cacheMap ==>
      var table := if byDate then cacheMap[fileYear].dateCache else cacheMap[fileYear].lunarDateCache;
      (d in table <==> res.1.Some?) && (d in table ==> res.1.value == table[d])
  {
    if fileYear !in cacheMap then (false, None)
    else
      var c := cacheMap[fileYear];
      var table := if byDate then c.dateCache else c.lunarDateCache;
      (true, if d in table then Some(table[d]) else None)
  }

  /** Go's `cache`: enter a record in both tables of a file-year, creating them when absent.
      A later record with the same key replaces the earlier one. */
  function Cache(st: State, id: Id, fileYear: int): (r: State)
    requires WF(st) && id < |st.records|
    ensures WF(r) && r.records == st.records
    ensures QueryCache(r.cacheMap, fileYear, st.records[id].date, true) == (true, Some(id))
    ensures QueryCache(r.cacheMap, fileYear, st.records[id].lunarDate, false) == (true, Some(id))
    ensures r.cacheMap.Keys == st.cacheMap.Keys + {fileYear}
    ensures forall y, d, b :: (y != fileYear || d != (if b then st.records[id].date else st.records[id].lunarDate)) ==>
      QueryCache(r.cacheMap, y, d, b).1 == QueryCache(st.cacheMap, y, d, b).1
  {
    var rec := st.records[id];
    var c := if fileYear in st.cacheMap then st.cacheMap[fileYear] else FileCache(map[], map[]);
    st.(cacheMap := st.cacheMap[fileYear := FileCache(c.dateCache[rec.date := id], c.lunarDateCache[rec.lunarDate := id])])
  }
}
