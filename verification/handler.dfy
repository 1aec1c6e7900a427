/** The package's objects: `Result` records on the heap and the `Handler` that caches them.
    Each method is proved against its counterpart on the value model: the handler's abstract
    state after the call is what the value function computes from the state before it. The
    tables of a file-year hold references, so a record still pending in a scan and the same
    record entered in a table are one object, as in the package. */
module Handler {
  import opened Dates
  import opened Numerals
  import opened Store
  import opened Scanner
  import opened Queries

  /** Go's `Result`. Only the lunar date is ever changed after creation (its month, when a
      pending record is flushed), so the other fields are constants. `id` is the record's
      allocation position, which names it in the value model. */
  class Result {
    ghost const id: Id
    const date: Date
    var lunarDate: Date
    const weekday: int
    const weekdayRaw: string
    const solarTerm: string

    constructor (rec: Record, ghost id: Id)
      ensures Value() == rec && this.id == id
    {
      this.id := id;
      date := rec.date;
      lunarDate := rec.lunarDate;
      weekday := rec.weekday;
      weekdayRaw := rec.weekdayRaw;
      solarTerm := rec.solarTerm;
    }

    function Value(): Record
      reads this
    {
      Record(date, lunarDate, weekday, weekdayRaw, solarTerm)
    }
  }

  /** `r` is the record allocated at its own position. */
  ghost predicate Owned(r: Result, arena: seq<Result>)
  {
    r.id < |arena| && arena[r.id] == r
  }

  /** Both tables of `c` point at allocated records. */
  ghost predicate CacheKnown(c: FileCache<Result>, arena: seq<Result>)
  {
    (forall k :: k in c.dateCache ==> Owned(c.dateCache[k], arena)) &&
    (forall k :: k in c.lunarDateCache ==> Owned(c.lunarDateCache[k], arena))
  }

  ghost predicate Known(cm: map<int, FileCache<Result>>, arena: seq<Result>)
  {
    forall y :: y in cm ==> CacheKnown(cm[y], arena)
  }

  /** A table of references as a table of record positions. */
  ghost function IdTable(t: map<Date, Result>): (m: map<Date, Id>)
    ensures m.Keys == t.Keys && forall k :: k in t ==> m[k] == t[k].id
  {
    map k | k in t :: t[k].id
  }

  ghost function IdCache(c: FileCache<Result>): FileCache<Id>
  {
    FileCache(IdTable(c.dateCache), IdTable(c.lunarDateCache))
  }

  ghost function IdTables(cm: map<int, FileCache<Result>>): (m: map<int, FileCache<Id>>)
  {
    map y | y in cm :: IdCache(cm[y])
  }

  lemma IdTableUpdate(t: map<Date, Result>, k: Date, r: Result)
    ensures IdTable(t[k := r]) == IdTable(t)[k := r.id]
  {
  }

  lemma IdTablesUpdate(cm: map<int, FileCache<Result>>, y: int, c: FileCache<Result>)
    ensures IdTables(cm[y := c]) == IdTables(cm)[y := IdCache(c)]
  {
  }

  /** `cache` on references is `Store.Cache` on positions. */
  lemma CacheStep(cm: map<int, FileCache<Result>>, r: Result, fileYear: int, st: State)
    requires WF(st) && st.cacheMap == IdTables(cm) && r.id < |st.records|
    requires st.records[r.id].date == r.date && st.records[r.id].lunarDate == r.lunarDate
    ensures var c := if fileYear in cm then cm[fileYear] else FileCache(map[], map[]);
      IdTables(cm[fileYear := FileCache(c.dateCache[r.date := r], c.lunarDateCache[r.lunarDate := r])]) ==
      Store.Cache(st, r.id, fileYear).cacheMap
  {
    var c := if fileYear in cm then cm[fileYear] else FileCache(map[], map[]);
    var c' := FileCache(c.dateCache[r.date := r], c.lunarDateCache[r.lunarDate := r]);
    IdTableUpdate(c.dateCache, r.date, r);
    IdTableUpdate(c.lunarDateCache, r.lunarDate, r);
    IdTablesUpdate(cm, fileYear, c');
    if fileYear !in cm {
      assert IdTable(map[]) == map[];
    }
  }

  /** Entering an allocated record keeps every table pointing at allocated records. */
  lemma CacheKnownStep(cm: map<int, FileCache<Result>>, r: Result, fileYear: int, arena: seq<Result>)
    requires Known(cm, arena) && Owned(r, arena)
    ensures var c := if fileYear in cm then cm[fileYear] else FileCache(map[], map[]);
      Known(cm[fileYear := FileCache(c.dateCache[r.date := r], c.lunarDateCache[r.lunarDate := r])], arena)
  {
    var c := if fileYear in cm then cm[fileYear] else FileCache(map[], map[]);
    assert CacheKnown(c, arena);
  }

  ghost predicate AllOwned(ps: seq<Result>, arena: seq<Result>)
  {
    forall i :: 0 <= i < |ps| ==> Owned(ps[i], arena)
  }

  /** The positions of a list of references. */
  ghost function Positions(ps: seq<Result>): (r: seq<Id>)
    ensures |r| == |ps| && forall i :: 0 <= i < |ps| ==> r[i] == ps[i].id
  {
    seq(|ps|, i requires 0 <= i < |ps| => ps[i].id)
  }

  lemma OwnedAfterGrowth(ps: seq<Result>, a0: seq<Result>, a1: seq<Result>)
    requires AllOwned(ps, a0) && |a0| <= |a1| && a1[..|a0|] == a0
    ensures AllOwned(ps, a1)
  {
    forall i | 0 <= i < |ps|
      ensures Owned(ps[i], a1)
    {
      assert a1[ps[i].id] == a1[..|a0|][ps[i].id];
    }
  }

  lemma OwnedAppend(ps: seq<Result>, r: Result, arena: seq<Result>)
    requires AllOwned(ps, arena) && Owned(r, arena)
    ensures AllOwned(ps + [r], arena)
  {
  }

  lemma OwnedKept(r: Result, a0: seq<Result>, a1: seq<Result>)
    requires Owned(r, a0) && |a0| <= |a1| && a1[..|a0|] == a0
    ensures Owned(r, a1)
  {
    assert a1[r.id] == a1[..|a0|][r.id];
  }

  lemma GrownTrans(a0: seq<Result>, a1: seq<Result>, a2: seq<Result>)
    requires |a0| <= |a1| && a1[..|a0|] == a0 && |a1| <= |a2| && a2[..|a1|] == a1
    ensures |a0| <= |a2| && a2[..|a0|] == a0
  {
    assert a2[..|a0|] == a2[..|a1|][..|a0|];
  }

  lemma OwnedBelow(ps: seq<Result>, arena: seq<Result>)
    requires AllOwned(ps, arena)
    ensures PendingBelow(Positions(ps), |arena|)
  {
  }

  /** `results` are the records of the table entries `picked`, one each, and `picked` lists
      each of `entries` exactly once. */
  ghost predicate Listed(st: State, results: seq<Result>, picked: seq<(int, Date)>, entries: set<(int, Date)>)
  {
    |results| == |picked| &&
    (forall i, j :: 0 <= i < j < |picked| ==> picked[i] != picked[j]) &&
    (forall e :: e in picked <==> e in entries) &&
    forall i :: 0 <= i < |picked| ==>
      picked[i].0 in st.cacheMap && picked[i].1 in st.cacheMap[picked[i].0].lunarDateCache &&
      results[i].id == st.cacheMap[picked[i].0].lunarDateCache[picked[i].1]
  }

  /** What the collection loop of `getSolarTerms` leaves for file-year `y`. */
  ghost predicate Collected(st: State, y: int, year: int, names: seq<string>, results: seq<Result>, picked: seq<(int, Date)>)
    requires WF(st)
  {
    y in st.cacheMap && Listed(st, results, picked, Entries(st, y, year, names)) &&
    forall i :: 0 <= i < |picked| ==> picked[i].0 == y
  }

  /** A collection stays accurate while its year's table and the records it points at do. */
  lemma CollectedKept(st: State, st': State, y: int, year: int, names: seq<string>, results: seq<Result>, picked: seq<(int, Date)>)
    requires WF(st) && WF(st') && Collected(st, y, year, names, results, picked)
    requires y in st'.cacheMap && st'.cacheMap[y] == st.cacheMap[y] && |st.records| <= |st'.records|
    requires forall i :: 0 <= i < |st.records| ==> st'.records[i] == st.records[i]
    ensures Collected(st', y, year, names, results, picked)
  {
    EntriesKept(st, st', y, year, names);
  }

  /** The collections of two file-years join into one list of the entries of both. */
  lemma CollectedJoin(st: State, year: int, names: seq<string>, r1: seq<Result>, p1: seq<(int, Date)>,
                      r2: seq<Result>, p2: seq<(int, Date)>)
    requires WF(st) && Collected(st, year, year, names, r1, p1) && Collected(st, year + 1, year, names, r2, p2)
    ensures Listed(st, r1 + r2, p1 + p2, Entries(st, year, year, names) + Entries(st, year + 1, year, names))
  {
    var p, r := p1 + p2, r1 + r2;
    forall i, j | 0 <= i < j < |p|
      ensures p[i] != p[j]
    {
      if i < |p1| && j >= |p1| {
        assert p[i].0 == year && p[j].0 == year + 1;
      }
    }
    forall i | 0 <= i < |p|
      ensures p[i].0 in st.cacheMap && p[i].1 in st.cacheMap[p[i].0].lunarDateCache &&
              r[i].id == st.cacheMap[p[i].0].lunarDateCache[p[i].1]
    {
      if i >= |p1| {
        assert p[i] == p2[i - |p1|] && r[i] == r2[i - |p1|];
      }
    }
  }

  /** The state of the collection loop of `getSolarTerms` over one lunar table: the keys not
      yet visited are `remaining`; `results` holds, once each and named by `picked`, the
      qualifying records of the visited keys. */
  ghost predicate Gathered(table: map<Date, Result>, y: int, year: int, names: seq<string>, remaining: set<Date>,
                           results: seq<Result>, picked: seq<(int, Date)>)
    reads table.Values
  {
    remaining <= table.Keys && |results| == |picked| &&
    (forall i, j :: 0 <= i < j < |picked| ==> picked[i] != picked[j]) &&
    (forall i :: 0 <= i < |picked| ==>
       picked[i].0 == y && picked[i].1 in table && picked[i].1 !in remaining && results[i] == table[picked[i].1] &&
       Qualifies(results[i].Value(), year, names)) &&
    (forall k :: k in table && k !in remaining && Qualifies(table[k].Value(), year, names) ==> (y, k) in picked)
  }

  /** One iteration of the collection loop. */
  lemma GatherStep(table: map<Date, Result>, y: int, year: int, names: seq<string>, nameSet: set<string>,
                   remaining: set<Date>, results: seq<Result>, picked: seq<(int, Date)>, k: Date)
    requires Gathered(table, y, year, names, remaining, results, picked) && k in remaining
    requires forall n :: n in nameSet <==> n in names
    ensures var r := table[k];
      var keep := r.solarTerm != "" && r.lunarDate.year == year && (|names| == 0 || r.solarTerm in nameSet);
      Gathered(table, y, year, names, remaining - {k},
               if keep then results + [r] else results, if keep then picked + [(y, k)] else picked)
  {
  }

  /** The record picked so far, by position. */
  ghost function Pick(r: Result?): Option<Id>
  {
    if r == null then None else Some(r.id)
  }

  /** What `find` returns, in references, agrees with the model's outcome in positions. */
  ghost predicate SameFound(o: Outcome<Result>, m: Outcome<Id>, arena: seq<Result>)
  {
    match o
    case Ok(r) => m == Ok(r.id) && Owned(r, arena)
    case Err(e) => m == Err(e)
  }

  lemma PositionsSnoc(ps: seq<Result>, r: Result)
    ensures Positions(ps + [r]) == Positions(ps) + [r.id]
  {
  }

  /** What `parseLine` returns, in references, agrees with the model's outcome in positions. */
  ghost predicate SameOutcome(o: LineOutcome<Result>, m: LineOutcome<Id>)
  {
    match o
    case Blank => m.Blank?
    case Malformed => m.Malformed?
    case Parsed(r, ps) => m.Parsed? && r.id == m.result && Positions(ps) == m.pending
  }

  /** The pick of the `find` loop after a parsed line: the line's record `res` when its solar
      (`byDate`) or lunar date is `d`, or, in lunar mode, when the line emptied a non-empty
      pending list and one of those flushed records now carries `d`; otherwise the pick so far. */
  method PickLine(res: Result, next: seq<Result>, pending: seq<Result>, d: Date, byDate: bool, result: Result?)
    returns (result': Result?)
    ensures result' == res || result' == result
    ensures result' == res <==>
      (res == result ||
       (byDate && res.date == d) ||
       (!byDate && (res.lunarDate == d ||
                    (|pending| > 0 && |next| == 0 && exists k :: 0 <= k < |pending| && pending[k].lunarDate == d))))
  {
    result' := result;
    if byDate {
      if res.date.Equal(d) {
        result' := res;
      }
    } else {
      if res.lunarDate.Equal(d) {
        result' := res;
      }
      if |pending| > 0 && |next| == 0 {
        var j := 0;
        while j < |pending|
          invariant 0 <= j <= |pending|
          invariant result' == res || result' == result
          invariant result' == res <==> res == result || res.lunarDate == d ||
                                         exists k :: 0 <= k < j && pending[k].lunarDate == d
        {
          if pending[j].lunarDate.Equal(d) {
            result' := res;
          }
          j := j + 1;
        }
      }
    }
  }

  /** Go's `Handler`: the tables of every file-year read so far. */
  class Handler {
    var cacheMap: map<int, FileCache<Result>>
    /** Every `Result` the handler has allocated, oldest first. */
    ghost var arena: seq<Result>

    /** Each record sits at its own position, and the tables point only at allocated records. */
    ghost predicate Valid()
      reads this
    {
      (forall i :: 0 <= i < |arena| ==> arena[i].id == i) && Known(cacheMap, arena)
    }

    ghost function Records(): (rs: seq<Record>)
      reads this`arena, arena
      ensures |rs| == |arena| && forall i :: 0 <= i < |arena| ==> rs[i] == arena[i].Value()
    {
      var a := arena;
      seq(|a|, i requires 0 <= i < |a| reads a => a[i].Value())
    }

    /** The handler as a value of the model. */
    ghost function Abs(): State
      reads this, arena
    {
      State(Records(), IdTables(cacheMap))
    }

    ghost predicate Inv()
      reads this, arena
    {
      Valid() && WF(Abs())
    }

    /** Records once allocated keep their positions: the handler only allocates. */
    ghost predicate Grown(oldArena: seq<Result>)
      reads this
    {
      |oldArena| <= |arena| && arena[..|oldArena|] == oldArena
    }

    /** Go's `New`. */
    constructor ()
      ensures Inv() && Abs() == State([], map[])
    {
      cacheMap := map[];
      arena := [];
      new;
      assert Records() == [];
      assert IdTables(cacheMap) == map[];
    }

    /** Go's `cache`. */
    method Cache(r: Result, fileYear: int)
      modifies this`cacheMap
      requires Inv() && Owned(r, arena)
      ensures Inv() && Abs() == Store.Cache(old(Abs()), r.id, fileYear)
    {
      ghost var st := Abs();
      var c := if fileYear in cacheMap then cacheMap[fileYear] else FileCache(map[], map[]);
      var c' := FileCache(c.dateCache[r.date := r], c.lunarDateCache[r.lunarDate := r]);
      CacheStep(cacheMap, r, fileYear, st);
      CacheKnownStep(cacheMap, r, fileYear, arena);
      cacheMap := cacheMap[fileYear := c'];
      assert Records() == st.records;
    }

    /** Go's `queryCache`: whether the file-year has tables, and the record under `d`, if any. */
    method QueryCache(fileYear: int, d: Date, byDate: bool) returns (loaded: bool, r: Result?)
      requires Valid()
      ensures var q := Store.QueryCache(Abs().cacheMap, fileYear, d, byDate);
        loaded == q.0 && (r == null <==> q.1.None?) && (r != null ==> Owned(r, arena) && r.id == q.1.value)
    {
      if fileYear !in cacheMap {
        return false, null;
      }
      var c := cacheMap[fileYear];
      var table := if byDate then c.dateCache else c.lunarDateCache;
      assert CacheKnown(c, arena);
      loaded := true;
      r := if d in table then table[d] else null;
    }

    /** Allocation of a new `Result` holding `rec`. */
    method NewResult(rec: Record) returns (r: Result)
      modifies this`arena
      requires Inv()
      ensures Inv() && fresh(r) && arena == old(arena) + [r] && r.id == |old(arena)|
      ensures Abs() == Allocate(old(Abs()), rec)
    {
      r := new Result(rec, |arena|);
      arena := arena + [r];
      assert Records() == old(Records()) + [rec];
      forall y | y in cacheMap
        ensures CacheKnown(cacheMap[y], arena)
      {
        assert CacheKnown(cacheMap[y], old(arena));
      }
    }

    /** The statement `v.LunarDate.Month = month` of the flush loop. */
    method SetMonth(v: Result, month: int)
      modifies v
      requires Inv() && Owned(v, arena)
      ensures Inv() && Abs() == Scanner.SetMonth(old(Abs()), v.id, month)
    {
      v.lunarDate := v.lunarDate.(month := month);
      assert Records() == old(Records())[v.id := WithMonth(old(v.Value()), month)];
    }

    /** The body of the flush loop: one pending record gets `month` and is cached. */
    method FlushOne(v: Result, month: int, fileYear: int)
      modifies this`cacheMap, v
      requires Inv() && Owned(v, arena)
      ensures Inv() && arena == old(arena)
      ensures Abs() == Store.Cache(Scanner.SetMonth(old(Abs()), v.id, month), v.id, fileYear)
    {
      SetMonth(v, month);
      Cache(v, fileYear);
    }

    /** The flush loop of `parseLine`: every pending record gets `month` and is cached. */
    method Flush(pending: seq<Result>, month: int, fileYear: int)
      modifies this`cacheMap, pending
      requires Inv() && AllOwned(pending, arena)
      ensures Inv() && arena == old(arena)
      ensures Abs() == Scanner.Flush(old(Abs()), Positions(pending), month, fileYear)
    {
      ghost var st0 := Abs();
      ghost var ps := Positions(pending);
      var j := 0;
      OwnedBelow(pending, arena);
      while j < |pending|
        invariant 0 <= j <= |pending|
        invariant Inv() && arena == old(arena)
        invariant PendingBelow(ps[..j], |st0.records|)
        invariant Abs() == Scanner.Flush(st0, ps[..j], month, fileYear)
      {
        FlushNext(st0, ps, j, month, fileYear);
        assert Owned(pending[j], arena) && pending[j].id == ps[j];
        FlushOne(pending[j], month, fileYear);
        j := j + 1;
      }
      assert ps[..j] == ps;
    }

    /** The end of `parseLine`: allocate the line's record; while its month is unknown append it
        to `pending`, otherwise cache it and hand on `kept`. */
    method Enter(rec: Record, fileYear: int, pending: seq<Result>, kept: seq<Result>) returns (outcome: LineOutcome<Result>)
      modifies this`arena, this`cacheMap
      requires Inv() && AllOwned(pending, arena) && AllOwned(kept, arena)
      ensures Inv() && Grown(old(arena))
      ensures PendingBelow(Positions(pending), |old(arena)|) && PendingBelow(Positions(kept), |old(arena)|)
      ensures var m := EnterRecord(old(Abs()), rec, fileYear, Positions(pending), Positions(kept));
        Abs() == m.st && SameOutcome(outcome, m.outcome)
      ensures outcome.Parsed? && fresh(outcome.result) && Owned(outcome.result, arena) && AllOwned(outcome.pending, arena)
      ensures forall p :: p in outcome.pending ==> p in pending || p in kept || p == outcome.result
    {
      OwnedBelow(pending, arena);
      OwnedBelow(kept, arena);
      var r := NewResult(rec);
      OwnedAfterGrowth(pending, old(arena), arena);
      OwnedAfterGrowth(kept, old(arena), arena);
      if rec.lunarDate.month == 0 {
        PositionsSnoc(pending, r);
        OwnedAppend(pending, r, arena);
        outcome := Parsed(r, pending + [r]);
      } else {
        Cache(r, fileYear);
        outcome := Parsed(r, kept);
      }
    }

    /** Go's `parseLine` on a line already split into fields. */
    method ParseLine(fields: Line, fileYear: int, lunarYear: int, lunarMonth: int,
                     pending: seq<Result>, parse: TimeParser) returns (outcome: LineOutcome<Result>)
      modifies this, pending
      requires Inv() && LineOk(fields) && AllOwned(pending, arena)
      ensures Inv() && Grown(old(arena))
      ensures var m := Scanner.ParseLine(old(Abs()), fields, fileYear, lunarYear, lunarMonth, Positions(pending), parse);
        Abs() == m.st && SameOutcome(outcome, m.outcome)
      ensures outcome.Parsed? ==> fresh(outcome.result) && Owned(outcome.result, arena) && AllOwned(outcome.pending, arena)
      ensures outcome.Parsed? ==> forall p :: p in outcome.pending ==> p in pending || p == outcome.result
    {
      ghost var st0 := Abs();
      ghost var ps := Positions(pending);
      if |fields| == 0 {
        assert arena[..|arena|] == arena;
        return Blank;
      }
      var n := DecodeLunar(fields[1]);
      var year := if n.newYear then lunarYear + 1 else lunarYear;
      var month := if n.isMonth then n.value else lunarMonth;
      var day := if n.isMonth then 1 else n.value;
      var kept := pending;
      if n.isMonth && |pending| > 0 {
        Flush(pending, PrevMonth(month), fileYear);
        kept := [];
      }
      var date := parse(FileDateFormat(fileYear), fields[0]);
      if date.None? {
        assert arena[..|arena|] == arena;
        return Malformed;
      }
      var rec := Record(date.value, Date(year, month, day), WeekdayIndex(fields[2]), fields[2],
                        if |fields| > 3 then fields[3] else "");
      ghost var st1, rec' := ParseLineSteps(st0, fields, fileYear, lunarYear, lunarMonth, ps, parse, date.value);
      assert Abs() == st1 && rec == rec' && Positions(kept) == if Flushes(fields, ps) then [] else ps;
      outcome := Enter(rec, fileYear, pending, kept);
    }

    /** One iteration of the `find` loop: parse the line, move the running lunar year and month
        on, pick the line's record when it matches, and carry the new pending list. */
    method ScanLine(fields: Line, d: Date, byDate: bool, fileYear: int, lunarYear: int, lunarMonth: int,
                    result: Result?, pending: seq<Result>, parse: TimeParser)
      returns (failed: bool, lunarYear': int, lunarMonth': int, result': Result?, pending': seq<Result>)
      modifies this, pending
      requires Inv() && LineOk(fields) && AllOwned(pending, arena) && (result != null ==> Owned(result, arena))
      ensures Inv() && Grown(old(arena)) && AllOwned(pending', arena) && (result' != null ==> Owned(result', arena))
      ensures forall k :: 0 <= k < |pending'| ==> pending'[k] in pending || fresh(pending'[k])
      ensures ScanState(Abs(), lunarYear', lunarMonth', Pick(result'), Positions(pending'), failed) ==
        ScanStep(ScanState(old(Abs()), lunarYear, lunarMonth, Pick(result), Positions(pending), false),
                 fields, d, byDate, fileYear, parse)
    {
      OwnedBelow(pending, arena);
      var o := ParseLine(fields, fileYear, lunarYear, lunarMonth, pending, parse);
      OwnedAfterGrowth(pending, old(arena), arena);
      if result != null {
        OwnedKept(result, old(arena), arena);
      }
      failed, lunarYear', lunarMonth', result', pending' := false, lunarYear, lunarMonth, result, pending;
      match o
      case Blank =>
      case Malformed =>
        failed := true;
      case Parsed(res, next) =>
        lunarYear', lunarMonth' := res.lunarDate.year, res.lunarDate.month;
        result' := PickLine(res, next, pending, d, byDate, result);
        FlushHitObjects(pending, d);
        pending' := next;
    }

    /** A pending record's lunar date in the model is its object's lunar date. */
    lemma FlushHitObjects(pending: seq<Result>, d: Date)
      requires Valid() && AllOwned(pending, arena)
      ensures PendingBelow(Positions(pending), |Abs().records|)
      ensures FlushHit(Abs(), Positions(pending), d) <==> exists k :: 0 <= k < |pending| && pending[k].lunarDate == d
    {
      forall k | 0 <= k < |pending|
        ensures Abs().records[Positions(pending)[k]].lunarDate == pending[k].lunarDate
      {
        assert Owned(pending[k], arena);
      }
    }

    /** Go's `find` over the lines of a file whose header has been skipped. The running lunar
        month is returned as well, as the package writes it back through a pointer. */
    method Find(lines: seq<Line>, d: Date, byDate: bool, fileYear: int, lunarYear: int, lunarMonth: int,
                parse: TimeParser) returns (outcome: Outcome<Result>, lunarMonth': int)
      modifies this
      requires Inv() && LinesOk(lines)
      ensures Inv() && Grown(old(arena))
      ensures var m := Scanner.Find(old(Abs()), lines, d, byDate, fileYear, lunarYear, lunarMonth, parse);
        Abs() == m.st && SameFound(outcome, m.outcome, arena) && lunarMonth' == m.lunarMonth
    {
      ghost var init := StartScan(Abs(), lunarYear, lunarMonth);
      var ly, result: Result?, pending: seq<Result> := lunarYear, null, [];
      lunarMonth' := lunarMonth;
      var i := 0;
      assert lines[..0] == [];
      while i < |lines|
        invariant 0 <= i <= |lines|
        invariant Inv() && Grown(old(arena)) && AllOwned(pending, arena) && (result != null ==> Owned(result, arena))
        invariant forall k :: 0 <= k < |pending| ==> fresh(pending[k])
        invariant Scan(init, lines[..i], d, byDate, fileYear, parse) ==
          ScanState(Abs(), ly, lunarMonth', Pick(result), Positions(pending), false)
      {
        ScanNext(init, lines, i, d, byDate, fileYear, parse);
        ghost var a0 := arena;
        var failed;
        failed, ly, lunarMonth', result, pending := ScanLine(lines[i], d, byDate, fileYear, ly, lunarMonth', result, pending, parse);
        GrownTrans(old(arena), a0, arena);
        if failed {
          ScanAfterFailure(init, lines, i + 1, d, byDate, fileYear, parse);
          return Err(FormatError), lunarMonth';
        }
        i := i + 1;
      }
      assert lines[..i] == lines;
      outcome := if result == null || !result.lunarDate.Valid() then Err(NotFound) else Ok(result as Result);
      FoundAgrees(old(Abs()), lines, d, byDate, fileYear, lunarYear, lunarMonth, parse, ly, lunarMonth', result, pending, outcome);
    }

    /** A scan that ran to the end without a format error: the pick, read as an object,
        is the answer of the model's `find`. */
    lemma FoundAgrees(st0: State, lines: seq<Line>, d: Date, byDate: bool, fileYear: int, lunarYear: int,
                      lunarMonth: int, parse: TimeParser, ly: int, lm: int, result: Result?,
                      pending: seq<Result>, outcome: Outcome<Result>)
      requires Inv() && WF(st0) && LinesOk(lines) && (result != null ==> Owned(result, arena))
      requires Scan(StartScan(st0, lunarYear, lunarMonth), lines, d, byDate, fileYear, parse) ==
        ScanState(Abs(), ly, lm, Pick(result), Positions(pending), false)
      requires outcome == if result == null || !result.lunarDate.Valid() then Err(NotFound) else Ok(result as Result)
      ensures var m := Scanner.Find(st0, lines, d, byDate, fileYear, lunarYear, lunarMonth, parse);
        Abs() == m.st && SameFound(outcome, m.outcome, arena) && lm == m.lunarMonth
    {
      FindFromScan(st0, lines, d, byDate, fileYear, lunarYear, lunarMonth, parse);
      if result != null {
        assert Abs().records[result.id].lunarDate == result.lunarDate;
      }
    }

    /** Go's `Handler.DateToLunarDate`, with the calendar files given as `files`. */
    method DateToLunarDate(d: Date, files: FileSource, parse: TimeParser) returns (outcome: Outcome<Result>, ghost opens: seq<int>)
      modifies this
      requires Inv() && SourceOk(files, d.year)
      ensures Inv() && Grown(old(arena))
      ensures var a := Queries.DateToLunarDate(old(Abs()), d, files, parse);
        Abs() == a.st && SameFound(outcome, a.outcome, arena) && opens == a.opens
    {
      var loaded, r := QueryCache(d.year, d, true);
      if loaded && r != null {
        assert arena[..|arena|] == arena;
        return Ok(r), [];
      }
      opens := [d.year];
      var file := files(d.year);
      if file.None? {
        assert arena[..|arena|] == arena;
        return Err(IOError), opens;
      }
      DateToLunarDateLoads(old(Abs()), d, files, parse);
      var lunarMonth := 0;
      outcome, lunarMonth := Find(file.value, d, true, d.year, d.year - 1, lunarMonth, parse);
    }

    /** The second half of Go's `Handler.LunarDateToDate`: the tables of `d.year + 1`, else its file. */
    method NextYear(d: Date, lunarMonth: int, ghost opens0: seq<int>, files: FileSource, parse: TimeParser)
      returns (outcome: Outcome<Result>, ghost opens: seq<int>)
      modifies this
      requires Inv() && SourceOk(files, d.year + 1)
      ensures Inv() && Grown(old(arena))
      ensures var a := Queries.NextYear(old(Abs()), d, lunarMonth, opens0, files, parse);
        Abs() == a.st && SameFound(outcome, a.outcome, arena) && opens == a.opens
    {
      var loaded, r := QueryCache(d.year + 1, d, false);
      opens := opens0;
      if loaded && r != null {
        assert arena[..|arena|] == arena;
        return Ok(r), opens;
      }
      if loaded {
        assert arena[..|arena|] == arena;
        return Err(NotFound), opens;
      }
      opens := opens + [d.year + 1];
      var file := files(d.year + 1);
      if file.None? {
        assert arena[..|arena|] == arena;
        return Err(IOError), opens;
      }
      var lunarMonth' := lunarMonth;
      outcome, lunarMonth' := Find(file.value, d, false, d.year + 1, d.year, lunarMonth', parse);
    }

    /** Go's `Handler.LunarDateToDate`: the file-year `d.year`, then `d.year + 1`; the running
        month left by the first file's scan is where the second scan starts. */
    method LunarDateToDate(d: Date, files: FileSource, parse: TimeParser) returns (outcome: Outcome<Result>, ghost opens: seq<int>)
      modifies this
      requires Inv() && SourceOk(files, d.year) && SourceOk(files, d.year + 1)
      ensures Inv() && Grown(old(arena))
      ensures var a := Queries.LunarDateToDate(old(Abs()), d, files, parse);
        Abs() == a.st && SameFound(outcome, a.outcome, arena) && opens == a.opens
    {
      var loaded, r := QueryCache(d.year, d, false);
      if loaded && r != null {
        assert arena[..|arena|] == arena;
        return Ok(r), [];
      }
      var lunarMonth := 0;
      opens := [];
      if !loaded {
        opens := [d.year];
        var file := files(d.year);
        if file.None? {
          assert arena[..|arena|] == arena;
          return Err(IOError), opens;
        }
        var res;
        ghost var a0 := arena;
        LunarDateToDateLoads(old(Abs()), d, files, parse);
        res, lunarMonth := Find(file.value, d, false, d.year, d.year - 1, lunarMonth, parse);
        if res.Ok? || res.error != NotFound {
          return res, opens;
        }
        FindFrame(old(Abs()), file.value, d, false, d.year, d.year - 1, 0, parse);
        ghost var a1 := arena;
        outcome, opens := NextYear(d, lunarMonth, opens, files, parse);
        GrownTrans(a0, a1, arena);
        return;
      }
      outcome, opens := NextYear(d, lunarMonth, opens, files, parse);
    }

    /** The loop of `getSolarTerms` over one year's lunar table, in whatever order the map
        yields its keys: the records kept, and (ghost) the entries they came from. */
    method CollectTerms(y: int, year: int, names: seq<string>, nameSet: set<string>)
      returns (results: seq<Result>, ghost picked: seq<(int, Date)>)
      requires Inv() && y in cacheMap && (forall n :: n in nameSet <==> n in names)
      ensures Collected(Abs(), y, year, names, results, picked)
    {
      var table := cacheMap[y].lunarDateCache;
      var remaining := table.Keys;
      results, picked := [], [];
      while remaining != {}
        invariant Gathered(table, y, year, names, remaining, results, picked)
        decreases remaining
      {
        var k :| k in remaining;
        GatherStep(table, y, year, names, nameSet, remaining, results, picked, k);
        var r := table[k];
        if r.solarTerm != "" && r.lunarDate.year == year && (|names| == 0 || r.solarTerm in nameSet) {
          results, picked := results + [r], picked + [(y, k)];
        }
        remaining := remaining - {k};
      }
      CollectedFromTable(y, year, names, results, picked);
    }

    /** The collection loop's result, stated on the table of references, read on the model. */
    lemma CollectedFromTable(y: int, year: int, names: seq<string>, results: seq<Result>, picked: seq<(int, Date)>)
      requires Inv() && y in cacheMap && Gathered(cacheMap[y].lunarDateCache, y, year, names, {}, results, picked)
      ensures Collected(Abs(), y, year, names, results, picked)
    {
      TermsAgree(y, year, names);
      var st := Abs();
      forall e | e in picked
        ensures e in Entries(st, y, year, names)
      {
        var i :| 0 <= i < |picked| && picked[i] == e;
      }
    }

    /** The lunar table of `y`, read as objects, agrees with the model's table of positions. */
    lemma TermsAgree(y: int, year: int, names: seq<string>)
      requires Inv() && y in cacheMap
      ensures var table := cacheMap[y].lunarDateCache;
        var ids := Abs().cacheMap[y].lunarDateCache;
        ids.Keys == table.Keys &&
        forall k :: k in table ==>
          ids[k] == table[k].id && Owned(table[k], arena) &&
          (Qualifies(Abs().records[ids[k]], year, names) <==> Qualifies(table[k].Value(), year, names))
    {
      assert CacheKnown(cacheMap[y], arena);
    }

    /** The name set `GetSolarTerms` builds from its arguments. */
    method NameSet(names: seq<string>) returns (nameSet: set<string>)
      ensures forall n :: n in nameSet <==> n in names
    {
      nameSet := {};
      var i := 0;
      while i < |names|
        invariant 0 <= i <= |names|
        invariant forall n :: n in nameSet <==> n in names[..i]
      {
        nameSet := nameSet + {names[i]};
        i := i + 1;
      }
      assert names[..i] == names;
    }

    /** One iteration of the loop of `getSolarTerms`: make sure the tables of `y` exist by
        looking up 1 January, then collect the qualifying records of its lunar table. */
    method TermsOfYear(y: int, year: int, names: seq<string>, nameSet: set<string>, files: FileSource, parse: TimeParser)
      returns (outcome: Outcome<seq<Result>>, ghost picked: seq<(int, Date)>, ghost opens: seq<int>)
      modifies this
      requires Inv() && SourceOk(files, y) && (forall n :: n in nameSet <==> n in names)
      ensures Inv() && Grown(old(arena))
      ensures var a := Queries.DateToLunarDate(old(Abs()), Date(y, 1, 1), files, parse);
        Abs() == a.st && opens == a.opens && (outcome.Err? <==> a.outcome.Err?) &&
        (outcome.Err? ==> outcome.error == a.outcome.error)
      ensures outcome.Ok? ==> Collected(Abs(), y, year, names, outcome.value, picked)
    {
      var r;
      r, opens := DateToLunarDate(Date(y, 1, 1), files, parse);
      if r.Err? {
        return Err(r.error), [], opens;
      }
      var results;
      results, picked := CollectTerms(y, year, names, nameSet);
      outcome := Ok(results);
    }

    /** Go's `Handler.GetSolarTerms`: the records of lunar year `year` that carry a solar term
        (one of `names`, when names are given), from the lunar tables of file-years `year` and
        `year + 1`; `picked` names the table entries they come from, in the order returned. */
    method GetSolarTerms(year: int, names: seq<string>, files: FileSource, parse: TimeParser)
      returns (outcome: Outcome<seq<Result>>, ghost picked: seq<(int, Date)>, ghost opens: seq<int>)
      modifies this
      requires Inv() && SourceOk(files, year) && SourceOk(files, year + 1)
      ensures Inv() && Grown(old(arena))
      ensures var a := Queries.SolarTerms(old(Abs()), year, names, files, parse);
        Abs() == a.st && opens == a.opens && (outcome.Err? <==> a.outcome.Err?) &&
        (outcome.Err? ==> outcome.error == a.outcome.error) &&
        (outcome.Ok? ==> Listed(Abs(), outcome.value, picked, a.outcome.value))
    {
      var nameSet := NameSet(names);
      ghost var st0 := Abs();
      var r1, p1, o1 := TermsOfYear(year, year, names, nameSet, files, parse);
      if r1.Err? {
        return Err(r1.error), [], o1;
      }
      ghost var st1 := Abs();
      ghost var a1 := arena;
      var r2, p2, o2 := TermsOfYear(year + 1, year, names, nameSet, files, parse);
      GrownTrans(old(arena), a1, arena);
      if r2.Err? {
        return Err(r2.error), [], o1 + o2;
      }
      ghost var st2 := Abs();
      SolarTermsSteps(st0, year, names, files, parse);
      LookupFrame(st1, Date(year + 1, 1, 1), files, parse);
      CollectedKept(st1, st2, year, year, names, r1.value, p1);
      CollectedJoin(st2, year, names, r1.value, p1, r2.value, p2);
      outcome, picked, opens := Ok(r1.value + r2.value), p1 + p2, o1 + o2;
    }
  }
}
