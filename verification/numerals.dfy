/** Decoding of the Chinese numerals in the lunar-day and weekday fields of the
    Hong Kong Observatory calendar files. */
module Numerals {

  /** The package's numeral table. The same table serves for lunar days and
      months and for the weekday character. */
  const LunarMap: map<char, int> := map[
    '天' := 0, '初' := 0, '正' := 1, '一' := 1, '二' := 2, '廿' := 2, '三' := 3,
    '四' := 4, '五' := 5, '六' := 6, '七' := 7, '八' := 8, '九' := 9, '十' := 10]

  const LeapMarker: char := '閏'
  const MonthMarker: char := '月'
  const NewYearMarker: char := '正'

  /** Table lookup; a character outside the table reads as Go's zero value. */
  function Digit(c: char): (n: int)
    ensures 0 <= n <= 10
    ensures c !in LunarMap ==> n == 0
  {
    if c in LunarMap then LunarMap[c] else 0
  }

  /** The lunar field without a leading leap-month marker. */
  function DropLeap(field: string): string
    requires |field| > 0
  {
    if field[0] == LeapMarker then field[1..] else field
  }

  /** A lunar field the decoder can index without running off either end:
      something must remain once the leap and month markers are removed. */
  predicate Decodable(field: string)
  {
    |field| > 0 &&
    var rs := DropLeap(field);
    |rs| > 0 && (rs[|rs| - 1] != MonthMarker || |rs| > 1)
  }

  /** Whether the field announces the first day of a month. */
  predicate IsMonthField(field: string)
    requires Decodable(field)
  {
    var rs := DropLeap(field);
    rs[|rs| - 1] == MonthMarker
  }

  /** The numeral characters proper: no leap marker, no month marker. */
  function Body(field: string): (rs: string)
    requires Decodable(field)
    ensures 0 < |rs| <= |field|
  {
    var rs := DropLeap(field);
    if rs[|rs| - 1] == MonthMarker then rs[..|rs| - 1] else rs
  }

  /** The decoded field: the number, whether it names a month, and whether its
      units character is the first-month character (a new lunar year). */
  datatype Numeral = Numeral(value: int, isMonth: bool, newYear: bool)

  /** The tens digit: a leading ten counts as one, and is lowered by one when
      the units character is itself ten (so that two-ten reads twenty). */
  function Tens(c: char, units: int): int
  {
    var t := Digit(c);
    var t1 := if t == 10 then 1 else t;
    if t1 != 0 && units == 10 then t1 - 1 else t1
  }

  function DecodeLunar(field: string): (n: Numeral)
    requires Decodable(field)
    ensures 0 <= n.value <= 99
    ensures n.isMonth == IsMonthField(field)
    ensures n.newYear <==> Body(field)[|Body(field)| - 1] == NewYearMarker
  {
    var rs := Body(field);
    var units := Digit(rs[|rs| - 1]);
    var tens := if |rs| > 1 then Tens(rs[0], units) else 0;
    Numeral(tens * 10 + units, IsMonthField(field), rs[|rs| - 1] == NewYearMarker)
  }

  /** The weekday index is the table value of the last character of the weekday text. */
  function WeekdayIndex(text: string): (w: int)
    requires |text| > 0
    ensures 0 <= w <= 10
  {
    Digit(text[|text| - 1])
  }

  /** The month the pending records belong to: the one before `month`, and 12 before month 1. */
  function PrevMonth(month: int): (p: int)
    ensures p != 0
    ensures 1 <= month <= 12 ==> 1 <= p <= 12 && (if p == 12 then month == 1 else month == p + 1)
  {
    if month - 1 == 0 then 12 else month - 1
  }

  // ---------------------------------------------------------------------
  // The spelling the calendar files use, as an independent reference.
  // ---------------------------------------------------------------------

  /** The numeral character of 1..10. */
  function DigitChar(k: int): (c: char)
    requires 1 <= k <= 10
    ensures Digit(c) == k && c != NewYearMarker && c != MonthMarker && c != LeapMarker
  {
    ['一', '二', '三', '四', '五', '六', '七', '八', '九', '十'][k - 1]
  }

  /** How the files write day `n` of a lunar month. */
  function DayName(n: int): string
    requires 1 <= n <= 30
  {
    if n <= 10 then ['初', DigitChar(n)]
    else if n < 20 then ['十', DigitChar(n - 10)]
    else if n == 20 then ['二', '十']
    else if n < 30 then ['廿', DigitChar(n - 20)]
    else ['三', '十']
  }

  /** How the files write the first day of month `m`. */
  function MonthName(m: int): string
    requires 1 <= m <= 12
  {
    if m == 1 then [NewYearMarker, MonthMarker]
    else if m <= 10 then [DigitChar(m), MonthMarker]
    else ['十', DigitChar(m - 10), MonthMarker]
  }

  /** How the files write weekday `i` (0 is Sunday). */
  function WeekdayName(i: int): string
    requires 0 <= i <= 6
  {
    ['星', '期'] + (if i == 0 then ['日'] else [DigitChar(i)])
  }

  lemma DayNameDecodes(n: int)
    requires 1 <= n <= 30
    ensures Decodable(DayName(n))
    ensures DecodeLunar(DayName(n)) == Numeral(n, false, false)
  {
    var s := DayName(n);
    assert DropLeap(s) == s && Body(s) == s;
    if n <= 10 {
      assert Digit(s[0]) == 0;
    } else if n < 20 {
      assert Digit(s[0]) == 10;
    } else if n == 20 {
      assert Digit(s[0]) == 2 && Digit(s[1]) == 10;
    } else if n < 30 {
      assert Digit(s[0]) == 2;
    } else {
      assert Digit(s[0]) == 3 && Digit(s[1]) == 10;
    }
  }

  lemma MonthNameDecodes(m: int)
    requires 1 <= m <= 12
    ensures Decodable(MonthName(m)) && Decodable([LeapMarker] + MonthName(m))
    ensures DecodeLunar(MonthName(m)) == Numeral(m, true, m == 1)
    ensures DecodeLunar([LeapMarker] + MonthName(m)) == Numeral(m, true, m == 1)
  {
    var s := MonthName(m);
    var l := [LeapMarker] + s;
    assert DropLeap(s) == s;
    assert DropLeap(l) == s;
    assert Body(s) == s[..|s| - 1] == Body(l);
    if m == 1 {
      assert Digit(NewYearMarker) == 1;
    } else if m > 10 {
      assert Digit(s[0]) == 10;
    }
  }

  lemma WeekdayNameDecodes(i: int)
    requires 0 <= i <= 6
    ensures WeekdayIndex(WeekdayName(i)) == i
  {
    if i == 0 {
      assert '日' !in LunarMap;
    }
  }

  /** A leading leap-month marker does not change the decoded value. */
  lemma LeapMarkerIgnored(field: string)
    requires Decodable(field) && field[0] != LeapMarker
    ensures Decodable([LeapMarker] + field)
    ensures DecodeLunar([LeapMarker] + field) == DecodeLunar(field)
  {
    assert DropLeap([LeapMarker] + field) == field == DropLeap(field);
  }

  /** A trailing month marker keeps the number and turns the field into a month start. */
  lemma MonthMarkerMakesMonth(field: string)
    requires Decodable(field) && !IsMonthField(field)
    ensures Decodable(field + [MonthMarker]) && IsMonthField(field + [MonthMarker])
    ensures DecodeLunar(field + [MonthMarker]) == DecodeLunar(field).(isMonth := true)
  {
    var m := field + [MonthMarker];
    assert m[0] == field[0];
    if field[0] == LeapMarker {
      assert DropLeap(m) == field[1..] + [MonthMarker];
    } else {
      assert DropLeap(m) == field + [MonthMarker];
    }
    assert DropLeap(m) == DropLeap(field) + [MonthMarker];
    assert Body(m) == DropLeap(field) == Body(field);
  }

  /** Worked values of the decoder on day fields. */
  lemma DecodeExamples()
    ensures DecodeLunar("廿三").value == 23
    ensures DecodeLunar("初一").value == 1
    ensures DecodeLunar("十").value == 10
    ensures DecodeLunar("初十").value == 10
    ensures DecodeLunar("三十").value == 30
    ensures DecodeLunar("十五").value == 15
  {
    DayNameDecodes(23);
    DayNameDecodes(1);
    DayNameDecodes(10);
    DayNameDecodes(30);
    DayNameDecodes(15);
    assert DayName(23) == "廿三" && DayName(1) == "初一" && DayName(10) == "初十";
    assert DayName(30) == "三十" && DayName(15) == "十五";
    assert DropLeap("十") == "十" && Body("十") == "十";
  }

  /** Worked values of the decoder on month fields: the first month starts a new lunar year,
      and a leap month decodes as the month it repeats. */
  lemma MonthExamples()
    ensures DecodeLunar("正月") == Numeral(1, true, true)
    ensures DecodeLunar("閏四月") == Numeral(4, true, false)
  {
    MonthNameDecodes(1);
    MonthNameDecodes(4);
    assert MonthName(1) == "正月" && [LeapMarker] + MonthName(4) == "閏四月";
  }
}
