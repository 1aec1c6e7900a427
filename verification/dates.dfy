/** Calendar dates, the error taxonomy and the per-file date layout of the lunar package. */
module Dates {

  datatype Option<T> = None | Some(value: T)

  /** The three ways a lookup fails: no such date, the calendar file could not be
      opened, or a line's solar date did not match the file's layout. */
  datatype Error = NotFound | IOError | FormatError

  datatype Outcome<T> = Ok(value: T) | Err(error: Error)

  /** A solar (Gregorian) or lunar date, three plain integers as in Go's `Date`. */
  datatype Date = Date(year: int, month: int, day: int)
  {
    /** A date is usable only when no field holds the zero sentinel. */
    predicate Valid(): (b: bool)
      ensures b <==> 0 !in {year, month, day}
    {
      year != 0 && month != 0 && day != 0
    }

    /** Go's `Equal` compares the whole struct. */
    function Equal(other: Date): (r: bool)
      ensures r <==> year == other.year && month == other.month && day == other.day
    {
      this == other
    }
  }

  /** Go reference layouts: files up to 2010 write zero-padded months and days. */
  const ZeroPaddedLayout: string := "2006年01月02日"
  const PlainLayout: string := "2006年1月2日"

  /** The layout `time.Parse` is given for the solar-date field of a file-year. */
  function FileDateFormat(year: int): (layout: string)
    ensures layout == ZeroPaddedLayout || layout == PlainLayout
    ensures layout == ZeroPaddedLayout <==> year <= 2010
  {
    if year <= 2010 then ZeroPaddedLayout else PlainLayout
  }
}
