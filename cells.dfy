/** The loosely typed cell values a spreadsheet row delivers, and Python's `str()` of them. */
module Cells {
  import opened Wrappers
  import opened Strings
  import opened Calendar

  /**
   * One cell. `Empty` is openpyxl's `None` (and pandas' NaN/NaT in the earlier
   * variant); `Number` stands for every other scalar (int, float, bool, ...) and
   * carries the text Python's `str()` gives it; `Stamp` is a `datetime`, naive
   * when `zone` is `None`.
   */
  datatype Cell =
    | Empty
    | Text(s: string)
    | Number(shown: string)
    | Stamp(time: DateTime, zone: Option<Offset>)

  /** The `+HH:MM` / `-HH:MM` suffix `str()` gives an aware `datetime`. */
  function OffsetText(o: Offset): string {
    var a := if o < 0 then -o else o;
    (if o < 0 then "-" else "+") + Pad(a / 60, 2) + ":" + Pad(a % 60, 2)
  }

  /** `str(datetime)`: `YYYY-MM-DD HH:MM:SS`, then the offset when there is one. */
  function DateTimeText(t: DateTime, zone: Option<Offset>): string {
    Pad(t.date.year, 4) + "-" + Pad(t.date.month, 2) + "-" + Pad(t.date.day, 2) + " "
      + Pad(t.hour, 2) + ":" + Pad(t.minute, 2) + ":" + Pad(t.second, 2)
      + (match zone case None => "" case Some(o) => OffsetText(o))
  }

  /** Python's `str()` of a cell value (`str(None)` is `"None"`). */
  function Str(c: Cell): string {
    match c
    case Empty => "None"
    case Text(s) => s
    case Number(shown) => shown
    case Stamp(t, zone) => DateTimeText(t, zone)
  }
}
