/** Rows of the conflict-event table. A row read from the download is a
    mapping from column name to text; the connector later adds the integer
    columns `start_year` and `end_year` to the same row. */
module Rows {
  import opened Wrappers
  import opened Text

  /** A cell: text as read, or an integer the connector wrote back. */
  datatype Value = Str(s: string) | Int(i: int)

  type Row = map<string, Value>

  /** The text in column `key`, or `None` when the row has no text there.
      The rows of a download hold only text, so `None` stands for a missing
      column, which raises `KeyError` in the source. */
  function TextField(row: Row, key: string): (r: Option<string>)
    ensures r.Some? <==> key in row && row[key].Str?
    ensures r.Some? ==> row[key] == Str(r.value)
  {
    if key in row && row[key].Str? then Some(row[key].s) else None
  }

  /** Python's `'%s' % v` for a cell. */
  function Show(v: Value): (r: string)
    ensures v.Str? ==> r == v.s
    ensures v.Int? && v.i >= 0 ==> ParseInt(r) == Some(v.i)
  {
    match v
    case Str(s) => s
    case Int(i) =>
      if i >= 0 then ParseIntFormatNat(i); FormatInt(i) else FormatInt(i)
  }
}
