/** `process_year` (ucdp.py lines 79-85), the year function handed to the
    resource generator: it reads the year of an event's start and end dates
    from the first four characters of `date_start` and `date_end`, records
    both in the running set of years, and writes them back onto the row. */
module Years {
  import opened Wrappers
  import opened Text
  import opened Rows
  import Seqs

  /** The exceptions `process_year` can raise, with the column involved:
      the column is missing, holds a number instead of text, or its first
      four characters are not an integer. */
  datatype YearError = KeyError(column: string) | TypeError(column: string) | ValueError(column: string)

  /** The set of years and the row after one call. */
  datatype YearUpdate = YearUpdate(years: set<int>, row: Row)

  /** `int(row[column][:4])`. A failure names the column read, and a year
      read from four characters has at most four digits, or three after a
      minus sign. */
  function YearOf(row: Row, column: string): (r: Result<int, YearError>)
    ensures r.Failure? ==> r.error.column == column
    ensures r.Success? ==> -999 <= r.value <= 9999
  {
    if column !in row then Failure(KeyError(column))
    else match row[column]
      case Int(_) => Failure(TypeError(column))
      case Str(text) =>
        ParseIntFourChars(Prefix(text, 4));
        match ParseInt(Prefix(text, 4))
        case None => Failure(ValueError(column))
        case Some(y) => Success(y)
  }

  /** `row['start_year'] = start; row['end_year'] = end`: the row gains the
      two year columns and keeps every other column. */
  function WriteYears(row: Row, start: int, end: int): (r: Row)
    ensures r.Keys == row.Keys + {"start_year", "end_year"}
    ensures r["start_year"] == Int(start) && r["end_year"] == Int(end)
    ensures forall k :: k in row && k != "start_year" && k != "end_year" ==> r[k] == row[k]
  {
    row["start_year" := Int(start)]["end_year" := Int(end)]
  }

  /** One call of `process_year(years, row)`. Both dates are read before
      anything is written, so a failing call changes neither the set nor
      the row. */
  function ProcessYear(years: set<int>, row: Row): (r: Result<YearUpdate, YearError>)
    ensures r.Success? <==> YearOf(row, "date_start").Success? && YearOf(row, "date_end").Success?
    ensures YearOf(row, "date_start").Failure? ==> r == Failure(YearOf(row, "date_start").error)
    ensures YearOf(row, "date_start").Success? && YearOf(row, "date_end").Failure? ==>
              r == Failure(YearOf(row, "date_end").error)
    ensures r.Success? ==>
              var start := YearOf(row, "date_start").value;
              var end := YearOf(row, "date_end").value;
              && years <= r.value.years
              && r.value.years - years <= {start, end}
              && start in r.value.years && end in r.value.years
              && r.value.row.Keys == row.Keys + {"start_year", "end_year"}
              && r.value.row["start_year"] == Int(start)
              && r.value.row["end_year"] == Int(end)
              && (forall k :: k in row && k != "start_year" && k != "end_year" ==> r.value.row[k] == row[k])
  {
    match YearOf(row, "date_start")
    case Failure(e) => Failure(e)
    case Success(start) =>
      match YearOf(row, "date_end")
      case Failure(e) => Failure(e)
      case Success(end) => Success(YearUpdate(years + {start, end}, WriteYears(row, start, end)))
  }

  // ---------------------------------------------------------------------
  // The pass over a country's rows

  /** The rows after `process_year` has run on each of them, in order, and
      the years collected on the way. */
  datatype Pass = Pass(years: set<int>, rows: seq<Row>)

  /** The year of the start date, and of the end date. */
  function StartYear(row: Row): Result<int, YearError> {
    YearOf(row, "date_start")
  }

  function EndYear(row: Row): Result<int, YearError> {
    YearOf(row, "date_end")
  }

  /** Both dates of the row give a year, so `process_year` returns. */
  predicate Dated(row: Row) {
    StartYear(row).Success? && EndYear(row).Success?
  }

  predicate AllDated(rows: seq<Row>) {
    Seqs.All(rows, Dated)
  }

  /** The row as `process_year` leaves it: with its two years written
      when both dates can be read, untouched otherwise. */
  function Stamped(row: Row): Row {
    match (YearOf(row, "date_start"), YearOf(row, "date_end"))
    case (Success(start), Success(end)) => WriteYears(row, start, end)
    case _ => row
  }

  /** `process_year` applied to each row in turn, as the resource generator
      does while it writes the file. The first row whose date cannot be read
      ends the pass with that row's exception; otherwise every row gains its
      two year columns and the set gains every start and end year. */
  function ProcessRows(years: set<int>, rows: seq<Row>): (r: Result<Pass, YearError>)
    ensures r.Success? <==> AllDated(rows)
    ensures r.Success? ==>
              && r.value.years == years + Seqs.Values(rows, StartYear) + Seqs.Values(rows, EndYear)
              && |r.value.rows| == |rows|
              && (forall i :: 0 <= i < |rows| ==> r.value.rows[i] == Stamped(rows[i]))
  {
    if |rows| == 0 then Success(Pass(years, []))
    else
      var init, last := rows[..|rows| - 1], rows[|rows| - 1];
      Seqs.AllSnoc(rows, Dated);
      match ProcessRows(years, init)
      case Failure(e) => Failure(e)
      case Success(pass) =>
        match ProcessYear(pass.years, last)
        case Failure(e) => Failure(e)
        case Success(u) =>
          ProcessRowsYears(years, rows, pass.years, u.years);
          Seqs.MapSnoc(rows, pass.rows, u.row, Stamped);
          Success(Pass(u.years, pass.rows + [u.row]))
  }

  /** One more row: the years collected over the prefix, plus the two years
      of the last row, are the years of all the rows. */
  lemma ProcessRowsYears(years: set<int>, rows: seq<Row>, before: set<int>, after: set<int>)
    requires |rows| > 0
    requires var init := rows[..|rows| - 1];
             before == years + Seqs.Values(init, StartYear) + Seqs.Values(init, EndYear)
    requires ProcessYear(before, rows[|rows| - 1]).Success?
    requires ProcessYear(before, rows[|rows| - 1]).value.years == after
    ensures after == years + Seqs.Values(rows, StartYear) + Seqs.Values(rows, EndYear)
  {
    var last := rows[|rows| - 1];
    Seqs.ValuesSnoc(rows, StartYear);
    Seqs.ValuesSnoc(rows, EndYear);
    assert after == before + {StartYear(last).value, EndYear(last).value};
  }

  /** A single dated row: the pass records its two years and writes them
      onto it. */
  lemma ProcessRowsSingle(years: set<int>, row: Row)
    requires Dated(row)
    ensures ProcessRows(years, [row])
            == Success(Pass(years + {StartYear(row).value, EndYear(row).value}, [Stamped(row)]))
  {
    assert Seqs.All([row], Dated);
    assert [row][..0] == [];
    Seqs.ValuesSnoc([row], StartYear);
    Seqs.ValuesSnoc([row], EndYear);
    Seqs.ValuesEmpty(StartYear);
    Seqs.ValuesEmpty(EndYear);
    assert ProcessRows(years, [row]).value.rows == [Stamped(row)];
  }

  /** The pass raises the exception of the first row whose dates cannot be
      read, whatever follows it. */
  lemma {:induction false} ProcessRowsFailsAtFirst(years: set<int>, rows: seq<Row>, k: nat)
    requires k < |rows| && AllDated(rows[..k]) && !Dated(rows[k])
    ensures ProcessRows(years, rows) == Failure(ProcessYear(years, rows[k]).error)
  {
    if k < |rows| - 1 {
      var init := rows[..|rows| - 1];
      assert init[..k] == rows[..k] && init[k] == rows[k];
      ProcessRowsFailsAtFirst(years, init, k);
    } else {
      assert rows[..|rows| - 1] == rows[..k];
    }
  }

  /** For dates that begin with a four-digit year, as UCDP's ISO dates
      `YYYY-MM-DD` do, the recorded years are exactly those two years. */
  lemma ProcessYearIsoDates(years: set<int>, row: Row, y1: nat, rest1: string, y2: nat, rest2: string)
    requires 1000 <= y1 <= 9999 && 1000 <= y2 <= 9999
    requires "date_start" in row && row["date_start"] == Str(FormatNat(y1) + rest1)
    requires "date_end" in row && row["date_end"] == Str(FormatNat(y2) + rest2)
    ensures ProcessYear(years, row).Success?
    ensures ProcessYear(years, row).value.years == years + {y1, y2}
    ensures ProcessYear(years, row).value.row["start_year"] == Int(y1)
    ensures ProcessYear(years, row).value.row["end_year"] == Int(y2)
  {
    YearPrefix(y1, rest1);
    YearPrefix(y2, rest2);
  }

  lemma YearPrefix(y: nat, rest: string)
    requires 1000 <= y <= 9999
    ensures Prefix(FormatNat(y) + rest, 4) == FormatNat(y)
    ensures ParseInt(Prefix(FormatNat(y) + rest, 4)) == Some(y)
  {
    FormatNatFourDigits(y);
    assert (FormatNat(y) + rest)[..4] == FormatNat(y);
    ParseIntFormatNat(y);
  }

  /** A start or end date whose first four characters hold anything other
      than digits, a sign, an underscore or the whitespace `int()` ignores
      (an ASCII separator such as `\x1c` is not) makes the call raise
      `ValueError` for that column. */
  lemma ProcessYearRejectsNonNumeric(years: set<int>, row: Row, column: string, k: nat)
    requires column == "date_start" || column == "date_end"
    requires column in row && row[column].Str?
    requires k < 4 && k < |row[column].s| && Foreign(row[column].s[k])
    requires column == "date_end" ==> YearOf(row, "date_start").Success?
    ensures ProcessYear(years, row) == Failure(ValueError(column))
  {
    var p := Prefix(row[column].s, 4);
    assert p[k] == row[column].s[k];
    ParseIntRejectsForeign(p, k);
  }

  /** Running `process_year` again on a row it has already processed
      changes nothing: the dates still give the same years. */
  lemma ProcessYearIdempotent(years: set<int>, row: Row)
    requires ProcessYear(years, row).Success?
    ensures var u := ProcessYear(years, row).value;
            ProcessYear(u.years, u.row) == Success(u)
  {
    var u := ProcessYear(years, row).value;
    var start := YearOf(row, "date_start").value;
    var end := YearOf(row, "date_end").value;
    YearOfSameCell(row, u.row, "date_start");
    YearOfSameCell(row, u.row, "date_end");
    WriteYearsAgain(u.row, start, end);
    assert u.years + {start, end} == u.years;
  }

  /** The year read from a column depends on that column's cell alone. */
  lemma YearOfSameCell(a: Row, b: Row, column: string)
    requires column in a <==> column in b
    requires column in a ==> a[column] == b[column]
    ensures YearOf(a, column) == YearOf(b, column)
  {
  }

  /** Writing the years a row already holds leaves it as it is. */
  lemma WriteYearsAgain(row: Row, start: int, end: int)
    requires "start_year" in row && row["start_year"] == Int(start)
    requires "end_year" in row && row["end_year"] == Int(end)
    ensures WriteYears(row, start, end) == row
  {
  }
}
