/** `populate_excel`: each fetched record becomes one row of the template's active
    sheet, starting at row 6, in nine fixed columns. The sheet is a map from cell
    coordinates to values; cells the map does not hold are empty. */
module Report {
  import opened Records
  import Options
  import Dates
  import Hours
  import Paths

  /** A cell value: text, or a number of hours kept as whole hundredths. */
  datatype Value = Str(text: string) | Hundredths(amount: int)

  /** A cell address such as `B6`: a column letter and a row number. */
  datatype Coord = Coord(column: char, row: int)

  type Sheet = map<Coord, Value>

  /** The first row below the template's five header rows. */
  const FirstDataRow: int := 6

  /** The fixed text of column J. */
  const StatusLabel: string := "Online_Complete"

  /** The nine columns a record fills; D, K and every column after L are never written. */
  const DataColumns: set<char> := {'B', 'C', 'E', 'F', 'G', 'H', 'I', 'J', 'L'}

  /** The cell of column `column` in the row of record `i`. */
  function DataCell(column: char, i: int): Coord
  {
    Coord(column, FirstDataRow + i)
  }

  /** Whether `c` is one of the cells the records of a list of `count` records go into. */
  predicate InDataBlock(c: Coord, count: int) {
    c.column in DataColumns && FirstDataRow <= c.row < FirstDataRow + count
  }

  /** The values one record contributes to its row, before they are placed. */
  datatype OutputRow = OutputRow(
    email: string,
    reportDate: string,
    category: string,
    title: string,
    enrolled: string,
    completed: string,
    status: string,
    hours: int
  )

  /** The values the loop computes for a record: the text fields as they are, today's
      date and the two record dates as `MM/DD/YYYY`, the fixed status and the hours.
      What the computed values mean is stated by the contracts of `Dates.UsText`,
      `Dates.FormatDate` and `Hours.MinutesToHours`. */
  function BuildRow(r: ActivityRecord, today: Dates.CalendarDate): (o: OutputRow)
  {
    OutputRow(
      r.userEmail,
      Dates.UsText(today),
      r.courseCategory,
      r.courseTitle,
      Dates.FormatDate(r.courseEnrollDate),
      Dates.FormatDate(r.courseFirstCompletionDate),
      StatusLabel,
      Hours.MinutesToHours(r.numVideoConsumedMinutes))
  }

  /** Which value of a row each data column holds; the category goes into both E and F. */
  function CellOf(o: OutputRow, column: char): Value
    requires column in DataColumns
  {
    if column == 'B' then Str(o.email)
    else if column == 'C' then Str(o.reportDate)
    else if column == 'E' || column == 'F' then Str(o.category)
    else if column == 'G' then Str(o.title)
    else if column == 'H' then Str(o.enrolled)
    else if column == 'I' then Str(o.completed)
    else if column == 'J' then Str(o.status)
    else Hundredths(o.hours)
  }

  /** The nine cells of a row, column by column. */
  function RowCells(row: int, o: OutputRow): map<Coord, Value>
  {
    map column | column in DataColumns :: Coord(column, row) := CellOf(o, column)
  }

  /** The body of the loop: nine assignments `ws[f'X{row}'] = ...` in the order the
      script makes them. Together they lay the record's row over the sheet. */
  function WriteRow(ws: Sheet, row: int, o: OutputRow): (out: Sheet)
    ensures out == ws + RowCells(row, o)
  {
    var out := ws[Coord('B', row) := Str(o.email)]
      [Coord('C', row) := Str(o.reportDate)]
      [Coord('E', row) := Str(o.category)]
      [Coord('F', row) := Str(o.category)]
      [Coord('G', row) := Str(o.title)]
      [Coord('H', row) := Str(o.enrolled)]
      [Coord('I', row) := Str(o.completed)]
      [Coord('J', row) := Str(o.status)]
      [Coord('L', row) := Hundredths(o.hours)];
    assert out.Keys == (ws + RowCells(row, o)).Keys;
    out
  }

  /** Writing a row changes exactly the nine cells of that row. */
  lemma WriteRowFrame(ws: Sheet, row: int, o: OutputRow, c: Coord)
    ensures c in WriteRow(ws, row, o) <==> c in ws || (c.row == row && c.column in DataColumns)
    ensures c.row == row && c.column in DataColumns ==> WriteRow(ws, row, o)[c] == CellOf(o, c.column)
    ensures c in ws && !(c.row == row && c.column in DataColumns) ==> WriteRow(ws, row, o)[c] == ws[c]
  {
    var cells := RowCells(row, o);
    if c.row == row && c.column in DataColumns {
      assert c == Coord(c.column, row);
      assert c in cells;
    }
  }

  /** The rows the loop computes for `records`, one per record, in order. */
  function BuildRows(records: seq<ActivityRecord>, today: Dates.CalendarDate): (rows: seq<OutputRow>)
    ensures |rows| == |records|
  {
    if records == [] then []
    else [BuildRow(records[0], today)] + BuildRows(records[1..], today)
  }

  /** Row `i` is built from record `i`. */
  lemma {:induction false} BuildRowsAt(records: seq<ActivityRecord>, today: Dates.CalendarDate, i: int)
    requires 0 <= i < |records|
    ensures BuildRows(records, today)[i] == BuildRow(records[i], today)
    decreases i
  {
    if i > 0 {
      BuildRowsAt(records[1..], today, i - 1);
    }
  }

  /** `ws` is `template` with `rows` placed: row `i` fills the data columns of sheet row
      `6 + i`, no other cell is added, and every other cell keeps its template value. */
  ghost predicate Placed(template: Sheet, ws: Sheet, rows: seq<OutputRow>) {
    && (forall c :: c in ws <==> c in template || InDataBlock(c, |rows|))
    && (forall c :: c in ws && InDataBlock(c, |rows|) ==> ws[c] == CellOf(rows[c.row - FirstDataRow], c.column))
    && (forall c :: c in template && !InDataBlock(c, |rows|) ==> ws[c] == template[c])
  }

  /** Writing one more row just below the block extends the placement by that row. */
  lemma PlacedExtend(template: Sheet, ws: Sheet, rows: seq<OutputRow>, o: OutputRow)
    requires Placed(template, ws, rows)
    ensures Placed(template, WriteRow(ws, FirstDataRow + |rows|, o), rows + [o])
  {
    ExtendDomain(template, ws, rows, o);
    ExtendBlock(template, ws, rows, o);
    ExtendFrame(template, ws, rows, o);
  }

  lemma ExtendDomain(template: Sheet, ws: Sheet, rows: seq<OutputRow>, o: OutputRow)
    requires Placed(template, ws, rows)
    ensures var out := WriteRow(ws, FirstDataRow + |rows|, o);
      forall c :: c in out <==> c in template || InDataBlock(c, |rows| + 1)
  {
    var out := WriteRow(ws, FirstDataRow + |rows|, o);
    forall c
      ensures c in out <==> c in template || InDataBlock(c, |rows| + 1)
    {
      WriteRowFrame(ws, FirstDataRow + |rows|, o, c);
    }
  }

  lemma ExtendBlock(template: Sheet, ws: Sheet, rows: seq<OutputRow>, o: OutputRow)
    requires Placed(template, ws, rows)
    ensures var out := WriteRow(ws, FirstDataRow + |rows|, o);
      forall c :: c in out && InDataBlock(c, |rows| + 1) ==> out[c] == CellOf((rows + [o])[c.row - FirstDataRow], c.column)
  {
    var row := FirstDataRow + |rows|;
    var out := WriteRow(ws, row, o);
    var rs := rows + [o];
    forall c | c in out && InDataBlock(c, |rs|)
      ensures out[c] == CellOf(rs[c.row - FirstDataRow], c.column)
    {
      WriteRowFrame(ws, row, o, c);
      if c.row < row {
        assert rs[c.row - FirstDataRow] == rows[c.row - FirstDataRow];
      }
    }
  }

  lemma ExtendFrame(template: Sheet, ws: Sheet, rows: seq<OutputRow>, o: OutputRow)
    requires Placed(template, ws, rows)
    ensures var out := WriteRow(ws, FirstDataRow + |rows|, o);
      forall c :: c in template && !InDataBlock(c, |rows| + 1) ==> c in out && out[c] == template[c]
  {
    var out := WriteRow(ws, FirstDataRow + |rows|, o);
    forall c | c in template && !InDataBlock(c, |rows| + 1)
      ensures c in out && out[c] == template[c]
    {
      WriteRowFrame(ws, FirstDataRow + |rows|, o, c);
    }
  }

  /** Writing the last of `rows` below the others extends their placement to all of
      `rows`. */
  lemma PopulateStep(template: Sheet, before: Sheet, rows: seq<OutputRow>)
    requires |rows| > 0 && Placed(template, before, rows[..|rows| - 1])
    ensures Placed(template, WriteRow(before, FirstDataRow + |rows| - 1, rows[|rows| - 1]), rows)
  {
    var n := |rows| - 1;
    PlacedExtend(template, before, rows[..n], rows[n]);
    assert rows[..n] + [rows[n]] == rows;
  }

  /** The loop as a function: the rows written one after another from row 6. */
  function Populate(template: Sheet, rows: seq<OutputRow>): (ws: Sheet)
    ensures Placed(template, ws, rows)
    decreases |rows|
  {
    if rows == [] then template
    else
      var n := |rows| - 1;
      var before := Populate(template, rows[..n]);
      PopulateStep(template, before, rows);
      WriteRow(before, FirstDataRow + n, rows[n])
  }

  /** Building the rows of one more record appends that record's row. */
  lemma {:induction false} BuildRowsSnoc(records: seq<ActivityRecord>, r: ActivityRecord, today: Dates.CalendarDate)
    ensures BuildRows(records + [r], today) == BuildRows(records, today) + [BuildRow(r, today)]
  {
    if records != [] {
      assert (records + [r])[1..] == records[1..] + [r];
      BuildRowsSnoc(records[1..], r, today);
    }
  }

  /** One turn of the loop: writing record `i` at row `6 + i` extends the placement of
      the records before it to the records up to it. */
  lemma PopulateNext(template: Sheet, ws: Sheet, results: seq<ActivityRecord>, today: Dates.CalendarDate, i: int)
    requires 0 <= i < |results| && Placed(template, ws, BuildRows(results[..i], today))
    ensures Placed(template, WriteRow(ws, FirstDataRow + i, BuildRow(results[i], today)), BuildRows(results[..i + 1], today))
  {
    var rows := BuildRows(results[..i + 1], today);
    assert results[..i + 1] == results[..i] + [results[i]];
    BuildRowsSnoc(results[..i], results[i], today);
    assert rows[..i] == BuildRows(results[..i], today);
    PopulateStep(template, ws, rows);
  }

  /** `populate_excel(data, excel_file)` once the workbook is loaded: walks the records
      with a row counter that starts at 6 and grows by one per record, and returns the
      filled sheet and the name it is saved under. */
  method PopulateExcel(template: Sheet, results: seq<ActivityRecord>, today: Dates.CalendarDate, excelFile: string)
    returns (ws: Sheet, outputFile: string)
    ensures Placed(template, ws, BuildRows(results, today))
    ensures outputFile == Paths.OutputName(excelFile)
  {
    ws := template;
    var row := FirstDataRow;
    var i := 0;
    while i < |results|
      invariant 0 <= i <= |results|
      invariant row == FirstDataRow + i
      invariant Placed(template, ws, BuildRows(results[..i], today))
    {
      var o := BuildRow(results[i], today);
      PopulateNext(template, ws, results, today, i);
      ws := WriteRow(ws, row, o);
      row := row + 1;
      i := i + 1;
    }
    assert results[..i] == results;
    outputFile := Paths.OutputName(excelFile);
  }

  /** A placement is determined by the template and the rows: the loop and the
      function produce the same sheet. */
  lemma PlacedIsUnique(template: Sheet, a: Sheet, b: Sheet, rows: seq<OutputRow>)
    requires Placed(template, a, rows) && Placed(template, b, rows)
    ensures a == b
  {
    assert a.Keys == b.Keys;
    forall c | c in a
      ensures a[c] == b[c]
    {
      if !InDataBlock(c, |rows|) {
        assert c in template;
      }
    }
  }

  /** Row `6 + i` holds record `i`'s text fields: the email in B, the category in both
      E and F, the title in G, and the fixed status in J. */
  lemma RowTextCells(template: Sheet, ws: Sheet, records: seq<ActivityRecord>, today: Dates.CalendarDate, i: int)
    requires Placed(template, ws, BuildRows(records, today))
    requires 0 <= i < |records|
    ensures DataCell('B', i) in ws && ws[DataCell('B', i)] == Str(records[i].userEmail)
    ensures DataCell('E', i) in ws && DataCell('F', i) in ws
    ensures ws[DataCell('E', i)] == ws[DataCell('F', i)] == Str(records[i].courseCategory)
    ensures DataCell('G', i) in ws && ws[DataCell('G', i)] == Str(records[i].courseTitle)
    ensures DataCell('J', i) in ws && ws[DataCell('J', i)] == Str(StatusLabel)
  {
    var rows := BuildRows(records, today);
    BuildRowsAt(records, today, i);
    CellInBlock(template, ws, rows, i, 'B');
    CellInBlock(template, ws, rows, i, 'E');
    CellInBlock(template, ws, rows, i, 'F');
    CellInBlock(template, ws, rows, i, 'G');
    CellInBlock(template, ws, rows, i, 'J');
  }

  /** Every row of the block has all nine data cells. */
  lemma RowComplete(template: Sheet, ws: Sheet, rows: seq<OutputRow>, i: int)
    requires Placed(template, ws, rows) && 0 <= i < |rows|
    ensures forall col :: col in DataColumns ==> DataCell(col, i) in ws
  {
    forall col | col in DataColumns
      ensures DataCell(col, i) in ws
    {
      assert InDataBlock(DataCell(col, i), |rows|);
    }
  }

  /** Row `6 + i` holds the dates: today's in C, and record `i`'s enrolment and first
      completion dates in H and I, each through `format_date`. */
  lemma RowDateCells(template: Sheet, ws: Sheet, records: seq<ActivityRecord>, today: Dates.CalendarDate, i: int)
    requires Placed(template, ws, BuildRows(records, today))
    requires 0 <= i < |records|
    ensures DataCell('C', i) in ws && ws[DataCell('C', i)] == Str(Dates.UsText(today))
    ensures DataCell('H', i) in ws && ws[DataCell('H', i)] == Str(Dates.FormatDate(records[i].courseEnrollDate))
    ensures DataCell('I', i) in ws && ws[DataCell('I', i)] == Str(Dates.FormatDate(records[i].courseFirstCompletionDate))
  {
    var rows := BuildRows(records, today);
    BuildRowsAt(records, today, i);
    CellInBlock(template, ws, rows, i, 'C');
    CellInBlock(template, ws, rows, i, 'H');
    CellInBlock(template, ws, rows, i, 'I');
  }

  /** Row `6 + i` holds record `i`'s video time in hours in L. */
  lemma RowHoursCell(template: Sheet, ws: Sheet, records: seq<ActivityRecord>, today: Dates.CalendarDate, i: int)
    requires Placed(template, ws, BuildRows(records, today))
    requires 0 <= i < |records|
    ensures DataCell('L', i) in ws
    ensures ws[DataCell('L', i)] == Hundredths(Hours.MinutesToHours(records[i].numVideoConsumedMinutes))
  {
    var rows := BuildRows(records, today);
    BuildRowsAt(records, today, i);
    CellInBlock(template, ws, rows, i, 'L');
  }

  /** The cell of a data column in the row of entry `i` holds that entry's value. */
  lemma CellInBlock(template: Sheet, ws: Sheet, rows: seq<OutputRow>, i: int, column: char)
    requires Placed(template, ws, rows)
    requires 0 <= i < |rows| && column in DataColumns
    ensures DataCell(column, i) in ws && ws[DataCell(column, i)] == CellOf(rows[i], column)
  {
    assert InDataBlock(DataCell(column, i), |rows|);
  }

  /** Nothing outside rows `6 .. 5 + N` of the nine data columns changes: the header
      rows, the rows after the last record and the other columns keep their cells, and
      no cell appears there. */
  lemma OutsideBlockUnchanged(template: Sheet, ws: Sheet, rows: seq<OutputRow>, c: Coord)
    requires Placed(template, ws, rows)
    requires c.row < FirstDataRow || c.row >= FirstDataRow + |rows| || c.column !in DataColumns
    ensures c in ws <==> c in template
    ensures c in template ==> ws[c] == template[c]
  {
  }

  /** The status column of the block is the fixed label in every written row, and
      column E equals column F. */
  lemma ConstantAndDuplicatedColumns(template: Sheet, ws: Sheet, records: seq<ActivityRecord>, today: Dates.CalendarDate, row: int)
    requires Placed(template, ws, BuildRows(records, today))
    requires FirstDataRow <= row < FirstDataRow + |records|
    ensures Coord('J', row) in ws && ws[Coord('J', row)] == Str(StatusLabel)
    ensures Coord('E', row) in ws && Coord('F', row) in ws && ws[Coord('E', row)] == ws[Coord('F', row)]
  {
    RowTextCells(template, ws, records, today, row - FirstDataRow);
  }

  /** The text of column `column` in rows `6 .. 5 + n`, top to bottom. */
  function ColumnText(ws: Sheet, column: char, n: nat): (texts: seq<string>)
    requires forall i :: 0 <= i < n ==> DataCell(column, i) in ws && ws[DataCell(column, i)].Str?
    ensures |texts| == n
  {
    seq(n, i requires 0 <= i < n => ws[DataCell(column, i)].text)
  }

  /** Reading column B from row 6 down gives the records' emails in input order:
      the rows are contiguous and keep the order of the response. */
  lemma EmailsInInputOrder(template: Sheet, ws: Sheet, records: seq<ActivityRecord>, today: Dates.CalendarDate)
    requires Placed(template, ws, BuildRows(records, today))
    ensures forall i :: 0 <= i < |records| ==> DataCell('B', i) in ws && ws[DataCell('B', i)].Str?
    ensures ColumnText(ws, 'B', |records|) == seq(|records|, i requires 0 <= i < |records| => records[i].userEmail)
  {
    forall i | 0 <= i < |records|
      ensures DataCell('B', i) in ws && ws[DataCell('B', i)] == Str(records[i].userEmail)
    {
      RowTextCells(template, ws, records, today, i);
    }
  }

  /** One record `a@b.com`, `Tech`, `Intro`, enrolled `2024-01-15T00:00:00Z`, never
      completed, 90 minutes of video: row 6 reads today's date in C, `01/15/2024` in H,
      nothing in I, the status in J and 1.5 hours in L. */
  lemma SingleRecordExample(template: Sheet, today: Dates.CalendarDate)
    ensures var rec := ActivityRecord("a@b.com", "Tech", "Intro", Text("2024-01-15T00:00:00Z"), Null, Options.Some(90));
      var ws := Populate(template, BuildRows([rec], today));
      && Coord('B', 6) in ws && ws[Coord('B', 6)] == Str("a@b.com")
      && Coord('C', 6) in ws && ws[Coord('C', 6)] == Str(Dates.UsText(today))
      && Coord('E', 6) in ws && ws[Coord('E', 6)] == Str("Tech")
      && Coord('F', 6) in ws && ws[Coord('F', 6)] == Str("Tech")
      && Coord('G', 6) in ws && ws[Coord('G', 6)] == Str("Intro")
      && Coord('H', 6) in ws && ws[Coord('H', 6)] == Str("01/15/2024")
      && Coord('I', 6) in ws && ws[Coord('I', 6)] == Str("")
      && Coord('J', 6) in ws && ws[Coord('J', 6)] == Str("Online_Complete")
      && Coord('L', 6) in ws && ws[Coord('L', 6)] == Hundredths(150)
  {
    var rec := ActivityRecord("a@b.com", "Tech", "Intro", Text("2024-01-15T00:00:00Z"), Null, Options.Some(90));
    var ws := Populate(template, BuildRows([rec], today));
    RowTextCells(template, ws, [rec], today, 0);
    RowDateCells(template, ws, [rec], today, 0);
    RowHoursCell(template, ws, [rec], today, 0);
    Dates.DateTimeExample("2024-01-15T00:00:00Z");
    Hours.WorkedExamples();
  }
}
