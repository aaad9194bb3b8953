/**
 * The "Update data" action of the CSV visualizer (lab6): one line of
 * comma-separated text is checked field by field and, if every check
 * passes, appended as a new row of the loaded table.
 *
 * The line is cut with a plain split on commas: there is no quoting, so a
 * field can never hold a comma. The table is the five columns Date,
 * Category, Value1, Value2 and BooleanFlag; Value2 keeps the text `float()`
 * read, since floating-point values are not modelled.
 */
module Visualizer {
  import opened Wrappers
  import opened PyText
  import opened PyNum

  datatype Row = Row(date: string, category: string, value1: int, value2: string, flag: bool)

  const NotLoadedStatus := "Data is not loaded"
  const NotLoadedMsg := "Load CSV data before updating data"
  const InputFormatMsg := "Input data in CSV format"
  const Value1Msg := "Value1 should be an integer number"
  const Value2Msg := "Value2 should be a float number"
  const FlagMsg := "BooleanFlag should be 'True' or 'False'"
  const AddedMsg := "New values added successfully"

  /** An input line holds the five fields of a row. */
  const FieldCount := 5

  /** The checks of `update_data` on the input line, in the order the method
      runs them; the first that fails gives the status message. */
  function ValidateRow(input: string): (r: Result<Row, string>)
    ensures r.Failure? ==> r.error in {InputFormatMsg, Value1Msg, Value2Msg, FlagMsg}
    ensures Strip(input) == [] ==> r == Failure(InputFormatMsg)
    ensures |Split(Strip(input), ',')| != FieldCount ==> r == Failure(InputFormatMsg)
    ensures r.Success? ==> Count(Strip(input), ',') == FieldCount - 1
  {
    var line := Strip(input);
    if line == [] then Failure(InputFormatMsg) else ValidateFields(Split(line, ','))
  }

  /** The checks that follow the split: the field count, Value1 an integer,
      Value2 a float, the flag exactly `True` or `False`. */
  function ValidateFields(fields: seq<string>): (r: Result<Row, string>)
    ensures r.Failure? ==> r.error in {InputFormatMsg, Value1Msg, Value2Msg, FlagMsg}
    ensures |fields| != FieldCount ==> r == Failure(InputFormatMsg)
    ensures |fields| == FieldCount && r.Failure? ==> r.error in {Value1Msg, Value2Msg, FlagMsg}
  {
    if |fields| != FieldCount then Failure(InputFormatMsg)
    else if ParseInt(fields[2]).None? then Failure(Value1Msg)
    else if !IsFloatText(fields[3]) then Failure(Value2Msg)
    else if !IsFlagText(fields[4]) then Failure(FlagMsg)
    else Success(MakeRow(fields))
  }

  /** The flag, once stripped, must be exactly `True` or `False`: letter case matters. */
  predicate IsFlagText(field: string)
  {
    Strip(field) == "True" || Strip(field) == "False"
  }

  /** The row built from five checked fields: the text fields stripped,
      Value2 the text `float()` read, the flag true exactly when it reads
      `True`. */
  function MakeRow(fields: seq<string>): Row
    requires |fields| == FieldCount && ParseInt(fields[2]).Some?
  {
    Row(Strip(fields[0]), Strip(fields[1]), ParseInt(fields[2]).value, NumberText(fields[3]), Strip(fields[4]) == "True")
  }

  /** The rows that can come out of `ValidateRow`: text fields free of commas
      and of surrounding whitespace, a Value1 within the digit bound of
      `int()`, and a Value2 that `float()` accepts. */
  predicate Renderable(row: Row)
  {
    && FitsStrDigits(row.value1)
    && ',' !in row.date && Strip(row.date) == row.date
    && ',' !in row.category && Strip(row.category) == row.category
    && ',' !in row.value2 && NumberText(row.value2) == row.value2 && IsFloatText(row.value2)
  }

  function FlagText(flag: bool): string
  {
    if flag then "True" else "False"
  }

  lemma FlagTextStripped(flag: bool)
    ensures Strip(FlagText(flag)) == FlagText(flag)
    ensures (Strip(FlagText(flag)) == "True") == flag
  {
    var t := FlagText(flag);
    assert t[0] == 'T' || t[0] == 'F';
    assert t[|t| - 1] == 'e';
    TrimNoSpaceEnds(t, IsSpace);
  }

  /** The five fields of a row as they would be typed. */
  function Fields(row: Row): seq<string>
  {
    [row.date, row.category, IntToString(row.value1), row.value2, FlagText(row.flag)]
  }

  /** A row written back as one input line. */
  function Render(row: Row): string
  {
    Join(Fields(row), ',')
  }

  /** `float()` accepts a text exactly when it accepts the part it reads. */
  lemma FloatTextTrim(text: string)
    ensures IsFloatText(NumberText(text)) == IsFloatText(text)
  {
    TrimIdempotent(text, IsNumberSpace);
  }

  /** A field without commas, trimmed, is a renderable text field. */
  lemma TrimmedField(field: string, space: char -> bool)
    requires ',' !in field
    ensures ',' !in Trim(field, space) && Trim(Trim(field, space), space) == Trim(field, space)
  {
    TrimKeepsOut(field, space, ',');
    TrimIdempotent(field, space);
  }

  /** The field checks accept exactly when the count is right, Value1 is an
      integer, Value2 a float and the flag `True` or `False`; what they
      accept they turn into `MakeRow(fields)`. */
  lemma ValidateFieldsAccepts(fields: seq<string>)
    ensures ValidateFields(fields).Success? <==>
      && |fields| == FieldCount
      && ParseInt(fields[2]).Some?
      && IsFloatText(fields[3])
      && IsFlagText(fields[4])
    ensures ValidateFields(fields).Success? ==> ValidateFields(fields).value == MakeRow(fields)
    ensures ValidateFields(fields).Success? ==>
      var row := ValidateFields(fields).value;
      && row.date == Strip(fields[0]) && row.category == Strip(fields[1])
      && Some(row.value1) == ParseInt(fields[2]) && row.value2 == NumberText(fields[3])
      && (row.flag <==> Strip(fields[4]) == "True")
  {
  }

  /** The row the field checks produce from comma-free fields is renderable. */
  lemma ValidatedFieldsRenderable(fields: seq<string>)
    requires ValidateFields(fields).Success?
    requires forall i :: 0 <= i < |fields| ==> ',' !in fields[i]
    ensures Renderable(ValidateFields(fields).value)
  {
    ValidateFieldsAccepts(fields);
    var row := MakeRow(fields);
    TrimmedField(fields[0], IsSpace);
    TrimmedField(fields[1], IsSpace);
    TrimmedField(fields[3], IsNumberSpace);
    FloatTextTrim(fields[3]);
    ParsedIntFits(fields[2]);
    assert IsFloatText(row.value2);
  }

  /** A row `ValidateRow` produced has no comma or surrounding whitespace in
      its text fields and a float text as Value2. */
  lemma ValidatedIsRenderable(input: string)
    requires ValidateRow(input).Success?
    ensures Renderable(ValidateRow(input).value)
  {
    ValidatedFieldsRenderable(Split(Strip(input), ','));
  }

  /** Joining five fields. */
  lemma JoinFive(a: string, b: string, c: string, d: string, e: string)
    ensures Join([a, b, c, d, e], ',') == a + [','] + (b + [','] + (c + [','] + (d + [','] + e)))
  {
    var fs := [a, b, c, d, e];
    assert fs[1..] == [b, c, d, e];
    assert fs[1..][1..] == [c, d, e];
    assert fs[1..][1..][1..] == [d, e];
    assert fs[1..][1..][1..][1..] == [e];
    assert Join([e], ',') == e;
    assert Join([d, e], ',') == d + [','] + e;
    assert Join([c, d, e], ',') == c + [','] + (d + [','] + e);
    assert Join([b, c, d, e], ',') == b + [','] + (c + [','] + (d + [','] + e));
  }

  /** A rendered line starts with the date or a comma and ends with the flag's
      last letter, so `strip()` leaves it alone. */
  lemma RenderedLineIsStripped(row: Row)
    requires Renderable(row)
    ensures Strip(Render(row)) == Render(row)
  {
    var flag := FlagText(row.flag);
    var tail := row.category + [','] + (IntToString(row.value1) + [','] + (row.value2 + [','] + flag));
    var line := row.date + [','] + tail;
    JoinFive(row.date, row.category, IntToString(row.value1), row.value2, flag);
    assert Render(row) == line;
    assert line[|line| - 1] == flag[|flag| - 1] == 'e';
    if row.date == [] {
      assert line[0] == ',';
    } else {
      TrimEnds(row.date, IsSpace);
      assert line[0] == row.date[0];
    }
    TrimNoSpaceEnds(line, IsSpace);
  }

  /** The field checks accept the fields of a renderable row and give it back. */
  lemma ValidateFieldsOfRow(row: Row)
    requires Renderable(row)
    ensures ValidateFields(Fields(row)) == Success(row)
  {
    IntToStringRoundTrip(row.value1);
    FlagTextStripped(row.flag);
    assert IsFlagText(Fields(row)[4]);
    MakeRowOfFields(row);
  }

  /** Building a row from the fields of a row gives that row back. */
  lemma MakeRowOfFields(row: Row)
    requires Strip(row.date) == row.date && Strip(row.category) == row.category
    requires NumberText(row.value2) == row.value2
    requires ParseInt(Fields(row)[2]) == Some(row.value1)
    requires (Strip(FlagText(row.flag)) == "True") == row.flag
    ensures MakeRow(Fields(row)) == row
  {
    var made := MakeRow(Fields(row));
    assert made.date == row.date && made.category == row.category;
    assert made.value1 == row.value1 && made.value2 == row.value2;
    assert made.flag == row.flag;
  }

  /** Every row that can be typed at all is read back from its rendering:
      `ValidateRow` accepts `Render(row)` and gives back exactly `row`. */
  lemma ValidateRender(row: Row)
    requires Renderable(row)
    ensures ValidateRow(Render(row)) == Success(row)
  {
    SplitRendered(row);
    ValidateFieldsOfRow(row);
    assert Render(row) != [] by {
      assert |Fields(row)[4]| > 0;
    }
  }

  /** The rendered line, stripped and split, gives the row's fields back. */
  lemma SplitRendered(row: Row)
    requires Renderable(row)
    ensures Strip(Render(row)) == Render(row)
    ensures Split(Strip(Render(row)), ',') == Fields(row)
  {
    FieldsCommaFree(row);
    RenderedLineIsStripped(row);
    SplitJoin(Fields(row), ',');
  }

  /** No field of a renderable row holds a comma. */
  lemma FieldsCommaFree(row: Row)
    requires ',' !in row.date && ',' !in row.category && ',' !in row.value2
    ensures forall i :: 0 <= i < |Fields(row)| ==> ',' !in Fields(row)[i]
  {
    var n := IntToString(row.value1);
    IntToStringChars(row.value1);
    assert ',' !in n by {
      forall i | 0 <= i < |n| ensures n[i] != ',' {
      }
    }
    assert ',' !in FlagText(row.flag);
  }

  /** Typed text differs from the stored row only in whitespace around the
      fields and in how the integer is spelled: validating the rendering of
      a validated row gives the same row again. */
  lemma ValidateIdempotent(input: string)
    requires ValidateRow(input).Success?
    ensures ValidateRow(Render(ValidateRow(input).value)) == ValidateRow(input)
  {
    ValidatedIsRenderable(input);
    ValidateRender(ValidateRow(input).value);
  }

  /** The checks run in a fixed order and the first that fails decides the
      message: the field count, then Value1, then Value2, then the flag. */
  lemma ValidateFieldsFirstFailure(fields: seq<string>)
    ensures |fields| != FieldCount ==> ValidateFields(fields) == Failure(InputFormatMsg)
    ensures |fields| == FieldCount && ParseInt(fields[2]).None? ==>
      ValidateFields(fields) == Failure(Value1Msg)
    ensures |fields| == FieldCount && ParseInt(fields[2]).Some? && !IsFloatText(fields[3]) ==>
      ValidateFields(fields) == Failure(Value2Msg)
    ensures |fields| == FieldCount && ParseInt(fields[2]).Some? && IsFloatText(fields[3]) && !IsFlagText(fields[4]) ==>
      ValidateFields(fields) == Failure(FlagMsg)
  {
  }

  /** The flag is case-sensitive: a field that reads `true` or `false` once
      stripped is refused. */
  lemma FlagIsCaseSensitive(field: string)
    requires Strip(field) == "true" || Strip(field) == "false"
    ensures !IsFlagText(field)
  {
    assert Strip(field)[0] != 'T' && Strip(field)[0] != 'F';
  }

  /** The column names of an appended row. */
  const RowColumns: set<string> := {"Date", "Category", "Value1", "Value2", "BooleanFlag"}

  /** `update_statistic`'s first lines: the row and column counts of the table. */
  function StatisticText(rows: seq<Row>, columns: set<string>): string
  {
    "Statistic:\nLines number: " + IntToString(|rows|) + "\nColumns number: " + IntToString(|columns|)
  }

  /** `MainWindow`: the loaded table (if any), its column names, and the
      status line. */
  class MainWindow {
    var loaded: bool
    var rows: seq<Row>
    var columns: set<string>
    var status: string

    /** Nothing is loaded before the first CSV file. */
    constructor ()
      ensures !loaded && rows == [] && columns == {} && status == NotLoadedStatus
    {
      loaded := false;
      rows := [];
      columns := {};
      status := NotLoadedStatus;
    }

    /** `update_statistic`: with a table loaded, the status shows its counts,
        followed by `numericLines`, the minimum and maximum line that pandas
        writes for each numeric column (not modelled, so given as text). */
    method UpdateStatistic(numericLines: string)
      modifies this`status
      ensures loaded ==> status == StatisticText(rows, columns) + numericLines
      ensures loaded ==> StatisticText(rows, columns) <= status
      ensures !loaded ==> status == old(status)
    {
      if loaded {
        status := StatisticText(rows, columns) + numericLines;
      }
    }

    /** The effect of `load_csv` once a file was chosen and read: `table` and
        `names` are the rows and the columns `read_csv` produced, and
        `numericLines` the statistic's lines for its numeric columns. */
    method LoadTable(table: seq<Row>, names: set<string>, numericLines: string)
      modifies this
      ensures loaded && rows == table && columns == names
      ensures status == StatisticText(table, names) + numericLines
      ensures StatisticText(table, names) <= status
    {
      loaded := true;
      rows := table;
      columns := names;
      UpdateStatistic(numericLines);
    }

    /** The success path of `update_data`: the row is concatenated to the
        loaded table, whose columns gain the five row columns, the statistic
        is refreshed, and the status reports success. */
    method AppendRow(row: Row)
      requires loaded
      modifies this
      ensures loaded
      ensures rows == old(rows) + [row] && columns == old(columns) + RowColumns
      ensures status == AddedMsg
    {
      rows := rows + [row];
      columns := columns + RowColumns;
      // The statistic text is overwritten at once, so its numeric lines do not matter.
      UpdateStatistic([]);
      status := AddedMsg;
    }

    /** `update_data`: with no table loaded, or with an input line that fails
        a check, only the status changes; otherwise exactly one row, the
        validated one, is appended at the end, the five row columns join the
        table's columns, and the status reports success. */
    method UpdateData(input: string)
      modifies this
      ensures loaded == old(loaded)
      ensures !old(loaded) ==> rows == old(rows) && columns == old(columns) && status == NotLoadedMsg
      ensures old(loaded) && ValidateRow(input).Failure? ==>
        rows == old(rows) && columns == old(columns) && status == ValidateRow(input).error
      ensures old(loaded) && ValidateRow(input).Success? ==>
        && rows == old(rows) + [ValidateRow(input).value]
        && |rows| == |old(rows)| + 1
        && columns == old(columns) + RowColumns
        && status == AddedMsg
    {
      if !loaded {
        status := NotLoadedMsg;
      } else {
        var checked := ValidateRow(input);
        if checked.Failure? {
          status := checked.error;
        } else {
          AppendRow(checked.value);
        }
      }
    }
  }
}
