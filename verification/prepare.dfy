/** `prepare`: turning raw NOAA GHCN daily records into the two-column
    `DATE,TMAX` CSV the regression reads. Every record line is trimmed and
    split on `,`; the lines whose element is `TMAX` and whose quality flag
    is empty are kept, as the date in years and the value in degrees (the
    raw value is in tenths of a degree). Date conversion (`parse_date`),
    integer parsing and number formatting are parameters. */
module Prepare {
  import opened Results
  import opened Text
  import opened Csv

  /** The header of the raw records. */
  const ExpectedHeader: string := "ID,DATE,ELEMENT,DATA_VALUE,M_FLAG,Q_FLAG,S_FLAG,OBS_TIME"

  /** The column names of the prepared data. */
  const OutputNames: seq<string> := ["DATE", "TMAX"]

  /** The conversions `prepare` delegates.
      - `parseDate` is `parse_date`: a panic for a date that is too short or
        whose parts are not numbers, `None` for a calendar date that does not
        exist (`MyError::InvalidDateFormat`), else the years since year 0.
      - `parseInt` is `str::parse::<i32>`: `None` is a parse error.
      - `format` is `f64`'s `Display`. */
  datatype Converters = Converters(
    parseDate: string -> Outcome<Option<real>>,
    parseInt: string -> Option<int>,
    format: NumberFormatter)

  /** What one record line contributes. */
  datatype LineResult = Skipped | Kept(date: real, tmax: real) | Failed(error: MyError)

  /** Whether a record is a maximum temperature without a quality flag:
      `ELEMENT` (field 2) is `TMAX` and `Q_FLAG` (field 5) is empty. */
  predicate Selected(fields: seq<string>)
    requires |fields| >= 6
  {
    fields[2] == "TMAX" && fields[5] == ""
  }

  /** One record line: a panic when it has fewer than six fields (the
      fields are indexed before anything is checked); a selected record's
      date conversion comes first, its integer parse second. */
  function PrepareLine(line: string, conv: Converters): (r: Outcome<LineResult>)
    ensures var fields := Split(Trim(line), ',');
      && (|fields| < 6 ==> r == Panicked(IndexOutOfBounds))
      && (|fields| >= 6 && !Selected(fields) ==> r == Returned(Skipped))
      && (r.Returned? && r.value.Kept? ==>
            && |fields| >= 6 && Selected(fields)
            && conv.parseDate(fields[1]) == Returned(Some(r.value.date))
            && conv.parseInt(fields[3]).Some?
            && r.value.tmax == conv.parseInt(fields[3]).value as real / 10.0)
      && (r.Returned? && r.value.Failed? ==>
            r.value.error == InvalidDateFormat && conv.parseDate(fields[1]) == Returned(None))
      && (|fields| >= 6 && Selected(fields) && conv.parseDate(fields[1]).Returned?
          && conv.parseDate(fields[1]).value.Some? && conv.parseInt(fields[3]).Some? ==>
            r.Returned? && r.value.Kept?)
  {
    var fields := Split(Trim(line), ',');
    if |fields| < 6 then Panicked(IndexOutOfBounds)
    else if Selected(fields) then
      match conv.parseDate(fields[1])
      case Panicked(msg) => Panicked(msg)
      case Returned(None) => Returned(Failed(InvalidDateFormat))
      case Returned(Some(date)) =>
        match conv.parseInt(fields[3])
        case None => Panicked(UnwrapErr)
        case Some(n) => Returned(Kept(date, n as real / 10.0))
    else Returned(Skipped)
  }

  /** The number of lines from index `from` on that are selected records. */
  function CountSelected(lines: seq<string>, from: nat): nat
    requires from <= |lines|
    decreases |lines| - from
  {
    if from == |lines| then 0
    else
      var fields := Split(Trim(lines[from]), ',');
      (if |fields| >= 6 && Selected(fields) then 1 else 0) + CountSelected(lines, from + 1)
  }

  /** The rows the record lines from index `from` on contribute, in order;
      the first line that panics or reports an error ends the run. */
  function ExtractRows(lines: seq<string>, from: nat, conv: Converters): (r: Outcome<Result<seq<seq<real>>, MyError>>)
    requires from <= |lines|
    ensures r.Returned? && r.value.Ok? ==> forall k :: 0 <= k < |r.value.value| ==> |r.value.value[k]| == 2
    ensures r.Returned? && r.value.Err? ==> r.value.error == InvalidDateFormat
    decreases |lines| - from
  {
    if from == |lines| then Returned(Ok([]))
    else
      match PrepareLine(lines[from], conv)
      case Panicked(msg) => Panicked(msg)
      case Returned(Failed(e)) => Returned(Err(e))
      case Returned(Skipped) => ExtractRows(lines, from + 1, conv)
      case Returned(Kept(date, tmax)) =>
        match ExtractRows(lines, from + 1, conv)
        case Returned(Ok(rows)) => Returned(Ok([[date, tmax]] + rows))
        case other => other
  }

  /** A successful run keeps one row per selected record and nothing else. */
  lemma {:induction false} ExtractRowsCount(lines: seq<string>, from: nat, conv: Converters)
    requires from <= |lines|
    ensures var r := ExtractRows(lines, from, conv);
      r.Returned? && r.value.Ok? ==> |r.value.value| == CountSelected(lines, from)
    decreases |lines| - from
  {
    if from < |lines| {
      ExtractRowsCount(lines, from + 1, conv);
    }
  }

  /** The rows come in input order: the kept row of the selected record on
      line `i` is preceded by exactly one row per selected record before
      it. */
  lemma {:induction false} ExtractRowsOrder(lines: seq<string>, from: nat, conv: Converters, i: nat)
    requires from <= i < |lines|
    requires ExtractRows(lines, from, conv).Returned? && ExtractRows(lines, from, conv).value.Ok?
    requires |Split(Trim(lines[i]), ',')| >= 6 && Selected(Split(Trim(lines[i]), ','))
    ensures var rows := ExtractRows(lines, from, conv).value.value;
      var l := PrepareLine(lines[i], conv);
      var k := CountSelected(lines, from) - CountSelected(lines, i);
      && l.Returned? && l.value.Kept?
      && 0 <= k < |rows|
      && rows[k] == [l.value.date, l.value.tmax]
    decreases i - from
  {
    var rows := ExtractRows(lines, from, conv).value.value;
    var line := PrepareLine(lines[from], conv);
    assert line.Returned? && (line.value.Kept? || line.value.Skipped?);
    var rest := ExtractRows(lines, from + 1, conv);
    assert rest.Returned? && rest.value.Ok?;
    if line.value.Kept? {
      assert rows == [[line.value.date, line.value.tmax]] + rest.value.value;
    } else {
      assert rows == rest.value.value;
    }
    if from < i {
      ExtractRowsOrder(lines, from + 1, conv, i);
    } else {
      ExtractRowsCount(lines, from + 1, conv);
    }
  }

  /** A run returns the rows of every line exactly when no line panics or
      fails, so one record with fewer than six fields anywhere after the
      header makes the whole run panic, whatever else it holds. */
  lemma {:induction false} ShortRecordPanics(lines: seq<string>, from: nat, conv: Converters, i: nat)
    requires from <= i < |lines|
    requires |Split(Trim(lines[i]), ',')| < 6
    ensures ExtractRows(lines, from, conv).Panicked? || ExtractRows(lines, from, conv) == Returned(Err(InvalidDateFormat))
    decreases |lines| - from
  {
    if from < i {
      ShortRecordPanics(lines, from + 1, conv, i);
    }
  }

  /** The reference definition of `prepare`: a wrong header is an error;
      otherwise the kept rows, written as a CSV under `DATE,TMAX`. */
  function PrepareSpec(raw: string, conv: Converters): Outcome<Result<string, MyError>>
  {
    var lines := Split(Trim(raw), '\n');
    if lines[0] != ExpectedHeader then Returned(Err(UnexpectedRawDataHeader))
    else RecordsCsv(lines, conv)
  }

  /** The output for the record lines after the header: the kept rows as a
      CSV under `DATE,TMAX`, or the first error or panic. */
  function RecordsCsv(lines: seq<string>, conv: Converters): Outcome<Result<string, MyError>>
    requires |lines| >= 1
  {
    match ExtractRows(lines, 1, conv)
    case Panicked(msg) => Panicked(msg)
    case Returned(Err(e)) => Returned(Err(e))
    case Returned(Ok(rows)) => Returned(Ok(WriteCsv(OutputNames, rows, conv.format)))
  }

  /** The rows kept so far placed before what the remaining lines give. */
  function Prepend(kept: seq<seq<real>>, rest: Outcome<Result<seq<seq<real>>, MyError>>): Outcome<Result<seq<seq<real>>, MyError>>
  {
    match rest
    case Returned(Ok(rows)) => Returned(Ok(kept + rows))
    case other => other
  }

  /** Appending one row to a CSV text appends its line. */
  lemma WriteCsvAppend(names: seq<string>, rows: seq<seq<real>>, row: seq<real>, format: NumberFormatter)
    ensures WriteCsv(names, rows + [row], format) == WriteCsv(names, rows, format) + Join(FormatRow(row, format), ",") + "\n"
  {
    var ls := CsvLines(names, rows, format);
    assert CsvLines(names, rows + [row], format) == ls + [Join(FormatRow(row, format), ",")];
    LinesAppend(ls, Join(FormatRow(row, format), ","));
  }

  /** The line `format!("{},{}\n", date, tmax)` is what a row of the two
      values adds to the CSV text. */
  lemma WriteRecordLine(kept: seq<seq<real>>, date: real, tmax: real, format: NumberFormatter)
    ensures WriteCsv(OutputNames, kept + [[date, tmax]], format)
         == WriteCsv(OutputNames, kept, format) + format(date) + "," + format(tmax) + "\n"
  {
    var row := [date, tmax];
    WriteCsvAppend(OutputNames, kept, row, format);
    assert FormatRow(row, format) == [format(date), format(tmax)];
  }

  /** `Lines` of one more string appends that string and a newline. */
  lemma {:induction false} LinesAppend(ls: seq<string>, l: string)
    ensures Lines(ls + [l]) == Lines(ls) + l + "\n"
    decreases |ls|
  {
    if |ls| > 0 {
      LinesAppend(ls[1..], l);
      assert (ls + [l])[1..] == ls[1..] + [l];
    }
  }

  /** How the rows kept so far combine with one more record line. */
  lemma PrependStep(lines: seq<string>, i: nat, conv: Converters, kept: seq<seq<real>>)
    requires 1 <= i < |lines|
    ensures var rest := ExtractRows(lines, i + 1, conv);
      match PrepareLine(lines[i], conv)
      case Panicked(msg) => Prepend(kept, ExtractRows(lines, i, conv)) == Panicked(msg)
      case Returned(Failed(e)) => Prepend(kept, ExtractRows(lines, i, conv)) == Returned(Err(e))
      case Returned(Skipped) => Prepend(kept, ExtractRows(lines, i, conv)) == Prepend(kept, rest)
      case Returned(Kept(date, tmax)) => Prepend(kept, ExtractRows(lines, i, conv)) == Prepend(kept + [[date, tmax]], rest)
  {
    var rest := ExtractRows(lines, i + 1, conv);
    match PrepareLine(lines[i], conv)
    case Panicked(msg) =>
    case Returned(Failed(e)) =>
    case Returned(Skipped) =>
    case Returned(Kept(date, tmax)) =>
      if rest.Returned? && rest.value.Ok? {
        assert kept + ([[date, tmax]] + rest.value.value) == (kept + [[date, tmax]]) + rest.value.value;
      }
  }

  /** The record loop of `prepare`: the output so far is the CSV of the
      rows kept so far. */
  method RecordLoop(lines: seq<string>, conv: Converters) returns (r: Outcome<Result<string, MyError>>)
    requires |lines| >= 1
    ensures r == RecordsCsv(lines, conv)
  {
    var output := "DATE,TMAX\n";
    ghost var kept: seq<seq<real>> := [];
    assert output == WriteCsv(OutputNames, kept, conv.format);
    var i := 1;
    assert Prepend(kept, ExtractRows(lines, i, conv)) == ExtractRows(lines, 1, conv) by {
      var x := ExtractRows(lines, 1, conv);
      if x.Returned? && x.value.Ok? {
        assert kept + x.value.value == x.value.value;
      }
    }
    while i < |lines|
      invariant 1 <= i <= |lines|
      invariant output == WriteCsv(OutputNames, kept, conv.format)
      invariant ExtractRows(lines, 1, conv) == Prepend(kept, ExtractRows(lines, i, conv))
      decreases |lines| - i
    {
      PrependStep(lines, i, conv, kept);
      match PrepareLine(lines[i], conv) {
      case Panicked(msg) =>
        return Panicked(msg);
      case Returned(Failed(e)) =>
        return Returned(Err(e));
      case Returned(Skipped) =>
      case Returned(Kept(date, tmax)) =>
        var row := [date, tmax];
        WriteRecordLine(kept, date, tmax, conv.format);
        output := output + conv.format(date) + "," + conv.format(tmax) + "\n";
        kept := kept + [row];
      }
      i := i + 1;
    }
    assert kept + [] == kept;
    return Returned(Ok(output));
  }

  /** `prepare`: a wrong header is `UnexpectedRawDataHeader`; otherwise the
      kept records as a `DATE,TMAX` CSV, or the first error or panic. */
  method Prepare(raw: string, conv: Converters) returns (r: Outcome<Result<string, MyError>>)
    ensures r == PrepareSpec(raw, conv)
    ensures r == Returned(Err(UnexpectedRawDataHeader)) <==> Split(Trim(raw), '\n')[0] != ExpectedHeader
  {
    var lines := Split(Trim(raw), '\n');
    if lines[0] != ExpectedHeader {
      return Returned(Err(UnexpectedRawDataHeader));
    }
    r := RecordLoop(lines, conv);
  }

  /** The prepared data reads back, through `parse_csv`, as the columns
      `DATE` and `TMAX` holding the kept rows as the parser rereads them,
      and as exactly the kept rows when every value reads back as itself. */
  lemma PreparedDataParses(raw: string, conv: Converters, parse: NumberParser)
    ensures var lines := Split(Trim(raw), '\n');
      var r := PrepareSpec(raw, conv);
      r.Returned? && r.value.Ok? ==>
        && lines[0] == ExpectedHeader
        && ExtractRows(lines, 1, conv).Returned?
        && ExtractRows(lines, 1, conv).value.Ok?
        && var rows := ExtractRows(lines, 1, conv).value.value;
        && (RowsRereadable(rows, parse, conv.format) ==>
              ParseCsv(r.value.value, parse) == Returned(Table(RereadRows(rows, parse, conv.format), OutputNames)))
        && (RowsReadBack(rows, parse, conv.format) ==>
              ParseCsv(r.value.value, parse) == Returned(Table(rows, OutputNames)))
  {
    var lines := Split(Trim(raw), '\n');
    var r := PrepareSpec(raw, conv);
    if r.Returned? && r.value.Ok? {
      var rows := ExtractRows(lines, 1, conv).value.value;
      assert PlainField("DATE") && PlainField("TMAX");
      if RowsRereadable(rows, parse, conv.format) {
        ParseWrittenCsv(OutputNames, rows, parse, conv.format);
      }
      if RowsReadBack(rows, parse, conv.format) {
        ParseWrittenCsvExactly(OutputNames, rows, parse, conv.format);
      }
    }
  }
}
