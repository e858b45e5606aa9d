/** The CSV layout shared by the prepared data and the posterior text, and
    `parse_csv`, which reads it: a header line of names and one line of
    numbers per row, fields separated by `,`. Number parsing (`str::parse`
    for `f64`) and number formatting (`f64`'s `Display`) are parameters. */
module Csv {
  import opened Results
  import opened Text

  /** `MyError`, the errors the program reports to its caller. */
  datatype MyError = UnexpectedRawDataHeader | InvalidDateFormat

  /** A parser of decimal numbers: `None` is a parse error. */
  type NumberParser = string -> Option<real>

  /** A formatter of numbers. */
  type NumberFormatter = real -> string

  /** A field that survives the layout unchanged: not empty, no white space
      at its ends, neither a separator nor a line break inside. */
  predicate PlainField(f: string)
  {
    Trimmed(f) && ',' !in f && '\n' !in f
  }

  /** The value `v` is written as a plain field that the parser reads as
      some number. */
  predicate Rereadable(parse: NumberParser, format: NumberFormatter, v: real)
  {
    PlainField(format(v)) && parse(format(v)).Some?
  }

  /** The value `v` is written as a plain field that the parser reads back
      as `v` itself (the shortest-round-trip `Display` of a finite `f64`
      is). */
  predicate ReadsBack(parse: NumberParser, format: NumberFormatter, v: real)
  {
    PlainField(format(v)) && parse(format(v)) == Some(v)
  }

  /** Every value of every row is rereadable. */
  predicate RowsRereadable(rows: seq<seq<real>>, parse: NumberParser, format: NumberFormatter)
  {
    forall i, j :: 0 <= i < |rows| && 0 <= j < |rows[i]| ==> Rereadable(parse, format, rows[i][j])
  }

  /** Every value of every row reads back as itself. */
  predicate RowsReadBack(rows: seq<seq<real>>, parse: NumberParser, format: NumberFormatter)
  {
    forall i, j :: 0 <= i < |rows| && 0 <= j < |rows[i]| ==> ReadsBack(parse, format, rows[i][j])
  }

  /** Every number at all is rereadable: `f64`'s `Display` writes `inf`
      and `NaN` too, and `str::parse` reads them. */
  ghost predicate AlwaysRereadable(parse: NumberParser, format: NumberFormatter)
  {
    forall v :: Rereadable(parse, format, v)
  }

  /** A formatter that writes `0` for everything, with a parser that reads
      `0` for everything, is always rereadable. */
  lemma ConstantFormatRereadable()
    ensures AlwaysRereadable(s => Some(0.0), v => "0")
  {
    assert Trimmed("0");
  }

  /** Every value of `row`, formatted. */
  function FormatRow(row: seq<real>, format: NumberFormatter): (r: seq<string>)
    ensures |r| == |row|
    ensures forall j :: 0 <= j < |r| ==> r[j] == format(row[j])
  {
    seq(|row|, j requires 0 <= j < |row| => format(row[j]))
  }

  /** The lines of a CSV text: the names joined by `,`, then every row's
      formatted values joined by `,`. */
  function CsvLines(names: seq<string>, rows: seq<seq<real>>, format: NumberFormatter): (r: seq<string>)
    ensures |r| == |rows| + 1
    ensures r[0] == Join(names, ",")
    ensures forall i :: 0 <= i < |rows| ==> r[i + 1] == Join(FormatRow(rows[i], format), ",")
  {
    [Join(names, ",")] + seq(|rows|, i requires 0 <= i < |rows| => Join(FormatRow(rows[i], format), ","))
  }

  /** The CSV text: every line followed by a newline. */
  function WriteCsv(names: seq<string>, rows: seq<seq<real>>, format: NumberFormatter): (r: string)
    ensures r == Join(CsvLines(names, rows, format), "\n") + "\n"
  {
    Lines(CsvLines(names, rows, format))
  }

  /** A CSV text starts with its header line. */
  lemma WriteCsvHeader(names: seq<string>, rows: seq<seq<real>>, format: NumberFormatter)
    ensures Join(names, ",") + "\n" <= WriteCsv(names, rows, format)
  {
    var lines := CsvLines(names, rows, format);
    if |lines| > 1 {
      assert Join(lines, "\n") == lines[0] + "\n" + Join(lines[1..], "\n");
    }
  }

  /** What `parse_csv` returns: the rows and the trimmed header names. */
  datatype Table = Table(observed: seq<seq<real>>, parameters: seq<string>)

  const WrongNumberOfColumns: string := AssertEqFailed + ": Wrong number of columns"

  /** Every field of a line, trimmed and parsed, in order; the first field
      that does not parse panics (`unwrap` on a parse error). */
  function ParseFields(fields: seq<string>, parse: NumberParser): (r: Outcome<seq<real>>)
    ensures r.Returned? ==> |r.value| == |fields|
    ensures r.Panicked? ==> r.message == UnwrapErr
  {
    if |fields| == 0 then Returned([])
    else
      match parse(Trim(fields[0]))
      case None => Panicked(UnwrapErr)
      case Some(v) =>
        match ParseFields(fields[1..], parse)
        case Panicked(msg) => Panicked(msg)
        case Returned(vs) => Returned([v] + vs)
  }

  /** The fields are read exactly when each of them parses, and then to
      the values they parse to. */
  lemma {:induction false} ParseFieldsCases(fields: seq<string>, parse: NumberParser)
    ensures var r := ParseFields(fields, parse);
      && (r.Returned? <==> forall j :: 0 <= j < |fields| ==> parse(Trim(fields[j])).Some?)
      && (r.Returned? ==> forall j :: 0 <= j < |fields| ==> r.value[j] == parse(Trim(fields[j])).value)
    decreases |fields|
  {
    if |fields| > 0 {
      var tail := fields[1..];
      ParseFieldsCases(tail, parse);
      var r := ParseFields(fields, parse);
      var rest := ParseFields(tail, parse);
      assert forall j :: 0 < j < |fields| ==> fields[j] == tail[j - 1];
      if r.Returned? {
        assert r.value == [parse(Trim(fields[0])).value] + rest.value;
        forall j | 0 < j < |fields|
          ensures r.value[j] == parse(Trim(fields[j])).value
        {
          assert r.value[j] == rest.value[j - 1];
        }
      }
    }
  }

  /** One data line: its fields parsed, then their number checked against
      the header's (`assert_eq!`). */
  function ParseRow(line: string, parse: NumberParser, width: nat): (r: Outcome<seq<real>>)
    ensures r.Returned? ==> |r.value| == width
    ensures r.Panicked? ==> r.message == UnwrapErr || r.message == WrongNumberOfColumns
  {
    match ParseFields(Split(line, ','), parse)
    case Panicked(msg) => Panicked(msg)
    case Returned(values) =>
      if |values| == width then Returned(values) else Panicked(WrongNumberOfColumns)
  }

  /** A data line is read when every field parses and there are `width` of
      them; the parse error comes first, the column check second. */
  lemma ParseRowCases(line: string, parse: NumberParser, width: nat)
    ensures var fields := Split(line, ',');
      var r := ParseRow(line, parse, width);
      && (r.Returned? <==> (forall j :: 0 <= j < |fields| ==> parse(Trim(fields[j])).Some?) && |fields| == width)
      && ((exists j :: 0 <= j < |fields| && parse(Trim(fields[j])).None?) ==> r == Panicked(UnwrapErr))
      && ((forall j :: 0 <= j < |fields| ==> parse(Trim(fields[j])).Some?) && |fields| != width ==>
            r == Panicked(WrongNumberOfColumns))
      && (r.Returned? ==> forall j :: 0 <= j < |fields| ==> r.value[j] == parse(Trim(fields[j])).value)
  {
    ParseFieldsCases(Split(line, ','), parse);
  }

  /** The data lines from index `from` on, in order; the first bad line
      panics. */
  function ParseRows(lines: seq<string>, from: nat, parse: NumberParser, width: nat): (r: Outcome<seq<seq<real>>>)
    requires from <= |lines|
    ensures r.Returned? <==> forall i :: from <= i < |lines| ==> ParseRow(lines[i], parse, width).Returned?
    ensures r.Returned? ==> |r.value| == |lines| - from
    ensures r.Returned? ==> forall k :: 0 <= k < |r.value| ==> |r.value[k]| == width
    ensures r.Returned? ==> forall i :: from <= i < |lines| ==> ParseRow(lines[i], parse, width) == Returned(r.value[i - from])
    ensures r.Panicked? ==> r.message == UnwrapErr || r.message == WrongNumberOfColumns
    decreases |lines| - from
  {
    if from == |lines| then Returned([])
    else
      match ParseRow(lines[from], parse, width)
      case Panicked(msg) => Panicked(msg)
      case Returned(row) =>
        match ParseRows(lines, from + 1, parse, width)
        case Panicked(msg) => Panicked(msg)
        case Returned(rows) => Returned([row] + rows)
  }

  /** `parse_csv`: trim the input, split it into lines, read the header's
      trimmed names and parse every further line as a row of as many
      numbers. */
  function ParseCsv(input: string, parse: NumberParser): (r: Outcome<Table>)
    ensures r.Returned? ==> r.value.parameters == TrimEach(Split(Split(Trim(input), '\n')[0], ','))
    ensures r.Returned? ==> |r.value.observed| == |Split(Trim(input), '\n')| - 1
    ensures r.Returned? ==> forall i :: 0 <= i < |r.value.observed| ==> |r.value.observed[i]| == |r.value.parameters|
    ensures r.Panicked? ==> r.message == UnwrapErr || r.message == WrongNumberOfColumns
  {
    var lines := Split(Trim(input), '\n');
    var width := |Split(lines[0], ',')|;
    var rows := ParseRows(lines, 1, parse, width);
    if rows.Panicked? then Panicked(rows.message)
    else Returned(Table(rows.value, TrimEach(Split(lines[0], ','))))
  }

  /** `parse_csv` returns exactly when every line after the header parses
      as a row as wide as the header, and then row `i - 1` is line `i`. */
  lemma ParseCsvLines(input: string, parse: NumberParser)
    ensures var lines := Split(Trim(input), '\n');
      var width := |Split(lines[0], ',')|;
      var r := ParseCsv(input, parse);
      && (r.Returned? <==> forall i :: 1 <= i < |lines| ==> ParseRow(lines[i], parse, width).Returned?)
      && (r.Returned? ==> forall i :: 1 <= i < |lines| ==> ParseRow(lines[i], parse, width) == Returned(r.value.observed[i - 1]))
  {
  }

  /** The values of `row` as the parser reads their formatted text. */
  function RereadRow(row: seq<real>, parse: NumberParser, format: NumberFormatter): (r: seq<real>)
    requires forall j :: 0 <= j < |row| ==> Rereadable(parse, format, row[j])
    ensures |r| == |row|
    ensures forall j :: 0 <= j < |row| ==> parse(format(row[j])) == Some(r[j])
  {
    seq(|row|, j requires 0 <= j < |row| && Rereadable(parse, format, row[j]) => parse(format(row[j])).value)
  }

  /** Every row, reread. */
  function RereadRows(rows: seq<seq<real>>, parse: NumberParser, format: NumberFormatter): (r: seq<seq<real>>)
    requires RowsRereadable(rows, parse, format)
    ensures |r| == |rows|
    ensures forall i :: 0 <= i < |rows| ==> r[i] == RereadRow(rows[i], parse, format)
  {
    seq(|rows|, i requires 0 <= i < |rows| => RereadRow(rows[i], parse, format))
  }

  /** Rows whose values read back as themselves are rereadable, and
      rereading gives them back unchanged. */
  lemma RereadRowsUnchanged(rows: seq<seq<real>>, parse: NumberParser, format: NumberFormatter)
    requires RowsReadBack(rows, parse, format)
    ensures RowsRereadable(rows, parse, format)
    ensures RereadRows(rows, parse, format) == rows
  {
    forall i | 0 <= i < |rows|
      ensures RereadRow(rows[i], parse, format) == rows[i]
    {
      var row := rows[i];
      forall j | 0 <= j < |row|
        ensures RereadRow(row, parse, format)[j] == row[j]
      {
        var v := rows[i][j];
        assert ReadsBack(parse, format, v);
      }
    }
  }

  /** A line of rereadable values parses as those values reread. */
  lemma ParseWrittenRow(row: seq<real>, parse: NumberParser, format: NumberFormatter)
    requires |row| > 0 && forall j :: 0 <= j < |row| ==> Rereadable(parse, format, row[j])
    ensures ParseRow(Join(FormatRow(row, format), ","), parse, |row|) == Returned(RereadRow(row, parse, format))
  {
    var fields := FormatRow(row, format);
    var want := RereadRow(row, parse, format);
    forall j | 0 <= j < |fields|
      ensures PlainField(fields[j]) && parse(fields[j]) == Some(want[j])
    {
      var v := row[j];
      assert Rereadable(parse, format, v);
      assert fields[j] == format(v);
    }
    SplitJoin(fields, ',');
    TrimEachTrimmed(fields);
    assert forall j :: 0 <= j < |fields| ==> Trim(fields[j]) == fields[j];
    var line := Join(fields, ",");
    assert Split(line, ',') == fields;
    ParseRowCases(line, parse, |row|);
    var r := ParseRow(line, parse, |row|);
    assert r.Returned?;
    assert r.value == want;
  }

  /** `parse_csv` reads a CSV text back as the names it was written from
      and the rows reread, whenever the names are plain fields and every
      value is written as a plain field the parser reads. */
  lemma ParseWrittenCsv(names: seq<string>, rows: seq<seq<real>>, parse: NumberParser, format: NumberFormatter)
    requires RowsRereadable(rows, parse, format)
    requires |names| > 0 && forall j :: 0 <= j < |names| ==> PlainField(names[j])
    requires forall i :: 0 <= i < |rows| ==> |rows[i]| == |names|
    ensures ParseCsv(WriteCsv(names, rows, format), parse) == Returned(Table(RereadRows(rows, parse, format), names))
  {
    var lines := CsvLines(names, rows, format);
    var text := Join(lines, "\n");
    LinesTrimmedAndUnbroken(names, rows, parse, format);
    TrimFinalNewline(text);
    SplitJoin(lines, '\n');
    assert Split(Trim(WriteCsv(names, rows, format)), '\n') == lines;
    SplitJoin(names, ',');
    TrimEachTrimmed(names);
    var want := RereadRows(rows, parse, format);
    forall i | 0 <= i < |rows|
      ensures ParseRow(lines[i + 1], parse, |names|) == Returned(want[i])
    {
      var row := rows[i];
      forall j | 0 <= j < |row|
        ensures Rereadable(parse, format, row[j])
      {
        var v := rows[i][j];
        assert Rereadable(parse, format, v);
      }
      ParseWrittenRow(row, parse, format);
    }
    var parsed := ParseRows(lines, 1, parse, |names|);
    assert parsed.Returned?;
    assert parsed.value == want;
  }

  /** `parse_csv` reads back exactly the names and rows a CSV text was
      written from, whenever the names are plain fields and every value is
      written as a plain field that parses back to itself. */
  lemma ParseWrittenCsvExactly(names: seq<string>, rows: seq<seq<real>>, parse: NumberParser, format: NumberFormatter)
    requires RowsReadBack(rows, parse, format)
    requires |names| > 0 && forall j :: 0 <= j < |names| ==> PlainField(names[j])
    requires forall i :: 0 <= i < |rows| ==> |rows[i]| == |names|
    ensures ParseCsv(WriteCsv(names, rows, format), parse) == Returned(Table(rows, names))
  {
    RereadRowsUnchanged(rows, parse, format);
    ParseWrittenCsv(names, rows, parse, format);
  }

  /** A line of plain fields is trimmed and has no line break. */
  lemma PlainLine(fields: seq<string>)
    requires |fields| > 0 && forall j :: 0 <= j < |fields| ==> PlainField(fields[j])
    ensures Trimmed(Join(fields, ",")) && '\n' !in Join(fields, ",")
  {
    JoinTrimmed(fields, ",");
    NotInJoin(fields, ',', '\n');
  }

  /** The formatted values of a rereadable row are plain fields. */
  lemma PlainRow(row: seq<real>, parse: NumberParser, format: NumberFormatter)
    requires forall j :: 0 <= j < |row| ==> Rereadable(parse, format, row[j])
    ensures forall j :: 0 <= j < |row| ==> PlainField(FormatRow(row, format)[j])
  {
    forall j | 0 <= j < |row|
      ensures PlainField(FormatRow(row, format)[j])
    {
      var v := row[j];
      assert Rereadable(parse, format, v);
      assert FormatRow(row, format)[j] == format(v);
    }
  }

  /** The text of the written lines is trimmed and no line contains a line
      break. */
  lemma LinesTrimmedAndUnbroken(names: seq<string>, rows: seq<seq<real>>, parse: NumberParser, format: NumberFormatter)
    requires RowsRereadable(rows, parse, format)
    requires |names| > 0 && forall j :: 0 <= j < |names| ==> PlainField(names[j])
    requires forall i :: 0 <= i < |rows| ==> |rows[i]| == |names|
    ensures Trimmed(Join(CsvLines(names, rows, format), "\n"))
    ensures forall i :: 0 <= i < |rows| + 1 ==> '\n' !in CsvLines(names, rows, format)[i]
  {
    var lines := CsvLines(names, rows, format);
    forall i | 0 <= i < |lines|
      ensures Trimmed(lines[i]) && '\n' !in lines[i]
    {
      if i == 0 {
        PlainLine(names);
      } else {
        var row := rows[i - 1];
        assert lines[i] == Join(FormatRow(row, format), ",");
        forall j | 0 <= j < |row|
          ensures Rereadable(parse, format, row[j])
        {
          var v := rows[i - 1][j];
          assert Rereadable(parse, format, v);
        }
        PlainRow(row, parse, format);
        PlainLine(FormatRow(row, format));
      }
    }
    JoinTrimmed(lines, "\n");
  }
}
