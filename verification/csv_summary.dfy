/**
 * The flat summary `applications_summary.csv` beside the JSON records (server.js:50-60): a
 * header line written only when the file is absent, then one row per submission with eight
 * double-quoted fields. Nothing inside a field is escaped, unlike the quote-doubling rule of
 * section 2 of RFC 4180.
 */
module CsvSummary {
  import opened Wrappers
  import opened Text
  import opened JsValues
  import opened Records

  const SummaryFileName := "applications_summary.csv"
  /** The header's column names; the header line is them joined by commas. */
  const HeaderNames: seq<string> :=
    ["Timestamp", "Name", "Email", "Phone", "Business Name", "Industry", "Website",
     "Employee Count"]
  const HeaderLine := JoinWith(HeaderNames, ',')
  const Header := HeaderLine + "\n"

  /** The form fields of columns two to eight, in order. */
  const FormColumns: seq<string> :=
    ["fullName", "email", "phone", "businessName", "industry", "website", "employeeCount"]

  /**
   * The eight cells of a row: the stored record's `submittedDate` as a template literal
   * renders it (no `|| ''`), then each form column with `|| ''`. Any of them that cannot be
   * converted makes the template literal throw, and no row is produced.
   */
  function RowCells(submission: Record, form: Record): (r: Result<seq<string>, JsError>)
    ensures r.Err? <==> TemplateText(Get(submission, SubmittedDate)).Err?
                        || exists k :: 0 <= k < 7 && OrEmpty(Get(form, FormColumns[k])).Err?
    ensures r.Err? ==> r.error == TypeError(ConversionMessage)
    ensures r.Ok? ==> |r.value| == 8
    ensures r.Ok? ==> r.value[0] == TemplateText(Get(submission, SubmittedDate)).value
    ensures r.Ok? ==> forall k :: 1 <= k < 8 ==>
                        r.value[k] == OrEmpty(Get(form, FormColumns[k - 1])).value
  {
    var first := TemplateText(Get(submission, SubmittedDate));
    var rest := seq(7, k requires 0 <= k < 7 => OrEmpty(Get(form, FormColumns[k])));
    assert forall k :: 0 <= k < 7 ==> rest[k] == OrEmpty(Get(form, FormColumns[k]));
    if first.Err? then Err(first.error)
    else if exists k :: 0 <= k < 7 && rest[k].Err? then Err(TypeError(ConversionMessage))
    else Ok([first.value] + seq(7, k requires 0 <= k < 7 => rest[k].value))
  }

  /** A form value that cannot be converted: `${formData.fullName || ''}` throws. */
  lemma UnconvertibleNameFailsRow(submission: Record, form: Record)
    requires "fullName" in form && Unconvertible(form["fullName"])
    ensures RowCells(submission, form) == Err(TypeError(ConversionMessage))
  {
    assert FormColumns[0] == "fullName";
    assert OrEmpty(Get(form, FormColumns[0])).Err?;
  }

  function Quote(cell: string): string
  {
    "\"" + cell + "\""
  }

  function QuoteAll(cells: seq<string>): (quoted: seq<string>)
    ensures |quoted| == |cells|
    ensures forall k :: 0 <= k < |cells| ==> quoted[k] == Quote(cells[k])
  {
    seq(|cells|, k requires 0 <= k < |cells| => Quote(cells[k]))
  }

  /** One appended row: the quoted cells joined by commas, then a line break. */
  function Row(cells: seq<string>): (r: string)
    ensures |r| >= 1 && r[|r| - 1] == '\n'
    ensures |cells| >= 1 ==> r[0] == '"'
  {
    var body := JoinWith(QuoteAll(cells), ',');
    assert |cells| >= 1 ==> body[0] == '"' by {
      if |cells| >= 1 {
        JoinStartsWithFirst(QuoteAll(cells), ',');
        assert QuoteAll(cells)[0][0] == '"';
        assert body[0] == QuoteAll(cells)[0][0];
      }
    }
    body + "\n"
  }

  /** Strips one pair of surrounding double quotes. */
  function Unquote(field: string): string
  {
    if |field| >= 2 && field[0] == '"' && field[|field| - 1] == '"' then field[1..|field| - 1]
    else field
  }

  /** A reader that, like the writer, knows nothing of escaping: split at commas, unquote. */
  function ReadRow(line: string): (cells: seq<string>)
  {
    var body := if EndsWith(line, "\n") then line[..|line| - 1] else line;
    var fields := SplitOn(body, ',');
    seq(|fields|, k requires 0 <= k < |fields| => Unquote(fields[k]))
  }

  lemma QuotedOccurrences(cell: string, c: char)
    requires c != '"'
    ensures Occurrences(Quote(cell), c) == Occurrences(cell, c)
  {
    OccurrencesAppend("\"", cell, c);
    OccurrencesAppend("\"" + cell, "\"", c);
    assert Occurrences("\"", c) == 0 by {
      assert "\""[1..] == [];
    }
  }

  lemma {:induction false} QuotedTotal(cells: seq<string>, c: char)
    requires c != '"'
    ensures TotalOccurrences(QuoteAll(cells), c) == TotalOccurrences(cells, c)
  {
    if cells != [] {
      QuotedOccurrences(cells[0], c);
      assert QuoteAll(cells)[1..] == QuoteAll(cells[1..]);
      QuotedTotal(cells[1..], c);
    }
  }

  /** The row's text without its final line break. */
  lemma RowBody(cells: seq<string>)
    ensures EndsWith(Row(cells), "\n")
    ensures Row(cells)[..|Row(cells)| - 1] == JoinWith(QuoteAll(cells), ',')
  {
  }

  /**
   * Every comma inside a value splits it into one more field: a row reads back as
   * `|cells|` fields plus one per embedded comma.
   */
  lemma FieldCount(cells: seq<string>)
    requires |cells| >= 1
    ensures |ReadRow(Row(cells))| == |cells| + TotalOccurrences(cells, ',')
  {
    RowBody(cells);
    var body := JoinWith(QuoteAll(cells), ',');
    SplitCount(body, ',');
    JoinOccurrences(QuoteAll(cells), ',', ',');
    QuotedTotal(cells, ',');
  }

  /** Without commas in the values, reading a row gives back exactly the values, in order. */
  lemma RowRoundTrip(cells: seq<string>)
    requires |cells| >= 1
    requires forall k :: 0 <= k < |cells| ==> ',' !in cells[k]
    ensures ReadRow(Row(cells)) == cells
  {
    RowBody(cells);
    var quoted := QuoteAll(cells);
    forall k | 0 <= k < |quoted|
      ensures ',' !in quoted[k]
    {
      assert quoted[k] == "\"" + cells[k] + "\"";
    }
    SplitJoin(quoted, ',');
    forall k | 0 <= k < |cells|
      ensures Unquote(quoted[k]) == cells[k]
    {
      assert quoted[k][1..|quoted[k]| - 1] == cells[k];
    }
  }

  /**
   * A row adds one line break, plus one per line break inside a value: a row is exactly one
   * line of the file when no value holds a line break.
   */
  /** A form value that is absent or a number renders without a comma or a line break. */
  lemma NumberCellIsPlain(v: Option<Value>)
    requires v.None? || v.value.Num?
    ensures OrEmpty(v).Ok?
    ensures ',' !in OrEmpty(v).value && '\n' !in OrEmpty(v).value
  {
    if v.Some? {
      DecimalTextPlain(v.value.n);
    }
  }

  /**
   * A row whose date text holds no comma and whose form fields are numbers or absent reads
   * back as its cells.
   */
  lemma NumericRowRoundTrip(submission: Record, form: Record)
    requires TemplateText(Get(submission, SubmittedDate)).Ok?
    requires ',' !in TemplateText(Get(submission, SubmittedDate)).value
    requires forall k :: 0 <= k < 7 ==> FormColumns[k] !in form || form[FormColumns[k]].Num?
    ensures RowCells(submission, form).Ok?
    ensures ReadRow(Row(RowCells(submission, form).value)) == RowCells(submission, form).value
  {
    forall k | 0 <= k < 7
      ensures OrEmpty(Get(form, FormColumns[k])).Ok?
      ensures ',' !in OrEmpty(Get(form, FormColumns[k])).value
    {
      NumberCellIsPlain(Get(form, FormColumns[k]));
    }
    var cells := RowCells(submission, form).value;
    forall k | 0 <= k < |cells|
      ensures ',' !in cells[k]
    {
    }
    RowRoundTrip(cells);
  }

  lemma RowLineBreaks(cells: seq<string>)
    requires |cells| >= 1
    ensures Occurrences(Row(cells), '\n') == 1 + TotalOccurrences(cells, '\n')
  {
    JoinOccurrences(QuoteAll(cells), ',', '\n');
    QuotedTotal(cells, '\n');
    OccurrencesAppend(JoinWith(QuoteAll(cells), ','), "\n", '\n');
    assert Occurrences("\n", '\n') == 1 by {
      assert "\n"[1..] == [];
    }
  }

  lemma HeaderNamesArePlain()
    ensures forall k :: 0 <= k < |HeaderNames| ==> ',' !in HeaderNames[k] && '\n' !in HeaderNames[k]
  {
  }

  /** The header splits back into its eight column names: as many as a row has cells. */
  lemma HeaderColumns()
    ensures SplitOn(HeaderLine, ',') == HeaderNames
    ensures |SplitOn(HeaderLine, ',')| == 8
  {
    HeaderNamesArePlain();
    SplitJoin(HeaderNames, ',');
  }

  lemma {:induction false} NoLineBreaks(parts: seq<string>)
    requires forall k :: 0 <= k < |parts| ==> '\n' !in parts[k]
    ensures TotalOccurrences(parts, '\n') == 0
  {
    if parts != [] {
      OccurrencesAbsent(parts[0], '\n');
      NoLineBreaks(parts[1..]);
    }
  }

  /** The header is a single line. */
  lemma HeaderIsOneLine()
    ensures Occurrences(Header, '\n') == 1
  {
    HeaderNamesArePlain();
    NoLineBreaks(HeaderNames);
    JoinOccurrences(HeaderNames, ',', '\n');
    OccurrencesAppend(HeaderLine, "\n", '\n');
    assert Occurrences("\n", '\n') == 1 by {
      assert "\n"[1..] == [];
    }
  }

  /**
   * The summary's text after one submission (server.js:54-60): `header` first, only when the
   * file was absent, then the row appended. The store passes `Header`.
   */
  function SummaryAfter(header: string, before: Option<string>, row: string): (r: string)
    ensures before.Some? ==> before.value <= r
    ensures before.None? ==> header <= r
    ensures EndsWith(r, row)
  {
    var start := if before.None? then header else before.value;
    assert (start + row)[|start|..] == row;
    start + row
  }

  /** The summary's text after a series of submissions, one row each. */
  function SummaryAfterAll(header: string, before: Option<string>, rows: seq<string>): Option<string>
    decreases |rows|
  {
    if rows == [] then before
    else SummaryAfterAll(header, Some(SummaryAfter(header, before, rows[0])), rows[1..])
  }

  function Concat(rows: seq<string>): string
  {
    if rows == [] then "" else rows[0] + Concat(rows[1..])
  }

  /** An existing summary is only ever appended to: its old text stays a prefix. */
  lemma {:induction false} AppendOnly(header: string, before: string, rows: seq<string>)
    ensures SummaryAfterAll(header, Some(before), rows) == Some(before + Concat(rows))
    decreases rows
  {
    if rows == [] {
      assert before + Concat(rows) == before;
    } else {
      AppendOnly(header, before + rows[0], rows[1..]);
      assert before + rows[0] + Concat(rows[1..]) == before + Concat(rows);
    }
  }

  /** Starting from no file, the header is written once, ahead of every row. */
  lemma HeaderWrittenOnce(header: string, rows: seq<string>)
    requires |rows| >= 1
    ensures SummaryAfterAll(header, None, rows) == Some(header + Concat(rows))
  {
    AppendOnly(header, header + rows[0], rows[1..]);
    assert header + rows[0] + Concat(rows[1..]) == header + Concat(rows);
  }

  function Rows(table: seq<seq<string>>): seq<string>
  {
    seq(|table|, i requires 0 <= i < |table| => Row(table[i]))
  }

  lemma {:induction false} ConcatLineBreaks(table: seq<seq<string>>)
    requires forall i :: 0 <= i < |table| ==> |table[i]| >= 1
    requires forall i :: 0 <= i < |table| ==> TotalOccurrences(table[i], '\n') == 0
    ensures Occurrences(Concat(Rows(table)), '\n') == |table|
  {
    if table != [] {
      RowLineBreaks(table[0]);
      assert Rows(table)[1..] == Rows(table[1..]);
      ConcatLineBreaks(table[1..]);
      OccurrencesAppend(Row(table[0]), Concat(Rows(table[1..])), '\n');
    }
  }

  /**
   * After n submissions whose values hold no line breaks, starting from no file, the summary
   * has exactly n + 1 lines: the header and one per submission.
   */
  lemma SummaryLineCount(table: seq<seq<string>>)
    requires |table| >= 1
    requires forall i :: 0 <= i < |table| ==> |table[i]| >= 1
    requires forall i :: 0 <= i < |table| ==> TotalOccurrences(table[i], '\n') == 0
    ensures SummaryAfterAll(Header, None, Rows(table)).Some?
    ensures Occurrences(SummaryAfterAll(Header, None, Rows(table)).value, '\n') == |table| + 1
  {
    HeaderWrittenOnce(Header, Rows(table));
    ConcatLineBreaks(table);
    OccurrencesAppend(Header, Concat(Rows(table)), '\n');
    HeaderIsOneLine();
  }
}
