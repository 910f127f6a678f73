/** CSV cells (csvCell in src/admin/adminRouteUtils.ts), the tables printed from them, and reading them back. */
module Csv {
  import opened Seqs
  import opened Text

  // ---------------------------------------------------------------------------
  // Printing
  // ---------------------------------------------------------------------------

  predicate IsFormulaStart(c: char) {
    c == '=' || c == '+' || c == '-' || c == '@'
  }

  /** `/^[\s]*[=+\-@]/` matches: a formula character preceded by nothing but whitespace. */
  predicate LooksLikeFormula(value: string) {
    exists k :: 0 <= k < |value| && IsFormulaStart(value[k]) && forall j :: 0 <= j < k ==> IsWhitespace(value[j])
  }

  function Guarded(value: string): string {
    if LooksLikeFormula(value) then "'" + value else value
  }

  function DoubleQuotes(value: string): string {
    if value == "" then ""
    else
      var before, c := DoubleQuotes(value[..|value| - 1]), value[|value| - 1];
      if c == '"' then before + "\"\"" else before + [c]
  }

  function CsvCell(value: string): string {
    "\"" + DoubleQuotes(Guarded(value)) + "\""
  }

  function PrintRow(row: seq<string>): string {
    if row == [] then ""
    else if |row| == 1 then CsvCell(row[0])
    else PrintRow(row[..|row| - 1]) + "," + CsvCell(row[|row| - 1])
  }

  /** The rows joined by CRLF. */
  function PrintRows(rows: seq<seq<string>>): string {
    if rows == [] then ""
    else if |rows| == 1 then PrintRow(rows[0])
    else PrintRows(rows[..|rows| - 1]) + "\r\n" + PrintRow(rows[|rows| - 1])
  }

  function PrintTable(rows: seq<seq<string>>): string {
    PrintRows(rows) + "\r\n"
  }

  // ---------------------------------------------------------------------------
  // Reading: section 2 of RFC 4180, with TEXTDATA any character but comma, quote, CR and LF
  // ---------------------------------------------------------------------------

  datatype Mode = FieldStart | Plain | Quoted | QuoteSeen | CrSeen

  datatype Reader =
    | Reading(records: seq<seq<string>>, record: seq<string>, field: string, mode: Mode)
    | Malformed

  function ReadStep(r: Reader, c: char): Reader {
    if r.Malformed? then Malformed
    else if r.mode == Quoted then
      if c == '"' then r.(mode := QuoteSeen) else r.(field := r.field + [c])
    else if r.mode == CrSeen then
      if c == '\n' then Reading(r.records + [r.record + [r.field]], [], "", FieldStart) else Malformed
    else if c == ',' then Reading(r.records, r.record + [r.field], "", FieldStart)
    else if c == '\r' then r.(mode := CrSeen)
    else if c == '\n' then Malformed
    else if c == '"' then
      if r.mode == FieldStart then r.(mode := Quoted)
      else if r.mode == QuoteSeen then r.(field := r.field + "\"", mode := Quoted)
      else Malformed
    else if r.mode == QuoteSeen then Malformed
    else r.(field := r.field + [c], mode := Plain)
  }

  function ReadFrom(r: Reader, s: string): Reader {
    if s == "" then r else ReadStep(ReadFrom(r, s[..|s| - 1]), s[|s| - 1])
  }

  /** The records of a file; the line break after the last one is optional. */
  function ReadCsv(s: string): Option<seq<seq<string>>> {
    match ReadFrom(Reading([], [], "", FieldStart), s)
    case Reading(records, record, field, mode) =>
      if mode == Quoted || mode == CrSeen then None
      else if mode == FieldStart && record == [] then Some(records)
      else Some(records + [record + [field]])
    case Malformed => None
  }

  // ---------------------------------------------------------------------------
  // The formula guard
  // ---------------------------------------------------------------------------

  /** No guarded cell opens with optional whitespace and a formula character, and guarding again changes nothing. */
  lemma GuardHolds(value: string)
    ensures !LooksLikeFormula(Guarded(value))
    ensures Guarded(Guarded(value)) == Guarded(value)
  {
    if LooksLikeFormula(value) {
      var r := "'" + value;
      assert r[0] == '\'';
      assert !IsWhitespace(r[0]);
    }
  }

  /** The guard loses exactly one distinction: a formula against the same text already carrying an apostrophe. */
  lemma GuardConfusesExactly(a: string, b: string)
    ensures Guarded(a) == Guarded(b)
       <==> a == b || (LooksLikeFormula(a) && b == "'" + a) || (LooksLikeFormula(b) && a == "'" + b)
  {
    if LooksLikeFormula(a) {
      GuardHolds(a);
      assert ("'" + a)[1..] == a;
    }
    if LooksLikeFormula(b) {
      GuardHolds(b);
      assert ("'" + b)[1..] == b;
    }
  }

  // ---------------------------------------------------------------------------
  // Round trip
  // ---------------------------------------------------------------------------

  lemma {:induction false} ReadAppend(r: Reader, a: string, b: string)
    ensures ReadFrom(r, a + b) == ReadFrom(ReadFrom(r, a), b)
    decreases |b|
  {
    if b == "" {
      AppendNothing(a);
    } else {
      var front := b[..|b| - 1];
      ReadAppend(r, a, front);
      AppendFromLast(a, b);
    }
  }

  lemma ReadOne(r: Reader, c: char)
    ensures ReadFrom(r, [c]) == ReadStep(r, c)
  {
    InitOfPush("", c);
  }

  lemma {:induction false} ReadQuotedText(r: Reader, s: string)
    requires r.Reading? && r.mode == Quoted
    ensures ReadFrom(r, DoubleQuotes(s)) == r.(field := r.field + s)
  {
    if s == "" {
      AppendNothing(r.field);
    } else {
      var front, c := s[..|s| - 1], s[|s| - 1];
      ReadQuotedText(r, front);
      InitLast(s);
      AppendAssociative(r.field, front, [c]);
      if c == '"' {
        ReadAppend(r, DoubleQuotes(front), "\"\"");
        assert "\"\"" == "\"" + "\"";
        var mid := r.(field := r.field + front);
        ReadAppend(mid, "\"", "\"");
        ReadOne(mid, '"');
        ReadOne(mid.(mode := QuoteSeen), '"');
      } else {
        ReadAppend(r, DoubleQuotes(front), [c]);
        ReadOne(r.(field := r.field + front), c);
      }
    }
  }

  /** A printed cell reads back as the guarded value, whatever the value contains. */
  lemma ReadCell(r: Reader, value: string)
    requires r.Reading? && r.mode == FieldStart && r.field == ""
    ensures ReadFrom(r, CsvCell(value)) == r.(field := Guarded(value), mode := QuoteSeen)
  {
    hide Guarded, DoubleQuotes, ReadFrom;
    var g := Guarded(value);
    var d := DoubleQuotes(g);
    var open := r.(mode := Quoted);
    ReadAppend(r, "\"" + d, "\"");
    ReadAppend(r, "\"", d);
    ReadOne(r, '"');
    ReadQuotedText(open, g);
    AppendNothing(g);
    ReadOne(open.(field := g), '"');
  }

  function GuardedRow(row: seq<string>): (r: seq<string>)
    ensures |r| == |row|
  {
    if row == [] then [] else GuardedRow(row[..|row| - 1]) + [Guarded(row[|row| - 1])]
  }

  function GuardedTable(rows: seq<seq<string>>): (r: seq<seq<string>>)
    ensures |r| == |rows|
  {
    if rows == [] then [] else GuardedTable(rows[..|rows| - 1]) + [GuardedRow(rows[|rows| - 1])]
  }

  lemma {:induction false} ReadRow(records: seq<seq<string>>, row: seq<string>)
    requires row != []
    ensures ReadFrom(Reading(records, [], "", FieldStart), PrintRow(row))
         == var g := GuardedRow(row); Reading(records, g[..|g| - 1], g[|g| - 1], QuoteSeen)
  {
    hide Guarded, CsvCell;
    var start := Reading(records, [], "", FieldStart);
    var front, last := row[..|row| - 1], row[|row| - 1];
    InitOfPush(GuardedRow(front), Guarded(last));
    if |row| == 1 {
      ReadCell(start, last);
      assert front == [] && row[0] == last;
    } else {
      ReadRow(records, front);
      InitLast(GuardedRow(front));
      ReadAppend(start, PrintRow(front) + ",", CsvCell(last));
      ReadAppend(start, PrintRow(front), ",");
      ReadOne(ReadFrom(start, PrintRow(front)), ',');
      ReadCell(Reading(records, GuardedRow(front), "", FieldStart), last);
    }
  }

  predicate NoEmptyRow(rows: seq<seq<string>>) {
    forall i | 0 <= i < |rows| :: rows[i] != []
  }

  lemma ReadBreak(records: seq<seq<string>>, row: seq<string>, s: string)
    requires row != []
    requires ReadFrom(Reading([], [], "", FieldStart), s)
          == var g := GuardedRow(row); Reading(records, g[..|g| - 1], g[|g| - 1], QuoteSeen)
    ensures ReadFrom(Reading([], [], "", FieldStart), s + "\r\n") == Reading(records + [GuardedRow(row)], [], "", FieldStart)
  {
    var start := Reading([], [], "", FieldStart);
    var here := ReadFrom(start, s);
    InitLast(GuardedRow(row));
    ReadAppend(start, s, "\r\n");
    assert "\r\n" == "\r" + "\n";
    ReadAppend(here, "\r", "\n");
    ReadOne(here, '\r');
    ReadOne(here.(mode := CrSeen), '\n');
  }

  lemma {:induction false} ReadRows(rows: seq<seq<string>>)
    requires rows != [] && NoEmptyRow(rows)
    ensures ReadFrom(Reading([], [], "", FieldStart), PrintRows(rows) + "\r\n")
         == Reading(GuardedTable(rows), [], "", FieldStart)
  {
    hide PrintRow, GuardedRow;
    var front, last := rows[..|rows| - 1], rows[|rows| - 1];
    if |rows| == 1 {
      assert front == [] && rows[0] == last;
      ReadRow([], last);
      ReadBreak([], last, PrintRow(last));
    } else {
      ReadRows(front);
      var start := Reading([], [], "", FieldStart);
      ReadAppend(start, PrintRows(front) + "\r\n", PrintRow(last));
      ReadRow(GuardedTable(front), last);
      ReadBreak(GuardedTable(front), last, PrintRows(front) + "\r\n" + PrintRow(last));
    }
  }

  /** Reading an export gives back exactly the table of guarded cells. */
  lemma RoundTrip(rows: seq<seq<string>>)
    requires rows != [] && NoEmptyRow(rows)
    ensures ReadCsv(PrintTable(rows)) == Some(GuardedTable(rows))
  {
    ReadRows(rows);
  }

  /** Two exports are the same text exactly when their guarded tables are the same. */
  lemma PrintsAgreeExactly(a: seq<seq<string>>, b: seq<seq<string>>)
    requires a != [] && b != [] && NoEmptyRow(a) && NoEmptyRow(b)
    ensures PrintTable(a) == PrintTable(b) <==> GuardedTable(a) == GuardedTable(b)
  {
    RoundTrip(a);
    RoundTrip(b);
    if GuardedTable(a) == GuardedTable(b) {
      SamePrint(a, b);
    }
  }

  lemma {:induction false} SamePrintRow(a: seq<string>, b: seq<string>)
    requires GuardedRow(a) == GuardedRow(b)
    ensures PrintRow(a) == PrintRow(b)
  {
    assert |a| == |b|;
    if a != [] {
      InitOfPush(GuardedRow(a[..|a| - 1]), Guarded(a[|a| - 1]));
      InitOfPush(GuardedRow(b[..|b| - 1]), Guarded(b[|b| - 1]));
      SamePrintRow(a[..|a| - 1], b[..|b| - 1]);
    }
  }

  lemma {:induction false} SamePrint(a: seq<seq<string>>, b: seq<seq<string>>)
    requires GuardedTable(a) == GuardedTable(b)
    ensures PrintRows(a) == PrintRows(b)
  {
    assert |a| == |b|;
    if a != [] {
      InitOfPush(GuardedTable(a[..|a| - 1]), GuardedRow(a[|a| - 1]));
      InitOfPush(GuardedTable(b[..|b| - 1]), GuardedRow(b[|b| - 1]));
      SamePrintRow(a[|a| - 1], b[|b| - 1]);
      SamePrint(a[..|a| - 1], b[..|b| - 1]);
    }
  }

  lemma {:induction false} GuardedAt(rows: seq<seq<string>>, i: nat, j: nat)
    requires i < |rows| && j < |rows[i]|
    ensures GuardedTable(rows)[i] == GuardedRow(rows[i])
    ensures GuardedRow(rows[i])[j] == Guarded(rows[i][j])
    decreases |rows|
  {
    if i < |rows| - 1 {
      assert rows[..|rows| - 1][i] == rows[i];
      GuardedAt(rows[..|rows| - 1], i, j);
    } else {
      GuardedRowAt(rows[i], j);
    }
  }

  lemma {:induction false} GuardedRowAt(row: seq<string>, j: nat)
    requires j < |row|
    ensures GuardedRow(row)[j] == Guarded(row[j])
  {
    if j < |row| - 1 {
      assert row[..|row| - 1][j] == row[j];
      GuardedRowAt(row[..|row| - 1], j);
    }
  }

  /** A spreadsheet that opens the export finds no cell it would take for a formula. */
  lemma NoCellIsFormula(rows: seq<seq<string>>, i: nat, j: nat)
    requires rows != [] && NoEmptyRow(rows) && i < |rows| && j < |rows[i]|
    ensures ReadCsv(PrintTable(rows)).Some?
    ensures var table := ReadCsv(PrintTable(rows)).value;
            i < |table| && j < |table[i]| && table[i][j] == Guarded(rows[i][j]) && !LooksLikeFormula(table[i][j])
  {
    RoundTrip(rows);
    GuardedAt(rows, i, j);
    GuardHolds(rows[i][j]);
  }

  /** The text starts, after optional whitespace, with one of the four characters a spreadsheet takes for a formula. */
  predicate Opens(value: string, space: string, c: char, rest: string) {
    value == space + [c] + rest && c in {'=', '+', '-', '@'} && forall j :: 0 <= j < |space| ==> IsWhitespace(space[j])
  }

  lemma FormulaOpens(value: string) returns (space: string, c: char, rest: string)
    requires LooksLikeFormula(value)
    ensures Opens(value, space, c, rest)
  {
    var k :| 0 <= k < |value| && IsFormulaStart(value[k]) && forall j :: 0 <= j < k ==> IsWhitespace(value[j]);
    space, c, rest := value[..k], value[k], value[k + 1..];
    assert value == space + [c] + rest;
    hide IsWhitespace;
  }

  lemma OpensFormula(value: string, space: string, c: char, rest: string)
    requires Opens(value, space, c, rest)
    ensures LooksLikeFormula(value)
  {
    hide IsWhitespace;
    assert value[|space|] == c && forall j :: 0 <= j < |space| ==> value[j] == space[j];
    assert IsFormulaStart(value[|space|]);
  }

  /** Exactly such a text gets an apostrophe in front; any other is printed as it is. */
  lemma GuardExactly(value: string)
    ensures Guarded(value) == if exists space, c, rest :: Opens(value, space, c, rest) then "'" + value else value
  {
    if LooksLikeFormula(value) {
      var space, c, rest := FormulaOpens(value);
    }
    if space, c, rest :| Opens(value, space, c, rest) {
      OpensFormula(value, space, c, rest);
    }
    hide LooksLikeFormula, Opens;
  }

  /** A cell is printed between quotes, each quote in it doubled. */
  lemma CellExactly(value: string, a: string, b: string)
    ensures CsvCell(value) == "\"" + DoubleQuotes(Guarded(value)) + "\""
    ensures DoubleQuotes(a + "\"" + b) == DoubleQuotes(a) + "\"\"" + DoubleQuotes(b)
    ensures '"' !in a ==> DoubleQuotes(a) == a
  {
    QuotesAppend(a + "\"", b);
    QuotesAppend(a, "\"");
    assert DoubleQuotes("\"") == "\"\"" by {
      assert "\""[..0] == "" && "" + "\"\"" == "\"\"";
    }
    if '"' !in a {
      NoQuotes(a);
    }
    hide DoubleQuotes;
  }

  lemma {:induction false} QuotesAppend(a: string, b: string)
    ensures DoubleQuotes(a + b) == DoubleQuotes(a) + DoubleQuotes(b)
    decreases |b|
  {
    if b == "" {
      AppendNothing(a);
      AppendNothing(DoubleQuotes(a));
    } else {
      var front, c := b[..|b| - 1], b[|b| - 1];
      QuotesAppend(a, front);
      AppendFromLast(a, b);
      AppendAssociative(DoubleQuotes(a), DoubleQuotes(front), if c == '"' then "\"\"" else [c]);
    }
  }

  lemma {:induction false} NoQuotes(a: string)
    requires '"' !in a
    ensures DoubleQuotes(a) == a
  {
    if a != "" {
      NoQuotes(a[..|a| - 1]);
      InitLast(a);
    }
  }
}
