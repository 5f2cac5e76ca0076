/** The transformation inside the `export` command: a header line and one
    comma-joined line per record, joined with '\n' and no trailing newline. */
module ExportCommand {
  import opened Text
  import opened Expenses

  const HEADER: string := "ID,Date,Description,Amount,Category"

  /** The five fields of one CSV line, in column order. */
  function Fields(e: Expense): seq<string> {
    [IntToString(e.id), e.date, e.description, IntToString(e.amount), e.category]
  }

  /** `${id},${date},${description},${amount},${category}`: no quoting. */
  function Row(e: Expense): string {
    Join(Fields(e), ',')
  }

  /** The lines of the export, header first. */
  function Lines(xs: seq<Expense>): (lines: seq<string>)
    ensures |lines| == |xs| + 1 && lines[0] == HEADER
    ensures forall k :: 0 <= k < |xs| ==> lines[k + 1] == Row(xs[k])
  {
    [HEADER] + seq(|xs|, k requires 0 <= k < |xs| => Row(xs[k]))
  }

  /** The text written to expenses.csv. */
  function Export(xs: seq<Expense>): string {
    Join(Lines(xs), '\n')
  }

  /** The row is the template literal of the handler, field by field. */
  lemma RowIsTemplate(e: Expense)
    ensures Row(e) == IntToString(e.id) + "," + e.date + "," + e.description + ","
                      + IntToString(e.amount) + "," + e.category
  {
    var f := Fields(e);
    assert f == [f[0]] + [f[1]] + [f[2]] + [f[3]] + [f[4]];
    JoinAppend([f[0]], [f[1], f[2], f[3], f[4]], ',');
    JoinAppend([f[1]], [f[2], f[3], f[4]], ',');
    JoinAppend([f[2]], [f[3], f[4]], ',');
    JoinAppend([f[3]], [f[4]], ',');
  }

  lemma IntToStringOmits(i: int, c: char)
    requires c != '-' && !IsDigit(c)
    ensures c !in IntToString(i)
  {
  }

  predicate NoNewline(e: Expense) {
    '\n' !in e.date && '\n' !in e.description && '\n' !in e.category
  }

  /** With no line break inside a field, the export has |xs| + 1 lines:
      the header, then record k's row as line k + 1. */
  lemma ExportLines(xs: seq<Expense>)
    requires forall k :: 0 <= k < |xs| ==> NoNewline(xs[k])
    ensures Split(Export(xs), '\n') == Lines(xs)
    ensures |Split(Export(xs), '\n')| == |xs| + 1
  {
    var lines := Lines(xs);
    forall k | 0 <= k < |lines| ensures '\n' !in lines[k] {
      if k > 0 {
        RowNoNewline(xs[k - 1]);
      }
    }
    SplitJoin(lines, '\n');
  }

  lemma RowNoNewline(e: Expense)
    requires NoNewline(e)
    ensures '\n' !in Row(e)
  {
    IntToStringOmits(e.id, '\n');
    IntToStringOmits(e.amount, '\n');
    RowIsTemplate(e);
  }

  /** With no comma inside a text field, splitting a row on commas gives back
      id, date, description, amount and category. */
  lemma RowFields(e: Expense)
    requires ',' !in e.date && ',' !in e.description && ',' !in e.category
    ensures Split(Row(e), ',') == Fields(e)
    ensures ParseInt(Split(Row(e), ',')[0]) == e.id && ParseInt(Split(Row(e), ',')[3]) == e.amount
  {
    IntToStringOmits(e.id, ',');
    IntToStringOmits(e.amount, ',');
    SplitJoin(Fields(e), ',');
    ParseIntToString(e.id);
    ParseIntToString(e.amount);
  }

  /** Fields are not escaped: a comma inside the description yields a row of
      six fields, and every later column shifts by one. */
  lemma CommaInDescriptionShiftsColumns(e: Expense, d1: string, d2: string)
    requires e.description == d1 + "," + d2
    requires ',' !in e.date && ',' !in d1 && ',' !in d2 && ',' !in e.category
    ensures Split(Row(e), ',') == [IntToString(e.id), e.date, d1, d2, IntToString(e.amount), e.category]
  {
    var a := [IntToString(e.id), e.date];
    var b := [IntToString(e.amount), e.category];
    IntToStringOmits(e.id, ',');
    IntToStringOmits(e.amount, ',');
    assert Fields(e) == a + [d1 + [','] + d2] + b;
    JoinSplicedPart(a, d1, d2, b, ',');
    var parts := a + [d1, d2] + b;
    assert parts == [IntToString(e.id), e.date, d1, d2, IntToString(e.amount), e.category];
    SplitJoin(parts, ',');
  }
}
