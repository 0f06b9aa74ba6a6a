/**
 * The text `exportToCSV` hands to the download: a fixed header row, then
 * one row per record in list order, cells joined by `,` and rows by a
 * newline, with no quoting.
 */
module Csv {
  import opened Strings
  import opened Expenses

  const Header: seq<string> := ["Title", "Amount", "Date", "Category"]

  /** A record's cells: title, amount, date, category. */
  function CellsOf(e: Expense): seq<string> {
    [e.title, IntText(e.amount), e.date, e.category]
  }

  /** The cells of each record in list order, pushed one row at a time. */
  function CellRows(list: seq<Expense>): (t: seq<seq<string>>)
    ensures |t| == |list|
    ensures forall k :: 0 <= k < |list| ==> t[k] == CellsOf(list[k])
  {
    if list == [] then [] else CellRows(list[..|list| - 1]) + [CellsOf(list[|list| - 1])]
  }

  /** The header followed by the record rows: the `csvRows` the export builds. */
  function Table(list: seq<Expense>): seq<seq<string>> {
    [Header] + CellRows(list)
  }

  /** Each row as one line, its cells separated by commas. */
  function JoinRows(rows: seq<seq<string>>): (r: seq<string>)
    ensures |r| == |rows|
    ensures forall k :: 0 <= k < |rows| ==> r[k] == Join(rows[k], ',')
  {
    if rows == [] then [] else [Join(rows[0], ',')] + JoinRows(rows[1..])
  }

  /** The lines of the table separated by newlines. */
  function CsvText(list: seq<Expense>): (text: string)
    ensures "Title,Amount,Date,Category" <= text
    ensures list != [] ==> "Title,Amount,Date,Category" + "\n" <= text
  {
    HeaderLine();
    Join(JoinRows(Table(list)), '\n')
  }

  /** Joining four parts puts the separator between each neighbouring pair. */
  lemma JoinFour(a: string, b: string, c: string, d: string, sep: char)
    ensures Join([a, b, c, d], sep) == a + [sep] + (b + [sep] + (c + [sep] + d))
  {
    var parts := [a, b, c, d];
    assert parts[1..] == [b, c, d] && parts[1..][1..] == [c, d] && parts[1..][1..][1..] == [d];
    assert Join([c, d], sep) == c + [sep] + d;
    assert Join([b, c, d], sep) == b + [sep] + Join([c, d], sep);
  }

  lemma HeaderLine()
    ensures Join(Header, ',') == "Title,Amount,Date,Category"
  {
    JoinFour("Title", "Amount", "Date", "Category", ',');
  }

  /** An empty list gives the header line alone. */
  lemma CsvOfEmpty()
    ensures CsvText([]) == "Title,Amount,Date,Category"
  {
    assert Table([]) == [Header];
    HeaderLine();
    assert JoinRows([Header]) == ["Title,Amount,Date,Category"];
  }

  predicate NoNewlines(e: Expense) {
    '\n' !in e.title && '\n' !in e.date && '\n' !in e.category
  }

  lemma AmountTextHasNoSeparators(n: int)
    ensures '\n' !in IntText(n) && ',' !in IntText(n)
  {
  }

  lemma {:induction false} JoinNoSeparator(parts: seq<string>, sep: char, c: char)
    requires c != sep && NoneContains(parts, c)
    ensures c !in Join(parts, sep)
  {
    if |parts| > 1 {
      JoinNoSeparator(parts[1..], sep, c);
    }
  }

  lemma LinesHaveNoNewline(list: seq<Expense>)
    requires forall k :: 0 <= k < |list| ==> NoNewlines(list[k])
    ensures NoneContains(JoinRows(Table(list)), '\n')
  {
    var t := Table(list);
    forall k | 0 <= k < |t|
      ensures '\n' !in Join(t[k], ',')
    {
      if k == 0 {
        HeaderHasNoNewline();
      } else {
        assert t[k] == CellsOf(list[k - 1]);
        CellsHaveNoNewline(list[k - 1]);
      }
      JoinNoSeparator(t[k], ',', '\n');
    }
  }

  lemma HeaderHasNoNewline()
    ensures NoneContains(Header, '\n')
  {
    assert forall k :: 0 <= k < |Header| ==> '\n' !in Header[k] by {
      assert '\n' !in "Title" && '\n' !in "Amount" && '\n' !in "Date" && '\n' !in "Category";
    }
  }

  lemma CellsHaveNoNewline(e: Expense)
    requires NoNewlines(e)
    ensures NoneContains(CellsOf(e), '\n')
  {
    AmountTextHasNoSeparators(e.amount);
  }

  /**
   * Read back line by line, the text is the header line followed by one
   * line per record in list order, so there are |list| + 1 lines, when no
   * field holds a newline.
   */
  lemma CsvLines(list: seq<Expense>)
    requires forall k :: 0 <= k < |list| ==> NoNewlines(list[k])
    ensures |Split(CsvText(list), '\n')| == |list| + 1
    ensures Split(CsvText(list), '\n')[0] == "Title,Amount,Date,Category"
    ensures forall k :: 0 <= k < |list| ==> Split(CsvText(list), '\n')[k + 1] == Join(CellsOf(list[k]), ',')
  {
    var rows := JoinRows(Table(list));
    LinesHaveNoNewline(list);
    SplitJoin(rows, '\n');
    assert Split(CsvText(list), '\n') == rows;
    HeaderLine();
    forall k | 0 <= k < |list|
      ensures rows[k + 1] == Join(CellsOf(list[k]), ',')
    {
      assert Table(list)[k + 1] == CellsOf(list[k]);
    }
  }

  /** A record's line splits back into its four cells when no cell holds a comma. */
  lemma RecordLineCells(e: Expense)
    requires ',' !in e.title && ',' !in e.date && ',' !in e.category
    ensures Split(Join(CellsOf(e), ','), ',') == CellsOf(e)
  {
    AmountTextHasNoSeparators(e.amount);
    SplitJoin(CellsOf(e), ',');
  }

  /**
   * Cells are not quoted: a title holding one comma reads back as two
   * cells, and every later cell moves one column to the right.
   */
  lemma CommaInTitleShiftsColumns(e: Expense, p: string, q: string)
    requires e.title == p + [','] + q && ',' !in p && ',' !in q
    requires ',' !in e.date && ',' !in e.category
    ensures Split(Join(CellsOf(e), ','), ',') == [p, q, IntText(e.amount), e.date, e.category]
  {
    var cells := [p, q, IntText(e.amount), e.date, e.category];
    AmountTextHasNoSeparators(e.amount);
    assert Join(CellsOf(e), ',') == Join(cells, ',');
    SplitJoin(cells, ',');
  }
}
