/**
  The walk over the rows of the `equityStockTable` element: the header row is
  dropped, rows with too few cells are skipped, and every other row becomes one
  record by reading fixed cell positions. The HTML parser itself is not part of
  this model: a table is given as the stripped text of each row's `td` cells,
  and a page without the table as `None`.
*/
module TableExtraction {
  import opened Wrappers
  import opened NumberParsing
  import opened StockRecords
  import opened Sequences

  /** The stripped text of the `td` cells of one table row. */
  type Row = seq<string>

  /** A row with fewer cells than this is not a quote row and is skipped. */
  const MinCells: nat := 15

  /** The recoverable failure of one scrape: the page did not contain the table. */
  datatype ScrapeError = TableNotFound

  /** The numeric columns in the order of the data frame's columns. */
  const NumericColumns: seq<Field> :=
    [Open, High, Low, PrevClose, Ltp, Change, PctChange, Volume, Value, High52W, Low52W, PctChange30D]

  /** The cell a numeric column is read from. Cell 0 holds the symbol; cells 6 and 14 are never read. */
  function CellOf(f: Field): nat
  {
    match f
    case Open => 1
    case High => 2
    case Low => 3
    case PrevClose => 4
    case Ltp => 5
    case Change => 7
    case PctChange => 8
    case Volume => 9
    case Value => 10
    case High52W => 11
    case Low52W => 12
    case PctChange30D => 13
  }

  predicate IsQuoteRow(row: Row) {
    |row| >= MinCells
  }

  /** One record from one quote row: the symbol as text, every other column through the parser. */
  function RecordOfRow(row: Row): Record
    requires IsQuoteRow(row)
  {
    Record(
      row[0],
      ParseFloat(row[1]), ParseFloat(row[2]), ParseFloat(row[3]), ParseFloat(row[4]), ParseFloat(row[5]),
      ParseFloat(row[7]), ParseFloat(row[8]), ParseFloat(row[9]), ParseFloat(row[10]),
      ParseFloat(row[11]), ParseFloat(row[12]), ParseFloat(row[13]))
  }

  /** The loop over the data rows: append a record for each quote row, skip the others. */
  function QuoteRecords(rows: seq<Row>): seq<Record>
  {
    if rows == [] then []
    else
      var last := rows[|rows| - 1];
      QuoteRecords(rows[..|rows| - 1]) + (if IsQuoteRow(last) then [RecordOfRow(last)] else [])
  }

  /** The rows after the header row (none when the table has no rows at all). */
  function BodyRows(rows: seq<Row>): seq<Row>
  {
    if rows == [] then [] else rows[1..]
  }

  /** Locate the table and turn its body rows into records. */
  function ExtractTable(table: Option<seq<Row>>): (r: Result<seq<Record>, ScrapeError>)
    ensures table.None? ==> r == Failure(TableNotFound)
    ensures table.Some? ==> r.Success?
    ensures table.Some? ==>
      var quotes := Filter(IsQuoteRow, BodyRows(table.value));
      && |r.value| == |quotes|
      && forall k :: 0 <= k < |quotes| ==> r.value[k] == RecordOfRow(quotes[k])
  {
    match table
    case None => Failure(TableNotFound)
    case Some(rows) =>
      QuoteRecordsAreMappedQuoteRows(BodyRows(rows));
      Success(QuoteRecords(BodyRows(rows)))
  }

  // ---------------------------------------------------------------------------
  // Properties of the row loop
  // ---------------------------------------------------------------------------

  /** Cells 1-5 and 7-13 feed the twelve numeric columns, in column order, each from its own cell. */
  lemma CellsFollowColumnOrder()
    ensures forall i, j :: 0 <= i < j < |NumericColumns| ==> CellOf(NumericColumns[i]) < CellOf(NumericColumns[j])
    ensures forall f :: 1 <= CellOf(f) <= 13 && CellOf(f) != 6
  {
  }

  /** The symbol is cell 0 as text, and each numeric column is its own cell through the parser. */
  lemma RecordColumns(row: Row)
    requires IsQuoteRow(row)
    ensures RecordOfRow(row).symbol == row[0]
    ensures forall f :: Get(RecordOfRow(row), f) == ParseFloat(row[CellOf(f)])
  {
    forall f
      ensures Get(RecordOfRow(row), f) == ParseFloat(row[CellOf(f)])
    {
      match f
      case Open =>
      case High =>
      case Low =>
      case PrevClose =>
      case Ltp =>
      case Change =>
      case PctChange =>
      case Volume =>
      case Value =>
      case High52W =>
      case Low52W =>
      case PctChange30D =>
    }
  }

  /** Two quote rows that agree on the symbol cell and on every cell read agree on the record. */
  lemma UnreadCellsIgnored(a: Row, b: Row)
    requires IsQuoteRow(a) && IsQuoteRow(b)
    requires a[0] == b[0]
    requires forall f :: a[CellOf(f)] == b[CellOf(f)]
    ensures RecordOfRow(a) == RecordOfRow(b)
  {
    var ra, rb := RecordOfRow(a), RecordOfRow(b);
    RecordColumns(a);
    RecordColumns(b);
    assert Get(ra, Open) == Get(rb, Open) && Get(ra, High) == Get(rb, High);
    assert Get(ra, Low) == Get(rb, Low) && Get(ra, PrevClose) == Get(rb, PrevClose);
    assert Get(ra, Ltp) == Get(rb, Ltp) && Get(ra, Change) == Get(rb, Change);
    assert Get(ra, PctChange) == Get(rb, PctChange) && Get(ra, Volume) == Get(rb, Volume);
    assert Get(ra, Value) == Get(rb, Value) && Get(ra, High52W) == Get(rb, High52W);
    assert Get(ra, Low52W) == Get(rb, Low52W) && Get(ra, PctChange30D) == Get(rb, PctChange30D);
  }

  /** The records of two blocks of rows are the records of the first block followed by those of the second. */
  lemma {:induction false} QuoteRecordsAppend(a: seq<Row>, b: seq<Row>)
    ensures QuoteRecords(a + b) == QuoteRecords(a) + QuoteRecords(b)
    decreases |b|
  {
    if b == [] {
      assert a + b == a;
    } else {
      var init := b[..|b| - 1];
      assert (a + b)[..|a + b| - 1] == a + init;
      assert (a + b)[|a + b| - 1] == b[|b| - 1];
      QuoteRecordsAppend(a, init);
    }
  }

  /** A single row yields exactly one record when it has enough cells, and none otherwise. */
  lemma OneRowOneRecord(rows: seq<Row>, row: Row)
    ensures IsQuoteRow(row) ==> QuoteRecords(rows + [row]) == QuoteRecords(rows) + [RecordOfRow(row)]
    ensures !IsQuoteRow(row) ==> QuoteRecords(rows + [row]) == QuoteRecords(rows)
  {
    assert (rows + [row])[..|rows|] == rows;
  }

  /** The loop computes the quote rows, in order, each mapped to its record. */
  lemma {:induction false} QuoteRecordsAreMappedQuoteRows(rows: seq<Row>)
    ensures |QuoteRecords(rows)| == |Filter(IsQuoteRow, rows)|
    ensures forall k :: 0 <= k < |QuoteRecords(rows)| ==>
      QuoteRecords(rows)[k] == RecordOfRow(Filter(IsQuoteRow, rows)[k])
    decreases |rows|
  {
    if rows != [] {
      var init, last := rows[..|rows| - 1], rows[|rows| - 1];
      assert rows == init + [last];
      QuoteRecordsAreMappedQuoteRows(init);
      FilterAppend(IsQuoteRow, init, [last]);
      assert Filter(IsQuoteRow, [last]) == if IsQuoteRow(last) then [last] else [];
    }
  }

  /** Whatever the header row holds, it never becomes a record. */
  lemma HeaderRowIgnored(h1: Row, h2: Row, body: seq<Row>)
    ensures ExtractTable(Some([h1] + body)) == ExtractTable(Some([h2] + body))
  {
    assert ([h1] + body)[1..] == body == ([h2] + body)[1..];
  }
}
