/**
  One pass of the scraping loop, with the browser, the waits and the output
  files left out: the page either has no quote table, and the cycle is skipped,
  or its rows become a snapshot and the five views published from it.
*/
module ScrapeCycle {
  import opened Wrappers
  import opened NumberParsing
  import opened StockRecords
  import opened Sequences
  import opened Sorting
  import opened TableExtraction
  import opened Report

  datatype CycleOutcome =
    | Skipped(error: ScrapeError)
    | Published(snapshot: seq<Record>, report: Views)

  /** The records of a found table, before rows without LTP or percent change are dropped. */
  function TableRecords(rows: seq<Row>): (rs: seq<Record>)
    ensures |rs| <= |rows|
    ensures forall r | r in rs :: exists row | row in rows[1..] :: IsQuoteRow(row) && r == RecordOfRow(row)
    ensures |rs| == |Filter(IsQuoteRow, BodyRows(rows))|
    ensures forall k | 0 <= k < |rs| :: rs[k] == RecordOfRow(Filter(IsQuoteRow, BodyRows(rows))[k])
  {
    var r := ExtractTable(Some(rows));
    var quotes := Filter(IsQuoteRow, BodyRows(rows));
    assert forall k | 0 <= k < |r.value| :: quotes[k] in rows[1..];
    r.value
  }

  /**
    One iteration of the loop: a page without the table is reported and
    skipped; otherwise the snapshot is the retained records, in table order,
    and the report is computed from it.
  */
  function RunCycle(table: Option<seq<Row>>): (out: CycleOutcome)
    ensures out.Skipped? <==> table.None?
    ensures out.Skipped? ==> out.error == TableNotFound
    ensures out.Published? ==>
      && IsSnapshot(out.snapshot)
      && IsSubsequence(out.snapshot, TableRecords(table.value))
      && (forall r :: r in out.snapshot <==> r in TableRecords(table.value) && Retained(r))
    ensures out.Published? ==>
      forall r :: multiset(out.snapshot)[r] == if Retained(r) then multiset(TableRecords(table.value))[r] else 0
    ensures out.Published? ==>
      && RanksFirst(out.report.gainers, out.snapshot, PctChange, Descending)
      && RanksFirst(out.report.losers, out.snapshot, PctChange, Ascending)
      && LeadsFilter(out.report.belowHigh, FarBelowHigh, out.snapshot)
      && LeadsFilter(out.report.aboveLow, FarAboveLow, out.snapshot)
      && RanksFirst(out.report.movers, DropNa(out.snapshot, {PctChange30D}), PctChange30D, Descending)
  {
    match ExtractTable(table)
    case Failure(e) => Skipped(e)
    case Success(records) =>
      assert records == TableRecords(table.value);
      var snap := Retain(records);
      Published(snap, BuildReport(snap))
  }

  /** What a published cycle promises determines its snapshot: the retained records of the table. */
  lemma PublishedSnapshotIsRetained(table: Option<seq<Row>>)
    requires table.Some?
    ensures RunCycle(table).Published?
    ensures RunCycle(table).snapshot == Retain(TableRecords(table.value))
  {
    var out := RunCycle(table);
    RetainUnique(TableRecords(table.value), out.snapshot);
  }

  /** A missing table publishes nothing: no snapshot and no views. */
  lemma MissingTableSkipsCycle()
    ensures RunCycle(None) == Skipped(TableNotFound)
  {
  }

  /** A header row and two quote rows yield two records, in table order. */
  lemma TwoQuoteRows(header: Row, a: Row, b: Row)
    requires IsQuoteRow(a) && IsQuoteRow(b)
    ensures TableRecords([header, a, b]) == [RecordOfRow(a), RecordOfRow(b)]
  {
    var rows := [header, a, b];
    var quotes := Filter(IsQuoteRow, BodyRows(rows));
    assert quotes == [a, b] by {
      assert BodyRows(rows) == [a, b];
      FilterKeepsAll(IsQuoteRow, [a, b]);
    }
    var r := ExtractTable(Some(rows)).value;
    assert TableRecords(rows) == r;
    assert |r| == 2 && r[0] == RecordOfRow(a) && r[1] == RecordOfRow(b);
  }

  /** A sorted list holding exactly two records with different keys lists them in key order. */
  lemma TwoRecordsSorted(t: seq<Record>, a: Record, b: Record, f: Field, o: Order)
    requires Present(a, f) && Present(b, f)
    requires InOrder(Key(a, f), Key(b, f), o) && Key(a, f) != Key(b, f)
    requires multiset(t) == multiset{a, b} && SortedBy(t, f, o)
    ensures t == [a, b]
  {
    assert |t| == 2 by {
      assert |multiset(t)| == 2;
    }
    assert t == [t[0], t[1]];
    assert multiset{t[0], t[1]} == multiset{a, b};
  }

  /** A sub-multiset as large as the whole is the whole. */
  lemma FullSubMultiset(v: seq<Record>, s: seq<Record>)
    requires |v| == |s| && multiset(v) <= multiset(s)
    ensures multiset(v) == multiset(s)
  {
    var rest := multiset(s) - multiset(v);
    assert multiset(s) == multiset(v) + rest;
    assert |rest| == 0;
  }

  /** A sorted sub-multiset as long as a two-record list holds both records, in key order. */
  lemma SortedPair(t: seq<Record>, s: seq<Record>, a: Record, b: Record, f: Field, o: Order)
    requires |t| == |s| && multiset(t) <= multiset(s) && multiset(s) == multiset{a, b}
    requires Present(a, f) && Present(b, f)
    requires InOrder(Key(a, f), Key(b, f), o) && Key(a, f) != Key(b, f)
    requires SortedBy(t, f, o)
    ensures t == [a, b]
  {
    FullSubMultiset(t, s);
    TwoRecordsSorted(t, a, b, f, o);
  }

  /** Of two retained records, the one with the higher percent change leads the gainers. */
  lemma TwoRecordGainers(a: Record, b: Record)
    requires Retained(a) && Retained(b)
    requires Key(a, PctChange) > Key(b, PctChange)
    ensures TopGainers([a, b]) == [a, b]
  {
    SortedPair(TopGainers([a, b]), [a, b], a, b, PctChange, Descending);
  }

  lemma LosersOfPair(snap: seq<Record>, a: Record, b: Record)
    requires IsSnapshot(snap) && |snap| == 2 && multiset(snap) == multiset{a, b}
    requires Retained(a) && Retained(b) && Key(a, PctChange) > Key(b, PctChange)
    ensures TopLosers(snap) == [b, a]
  {
    assert multiset(snap) == multiset{b, a};
    SortedPair(TopLosers(snap), snap, b, a, PctChange, Ascending);
  }

  /** Of two retained records, the losers list the one with the lower percent change first. */
  lemma TwoRecordLosers(a: Record, b: Record)
    requires Retained(a) && Retained(b)
    requires Key(a, PctChange) > Key(b, PctChange)
    ensures TopLosers([a, b]) == [b, a]
  {
    LosersOfPair([a, b], a, b);
  }

  /** The cycle published exactly `first` and `second`; `first` leads the gainers, `second` the losers. */
  predicate PublishesPair(out: CycleOutcome, first: Record, second: Record) {
    && out.Published?
    && out.snapshot == [first, second]
    && out.report.gainers == [first, second]
    && out.report.losers == [second, first]
  }

  /**
    End to end: a header row and two quote rows whose records keep their LTP
    and percent change, the first with the higher change, publish both
    records; the first leads the gainers and the second leads the losers.
  */
  lemma TwoRowCycle(header: Row, a: Row, b: Row)
    requires IsQuoteRow(a) && IsQuoteRow(b)
    requires Retained(RecordOfRow(a)) && Retained(RecordOfRow(b))
    requires Key(RecordOfRow(a), PctChange) > Key(RecordOfRow(b), PctChange)
    ensures PublishesPair(RunCycle(Some([header, a, b])), RecordOfRow(a), RecordOfRow(b))
  {
    var ra, rb := RecordOfRow(a), RecordOfRow(b);
    TwoQuoteRows(header, a, b);
    var snap := Retain([ra, rb]);
    RetainIdempotent([ra, rb]);
    TwoRecordGainers(ra, rb);
    TwoRecordLosers(ra, rb);
  }

  /** A header row and two quote rows whose records are retained publish those two records, in table order. */
  lemma CycleOfTwoRows(header: Row, a: Row, b: Row)
    requires IsQuoteRow(a) && IsQuoteRow(b)
    requires Retained(RecordOfRow(a)) && Retained(RecordOfRow(b))
    ensures RunCycle(Some([header, a, b]))
         == Published([RecordOfRow(a), RecordOfRow(b)], BuildReport([RecordOfRow(a), RecordOfRow(b)]))
  {
    TwoQuoteRows(header, a, b);
    RetainIdempotent([RecordOfRow(a), RecordOfRow(b)]);
  }

  /** Both sorted views of a two-record snapshot hold both records. */
  lemma PairViewsHoldBoth(a: Record, b: Record)
    requires Retained(a) && Retained(b)
    ensures multiset(TopGainers([a, b])) == multiset{a, b}
    ensures multiset(TopLosers([a, b])) == multiset{a, b}
  {
    FullSubMultiset(TopGainers([a, b]), [a, b]);
    FullSubMultiset(TopLosers([a, b]), [a, b]);
  }

  /** When the second record has the strictly higher change, it leads the gainers and trails the losers. */
  lemma PairViewsSwapped(a: Record, b: Record)
    requires Retained(a) && Retained(b) && Key(b, PctChange) > Key(a, PctChange)
    ensures TopGainers([a, b]) == [b, a] && TopLosers([a, b]) == [a, b]
  {
    var snap := [a, b];
    assert multiset(snap) == multiset{b, a};
    SortedPair(TopGainers(snap), snap, b, a, PctChange, Descending);
    LosersOfPair(snap, b, a);
  }

  /**
    End to end, in either order: a header row and two quote rows whose records
    keep their LTP and percent change publish both records in table order; the
    gainers and the losers each hold both, and when the changes differ the
    higher one leads the gainers and the lower one leads the losers.
  */
  lemma TwoRowCycleAnyOrder(header: Row, a: Row, b: Row)
    requires IsQuoteRow(a) && IsQuoteRow(b)
    requires Retained(RecordOfRow(a)) && Retained(RecordOfRow(b))
    ensures var out := RunCycle(Some([header, a, b]));
      && out.Published?
      && out.snapshot == [RecordOfRow(a), RecordOfRow(b)]
      && multiset(out.report.gainers) == multiset{RecordOfRow(a), RecordOfRow(b)}
      && multiset(out.report.losers) == multiset{RecordOfRow(a), RecordOfRow(b)}
    ensures Key(RecordOfRow(b), PctChange) > Key(RecordOfRow(a), PctChange) ==>
      var out := RunCycle(Some([header, a, b]));
      && out.report.gainers == [RecordOfRow(b), RecordOfRow(a)]
      && out.report.losers == [RecordOfRow(a), RecordOfRow(b)]
    ensures Key(RecordOfRow(a), PctChange) > Key(RecordOfRow(b), PctChange) ==>
      PublishesPair(RunCycle(Some([header, a, b])), RecordOfRow(a), RecordOfRow(b))
  {
    var ra, rb := RecordOfRow(a), RecordOfRow(b);
    CycleOfTwoRows(header, a, b);
    var rep := BuildReport([ra, rb]);
    assert rep.gainers == TopGainers([ra, rb]) && rep.losers == TopLosers([ra, rb]);
    PairViewsHoldBoth(ra, rb);
    if Key(rb, PctChange) > Key(ra, PctChange) {
      PairViewsSwapped(ra, rb);
    } else if Key(ra, PctChange) > Key(rb, PctChange) {
      TwoRecordGainers(ra, rb);
      TwoRecordLosers(ra, rb);
    }
  }

  /** The header row of the quote table. */
  const ExampleHeader: Row := ["Symbol", "Open", "High", "Low", "Prev. Close", "LTP", "Indicative Close",
    "Chng", "%Chng", "Volume", "Value", "52W H", "52W L", "30 D %Chng", "365 D %Chng"]
  /** Symbol A, last traded at 108, up 10.2%. */
  const ExampleGainer: Row := ["A", "100", "110", "95", "98", "108", "-", "10", "10.2", "1,200", "13",
    "120", "80", "5.5", "9"]
  /** Symbol B, last traded at 49, down 3.9%. */
  const ExampleLoser: Row := ["B", "50", "52", "48", "51", "49", "-", "-2", "-3.9", "900", "4.4",
    "70", "40", "-1.2", "3"]

  /** The worked example: both quotes are published; A leads the gainers, B leads the losers. */
  lemma TwoStockExample()
    ensures RunCycle(Some([ExampleHeader, ExampleGainer, ExampleLoser])).Published?
    ensures |RunCycle(Some([ExampleHeader, ExampleGainer, ExampleLoser])).snapshot| == 2
    ensures RunCycle(Some([ExampleHeader, ExampleGainer, ExampleLoser])).report.gainers
      == [RecordOfRow(ExampleGainer), RecordOfRow(ExampleLoser)]
    ensures RunCycle(Some([ExampleHeader, ExampleGainer, ExampleLoser])).report.losers
      == [RecordOfRow(ExampleLoser), RecordOfRow(ExampleGainer)]
  {
    ExampleCells();
    RecordColumns(ExampleGainer);
    RecordColumns(ExampleLoser);
    TwoRowCycle(ExampleHeader, ExampleGainer, ExampleLoser);
  }

  lemma ExampleCells()
    ensures IsQuoteRow(ExampleGainer) && IsQuoteRow(ExampleLoser)
    ensures ParseFloat(ExampleGainer[CellOf(Ltp)]) == Some(108.0)
    ensures ParseFloat(ExampleLoser[CellOf(Ltp)]) == Some(49.0)
    ensures ParseFloat(ExampleGainer[CellOf(PctChange)]) == Some(10.2)
    ensures ParseFloat(ExampleLoser[CellOf(PctChange)]) == Some(-3.9)
  {
    assert ExampleGainer[5] == "108" && ExampleGainer[8] == "10.2";
    assert ExampleLoser[5] == "49" && ExampleLoser[8] == "-3.9";
    GainerPriceCell();
    GainerChangeCell();
    LoserPriceCell();
    LoserChangeCell();
  }
}
