/**
  The snapshot of one scrape and the five views derived from it: the records
  retained after dropping rows without a last traded price or percent change,
  the top five gainers and losers by percent change, the first five records at
  least 30% below their 52-week high and at least 20% above their 52-week low,
  and the top five by 30-day percent change.
*/
module Report {
  import opened StockRecords
  import opened Sequences
  import opened Sorting

  /** Every view keeps at most this many records. */
  const TopCount: nat := 5
  /** A record is far below its 52-week high when LTP ≤ 0.70 × 52W_H. */
  const HighDiscount: real := 0.70
  /** A record is far above its 52-week low when LTP ≥ 1.20 × 52W_L. */
  const LowPremium: real := 1.20

  /** The row test of `dropna(subset=fs)`: every column in `fs` is present. */
  function HasColumns(fs: set<Field>): Record -> bool
  {
    (r: Record) => forall f | f in fs :: Present(r, f)
  }

  /** `dropna(subset=fs)`: the records that have every column in `fs`, in order. */
  function DropNa(rs: seq<Record>, fs: set<Field>): seq<Record>
  {
    Filter(HasColumns(fs), rs)
  }

  lemma DropNaHasColumn(rs: seq<Record>, f: Field)
    ensures AllPresent(DropNa(rs, {f}), f)
  {
    assert f in {f};
  }

  /** A record survives into the snapshot when its LTP and %Chng both parsed. */
  predicate Retained(r: Record) {
    Present(r, Ltp) && Present(r, PctChange)
  }

  predicate IsSnapshot(rs: seq<Record>) {
    forall r | r in rs :: Retained(r)
  }

  lemma RetainedMeansBothColumns()
    ensures forall r :: HasColumns({Ltp, PctChange})(r) == Retained(r)
  {
    forall r
      ensures HasColumns({Ltp, PctChange})(r) == Retained(r)
    {
      assert Ltp in {Ltp, PctChange} && PctChange in {Ltp, PctChange};
    }
  }

  /** The snapshot the views are computed from: the records that have both a last traded price and a percent change, in table order. */
  function Retain(records: seq<Record>): (snap: seq<Record>)
    ensures IsSnapshot(snap)
    ensures forall r :: r in snap <==> r in records && Retained(r)
    ensures forall r :: multiset(snap)[r] == if Retained(r) then multiset(records)[r] else 0
    ensures IsSubsequence(snap, records)
  {
    var keep := HasColumns({Ltp, PctChange});
    RetainedMeansBothColumns();
    FilterMultiplicity(keep, records);
    FilterIsSubsequence(keep, records);
    DropNa(records, {Ltp, PctChange})
  }

  /**
    The snapshot is pinned down by what it keeps: any subsequence of the
    records with every occurrence of the retained ones and none of the others
    is the snapshot itself.
  */
  lemma RetainUnique(records: seq<Record>, snap: seq<Record>)
    requires IsSubsequence(snap, records)
    requires forall r :: multiset(snap)[r] == if Retained(r) then multiset(records)[r] else 0
    ensures snap == Retain(records)
  {
    var keep := HasColumns({Ltp, PctChange});
    RetainedMeansBothColumns();
    FilterUnique(keep, records, snap);
  }

  /** Dropping incomplete rows twice drops nothing more: a snapshot passes through unchanged. */
  lemma RetainIdempotent(records: seq<Record>)
    ensures Retain(Retain(records)) == Retain(records)
    ensures IsSnapshot(records) ==> Retain(records) == records
  {
    var keep := HasColumns({Ltp, PctChange});
    RetainedMeansBothColumns();
    FilterKeepsAll(keep, Retain(records));
    if IsSnapshot(records) {
      FilterKeepsAll(keep, records);
    }
  }

  // ---------------------------------------------------------------------------
  // Top five by percent change
  // ---------------------------------------------------------------------------

  /** The top gainers: the snapshot sorted by percent change, largest first, cut to its first five. */
  function TopGainers(snap: seq<Record>): (r: seq<Record>)
    requires IsSnapshot(snap)
    ensures |r| == Min(TopCount, |snap|)
    ensures SortedBy(r, PctChange, Descending)
    ensures multiset(r) <= multiset(snap)
  {
    var sorted := SortBy(snap, PctChange, Descending);
    HeadOfSorting(sorted, snap, PctChange, Descending, Min(TopCount, |snap|));
    sorted[..Min(TopCount, |snap|)]
  }

  /** No record left out of the gainers has a higher change than one listed. */
  lemma GainersOutrankRest(snap: seq<Record>)
    requires IsSnapshot(snap)
    ensures forall x, y | x in multiset(snap) - multiset(TopGainers(snap)) && y in TopGainers(snap) ::
      Present(x, PctChange) && Key(x, PctChange) <= Key(y, PctChange)
  {
    var sorted := SortBy(snap, PctChange, Descending);
    HeadOfSorting(sorted, snap, PctChange, Descending, Min(TopCount, |snap|));
  }

  /** The top losers: the last five of the largest-first sort, sorted again smallest first. */
  function TopLosers(snap: seq<Record>): (r: seq<Record>)
    requires IsSnapshot(snap)
    ensures |r| == Min(TopCount, |snap|)
    ensures SortedBy(r, PctChange, Ascending)
    ensures multiset(r) <= multiset(snap)
  {
    var sorted := SortBy(snap, PctChange, Descending);
    var m := |snap| - Min(TopCount, |snap|);
    TailOfSorting(sorted, snap, PctChange, Descending, m);
    assert Tail(sorted, TopCount) == sorted[m..];
    SortBy(sorted[m..], PctChange, Ascending)
  }

  /** No record left out of the losers has a lower change than one listed. */
  lemma LosersTrailRest(snap: seq<Record>)
    requires IsSnapshot(snap)
    ensures forall x, y | x in multiset(snap) - multiset(TopLosers(snap)) && y in TopLosers(snap) ::
      Present(x, PctChange) && Key(y, PctChange) <= Key(x, PctChange)
  {
    var desc := SortBy(snap, PctChange, Descending);
    var m := |snap| - Min(TopCount, |snap|);
    var losers := TopLosers(snap);
    LosersAreResortedTail(snap);
    assert multiset(losers) == multiset(desc[m..]);
    ResortedTailTrails(desc, snap, PctChange, m, losers);
  }

  /**
    The data frame's sort does not fix the order of equal changes, so another
    run may list different records among tied ones; the changes listed, in
    order, are the same whichever admissible order the sort picks.
  */
  lemma GainersIndependentOfTieOrder(snap: seq<Record>, t: seq<Record>)
    requires IsSnapshot(snap) && IsSortingOf(t, snap, PctChange, Descending)
    ensures AllPresent(Head(t, TopCount), PctChange)
    ensures Keys(Head(t, TopCount), PctChange) == Keys(TopGainers(snap), PctChange)
  {
    var sorted := SortBy(snap, PctChange, Descending);
    assert |t| == |snap| by {
      assert |multiset(t)| == |multiset(snap)|;
    }
    HeadKeysDetermined(t, sorted, snap, PctChange, Descending, Min(TopCount, |snap|));
  }

  lemma LosersAreResortedTail(snap: seq<Record>)
    requires IsSnapshot(snap)
    ensures var desc := SortBy(snap, PctChange, Descending);
      && |desc| == |snap|
      && AllPresent(desc[|snap| - Min(TopCount, |snap|)..], PctChange)
      && TopLosers(snap) == SortBy(desc[|snap| - Min(TopCount, |snap|)..], PctChange, Ascending)
      && IsSortingOf(TopLosers(snap), desc[|snap| - Min(TopCount, |snap|)..], PctChange, Ascending)
  {
    var desc := SortBy(snap, PctChange, Descending);
    TailOfSorting(desc, snap, PctChange, Descending, |snap| - Min(TopCount, |snap|));
  }

  /**
    Taking the last five of the descending sort and re-sorting them ascending
    gives the same changes as sorting ascending and taking the first five.
  */
  lemma LosersMatchAscendingSort(snap: seq<Record>)
    requires IsSnapshot(snap)
    ensures AllPresent(Head(SortBy(snap, PctChange, Ascending), TopCount), PctChange)
    ensures Keys(TopLosers(snap), PctChange) == Keys(Head(SortBy(snap, PctChange, Ascending), TopCount), PctChange)
  {
    var desc := SortBy(snap, PctChange, Descending);
    var asc := SortBy(snap, PctChange, Ascending);
    var losers := TopLosers(snap);
    var m := |snap| - Min(TopCount, |snap|);
    LosersAreResortedTail(snap);
    assert IsSortingOf(losers, desc[m..], PctChange, Ascending);
    BottomMatchesHead(snap, desc, asc, losers, m);
  }

  lemma BottomMatchesHead(snap: seq<Record>, desc: seq<Record>, asc: seq<Record>, losers: seq<Record>, m: nat)
    requires IsSnapshot(snap) && |desc| == |snap| && m == |snap| - Min(TopCount, |snap|)
    requires IsSortingOf(desc, snap, PctChange, Descending) && IsSortingOf(asc, snap, PctChange, Ascending)
    requires IsSortingOf(losers, desc[m..], PctChange, Ascending)
    ensures AllPresent(Head(asc, TopCount), PctChange)
    ensures Keys(losers, PctChange) == Keys(Head(asc, TopCount), PctChange)
  {
    ResortedBottomIsAscendingHead(snap, desc, asc, losers, PctChange, TopCount);
  }

  // ---------------------------------------------------------------------------
  // Distance from the 52-week range
  // ---------------------------------------------------------------------------

  /** LTP is at least 30% below the 52-week high (the boundary counts). */
  predicate FarBelowHigh(r: Record) {
    Present(r, High52W) && Present(r, Ltp) && Key(r, Ltp) <= HighDiscount * Key(r, High52W)
  }

  /** LTP is at least 20% above the 52-week low (the boundary counts). */
  predicate FarAboveLow(r: Record) {
    Present(r, Low52W) && Present(r, Ltp) && Key(r, Ltp) >= LowPremium * Key(r, Low52W)
  }

  /** The first five records, in table order, that have a 52-week high and trade far below it. */
  function BelowHighView(snap: seq<Record>): (r: seq<Record>)
    requires IsSnapshot(snap)
    ensures forall x | x in r :: FarBelowHigh(x)
    ensures |r| == Min(TopCount, |Filter(FarBelowHigh, snap)|)
    ensures r == Filter(FarBelowHigh, snap)[..|r|]
    ensures IsSubsequence(r, snap)
  {
    assert forall x :: FarBelowHigh(x) ==> HasColumns({High52W})(x);
    FilterAfterWeakerFilter(FarBelowHigh, HasColumns({High52W}), snap);
    FilterIsSubsequence(FarBelowHigh, snap);
    PrefixOfSubsequence(Filter(FarBelowHigh, snap), snap, Min(TopCount, |Filter(FarBelowHigh, snap)|));
    Head(Filter(FarBelowHigh, DropNa(snap, {High52W})), TopCount)
  }

  /** The first five records, in table order, that have a 52-week low and trade far above it. */
  function AboveLowView(snap: seq<Record>): (r: seq<Record>)
    requires IsSnapshot(snap)
    ensures forall x | x in r :: FarAboveLow(x)
    ensures |r| == Min(TopCount, |Filter(FarAboveLow, snap)|)
    ensures r == Filter(FarAboveLow, snap)[..|r|]
    ensures IsSubsequence(r, snap)
  {
    assert forall x :: FarAboveLow(x) ==> HasColumns({Low52W})(x);
    FilterAfterWeakerFilter(FarAboveLow, HasColumns({Low52W}), snap);
    FilterIsSubsequence(FarAboveLow, snap);
    PrefixOfSubsequence(Filter(FarAboveLow, snap), snap, Min(TopCount, |Filter(FarAboveLow, snap)|));
    Head(Filter(FarAboveLow, DropNa(snap, {Low52W})), TopCount)
  }

  // ---------------------------------------------------------------------------
  // Top five by 30-day change
  // ---------------------------------------------------------------------------

  /** The 30-day movers: the records that have a 30-day change, sorted by it largest first, cut to the first five. */
  function TopMonthMovers(snap: seq<Record>): (r: seq<Record>)
    requires IsSnapshot(snap)
    ensures |r| == Min(TopCount, |DropNa(snap, {PctChange30D})|)
    ensures SortedBy(r, PctChange30D, Descending)
    ensures multiset(r) <= multiset(DropNa(snap, {PctChange30D}))
  {
    var movers := DropNa(snap, {PctChange30D});
    DropNaHasColumn(snap, PctChange30D);
    var sorted := SortBy(movers, PctChange30D, Descending);
    HeadOfSorting(sorted, movers, PctChange30D, Descending, Min(TopCount, |movers|));
    sorted[..Min(TopCount, |movers|)]
  }

  /** No record with a 30-day change left out of the movers has a higher one than a listed record. */
  lemma MoversOutrankRest(snap: seq<Record>)
    requires IsSnapshot(snap)
    ensures var movers := DropNa(snap, {PctChange30D});
      forall x, y | x in multiset(movers) - multiset(TopMonthMovers(snap)) && y in TopMonthMovers(snap) ::
        Present(x, PctChange30D) && Key(x, PctChange30D) <= Key(y, PctChange30D)
  {
    var movers := DropNa(snap, {PctChange30D});
    DropNaHasColumn(snap, PctChange30D);
    var sorted := SortBy(movers, PctChange30D, Descending);
    HeadOfSorting(sorted, movers, PctChange30D, Descending, Min(TopCount, |movers|));
  }

  /** The 30-day movers, like the gainers, do not depend on how ties are ordered. */
  lemma MoversIndependentOfTieOrder(snap: seq<Record>, t: seq<Record>)
    requires IsSnapshot(snap)
    requires IsSortingOf(t, DropNa(snap, {PctChange30D}), PctChange30D, Descending)
    ensures AllPresent(Head(t, TopCount), PctChange30D)
    ensures Keys(Head(t, TopCount), PctChange30D) == Keys(TopMonthMovers(snap), PctChange30D)
  {
    var movers := DropNa(snap, {PctChange30D});
    DropNaHasColumn(snap, PctChange30D);
    var sorted := SortBy(movers, PctChange30D, Descending);
    assert |t| == |movers| by {
      assert |multiset(t)| == |multiset(movers)|;
    }
    HeadKeysDetermined(t, sorted, movers, PctChange30D, Descending, Min(TopCount, |movers|));
  }

  // ---------------------------------------------------------------------------
  // The report
  // ---------------------------------------------------------------------------

  /** The five views published from one snapshot. */
  datatype Views = Views(
    gainers: seq<Record>,
    losers: seq<Record>,
    belowHigh: seq<Record>,
    aboveLow: seq<Record>,
    movers: seq<Record>
  )

  /** A view of `snap`: at most five records, all taken from the snapshot. */
  predicate IsViewOf(v: seq<Record>, snap: seq<Record>) {
    |v| <= TopCount && forall x | x in v :: x in snap
  }

  /** `v` lists the first five of `pool` in order `o` of column `f`: as many as there are, sorted, drawn from the pool. */
  predicate RanksFirst(v: seq<Record>, pool: seq<Record>, f: Field, o: Order) {
    |v| == Min(TopCount, |pool|) && SortedBy(v, f, o) && multiset(v) <= multiset(pool)
  }

  /** `v` is the first five records of `snap` that pass `p`, in table order. */
  predicate LeadsFilter(v: seq<Record>, p: Record -> bool, snap: seq<Record>) {
    v == Filter(p, snap)[..Min(TopCount, |Filter(p, snap)|)]
  }

  lemma SubMultisetIsView(v: seq<Record>, pool: seq<Record>, snap: seq<Record>)
    requires |v| <= TopCount && multiset(v) <= multiset(pool)
    requires forall x | x in pool :: x in snap
    ensures IsViewOf(v, snap)
  {
    assert forall x | x in v :: x in multiset(pool);
  }

  lemma FilterPrefixIsView(v: seq<Record>, p: Record -> bool, snap: seq<Record>)
    requires |v| <= TopCount && |v| <= |Filter(p, snap)| && v == Filter(p, snap)[..|v|]
    ensures IsViewOf(v, snap)
  {
    assert forall x | x in v :: x in Filter(p, snap);
  }

  /** The five views of one snapshot, as written to the results document. */
  function BuildReport(snap: seq<Record>): (rep: Views)
    requires IsSnapshot(snap)
    ensures RanksFirst(rep.gainers, snap, PctChange, Descending)
    ensures RanksFirst(rep.losers, snap, PctChange, Ascending)
    ensures LeadsFilter(rep.belowHigh, FarBelowHigh, snap)
    ensures LeadsFilter(rep.aboveLow, FarAboveLow, snap)
    ensures RanksFirst(rep.movers, DropNa(snap, {PctChange30D}), PctChange30D, Descending)
  {
    var gainers := TopGainers(snap);
    var losers := TopLosers(snap);
    var movers := TopMonthMovers(snap);
    var belowHigh, aboveLow := BelowHighView(snap), AboveLowView(snap);
    Views(gainers, losers, belowHigh, aboveLow, movers)
  }

  /**
    The sorted views of a report hold the extremes: no record left out of the
    gainers or the 30-day movers ranks above one listed, and none left out of
    the losers ranks below one listed.
  */
  lemma ReportHoldsExtremes(snap: seq<Record>)
    requires IsSnapshot(snap)
    ensures var rep := BuildReport(snap);
      forall x, y | x in multiset(snap) - multiset(rep.gainers) && y in rep.gainers ::
        Key(x, PctChange) <= Key(y, PctChange)
    ensures var rep := BuildReport(snap);
      forall x, y | x in multiset(snap) - multiset(rep.losers) && y in rep.losers ::
        Key(y, PctChange) <= Key(x, PctChange)
    ensures var rep := BuildReport(snap); var dated := DropNa(snap, {PctChange30D});
      forall x, y | x in multiset(dated) - multiset(rep.movers) && y in rep.movers ::
        Key(x, PctChange30D) <= Key(y, PctChange30D)
  {
    GainersOutrankRest(snap);
    LosersTrailRest(snap);
    MoversOutrankRest(snap);
  }

  /** Every view of a built report has at most five records, all taken from the snapshot. */
  lemma ViewsDrawFromSnapshot(snap: seq<Record>)
    requires IsSnapshot(snap)
    ensures var rep := BuildReport(snap);
      && IsViewOf(rep.gainers, snap) && IsViewOf(rep.losers, snap)
      && IsViewOf(rep.belowHigh, snap) && IsViewOf(rep.aboveLow, snap)
      && IsViewOf(rep.movers, snap)
  {
    var rep := BuildReport(snap);
    SubMultisetIsView(rep.gainers, snap, snap);
    SubMultisetIsView(rep.losers, snap, snap);
    SubMultisetIsView(rep.movers, DropNa(snap, {PctChange30D}), snap);
    FilterPrefixIsView(rep.belowHigh, FarBelowHigh, snap);
    FilterPrefixIsView(rep.aboveLow, FarAboveLow, snap);
  }
}
