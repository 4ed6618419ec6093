/**
  One row of the NIFTY 50 equity table: a symbol and twelve numeric columns,
  each of which is missing when its cell did not parse.
*/
module StockRecords {
  import opened Wrappers

  datatype Record = Record(
    symbol: string,
    open: Option<real>,
    high: Option<real>,
    low: Option<real>,
    prevClose: Option<real>,
    ltp: Option<real>,
    change: Option<real>,
    pctChange: Option<real>,
    volume: Option<real>,
    value: Option<real>,
    high52W: Option<real>,
    low52W: Option<real>,
    pctChange30D: Option<real>
  )

  /** The numeric columns of the data frame ("Open" … "30d_%Chng"), in column order. */
  datatype Field =
    | Open | High | Low | PrevClose | Ltp | Change | PctChange
    | Volume | Value | High52W | Low52W | PctChange30D

  /** The column named `f` of a record. */
  function Get(r: Record, f: Field): Option<real>
  {
    match f
    case Open => r.open
    case High => r.high
    case Low => r.low
    case PrevClose => r.prevClose
    case Ltp => r.ltp
    case Change => r.change
    case PctChange => r.pctChange
    case Volume => r.volume
    case Value => r.value
    case High52W => r.high52W
    case Low52W => r.low52W
    case PctChange30D => r.pctChange30D
  }

  predicate Present(r: Record, f: Field) {
    Get(r, f).Some?
  }

  /** The value of a column known to be present. */
  function Key(r: Record, f: Field): real
    requires Present(r, f)
  {
    Get(r, f).value
  }

  predicate AllPresent(rs: seq<Record>, f: Field) {
    forall r | r in rs :: Present(r, f)
  }

  /** The column `f` of every record, in order. */
  function Keys(rs: seq<Record>, f: Field): (ks: seq<real>)
    requires AllPresent(rs, f)
    ensures |ks| == |rs|
    ensures forall i :: 0 <= i < |rs| ==> ks[i] == Key(rs[i], f)
  {
    seq(|rs|, i requires 0 <= i < |rs| => Key(rs[i], f))
  }
}
