/** The flat record built from one instrument and its order book, and the
    rules by which absent or zero upstream values become null. */
module Records {
  import opened Wrappers

  /** One key of a decoded JSON object: missing, present with `null`, or
      present with a value. */
  datatype Field<T> = Absent | Null | Present(value: T)
  {
    /** `obj.get(key)`: `None` for a missing key and for a `null` value. */
    function Get(): Option<T>
    {
      if Present? then Some(value) else None
    }
  }

  /** An instrument as `get_instruments` lists it. */
  datatype Instrument = Instrument(
    name: string,
    expirationTimestamp: int,
    strike: real,
    optionType: string)

  /** The nested `greeks` object of an order book. */
  datatype Greeks = Greeks(
    delta: Option<real>,
    gamma: Option<real>,
    vega: Option<real>,
    theta: Option<real>,
    rho: Option<real>)

  /** The nested `stats` object of an order book. */
  datatype Stats = Stats(volume: Option<real>)

  /** The `result` object of `get_order_book`: the keys the record reads, and
      the names of any other keys it carries. `otherKeys` holds only keys the
      record does not read; a value whose `otherKeys` names one of the twelve
      fields above stands for no JSON object. */
  datatype OrderBook = OrderBook(
    markPrice: Field<real>,
    lastPrice: Field<real>,
    bestBidPrice: Field<real>,
    bestAskPrice: Field<real>,
    greeks: Field<Greeks>,
    markIv: Field<real>,
    bidIv: Field<real>,
    askIv: Field<real>,
    openInterest: Field<real>,
    stats: Field<Stats>,
    underlyingPrice: Field<real>,
    underlyingIndex: Field<string>,
    otherKeys: set<string>)
  {
    /** The object has no key at all (Python's `{}`). */
    predicate IsEmpty()
    {
      && markPrice.Absent? && lastPrice.Absent? && bestBidPrice.Absent? && bestAskPrice.Absent?
      && greeks.Absent? && markIv.Absent? && bidIv.Absent? && askIv.Absent?
      && openInterest.Absent? && stats.Absent? && underlyingPrice.Absent?
      && underlyingIndex.Absent? && otherKeys == {}
    }
  }

  /** `if orderbook:` on what `get_orderbook` returned (`None` on a failed request). */
  predicate IsTruthy(book: Option<OrderBook>)
  {
    book.Some? && !book.value.IsEmpty()
  }

  /** Python truthiness of a JSON number read with `.get`: present and non-zero. */
  predicate Truthy(x: Option<real>)
  {
    x.Some? && x.value != 0.0
  }

  /** One row of the collected data. `timestamp` is the collector's clock
      reading when the row was built. */
  datatype Record = Record(
    timestamp: int,
    instrumentName: string,
    expirationTimestamp: int,
    strike: real,
    optionType: string,
    markPrice: Option<real>,
    lastPrice: Option<real>,
    bidPrice: Option<real>,
    askPrice: Option<real>,
    midPrice: Option<real>,
    delta: Option<real>,
    gamma: Option<real>,
    vega: Option<real>,
    theta: Option<real>,
    rho: Option<real>,
    markIv: Option<real>,
    bidIv: Option<real>,
    askIv: Option<real>,
    openInterest: Option<real>,
    volume24h: Option<real>,
    underlyingPrice: Option<real>,
    underlyingIndex: Option<string>)

  /** `orderbook.get('greeks', {}).get('delta')` raises `AttributeError` when
      `greeks` holds `null`; the same for `stats`. */
  datatype AssemblyError = NoneHasNoGet(key: string)

  /** The nested objects can be read: neither `greeks` nor `stats` holds `null`. */
  predicate Readable(book: OrderBook)
  {
    !book.greeks.Null? && !book.stats.Null?
  }

  /** The quote fields of a record are consistent: a side is never a zero
      price, and a mid price is there exactly when both sides are, as their
      mean. */
  predicate QuotesConsistent(r: Record)
  {
    && (r.bidPrice.Some? ==> r.bidPrice.value != 0.0)
    && (r.askPrice.Some? ==> r.askPrice.value != 0.0)
    && (r.midPrice.Some? <==> r.bidPrice.Some? && r.askPrice.Some?)
    && (r.midPrice.Some? ==> r.midPrice.value == (r.bidPrice.value + r.askPrice.value) / 2.0)
  }

  /** A bid or ask price as the record keeps it: the upstream value when it is
      truthy, else `None`. */
  function QuoteSide(f: Field<real>): Option<real>
  {
    if Truthy(f.Get()) then Some(f.value) else None
  }

  /** Reads the nested object behind `key` with `.get(key, {})`. */
  function Nested<T>(f: Field<T>, empty: T): T
    requires !f.Null?
  {
    if f.Present? then f.value else empty
  }

  /** The record dictionary of `collect_options_data`. */
  function AssembleRecord(instrument: Instrument, book: OrderBook, now: int): (r: Result<Record, AssemblyError>)
    ensures r.Success? <==> Readable(book)
    ensures r.Failure? ==> r.error == NoneHasNoGet(if book.greeks.Null? then "greeks" else "stats")
    ensures r.Success? ==> QuotesConsistent(r.value)
    ensures r.Success? ==> (r.value.midPrice.Some? <==> Truthy(book.bestBidPrice.Get()) && Truthy(book.bestAskPrice.Get()))
  {
    if book.greeks.Null? then Failure(NoneHasNoGet("greeks"))
    else if book.stats.Null? then Failure(NoneHasNoGet("stats"))
    else
      var greeks := Nested(book.greeks, Greeks(None, None, None, None, None));
      var stats := Nested(book.stats, Stats(None));
      var bid, ask := book.bestBidPrice.Get(), book.bestAskPrice.Get();
      Success(Record(
        now, instrument.name, instrument.expirationTimestamp, instrument.strike, instrument.optionType,
        book.markPrice.Get(), book.lastPrice.Get(),
        QuoteSide(book.bestBidPrice), QuoteSide(book.bestAskPrice),
        if Truthy(bid) && Truthy(ask) then Some((bid.value + ask.value) / 2.0) else None,
        greeks.delta, greeks.gamma, greeks.vega, greeks.theta, greeks.rho,
        book.markIv.Get(), book.bidIv.Get(), book.askIv.Get(),
        book.openInterest.Get(), stats.volume,
        book.underlyingPrice.Get(), book.underlyingIndex.Get()))
  }

  /** What each field of an assembled record holds: the instrument's fields
      and the clock reading verbatim; every other field the upstream value, or
      `None` when upstream did not report it (a missing key, a `null`, a
      missing nested object), and for the two quote sides also when it is
      zero. */
  lemma AssembledFields(instrument: Instrument, book: OrderBook, now: int)
    requires Readable(book)
    ensures AssembleRecord(instrument, book, now).Success?
    ensures var r := AssembleRecord(instrument, book, now).value;
      && r.timestamp == now
      && r.instrumentName == instrument.name
      && r.expirationTimestamp == instrument.expirationTimestamp
      && r.strike == instrument.strike
      && r.optionType == instrument.optionType
      && r.markPrice == book.markPrice.Get()
      && r.lastPrice == book.lastPrice.Get()
      && (r.bidPrice.Some? <==> Truthy(book.bestBidPrice.Get()))
      && (r.bidPrice.Some? ==> r.bidPrice == book.bestBidPrice.Get())
      && (r.askPrice.Some? <==> Truthy(book.bestAskPrice.Get()))
      && (r.askPrice.Some? ==> r.askPrice == book.bestAskPrice.Get())
      && (book.greeks.Absent? ==> r.delta == r.gamma == r.vega == r.theta == r.rho == None)
      && (book.greeks.Present? ==>
            && r.delta == book.greeks.value.delta && r.gamma == book.greeks.value.gamma
            && r.vega == book.greeks.value.vega && r.theta == book.greeks.value.theta
            && r.rho == book.greeks.value.rho)
      && r.markIv == book.markIv.Get() && r.bidIv == book.bidIv.Get() && r.askIv == book.askIv.Get()
      && r.openInterest == book.openInterest.Get()
      && r.volume24h == (if book.stats.Present? then book.stats.value.volume else None)
      && r.underlyingPrice == book.underlyingPrice.Get()
      && r.underlyingIndex == book.underlyingIndex.Get()
  {
  }

  /** The mid price is exactly the mean of the upstream best bid and best ask
      when both are reported and non-zero, and null otherwise: never computed
      from one side, never a false zero. */
  lemma MidPriceRule(instrument: Instrument, book: OrderBook, now: int)
    requires Readable(book)
    ensures var r := AssembleRecord(instrument, book, now).value;
      && (!Truthy(book.bestBidPrice.Get()) || !Truthy(book.bestAskPrice.Get()) ==> r.midPrice.None?)
      && (Truthy(book.bestBidPrice.Get()) && Truthy(book.bestAskPrice.Get()) ==>
            r.midPrice == Some((book.bestBidPrice.value + book.bestAskPrice.value) / 2.0))
  {
  }
}
