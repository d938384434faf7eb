/** What one pass of `collect_options_data` yields: one record per instrument
    whose order book is truthy, in instrument order. */
module Collection {
  import opened Wrappers
  import opened Records

  /** The order books and clock readings line up with the instruments: entry
      `i` is what `get_orderbook` returned for instrument `i` and what
      `datetime.now()` read while it was processed. */
  predicate Aligned(instruments: seq<Instrument>, books: seq<Option<OrderBook>>, clock: seq<int>)
  {
    |books| == |instruments| && |clock| == |instruments|
  }

  /** The outcome after the first `n` instruments: the records so far, or the
      error that escaped while building one. */
  function CollectedUpTo(instruments: seq<Instrument>, books: seq<Option<OrderBook>>, clock: seq<int>, n: nat)
    : Result<seq<Record>, AssemblyError>
    requires Aligned(instruments, books, clock) && n <= |instruments|
  {
    if n == 0 then Success([])
    else
      match CollectedUpTo(instruments, books, clock, n - 1)
      case Failure(e) => Failure(e)
      case Success(rs) =>
        if IsTruthy(books[n - 1]) then
          match AssembleRecord(instruments[n - 1], books[n - 1].value, clock[n - 1])
          case Failure(e) => Failure(e)
          case Success(r) => Success(rs + [r])
        else Success(rs)
  }

  /** The outcome of a whole pass. */
  function Collected(instruments: seq<Instrument>, books: seq<Option<OrderBook>>, clock: seq<int>)
    : Result<seq<Record>, AssemblyError>
    requires Aligned(instruments, books, clock)
  {
    CollectedUpTo(instruments, books, clock, |instruments|)
  }

  /** The positions among the first `n` whose order book is truthy, in order. */
  function TruthyIndices(books: seq<Option<OrderBook>>, n: nat): (idx: seq<nat>)
    requires n <= |books|
    ensures |idx| <= n
    ensures forall k :: 0 <= k < |idx| ==> idx[k] < n
  {
    if n == 0 then []
    else if IsTruthy(books[n - 1]) then TruthyIndices(books, n - 1) + [n - 1]
    else TruthyIndices(books, n - 1)
  }

  /** The positions are increasing and are exactly the truthy ones. */
  lemma {:induction false} TruthyIndicesExact(books: seq<Option<OrderBook>>, n: nat)
    requires n <= |books|
    ensures var idx := TruthyIndices(books, n);
      && (forall k, l :: 0 <= k < l < |idx| ==> idx[k] < idx[l])
      && (forall i :: i in idx <==> 0 <= i < n && IsTruthy(books[i]))
  {
    if n > 0 {
      TruthyIndicesExact(books, n - 1);
    }
  }

  /** Once building a record has failed, the rest of the pass does not run:
      the outcome stays that failure. */
  lemma {:induction false} FailureIsFinal(
    instruments: seq<Instrument>, books: seq<Option<OrderBook>>, clock: seq<int>, n: nat, m: nat)
    requires Aligned(instruments, books, clock) && n <= m <= |instruments|
    requires CollectedUpTo(instruments, books, clock, n).Failure?
    ensures CollectedUpTo(instruments, books, clock, m) == CollectedUpTo(instruments, books, clock, n)
    decreases m
  {
    if m > n {
      FailureIsFinal(instruments, books, clock, n, m - 1);
    }
  }

  /** The first `n` instruments yield, in order, the records of exactly those
      whose order book is truthy; the pass fails exactly when one of those
      books has a `null` nested object. */
  lemma {:induction false} CollectedUpToIsFilter(
    instruments: seq<Instrument>, books: seq<Option<OrderBook>>, clock: seq<int>, n: nat)
    requires Aligned(instruments, books, clock) && n <= |instruments|
    ensures CollectedUpTo(instruments, books, clock, n).Success?
      <==> forall i :: 0 <= i < n && IsTruthy(books[i]) ==> Readable(books[i].value)
    ensures CollectedUpTo(instruments, books, clock, n).Success? ==>
      var rs, idx := CollectedUpTo(instruments, books, clock, n).value, TruthyIndices(books, n);
      && |rs| == |idx|
      && forall k :: 0 <= k < |rs| ==>
           IsTruthy(books[idx[k]]) && rs[k] == AssembleRecord(instruments[idx[k]], books[idx[k]].value, clock[idx[k]]).value
  {
    TruthyIndicesExact(books, n);
    if n > 0 {
      CollectedUpToIsFilter(instruments, books, clock, n - 1);
      var prev := CollectedUpTo(instruments, books, clock, n - 1);
      if prev.Success? && IsTruthy(books[n - 1]) {
        var rs, idx := prev.value, TruthyIndices(books, n - 1);
        var r := AssembleRecord(instruments[n - 1], books[n - 1].value, clock[n - 1]);
        if r.Success? {
          assert CollectedUpTo(instruments, books, clock, n).value == rs + [r.value];
          assert TruthyIndices(books, n) == idx + [n - 1];
        }
      }
    }
  }

  /** Collection yields exactly one record per instrument whose order book is
      truthy, in instrument order, and never more records than instruments. */
  lemma OneRecordPerTruthyBook(instruments: seq<Instrument>, books: seq<Option<OrderBook>>, clock: seq<int>)
    requires Aligned(instruments, books, clock)
    requires forall i :: 0 <= i < |books| && IsTruthy(books[i]) ==> Readable(books[i].value)
    ensures Collected(instruments, books, clock).Success?
    ensures var rs, idx := Collected(instruments, books, clock).value, TruthyIndices(books, |books|);
      && |rs| == |idx| <= |instruments|
      && (forall k, l :: 0 <= k < l < |idx| ==> idx[k] < idx[l])
      && (forall i :: i in idx <==> 0 <= i < |books| && IsTruthy(books[i]))
      && forall k :: 0 <= k < |rs| ==>
           IsTruthy(books[idx[k]]) && rs[k] == AssembleRecord(instruments[idx[k]], books[idx[k]].value, clock[idx[k]]).value
  {
    CollectedUpToIsFilter(instruments, books, clock, |instruments|);
    TruthyIndicesExact(books, |books|);
  }

  /** A pass where no order book is truthy (every request failed or came back
      empty) yields no record. */
  lemma {:induction false} NoTruthyBookNoRecord(
    instruments: seq<Instrument>, books: seq<Option<OrderBook>>, clock: seq<int>, n: nat)
    requires Aligned(instruments, books, clock) && n <= |instruments|
    requires forall i :: 0 <= i < n ==> !IsTruthy(books[i])
    ensures CollectedUpTo(instruments, books, clock, n) == Success([])
  {
    if n > 0 {
      NoTruthyBookNoRecord(instruments, books, clock, n - 1);
    }
  }

  /** Every collected record has consistent quotes. */
  lemma {:induction false} CollectedQuotesConsistent(
    instruments: seq<Instrument>, books: seq<Option<OrderBook>>, clock: seq<int>, n: nat)
    requires Aligned(instruments, books, clock) && n <= |instruments|
    requires CollectedUpTo(instruments, books, clock, n).Success?
    ensures forall r :: r in CollectedUpTo(instruments, books, clock, n).value ==> QuotesConsistent(r)
  {
    if n > 0 {
      CollectedQuotesConsistent(instruments, books, clock, n - 1);
    }
  }
}
