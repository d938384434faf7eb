/** The collector object, its data directory, and the periodic driver. The
    network requests, the clock and the Parquet files are replaced by inputs
    and by the directory's map of file contents. */
module Collector {
  import opened Wrappers
  import opened Records
  import opened Dates
  import opened DailyFiles
  import opened Collection
  import opened PartitionStore
  import Lex

  /** The data directory: its path and the records of each file in it. */
  class Directory {
    const path: string
    var files: Files

    constructor (path: string, files: Files)
      ensures this.path == path && this.files == files
    {
      this.path := path;
      this.files := files;
    }
  }

  /** `DeribitDataCollector`: the currency it collects and its data directory. */
  class DeribitDataCollector {
    const currency: string
    const dataDir: Directory

    constructor (currency: string, dataDir: Directory)
      ensures this.currency == currency && this.dataDir == dataDir
    {
      this.currency := currency;
      this.dataDir := dataDir;
    }

    /** `collect_options_data`: `books[i]` is what `get_orderbook` returned
        for `instruments[i]` and `clock[i]` the time read while building its
        record. `pauses` counts the rate-limit sleeps. */
    method CollectOptionsData(instruments: seq<Instrument>, books: seq<Option<OrderBook>>, clock: seq<int>)
      returns (outcome: Result<seq<Record>, AssemblyError>, pauses: nat)
      requires Aligned(instruments, books, clock)
      ensures outcome == Collected(instruments, books, clock)
      ensures outcome.Success? ==> pauses == |instruments| / 10
      ensures outcome.Failure? ==>
        exists f :: 0 <= f < |instruments| && pauses == f / 10
          && CollectedUpTo(instruments, books, clock, f).Success?
          && CollectedUpTo(instruments, books, clock, f + 1).Failure?
    {
      var data := [];
      pauses := 0;
      var i := 0;
      while i < |instruments|
        invariant 0 <= i <= |instruments|
        invariant CollectedUpTo(instruments, books, clock, i) == Success(data)
        invariant pauses == i / 10
      {
        var orderbook := books[i];
        if IsTruthy(orderbook) {
          var record := AssembleRecord(instruments[i], orderbook.value, clock[i]);
          if record.Failure? {
            FailureIsFinal(instruments, books, clock, i + 1, |instruments|);
            return Failure(record.error), pauses;
          }
          data := data + [record.value];
        }
        if (i + 1) % 10 == 0 {
          pauses := pauses + 1;
        }
        i := i + 1;
      }
      outcome := Success(data);
    }

    /** `save_to_parquet`: appends `data` to the file of `today`, creating it
        if needed; returns the file's path, or `None` for no data. */
    method SaveToParquet(data: seq<Record>, today: CalendarDate) returns (path: Option<string>)
      modifies dataDir
      ensures dataDir.files == Saved(old(dataDir.files), currency, today, data)
      ensures path.None? <==> data == []
      ensures path.Some? ==> path.value == dataDir.path + "/" + DailyFilename(currency, today)
    {
      if data == [] {
        return None;
      }
      var filename := DailyFilename(currency, today);
      var content := data;
      if filename in dataDir.files {
        content := dataDir.files[filename] + data;
      }
      dataDir.files := dataDir.files[filename := content];
      path := Some(dataDir.path + "/" + filename);
    }

    /** `load_data`: the records of the currency's files in ascending name
        order, only the files whose date passes the bounds when a bound is
        given. */
    method LoadData(start: Option<Bound>, end: Option<Bound>) returns (outcome: Result<seq<Record>, LoadError>)
      ensures outcome == Load(dataDir.files, currency, start, end)
    {
      var store := dataDir.files;
      var files := Lex.SortNames(Listed(store, currency));
      assert files == ListedInOrder(store, currency);
      if files == [] {
        LoadOfListing(store, currency, start, end, files);
        return Success([]);
      }
      assert AllMatch(currency, files);
      var bounded := HasBounds(start, end);
      var dfs := [];
      var i := 0;
      while i < |files|
        invariant 0 <= i <= |files|
        invariant dfs == Gather(store, Selected(currency, files[..i], start, end))
        invariant bounded ==> FirstUnreadable(currency, files[..i]).None?
      {
        var file := files[i];
        var keep := true;
        if bounded {
          var fileDate := FileDate(currency, file);
          if fileDate.None? {
            FirstUnreadableAt(currency, files, i);
            LoadOfListing(store, currency, start, end, files);
            return Failure(BadFileDate(file));
          }
          // skip the file when it is before the start or after the end
          keep := NotBeforeStart(fileDate.value, start) && NotAfterEnd(fileDate.value, end);
          FirstUnreadableExtend(currency, files, i);
        }
        assert file in store;
        SelectedStep(store, currency, files, i, start, end);
        if keep {
          dfs := dfs + store[file];
        }
        i := i + 1;
      }
      assert files[..i] == files;
      assert dfs == Gather(store, Selected(currency, files, start, end));
      LoadOfListing(store, currency, start, end, files);
      outcome := Success(dfs);
    }
  }

  /** What one iteration of `periodic_collection` sees: the instruments
      listed, the order books fetched, the clock readings while building the
      records, and the date when saving. */
  datatype CycleInput = CycleInput(
    instruments: seq<Instrument>,
    books: seq<Option<OrderBook>>,
    clock: seq<int>,
    today: CalendarDate)

  predicate CycleAligned(c: CycleInput)
  {
    Aligned(c.instruments, c.books, c.clock)
  }

  predicate AllAligned(inputs: seq<CycleInput>)
  {
    forall i :: 0 <= i < |inputs| ==> CycleAligned(inputs[i])
  }

  /** An exception that ends `periodic_collection`: one escaping the
      collection, or the `ValueError` of `time.sleep` for a negative length. */
  datatype RunFailure = CollectFailed(error: AssemblyError) | NegativeSleep

  /** The directory at the end, the collect-and-save cycles completed, the
      sleeps between them, and the exception that ended the run early. */
  datatype RunOutcome = RunOutcome(files: Files, cycles: nat, sleeps: nat, failure: Option<RunFailure>)

  /** Collect, then save what was collected. */
  function Cycle(files: Files, currency: string, c: CycleInput): Result<Files, AssemblyError>
    requires CycleAligned(c)
  {
    match Collected(c.instruments, c.books, c.clock)
    case Failure(e) => Failure(e)
    case Success(rs) => Success(Saved(files, currency, c.today, rs))
  }

  /** `periodic_collection` with one input per iteration. */
  function Run(files: Files, currency: string, intervalMinutes: int, inputs: seq<CycleInput>): RunOutcome
    requires AllAligned(inputs)
    decreases |inputs|
  {
    if inputs == [] then RunOutcome(files, 0, 0, None)
    else
      match Cycle(files, currency, inputs[0])
      case Failure(e) => RunOutcome(files, 0, 0, Some(CollectFailed(e)))
      case Success(next) =>
        if |inputs| == 1 then RunOutcome(next, 1, 0, None)
        else if intervalMinutes < 0 then RunOutcome(next, 1, 0, Some(NegativeSleep))
        else
          var rest := Run(next, currency, intervalMinutes, inputs[1..]);
          RunOutcome(rest.files, rest.cycles + 1, rest.sleeps + 1, rest.failure)
  }

  /** The run performs one collect-and-save cycle per iteration and sleeps
      between cycles, never after the last; it stops early only on an
      exception, which happens only for a collection that fails or a
      negative interval with a cycle still to come. */
  lemma {:induction false} RunCounts(files: Files, currency: string, intervalMinutes: int, inputs: seq<CycleInput>)
    requires AllAligned(inputs)
    ensures var run := Run(files, currency, intervalMinutes, inputs);
      && run.cycles <= |inputs|
      && (run.failure.None? ==> run.cycles == |inputs| && run.sleeps == if inputs == [] then 0 else |inputs| - 1)
      && (run.failure == Some(NegativeSleep) ==> run.cycles < |inputs| && run.sleeps == run.cycles - 1)
      && (run.failure.Some? && run.failure.value.CollectFailed? ==> run.cycles < |inputs| && run.sleeps == run.cycles)
      && ((intervalMinutes >= 0 && forall i :: 0 <= i < |inputs| ==> Cycle(files, currency, inputs[i]).Success?)
          ==> run.failure.None?)
    decreases |inputs|
  {
    if inputs != [] {
      var c := Cycle(files, currency, inputs[0]);
      if c.Success? && |inputs| > 1 && intervalMinutes >= 0 {
        RunCounts(c.value, currency, intervalMinutes, inputs[1..]);
        if forall i :: 0 <= i < |inputs| ==> Cycle(files, currency, inputs[i]).Success? {
          forall i | 0 <= i < |inputs| - 1
            ensures Cycle(c.value, currency, inputs[1..][i]).Success?
          {
            CycleSucceedsAnywhere(files, c.value, currency, inputs[i + 1]);
          }
        }
      }
    }
  }

  /** Whether a cycle fails depends only on what was collected, not on the
      directory. */
  lemma CycleSucceedsAnywhere(files: Files, other: Files, currency: string, c: CycleInput)
    requires CycleAligned(c)
    ensures Cycle(files, currency, c).Success? <==> Cycle(other, currency, c).Success?
  {
  }

  /** A run only ever appends to the files of the directory. */
  lemma {:induction false} RunOnlyAppends(files: Files, currency: string, intervalMinutes: int, inputs: seq<CycleInput>)
    requires AllAligned(inputs)
    ensures OnlyAppends(files, Run(files, currency, intervalMinutes, inputs).files)
    decreases |inputs|
  {
    if inputs != [] {
      var c := Cycle(files, currency, inputs[0]);
      if c.Success? {
        var rs := Collected(inputs[0].instruments, inputs[0].books, inputs[0].clock).value;
        SavedOnlyAppends(files, currency, inputs[0].today, rs);
        if |inputs| > 1 && intervalMinutes >= 0 {
          RunOnlyAppends(c.value, currency, intervalMinutes, inputs[1..]);
          OnlyAppendsTransitive(files, c.value, Run(c.value, currency, intervalMinutes, inputs[1..]).files);
        }
      } else {
        assert OnlyAppends(files, files);
      }
    }
  }

  /** Every record a run stores has consistent quotes. */
  lemma {:induction false} RunKeepsQuotesConsistent(files: Files, currency: string, intervalMinutes: int, inputs: seq<CycleInput>)
    requires AllAligned(inputs) && AllQuotesConsistent(files)
    ensures AllQuotesConsistent(Run(files, currency, intervalMinutes, inputs).files)
    decreases |inputs|
  {
    if inputs != [] {
      var c := Cycle(files, currency, inputs[0]);
      if c.Success? {
        var i0 := inputs[0];
        CollectedQuotesConsistent(i0.instruments, i0.books, i0.clock, |i0.instruments|);
        SavedKeepsQuotesConsistent(files, currency, i0.today, Collected(i0.instruments, i0.books, i0.clock).value);
        if |inputs| > 1 && intervalMinutes >= 0 {
          RunKeepsQuotesConsistent(c.value, currency, intervalMinutes, inputs[1..]);
        }
      }
    }
  }

  /** `periodic_collection(currency, interval_minutes, iterations)`. */
  method PeriodicCollection(currency: string, dir: Directory, intervalMinutes: int, iterations: int, inputs: seq<CycleInput>)
    returns (cycles: nat, sleeps: nat, failure: Option<RunFailure>)
    requires |inputs| == if iterations > 0 then iterations else 0
    requires AllAligned(inputs)
    modifies dir
    ensures var run := Run(old(dir.files), currency, intervalMinutes, inputs);
      dir.files == run.files && cycles == run.cycles && sleeps == run.sleeps && failure == run.failure
  {
    var collector := new DeribitDataCollector(currency, dir);
    cycles, sleeps, failure := 0, 0, None;
    var i := 0;
    while i < iterations
      invariant 0 <= i <= |inputs|
      invariant var rest := Run(dir.files, currency, intervalMinutes, inputs[i..]);
        Run(old(dir.files), currency, intervalMinutes, inputs)
          == RunOutcome(rest.files, cycles + rest.cycles, sleeps + rest.sleeps, rest.failure)
    {
      var input := inputs[i];
      assert inputs[i..][0] == input && inputs[i..][1..] == inputs[i + 1..];
      var df, _ := collector.CollectOptionsData(input.instruments, input.books, input.clock);
      if df.Failure? {
        failure := Some(CollectFailed(df.error));
        return;
      }
      var _ := collector.SaveToParquet(df.value, input.today);
      cycles := cycles + 1;
      if i < iterations - 1 {
        if intervalMinutes < 0 {
          failure := Some(NegativeSleep);
          return;
        }
        sleeps := sleeps + 1;
      }
      i := i + 1;
    }
  }
}
