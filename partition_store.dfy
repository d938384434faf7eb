/** The data directory as a map from file name to the records the file
    holds, and what `save_to_parquet` and `load_data` do to it and read from
    it. */
module PartitionStore {
  import opened Wrappers
  import opened Records
  import opened Dates
  import opened DailyFiles
  import Lex

  /** The Parquet files of the data directory, by file name. */
  type Files = map<string, seq<Record>>

  /** Every file of `before` is still there after, with its old records as a
      prefix of its new ones. */
  ghost predicate OnlyAppends(before: Files, after: Files)
  {
    forall n :: n in before ==> n in after && before[n] <= after[n]
  }

  lemma OnlyAppendsTransitive(a: Files, b: Files, c: Files)
    requires OnlyAppends(a, b) && OnlyAppends(b, c)
    ensures OnlyAppends(a, c)
  {
    forall n | n in a
      ensures n in c && a[n] <= c[n]
    {
      assert a[n] <= b[n] && b[n] <= c[n];
    }
  }

  /** The read-merge-rewrite of one file: the existing records, then `batch`;
      a missing file is created from `batch` alone. */
  function Appended(files: Files, name: string, batch: seq<Record>): Files
  {
    files[name := if name in files then files[name] + batch else batch]
  }

  /** The directory after `save_to_parquet` writes `batch` on `today`: an empty
      batch writes nothing. */
  function Saved(files: Files, currency: string, today: CalendarDate, batch: seq<Record>): Files
  {
    if batch == [] then files else Appended(files, DailyFilename(currency, today), batch)
  }

  /** Saving leaves an empty batch unwritten, puts a non-empty one after
      today's existing records (or alone in a new file), and changes no other
      file. */
  lemma SavedContents(files: Files, currency: string, today: CalendarDate, batch: seq<Record>)
    ensures var name, after := DailyFilename(currency, today), Saved(files, currency, today, batch);
      && (batch == [] ==> after == files)
      && (batch != [] && name in files ==>
            name in after && after[name] == files[name] + batch && |after[name]| == |files[name]| + |batch|)
      && (batch != [] && name !in files ==> name in after && after[name] == batch)
      && (forall n :: n != name ==> (n in after <==> n in files) && (n in files ==> after[n] == files[n]))
  {
  }

  /** Saving only ever appends. */
  lemma SavedOnlyAppends(files: Files, currency: string, today: CalendarDate, batch: seq<Record>)
    ensures OnlyAppends(files, Saved(files, currency, today, batch))
  {
    var name := DailyFilename(currency, today);
    if batch != [] && name in files {
      assert files[name] <= files[name] + batch;
    }
  }

  /** Two saves on the same day keep both batches, first then second: no
      record lost, none removed as a duplicate. */
  lemma SaveTwice(files: Files, currency: string, today: CalendarDate, b1: seq<Record>, b2: seq<Record>)
    requires b1 + b2 != []
    ensures var name, after := DailyFilename(currency, today), Saved(Saved(files, currency, today, b1), currency, today, b2);
      && name in after
      && after[name] == (if name in files then files[name] else []) + b1 + b2
  {
    var name := DailyFilename(currency, today);
    var mid := Saved(files, currency, today, b1);
    if b1 == [] {
      assert b1 + b2 == b2;
    } else if b2 == [] {
      assert b1 + b2 == b1;
    }
  }

  /** Every record stored has consistent quotes. */
  ghost predicate AllQuotesConsistent(files: Files)
  {
    forall n, r :: n in files && r in files[n] ==> QuotesConsistent(r)
  }

  lemma SavedKeepsQuotesConsistent(files: Files, currency: string, today: CalendarDate, batch: seq<Record>)
    requires AllQuotesConsistent(files)
    requires forall r :: r in batch ==> QuotesConsistent(r)
    ensures AllQuotesConsistent(Saved(files, currency, today, batch))
  {
    var name, after := DailyFilename(currency, today), Saved(files, currency, today, batch);
    forall n, r | n in after && r in after[n]
      ensures QuotesConsistent(r)
    {
      if batch != [] && n == name && name in files {
        assert r in files[name] || r in batch;
      }
    }
  }

  // ---- load_data ----

  /** Microseconds elapsed since midnight, as a `datetime` holds them. */
  type TimeOfDay = t: nat | t < 86_400_000_000

  /** A `datetime` bound: a calendar date and the time of day. */
  datatype Bound = Bound(date: CalendarDate, timeOfDay: TimeOfDay)

  /** `not (file_date < start_date)`, `file_date` being midnight of `d`. */
  predicate NotBeforeStart(d: Date, start: Option<Bound>)
  {
    start.None? || !(Before(d, start.value.date) || (d == start.value.date && start.value.timeOfDay > 0))
  }

  /** `not (file_date > end_date)`. */
  predicate NotAfterEnd(d: Date, end: Option<Bound>)
  {
    end.None? || !Before(end.value.date, d)
  }

  /** `if start_date or end_date:` (a `datetime` is always truthy). */
  predicate HasBounds(start: Option<Bound>, end: Option<Bound>)
  {
    start.Some? || end.Some?
  }

  /** The file names `data_dir.glob('{currency}_options_*.parquet')` lists. */
  function Listed(files: Files, currency: string): (s: set<string>)
    ensures forall n :: n in s <==> n in files && MatchesPattern(currency, n)
  {
    set n | n in files && MatchesPattern(currency, n)
  }

  /** A listed file passes the date filter. */
  predicate Keeps(currency: string, name: string, start: Option<Bound>, end: Option<Bound>)
    requires MatchesPattern(currency, name)
  {
    !HasBounds(start, end)
    || (FileDate(currency, name).Some?
        && NotBeforeStart(FileDate(currency, name).value, start)
        && NotAfterEnd(FileDate(currency, name).value, end))
  }

  predicate AllMatch(currency: string, names: seq<string>)
  {
    forall i :: 0 <= i < |names| ==> MatchesPattern(currency, names[i])
  }

  /** The names, in their order, that pass the date filter. */
  function Selected(currency: string, names: seq<string>, start: Option<Bound>, end: Option<Bound>): (sel: seq<string>)
    requires AllMatch(currency, names)
    ensures forall i :: 0 <= i < |sel| ==> sel[i] in names
  {
    if names == [] then []
    else
      var last := names[|names| - 1];
      Selected(currency, names[..|names| - 1], start, end) + (if Keeps(currency, last, start, end) then [last] else [])
  }

  /** The records of the named files, concatenated in the order of the
      names (every name passed here is listed from `files`). */
  function Gather(files: Files, names: seq<string>): seq<Record>
  {
    if names == [] then []
    else
      var last := names[|names| - 1];
      Gather(files, names[..|names| - 1]) + (if last in files then files[last] else [])
  }

  /** One more name either joins the selection, its records following the
      records gathered so far, or leaves both unchanged. */
  lemma SelectedStep(files: Files, currency: string, names: seq<string>, i: nat, start: Option<Bound>, end: Option<Bound>)
    requires AllMatch(currency, names) && i < |names| && names[i] in files
    ensures Keeps(currency, names[i], start, end) ==>
      Gather(files, Selected(currency, names[..i + 1], start, end))
        == Gather(files, Selected(currency, names[..i], start, end)) + files[names[i]]
    ensures !Keeps(currency, names[i], start, end) ==>
      Selected(currency, names[..i + 1], start, end) == Selected(currency, names[..i], start, end)
  {
    assert names[..i + 1][..i] == names[..i];
    var before := Selected(currency, names[..i], start, end);
    if Keeps(currency, names[i], start, end) {
      assert (before + [names[i]])[..|before|] == before;
    } else {
      assert before + [] == before;
    }
  }

  /** The first name whose last token `strptime` rejects. */
  function FirstUnreadable(currency: string, names: seq<string>): (r: Option<string>)
    requires AllMatch(currency, names)
    ensures r.Some? ==> r.value in names && FileDate(currency, r.value).None?
  {
    if names == [] then None
    else if FileDate(currency, names[0]).None? then Some(names[0])
    else FirstUnreadable(currency, names[1..])
  }

  /** The `ValueError` of `strptime` that escapes `load_data`. */
  datatype LoadError = BadFileDate(name: string)

  /** `sorted(data_dir.glob(...))`: the listed names in ascending order. */
  ghost function ListedInOrder(files: Files, currency: string): (names: seq<string>)
    ensures names == Lex.Sorted(Listed(files, currency))
    ensures forall i :: 0 <= i < |names| ==> names[i] in files && MatchesPattern(currency, names[i])
  {
    Lex.SortedListsInOrder(Listed(files, currency));
    Lex.Sorted(Listed(files, currency))
  }

  /** The sorted listing is strictly increasing and holds exactly the names
      matching the glob. */
  lemma ListedInOrderExact(files: Files, currency: string)
    ensures var names := ListedInOrder(files, currency);
      && Lex.StrictlySorted(names)
      && |names| == |Listed(files, currency)|
      && forall n :: n in names <==> n in files && MatchesPattern(currency, n)
  {
    Lex.SortedListsInOrder(Listed(files, currency));
  }

  /** `load_data(start_date, end_date)`. */
  ghost function Load(files: Files, currency: string, start: Option<Bound>, end: Option<Bound>): Result<seq<Record>, LoadError>
  {
    var names := ListedInOrder(files, currency);
    if HasBounds(start, end) && FirstUnreadable(currency, names).Some? then
      Failure(BadFileDate(FirstUnreadable(currency, names).value))
    else
      Success(Gather(files, Selected(currency, names, start, end)))
  }

  /** `Load` in terms of the sorted listing: it fails on the first
      unreadable name when bounded, and otherwise gathers the selection. */
  lemma LoadOfListing(files: Files, currency: string, start: Option<Bound>, end: Option<Bound>, names: seq<string>)
    requires names == ListedInOrder(files, currency)
    ensures AllMatch(currency, names)
    ensures Load(files, currency, start, end)
      == if HasBounds(start, end) && FirstUnreadable(currency, names).Some?
         then Failure(BadFileDate(FirstUnreadable(currency, names).value))
         else Success(Gather(files, Selected(currency, names, start, end)))
  {
  }

  /** The filter keeps exactly the names that pass it, in their order. */
  lemma {:induction false} SelectedExact(currency: string, names: seq<string>, start: Option<Bound>, end: Option<Bound>)
    requires AllMatch(currency, names)
    ensures var sel := Selected(currency, names, start, end);
      && |sel| <= |names|
      && (forall n :: n in sel <==> n in names && Keeps(currency, n, start, end))
      && (Lex.StrictlySorted(names) ==> Lex.StrictlySorted(sel))
  {
    if names != [] {
      var init, last := names[..|names| - 1], names[|names| - 1];
      SelectedExact(currency, init, start, end);
      assert names == init + [last];
      if Lex.StrictlySorted(names) {
        var sel := Selected(currency, init, start, end);
        forall i | 0 <= i < |sel|
          ensures Lex.Less(sel[i], last)
        {
          assert sel[i] in init;
        }
      }
    }
  }

  /** Without bounds the filter keeps every name. */
  lemma {:induction false} SelectedWithoutBounds(currency: string, names: seq<string>, start: Option<Bound>, end: Option<Bound>)
    requires AllMatch(currency, names) && !HasBounds(start, end)
    ensures Selected(currency, names, start, end) == names
  {
    if names != [] {
      SelectedWithoutBounds(currency, names[..|names| - 1], start, end);
    }
  }

  /** A name that `strptime` rejects, after names it accepts, is the first
      one rejected. */
  lemma {:induction false} FirstUnreadableAt(currency: string, names: seq<string>, i: nat)
    requires AllMatch(currency, names) && i < |names|
    requires FirstUnreadable(currency, names[..i]).None?
    requires FileDate(currency, names[i]).None?
    ensures FirstUnreadable(currency, names) == Some(names[i])
  {
    if i > 0 {
      assert names[..i][0] == names[0];
      assert names[..i][1..] == names[1..][..i - 1];
      FirstUnreadableAt(currency, names[1..], i - 1);
    }
  }

  /** Without bounds, `load_data` returns every listed file's records, the
      files in ascending name order. */
  lemma LoadWithoutBounds(files: Files, currency: string)
    ensures Load(files, currency, None, None) == Success(Gather(files, ListedInOrder(files, currency)))
  {
    var names := ListedInOrder(files, currency);
    SelectedWithoutBounds(currency, names, None, None);
  }

  /** With no listed file, `load_data` returns no record. */
  lemma LoadNothingListed(files: Files, currency: string, start: Option<Bound>, end: Option<Bound>)
    requires Listed(files, currency) == {}
    ensures Load(files, currency, start, end) == Success([])
  {
    ListedInOrderExact(files, currency);
    assert ListedInOrder(files, currency) == [];
  }

  /** A successful load concatenates, in ascending name order, the files
      whose date passes the bounds and no other file. */
  lemma LoadSelects(files: Files, currency: string, start: Option<Bound>, end: Option<Bound>)
    requires Load(files, currency, start, end).Success?
    ensures var sel := Selected(currency, ListedInOrder(files, currency), start, end);
      && Load(files, currency, start, end).value == Gather(files, sel)
      && Lex.StrictlySorted(sel)
      && forall n :: n in sel <==> n in files && MatchesPattern(currency, n) && Keeps(currency, n, start, end)
  {
    ListedInOrderExact(files, currency);
    SelectedExact(currency, ListedInOrder(files, currency), start, end);
  }

  /** With bounds, a load fails exactly when some listed file's name does not
      end in a date. */
  lemma LoadFailsOnUnreadableName(files: Files, currency: string, start: Option<Bound>, end: Option<Bound>)
    requires HasBounds(start, end)
    ensures Load(files, currency, start, end).Failure?
      <==> exists n :: n in files && MatchesPattern(currency, n) && FileDate(currency, n).None?
  {
    var names := ListedInOrder(files, currency);
    ListedInOrderExact(files, currency);
    if n :| n in files && MatchesPattern(currency, n) && FileDate(currency, n).None? {
      assert n in names;
      var i :| 0 <= i < |names| && names[i] == n;
      FirstUnreadableNone(currency, names, i);
    }
  }

  /** A name `strptime` accepts, after names it accepts, keeps the prefix
      free of rejected names. */
  lemma {:induction false} FirstUnreadableExtend(currency: string, names: seq<string>, i: nat)
    requires AllMatch(currency, names) && i < |names|
    requires FirstUnreadable(currency, names[..i]).None?
    requires FileDate(currency, names[i]).Some?
    ensures FirstUnreadable(currency, names[..i + 1]).None?
  {
    if i > 0 {
      assert names[..i + 1][1..] == names[1..][..i];
      assert names[..i][1..] == names[1..][..i - 1];
      FirstUnreadableExtend(currency, names[1..], i - 1);
    }
  }

  lemma {:induction false} FirstUnreadableNone(currency: string, names: seq<string>, i: nat)
    requires AllMatch(currency, names) && i < |names| && FileDate(currency, names[i]).None?
    ensures FirstUnreadable(currency, names).Some?
  {
    if i > 0 && FileDate(currency, names[0]).Some? {
      FirstUnreadableNone(currency, names[1..], i - 1);
    }
  }

  /** Bounds at midnight are inclusive on both ends: the file of day `d` is
      kept exactly when `start <= d <= end`. */
  lemma MidnightBoundsInclusive(d: CalendarDate, start: CalendarDate, end: CalendarDate, endTime: TimeOfDay)
    ensures NotBeforeStart(d, Some(Bound(start, 0))) && NotAfterEnd(d, Some(Bound(end, 0)))
      <==> (d == start || Before(start, d)) && (d == end || Before(d, end))
    ensures NotAfterEnd(end, Some(Bound(end, endTime)))
  {
  }

  /** A start bound later than midnight excludes its own day's file, although
      that file holds records from after the bound. */
  lemma StartTimeExcludesStartDay(d: CalendarDate, t: TimeOfDay)
    requires t > 0
    ensures !NotBeforeStart(d, Some(Bound(d, t)))
  {
  }

  /** Files named by `get_daily_filename` for this currency are loaded in
      calendar order of their dates. */
  lemma LoadInDateOrder(files: Files, currency: string, names: seq<string>)
    requires names == ListedInOrder(files, currency)
    requires forall n :: n in files && MatchesPattern(currency, n) ==>
      FileDate(currency, n).Some? && DailyFilename(currency, FileDate(currency, n).value) == n
    ensures forall i, j :: 0 <= i < j < |names| ==>
        Before(FileDate(currency, names[i]).value, FileDate(currency, names[j]).value)
  {
    ListedInOrderExact(files, currency);
    forall i, j | 0 <= i < j < |names|
      ensures Before(FileDate(currency, names[i]).value, FileDate(currency, names[j]).value)
    {
      assert names[i] in Listed(files, currency) && names[j] in Listed(files, currency);
      DailyFilenameOrder(currency, FileDate(currency, names[i]).value, FileDate(currency, names[j]).value);
    }
  }

  /** Saving a batch where no file of the currency exists yet and loading
      without bounds gives back exactly that batch. */
  lemma SaveThenLoad(files: Files, currency: string, today: CalendarDate, batch: seq<Record>)
    requires Listed(files, currency) == {}
    ensures Load(Saved(files, currency, today, batch), currency, None, None) == Success(batch)
  {
    var after := Saved(files, currency, today, batch);
    if batch == [] {
      LoadNothingListed(files, currency, None, None);
    } else {
      var name := DailyFilename(currency, today);
      assert Listed(after, currency) == {name};
      var names := ListedInOrder(after, currency);
      ListedInOrderExact(after, currency);
      assert |names| == 1 && names[0] in Listed(after, currency);
      assert names == [name];
      assert name !in files && after[name] == batch;
      LoadWithoutBounds(after, currency);
      assert [name][..0] == [];
      assert Gather(after, [name]) == batch;
    }
  }
}
