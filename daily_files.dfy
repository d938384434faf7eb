/** Naming of the daily partition files, `{currency}_options_{YYYYMMDD}.parquet`,
    the glob that `load_data` lists them with, and the date it reads back from
    the last `_`-separated token of a file's stem. */
module DailyFiles {
  import opened Wrappers
  import opened Dates
  import Lex

  const EXTENSION: string := ".parquet"

  /** The part of every file name of one currency before the date. */
  function Prefix(currency: string): string
  {
    currency + "_options_"
  }

  /** `get_daily_filename`: the file name (within the data directory) of the
      partition holding `date`'s records for `currency`. */
  function DailyFilename(currency: string, date: CalendarDate): (name: string)
    ensures MatchesPattern(currency, name)
    ensures FileDate(currency, name) == Some(date)
  {
    var name := Prefix(currency) + FormatDate(date) + EXTENSION;
    DailyFilenameDate(currency, date, name);
    name
  }

  /** `name` matches the glob `{currency}_options_*.parquet`. */
  predicate MatchesPattern(currency: string, name: string)
  {
    var p := Prefix(currency);
    |name| >= |p| + |EXTENSION|
    && name[..|p|] == p
    && name[|name| - |EXTENSION|..] == EXTENSION
  }

  /** `Path(name).stem` for a name ending in `.parquet`. */
  function Stem(name: string): string
    requires |name| >= |EXTENSION|
  {
    name[..|name| - |EXTENSION|]
  }

  /** `s.split('_')[-1]`: what follows the last underscore, or all of `s`
      when it has none. */
  function LastToken(s: string): (t: string)
    ensures '_' !in t
    ensures |t| <= |s| && t == s[|s| - |t|..]
    ensures |t| < |s| ==> s[|s| - |t| - 1] == '_'
  {
    if |s| == 0 then ""
    else if s[|s| - 1] == '_' then ""
    else
      var t := LastToken(s[..|s| - 1]);
      assert s[..|s| - 1][|s| - 1 - |t|..] + [s[|s| - 1]] == s[|s| - |t| - 1..];
      t + [s[|s| - 1]]
  }

  /** The date `load_data` reads from a listed file's name: `None` stands for
      the `ValueError` that `strptime` raises. */
  function FileDate(currency: string, name: string): Option<CalendarDate>
    requires MatchesPattern(currency, name)
  {
    ParseDate(LastToken(Stem(name)))
  }

  /** A token after an underscore is recovered by `LastToken`. */
  lemma {:induction false} LastTokenAfterUnderscore(p: string, t: string)
    requires |p| > 0 && p[|p| - 1] == '_' && '_' !in t
    ensures LastToken(p + t) == t
  {
    if t == [] {
      assert p + t == p;
    } else {
      var init := t[..|t| - 1];
      assert (p + t)[..|p + t| - 1] == p + init;
      assert (p + t)[|p + t| - 1] == t[|t| - 1];
      LastTokenAfterUnderscore(p, init);
      assert init + [t[|t| - 1]] == t;
    }
  }

  lemma DailyFilenameDate(currency: string, date: CalendarDate, name: string)
    requires name == Prefix(currency) + FormatDate(date) + EXTENSION
    ensures MatchesPattern(currency, name)
    ensures FileDate(currency, name) == Some(date)
  {
    var p, f := Prefix(currency), FormatDate(date);
    assert name[..|p|] == p;
    assert name[|name| - |EXTENSION|..] == EXTENSION;
    assert Stem(name) == p + f;
    assert '_' !in f by {
      forall i | 0 <= i < |f|
        ensures f[i] != '_'
      {
        assert IsDigit(f[i]);
      }
    }
    LastTokenAfterUnderscore(p, f);
    ParseFormat(date);
  }

  /** For one currency, the order of the file names as strings is the
      calendar order of their dates. */
  lemma DailyFilenameOrder(currency: string, a: CalendarDate, b: CalendarDate)
    ensures Lex.Less(DailyFilename(currency, a), DailyFilename(currency, b)) <==> Before(a, b)
  {
    var p := Prefix(currency);
    var fa, fb := FormatDate(a), FormatDate(b);
    Lex.LessBlocks(p + fa, EXTENSION, p + fb, EXTENSION);
    Lex.LessIrreflexive(EXTENSION);
    Lex.LessCommonPrefix(p, fa, fb);
    FormatOrder(a, b);
  }

  /** Different dates give different files. */
  lemma DailyFilenameInjective(currency: string, a: CalendarDate, b: CalendarDate)
    requires DailyFilename(currency, a) == DailyFilename(currency, b)
    ensures a == b
  {
    assert FileDate(currency, DailyFilename(currency, a)) == Some(a);
  }
}
