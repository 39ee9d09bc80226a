/**
 * The view model of the terminal interface (`ReportViewModel` in `src/tui.rs`):
 * a ledger's entries grouped by year, in ascending order of the year text, each
 * year with its subtotal and its display lines, and the ledger's total.
 */
module ViewModel {
  import opened Wrappers
  import opened Text
  import opened Ledger
  import NF = NumberFormatter

  /** `File`: a ledger's path and the file name shown in the first column. */
  datatype LedgerFile = LedgerFile(path: string, name: string)

  /** `YearReportViewModel`: one year's title, subtotal, display lines and raw entries. */
  datatype YearReport = YearReport(
    title: string,
    subtotalAmount: string,
    lines: seq<(string, string)>,
    entries: seq<Entry>)

  /** `ReportViewModel`; the default value has empty texts and no years. */
  datatype ReportView = ReportView(title: string, total: string, yearReports: seq<YearReport>)

  const EmptyView: ReportView := ReportView("", "", [])

  /** Why a view model could not be built: the file could not be read, or a date did not parse. */
  datatype LoadError = ReadFailed(error: AppError) | BadDate(date: string)

  /** The year an entry is filed under: the parsed year as decimal text. */
  function YearTitle(d: Date): string {
    IntText(d.year)
  }

  // ----- The ordered map from year to entries -----

  /** A `BTreeMap<String, Vec<Entry>>`, as its list of (key, values) pairs in key order. */
  type Groups = seq<(string, seq<Entry>)>

  predicate StrictlyAscending(g: Groups) {
    forall i, j :: 0 <= i < j < |g| ==> Less(g[i].0, g[j].0)
  }

  predicate HasKey(g: Groups, k: string) {
    exists i :: 0 <= i < |g| && g[i].0 == k
  }

  /** The values stored under `k`; none when `k` is absent. */
  function Lookup(g: Groups, k: string): seq<Entry> {
    if g == [] then []
    else if g[0].0 == k then g[0].1
    else Lookup(g[1..], k)
  }

  /** `map.entry(k).or_default().push(e)`. */
  function Upsert(g: Groups, k: string, e: Entry): Groups {
    if g == [] then [(k, [e])]
    else if g[0].0 == k then [(k, g[0].1 + [e])] + g[1..]
    else if Less(k, g[0].0) then [(k, [e])] + g
    else [g[0]] + Upsert(g[1..], k, e)
  }

  function SumGroups(g: Groups): int {
    if g == [] then 0 else Sum(g[0].1) + SumGroups(g[1..])
  }

  lemma {:induction false} LookupAbsent(g: Groups, k: string)
    requires !HasKey(g, k)
    ensures Lookup(g, k) == []
  {
    if g != [] {
      forall i | 0 <= i < |g| - 1 ensures g[1..][i].0 != k {
        assert g[1..][i] == g[i + 1];
      }
      LookupAbsent(g[1..], k);
    }
  }

  lemma {:induction false} LookupAt(g: Groups, i: int)
    requires StrictlyAscending(g) && 0 <= i < |g|
    ensures Lookup(g, g[i].0) == g[i].1
  {
    if i > 0 {
      if g[0].0 == g[i].0 {
        LessIrreflexive(g[0].0);
      }
      LookupAt(g[1..], i - 1);
    }
  }

  /** Upserting keeps the keys ascending and adds exactly `k` to them. */
  lemma UpsertKeys(g: Groups, k: string, e: Entry)
    requires StrictlyAscending(g)
    ensures StrictlyAscending(Upsert(g, k, e))
    ensures forall x :: HasKey(Upsert(g, k, e), x) <==> HasKey(g, x) || x == k
  {
    UpsertAscending(g, k, e);
    UpsertHasKey(g, k, e);
  }

  /** The keys after an upsert: the old ones and `k`. */
  lemma {:induction false} UpsertHasKey(g: Groups, k: string, e: Entry)
    ensures forall x :: HasKey(Upsert(g, k, e), x) <==> HasKey(g, x) || x == k
  {
    var u := Upsert(g, k, e);
    if g == [] {
      assert u[0].0 == k;
    } else if g[0].0 == k {
      SameKeys(g, u);
    } else if Less(k, g[0].0) {
      assert u == [(k, [e])] + g;
      ConsKeys(g, (k, [e]));
    } else {
      UpsertHasKey(g[1..], k, e);
      assert u == [g[0]] + Upsert(g[1..], k, e);
      ConsKeys(Upsert(g[1..], k, e), g[0]);
      assert g == [g[0]] + g[1..];
      ConsKeys(g[1..], g[0]);
    }
  }

  /** Two lists with the same key at every position have the same keys. */
  lemma SameKeys(g: Groups, u: Groups)
    requires |g| == |u| && forall i :: 0 <= i < |g| ==> u[i].0 == g[i].0
    ensures forall x :: HasKey(u, x) <==> HasKey(g, x)
  {
    forall x | HasKey(u, x) ensures HasKey(g, x) {
      var i :| 0 <= i < |u| && u[i].0 == x;
      assert g[i].0 == x;
    }
    forall x | HasKey(g, x) ensures HasKey(u, x) {
      var i :| 0 <= i < |g| && g[i].0 == x;
      assert u[i].0 == x;
    }
  }

  /** The keys of a list with one pair in front. */
  lemma ConsKeys(g: Groups, p: (string, seq<Entry>))
    ensures forall x :: HasKey([p] + g, x) <==> HasKey(g, x) || x == p.0
  {
    var u := [p] + g;
    forall x | HasKey(u, x) ensures HasKey(g, x) || x == p.0 {
      var i :| 0 <= i < |u| && u[i].0 == x;
      if i > 0 {
        assert g[i - 1].0 == x;
      }
    }
    forall x | HasKey(g, x) || x == p.0 ensures HasKey(u, x) {
      if x == p.0 {
        assert u[0].0 == x;
      } else {
        var i :| 0 <= i < |g| && g[i].0 == x;
        assert u[i + 1].0 == x;
      }
    }
  }

  /** A pair in front of ascending keys all above its own keeps them ascending. */
  lemma ConsAscending(g: Groups, p: (string, seq<Entry>))
    requires StrictlyAscending(g)
    requires forall x :: HasKey(g, x) ==> Less(p.0, x)
    ensures StrictlyAscending([p] + g)
  {
    var u := [p] + g;
    forall i, j | 0 <= i < j < |u| ensures Less(u[i].0, u[j].0) {
      if i == 0 {
        assert HasKey(g, g[j - 1].0);
      } else {
        assert u[i] == g[i - 1] && u[j] == g[j - 1];
      }
    }
  }

  /** Upserting keeps the keys strictly ascending. */
  lemma {:induction false} UpsertAscending(g: Groups, k: string, e: Entry)
    requires StrictlyAscending(g)
    ensures StrictlyAscending(Upsert(g, k, e))
  {
    var u := Upsert(g, k, e);
    if g == [] {
    } else if g[0].0 == k {
      assert forall i :: 0 <= i < |g| ==> u[i].0 == g[i].0;
    } else if Less(k, g[0].0) {
      assert u == [(k, [e])] + g;
      forall x | HasKey(g, x) ensures Less(k, x) {
        var i :| 0 <= i < |g| && g[i].0 == x;
        if i > 0 {
          LessTransitive(k, g[0].0, g[i].0);
        }
      }
      ConsAscending(g, (k, [e]));
    } else {
      var rest := g[1..];
      assert StrictlyAscending(rest);
      UpsertAscending(rest, k, e);
      UpsertHasKey(rest, k, e);
      var ur := Upsert(rest, k, e);
      assert u == [g[0]] + ur;
      LessTotal(k, g[0].0);
      forall x | HasKey(ur, x) ensures Less(g[0].0, x) {
        if x != k {
          var i :| 0 <= i < |rest| && rest[i].0 == x;
          assert g[i + 1].0 == x;
        }
      }
      ConsAscending(ur, g[0]);
    }
  }

  /** Upserting appends `e` to the values under `k` and leaves every other key's values alone. */
  lemma {:induction false} UpsertLookup(g: Groups, k: string, e: Entry, x: string)
    requires StrictlyAscending(g)
    ensures Lookup(Upsert(g, k, e), x) == Lookup(g, x) + (if x == k then [e] else [])
  {
    if g == [] {
    } else if g[0].0 == k {
      assert Upsert(g, k, e)[1..] == g[1..];
    } else if Less(k, g[0].0) {
      assert Upsert(g, k, e)[1..] == g;
      if x == k {
        assert !HasKey(g, k) by {
          if HasKey(g, k) {
            var i :| 0 <= i < |g| && g[i].0 == k;
            if i == 0 {
              LessIrreflexive(k);
            } else {
              LessTransitive(k, g[0].0, g[i].0);
              LessIrreflexive(k);
            }
          }
        }
        LookupAbsent(g, k);
      }
    } else {
      assert StrictlyAscending(g[1..]);
      UpsertLookup(g[1..], k, e, x);
      assert Upsert(g, k, e)[1..] == Upsert(g[1..], k, e);
    }
  }

  /** Every value list stays non-empty. */
  lemma {:induction false} UpsertNonEmpty(g: Groups, k: string, e: Entry)
    requires forall i :: 0 <= i < |g| ==> g[i].1 != []
    ensures forall i :: 0 <= i < |Upsert(g, k, e)| ==> Upsert(g, k, e)[i].1 != []
  {
    if g != [] && g[0].0 != k && !Less(k, g[0].0) {
      UpsertNonEmpty(g[1..], k, e);
      assert Upsert(g, k, e) == [g[0]] + Upsert(g[1..], k, e);
    }
  }

  /** The amounts of all groups grow by the upserted amount. */
  lemma {:induction false} UpsertSum(g: Groups, k: string, e: Entry)
    ensures SumGroups(Upsert(g, k, e)) == SumGroups(g) + e.amount
  {
    if g == [] {
      assert Sum([e]) == Sum([e][..0]) + e.amount;
    } else if g[0].0 == k {
      SumAppend(g[0].1, [e]);
      assert Sum([e]) == Sum([e][..0]) + e.amount;
      assert Upsert(g, k, e)[1..] == g[1..];
    } else if Less(k, g[0].0) {
      assert Sum([e]) == Sum([e][..0]) + e.amount;
      assert Upsert(g, k, e)[1..] == g;
    } else {
      UpsertSum(g[1..], k, e);
      assert Upsert(g, k, e)[1..] == Upsert(g[1..], k, e);
    }
  }

  // ----- Grouping by year -----

  /** The grouping loop: each entry in file order goes under its year; the first unparsable date fails. */
  function GroupByYear(es: seq<Entry>, ext: Externals): Result<Groups, string> {
    if es == [] then Ok([])
    else
      match GroupByYear(es[..|es| - 1], ext)
      case Err(d) => Err(d)
      case Ok(g) =>
        var e := es[|es| - 1];
        match ext.parseDate(e.date)
        case None => Err(e.date)
        case Some(d) => Ok(Upsert(g, YearTitle(d), e))
  }

  /** The entries of `es` whose date parses to a year titled `y`, in file order. */
  function InYear(es: seq<Entry>, y: string, ext: Externals): seq<Entry> {
    if es == [] then []
    else
      var e := es[|es| - 1];
      InYear(es[..|es| - 1], y, ext)
        + (if ext.parseDate(e.date).Some? && YearTitle(ext.parseDate(e.date).value) == y then [e] else [])
  }

  /** Some date of `es` does not parse. */
  predicate SomeDateUnparsable(es: seq<Entry>, ext: Externals) {
    exists i :: 0 <= i < |es| && ext.parseDate(es[i].date).None?
  }

  /**
   * The grouping succeeds exactly when every date parses; then the years are
   * ascending and distinct, no year is empty, each year holds exactly that year's
   * entries in file order, and the amounts of all years add up to the ledger's sum.
   */
  lemma GroupByYearCorrect(es: seq<Entry>, ext: Externals)
    ensures GroupByYear(es, ext).Ok? <==> !SomeDateUnparsable(es, ext)
    ensures GroupByYear(es, ext).Ok? ==>
      var g := GroupByYear(es, ext).value;
      && StrictlyAscending(g)
      && (forall i :: 0 <= i < |g| ==> g[i].1 != [])
      && (forall y :: Lookup(g, y) == InYear(es, y, ext))
      && SumGroups(g) == Sum(es)
  {
    GroupByYearOk(es, ext);
    if GroupByYear(es, ext).Ok? {
      GroupByYearShape(es, ext);
      forall y
        ensures Lookup(GroupByYear(es, ext).value, y) == InYear(es, y, ext)
      {
        GroupByYearLookup(es, ext, y);
      }
      GroupByYearSum(es, ext);
    }
  }

  lemma {:induction false} GroupByYearOk(es: seq<Entry>, ext: Externals)
    ensures GroupByYear(es, ext).Ok? <==> !SomeDateUnparsable(es, ext)
  {
    if es != [] {
      var init, e := es[..|es| - 1], es[|es| - 1];
      GroupByYearOk(init, ext);
      if GroupByYear(init, ext).Ok? {
        if ext.parseDate(e.date).Some? {
          assert !SomeDateUnparsable(es, ext) by {
            forall i | 0 <= i < |es| ensures ext.parseDate(es[i].date).Some? {
              if i < |init| {
                assert es[i] == init[i];
              }
            }
          }
        } else {
          assert ext.parseDate(es[|es| - 1].date).None?;
        }
      } else {
        var i :| 0 <= i < |init| && ext.parseDate(init[i].date).None?;
        assert es[i] == init[i];
      }
    }
  }

  /** The years of a grouping are ascending and distinct, and none is empty. */
  lemma {:induction false} GroupByYearShape(es: seq<Entry>, ext: Externals)
    requires GroupByYear(es, ext).Ok?
    ensures StrictlyAscending(GroupByYear(es, ext).value)
    ensures var g := GroupByYear(es, ext).value; forall i :: 0 <= i < |g| ==> g[i].1 != []
  {
    if es != [] {
      var init, e := es[..|es| - 1], es[|es| - 1];
      GroupByYearShape(init, ext);
      var g := GroupByYear(init, ext).value;
      var y := YearTitle(ext.parseDate(e.date).value);
      UpsertAscending(g, y, e);
      UpsertNonEmpty(g, y, e);
    }
  }

  lemma {:induction false} GroupByYearLookup(es: seq<Entry>, ext: Externals, x: string)
    requires GroupByYear(es, ext).Ok?
    ensures Lookup(GroupByYear(es, ext).value, x) == InYear(es, x, ext)
  {
    if es != [] {
      var init, e := es[..|es| - 1], es[|es| - 1];
      GroupByYearLookup(init, ext, x);
      GroupByYearShape(init, ext);
      var g := GroupByYear(init, ext).value;
      var y := YearTitle(ext.parseDate(e.date).value);
      UpsertLookup(g, y, e, x);
    }
  }

  lemma {:induction false} GroupByYearSum(es: seq<Entry>, ext: Externals)
    requires GroupByYear(es, ext).Ok?
    ensures SumGroups(GroupByYear(es, ext).value) == Sum(es)
  {
    if es != [] {
      var init, e := es[..|es| - 1], es[|es| - 1];
      GroupByYearSum(init, ext);
      var g := GroupByYear(init, ext).value;
      var y := YearTitle(ext.parseDate(e.date).value);
      UpsertSum(g, y, e);
    }
  }

  /** A failed grouping names the first entry whose date does not parse. */
  lemma {:induction false} GroupByYearFailure(es: seq<Entry>, ext: Externals)
    requires GroupByYear(es, ext).Err?
    ensures exists i :: (
      && 0 <= i < |es|
      && es[i].date == GroupByYear(es, ext).error
      && ext.parseDate(es[i].date).None?
      && (forall j :: 0 <= j < i ==> ext.parseDate(es[j].date).Some?))
  {
    var init, e := es[..|es| - 1], es[|es| - 1];
    if GroupByYear(init, ext).Err? {
      GroupByYearFailure(init, ext);
      var i :| 0 <= i < |init| && init[i].date == GroupByYear(init, ext).error
        && ext.parseDate(init[i].date).None?
        && (forall j :: 0 <= j < i ==> ext.parseDate(init[j].date).Some?);
      assert es[i] == init[i];
      assert forall j :: 0 <= j < i ==> es[j] == init[j];
    } else {
      GroupByYearCorrect(init, ext);
      assert forall j :: 0 <= j < |init| ==> es[j] == init[j];
      assert es[|es| - 1] == e;
    }
  }

  /** A prefix whose grouping failed fails the whole sequence the same way. */
  lemma {:induction false} GroupByYearErrPersists(es: seq<Entry>, n: nat, ext: Externals)
    requires n <= |es| && GroupByYear(es[..n], ext).Err?
    ensures GroupByYear(es, ext) == GroupByYear(es[..n], ext)
    decreases |es| - n
  {
    if n < |es| {
      assert es[..n + 1][..n] == es[..n];
      GroupByYearErrPersists(es, n + 1, ext);
    } else {
      assert es[..n] == es;
    }
  }

  /** Grouping one more entry of a prefix that grouped files it under its year, or fails on its date. */
  lemma GroupByYearExtend(es: seq<Entry>, i: nat, g: Groups, ext: Externals)
    requires i < |es| && GroupByYear(es[..i], ext) == Ok(g)
    ensures ext.parseDate(es[i].date).None? ==> GroupByYear(es[..i + 1], ext) == Err(es[i].date)
    ensures ext.parseDate(es[i].date).Some? ==>
      GroupByYear(es[..i + 1], ext) == Ok(Upsert(g, YearTitle(ext.parseDate(es[i].date).value), es[i]))
  {
    assert es[..i + 1][..i] == es[..i];
  }

  // ----- The view model -----

  /** Each entry shown as its day and month and its formatted amount. */
  function EntryLinesOf(es: seq<Entry>, o: NF.FormatOptions, ext: Externals): (lines: seq<(string, string)>)
    ensures |lines| == |es|
    ensures forall i :: 0 <= i < |es| ==> lines[i] == (DayMonthDate(es[i], ext), NF.Formatted(es[i].amount, o))
  {
    seq(|es|, i requires 0 <= i < |es| => (DayMonthDate(es[i], ext), NF.Formatted(es[i].amount, o)))
  }

  /** The year reports, one per group, in key order. */
  function YearReportsOf(g: Groups, o: NF.FormatOptions, ext: Externals): (ys: seq<YearReport>)
    ensures |ys| == |g|
    ensures forall i :: 0 <= i < |g| ==>
      ys[i] == YearReport(g[i].0, NF.Formatted(Sum(g[i].1), o), EntryLinesOf(g[i].1, o, ext), g[i].1)
  {
    seq(|g|, i requires 0 <= i < |g| =>
      YearReport(g[i].0, NF.Formatted(Sum(g[i].1), o), EntryLinesOf(g[i].1, o, ext), g[i].1))
  }

  /** `ReportViewModel::new` on the file's contents. */
  function ViewOf(file: LedgerFile, f: FileState, o: NF.FormatOptions, ext: Externals): Result<ReportView, LoadError> {
    match ReadEntries(file.path, f)
    case Err(e) => Err(ReadFailed(e))
    case Ok(es) =>
      match GroupByYear(es, ext)
      case Err(d) => Err(BadDate(d))
      case Ok(g) => Ok(ReportView(file.name, NF.Formatted(Sum(es), o), YearReportsOf(g, o, ext)))
  }

  /** The amounts of all years of a view. */
  function SumYears(ys: seq<YearReport>): int {
    if ys == [] then 0 else Sum(ys[0].entries) + SumYears(ys[1..])
  }

  lemma {:induction false} SumYearsOfGroups(g: Groups, o: NF.FormatOptions, ext: Externals)
    ensures SumYears(YearReportsOf(g, o, ext)) == SumGroups(g)
  {
    if g != [] {
      SumYearsOfGroups(g[1..], o, ext);
      assert YearReportsOf(g, o, ext)[1..] == YearReportsOf(g[1..], o, ext);
    }
  }

  /**
   * A view is built exactly when the file reads and every date parses. It then
   * shows the file's name and total; its years are ascending and distinct, each
   * non-empty and holding exactly that year's entries in file order, one display
   * line per entry; and the years' amounts add up to the total.
   */
  lemma ViewOfCorrect(file: LedgerFile, f: FileState, o: NF.FormatOptions, ext: Externals)
    ensures ReadEntries(file.path, f).Err? ==> ViewOf(file, f, o, ext) == Err(ReadFailed(ReadEntries(file.path, f).error))
    ensures ReadEntries(file.path, f).Ok? ==>
      (ViewOf(file, f, o, ext).Ok? <==> !SomeDateUnparsable(ReadEntries(file.path, f).value, ext))
    ensures ViewOf(file, f, o, ext).Ok? ==>
      var es, v := ReadEntries(file.path, f).value, ViewOf(file, f, o, ext).value;
      && v.title == file.name
      && v.total == NF.Formatted(Sum(es), o)
      && (forall i, j :: 0 <= i < j < |v.yearReports| ==> Less(v.yearReports[i].title, v.yearReports[j].title))
      && (forall i :: 0 <= i < |v.yearReports| ==>
        var yr := v.yearReports[i];
        && yr.entries != []
        && yr.entries == InYear(es, yr.title, ext)
        && |yr.lines| == |yr.entries|
        && yr.subtotalAmount == NF.Formatted(Sum(yr.entries), o))
      && SumYears(v.yearReports) == Sum(es)
  {
    var read := ReadEntries(file.path, f);
    if read.Ok? {
      GroupByYearCorrect(read.value, ext);
      if GroupByYear(read.value, ext).Ok? {
        var g := GroupByYear(read.value, ext).value;
        SumYearsOfGroups(g, o, ext);
        forall i | 0 <= i < |g| ensures g[i].1 == InYear(read.value, g[i].0, ext) {
          LookupAt(g, i);
        }
      }
    }
  }

  /** Every entry of the ledger appears under its own year. */
  lemma EntryFiledUnderItsYear(file: LedgerFile, f: FileState, o: NF.FormatOptions, ext: Externals, k: int)
    requires ViewOf(file, f, o, ext).Ok?
    requires 0 <= k < |ReadEntries(file.path, f).value|
    ensures var e := ReadEntries(file.path, f).value[k];
      && ext.parseDate(e.date).Some?
      && exists i :: (
        && 0 <= i < |ViewOf(file, f, o, ext).value.yearReports|
        && ViewOf(file, f, o, ext).value.yearReports[i].title == YearTitle(ext.parseDate(e.date).value)
        && e in ViewOf(file, f, o, ext).value.yearReports[i].entries)
  {
    var es := ReadEntries(file.path, f).value;
    var g := GroupByYear(es, ext).value;
    var v := ViewOf(file, f, o, ext).value;
    assert v.yearReports == YearReportsOf(g, o, ext);
    EntryInItsGroup(es, ext, k);
    var y := YearTitle(ext.parseDate(es[k].date).value);
    var i :| 0 <= i < |g| && g[i].0 == y && es[k] in g[i].1;
    assert v.yearReports[i].title == y && v.yearReports[i].entries == g[i].1;
  }

  /** Every entry of a grouped ledger is in the group of its own year. */
  lemma EntryInItsGroup(es: seq<Entry>, ext: Externals, k: int)
    requires GroupByYear(es, ext).Ok? && 0 <= k < |es|
    ensures ext.parseDate(es[k].date).Some?
    ensures var g := GroupByYear(es, ext).value;
      exists i :: 0 <= i < |g| && g[i].0 == YearTitle(ext.parseDate(es[k].date).value) && es[k] in g[i].1
  {
    GroupByYearCorrect(es, ext);
    var g := GroupByYear(es, ext).value;
    assert ext.parseDate(es[k].date).Some?;
    var y := YearTitle(ext.parseDate(es[k].date).value);
    InYearHas(es, k, ext);
    assert Lookup(g, y) == InYear(es, y, ext);
    LookupPresent(g, y);
    var i :| 0 <= i < |g| && g[i].0 == y;
    LookupAt(g, i);
  }

  lemma {:induction false} InYearHas(es: seq<Entry>, k: int, ext: Externals)
    requires 0 <= k < |es| && ext.parseDate(es[k].date).Some?
    ensures es[k] in InYear(es, YearTitle(ext.parseDate(es[k].date).value), ext)
  {
    if k < |es| - 1 {
      InYearHas(es[..|es| - 1], k, ext);
    }
  }

  lemma {:induction false} LookupPresent(g: Groups, k: string)
    requires Lookup(g, k) != []
    ensures HasKey(g, k)
  {
    if g[0].0 != k {
      LookupPresent(g[1..], k);
      var i :| 0 <= i < |g[1..]| && g[1..][i].0 == k;
      assert g[i + 1].0 == k;
    } else {
      assert g[0].0 == k;
    }
  }

  /**
   * `ReportViewModel::new`: reads the entries, adds up the total, files each entry
   * under its year in a loop, then lays out each year.
   */
  method NewReportView(file: LedgerFile, f: FileState, o: NF.FormatOptions, ext: Externals)
    returns (r: Result<ReportView, LoadError>)
    ensures r == ViewOf(file, f, o, ext)
  {
    var read := ReadEntries(file.path, f);
    if read.Err? {
      return Err(ReadFailed(read.error));
    }
    var entries := read.value;
    var total := NF.Format(Sum(entries), o);
    var years: Groups := [];
    var i := 0;
    while i < |entries|
      invariant 0 <= i <= |entries|
      invariant GroupByYear(entries[..i], ext) == Ok(years)
    {
      var entry := entries[i];
      GroupByYearExtend(entries, i, years, ext);
      match ext.parseDate(entry.date)
      case None =>
        GroupByYearErrPersists(entries, i + 1, ext);
        return Err(BadDate(entry.date));
      case Some(date) =>
        years := Upsert(years, YearTitle(date), entry);
      i := i + 1;
    }
    assert entries[..i] == entries;
    assert GroupByYear(read.value, ext) == Ok(years);
    return Ok(ReportView(file.name, total, YearReportsOf(years, o, ext)));
  }
}
