/**
 * Ledger entries and ledger files: the `Entry` record, its day-and-month label,
 * the errors of the library, the CSV file as a sequence of lines, and the
 * appending of a new entry (`add_entry`) with the totals it reports.
 *
 * Dates and decimals come from chrono and rust_decimal; the model receives them
 * as the functions of an `Externals` value. Amounts are whole hundredths.
 */
module Ledger {
  import opened Wrappers
  import opened Text
  import NF = NumberFormatter

  type Month = m: int | 1 <= m <= 12 witness 1
  type Day = d: int | 1 <= d <= 31 witness 1

  /** A calendar date as chrono's `NaiveDate` exposes it. */
  datatype Date = Date(year: int, month: Month, day: Day)

  /** One ledger row: the stored date text and the amount in hundredths. */
  datatype Entry = Entry(date: string, amount: int)

  /**
   * What the ledger takes from chrono and rust_decimal: parsing a date text
   * (`str::parse::<NaiveDate>` and `NaiveDate::parse_from_str(_, "%Y-%m-%d")`), the
   * date's `to_string`, `Decimal::from_str` and `Decimal::to_string`.
   */
  datatype Externals = Externals(
    parseDate: string -> Option<Date>,
    showDate: Date -> string,
    parseAmount: string -> Option<int>,
    showAmount: int -> string)

  /**
   * The English month name that `%B` prints: letters only, so in the text of
   * `DayMonthDate` the first space ends the name and the day follows it.
   */
  function MonthName(m: Month): (s: string)
    ensures s != [] && forall i :: 0 <= i < |s| ==> 'A' <= s[i] <= 'Z' || 'a' <= s[i] <= 'z'
  {
    ["January", "February", "March", "April", "May", "June", "July",
     "August", "September", "October", "November", "December"][m - 1]
  }

  /**
   * `Entry::day_month_date`: the month name, a space and the day without padding
   * when the date parses; the stored text unchanged otherwise.
   */
  function DayMonthDate(e: Entry, ext: Externals): (s: string)
    ensures ext.parseDate(e.date).None? ==> s == e.date
    ensures ext.parseDate(e.date).Some? ==>
      var d, name := ext.parseDate(e.date).value, MonthName(ext.parseDate(e.date).value.month);
      && StartsWith(s, name + " ")
      && (forall i :: 0 <= i < |name| ==> s[i] != ' ' && !IsDigit(s[i]))
      && |s| > |name| + 1
      && (forall i :: |name| < i < |s| ==> IsDigit(s[i]))
      && s[|name| + 1] != '0'
      && DigitsValue(s[|name| + 1..]) == d.day
  {
    match ext.parseDate(e.date)
    case Some(d) =>
      var name, day := MonthName(d.month), NatText(d.day);
      var s := name + " " + day;
      assert s[|name| + 1..] == day;
      assert s[..|name + " "|] == name + " ";
      NatTextRoundTrip(d.day);
      s
    case None => e.date
  }

  // ----- Files -----

  /** One line of a ledger file as the CSV reader sees it. */
  datatype Line = HeaderLine | EntryLine(entry: Entry) | MalformedLine

  /** A ledger file on disk. */
  datatype FileState = Missing | Present(lines: seq<Line>)

  /** `AppError`; the csv crate's own error text is not modelled. */
  datatype AppError = Io(context: string) | Csv | NoEntries | FilteredNoEntries(filter: string)
  {
    /** The `Display` text of the error. */
    function Message(): string {
      match this
      case Io(context) => "I/O error: " + context
      case Csv => "CSV error"
      case NoEntries => "No entries found"
      case FilteredNoEntries(filter) => "No entries matching filter: " + filter
    }
  }

  function EntryLines(es: seq<Entry>): (ls: seq<Line>)
    ensures |ls| == |es|
    ensures forall i :: 0 <= i < |es| ==> ls[i] == EntryLine(es[i])
  {
    if es == [] then [] else EntryLines(es[..|es| - 1]) + [EntryLine(es[|es| - 1])]
  }

  /** The records after the header: every one must be an entry. */
  function Records(ls: seq<Line>): (r: Result<seq<Entry>, AppError>)
    ensures r.Ok? <==> forall i :: 0 <= i < |ls| ==> ls[i].EntryLine?
    ensures r.Ok? ==> EntryLines(r.value) == ls
    ensures r.Err? ==> r.error == Csv
  {
    if ls == [] then Ok([])
    else
      match Records(ls[..|ls| - 1])
      case Err(e) => Err(e)
      case Ok(es) =>
        if ls[|ls| - 1].EntryLine? then
          assert ls == ls[..|ls| - 1] + [ls[|ls| - 1]];
          Ok(es + [ls[|ls| - 1].entry])
        else Err(Csv)
  }

  /**
   * `entries_from_file`: a missing file is an I/O error; the first line is taken as
   * the header whatever it holds, so a file whose first line is not the header has
   * no readable record after it.
   */
  function ReadEntries(path: string, f: FileState): (r: Result<seq<Entry>, AppError>)
    ensures f.Missing? ==> r == Err(Io("Failed to access file: " + path))
    ensures f.Present? && |f.lines| <= 1 ==> r == Ok([])
    ensures f.Present? && f.lines != [] && f.lines[0] == HeaderLine ==> r == Records(f.lines[1..])
    ensures f.Present? && |f.lines| > 1 && f.lines[0] != HeaderLine ==> r == Err(Csv)
  {
    match f
    case Missing => Err(Io("Failed to access file: " + path))
    case Present(lines) =>
      if lines == [] then Ok([])
      else if lines[0] == HeaderLine then Records(lines[1..])
      else if |lines| == 1 then Ok([])
      else Err(Csv)
  }

  /** A file as the writers produce it: a header, then one line per entry. */
  function WrittenFile(es: seq<Entry>): FileState {
    Present([HeaderLine] + EntryLines(es))
  }

  /** Reading back what the writers wrote gives the same entries. */
  lemma ReadWrittenFile(path: string, es: seq<Entry>)
    ensures ReadEntries(path, WrittenFile(es)) == Ok(es)
  {
    var lines := [HeaderLine] + EntryLines(es);
    assert lines[1..] == EntryLines(es);
    var r := Records(EntryLines(es));
    assert r.Ok?;
    EntryLinesInjective(r.value, es);
  }

  lemma {:induction false} EntryLinesInjective(a: seq<Entry>, b: seq<Entry>)
    requires EntryLines(a) == EntryLines(b)
    ensures a == b
  {
    assert |a| == |b|;
    assert forall i :: 0 <= i < |a| ==> EntryLines(a)[i] == EntryLine(a[i]) && EntryLines(b)[i] == EntryLine(b[i]);
  }

  /** The sum of the amounts. */
  function Sum(es: seq<Entry>): int {
    if es == [] then 0 else Sum(es[..|es| - 1]) + es[|es| - 1].amount
  }

  lemma {:induction false} SumAppend(a: seq<Entry>, b: seq<Entry>)
    ensures Sum(a + b) == Sum(a) + Sum(b)
    decreases |b|
  {
    if b == [] {
      assert a + b == a;
    } else {
      assert (a + b)[..|a + b| - 1] == a + b[..|b| - 1];
      SumAppend(a, b[..|b| - 1]);
    }
  }

  // ----- add_entry -----

  /** `NewEntryInfo`: the file's total before and after the new entry. */
  datatype NewEntryInfo = NewEntryInfo(totalBefore: int, totalAfter: int)

  datatype AddOutcome = AddOutcome(file: FileState, result: Result<NewEntryInfo, AppError>)

  /** The lines a file holds; a missing file is created empty. */
  function LinesOf(f: FileState): seq<Line> {
    if f.Present? then f.lines else []
  }

  /**
   * `add_entry`. The entries read before writing decide the header: an unreadable
   * or empty file counts as no entries, and the CSV writer then writes a header
   * before the record. `fault` is the error of opening the file for appending.
   * The totals are read back from the file after writing.
   */
  function AddEntry(path: string, f: FileState, date: Date, amount: int, ext: Externals, fault: Option<string>)
    : (r: AddOutcome)
    ensures fault.Some? ==> r == AddOutcome(f, Err(Io("Failed to open file to add a new entry")))
    ensures fault.None? ==>
      var entry, before := Entry(ext.showDate(date), amount), ReadEntries(path, f);
      var header := if before.Ok? && before.value != [] then [] else [HeaderLine];
      r.file == Present(LinesOf(f) + header + [EntryLine(entry)])
    ensures r.result.Ok? ==> ReadEntries(path, r.file) == Ok(ReadEntries(path, f).GetOr([]) + [Entry(ext.showDate(date), amount)])
    ensures fault.None? ==> (r.result.Ok? <==> ReadEntries(path, r.file).Ok?)
    ensures r.result.Ok? ==> r.result.value.totalBefore == Sum(ReadEntries(path, f).GetOr([]))
    ensures r.result.Ok? ==> r.result.value.totalAfter - r.result.value.totalBefore == amount
  {
    var entries := ReadEntries(path, f).GetOr([]);
    var totalBefore := Sum(entries);
    var newEntry := Entry(ext.showDate(date), amount);
    if fault.Some? then AddOutcome(f, Err(Io("Failed to open file to add a new entry")))
    else
      var header := if entries == [] then [HeaderLine] else [];
      var written := Present(LinesOf(f) + header + [EntryLine(newEntry)]);
      match ReadEntries(path, written)
      case Err(e) => AddOutcome(written, Err(e))
      case Ok(after) =>
        AppendedEntries(path, f, entries, header, newEntry, after);
        SumAppend(entries, [newEntry]);
        assert [newEntry][..0] == [];
        AddOutcome(written, Ok(NewEntryInfo(totalBefore, Sum(after))))
  }

  lemma EntryLinesAppend(es: seq<Entry>, e: Entry)
    ensures EntryLines(es + [e]) == EntryLines(es) + [EntryLine(e)]
  {
    assert (es + [e])[..|es|] == es;
  }

  /** Entries can only be read from a file that starts with the header and has records after it. */
  lemma ReadNonEmpty(path: string, f: FileState)
    requires ReadEntries(path, f).Ok? && ReadEntries(path, f).value != []
    ensures f.Present? && |f.lines| > 1 && f.lines[0] == HeaderLine
    ensures Records(f.lines[1..]) == ReadEntries(path, f)
    ensures EntryLines(ReadEntries(path, f).value) == f.lines[1..]
  {
    assert f.Present?;
    assert |f.lines| > 1;
    assert f.lines[0] == HeaderLine;
  }

  /**
   * A header and a record appended to a file: readable only when the file held
   * nothing, since a header after existing lines is a malformed record.
   */
  lemma HeaderedAppend(path: string, lf: seq<Line>, e: Entry)
    ensures lf == [] ==> ReadEntries(path, Present(lf + [HeaderLine] + [EntryLine(e)])) == Ok([e])
    ensures lf != [] ==> ReadEntries(path, Present(lf + [HeaderLine] + [EntryLine(e)])).Err?
  {
    var lines := lf + [HeaderLine] + [EntryLine(e)];
    if lf == [] {
      assert lines == [HeaderLine] + EntryLines([e]);
      ReadWrittenFile(path, [e]);
    } else {
      assert |lines| > 1 && lines[0] == lf[0];
      if lf[0] == HeaderLine {
        assert lines[1..][|lf| - 1] == HeaderLine;
        assert Records(lines[1..]).Err?;
      }
    }
  }

  /** What the reader returns after the append, when it returns anything. */
  lemma AppendedEntries(path: string, f: FileState, entries: seq<Entry>, header: seq<Line>, e: Entry, after: seq<Entry>)
    requires entries == ReadEntries(path, f).GetOr([])
    requires header == if entries == [] then [HeaderLine] else []
    requires ReadEntries(path, Present(LinesOf(f) + header + [EntryLine(e)])) == Ok(after)
    ensures after == entries + [e]
  {
    var lf := LinesOf(f);
    if entries == [] {
      HeaderedAppend(path, lf, e);
    } else {
      assert header == [];
      EmptyMiddle(lf, header, [EntryLine(e)]);
      assert ReadEntries(path, f).Ok? && ReadEntries(path, f).value == entries;
      AppendToReadable(path, f, e);
    }
  }

  /** Appending a record to a file with entries gives a file as the writers produce it. */
  lemma AppendToReadable(path: string, f: FileState, e: Entry)
    requires ReadEntries(path, f).Ok? && ReadEntries(path, f).value != []
    ensures Present(LinesOf(f) + [EntryLine(e)]) == WrittenFile(ReadEntries(path, f).value + [e])
    ensures ReadEntries(path, Present(LinesOf(f) + [EntryLine(e)])) == Ok(ReadEntries(path, f).value + [e])
  {
    var entries := ReadEntries(path, f).value;
    ReadNonEmpty(path, f);
    EntryLinesAppend(entries, e);
    HeadThenAppend(f.lines, HeaderLine, EntryLines(entries), EntryLine(e));
    assert LinesOf(f) + [EntryLine(e)] == [HeaderLine] + EntryLines(entries + [e]);
    ReadWrittenFile(path, entries + [e]);
  }

  lemma EmptyMiddle<T>(a: seq<T>, b: seq<T>, c: seq<T>)
    requires b == []
    ensures a + b + c == a + c
  {
  }

  lemma HeadThenAppend<T>(s: seq<T>, head: T, rest: seq<T>, x: T)
    requires |s| > 0 && s[0] == head && s[1..] == rest
    ensures s + [x] == [head] + (rest + [x])
  {
    assert s == [head] + rest;
  }

  /** A missing file is created with a header, and the totals start at zero. */
  lemma AddToMissingFile(path: string, date: Date, amount: int, ext: Externals)
    ensures var e := Entry(ext.showDate(date), amount);
      AddEntry(path, Missing, date, amount, ext, None)
        == AddOutcome(WrittenFile([e]), Ok(NewEntryInfo(0, amount)))
  {
    var e := Entry(ext.showDate(date), amount);
    assert ReadEntries(path, Missing).Err?;
    HeaderedAppend(path, [], e);
    assert [] + [HeaderLine] + [EntryLine(e)] == [HeaderLine] + EntryLines([e]);
    var r := AddEntry(path, Missing, date, amount, ext, None);
    assert r.file == WrittenFile([e]);
    assert r.result.Ok?;
    assert r.result.value.totalBefore == 0;
  }

  /** A healthy file with entries gets the new entry appended, without a header. */
  lemma AddToLedger(path: string, es: seq<Entry>, date: Date, amount: int, ext: Externals)
    requires es != []
    ensures var e, r := Entry(ext.showDate(date), amount), AddEntry(path, WrittenFile(es), date, amount, ext, None);
      && r.file == WrittenFile(es + [e])
      && r.result.Ok?
      && r.result.value.totalBefore == Sum(es)
      && r.result.value.totalAfter == Sum(es) + amount
  {
    var e := Entry(ext.showDate(date), amount);
    ReadWrittenFile(path, es);
    assert (es + [e])[..|es|] == es;
    var written := Present(LinesOf(WrittenFile(es)) + [] + [EntryLine(e)]);
    assert written == WrittenFile(es + [e]) by {
      assert EntryLines(es + [e]) == EntryLines(es) + [EntryLine(e)];
      assert [HeaderLine] + EntryLines(es) + [] + [EntryLine(e)] == [HeaderLine] + EntryLines(es + [e]);
    }
    ReadWrittenFile(path, es + [e]);
  }

  /**
   * A file holding only its header reads as empty, so a second header is written;
   * the record after it then fails to read and the call reports a CSV error even
   * though the entry was appended.
   */
  lemma AddToHeaderOnlyFile(path: string, date: Date, amount: int, ext: Externals)
    ensures var e := Entry(ext.showDate(date), amount);
      AddEntry(path, Present([HeaderLine]), date, amount, ext, None)
        == AddOutcome(Present([HeaderLine, HeaderLine, EntryLine(e)]), Err(Csv))
  {
    var e := Entry(ext.showDate(date), amount);
    var lines := [HeaderLine, HeaderLine, EntryLine(e)];
    assert lines[1..][0] == HeaderLine;
    assert [HeaderLine] + [HeaderLine] + [EntryLine(e)] == lines;
  }

  // ----- NewEntryInfoDisplay -----

  /**
   * The three lines of `NewEntryInfoDisplay`: the old total, the difference and
   * `Total: ` with the new total, each right-aligned to the longest of them.
   */
  function NewEntryInfoLines(info: NewEntryInfo, o: NF.FormatOptions): (lines: seq<string>)
    ensures |lines| == 3
    ensures var contents := NewEntryInfoContents(info, o);
      forall i :: 0 <= i < 3 ==> RightAligned(lines[i], contents[i], MaxLen(contents))
  {
    AlignRight(NewEntryInfoContents(info, o))
  }

  /** The three texts before alignment. */
  function NewEntryInfoContents(info: NewEntryInfo, o: NF.FormatOptions): seq<string> {
    [NF.Formatted(info.totalBefore, o),
     NF.Formatted(info.totalAfter - info.totalBefore, o),
     "Total: " + NF.Formatted(info.totalAfter, o)]
  }

  /** After a successful `add_entry` the middle line shows the amount that was added. */
  lemma NewEntryInfoShowsAmount(path: string, f: FileState, date: Date, amount: int, ext: Externals, o: NF.FormatOptions)
    requires AddEntry(path, f, date, amount, ext, None).result.Ok?
    ensures NewEntryInfoContents(AddEntry(path, f, date, amount, ext, None).result.value, o)[1] == NF.Formatted(amount, o)
  {
    var info := AddEntry(path, f, date, amount, ext, None).result.value;
    assert info.totalAfter - info.totalBefore == amount;
    DifferenceLine(info, amount, o);
  }

  lemma DifferenceLine(info: NewEntryInfo, amount: int, o: NF.FormatOptions)
    requires info.totalAfter - info.totalBefore == amount
    ensures NewEntryInfoContents(info, o)[1] == NF.Formatted(amount, o)
  {
  }
}
