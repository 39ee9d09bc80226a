/**
 * The terminal interface of `src/tui.rs`: the three-column navigation over
 * ledger files, years and entries, the entry editor, the key dispatch of the
 * event loop, and what each redraw shows in its three columns.
 *
 * The ledger files are held in memory, one `FileState` per file. The clock,
 * the key events and the outcome of opening a file for writing come in as
 * parameters.
 */
module Tui {
  import opened Wrappers
  import opened Text
  import opened Ledger
  import opened ViewModel
  import opened Editor
  import NF = NumberFormatter

  datatype Focus = Files | Years | YearDetails

  /** `Selection`: the selected file, year and entry, as positions. */
  datatype Selection = Selection(file: nat, year: nat, entry: nat)

  datatype KeyKind = Press | Release | Repeat

  /** A terminal event: a key with its kind, or anything else (resize, mouse, focus). */
  datatype Event = KeyEvent(code: Key, kind: KeyKind) | OtherEvent

  /** One turn of the event loop: the event, the day it happens on, and the outcome of opening a file for writing. */
  datatype Tick = Tick(event: Event, today: Date, writeFault: Option<string>)

  /** How the event loop goes on after an event. */
  datatype Flow = Continue | Quit | Panic(reason: string)

  // ----- Positions -----

  /** `n.saturating_sub(1)`: the last position of `n` items, 0 when there are none. */
  function LastIndex(n: nat): (r: nat)
    ensures n > 0 ==> r < n && r + 1 == n
    ensures n == 0 ==> r == 0
  {
    if n == 0 then 0 else n - 1
  }

  /** `next_index_cycled`: one position on, wrapping to the first after the last. */
  function NextIndexCycled(current: nat, count: nat): (r: nat)
    ensures count > 0 ==> r < count
    ensures current + 1 >= count ==> r == 0
    ensures current + 1 < count ==> r == current + 1
  {
    if current + 1 >= count then 0 else current + 1
  }

  /** `previous_index_cycled`: one position back, wrapping to the last before the first. */
  function PreviousIndexCycled(current: nat, count: nat): (r: nat)
    ensures current < count ==> r < count
    ensures current == 0 ==> r == LastIndex(count)
    ensures current > 0 ==> r == current - 1
  {
    if current == 0 then LastIndex(count) else current - 1
  }

  /** Within range, moving back undoes moving on, and moving on undoes moving back. */
  lemma CycledIndicesInverse(current: nat, count: nat)
    requires current < count
    ensures PreviousIndexCycled(NextIndexCycled(current, count), count) == current
    ensures NextIndexCycled(PreviousIndexCycled(current, count), count) == current
  {
  }

  /** `k` moves on from `current`. */
  function NextIndexCycledTimes(current: nat, count: nat, k: nat): nat {
    if k == 0 then current else NextIndexCycled(NextIndexCycledTimes(current, count, k - 1), count)
  }

  /** Moving on `a` times and then `b` times is moving on `a + b` times. */
  lemma {:induction false} NextIndexCycledTimesAdd(current: nat, count: nat, a: nat, b: nat)
    ensures NextIndexCycledTimes(current, count, a + b)
      == NextIndexCycledTimes(NextIndexCycledTimes(current, count, a), count, b)
  {
    if b > 0 {
      NextIndexCycledTimesAdd(current, count, a, b - 1);
    }
  }

  /** Before the end, `k` moves on advance by exactly `k` positions. */
  lemma {:induction false} NextIndexCycledAdvances(current: nat, count: nat, k: nat)
    requires current + k < count
    ensures NextIndexCycledTimes(current, count, k) == current + k
  {
    if k > 0 {
      NextIndexCycledAdvances(current, count, k - 1);
    }
  }

  /**
   * Moving on walks the positions in a cycle: from any position, `count` moves
   * come back to it, and fewer moves never do.
   */
  lemma NextIndexCycledPeriod(current: nat, count: nat, k: nat)
    requires current < count
    ensures NextIndexCycledTimes(current, count, count) == current
    ensures 0 < k < count ==> NextIndexCycledTimes(current, count, k) != current
  {
    var toEnd := count - 1 - current;
    NextIndexCycledAdvances(current, count, toEnd);
    NextIndexCycledTimesAdd(current, count, toEnd, 1);
    assert NextIndexCycledTimes(current, count, toEnd + 1) == 0;
    NextIndexCycledAdvances(0, count, current);
    NextIndexCycledTimesAdd(current, count, toEnd + 1, current);
    if 0 < k < count {
      if k <= toEnd {
        NextIndexCycledAdvances(current, count, k);
      } else {
        NextIndexCycledTimesAdd(current, count, toEnd + 1, k - toEnd - 1);
        NextIndexCycledAdvances(0, count, k - toEnd - 1);
      }
    }
  }

  /** `cycle_focus`. */
  function NextFocus(f: Focus): Focus {
    match f
    case Files => Years
    case Years => YearDetails
    case YearDetails => Files
  }

  /** The focus visits all three columns and is back after three steps. */
  lemma FocusCycles(f: Focus)
    ensures NextFocus(NextFocus(NextFocus(f))) == f
    ensures NextFocus(f) != f && NextFocus(NextFocus(f)) != f
  {
  }

  // ----- Reading the view -----

  /** `year_entries_count`: the lines of the selected year; none when the year is out of range. */
  function YearEntriesCount(r: ReportView, year: nat): nat {
    if year < |r.yearReports| then |r.yearReports[year].lines| else 0
  }

  /** The position `select_last_entry` chooses: the selected year's last line, 0 when there is none. */
  function LastEntryIn(r: ReportView, year: nat): nat {
    LastIndex(YearEntriesCount(r, year))
  }

  /** `get_selected_entry`. */
  function SelectedEntryIn(r: ReportView, s: Selection): (e: Option<Entry>)
    ensures e.Some? <==> s.year < |r.yearReports| && s.entry < |r.yearReports[s.year].entries|
    ensures e.Some? ==> e.value in r.yearReports[s.year].entries
  {
    if s.year < |r.yearReports| && s.entry < |r.yearReports[s.year].entries|
    then Some(r.yearReports[s.year].entries[s.entry])
    else None
  }

  /** The contents of the `i`th file; a position past the end reads as a missing file. */
  function ContentsAt(ledgers: seq<FileState>, i: nat): FileState {
    if i < |ledgers| then ledgers[i] else Missing
  }

  /**
   * `reload_file` for the file at position `i`: the new view when it can be
   * built, the current one `r` when it cannot or when there is no such file.
   */
  function Reload(r: ReportView, files: seq<LedgerFile>, ledgers: seq<FileState>, i: nat, o: NF.FormatOptions, ext: Externals)
    : ReportView
  {
    if i < |files| then ViewOf(files[i], ContentsAt(ledgers, i), o, ext).GetOr(r) else r
  }

  /** Every year of the view has at least one line, as every view built from a ledger does. */
  predicate YearsNonEmpty(r: ReportView) {
    forall i :: 0 <= i < |r.yearReports| ==> r.yearReports[i].lines != []
  }

  /** The selection names an existing year and an existing line of it: what drawing relies on. */
  predicate InRange(r: ReportView, s: Selection) {
    s.year < |r.yearReports| && s.entry < |r.yearReports[s.year].lines|
  }

  /** Reloading keeps every year non-empty, whether the view is rebuilt or kept. */
  lemma ReloadKeepsYearsNonEmpty(r: ReportView, files: seq<LedgerFile>, ledgers: seq<FileState>, i: nat, o: NF.FormatOptions, ext: Externals)
    requires YearsNonEmpty(r)
    ensures YearsNonEmpty(Reload(r, files, ledgers, i, o, ext))
  {
    if i < |files| {
      ViewOfCorrect(files[i], ContentsAt(ledgers, i), o, ext);
    }
  }

  /** Selecting the last year and its last line lands in range whenever the view has a year. */
  lemma LastSelectionInRange(r: ReportView, s: Selection)
    requires YearsNonEmpty(r) && |r.yearReports| > 0
    ensures var year := LastIndex(|r.yearReports|);
      InRange(r, s.(year := year, entry := LastEntryIn(r, year)))
  {
  }

  /** The view `App::new` starts with: the first file's, or the empty one. */
  function InitialReport(files: seq<LedgerFile>, ledgers: seq<FileState>, o: NF.FormatOptions, ext: Externals): ReportView {
    Reload(EmptyView, files, ledgers, 0, o, ext)
  }

  /** The selection `App::new` starts with: the first file, its last year, that year's last entry. */
  function InitialSelection(r: ReportView): Selection {
    var year := LastIndex(|r.yearReports|);
    Selection(0, year, LastEntryIn(r, year))
  }

  // ----- Drawing -----

  /** The help line at the bottom: the navigation keys, or the editor's keys while it is open. */
  function FooterText(mode: PopupMode): string {
    if mode == NoPopup then "↓(j)/↑(k): Navigate | Tab: Focus | n/e: New/Edit Entry | q: Quit"
    else "Tab: Switch Field | Enter: Save | q: Cancel"
  }

  /**
   * One column of the screen: its title, its lines as (left, right) texts, the
   * highlighted line, and whether it shows the focus.
   */
  datatype Column = Column(title: string, lines: seq<(string, string)>, highlighted: nat, focused: bool)

  /** The editor as drawn: the name of the file it saves to, above its fields. */
  datatype EditorView = EditorView(fileName: string, popup: Popup)

  /** What one redraw shows: the three columns, the help line, and the editor when it is open. */
  datatype Frame = Frame(files: Column, years: Column, entries: Column, footer: string, editor: Option<EditorView>)

  /** A column shows the focus only while the editor is closed. */
  function HasFocus(focus: Focus, column: Focus, p: Popup): bool {
    focus == column && p.mode == NoPopup
  }

  /** The files column: every file's name, the selected one with the view's total. */
  function FilesColumn(files: seq<LedgerFile>, r: ReportView, s: Selection, focused: bool): (c: Column)
    ensures |c.lines| == |files| && c.title == "Files" && c.highlighted == s.file
    ensures forall i :: 0 <= i < |files| ==> c.lines[i].0 == files[i].name
    ensures forall i :: 0 <= i < |files| ==> c.lines[i].1 == (if i == s.file then r.total else "")
  {
    Column("Files", seq(|files|, i requires 0 <= i < |files| => (files[i].name, if i == s.file then r.total else "")), s.file, focused)
  }

  /** The years column, titled with the file's name: every year with its subtotal. */
  function YearsColumn(r: ReportView, s: Selection, focused: bool): (c: Column)
    ensures |c.lines| == |r.yearReports| && c.title == r.title && c.highlighted == s.year
    ensures forall i :: 0 <= i < |r.yearReports| ==> c.lines[i] == (r.yearReports[i].title, r.yearReports[i].subtotalAmount)
  {
    Column(r.title, seq(|r.yearReports|, i requires 0 <= i < |r.yearReports| => (r.yearReports[i].title, r.yearReports[i].subtotalAmount)), s.year, focused)
  }

  /**
   * The entries column as written: the selected year is indexed without a
   * check, and `None` stands for the panic when it is out of range.
   */
  function EntriesColumnAsWritten(r: ReportView, s: Selection, focused: bool): Option<Column> {
    if s.year < |r.yearReports|
    then Some(Column(r.yearReports[s.year].title, r.yearReports[s.year].lines, s.entry, focused))
    else None
  }

  /**
   * The entries column drawn tolerantly, as the other readers of the selection
   * (`year_entries_count`, `get_selected_entry`, `select_last_entry`) already read
   * it: a year out of range shows an empty, untitled column.
   */
  function EntriesColumn(r: ReportView, s: Selection, focused: bool): (c: Column)
    ensures s.year < |r.yearReports| ==> EntriesColumnAsWritten(r, s, focused) == Some(c)
    ensures s.year >= |r.yearReports| ==> EntriesColumnAsWritten(r, s, focused).None? && c.lines == [] && c.title == ""
    ensures |c.lines| == YearEntriesCount(r, s.year) && c.highlighted == s.entry
  {
    if s.year < |r.yearReports|
    then Column(r.yearReports[s.year].title, r.yearReports[s.year].lines, s.entry, focused)
    else Column("", [], s.entry, focused)
  }

  /**
   * The file name the editor shows, as written: the selected file is indexed
   * without a check, and `None` stands for the panic when there is no such file.
   */
  function FileNameAsWritten(files: seq<LedgerFile>, s: Selection): Option<string> {
    if s.file < |files| then Some(files[s.file].name) else None
  }

  /** The file name drawn tolerantly: empty when there is no selected file. */
  function FileName(files: seq<LedgerFile>, s: Selection): (name: string)
    ensures s.file < |files| ==> FileNameAsWritten(files, s) == Some(name)
    ensures s.file >= |files| ==> FileNameAsWritten(files, s).None? && name == ""
  {
    if s.file < |files| then files[s.file].name else ""
  }

  /** The part of the application a redraw reads besides the file list. */
  datatype Screen = Screen(report: ReportView, selection: Selection, focus: Focus, popup: Popup)

  /** `ui`: the three columns, the help line, and the editor over them when it is open. */
  function DrawOf(files: seq<LedgerFile>, r: ReportView, s: Selection, focus: Focus, p: Popup): Frame {
    Frame(
      FilesColumn(files, r, s, HasFocus(focus, Files, p)),
      YearsColumn(r, s, HasFocus(focus, Years, p)),
      EntriesColumn(r, s, HasFocus(focus, YearDetails, p)),
      FooterText(p.mode),
      if p.mode == NoPopup then None else Some(EditorView(FileName(files, s), p)))
  }

  /**
   * Exactly one column shows the focus while the editor is closed, none while
   * it is open, and the help line and the editor follow the editor's mode.
   */
  lemma DrawShowsFocus(files: seq<LedgerFile>, r: ReportView, s: Selection, focus: Focus, p: Popup)
    ensures var fr := DrawOf(files, r, s, focus, p);
      && (p.mode == NoPopup ==>
        && fr.editor.None?
        && (fr.files.focused <==> focus == Files)
        && (fr.years.focused <==> focus == Years)
        && (fr.entries.focused <==> focus == YearDetails))
      && (p.mode != NoPopup ==>
        && fr.editor == Some(EditorView(FileName(files, s), p))
        && !fr.files.focused && !fr.years.focused && !fr.entries.focused)
      && fr.footer == FooterText(p.mode)
  {
  }

  /**
   * What saving an entry does to a file, by the editor's mode, and the result
   * it reports: adding appends it (the library's error shown by its message),
   * editing replaces the selected entry, and with no mode nothing happens.
   */
  function SaveOutcome(
    path: string, f: FileState, mode: PopupMode, selected: Option<Entry>,
    date: Date, amount: int, ext: Externals, fault: Option<string>)
    : (out: EditResult)
    ensures mode == AddEntry && fault.Some? ==>
      out == EditResult(f, Err(Io("Failed to open file to add a new entry").Message()))
    ensures mode == AddEntry && out.result.Ok? ==>
      ReadEntries(path, out.file) == Ok(ReadEntries(path, f).GetOr([]) + [Entry(ext.showDate(date), amount)])
    ensures mode == EditEntry && (out.result.Err? || selected.None?) ==> out.file == f
    ensures mode == EditEntry && out.result.Ok? && selected.Some? ==>
      ReadEntries(path, f).Ok? && ReadEntries(path, out.file) == Ok(ReplaceFirst(ReadEntries(path, f).value, selected.value, Entry(ext.showDate(date), amount)))
    ensures mode == NoPopup ==> out == EditResult(f, Ok(()))
  {
    match mode
    case AddEntry =>
      var added := Ledger.AddEntry(path, f, date, amount, ext, fault);
      EditResult(added.file, if added.result.Ok? then Ok(()) else Err(added.result.error.Message()))
    case EditEntry =>
      EditOutcomeRereads(path, f, selected, date, amount, ext, fault);
      EditOutcome(path, f, selected, date, amount, ext, fault)
    case NoPopup => EditResult(f, Ok(()))
  }

  // ----- The application's state, as values -----

  /** What the application is given and never changes: the files, the format options and the externals. */
  datatype Setup = Setup(files: seq<LedgerFile>, formatOptions: NF.FormatOptions, ext: Externals)

  /** What the application changes: the files' contents, the view, the selection, the focus and the editor. */
  datatype AppState = AppState(ledgers: seq<FileState>, report: ReportView, selection: Selection, focus: Focus, popup: Popup)

  /** One content per file, the selected file exists whenever there is one, and no year of the view is empty. */
  predicate ValidState(c: Setup, s: AppState) {
    && |s.ledgers| == |c.files|
    && (s.selection.file < |c.files| || s.selection.file == 0)
    && YearsNonEmpty(s.report)
  }

  /** What a redraw is given of the state. */
  function ScreenOf(s: AppState): Screen {
    Screen(s.report, s.selection, s.focus, s.popup)
  }

  /** Which way `next` and `previous` go. */
  datatype Direction = Forward | Back

  function Cycled(d: Direction, current: nat, count: nat): nat {
    if d == Forward then NextIndexCycled(current, count) else PreviousIndexCycled(current, count)
  }

  /**
   * `next` and `previous`: in the files column the neighbouring file is loaded
   * and its last year and entry selected; in the years column the neighbouring
   * year and its last entry; in the entries column only the entry moves. Moving
   * lands in range whenever the view has a year, except where the old selection
   * was already out of range in a way the move does not repair.
   */
  function MoveOf(c: Setup, s: AppState, d: Direction): (r: AppState)
    requires ValidState(c, s)
    ensures ValidState(c, r)
    ensures r.ledgers == s.ledgers && r.focus == s.focus && r.popup == s.popup
    ensures s.focus != Files ==> r.report == s.report && r.selection.file == s.selection.file
    ensures |r.report.yearReports| > 0 && (s.focus == Files || (s.focus == Years && d == Forward) || InRange(s.report, s.selection)) ==>
      InRange(r.report, r.selection)
  {
    match s.focus
    case Files =>
      var file := Cycled(d, s.selection.file, |c.files|);
      var report := Reload(s.report, c.files, s.ledgers, file, c.formatOptions, c.ext);
      var year := LastIndex(|report.yearReports|);
      ReloadKeepsYearsNonEmpty(s.report, c.files, s.ledgers, file, c.formatOptions, c.ext);
      s.(report := report, selection := Selection(file, year, LastEntryIn(report, year)))
    case Years =>
      var year := Cycled(d, s.selection.year, |s.report.yearReports|);
      s.(selection := s.selection.(year := year, entry := LastEntryIn(s.report, year)))
    case YearDetails =>
      var entry := Cycled(d, s.selection.entry, YearEntriesCount(s.report, s.selection.year));
      s.(selection := s.selection.(entry := entry))
  }

  /** `open_edit_entry_popup`: the selected entry's date and amount, the date field focused; nothing without a selected entry. */
  function OpenEditOf(c: Setup, s: AppState): AppState {
    match SelectedEntryIn(s.report, s.selection)
    case Some(e) => s.(popup := Popup(EditEntry, DateField, e.date, c.ext.showAmount(e.amount), None))
    case None => s
  }

  /**
   * `handle_saving_popup_entry`: the date is checked, then the amount; then the
   * entry is added or edited in the selected file. Success reloads the view and
   * closes the editor, leaving the selection as it was; failure keeps the editor
   * open with the reason. With no files at all the selected file does not exist
   * and the source panics.
   */
  function SavingOf(c: Setup, s: AppState, fault: Option<string>): (r: (AppState, Flow))
    requires ValidState(c, s)
    ensures ValidState(c, r.0)
    ensures r.0.selection == s.selection && r.0.focus == s.focus && r.1 != Quit
    ensures c.ext.parseDate(s.popup.dateInput).None? ==>
      r == (s.(popup := s.popup.(errorMessage := Some(DateFormatError))), Continue)
    ensures c.ext.parseDate(s.popup.dateInput).Some? && c.ext.parseAmount(s.popup.amountInput).None? ==>
      r == (s.(popup := s.popup.(errorMessage := Some(AmountFormatError))), Continue)
    ensures r.1.Panic? <==>
      c.ext.parseDate(s.popup.dateInput).Some? && c.ext.parseAmount(s.popup.amountInput).Some? && |c.files| == 0
    ensures r.1.Panic? ==> r.0 == s.(popup := s.popup.(errorMessage := None))
    ensures c.ext.parseDate(s.popup.dateInput).Some? && c.ext.parseAmount(s.popup.amountInput).Some? && |c.files| > 0 ==>
      var i := s.selection.file;
      var out := SaveOutcome(c.files[i].path, s.ledgers[i], s.popup.mode, SelectedEntryIn(s.report, s.selection),
        c.ext.parseDate(s.popup.dateInput).value, c.ext.parseAmount(s.popup.amountInput).value, c.ext, fault);
      && r.1 == Continue
      && r.0.ledgers == s.ledgers[i := out.file]
      && (out.result.Ok? ==>
        r.0.popup == ClosedPopup && r.0.report == Reload(s.report, c.files, r.0.ledgers, i, c.formatOptions, c.ext))
      && (out.result.Err? ==>
        r.0.popup == s.popup.(errorMessage := Some("Failed to save: " + out.result.error)) && r.0.report == s.report)
  {
    var p := s.popup.(errorMessage := None);
    var date := c.ext.parseDate(p.dateInput);
    var amount := c.ext.parseAmount(p.amountInput);
    if date.None? then (s.(popup := p.(errorMessage := Some(DateFormatError))), Continue)
    else if amount.None? then (s.(popup := p.(errorMessage := Some(AmountFormatError))), Continue)
    else if s.selection.file >= |c.files| then (s.(popup := p), Panic("index out of bounds: there is no selected file"))
    else
      var i := s.selection.file;
      var out := SaveOutcome(c.files[i].path, s.ledgers[i], p.mode, SelectedEntryIn(s.report, s.selection),
        date.value, amount.value, c.ext, fault);
      var ledgers := s.ledgers[i := out.file];
      match out.result
      case Ok(_) =>
        ReloadKeepsYearsNonEmpty(s.report, c.files, ledgers, i, c.formatOptions, c.ext);
        (s.(ledgers := ledgers, report := Reload(s.report, c.files, ledgers, i, c.formatOptions, c.ext), popup := ClosedPopup), Continue)
      case Err(e) => (s.(ledgers := ledgers, popup := p.(errorMessage := Some("Failed to save: " + e))), Continue)
  }

  /**
   * The key dispatch of `run_tui_loop` for one event: only key presses count.
   * Without the editor, `q` quits, `n` opens it to add an entry dated today,
   * `e` opens it on the selected entry, Down/`j` and Up/`k` move and Tab moves
   * the focus; with it, `q` closes it, Tab switches field, Enter saves, and
   * typed characters and Backspace edit the focused field. Every other key
   * changes nothing.
   */
  function StepOf(c: Setup, s: AppState, t: Tick): (r: (AppState, Flow))
    requires ValidState(c, s)
    ensures ValidState(c, r.0)
  {
    if !(t.event.KeyEvent? && t.event.kind == Press) then (s, Continue)
    else if s.popup.mode == NoPopup then
      match t.event.code
      case Char('q') => (s, Quit)
      case Char('n') => (s.(popup := Popup(AddEntry, AmountField, c.ext.showDate(t.today), "", None)), Continue)
      case Char('e') => (OpenEditOf(c, s), Continue)
      case Down => (MoveOf(c, s, Forward), Continue)
      case Char('j') => (MoveOf(c, s, Forward), Continue)
      case Up => (MoveOf(c, s, Back), Continue)
      case Char('k') => (MoveOf(c, s, Back), Continue)
      case Tab => (s.(focus := NextFocus(s.focus)), Continue)
      case _ => (s, Continue)
    else
      match t.event.code
      case Char('q') => (s.(popup := ClosedPopup), Continue)
      case Tab => (s.(popup := s.popup.(focus := NextPopupFocus(s.popup.focus))), Continue)
      case Enter => SavingOf(c, s, t.writeFault)
      case Backspace => (s.(popup := AfterInput(s.popup, Backspace)), Continue)
      case Char(_) => (s.(popup := AfterInput(s.popup, t.event.code)), Continue)
      case _ => (s, Continue)
  }

  /**
   * What the dispatch guarantees whatever the key: anything but a key press
   * changes nothing; only `q` without the editor quits, and then nothing changes;
   * navigation never touches the files; the editor keeps the selection and the
   * focus, and the view while it stays open; only saving with no file panics.
   */
  lemma StepOfDispatch(c: Setup, s: AppState, t: Tick)
    requires ValidState(c, s)
    ensures var r := StepOf(c, s, t);
      && (!(t.event.KeyEvent? && t.event.kind == Press) ==> r == (s, Continue))
      && (r.1 == Quit <==> s.popup.mode == NoPopup && t.event == KeyEvent(Char('q'), Press))
      && (r.1 == Quit ==> r.0 == s)
      && (s.popup.mode == NoPopup ==> r.0.ledgers == s.ledgers)
      && (s.popup.mode != NoPopup ==> r.0.selection == s.selection && r.0.focus == s.focus)
      && (s.popup.mode != NoPopup && r.0.popup.mode != NoPopup ==> r.0.report == s.report)
      && (r.1.Panic? ==> s.popup.mode != NoPopup && t.event == KeyEvent(Enter, Press) && |c.files| == 0)
  {
  }

  // ----- The event loop, as values -----

  /** The state after `step` has been applied to each of `ts` in turn, whatever it says about going on. */
  function Fold<S, T, F>(step: (S, T) -> (S, F), s: S, ts: seq<T>): S
    decreases |ts|
  {
    if ts == [] then s else step(Fold(step, s, ts[..|ts| - 1]), ts[|ts| - 1]).0
  }

  /** What the step of the `k`th item says about going on, from where the items before it lead. */
  function FlowAt<S, T, F>(step: (S, T) -> (S, F), s: S, ts: seq<T>, k: nat): F
    requires k < |ts|
  {
    step(Fold(step, s, ts[..k]), ts[k]).1
  }

  /** The starting state and the state after each of the first `n` items, as `view` shows them. */
  function Trace<S, T, F, V>(step: (S, T) -> (S, F), view: S -> V, s: S, ts: seq<T>, n: nat): seq<V>
    requires n <= |ts|
  {
    if n == 0 then [view(s)] else Trace(step, view, s, ts, n - 1) + [view(Fold(step, s, ts[..n]))]
  }

  /** The steps of the first `n` items all say `go`. */
  predicate GoesOnBefore<S, T, F(==)>(step: (S, T) -> (S, F), s: S, ts: seq<T>, n: nat, go: F)
    requires n <= |ts|
  {
    n == 0 || (GoesOnBefore(step, s, ts, n - 1, go) && FlowAt(step, s, ts, n - 1) == go)
  }

  /** One more item: where it leads, what it says, and the view it adds to the trace. */
  lemma FoldExtend<S, T, F, V>(step: (S, T) -> (S, F), view: S -> V, s: S, ts: seq<T>, i: nat, after: S, flow: F, go: F)
    requires i < |ts| && (after, flow) == step(Fold(step, s, ts[..i]), ts[i])
    ensures after == Fold(step, s, ts[..i + 1])
    ensures flow == FlowAt(step, s, ts, i)
    ensures GoesOnBefore(step, s, ts, i, go) && flow == go ==> GoesOnBefore(step, s, ts, i + 1, go)
    ensures Trace(step, view, s, ts, i + 1) == Trace(step, view, s, ts, i) + [view(after)]
  {
    assert ts[..i + 1][..i] == ts[..i];
  }

  /** The `k`th entry of the trace is the view of the state the first `k` items lead to. */
  lemma {:induction false} TraceAt<S, T, F, V>(step: (S, T) -> (S, F), view: S -> V, s: S, ts: seq<T>, n: nat)
    requires n <= |ts|
    ensures |Trace(step, view, s, ts, n)| == n + 1
    ensures forall k :: 0 <= k <= n ==> Trace(step, view, s, ts, n)[k] == view(Fold(step, s, ts[..k]))
  {
    if n == 0 {
      assert ts[..0] == [];
    } else {
      TraceAt(step, view, s, ts, n - 1);
    }
  }

  /** The first `n` steps all go on exactly when each of them says `go`. */
  lemma {:induction false} GoesOnBeforeAll<S, T, F>(step: (S, T) -> (S, F), s: S, ts: seq<T>, n: nat, go: F)
    requires n <= |ts|
    ensures GoesOnBefore(step, s, ts, n, go) <==> forall k :: 0 <= k < n ==> FlowAt(step, s, ts, k) == go
  {
    if n > 0 {
      GoesOnBeforeAll(step, s, ts, n - 1, go);
    }
  }

  /**
   * The application's step as a function on every state: `StepOf` on the valid
   * states, the only ones the application reaches; any other state is left alone.
   */
  function Stepper(c: Setup): (AppState, Tick) -> (AppState, Flow) {
    (s: AppState, t: Tick) => if ValidState(c, s) then StepOf(c, s, t) else (s, Continue)
  }

  // ----- The application -----

  /** `App`: the files, the view of the selected one, the selection, the focus and the editor. */
  class App {
    const files: seq<LedgerFile>
    const formatOptions: NF.FormatOptions
    const ext: Externals
    /** The contents of each file, position by position. */
    var ledgers: seq<FileState>
    var report: ReportView
    var selection: Selection
    var focus: Focus
    var popup: Popup

    predicate Valid()
      reads this
    {
      ValidState(Given(), State())
    }

    function Given(): Setup {
      Setup(files, formatOptions, ext)
    }

    function State(): AppState
      reads this
    {
      AppState(ledgers, report, selection, focus, popup)
    }

    /** The view of the selected file after `reload_file`. */
    function Reloaded(): ReportView
      reads this
    {
      Reload(report, files, ledgers, selection.file, formatOptions, ext)
    }

    function SelectedEntry(): Option<Entry>
      reads this
    {
      SelectedEntryIn(report, selection)
    }

    /** `App::new`: the first file's view, its last year and that year's last entry, nothing open. */
    constructor (files: seq<LedgerFile>, ledgers: seq<FileState>, formatOptions: NF.FormatOptions, ext: Externals)
      requires |ledgers| == |files|
      ensures Valid()
      ensures this.files == files && this.ledgers == ledgers
      ensures this.formatOptions == formatOptions && this.ext == ext
      ensures report == InitialReport(files, ledgers, formatOptions, ext)
      ensures selection == InitialSelection(report)
      ensures |report.yearReports| > 0 ==> InRange(report, selection)
      ensures focus == Files && popup == ClosedPopup
    {
      this.files := files;
      this.ledgers := ledgers;
      this.formatOptions := formatOptions;
      this.ext := ext;
      focus := Files;
      report := EmptyView;
      selection := Selection(0, 0, 0);
      popup := ClosedPopup;
      new;
      ReloadFile();
      SelectLastYear();
      SelectLastEntry();
    }

    method CycleFocus()
      modifies this
      ensures focus == NextFocus(old(focus))
      ensures report == old(report) && selection == old(selection) && popup == old(popup) && ledgers == old(ledgers)
    {
      focus := match focus
        case Files => Years
        case Years => YearDetails
        case YearDetails => Files;
    }

    /** `reload_file`: a view that cannot be built leaves the current one in place. */
    method ReloadFile()
      modifies this
      ensures report == old(Reloaded())
      ensures old(YearsNonEmpty(report)) ==> YearsNonEmpty(report)
      ensures selection == old(selection) && focus == old(focus) && popup == old(popup) && ledgers == old(ledgers)
    {
      if YearsNonEmpty(report) {
        ReloadKeepsYearsNonEmpty(report, files, ledgers, selection.file, formatOptions, ext);
      }
      if selection.file < |files| {
        var r := NewReportView(files[selection.file], ContentsAt(ledgers, selection.file), formatOptions, ext);
        if r.Ok? {
          report := r.value;
        }
      }
    }

    method SelectLastYear()
      modifies this
      ensures selection == old(selection).(year := LastIndex(|report.yearReports|))
      ensures report == old(report) && focus == old(focus) && popup == old(popup) && ledgers == old(ledgers)
    {
      selection := selection.(year := if |report.yearReports| == 0 then 0 else |report.yearReports| - 1);
    }

    method SelectLastEntry()
      modifies this
      ensures selection == old(selection).(entry := LastEntryIn(report, selection.year))
      ensures report == old(report) && focus == old(focus) && popup == old(popup) && ledgers == old(ledgers)
    {
      var entry := 0;
      if selection.year < |report.yearReports| {
        var n := |report.yearReports[selection.year].lines|;
        entry := if n == 0 then 0 else n - 1;
      }
      selection := selection.(entry := entry);
    }

    /** `next`: one position on in the focused column; see `MoveOf`. */
    method Next()
      requires Valid()
      modifies this
      ensures Valid()
      ensures State() == MoveOf(Given(), old(State()), Forward)
    {
      match focus
      case Files =>
        selection := selection.(file := NextIndexCycled(selection.file, |files|));
        ReloadFile();
        SelectLastYear();
        SelectLastEntry();
      case Years =>
        selection := selection.(year := NextIndexCycled(selection.year, |report.yearReports|));
        SelectLastEntry();
      case YearDetails =>
        selection := selection.(entry := NextIndexCycled(selection.entry, YearEntriesCount(report, selection.year)));
    }

    /** `previous`: as `next`, one position back. */
    method Previous()
      requires Valid()
      modifies this
      ensures Valid()
      ensures State() == MoveOf(Given(), old(State()), Back)
    {
      match focus
      case Files =>
        selection := selection.(file := PreviousIndexCycled(selection.file, |files|));
        ReloadFile();
        SelectLastYear();
        SelectLastEntry();
      case Years =>
        selection := selection.(year := PreviousIndexCycled(selection.year, |report.yearReports|));
        SelectLastEntry();
      case YearDetails =>
        selection := selection.(entry := PreviousIndexCycled(selection.entry, YearEntriesCount(report, selection.year)));
    }

    /** `open_add_entry_popup`: today's date, an empty amount, the amount field focused. */
    method OpenAddEntryPopup(today: Date)
      modifies this
      ensures popup == Popup(AddEntry, AmountField, ext.showDate(today), "", None)
      ensures report == old(report) && selection == old(selection) && focus == old(focus) && ledgers == old(ledgers)
    {
      popup := popup.(mode := AddEntry, focus := AmountField);
      popup := popup.(dateInput := ext.showDate(today), amountInput := "", errorMessage := None);
    }

    /** `open_edit_entry_popup`: the selected entry's date and amount, the date field focused; nothing without a selected entry. */
    method OpenEditEntryPopup()
      modifies this
      ensures old(SelectedEntry()).None? ==> popup == old(popup)
      ensures old(SelectedEntry()).Some? ==>
        var e := old(SelectedEntry()).value;
        popup == Popup(EditEntry, DateField, e.date, ext.showAmount(e.amount), None)
      ensures report == old(report) && selection == old(selection) && focus == old(focus) && ledgers == old(ledgers)
      ensures State() == OpenEditOf(Given(), old(State()))
    {
      var selected := SelectedEntry();
      if selected.Some? {
        var dateInput := selected.value.date;
        var amountInput := ext.showAmount(selected.value.amount);
        popup := popup.(mode := EditEntry, focus := DateField);
        popup := popup.(dateInput := dateInput, amountInput := amountInput, errorMessage := None);
      }
    }

    method ClosePopup()
      modifies this
      ensures popup == ClosedPopup
      ensures report == old(report) && selection == old(selection) && focus == old(focus) && ledgers == old(ledgers)
    {
      popup := ClosedPopup;
    }

    method CyclePopupFocus()
      modifies this
      ensures popup == old(popup).(focus := NextPopupFocus(old(popup.focus)))
      ensures report == old(report) && selection == old(selection) && focus == old(focus) && ledgers == old(ledgers)
    {
      popup := popup.(focus := match popup.focus case DateField => AmountField case AmountField => DateField);
    }

    /** `handle_popup_input`, for the typed characters and Backspace the loop routes to it. */
    method HandlePopupInput(k: Key)
      requires k.Char? || k.Backspace?
      modifies this
      ensures popup == AfterInput(old(popup), k)
      ensures report == old(report) && selection == old(selection) && focus == old(focus) && ledgers == old(ledgers)
    {
      popup := popup.(errorMessage := None);
      match popup.focus
      case DateField =>
        var value := Typed(popup.dateInput, k);
        if |value| > 10 {
          value := value[..10];
        }
        popup := popup.(dateInput := value);
      case AmountField =>
        match k
        case Char(c) =>
          if IsDigit(c) || c == '.' || c == '-' {
            if c == '-' && popup.amountInput != [] {
              return;
            }
            popup := popup.(amountInput := Typed(popup.amountInput, k));
          }
        case Backspace =>
          popup := popup.(amountInput := Typed(popup.amountInput, k));
    }

    /** `handle_saving_popup_entry`; see `SavingOf`. */
    method HandleSavingPopupEntry(fault: Option<string>) returns (flow: Flow)
      requires Valid()
      modifies this
      ensures Valid()
      ensures (State(), flow) == SavingOf(Given(), old(State()), fault)
    {
      flow := Continue;
      popup := popup.(errorMessage := None);
      var date := ext.parseDate(popup.dateInput);
      if date.None? {
        popup := popup.(errorMessage := Some(DateFormatError));
        return;
      }
      var amount := ext.parseAmount(popup.amountInput);
      if amount.None? {
        popup := popup.(errorMessage := Some(AmountFormatError));
        return;
      }
      if selection.file >= |files| {
        return Panic("index out of bounds: there is no selected file");
      }
      var result := SaveEntry(date.value, amount.value, fault);
      match result {
        case Ok(_) =>
          ReloadFile();
          ClosePopup();
        case Err(e) =>
          popup := popup.(errorMessage := Some("Failed to save: " + e));
      }
    }

    /** The saving step of `handle_saving_popup_entry`: the editor's mode decides between adding and editing. */
    method SaveEntry(date: Date, amount: int, fault: Option<string>) returns (result: Result<(), string>)
      requires Valid() && selection.file < |files|
      modifies this
      ensures report == old(report) && selection == old(selection) && focus == old(focus) && popup == old(popup)
      ensures
        var i := selection.file;
        var out := SaveOutcome(files[i].path, old(ledgers)[i], popup.mode, SelectedEntryIn(report, selection), date, amount, ext, fault);
        ledgers == old(ledgers)[i := out.file] && result == out.result
    {
      var i := selection.file;
      var path := files[i].path;
      var before := ledgers[i];
      ghost var out := SaveOutcome(path, before, popup.mode, SelectedEntry(), date, amount, ext, fault);
      var file: FileState;
      match popup.mode {
        case AddEntry =>
          var added := Ledger.AddEntry(path, before, date, amount, ext, fault);
          file := added.file;
          result := if added.result.Ok? then Ok(()) else Err(added.result.error.Message());
        case EditEntry =>
          file, result := EditEntryInFile(path, before, SelectedEntry(), date, amount, ext, fault);
        case NoPopup =>
          file, result := before, Ok(());
      }
      assert file == out.file && result == out.result;
      ledgers := ledgers[i := file];
    }

    /** The key dispatch of `run_tui_loop` for one event; see `StepOf`. */
    method Step(t: Tick) returns (flow: Flow)
      requires Valid()
      modifies this
      ensures Valid()
      ensures (State(), flow) == StepOf(Given(), old(State()), t)
    {
      flow := Continue;
      var ev := t.event;
      if !(ev.KeyEvent? && ev.kind == Press) {
        return;
      }
      if popup.mode == NoPopup {
        match ev.code
        case Char('q') => flow := Quit;
        case Char('n') => OpenAddEntryPopup(t.today);
        case Char('e') => OpenEditEntryPopup();
        case Down => Next();
        case Char('j') => Next();
        case Up => Previous();
        case Char('k') => Previous();
        case Tab => CycleFocus();
        case _ =>
      } else {
        match ev.code
        case Char('q') => ClosePopup();
        case Tab => CyclePopupFocus();
        case Enter => flow := HandleSavingPopupEntry(t.writeFault);
        case Backspace => HandlePopupInput(ev.code);
        case Char(_) => HandlePopupInput(ev.code);
        case _ =>
      }
    }

    /**
     * `run_tui_loop`: draw, then for each event dispatch it and draw again, until
     * `q` quits, the events run out, or a handler panics. The `k`th redraw is
     * given the state the first `k` ticks lead to; the loop stops at the first
     * tick whose step quits or panics, without drawing again. Each screen shows
     * `DrawOf` of the files and that state.
     */
    method Run(ticks: seq<Tick>) returns (screens: seq<Screen>, flow: Flow)
      requires Valid()
      modifies this
      ensures Valid()
      ensures 1 <= |screens| <= |ticks| + 1
      ensures screens == Trace(Stepper(Given()), ScreenOf, old(State()), ticks, |screens| - 1)
      ensures GoesOnBefore(Stepper(Given()), old(State()), ticks, |screens| - 1, Continue)
      ensures flow == Continue ==> |screens| == |ticks| + 1 && State() == Fold(Stepper(Given()), old(State()), ticks)
      ensures flow != Continue ==>
        && |screens| <= |ticks|
        && flow == FlowAt(Stepper(Given()), old(State()), ticks, |screens| - 1)
        && State() == Fold(Stepper(Given()), old(State()), ticks[..|screens|])
    {
      ghost var start := State();
      ghost var step := Stepper(Given());
      screens := [ScreenOf(State())];
      flow := Continue;
      var i := 0;
      while i < |ticks|
        invariant Valid()
        invariant 0 <= i <= |ticks| && |screens| == i + 1
        invariant State() == Fold(step, start, ticks[..i])
        invariant screens == Trace(step, ScreenOf, start, ticks, i)
        invariant GoesOnBefore(step, start, ticks, i, Continue)
        invariant flow == Continue
      {
        ghost var before := State();
        flow := Step(ticks[i]);
        assert step(before, ticks[i]) == (State(), flow);
        FoldExtend(step, ScreenOf, start, ticks, i, State(), flow, Continue);
        if flow.Quit? || flow.Panic? {
          return;
        }
        screens := screens + [ScreenOf(State())];
        i := i + 1;
      }
      assert ticks[..i] == ticks;
    }
  }

  // ----- What the source does not keep -----

  /** An Externals value that knows two dates. */
  const TwoDates: Externals := Externals(
    (s: string) => if s == "2023-05-01" then Some(Date(2023, 5, 1)) else if s == "2024-05-01" then Some(Date(2024, 5, 1)) else None,
    (d: Date) => if d.year == 2023 then "2023-05-01" else "2024-05-01",
    (s: string) => None,
    (n: int) => "")

  /**
   * With no files, or with a ledger without entries, the view has no year, the
   * selection points at year 0, and the unchecked index of the entries column
   * panics at the very first redraw.
   */
  lemma EmptyLedgerCannotBeDrawn(file: LedgerFile, o: NF.FormatOptions, ext: Externals)
    ensures var r := InitialReport([], [], o, ext);
      r.yearReports == [] && EntriesColumnAsWritten(r, InitialSelection(r), false).None?
    ensures var r := InitialReport([file], [WrittenFile([])], o, ext);
      r.yearReports == [] && EntriesColumnAsWritten(r, InitialSelection(r), false).None?
  {
    ReadWrittenFile(file.path, []);
  }

  /** The tolerant column shows an empty year instead. */
  lemma EmptyLedgerDrawnEmpty(file: LedgerFile, o: NF.FormatOptions, ext: Externals)
    ensures var r := InitialReport([file], [WrittenFile([])], o, ext);
      EntriesColumn(r, InitialSelection(r), false) == Column("", [], 0, false)
  {
    ReadWrittenFile(file.path, []);
  }

  /**
   * With no files, the application starts on the empty view, and `n` opens the
   * editor. Even with the entries column drawn tolerantly, the editor's unchecked
   * index of the selected file panics at the next redraw; drawn tolerantly, the
   * editor shows an empty file name.
   */
  lemma NoFilesEditorCannotBeDrawn(o: NF.FormatOptions, ext: Externals, today: Date)
    ensures var c, r := Setup([], o, ext), InitialReport([], [], o, ext);
      var s := AppState([], r, InitialSelection(r), Files, ClosedPopup);
      && ValidState(c, s)
      && StepOf(c, s, Tick(KeyEvent(Char('n'), Press), today, None)).0.popup.mode == AddEntry
      && FileNameAsWritten([], InitialSelection(r)).None?
      && DrawOf([], r, InitialSelection(r), Files, StepOf(c, s, Tick(KeyEvent(Char('n'), Press), today, None)).0.popup).editor
        == Some(EditorView("", Popup(AddEntry, AmountField, ext.showDate(today), "", None)))
  {
  }

  const TwoYearsFile := LedgerFile("ledger.csv", "ledger.csv")
  const Entry2023 := Entry("2023-05-01", 100)
  const Entry2024 := Entry("2024-05-01", 200)
  /** `Entry2024` moved to the first of May 2023. */
  const Entry2024Moved := Entry("2023-05-01", 200)

  lemma TwoYearTitles()
    ensures YearTitle(Date(2023, 5, 1)) == "2023" && YearTitle(Date(2024, 5, 1)) == "2024"
    ensures Less("2023", "2024") && !Less("2024", "2023") && "2023" != "2024"
  {
    assert NatText(2) == "2";
    assert NatText(20) == "20";
    assert NatText(202) == "202";
    assert Less("2023", "2024") by {
      assert "2023"[1..] == "023" && "2024"[1..] == "024";
      assert "023"[1..] == "23" && "024"[1..] == "24";
      assert "23"[1..] == "3" && "24"[1..] == "4";
    }
    LessAsymmetric("2023", "2024");
  }

  /** The two-year ledger opens on year 1 (2024), entry 0, which is `Entry2024`. */
  lemma TwoYearLedgerOpensOn2024(o: NF.FormatOptions)
    ensures var r := InitialReport([TwoYearsFile], [WrittenFile([Entry2023, Entry2024])], o, TwoDates);
      && |r.yearReports| == 2
      && InitialSelection(r) == Selection(0, 1, 0)
      && SelectedEntryIn(r, InitialSelection(r)) == Some(Entry2024)
  {
    TwoYearTitles();
    ReadWrittenFile(TwoYearsFile.path, [Entry2023, Entry2024]);
    assert [Entry2023, Entry2024][..1] == [Entry2023];
    assert GroupByYear([Entry2023], TwoDates) == Ok([("2023", [Entry2023])]);
    assert Upsert([("2023", [Entry2023])], "2024", Entry2024) == [("2023", [Entry2023]), ("2024", [Entry2024])] by {
      assert [("2023", [Entry2023])][1..] == [];
    }
    assert GroupByYear([Entry2023, Entry2024], TwoDates) == Ok([("2023", [Entry2023]), ("2024", [Entry2024])]);
  }

  /** Editing `Entry2024` to a 2023 date rewrites the file with both entries in 2023. */
  lemma MovingEntry2024Succeeds()
    ensures EditOutcome(TwoYearsFile.path, WrittenFile([Entry2023, Entry2024]), Some(Entry2024), Date(2023, 5, 1), 200, TwoDates, None)
      == EditResult(WrittenFile([Entry2023, Entry2024Moved]), Ok(()))
  {
    ReadWrittenFile(TwoYearsFile.path, [Entry2023, Entry2024]);
    assert FirstMatch([Entry2023, Entry2024], Entry2024) == 1;
    assert ReplaceFirst([Entry2023, Entry2024], Entry2024, Entry2024Moved) == [Entry2023, Entry2024Moved];
  }

  /** The rewritten file has a single year. */
  lemma MovedLedgerHasOneYear(r: ReportView, o: NF.FormatOptions)
    ensures |Reload(r, [TwoYearsFile], [WrittenFile([Entry2023, Entry2024Moved])], 0, o, TwoDates).yearReports| == 1
  {
    TwoYearTitles();
    ReadWrittenFile(TwoYearsFile.path, [Entry2023, Entry2024Moved]);
    assert [Entry2023, Entry2024Moved][..1] == [Entry2023];
    assert GroupByYear([Entry2023], TwoDates) == Ok([("2023", [Entry2023])]);
    assert Upsert([("2023", [Entry2023])], "2023", Entry2024Moved) == [("2023", [Entry2023, Entry2024Moved])] by {
      assert [("2023", [Entry2023])][1..] == [];
    }
    assert GroupByYear([Entry2023, Entry2024Moved], TwoDates) == Ok([("2023", [Entry2023, Entry2024Moved])]);
  }

  /**
   * A ledger with one entry in 2023 and one in 2024 opens on year 1 (2024),
   * entry 0. Editing that entry to a 2023 date succeeds; the reloaded view has a
   * single year, the selection still points at year 1, and the next redraw's
   * unchecked index panics.
   */
  lemma SaveLeavesYearOutOfRange(o: NF.FormatOptions)
    ensures
      var before := WrittenFile([Entry2023, Entry2024]);
      var r := InitialReport([TwoYearsFile], [before], o, TwoDates);
      var s := InitialSelection(r);
      var out := EditOutcome(TwoYearsFile.path, before, SelectedEntryIn(r, s), Date(2023, 5, 1), 200, TwoDates, None);
      var reloaded := Reload(r, [TwoYearsFile], [out.file], 0, o, TwoDates);
      && out.result.Ok?
      && EntriesColumnAsWritten(reloaded, s, false).None?
      && EntriesColumn(reloaded, s, false) == Column("", [], 0, false)
  {
    var before := WrittenFile([Entry2023, Entry2024]);
    var r := InitialReport([TwoYearsFile], [before], o, TwoDates);
    TwoYearLedgerOpensOn2024(o);
    MovingEntry2024Succeeds();
    MovedLedgerHasOneYear(r, o);
  }
}
