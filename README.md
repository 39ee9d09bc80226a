# mfinance in Dafny

A verified model of the core of mfinance, a small personal-finance ledger. The
ledger is a semicolon-separated CSV file of `(date, amount)` rows. The program
appends entries to it, prints filtered and sorted reports with aligned columns,
and offers a terminal interface with three columns: the ledger files, the years
of the selected file, and the entries of the selected year. A popup editor in
that interface adds and edits entries. Amounts are printed by a small number
formatter that takes configurable separators and a currency affix.

The model covers these modules:

- **`NumberFormatter`** (`number_formatter.dfy`): `FormatOptions`, `CurrencyPosition`, the defaults, and `format`.
  - `Formatted` is the reference definition: sign, grouped integer digits, decimal separator, two fraction digits, currency affix.
  - `Format` is the character loop of the source, proved equal to it.
- **`Config`** (`config.dfy`): `FormattingConfig`, `CurrencyPositionChoice`, the default configuration and `format_options`.
- **`Ledger`** (`ledger.dfy`), covering:
  - `Entry` and `day_month_date`, and the library's errors with their messages;
  - the CSV file as a sequence of lines (header, record, malformed line), and reading it back;
  - `add_entry`, with its header decision and its totals;
  - the three right-aligned lines of `NewEntryInfoDisplay`.
- **`LedgerReport`** (`report.dfy`): `generate_report` and `generate_report_for_all`, plus the `ReportDisplay` layout.
  - The filter and the stable sort by date work in place on an array, proved against a specification by insertion.
  - The layout is proved to put every line in the same two columns.
- **`ViewModel`** (`view_model.dfy`): `ReportViewModel::new`.
  - The year grouping of the `BTreeMap` is a sorted association list.
  - The loop is proved equal to a functional definition, and the functional definition is proved to give the sums, the order and the grouping the interface relies on.
- **`Editor`** (`editor.dfy`): the popup's input fields, the date truncation, the amount filter, and the edit matching of `edit_entry_in_file`.
- **`Tui`** (`tui.dfy`): the `App` class, with the files, the view, the selection, the focus and the popup as fields.
  - It has navigation, the popup operations, saving, the key dispatch of `run_tui_loop`, and the frame each redraw shows.
  - The handlers are proved against functions on the application's state as a value (`AppState`): `MoveOf`, `OpenEditOf`, `SavingOf` and `StepOf`, the dispatch of one event.
  - The event loop is proved against the fold of `StepOf` over the events (`Fold`, `Trace`, `FlowAt`).
  - `next_index_cycled` and `previous_index_cycled` are modelled with their laws.

These parts of the program enter the model as data:

- **Files.** They are values (`FileState`): a missing file, or a sequence of lines. `App` holds one per ledger file, in its `ledgers` field.
- **Opening a file for writing.** Its outcome is a parameter (`fault`).
- **chrono and rust_decimal.** They are an `Externals` value of four functions: parse a date, print a date, parse a decimal, print a decimal.
- **The local clock.** Today's date is a parameter of opening the add-entry popup.
- **Key events.** They are a sequence of `Tick`s given to `App.Run`.
- **Amounts.** They are integers counting hundredths.

## Model

| member | source | states |
|---|---|---|
| NumberFormatter.Format | src/number_formatter.rs:33-59 | the character loop with its moving group index produces exactly the reference rendering `Formatted` |
| NumberFormatter.FractionDigits | src/number_formatter.rs:34-37 | the fraction is always exactly two decimal digits |
| NumberFormatter.FormattedEndsWithTwoDecimals | src/number_formatter.rs:34-37 | without a suffix, the output ends with the decimal separator and two digits whose value is the amount's hundredths |
| NumberFormatter.PlainTextLayout | src/number_formatter.rs:36-37 | the plain rendering is sign, integer digits, the chosen decimal separator and two fraction digits, in that order |
| NumberFormatter.GroupedChunk | src/number_formatter.rs:41-52 | an integer part longer than three digits is its grouping without the last three digits, a separator, and those three digits |
| NumberFormatter.GroupedShort | src/number_formatter.rs:41-52 | an integer part of at most three digits gets no separator |
| NumberFormatter.SignNotCounted | src/number_formatter.rs:39-44 | a negative amount is a minus sign before the grouping of its magnitude, so the sign is never counted as a digit |
| NumberFormatter.GroupedUngroup | src/number_formatter.rs:45-52 | removing the separators from grouped digits gives back the digits |
| NumberFormatter.UngroupGivesPlainText | src/number_formatter.rs:45-52 | removing the thousands separators from the output gives the plain two-decimal rendering, when the separator is not a digit, not `-` and not the decimal separator |
| NumberFormatter.CurrencyAffix | src/number_formatter.rs:54-58 | a prefix symbol goes literally before the grouped number, a suffix symbol after it, and no currency leaves it unchanged |
| NumberFormatter.SnapshotsSmall | src/number_formatter.rs:115-142 | 1, -1, 100 and -100 print as "1.00", "-1.00", "100.00" and "-100.00" with the defaults |
| NumberFormatter.SnapshotThousands | src/number_formatter.rs:145-148 | 1999.99 prints with one non-breaking-space separator |
| NumberFormatter.SnapshotNegativeTensOfThousands | src/number_formatter.rs:161-163 | -19999.99 prints as "-19 999.99" |
| NumberFormatter.SnapshotMillions | src/number_formatter.rs:176-178 | 1999999.99 prints with two separators |
| NumberFormatter.SnapshotsCurrency | src/number_formatter.rs:68-83 | the euro prefix and the " EUR" suffix each give the expected rendering of 1000 |
| NumberFormatter.SnapshotsSeparators | src/number_formatter.rs:85-101 | a comma thousands separator and a comma decimal separator each give the expected rendering of 1000 |
| NumberFormatter.MultiByteDecimalSeparatorMisgroups | src/number_formatter.rs:40-47 | with `·` as decimal separator, the byte arithmetic of the source gives "1 00·00" where the grouping gives "100·00" |
| NumberFormatter.FormatAsWrittenAgreesOnAscii | src/number_formatter.rs:40-52 | with a one-byte decimal separator, the source's byte arithmetic gives exactly the reference rendering |
| Config.FormatOptionsOf | src/config.rs:57-73 | a symbol with Prefix gives a prefix, with Suffix a suffix, a missing symbol or position gives no currency, and both separators are copied through |
| Config.EveryOptionReachable | src/config.rs:57-73 | every set of format options is the conversion of some configuration |
| Config.SameOptions | src/config.rs:65 | configurations with the same separators and no usable currency give equal options |
| Config.DefaultFormatOptions | src/config.rs:107-112 | the default configuration converts to the default format options |
| Config.FormatOptionsConversion | src/config.rs:179-193 | "$" with Prefix converts to a `$` prefix |
| Ledger.MonthName | src/lib.rs:24 | a month's `%B` name is a non-empty run of letters, so no digit or space of it can be mistaken for the day |
| Ledger.DayMonthDate | src/lib.rs:22-28 | an unparsable date is returned unchanged; a parsed one is the month name, a space, and the day without a leading zero, the first space ending the name |
| Ledger.Records | src/lib.rs:237-239 | reading records succeeds exactly when every line is a record, and then gives back the records written; otherwise it is a CSV error |
| Ledger.ReadEntries | src/lib.rs:227-240 | a missing file is an I/O error naming the path; an empty or header-only file has no entries; the first line is taken as the header |
| Ledger.ReadWrittenFile | src/lib.rs:227-240 | a header followed by the records of some entries reads back as exactly those entries |
| Ledger.EntryLinesInjective | src/lib.rs:237-239 | different entry lists are written as different record lines |
| Ledger.SumAppend | src/lib.rs:65 | the total of two lists of entries is the sum of their totals |
| Ledger.AddEntry | src/lib.rs:59-100 | a failed open changes nothing; otherwise the record is appended after the existing lines, with a header only when no entries could be read; on success, the re-read entries are the old ones plus the new one, and the totals differ by the amount |
| Ledger.AppendedEntries | src/lib.rs:64-87 | when the appended file reads back, its entries are the previous ones followed by the new one |
| Ledger.AddToMissingFile | src/lib.rs:64-99 | adding to a missing file creates a header and the record, with totals 0 and the amount |
| Ledger.AddToLedger | src/lib.rs:64-99 | adding to a non-empty ledger appends the record without a header, and the totals are the old sum and the old sum plus the amount |
| Ledger.AddToHeaderOnlyFile | src/lib.rs:64-99 | a header-only file gains a second header, and the re-read then fails with a CSV error |
| Ledger.NewEntryInfoLines | src/lib.rs:121-137 | the display is three lines, each right-aligned to the longest of the three texts |
| Ledger.NewEntryInfoShowsAmount | src/lib.rs:124 | after a successful add, the middle line shows the added amount |
| LedgerReport.FilterByPrefixKeeps | src/lib.rs:141-144 | the filter keeps exactly the entries whose date starts with the filter, each as often as in the ledger |
| LedgerReport.InsertMultiset | src/lib.rs:150 | inserting an entry adds exactly that entry |
| LedgerReport.InsertSorted | src/lib.rs:150 | inserting into a date-sorted list keeps it sorted |
| LedgerReport.InsertDatedOn | src/lib.rs:150 | an inserted entry goes after the entries with the same date, so the sort is stable |
| LedgerReport.SortByDateSpecCorrect | src/lib.rs:150 | the sort specification is sorted by date, is a permutation, and keeps the file order among equal dates |
| LedgerReport.NotLessTransitive | src/lib.rs:150 | "not before" on date strings is transitive |
| LedgerReport.InsertAt | src/lib.rs:150 | one pass of the in-place insertion moves element `i` into the sorted prefix and leaves the rest alone |
| LedgerReport.SortByDate | src/lib.rs:150 | sorting the array in place gives the stable sort specification of its old contents |
| LedgerReport.GenerateReport | src/lib.rs:140-155 | a read error is passed on; no entry left after the filter is `FilteredNoEntries`; otherwise the report holds the kept entries sorted, and exactly the ledger's entries that match the filter |
| LedgerReport.GenerateReportForAll | src/lib.rs:157-168 | a read error is passed on; an empty ledger is `NoEntries`; otherwise the report holds all entries sorted, as a permutation |
| LedgerReport.Prefixes | src/lib.rs:191-201 | each row's left text is the entry's date followed by a colon |
| LedgerReport.Suffixes | src/lib.rs:191-201 | each row's right text is the formatted amount |
| LedgerReport.Row | src/lib.rs:216-217 | a row right-aligns the left text in the prefix width and the right text in the suffix width, and the suffix column starts with a space |
| LedgerReport.TableLayout | src/lib.rs:210-221 | every line, the total line included, has the same two columns, wide enough for the longest text of each |
| LedgerReport.ReportText | src/lib.rs:189-224 | the display has one line per entry and a total line |
| LedgerReport.ReportEntryLines | src/lib.rs:210-218 | each entry line shows `date:` and the formatted amount in the common columns |
| LedgerReport.ReportTotalLine | src/lib.rs:203-221 | the last line shows the caption for the filter and the formatted sum of all the report's entries |
| LedgerReport.RowTexts | src/lib.rs:191-201 | the loop over the entries builds the left and right texts of each row |
| LedgerReport.WriteTable | src/lib.rs:210-221 | the loop that measures the columns and writes the rows builds the whole aligned table |
| LedgerReport.ReportLines | src/lib.rs:189-224 | formatting a report, whose entries are never empty, gives the aligned display |
| ViewModel.UpsertKeys | src/tui.rs:217-218 | filing an entry under a year keeps the years strictly ascending and adds exactly that year |
| ViewModel.UpsertLookup | src/tui.rs:217-218 | filing an entry appends it to its own year and leaves the other years alone |
| ViewModel.UpsertSum | src/tui.rs:217-218 | filing an entry adds its amount to the grand total of the groups |
| ViewModel.LookupAt | src/tui.rs:217-218 | in ascending groups, looking a year up finds its own group |
| ViewModel.GroupByYearCorrect | src/tui.rs:214-219 | grouping succeeds exactly when every date parses; then the years are ascending, none is empty, each holds the ledger's entries of that year in file order, and the subtotals add up to the total |
| ViewModel.GroupByYearFailure | src/tui.rs:216 | a failed grouping names the first entry whose date does not parse |
| ViewModel.GroupByYearErrPersists | src/tui.rs:215-216 | once a date fails to parse, the later entries do not change the failure |
| ViewModel.EntryLinesOf | src/tui.rs:227-230 | each display line of a year is the entry's day-and-month label and its formatted amount |
| ViewModel.YearReportsOf | src/tui.rs:222-236 | each year's report carries its title, formatted subtotal, lines and raw entries |
| ViewModel.SumYearsOfGroups | src/tui.rs:223-225 | the year subtotals add up to the sum of the groups |
| ViewModel.ViewOfCorrect | src/tui.rs:207-241 | a read error or an unparsable date fails the build; otherwise the title is the file name, the total the formatted sum, the years ascending, each year non-empty, in file order, with one line per entry and its formatted subtotal, and the subtotals add up to the total |
| ViewModel.EntryFiledUnderItsYear | src/tui.rs:214-219 | every entry of the ledger appears under the year its date parses to |
| ViewModel.NewReportView | src/tui.rs:207-241 | the loop filling the year map builds exactly the view `ViewOf` describes, including the first failing date |
| Editor.PopupFocusToggles | src/tui.rs:391-396 | switching fields always changes the field, and two switches return to the first |
| Editor.Typed | src/tui.rs:404-427 | a typed character is appended at the end, and Backspace removes the last character if there is one |
| Editor.AmountInputShaped | src/tui.rs:414-427 | the amount field only ever holds digits and points, with a minus sign only in front |
| Editor.AmountInputRejects | src/tui.rs:417-427 | any other character, or a minus sign after the first character, leaves the amount unchanged |
| Editor.TruncateDate | src/tui.rs:407-411 | a date text longer than ten characters is cut back to its first ten |
| Editor.DateInputBounded | src/tui.rs:405-411 | the date field never holds more than ten characters, and a character typed into a full field is dropped |
| Editor.TruncateDateAgreesOnAscii | src/tui.rs:409 | on ASCII input, the byte slice of the source gives exactly the character truncation |
| Editor.TruncateDateAsWrittenPanics | src/tui.rs:409 | "2024-09-1é" has eleven bytes, so the byte slice at ten falls inside `é` and panics, where the truncation keeps the text |
| Editor.AfterInput | src/tui.rs:398-431 | every typed character or Backspace clears the error, even when rejected; only the focused field changes, the date through truncation and the amount through the filter |
| Editor.FirstMatch | src/tui.rs:489-492 | the match is the first entry equal in date and amount to the selected one, or none |
| Editor.FindEntry | src/tui.rs:489-492 | the search loop stops at the first entry equal to the selected one, and runs to the end when there is none |
| Editor.ReplaceFirstChangesOnlyFirstMatch | src/tui.rs:489-495 | only the first matching entry is replaced; every other entry and the order stay as they were, and nothing changes without a match |
| Editor.EditOutcomeRereads | src/tui.rs:478-512 | a read error or a failed open leaves the file as it was; a successful edit with a selection rewrites the file so that it reads back as the old entries with the first match replaced |
| Editor.EditEntryInFile | src/tui.rs:478-512 | the search loop and the rewrite give exactly the outcome `EditOutcome` describes, including success when nothing matches |
| Tui.LastIndex | src/tui.rs:336-347 | `saturating_sub(1)` is the last position of a non-empty list, and 0 for an empty one |
| Tui.NextIndexCycled | src/tui.rs:777-783 | it gives 0 when `current + 1 >= count` (count 0 included) and `current + 1` otherwise, always below a positive count |
| Tui.PreviousIndexCycled | src/tui.rs:785-791 | 0 goes to the last position (0 for an empty list), anything else one back, within range when it starts within range |
| Tui.CycledIndicesInverse | src/tui.rs:777-791 | within range, moving back undoes moving on and moving on undoes moving back |
| Tui.NextIndexCycledAdvances | src/tui.rs:777-783 | before the end, `k` moves on advance exactly `k` positions |
| Tui.NextIndexCycledPeriod | src/tui.rs:777-783 | `count` moves on return to the start, and no smaller positive number of moves does |
| Tui.FocusCycles | src/tui.rs:277-283 | the focus goes Files, Years, YearDetails and back, so three steps are the identity and each step changes it |
| Tui.SelectedEntryIn | src/tui.rs:383-389 | there is a selected entry exactly when the year and the entry positions are in range, and it belongs to the selected year |
| Tui.FilesColumn | src/tui.rs:527-538 | the files column lists every file's name, with the view's total beside the selected file only |
| Tui.YearsColumn | src/tui.rs:547-557 | the years column is titled with the file name and lists every year with its subtotal |
| Tui.EntriesColumn | src/tui.rs:561-578 | where the selected year exists, the column is the source's; where it does not, an empty column is drawn instead of panicking, and there are as many lines as `year_entries_count` reports |
| Tui.DrawShowsFocus | src/tui.rs:541-593 | while the popup is closed, exactly the focused column is highlighted; while it is open, none is, and the popup is shown with the name of the selected file; the footer follows the popup mode |
| Tui.SaveOutcome | src/tui.rs:455-462 | a failed open in add mode keeps the file; a successful add re-reads as the old entries plus the new one; a failed or selection-less edit keeps the file; a successful edit re-reads with the first match replaced; no mode does nothing |
| Tui.ReloadKeepsYearsNonEmpty | src/tui.rs:325-334 | reloading, whether it rebuilds the view or keeps the old one, leaves no empty year |
| Tui.LastSelectionInRange | src/tui.rs:336-347 | selecting the last year and its last line gives a position that exists whenever the view has a year |
| Tui.App.constructor | src/tui.rs:262-274 | the app starts on the first file's view (or an empty one), its last year and that year's last entry, with the focus on files and no popup, in range whenever there is a year |
| Tui.App.CycleFocus | src/tui.rs:277-283 | only the focus changes, to the next column |
| Tui.App.ReloadFile | src/tui.rs:325-334 | the view is rebuilt from the selected file, or kept when that fails or there is no file; nothing else changes |
| Tui.App.SelectLastYear | src/tui.rs:336-338 | only the selected year changes, to the last one |
| Tui.App.SelectLastEntry | src/tui.rs:340-347 | only the selected entry changes, to the last line of the selected year, or 0 |
| Tui.MoveOf | src/tui.rs:285-323 | moving keeps the state valid, never touches the files, the focus or the popup, changes the view only in the files column, and lands in range whenever there is a year (for Up in the years column and in the entries column, when it started in range) |
| Tui.App.Next | src/tui.rs:285-304 | the new state is `MoveOf` forward of the old: in files, the next file is loaded with its last year and entry; in years, the next year with its last entry; in entries, only the entry moves |
| Tui.App.Previous | src/tui.rs:306-323 | the new state is `MoveOf` back of the old: as `Next`, one position back |
| Tui.App.OpenAddEntryPopup | src/tui.rs:357-364 | the popup is in add mode with the amount field focused, today's date, an empty amount and no error |
| Tui.App.OpenEditEntryPopup | src/tui.rs:366-377 | without a selected entry nothing changes; otherwise edit mode with the date field focused and both fields taken from the entry; the new state is `OpenEditOf` of the old |
| Tui.App.ClosePopup | src/tui.rs:379-381 | the popup returns to its initial state |
| Tui.App.CyclePopupFocus | src/tui.rs:391-396 | only the popup's field changes, to the other one |
| Tui.App.HandlePopupInput | src/tui.rs:398-431 | the popup becomes `AfterInput` of the key, and nothing else changes |
| Tui.SavingOf | src/tui.rs:433-476 | the date is checked before the amount, and each failure sets its message and keeps everything else; it panics exactly when both parse and there is no file at all; otherwise the selected file becomes what `SaveOutcome` writes, and success reloads the view and closes the popup while failure shows "Failed to save: " and the reason; the selection and the focus are never changed, and it never quits |
| Tui.App.HandleSavingPopupEntry | src/tui.rs:433-476 | the new state and the flow are exactly `SavingOf` of the old state |
| Tui.App.SaveEntry | src/tui.rs:453-462 | the selected file becomes what `SaveOutcome` writes, and the result is the one it reports |
| Tui.StepOfDispatch | src/tui.rs:56-109 | only key presses count; `q` quits exactly in navigation mode, changing nothing; navigation never writes a file; while the popup is open the selection and the focus stay as they are, so the entry matched at save time is the one selected when the popup opened; only Enter with no file panics |
| Tui.App.Step | src/tui.rs:56-109 | the new state and the flow are exactly `StepOf` of the old state and the tick: in navigation `n` opens the add popup dated today, `e` the edit popup, Down/`j` move forward, Up/`k` back, Tab the focus; in the popup `q` closes it, Tab switches field, Enter saves, characters and Backspace edit; every other key changes nothing |
| Tui.FoldExtend | src/tui.rs:60-112 | one more event leads to its step's state, says that step's flow, and adds one redraw of that state |
| Tui.TraceAt | src/tui.rs:57-112 | the `k`th redraw shows the state the first `k` events lead to |
| Tui.GoesOnBeforeAll | src/tui.rs:60-112 | the loop has gone on through the first `n` events exactly when each of their steps went on |
| Tui.App.Run | src/tui.rs:36-115 | the redraws are the trace of `StepOf` over the events, starting before the first; every event before the last redraw went on; when the events run out, there is one redraw per event plus the first and the state is the fold of all of them; otherwise the flow is that of the first event that quits or panics, the number of redraws is its position plus one, and the state is the fold up to and including it |
| Tui.EmptyLedgerCannotBeDrawn | src/tui.rs:563 | with no files, or with a header-only ledger, the view has no year, and the source's unchecked index panics at the first draw |
| Tui.EmptyLedgerDrawnEmpty | src/tui.rs:563 | the tolerant column shows an empty, untitled column for the header-only ledger |
| Tui.TwoYearLedgerOpensOn2024 | src/tui.rs:262-274 | a ledger with one entry in 2023 and one in 2024 opens on year 1, whose selected entry is the 2024 one |
| Tui.MovingEntry2024Succeeds | src/tui.rs:478-512 | editing the 2024 entry to a 2023 date succeeds and rewrites the file |
| Tui.MovedLedgerHasOneYear | src/tui.rs:207-241 | the rewritten ledger has a single year |
| Tui.FileName | src/tui.rs:649-651 | where the selected file exists, the editor shows its name, as the source does; where it does not, an empty name instead of a panic |
| Tui.NoFilesEditorCannotBeDrawn | src/tui.rs:650 | with no files, `n` opens the add popup, and the source's unchecked index of the selected file panics at the next redraw, while the tolerant editor shows an empty name |
| Tui.SaveLeavesYearOutOfRange | src/tui.rs:466-470 | after that save the selection still points at year 1 of a one-year view, so the source's next draw panics while the tolerant column is empty |
| Text.PadLeft | src/lib.rs:133-135 | `{:>w$}` pads with spaces on the left to the width, and never cuts the text |
| Text.AlignRight | src/lib.rs:127-135 | each text is right-aligned to the longest one |
| Text.LessTotal | src/tui.rs:213 | the string order of the year map is total |
| Text.LessTransitive | src/tui.rs:213 | the string order of the year map is transitive |
| Text.NatTextRoundTrip | src/tui.rs:217 | the decimal text of a number reads back as that number |

## Left out

- The terminal itself is not modelled: raw mode, the alternate screen, layout, borders, colours and unicode-width padding (`run_tui`, `render_popup`, `render_input_field`, `make_block`, `make_line`). A frame records the text and the highlighting of each column, and the editor with the file name it shows, not the pixels.
- The CSV crate is replaced by `FileState`. A record is a `(date, amount)` value, not a parsed text line. A malformed line gives `Csv`, whose message is "CSV error" without the crate's detail.
- Ledger.AddEntry: the flush error of the writer is not modelled. Only opening the file can fail.
- Editor.EditEntryInFile: only opening the file can fail. Serialization and flush errors are not modelled.
- chrono and rust_decimal are the `Externals` functions. Their parsing rules, `to_string`, and the local clock are not modelled.
- `round_dp` is not modelled. Amounts are already whole hundredths, so the rounding snapshots (0.006 printing as "0.01") are not covered.
- Integers are unbounded. A `usize` that `current + 1` would overflow cannot occur with a list in memory.
- `File::new`, which takes the file name from a path, is not modelled. A `LedgerFile` carries its path and name.
- The `eprintln!` in `reload_file` is not modelled. A failed reload keeps the old view, as in the source.
- The cursor of the `Input` widget is not modelled. Only typed characters and Backspace reach it, so text is always added and removed at the end.
- Tui.App.Run returns the state each redraw is given (`Screen`) rather than the frame; the frame is `DrawOf` of the files and that state.
- Tui.Stepper: the fold steps every state by `StepOf`, which is defined on valid states only; it leaves an invalid state alone. The application never reaches one, because every method keeps `Valid`.
- `Config::load`, `get_csv_files`, `AppError::DateParse` and `src/main.rs` (the command line and the HTTP server) are not part of this model.

## Findings

| source | as written | input that shows it | evidently intended | confidence | as-written member | corrected member |
|---|---|---|---|---|---|---|
| src/number_formatter.rs:40-47 | the group positions are byte offsets of the rendered string | 100.00 with `·` (two bytes in UTF-8) as decimal separator prints "1 00·00" | "100·00", grouping by digits | not executed | NumberFormatter.MultiByteDecimalSeparatorMisgroups | NumberFormatter.Format |
| src/tui.rs:407-411 | the date field is cut with the byte slice `[..10]` | typing `é` after "2024-09-1" gives eleven bytes, and the slice at byte ten falls inside `é` and panics | keep the first ten characters | not executed | Editor.TruncateDateAsWrittenPanics | Editor.TruncateDate |
| src/tui.rs:563 | drawing indexes `year_reports[selection.year]` without a check | no ledger files, or a ledger holding only its header: the view has no year and the first draw panics | an empty entries column, as `year_entries_count` and `get_selected_entry` already read the selection | not executed | Tui.EmptyLedgerCannotBeDrawn | Tui.EntriesColumn |
| src/tui.rs:466-470 | a successful save reloads the view but keeps the old selection | entries 2023-05-01 and 2024-05-01; edit the selected 2024 entry to 2023-05-01: the view has one year while the selection stays at year 1, and the next draw panics | the selection stays within the reloaded view, or the draw tolerates it | not executed | Tui.SaveLeavesYearOutOfRange | Tui.EntriesColumn |
| src/tui.rs:650 | the editor indexes `files[selection.file]` without a check | no ledger files: with the entries column drawn tolerantly, `n` opens the editor and the next draw panics | an empty file name, as the other readers of the selection tolerate it | not executed | Tui.NoFilesEditorCannotBeDrawn | Tui.FileName |
