/**
 * The entry editor of the terminal interface (`Popup` in `src/tui.rs`): its modes
 * and focus, the filtering of typed keys into its two text fields, and the
 * rewriting of a ledger file when an existing entry is edited.
 *
 * A text field (`tui_input::Input`) only ever receives typed characters and
 * Backspace, so it is modelled as a string whose cursor stays at the end.
 */
module Editor {
  import opened Wrappers
  import opened Text
  import opened Ledger

  datatype PopupMode = NoPopup | AddEntry | EditEntry
  datatype PopupFocus = DateField | AmountField

  /** `Popup`: the mode, the focused field, both field texts and the error line. */
  datatype Popup = Popup(
    mode: PopupMode,
    focus: PopupFocus,
    dateInput: string,
    amountInput: string,
    errorMessage: Option<string>)

  /** `Popup::new()`. */
  const ClosedPopup: Popup := Popup(NoPopup, DateField, "", "", None)

  /** The key codes the interface distinguishes; every other key is `OtherKey`. */
  datatype Key = Char(c: char) | Backspace | Enter | Tab | Down | Up | OtherKey

  const DateFormatError: string := "Invalid date format. Use YYYY-MM-DD"
  const AmountFormatError: string := "Invalid amount format. Use decimal number"

  /** `cycle_popup_focus`. */
  function NextPopupFocus(f: PopupFocus): PopupFocus {
    match f
    case DateField => AmountField
    case AmountField => DateField
  }

  /** Two switches return to the field one started from, and each switch changes the field. */
  lemma PopupFocusToggles(f: PopupFocus)
    ensures NextPopupFocus(f) != f
    ensures NextPopupFocus(NextPopupFocus(f)) == f
  {
  }

  /** A text field's handling of a typed character or Backspace, the cursor at the end. */
  function Typed(buffer: string, k: Key): (r: string)
    requires k.Char? || k.Backspace?
    ensures k.Char? ==> r == buffer + [k.c]
    ensures k.Backspace? ==> r == if buffer == [] then [] else buffer[..|buffer| - 1]
  {
    if k.Char? then buffer + [k.c]
    else if buffer == [] then []
    else buffer[..|buffer| - 1]
  }

  // ----- The amount field -----

  /** A typed character the amount field takes: a digit, a point, or a minus sign in front. */
  predicate AmountCharAccepted(c: char, buffer: string) {
    (IsDigit(c) || c == '.' || c == '-') && !(c == '-' && buffer != [])
  }

  /** The amount field after a key: accepted characters and Backspace edit it, anything else is ignored. */
  function AmountInput(buffer: string, k: Key): string {
    match k
    case Char(c) => if AmountCharAccepted(c, buffer) then Typed(buffer, k) else buffer
    case Backspace => Typed(buffer, k)
    case _ => buffer
  }

  /** Holds only digits and points, with at most one leading minus sign. */
  predicate AmountShaped(s: string) {
    forall i :: 0 <= i < |s| ==> IsDigit(s[i]) || s[i] == '.' || (s[i] == '-' && i == 0)
  }

  /** Typing can only put an amount-shaped text in the field, starting from an amount-shaped one. */
  lemma {:induction false} AmountInputShaped(buffer: string, k: Key)
    requires AmountShaped(buffer)
    ensures AmountShaped(AmountInput(buffer, k))
  {
    var r := AmountInput(buffer, k);
    if k.Char? && AmountCharAccepted(k.c, buffer) {
      assert r == buffer + [k.c];
      forall i | 0 <= i < |r| ensures IsDigit(r[i]) || r[i] == '.' || (r[i] == '-' && i == 0) {
        if i < |buffer| {
          assert r[i] == buffer[i];
        }
      }
    } else if k.Backspace? && buffer != [] {
      assert forall i :: 0 <= i < |r| ==> r[i] == buffer[i];
    }
  }

  /** Characters other than digits, points and a leading minus leave the field as it was. */
  lemma AmountInputRejects(buffer: string, c: char)
    requires !IsDigit(c) && c != '.' && (c != '-' || buffer != [])
    ensures AmountInput(buffer, Char(c)) == buffer
  {
  }

  // ----- The date field -----

  /** The date field is held to its first ten characters. */
  function TruncateDate(s: string): (r: string)
    ensures |s| <= 10 ==> r == s
    ensures |s| > 10 ==> |r| == 10 && StartsWith(s, r)
  {
    if |s| > 10 then s[..10] else s
  }

  /**
   * The first `n` bytes of `s`, when they end on a character boundary; `None`
   * where Rust's `&s[..n]` panics.
   */
  function BytePrefix(s: string, n: nat): (r: Option<string>)
    ensures r.Some? ==> StartsWith(s, r.value) && ByteLen(r.value) == n
  {
    if n == 0 then Some([])
    else if s == [] || Utf8Width(s[0]) > n then None
    else
      match BytePrefix(s[1..], n - Utf8Width(s[0]))
      case None => None
      case Some(rest) =>
        assert ([s[0]] + rest)[1..] == rest;
        Some([s[0]] + rest)
  }

  /**
   * The date field's cut as written: the length is compared in bytes and the
   * text sliced at byte ten; `None` stands for the panic of slicing inside a
   * character.
   */
  function TruncateDateAsWritten(s: string): Option<string> {
    if ByteLen(s) > 10 then BytePrefix(s, 10) else Some(s)
  }

  lemma {:induction false} BytePrefixAscii(s: string, n: nat)
    requires IsAscii(s) && n <= |s|
    ensures BytePrefix(s, n) == Some(s[..n])
  {
    if n > 0 {
      assert IsAscii(s[1..]);
      BytePrefixAscii(s[1..], n - 1);
      assert s[..n] == [s[0]] + s[1..][..n - 1];
    }
  }

  /** On ASCII text the byte cut and the character cut agree. */
  lemma TruncateDateAgreesOnAscii(s: string)
    requires IsAscii(s)
    ensures TruncateDateAsWritten(s) == Some(TruncateDate(s))
  {
    AsciiByteLen(s);
    if |s| > 10 {
      BytePrefixAscii(s, 10);
    }
  }

  /** A cut that falls inside the first wide character after `k` ASCII ones has no boundary. */
  lemma {:induction false} BytePrefixInsideChar(s: string, k: nat, n: nat)
    requires k < |s| && k < n && IsAscii(s[..k]) && Utf8Width(s[k]) > n - k
    ensures BytePrefix(s, n) == None
  {
    if k > 0 {
      assert s[1..][..k - 1] == s[..k][1..];
      assert s[1..][k - 1] == s[k];
      BytePrefixInsideChar(s[1..], k - 1, n - 1);
      assert s[0] == s[..k][0];
    }
  }

  /** Ten characters whose last one takes two bytes: eleven bytes, cut inside the last character. */
  lemma WideTenthCharPanics(s: string)
    requires |s| == 10 && IsAscii(s[..9]) && Utf8Width(s[9]) == 2
    ensures TruncateDateAsWritten(s) == None
    ensures TruncateDate(s) == s
  {
    AsciiByteLen(s[..9]);
    assert s == s[..9] + [s[9]];
    ByteLenAppend(s[..9], [s[9]]);
    assert ByteLen([s[9]]) == 2;
    BytePrefixInsideChar(s, 9, 10);
  }

  /** Typing `é` after nine ASCII characters makes the byte cut fall inside it. */
  lemma TruncateDateAsWrittenPanics()
    ensures TruncateDateAsWritten("2024-09-1é") == None
    ensures TruncateDate("2024-09-1é") == "2024-09-1é"
  {
    var s := "2024-09-1é";
    assert IsAscii(s[..9]);
    WideTenthCharPanics(s);
  }

  /** The date field after a key: the edit, then the cut to ten characters. */
  function DateInput(buffer: string, k: Key): (r: string)
    requires k.Char? || k.Backspace?
  {
    TruncateDate(Typed(buffer, k))
  }

  /** A date field of at most ten characters keeps at most ten, and a character typed into a full field is dropped. */
  lemma DateInputBounded(buffer: string, k: Key)
    requires (k.Char? || k.Backspace?) && |buffer| <= 10
    ensures |DateInput(buffer, k)| <= 10
    ensures k.Char? && |buffer| == 10 ==> DateInput(buffer, k) == buffer
    ensures k.Char? && |buffer| < 10 ==> DateInput(buffer, k) == buffer + [k.c]
  {
    if k.Char? && |buffer| == 10 {
      assert (buffer + [k.c])[..10] == buffer;
    }
  }

  /**
   * `handle_popup_input`: any typed character or Backspace clears the error
   * line, then goes to the focused field.
   */
  function AfterInput(p: Popup, k: Key): (r: Popup)
    requires k.Char? || k.Backspace?
    ensures r.errorMessage.None?
    ensures r.mode == p.mode && r.focus == p.focus
    ensures p.focus == DateField ==> r.amountInput == p.amountInput && r.dateInput == DateInput(p.dateInput, k)
    ensures p.focus == AmountField ==> r.dateInput == p.dateInput && r.amountInput == AmountInput(p.amountInput, k)
  {
    var cleared := p.(errorMessage := None);
    match p.focus
    case DateField => cleared.(dateInput := DateInput(p.dateInput, k))
    case AmountField => cleared.(amountInput := AmountInput(p.amountInput, k))
  }

  // ----- Editing an entry in its file -----

  /** The position of the first entry equal in date and amount to `target`; `|es|` when none is. */
  function FirstMatch(es: seq<Entry>, target: Entry): (i: nat)
    ensures i <= |es|
    ensures i < |es| ==> es[i] == target
    ensures forall j :: 0 <= j < i ==> es[j] != target
  {
    if es == [] then 0
    else if es[0] == target then 0
    else 1 + FirstMatch(es[1..], target)
  }

  /** The entries with the first one equal to `target`, if any, replaced. */
  function ReplaceFirst(es: seq<Entry>, target: Entry, replacement: Entry): seq<Entry> {
    var i := FirstMatch(es, target);
    if i < |es| then es[i := replacement] else es
  }

  /**
   * Only the first entry equal to the target is replaced: the length and every
   * other position are unchanged, and nothing changes when no entry matches.
   */
  lemma ReplaceFirstChangesOnlyFirstMatch(es: seq<Entry>, target: Entry, replacement: Entry)
    ensures var r := ReplaceFirst(es, target, replacement);
      && |r| == |es|
      && (target in es ==> r[FirstMatch(es, target)] == replacement)
      && (forall j :: 0 <= j < |es| && j != FirstMatch(es, target) ==> r[j] == es[j])
      && (target !in es ==> r == es)
      && (forall j :: 0 <= j < FirstMatch(es, target) ==> es[j] != target)
  {
    if target in es {
      var k :| 0 <= k < |es| && es[k] == target;
      assert FirstMatch(es, target) <= k;
    }
  }

  /** What an edit leaves behind: the file's new contents and the result reported. */
  datatype EditResult = EditResult(file: FileState, result: Result<(), string>)

  /**
   * `edit_entry_in_file`: read the entries, replace the first equal to the
   * selected one by the new date and amount, and rewrite the whole file with a
   * header. Nothing is written, and the result is success, when no entry is
   * selected or none matches. `fault` is the error of opening the file for
   * writing; the file is then unchanged.
   */
  function EditOutcome(path: string, f: FileState, selected: Option<Entry>, date: Date, amount: int, ext: Externals, fault: Option<string>)
    : EditResult
  {
    match ReadEntries(path, f)
    case Err(e) => EditResult(f, Err(e.Message()))
    case Ok(es) => EditOnEntries(f, es, selected, date, amount, ext, fault)
  }

  /** The edit once the file `f` has been read as the entries `es`. */
  function EditOnEntries(f: FileState, es: seq<Entry>, selected: Option<Entry>, date: Date, amount: int, ext: Externals, fault: Option<string>)
    : EditResult
  {
    if selected.None? || selected.value !in es then EditResult(f, Ok(()))
    else if fault.Some? then EditResult(f, Err(fault.value))
    else EditResult(WrittenFile(ReplaceFirst(es, selected.value, Entry(ext.showDate(date), amount))), Ok(()))
  }

  /**
   * A successful edit leaves a readable file whose entries are the old ones with
   * the first entry equal to the selected one replaced; without a selected entry
   * the file is left as it was, and so it is after a failed edit.
   */
  lemma EditOutcomeRereads(path: string, f: FileState, selected: Option<Entry>, date: Date, amount: int, ext: Externals, fault: Option<string>)
    ensures var out := EditOutcome(path, f, selected, date, amount, ext, fault);
      && (out.result.Err? ==> out.file == f)
      && (selected.None? ==> out.file == f)
      && (out.result.Ok? && selected.Some? ==> (
        && ReadEntries(path, f).Ok?
        && ReadEntries(path, out.file)
          == Ok(ReplaceFirst(ReadEntries(path, f).value, selected.value, Entry(ext.showDate(date), amount)))))
  {
    var read := ReadEntries(path, f);
    if read.Ok? && selected.Some? {
      var repl := Entry(ext.showDate(date), amount);
      ReplaceFirstChangesOnlyFirstMatch(read.value, selected.value, repl);
      ReadWrittenFile(path, ReplaceFirst(read.value, selected.value, repl));
    }
  }

  /** A readable file is edited on the entries read from it. */
  lemma EditOnRead(path: string, f: FileState, es: seq<Entry>, selected: Option<Entry>, date: Date, amount: int, ext: Externals, fault: Option<string>)
    requires ReadEntries(path, f) == Ok(es)
    ensures EditOutcome(path, f, selected, date, amount, ext, fault) == EditOnEntries(f, es, selected, date, amount, ext, fault)
  {
  }

  /** An edit whose selected entry is not in the file leaves it as it was. */
  lemma EditNoMatch(f: FileState, es: seq<Entry>, selected: Option<Entry>, date: Date, amount: int, ext: Externals, fault: Option<string>)
    requires selected.Some? && FirstMatch(es, selected.value) == |es|
    ensures EditOnEntries(f, es, selected, date, amount, ext, fault) == EditResult(f, Ok(()))
  {
    assert selected.value !in es;
  }

  /** An edit that finds its entry either fails to write, or writes the entries with that one replaced. */
  lemma EditMatch(f: FileState, es: seq<Entry>, selected: Option<Entry>, date: Date, amount: int, ext: Externals, fault: Option<string>, found: nat)
    requires selected.Some? && found == FirstMatch(es, selected.value) < |es|
    ensures fault.Some? ==> EditOnEntries(f, es, selected, date, amount, ext, fault) == EditResult(f, Err(fault.value))
    ensures fault.None? ==> EditOnEntries(f, es, selected, date, amount, ext, fault) == EditResult(WrittenFile(es[found := Entry(ext.showDate(date), amount)]), Ok(()))
  {
    ReplaceFound(es, selected.value, Entry(ext.showDate(date), amount), found);
  }

  /** Replacing at the first match is what `ReplaceFirst` does. */
  lemma ReplaceFound(es: seq<Entry>, target: Entry, replacement: Entry, found: nat)
    requires found == FirstMatch(es, target) < |es|
    ensures target in es && ReplaceFirst(es, target, replacement) == es[found := replacement]
  {
    assert es[found] == target;
  }

  /** The search loop stops at the first match. */
  lemma FirstMatchFound(es: seq<Entry>, target: Entry, i: nat)
    requires i <= |es| && (i < |es| ==> es[i] == target)
    requires forall j :: 0 <= j < i ==> es[j] != target
    ensures i == FirstMatch(es, target)
  {
    var m := FirstMatch(es, target);
    assert m <= i;
  }

  /** The `find` over the entries: the index of the first one equal to `target`, or their count. */
  method FindEntry(es: seq<Entry>, target: Entry) returns (i: nat)
    ensures i == FirstMatch(es, target)
  {
    i := 0;
    while i < |es| && es[i] != target
      invariant i <= |es|
      invariant forall j :: 0 <= j < i ==> es[j] != target
    {
      i := i + 1;
    }
    FirstMatchFound(es, target, i);
  }

  /** The edit as the source performs it: the search for the entry is a loop. */
  method EditEntryInFile(path: string, f: FileState, selected: Option<Entry>, date: Date, amount: int, ext: Externals, fault: Option<string>)
    returns (file: FileState, r: Result<(), string>)
    ensures EditResult(file, r) == EditOutcome(path, f, selected, date, amount, ext, fault)
  {
    var read := ReadEntries(path, f);
    if read.Err? {
      return f, Err(read.error.Message());
    }
    var entries := read.value;
    EditOnRead(path, f, entries, selected, date, amount, ext, fault);
    if selected.None? {
      return f, Ok(());
    }
    var i := FindEntry(entries, selected.value);
    if i == |entries| {
      EditNoMatch(f, read.value, selected, date, amount, ext, fault);
      return f, Ok(());
    }
    EditMatch(f, read.value, selected, date, amount, ext, fault, i);
    entries := entries[i := Entry(ext.showDate(date), amount)];
    if fault.Some? {
      return f, Err(fault.value);
    }
    file, r := WrittenFile(entries), Ok(());
  }
}
