/**
 * The plain-text report of `src/lib.rs`: filtering by date prefix, the stable
 * sort by date text, and the two-column layout with its total line.
 */
module LedgerReport {
  import opened Wrappers
  import opened Text
  import opened Ledger
  import NF = NumberFormatter

  /** `Report`; every report is built with at least one entry. */
  datatype Report = Report(filter: Option<string>, entries: seq<Entry>)

  // ----- Filtering -----

  /** The entries whose date text starts with `prefix`, in file order. */
  function FilterByPrefix(es: seq<Entry>, prefix: string): seq<Entry> {
    if es == [] then []
    else FilterByPrefix(es[..|es| - 1], prefix) + (if StartsWith(es[|es| - 1].date, prefix) then [es[|es| - 1]] else [])
  }

  /** The filter keeps exactly the entries with the prefix, and each as often as it occurs. */
  lemma {:induction false} FilterByPrefixKeeps(es: seq<Entry>, prefix: string)
    ensures forall e :: e in FilterByPrefix(es, prefix) <==> e in es && StartsWith(e.date, prefix)
    ensures forall e: Entry :: StartsWith(e.date, prefix) ==> multiset(FilterByPrefix(es, prefix))[e] == multiset(es)[e]
  {
    if es != [] {
      var init, last := es[..|es| - 1], es[|es| - 1];
      assert es == init + [last];
      FilterByPrefixKeeps(init, prefix);
    }
  }

  // ----- The stable sort -----

  /** No entry is dated after a later one. */
  predicate SortedByDate(s: seq<Entry>) {
    forall i, j :: 0 <= i < j < |s| ==> !Less(s[j].date, s[i].date)
  }

  /** Places `x` after every entry of `t` not dated after it. */
  function Insert(x: Entry, t: seq<Entry>): seq<Entry> {
    if t == [] then [x]
    else if Less(x.date, t[|t| - 1].date) then Insert(x, t[..|t| - 1]) + [t[|t| - 1]]
    else t + [x]
  }

  /** Stable sort by date text: each entry in turn is inserted after its equals. */
  function SortByDateSpec(s: seq<Entry>): seq<Entry> {
    if s == [] then [] else Insert(s[|s| - 1], SortByDateSpec(s[..|s| - 1]))
  }

  /** The entries dated exactly `d`, in order. */
  function DatedOn(s: seq<Entry>, d: string): seq<Entry> {
    if s == [] then []
    else DatedOn(s[..|s| - 1], d) + (if s[|s| - 1].date == d then [s[|s| - 1]] else [])
  }

  lemma {:induction false} InsertMultiset(x: Entry, t: seq<Entry>)
    ensures multiset(Insert(x, t)) == multiset(t) + multiset{x}
    decreases |t|
  {
    if t != [] && Less(x.date, t[|t| - 1].date) {
      InsertMultiset(x, t[..|t| - 1]);
      assert t == t[..|t| - 1] + [t[|t| - 1]];
    }
  }

  lemma {:induction false} NotLessTransitive(a: string, b: string, c: string)
    requires !Less(b, a) && !Less(c, b)
    ensures !Less(c, a)
  {
    if Less(c, a) {
      LessTotal(a, b);
      if Less(a, b) {
        LessTransitive(c, a, b);
      }
    }
  }

  lemma {:induction false} InsertSorted(x: Entry, t: seq<Entry>)
    requires SortedByDate(t)
    ensures SortedByDate(Insert(x, t))
    decreases |t|
  {
    if t != [] {
      var init, last := t[..|t| - 1], t[|t| - 1];
      if Less(x.date, last.date) {
        InsertSorted(x, init);
        InsertMultiset(x, init);
        var r := Insert(x, init);
        forall i | 0 <= i < |r|
          ensures !Less(last.date, r[i].date)
        {
          assert r[i] in multiset(init) + multiset{x};
          if r[i] == x {
            LessAsymmetric(x.date, last.date);
          } else {
            assert r[i] in init;
          }
        }
        assert Insert(x, t) == r + [last];
      } else {
        forall i | 0 <= i < |t|
          ensures !Less(x.date, t[i].date)
        {
          if i < |t| - 1 {
            NotLessTransitive(t[i].date, last.date, x.date);
          }
        }
      }
    }
  }

  lemma DatedOnAppend(s: seq<Entry>, e: Entry, d: string)
    ensures DatedOn(s + [e], d) == DatedOn(s, d) + (if e.date == d then [e] else [])
  {
    assert (s + [e])[..|s|] == s;
  }

  /** Inserting adds `x` after the entries of its own date and moves no other entry of that date. */
  lemma {:induction false} InsertDatedOn(x: Entry, t: seq<Entry>, d: string)
    ensures DatedOn(Insert(x, t), d) == DatedOn(t, d) + (if x.date == d then [x] else [])
    decreases |t|
  {
    if t == [] {
      DatedOnAppend([], x, d);
      assert [] + [x] == [x];
    } else {
      var init, last := t[..|t| - 1], t[|t| - 1];
      if Less(x.date, last.date) {
        assert Insert(x, t) == Insert(x, init) + [last];
        InsertDatedOn(x, init, d);
        DatedOnAppend(Insert(x, init), last, d);
        var before := DatedOn(init, d);
        assert DatedOn(t, d) == before + (if last.date == d then [last] else []);
        if x.date == d {
          if last.date == d {
            LessIrreflexive(d);
            assert false;
          }
          assert DatedOn(Insert(x, t), d) == before + [x];
        } else {
          assert DatedOn(Insert(x, t), d) == before + (if last.date == d then [last] else []);
        }
      } else {
        DatedOnAppend(t, x, d);
      }
    }
  }

  /** The specification sorts, permutes, and keeps equal dates in their original order. */
  lemma SortByDateSpecCorrect(s: seq<Entry>)
    ensures SortedByDate(SortByDateSpec(s))
    ensures multiset(SortByDateSpec(s)) == multiset(s)
    ensures forall d :: DatedOn(SortByDateSpec(s), d) == DatedOn(s, d)
  {
    SortByDateSpecSorted(s);
    SortByDateSpecPermutes(s);
    forall d
      ensures DatedOn(SortByDateSpec(s), d) == DatedOn(s, d)
    {
      SortByDateSpecStable(s, d);
    }
  }

  lemma {:induction false} SortByDateSpecSorted(s: seq<Entry>)
    ensures SortedByDate(SortByDateSpec(s))
  {
    if s != [] {
      var init, last := s[..|s| - 1], s[|s| - 1];
      SortByDateSpecSorted(init);
      InsertSorted(last, SortByDateSpec(init));
    }
  }

  lemma {:induction false} SortByDateSpecPermutes(s: seq<Entry>)
    ensures multiset(SortByDateSpec(s)) == multiset(s)
  {
    if s != [] {
      var init, last := s[..|s| - 1], s[|s| - 1];
      SortByDateSpecPermutes(init);
      InsertMultiset(last, SortByDateSpec(init));
      assert s == init + [last];
    }
  }

  lemma {:induction false} SortByDateSpecStable(s: seq<Entry>, d: string)
    ensures DatedOn(SortByDateSpec(s), d) == DatedOn(s, d)
  {
    if s != [] {
      var init, last := s[..|s| - 1], s[|s| - 1];
      SortByDateSpecStable(init, d);
      InsertDatedOn(last, SortByDateSpec(init), d);
    }
  }

  /**
   * Where `x` goes: after `t[..j]`, when every entry from `j` on is dated after `x`
   * and the one before `j` is not.
   */
  lemma {:induction false} InsertPosition(x: Entry, t: seq<Entry>, j: nat)
    requires j <= |t|
    requires forall k :: j <= k < |t| ==> Less(x.date, t[k].date)
    requires j == 0 || !Less(x.date, t[j - 1].date)
    ensures Insert(x, t) == t[..j] + [x] + t[j..]
    decreases |t|
  {
    if j < |t| {
      var init, last := t[..|t| - 1], t[|t| - 1];
      assert Less(x.date, last.date);
      InsertPosition(x, init, j);
      assert init[..j] == t[..j];
      assert init[j..] + [last] == t[j..];
    } else {
      assert t[..j] == t && t[j..] == [];
    }
  }

  lemma SortByDateSpecStep(s: seq<Entry>, i: nat)
    requires i < |s|
    ensures SortByDateSpec(s[..i + 1]) == Insert(s[i], SortByDateSpec(s[..i]))
  {
    assert s[..i + 1][..i] == s[..i];
  }

  /** Moves `a[i]` left past the entries of `a[..i]` dated after it. */
  method InsertAt(a: array<Entry>, i: int)
    requires 0 <= i < a.Length
    modifies a
    ensures a[..i + 1] == Insert(old(a[i]), old(a[..i]))
    ensures a[i + 1..] == old(a[i + 1..])
  {
    var x := a[i];
    ghost var t := a[..i];
    var j := i;
    while j > 0 && Less(x.date, a[j - 1].date)
      invariant 0 <= j <= i
      invariant forall k :: 0 <= k < j ==> a[k] == t[k]
      invariant forall k :: j < k <= i ==> a[k] == t[k - 1]
      invariant forall k :: i < k < a.Length ==> a[k] == old(a[k])
      invariant forall k :: j <= k < i ==> Less(x.date, t[k].date)
    {
      a[j] := a[j - 1];
      j := j - 1;
    }
    InsertPosition(x, t, j);
    a[j] := x;
    SplicedInArray(a, i, t, j, x);
    assert a[..i + 1] == Insert(x, t);
    ghost var rest, oldRest := a[i + 1..], old(a[i + 1..]);
    assert forall k :: 0 <= k < |rest| ==> rest[k] == oldRest[k];
    SameElements(rest, oldRest);
  }

  lemma SameElements<T>(s: seq<T>, t: seq<T>)
    requires |s| == |t| && forall k :: 0 <= k < |s| ==> s[k] == t[k]
    ensures s == t
  {
  }

  lemma SplicedInArray(a: array<Entry>, i: int, t: seq<Entry>, j: int, x: Entry)
    requires 0 <= j <= i < a.Length && |t| == i
    requires forall k :: 0 <= k < j ==> a[k] == t[k]
    requires a[j] == x
    requires forall k :: j < k <= i ==> a[k] == t[k - 1]
    ensures a[..i + 1] == t[..j] + [x] + t[j..]
  {
    var s := a[..i + 1];
    assert forall k :: 0 <= k < j ==> s[k] == t[k];
    assert forall k :: j < k < |s| ==> s[k] == t[k - 1];
    SplicedIn(s, t, j, x);
  }

  /** A sequence that agrees with `t` before `j`, holds `x` at `j` and `t` shifted after it. */
  lemma SplicedIn<T>(s: seq<T>, t: seq<T>, j: int, x: T)
    requires 0 <= j <= |t| && |s| == |t| + 1
    requires forall k :: 0 <= k < j ==> s[k] == t[k]
    requires s[j] == x
    requires forall k :: j < k < |s| ==> s[k] == t[k - 1]
    ensures s == t[..j] + [x] + t[j..]
  {
  }

  /** `entries.sort_by(|a, b| a.date.cmp(&b.date))`, an insertion sort in place. */
  method SortByDate(a: array<Entry>)
    modifies a
    ensures a[..] == SortByDateSpec(old(a[..]))
  {
    ghost var s := a[..];
    var i := 0;
    while i < a.Length
      invariant 0 <= i <= a.Length
      invariant a[..i] == SortByDateSpec(s[..i])
      invariant a[i..] == s[i..]
    {
      assert a[i] == a[i..][0] == s[i..][0] == s[i];
      SortByDateSpecStep(s, i);
      InsertAt(a, i);
      assert a[i + 1..] == s[i + 1..];
      i := i + 1;
    }
    assert a[..] == a[..a.Length] && s == s[..a.Length];
  }

  // ----- Building reports -----

  /** A fresh array holding `s`. */
  method ToArray(s: seq<Entry>) returns (a: array<Entry>)
    ensures fresh(a) && a[..] == s
  {
    a := new Entry[|s|](i requires 0 <= i < |s| => s[i]);
  }

  /**
   * `generate_report`: the entries whose date starts with the filter, sorted by
   * date; none left is an error naming the filter.
   */
  method GenerateReport(path: string, f: FileState, dateFilter: string) returns (r: Result<Report, AppError>)
    ensures ReadEntries(path, f).Err? ==> r == Err(ReadEntries(path, f).error)
    ensures ReadEntries(path, f).Ok? ==>
      var kept := FilterByPrefix(ReadEntries(path, f).value, dateFilter);
      && (kept == [] <==> r == Err(FilteredNoEntries(dateFilter)))
      && (kept != [] ==> r == Ok(Report(Some(dateFilter), SortByDateSpec(kept))))
    ensures r.Ok? ==> ValidReport(r.value)
    ensures r.Ok? ==> forall e :: e in r.value.entries <==> e in ReadEntries(path, f).value && StartsWith(e.date, dateFilter)
  {
    var read := ReadEntries(path, f);
    if read.Err? {
      return Err(read.error);
    }
    var kept := FilterByPrefix(read.value, dateFilter);
    if kept == [] {
      return Err(FilteredNoEntries(dateFilter));
    }
    var a := ToArray(kept);
    SortByDate(a);
    SortByDateSpecCorrect(kept);
    FilterByPrefixKeeps(read.value, dateFilter);
    assert forall e :: e in a[..] <==> e in multiset(kept);
    return Ok(Report(Some(dateFilter), a[..]));
  }

  /** `generate_report_for_all`: every entry, sorted by date; an empty ledger is an error. */
  method GenerateReportForAll(path: string, f: FileState) returns (r: Result<Report, AppError>)
    ensures ReadEntries(path, f).Err? ==> r == Err(ReadEntries(path, f).error)
    ensures ReadEntries(path, f) == Ok([]) <==> r == Err(NoEntries)
    ensures ReadEntries(path, f).Ok? && ReadEntries(path, f).value != [] ==>
      r == Ok(Report(None, SortByDateSpec(ReadEntries(path, f).value)))
    ensures r.Ok? ==> ValidReport(r.value) && multiset(r.value.entries) == multiset(ReadEntries(path, f).value)
  {
    var read := ReadEntries(path, f);
    if read.Err? {
      return Err(read.error);
    }
    if read.value == [] {
      return Err(NoEntries);
    }
    var a := ToArray(read.value);
    SortByDate(a);
    SortByDateSpecCorrect(read.value);
    return Ok(Report(None, a[..]));
  }

  /** What every built report satisfies: entries present and sorted by date. */
  predicate ValidReport(r: Report) {
    r.entries != [] && SortedByDate(r.entries)
  }

  // ----- ReportDisplay -----

  /** The left column: each entry's date and a colon. */
  function Prefixes(es: seq<Entry>): (ps: seq<string>)
    ensures |ps| == |es|
    ensures forall i :: 0 <= i < |es| ==> ps[i] == es[i].date + ":"
  {
    seq(|es|, i requires 0 <= i < |es| => es[i].date + ":")
  }

  /** The right column: each entry's formatted amount. */
  function Suffixes(es: seq<Entry>, o: NF.FormatOptions): (ss: seq<string>)
    ensures |ss| == |es|
    ensures forall i :: 0 <= i < |es| ==> ss[i] == NF.Formatted(es[i].amount, o)
  {
    seq(|es|, i requires 0 <= i < |es| => NF.Formatted(es[i].amount, o))
  }

  function TotalCaption(filter: Option<string>): string {
    match filter
    case Some(f) => "Total amount for filter '" + f + "':"
    case None => "Total amount:"
  }

  /** `line` holds `left` right-aligned in `p` characters, then `right` right-aligned in `s`. */
  predicate TwoColumns(line: string, left: string, right: string, p: nat, s: nat) {
    && |line| == p + s
    && RightAligned(line[..p], left, p)
    && RightAligned(line[p..], right, s)
  }

  /** One line: two right-aligned columns, the right one wider than its text. */
  function Row(left: string, right: string, p: nat, s: nat): (line: string)
    requires |left| <= p && |right| < s
    ensures TwoColumns(line, left, right, p, s) && line[p] == ' '
  {
    var l, r := PadLeft(left, p), PadLeft(right, s);
    assert (l + r)[..p] == l && (l + r)[p..] == r;
    l + r
  }

  /** The width of the left column: the longest caption, the last line's included. */
  function LeftWidth(lefts: seq<string>, lastLeft: string): nat {
    Max(MaxLen(lefts), |lastLeft|)
  }

  /** The width of the right column: the longest text, the last line's included, plus one. */
  function RightWidth(rights: seq<string>, lastRight: string): nat {
    Max(MaxLen(rights), |lastRight|) + 1
  }

  /** A two-column table: one line per pair of texts, then the last line. */
  function Table(lefts: seq<string>, rights: seq<string>, lastLeft: string, lastRight: string): (lines: seq<string>)
    requires |lefts| == |rights|
    ensures |lines| == |lefts| + 1
  {
    var p, s := LeftWidth(lefts, lastLeft), RightWidth(rights, lastRight);
    assert forall i :: 0 <= i < |lefts| ==> |lefts[i]| <= MaxLen(lefts) && |rights[i]| <= MaxLen(rights);
    seq(|lefts|, i requires 0 <= i < |lefts| => Row(lefts[i], rights[i], p, s)) + [Row(lastLeft, lastRight, p, s)]
  }

  /** Line `i` of a table: the texts padded to the column widths. */
  lemma TableRowAt(lefts: seq<string>, rights: seq<string>, lastLeft: string, lastRight: string, i: int)
    requires |lefts| == |rights| && 0 <= i <= |lefts|
    ensures var p, s := LeftWidth(lefts, lastLeft), RightWidth(rights, lastRight);
      Table(lefts, rights, lastLeft, lastRight)[i]
        == if i < |lefts| then PadLeft(lefts[i], p) + PadLeft(rights[i], s) else PadLeft(lastLeft, p) + PadLeft(lastRight, s)
  {
    var p, s := LeftWidth(lefts, lastLeft), RightWidth(rights, lastRight);
    if i < |lefts| {
      assert |lefts[i]| <= MaxLen(lefts) && |rights[i]| <= MaxLen(rights);
      assert Table(lefts, rights, lastLeft, lastRight)[i] == Row(lefts[i], rights[i], p, s);
    } else {
      assert Table(lefts, rights, lastLeft, lastRight)[i] == Row(lastLeft, lastRight, p, s);
    }
  }

  /** One line of a table holds its pair of texts in the two columns. */
  lemma TableLine(lefts: seq<string>, rights: seq<string>, lastLeft: string, lastRight: string, i: int)
    requires |lefts| == |rights| && 0 <= i <= |lefts|
    ensures var lines, p, s := Table(lefts, rights, lastLeft, lastRight), LeftWidth(lefts, lastLeft), RightWidth(rights, lastRight);
      && TwoColumns(lines[i], if i < |lefts| then lefts[i] else lastLeft, if i < |lefts| then rights[i] else lastRight, p, s)
      && lines[i][p] == ' '
  {
    var p, s := LeftWidth(lefts, lastLeft), RightWidth(rights, lastRight);
    var left, right := if i < |lefts| then lefts[i] else lastLeft, if i < |lefts| then rights[i] else lastRight;
    if i < |lefts| {
      assert |lefts[i]| <= MaxLen(lefts) && |rights[i]| <= MaxLen(rights);
    }
    TableRowAt(lefts, rights, lastLeft, lastRight, i);
    RowLayout(left, right, p, s);
  }

  /** A line of two padded texts holds them in the two columns. */
  lemma RowLayout(left: string, right: string, p: nat, s: nat)
    requires |left| <= p && |right| < s
    ensures TwoColumns(PadLeft(left, p) + PadLeft(right, s), left, right, p, s)
    ensures (PadLeft(left, p) + PadLeft(right, s))[p] == ' '
  {
    assert Row(left, right, p, s) == PadLeft(left, p) + PadLeft(right, s);
  }

  /**
   * Every line of a table holds its pair of texts in the two columns, so all lines
   * have the same width and the right text is always preceded by a space.
   */
  lemma TableLayout(lefts: seq<string>, rights: seq<string>, lastLeft: string, lastRight: string)
    requires |lefts| == |rights|
    ensures var lines, p, s := Table(lefts, rights, lastLeft, lastRight), LeftWidth(lefts, lastLeft), RightWidth(rights, lastRight);
      && (forall i :: 0 <= i < |lefts| ==> TwoColumns(lines[i], lefts[i], rights[i], p, s) && lines[i][p] == ' ')
      && TwoColumns(lines[|lefts|], lastLeft, lastRight, p, s) && lines[|lefts|][p] == ' '
  {
    var lines, p, s := Table(lefts, rights, lastLeft, lastRight), LeftWidth(lefts, lastLeft), RightWidth(rights, lastRight);
    forall i | 0 <= i < |lefts|
      ensures TwoColumns(lines[i], lefts[i], rights[i], p, s) && lines[i][p] == ' '
    {
      TableLine(lefts, rights, lastLeft, lastRight, i);
    }
    TableLine(lefts, rights, lastLeft, lastRight, |lefts|);
  }

  /** The width of the report's left column. */
  function PrefixWidth(r: Report): nat {
    LeftWidth(Prefixes(r.entries), TotalCaption(r.filter))
  }

  /** The width of the report's right column. */
  function SuffixWidth(r: Report, o: NF.FormatOptions): nat {
    RightWidth(Suffixes(r.entries, o), NF.Formatted(Sum(r.entries), o))
  }

  /** The lines `ReportDisplay` writes: one per entry, then the total line. */
  function ReportText(r: Report, o: NF.FormatOptions): (lines: seq<string>)
    ensures |lines| == |r.entries| + 1
  {
    Table(Prefixes(r.entries), Suffixes(r.entries, o), TotalCaption(r.filter), NF.Formatted(Sum(r.entries), o))
  }

  /**
   * Each entry's line shows its date and amount in the two columns, so every
   * line is `PrefixWidth + SuffixWidth` wide and the amount is preceded by a space.
   */
  lemma ReportEntryLines(r: Report, o: NF.FormatOptions)
    ensures forall i :: 0 <= i < |r.entries| ==>
      && TwoColumns(ReportText(r, o)[i], r.entries[i].date + ":", NF.Formatted(r.entries[i].amount, o), PrefixWidth(r), SuffixWidth(r, o))
      && ReportText(r, o)[i][PrefixWidth(r)] == ' '
  {
    TableLayout(Prefixes(r.entries), Suffixes(r.entries, o), TotalCaption(r.filter), NF.Formatted(Sum(r.entries), o));
  }

  /** The last line shows the caption and the sum of all entries in the same columns. */
  lemma ReportTotalLine(r: Report, o: NF.FormatOptions)
    ensures TwoColumns(ReportText(r, o)[|r.entries|], TotalCaption(r.filter), NF.Formatted(Sum(r.entries), o), PrefixWidth(r), SuffixWidth(r, o))
    ensures ReportText(r, o)[|r.entries|][PrefixWidth(r)] == ' '
  {
    TableLayout(Prefixes(r.entries), Suffixes(r.entries, o), TotalCaption(r.filter), NF.Formatted(Sum(r.entries), o));
  }

  /** The `rows` of `ReportDisplay::fmt`: each entry's caption and formatted amount. */
  method RowTexts(es: seq<Entry>, o: NF.FormatOptions) returns (prefixes: seq<string>, suffixes: seq<string>)
    ensures prefixes == Prefixes(es) && suffixes == Suffixes(es, o)
  {
    prefixes, suffixes := [], [];
    var i := 0;
    while i < |es|
      invariant 0 <= i <= |es|
      invariant prefixes == Prefixes(es[..i]) && suffixes == Suffixes(es[..i], o)
    {
      var amount := NF.Format(es[i].amount, o);
      prefixes := prefixes + [es[i].date + ":"];
      suffixes := suffixes + [amount];
      i := i + 1;
    }
    assert es[..i] == es;
  }

  /** The writing loop of `ReportDisplay::fmt`: the widths, then each row padded into them. */
  method WriteTable(prefixes: seq<string>, suffixes: seq<string>, finalLinePrefix: string, finalLineSuffix: string)
    returns (lines: seq<string>)
    requires |prefixes| == |suffixes|
    ensures lines == Table(prefixes, suffixes, finalLinePrefix, finalLineSuffix)
  {
    var maxPrefixLen := MaxLen(prefixes);
    var maxSuffixLen := MaxLen(suffixes);
    maxPrefixLen := Max(maxPrefixLen, |finalLinePrefix|);
    maxSuffixLen := Max(maxSuffixLen, |finalLineSuffix|) + 1;
    ghost var table := Table(prefixes, suffixes, finalLinePrefix, finalLineSuffix);
    assert maxPrefixLen == LeftWidth(prefixes, finalLinePrefix);
    assert maxSuffixLen == RightWidth(suffixes, finalLineSuffix);
    lines := [];
    var i := 0;
    while i < |prefixes|
      invariant 0 <= i <= |prefixes|
      invariant lines == table[..i]
    {
      ghost var before := lines;
      lines := lines + [PadLeft(prefixes[i], maxPrefixLen) + PadLeft(suffixes[i], maxSuffixLen)];
      TableExtend(prefixes, suffixes, finalLinePrefix, finalLineSuffix, before, i);
      i := i + 1;
    }
    TableRowAt(prefixes, suffixes, finalLinePrefix, finalLineSuffix, i);
    lines := lines + [PadLeft(finalLinePrefix, maxPrefixLen) + PadLeft(finalLineSuffix, maxSuffixLen)];
    assert table == table[..i] + [table[i]];
  }

  /** One more row written: the lines so far are one row longer a prefix of the table. */
  lemma TableExtend(lefts: seq<string>, rights: seq<string>, lastLeft: string, lastRight: string, lines: seq<string>, i: int)
    requires |lefts| == |rights| && 0 <= i < |lefts|
    requires lines == Table(lefts, rights, lastLeft, lastRight)[..i]
    ensures var p, s := LeftWidth(lefts, lastLeft), RightWidth(rights, lastRight);
      lines + [PadLeft(lefts[i], p) + PadLeft(rights[i], s)] == Table(lefts, rights, lastLeft, lastRight)[..i + 1]
  {
    TableRowAt(lefts, rights, lastLeft, lastRight, i);
    var p, s := LeftWidth(lefts, lastLeft), RightWidth(rights, lastRight);
    PrefixGrows(Table(lefts, rights, lastLeft, lastRight), i, PadLeft(lefts[i], p) + PadLeft(rights[i], s));
  }

  lemma PrefixGrows<T>(t: seq<T>, i: int, x: T)
    requires 0 <= i < |t| && t[i] == x
    ensures t[..i] + [x] == t[..i + 1]
  {
  }

  /** `ReportDisplay::fmt`: the rows, the total, and the table they make. */
  method ReportLines(r: Report, o: NF.FormatOptions) returns (lines: seq<string>)
    requires r.entries != []
    ensures lines == ReportText(r, o)
  {
    var prefixes, suffixes := RowTexts(r.entries, o);
    var finalLinePrefix := TotalCaption(r.filter);
    var total := Sum(r.entries);
    var finalLineSuffix := NF.Format(total, o);
    lines := WriteTable(prefixes, suffixes, finalLinePrefix, finalLineSuffix);
  }
}
