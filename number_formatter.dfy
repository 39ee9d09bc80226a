/**
 * `NumberFormatter::format` for amounts: two decimals, a configurable decimal
 * separator, a thousands separator before every group of three integer digits
 * counted leftward from the decimal separator (the sign is not a digit), and an
 * optional currency symbol written before or after the number.
 *
 * The amount is an exact count of hundredths, the value `round_dp(2)` produces.
 */
module NumberFormatter {
  import opened Text

  /** `CurrencyPosition`; the source's `None` variant is `NoCurrency` here. */
  datatype CurrencyPosition = NoCurrency | Prefix(symbol: string) | Suffix(symbol: string)

  datatype FormatOptions = FormatOptions(
    thousandsSeparator: char,
    decimalSeparator: char,
    currency: CurrencyPosition)

  const NonBreakingSpace: char := '\U{A0}'

  /** `FormatOptions::default()`. */
  const DefaultOptions: FormatOptions := FormatOptions(NonBreakingSpace, '.', NoCurrency)

  function Magnitude(cents: int): nat {
    if cents < 0 then -cents else cents
  }

  function SignText(cents: int): string {
    if cents < 0 then "-" else ""
  }

  /** The integer digits of the amount. */
  function IntegerDigits(cents: int): string {
    NatText(Magnitude(cents) / 100)
  }

  /** The two fraction digits of the amount. */
  function FractionDigits(cents: int): (s: string)
    ensures |s| == 2 && IsDigit(s[0]) && IsDigit(s[1])
  {
    var f := Magnitude(cents) % 100;
    [DigitChar(f / 10), DigitChar(f % 10)]
  }

  /**
   * `format!("{decimal:.2}")` with its `.` replaced by the decimal separator:
   * the rendering before any grouping.
   */
  function PlainText(cents: int, decimalSeparator: char): string {
    SignText(cents) + IntegerDigits(cents) + [decimalSeparator] + FractionDigits(cents)
  }

  /**
   * The first `k` digits of `d` with a separator before every digit that starts a
   * group of three counted from the right end of `d`.
   */
  function GroupPrefix(d: string, k: nat, sep: char): string
    requires k <= |d|
    decreases k
  {
    if k == 0 then []
    else GroupPrefix(d, k - 1, sep) + SeparatorBefore(d, k - 1, sep) + [d[k - 1]]
  }

  /** The separator (if any) that goes before digit `i` of `d`. */
  function SeparatorBefore(d: string, i: nat, sep: char): string {
    if i > 0 && (|d| - i) % 3 == 0 then [sep] else []
  }

  function GroupedDigits(d: string, sep: char): string {
    GroupPrefix(d, |d|, sep)
  }

  /** The formatted number before the currency symbol is added. */
  function Grouped(cents: int, o: FormatOptions): string {
    SignText(cents) + GroupedDigits(IntegerDigits(cents), o.thousandsSeparator)
      + [o.decimalSeparator] + FractionDigits(cents)
  }

  function WithCurrency(s: string, currency: CurrencyPosition): string {
    match currency
    case Prefix(symbol) => symbol + s
    case Suffix(symbol) => s + symbol
    case NoCurrency => s
  }

  /** What `format` returns; the specification of method `Format`. */
  function Formatted(cents: int, o: FormatOptions): string {
    WithCurrency(Grouped(cents, o), o.currency)
  }

  // ----- Grouping laws -----

  lemma {:induction false} GroupPrefixShort(d: string, k: nat, sep: char)
    requires k <= |d| <= 3
    ensures GroupPrefix(d, k, sep) == d[..k]
  {
    if k > 0 {
      GroupPrefixShort(d, k - 1, sep);
      assert d[..k] == d[..k - 1] + [d[k - 1]];
    }
  }

  /** Integer parts of at most three digits get no separator. */
  lemma GroupedShort(d: string, sep: char)
    requires |d| <= 3
    ensures GroupedDigits(d, sep) == d
  {
    GroupPrefixShort(d, |d|, sep);
  }

  lemma {:induction false} GroupPrefixAppendGroup(a: string, b: string, k: nat, sep: char)
    requires k <= |a| && |b| == 3
    ensures GroupPrefix(a + b, k, sep) == GroupPrefix(a, k, sep)
  {
    if k > 0 {
      GroupPrefixAppendGroup(a, b, k - 1, sep);
      assert (a + b)[k - 1] == a[k - 1];
      SeparatorBeforeShift(a, b, k - 1, sep);
    }
  }

  /** Three more digits on the right leave the separators in front of the others where they were. */
  lemma SeparatorBeforeShift(a: string, b: string, i: nat, sep: char)
    requires i < |a| && |b| == 3
    ensures SeparatorBefore(a + b, i, sep) == SeparatorBefore(a, i, sep)
  {
    var n := |a| - i;
    assert |a + b| - i == n + 3;
    assert (n + 3) % 3 == n % 3;
  }

  /**
   * The last three digits form a group with a separator in front of it whenever
   * digits remain to its left.
   */
  lemma GroupedChunk(d: string, sep: char)
    requires |d| > 3
    ensures GroupedDigits(d, sep) == GroupedDigits(d[..|d| - 3], sep) + [sep] + d[|d| - 3..]
  {
    var a, b := d[..|d| - 3], d[|d| - 3..];
    assert d == a + b;
    GroupPrefixAppendGroup(a, b, |a|, sep);
    var n := |a|;
    assert SeparatorBefore(d, n, sep) == [sep];
    assert SeparatorBefore(d, n + 1, sep) == [];
    assert SeparatorBefore(d, n + 2, sep) == [];
    assert GroupPrefix(d, n + 1, sep) == GroupPrefix(d, n, sep) + [sep] + [d[n]];
    assert GroupPrefix(d, n + 2, sep) == GroupPrefix(d, n + 1, sep) + [d[n + 1]];
    assert GroupPrefix(d, n + 3, sep) == GroupPrefix(d, n + 2, sep) + [d[n + 2]];
    assert b == [d[|a|]] + [d[|a| + 1]] + [d[|a| + 2]];
  }

  /** Taking the separators out of the grouped digits gives the digits back. */
  lemma {:induction false} GroupedUngroup(d: string, sep: char)
    requires forall i :: 0 <= i < |d| ==> d[i] != sep
    ensures Remove(GroupedDigits(d, sep), sep) == d
  {
    if |d| <= 3 {
      GroupedShort(d, sep);
      RemoveAbsent(d, sep);
    } else {
      var a, b := d[..|d| - 3], d[|d| - 3..];
      GroupedChunk(d, sep);
      GroupedUngroup(a, sep);
      RemoveAppend(GroupedDigits(a, sep) + [sep], b, sep);
      RemoveAppend(GroupedDigits(a, sep), [sep], sep);
      assert Remove([sep], sep) == [];
      RemoveAbsent(b, sep);
      assert d == a + b;
    }
  }

  lemma PlainTextLength(cents: int, ds: char)
    ensures |PlainText(cents, ds)| == |SignText(cents)| + |IntegerDigits(cents)| + 3
  {
  }

  lemma PlainTextLayout(cents: int, ds: char)
    ensures var s, so, d := PlainText(cents, ds), |SignText(cents)|, IntegerDigits(cents);
      && |s| == so + |d| + 3
      && s[..so] == SignText(cents)
      && s[so..so + |d|] == d
      && s[so + |d|..] == [ds] + FractionDigits(cents)
  {
    var sign, d, tail := SignText(cents), IntegerDigits(cents), [ds] + FractionDigits(cents);
    var s := PlainText(cents, ds);
    assert s == sign + d + tail;
    assert s[..|sign|] == sign;
    assert s[|sign|..|sign| + |d|] == d;
    assert s[|sign| + |d|..] == tail;
  }

  /**
   * Removing the inserted thousands separators from the formatted number gives the
   * plain two-decimal rendering back, provided the separator cannot be confused with
   * a character of that rendering.
   */
  lemma UngroupGivesPlainText(cents: int, o: FormatOptions)
    requires !IsDigit(o.thousandsSeparator) && o.thousandsSeparator != '-'
    requires o.thousandsSeparator != o.decimalSeparator
    ensures Remove(Grouped(cents, o), o.thousandsSeparator) == PlainText(cents, o.decimalSeparator)
  {
    var sep, ds := o.thousandsSeparator, o.decimalSeparator;
    var sign, d, f := SignText(cents), IntegerDigits(cents), FractionDigits(cents);
    var tail := [ds] + f;
    assert forall i :: 0 <= i < |d| ==> d[i] != sep;
    assert tail[0] != sep && tail[1] != sep && tail[2] != sep;
    assert forall i :: 0 <= i < |sign| ==> sign[i] != sep;
    UngroupParts(sign, d, tail, sep);
    ConcatAssociative(sign + GroupedDigits(d, sep), [ds], f);
    ConcatAssociative(sign + d, [ds], f);
  }

  lemma UngroupParts(sign: string, d: string, tail: string, sep: char)
    requires forall i :: 0 <= i < |sign| ==> sign[i] != sep
    requires forall i :: 0 <= i < |d| ==> d[i] != sep
    requires forall i :: 0 <= i < |tail| ==> tail[i] != sep
    ensures Remove(sign + GroupedDigits(d, sep) + tail, sep) == sign + d + tail
  {
    GroupedUngroup(d, sep);
    RemoveAround(sign, GroupedDigits(d, sep), tail, d, sep);
  }

  lemma RemoveAround(a: string, b: string, c: string, b': string, sep: char)
    requires forall i :: 0 <= i < |a| ==> a[i] != sep
    requires forall i :: 0 <= i < |c| ==> c[i] != sep
    requires Remove(b, sep) == b'
    ensures Remove(a + b + c, sep) == a + b' + c
  {
    RemoveAbsent(a, sep);
    RemoveAbsent(c, sep);
    RemoveAppend(a, b, sep);
    RemoveAppend(a + b, c, sep);
  }

  /** The output ends with the decimal separator and exactly two digits. */
  lemma FormattedEndsWithTwoDecimals(cents: int, o: FormatOptions)
    requires o.currency.NoCurrency? || o.currency.Prefix?
    ensures var r := Formatted(cents, o);
      |r| >= 3 && r[|r| - 3] == o.decimalSeparator && IsDigit(r[|r| - 2]) && IsDigit(r[|r| - 1])
      && DigitsValue(r[|r| - 2..]) == Magnitude(cents) % 100
  {
    var r := Formatted(cents, o);
    var f := FractionDigits(cents);
    assert r == (if o.currency.Prefix? then o.currency.symbol else []) + (SignText(cents)
      + GroupedDigits(IntegerDigits(cents), o.thousandsSeparator)) + ([o.decimalSeparator] + f);
    assert r[|r| - 3..] == [o.decimalSeparator] + f;
    assert r[|r| - 2..] == f;
    FractionDigitsValue(cents);
  }

  lemma FractionDigitsValue(cents: int)
    ensures DigitsValue(FractionDigits(cents)) == Magnitude(cents) % 100
  {
    var f := FractionDigits(cents);
    assert f[..1] == [f[0]];
    assert [f[0]][..0] == [];
    var m := Magnitude(cents) % 100;
    assert DigitsValue(f) == DigitsValue([f[0]]) * 10 + (f[1] as int - 48);
    assert DigitsValue([f[0]]) == f[0] as int - 48 == m / 10;
  }

  /** The sign is not a digit: a negative amount is its magnitude's text behind a `-`. */
  lemma SignNotCounted(cents: int, o: FormatOptions)
    requires cents < 0
    ensures Grouped(cents, o) == "-" + Grouped(-cents, o)
  {
  }

  /** The currency symbol is put literally before or after the grouped number. */
  lemma CurrencyAffix(cents: int, o: FormatOptions)
    ensures o.currency.Prefix? ==> Formatted(cents, o) == o.currency.symbol + Grouped(cents, o)
    ensures o.currency.Suffix? ==> Formatted(cents, o) == Grouped(cents, o) + o.currency.symbol
    ensures o.currency.NoCurrency? ==> Formatted(cents, o) == Grouped(cents, o)
  {
  }

  // ----- The loop of `format` -----

  /**
   * The separator index of the loop of `format`: past the sign, at a digit that
   * starts a group of three, never past the decimal separator, and never more than
   * one group ahead of the character `i` the loop has reached.
   */
  ghost predicate Counter(signOffset: nat, lenTillDot: nat, i: nat, next: nat)
  {
    && signOffset < next <= lenTillDot
    && (lenTillDot - next) % 3 == 0
    && (i <= next || next == lenTillDot)
    && next < Max(i, signOffset + 1) + 3
  }

  /** What the loop has pushed after consuming the first `i` characters of `s`. */
  ghost predicate Emitted(s: string, signOffset: nat, d: string, i: nat, out: string, sep: char)
    requires |s| == signOffset + |d| + 3 && i <= |s|
  {
    var lenTillDot := signOffset + |d|;
    && (i <= signOffset ==> out == s[..i])
    && (signOffset <= i <= lenTillDot ==> out == s[..signOffset] + GroupPrefix(d, i - signOffset, sep))
    && (lenTillDot <= i ==> out == s[..signOffset] + GroupedDigits(d, sep) + s[lenTillDot..i])
  }

  /** The state of the loop of `format` on the plain rendering of `cents`. */
  ghost predicate Progress(cents: int, s: string, i: nat, next: nat, out: string, sep: char)
  {
    var so, d := |SignText(cents)|, IntegerDigits(cents);
    && |s| == so + |d| + 3
    && i <= |s|
    && s == PlainText(cents, s[so + |d|])
    && Counter(so, so + |d|, i, next)
    && Emitted(s, so, d, i, out, sep)
  }

  /** The position of the first separator, as `format` computes it. */
  function FirstSeparatorIndex(lenTillDot: nat, signOffset: nat): nat
    requires signOffset <= lenTillDot
  {
    var first := (lenTillDot - signOffset) % 3 + signOffset;
    if first == signOffset then 3 + signOffset else first
  }

  lemma ProgressStart(cents: int, ds: char, sep: char)
    ensures var s := PlainText(cents, ds);
      |s| >= 3 && Progress(cents, s, 0, FirstSeparatorIndex(|s| - 3, |SignText(cents)|), [], sep)
  {
    PlainTextLayout(cents, ds);
    var s := PlainText(cents, ds);
    assert s[|s| - 3] == ds;
  }

  /** A digit of the integer part: a separator goes before it exactly at the counter. */
  lemma EmitDigit(s: string, so: nat, d: string, i: nat, next: nat, out: string, sep: char)
    requires |s| == so + |d| + 3 && s[so..so + |d|] == d
    requires so <= i < so + |d|
    requires Counter(so, so + |d|, i, next) && Emitted(s, so, d, i, out, sep)
    ensures next == i ==> Counter(so, so + |d|, i + 1, next + 3)
    ensures next != i ==> Counter(so, so + |d|, i + 1, next)
    ensures Emitted(s, so, d, i + 1, out + (if next == i then [sep] else []) + [s[i]], sep)
  {
    assert s[i] == d[i - so];
    assert (next == i) == (i > so && (|d| - (i - so)) % 3 == 0);
    assert SeparatorBefore(d, i - so, sep) == if next == i then [sep] else [];
    assert GroupPrefix(d, i + 1 - so, sep) == GroupPrefix(d, i - so, sep) + SeparatorBefore(d, i - so, sep) + [d[i - so]];
    if i + 1 == so + |d| {
      assert s[so + |d|..i + 1] == [];
    }
  }

  /** The sign or a character from the decimal separator on: pushed as it is. */
  lemma EmitOther(s: string, so: nat, d: string, i: nat, next: nat, out: string, sep: char)
    requires |s| == so + |d| + 3
    requires i < so || so + |d| <= i < |s|
    requires Counter(so, so + |d|, i, next) && Emitted(s, so, d, i, out, sep)
    ensures next != i || next == so + |d|
    ensures Counter(so, so + |d|, i + 1, next)
    ensures Emitted(s, so, d, i + 1, out + [s[i]], sep)
  {
    assert s[..i + 1] == s[..i] + [s[i]];
    if so + |d| <= i {
      assert s[so + |d|..i + 1] == s[so + |d|..i] + [s[i]];
    } else {
      assert GroupPrefix(d, 0, sep) == [];
    }
  }

  /** The separator index after one turn of the loop. */
  function StepIndex(next: nat, i: nat, lenTillDot: nat): nat {
    if next == i && next < lenTillDot then next + 3 else next
  }

  /** What has been pushed after one turn of the loop. */
  function StepOut(out: string, next: nat, i: nat, lenTillDot: nat, sep: char, c: char): string {
    if next == i && next < lenTillDot then out + [sep] + [c] else out + [c]
  }

  /** One turn of the loop, read off the character-counting loop from `i` on. */
  lemma GroupFromStep(s: string, i: nat, next: nat, lenTillDot: nat, sep: char, out: string, whole: string)
    requires i < |s| && out + GroupFrom(s, i, next, lenTillDot, sep) == whole
    ensures StepOut(out, next, i, lenTillDot, sep, s[i]) + GroupFrom(s, i + 1, StepIndex(next, i, lenTillDot), lenTillDot, sep) == whole
  {
    var rest := GroupFrom(s, i + 1, StepIndex(next, i, lenTillDot), lenTillDot, sep);
    if next == i && next < lenTillDot {
      assert GroupFrom(s, i, next, lenTillDot, sep) == [sep, s[i]] + rest;
      assert out + ([sep, s[i]] + rest) == out + [sep] + [s[i]] + rest;
    } else {
      assert GroupFrom(s, i, next, lenTillDot, sep) == [s[i]] + rest;
      assert out + ([s[i]] + rest) == out + [s[i]] + rest;
    }
  }

  /** What the loop of `format` holds after its first `i` characters: the output and the next separator index. */
  ghost function LoopState(s: string, i: nat, first: nat, lenTillDot: nat, sep: char): (string, nat)
    requires i <= |s|
  {
    if i == 0 then ([], first)
    else
      var st := LoopState(s, i - 1, first, lenTillDot, sep);
      (StepOut(st.0, st.1, i - 1, lenTillDot, sep, s[i - 1]), StepIndex(st.1, i - 1, lenTillDot))
  }

  /** What the loop has pushed, followed by what it has still to push, is the whole output. */
  lemma {:induction false} LoopStateCompletes(s: string, i: nat, first: nat, lenTillDot: nat, sep: char)
    requires i <= |s|
    ensures var st := LoopState(s, i, first, lenTillDot, sep);
      st.0 + GroupFrom(s, i, st.1, lenTillDot, sep) == GroupFrom(s, 0, first, lenTillDot, sep)
  {
    if i == 0 {
      assert [] + GroupFrom(s, 0, first, lenTillDot, sep) == GroupFrom(s, 0, first, lenTillDot, sep);
    } else {
      LoopStateCompletes(s, i - 1, first, lenTillDot, sep);
      var st := LoopState(s, i - 1, first, lenTillDot, sep);
      GroupFromStep(s, i - 1, st.1, lenTillDot, sep, st.0, GroupFrom(s, 0, first, lenTillDot, sep));
    }
  }

  /** Run over the whole plain rendering from the first separator index, the loop gives the grouped number. */
  lemma LoopGivesGrouped(cents: int, o: FormatOptions, first: nat)
    requires var s := PlainText(cents, o.decimalSeparator);
      && |s| >= 3 && |SignText(cents)| <= |s| - 3
      && first == FirstSeparatorIndex(|s| - 3, |SignText(cents)|)
    ensures var s := PlainText(cents, o.decimalSeparator);
      LoopState(s, |s|, first, |s| - 3, o.thousandsSeparator).0 == Grouped(cents, o)
  {
    var s, sep := PlainText(cents, o.decimalSeparator), o.thousandsSeparator;
    LoopStateCompletes(s, |s|, first, |s| - 3, sep);
    GroupFromGivesGrouped(cents, o);
    var st := LoopState(s, |s|, first, |s| - 3, sep);
    assert st.0 + GroupFrom(s, |s|, st.1, |s| - 3, sep) == st.0 + [];
  }

  /** `NumberFormatter::format` for `Decimal`. */
  method Format(cents: int, o: FormatOptions) returns (r: string)
    ensures r == Formatted(cents, o)
  {
    var precision := 2;
    var decimalString := PlainText(cents, o.decimalSeparator);
    var signOffset := if cents < 0 then 1 else 0;
    PlainTextLength(cents, o.decimalSeparator);
    var lenTillDot: nat := |decimalString| - 1 - precision;
    var groupSeparatorIndex: nat := (lenTillDot - signOffset) % 3 + signOffset;
    if groupSeparatorIndex == signOffset {
      groupSeparatorIndex := 3 + signOffset;
    }
    ghost var first := groupSeparatorIndex;
    var formatted := "";
    var i := 0;
    while i < |decimalString|
      invariant 0 <= i <= |decimalString|
      invariant (formatted, groupSeparatorIndex) == LoopState(decimalString, i, first, lenTillDot, o.thousandsSeparator)
    {
      ghost var nextOut := StepOut(formatted, groupSeparatorIndex, i, lenTillDot, o.thousandsSeparator, decimalString[i]);
      ghost var nextIndex := StepIndex(groupSeparatorIndex, i, lenTillDot);
      assert LoopState(decimalString, i + 1, first, lenTillDot, o.thousandsSeparator) == (nextOut, nextIndex);
      if groupSeparatorIndex == i && groupSeparatorIndex < lenTillDot {
        formatted := formatted + [o.thousandsSeparator];
        groupSeparatorIndex := groupSeparatorIndex + 3;
      }
      formatted := formatted + [decimalString[i]];
      assert formatted == nextOut && groupSeparatorIndex == nextIndex;
      i := i + 1;
    }
    assert signOffset == |SignText(cents)| && first == FirstSeparatorIndex(lenTillDot, signOffset);
    LoopGivesGrouped(cents, o, first);
    r := WithCurrency(formatted, o.currency);
  }

  // ----- Snapshots of the unit tests of number_formatter.rs -----

  /** Formatting, given the digits of the amount and their grouping. */
  lemma FormattedFrom(cents: int, o: FormatOptions, digits: string, grouped: string, fraction: string)
    requires IntegerDigits(cents) == digits && FractionDigits(cents) == fraction
    requires GroupedDigits(digits, o.thousandsSeparator) == grouped
    ensures Formatted(cents, o) == WithCurrency(SignText(cents) + grouped + [o.decimalSeparator] + fraction, o.currency)
  {
  }

  lemma SnapshotsSmall()
    ensures Formatted(100, DefaultOptions) == "1.00"
    ensures Formatted(-100, DefaultOptions) == "-1.00"
    ensures Formatted(10000, DefaultOptions) == "100.00"
    ensures Formatted(-10000, DefaultOptions) == "-100.00"
  {
    SnapshotOnePositive();
    SnapshotOneNegative();
    SnapshotHundredPositive();
    SnapshotHundredNegative();
  }

  lemma SnapshotOnePositive()
    ensures Formatted(100, DefaultOptions) == "1.00"
  {
    assert IntegerDigits(100) == "1" && FractionDigits(100) == "00";
    GroupedShort("1", NonBreakingSpace);
    FormattedFrom(100, DefaultOptions, "1", "1", "00");
  }

  lemma SnapshotOneNegative()
    ensures Formatted(-100, DefaultOptions) == "-1.00"
  {
    assert IntegerDigits(-100) == "1" && FractionDigits(-100) == "00";
    GroupedShort("1", NonBreakingSpace);
    FormattedFrom(-100, DefaultOptions, "1", "1", "00");
  }

  lemma SnapshotHundredPositive()
    ensures Formatted(10000, DefaultOptions) == "100.00"
  {
    HundredDigits();
    GroupedShort("100", NonBreakingSpace);
    FormattedFrom(10000, DefaultOptions, "100", "100", "00");
  }

  lemma SnapshotHundredNegative()
    ensures Formatted(-10000, DefaultOptions) == "-100.00"
  {
    HundredDigits();
    assert IntegerDigits(-10000) == "100" && FractionDigits(-10000) == "00";
    GroupedShort("100", NonBreakingSpace);
    FormattedFrom(-10000, DefaultOptions, "100", "100", "00");
  }

  lemma SnapshotThousands()
    ensures Formatted(199999, DefaultOptions) == "1\U{A0}999.99"
  {
    NearlyTwoThousandDigits();
    GroupedThousand("1999", NonBreakingSpace);
    FormattedFrom(199999, DefaultOptions, "1999", "1\U{A0}999", "99");
  }

  lemma NearlyTwoThousandDigits()
    ensures IntegerDigits(199999) == "1999" && FractionDigits(199999) == "99"
  {
    assert NatText(19) == "19";
    assert NatText(199) == "199";
    assert NatText(1999) == "1999";
    assert 199999 / 100 == 1999 && 199999 % 100 == 99;
  }

  /** Four digits get one separator after the first. */
  lemma GroupedThousand(d: string, sep: char)
    requires |d| == 4
    ensures GroupedDigits(d, sep) == [d[0], sep] + d[1..]
  {
    GroupedChunk(d, sep);
    GroupedShort(d[..1], sep);
    assert d[..1] == [d[0]];
  }

  lemma SnapshotNegativeTensOfThousands()
    ensures Formatted(-1999999, DefaultOptions) == "-19\U{A0}999.99"
  {
    TensOfThousandsDigits();
    TensOfThousandsGrouped();
    FormattedFrom(-1999999, DefaultOptions, "19999", "19\U{A0}999", "99");
  }

  lemma TensOfThousandsDigits()
    ensures IntegerDigits(-1999999) == "19999" && FractionDigits(-1999999) == "99"
  {
    assert NatText(19) == "19";
    assert NatText(199) == "199";
    assert NatText(1999) == "1999";
    assert NatText(19999) == "19999";
    assert Magnitude(-1999999) == 1999999;
    assert 1999999 / 100 == 19999 && 1999999 % 100 == 99;
  }

  lemma TensOfThousandsGrouped()
    ensures GroupedDigits("19999", NonBreakingSpace) == "19\U{A0}999"
  {
    GroupedChunk("19999", NonBreakingSpace);
    assert "19999"[..2] == "19" && "19999"[2..] == "999";
    GroupedShort("19", NonBreakingSpace);
  }

  lemma SnapshotMillions()
    ensures Formatted(199999999, DefaultOptions) == "1\U{A0}999\U{A0}999.99"
  {
    MillionsDigits();
    MillionsGrouped();
    FormattedFrom(199999999, DefaultOptions, "1999999", "1\U{A0}999\U{A0}999", "99");
  }

  lemma MillionsDigits()
    ensures IntegerDigits(199999999) == "1999999"
    ensures FractionDigits(199999999) == "99"
  {
    assert NatText(19) == "19";
    assert NatText(199) == "199";
    assert NatText(1999) == "1999";
    assert NatText(19999) == "19999";
    assert NatText(199999) == "199999";
    assert NatText(1999999) == "1999999";
    assert 199999999 / 100 == 1999999 && 199999999 % 100 == 99;
  }

  lemma MillionsGrouped()
    ensures GroupedDigits("1999999", NonBreakingSpace) == "1\U{A0}999\U{A0}999"
  {
    GroupedChunk("1999999", NonBreakingSpace);
    assert "1999999"[..4] == "1999" && "1999999"[4..] == "999";
    GroupedThousand("1999", NonBreakingSpace);
  }

  lemma ThousandDigits()
    ensures IntegerDigits(100000) == "1000" && FractionDigits(100000) == "00"
  {
    assert NatText(10) == "10";
    assert NatText(100) == "100";
    assert NatText(1000) == "1000";
    assert 100000 / 100 == 1000 && 100000 % 100 == 0;
  }

  lemma SnapshotsCurrency()
    ensures Formatted(100000, DefaultOptions.(currency := Prefix("\U{20AC}"))) == "\U{20AC}1\U{A0}000.00"
    ensures Formatted(100000, DefaultOptions.(currency := Suffix(" EUR"))) == "1\U{A0}000.00 EUR"
  {
    var body := "1\U{A0}000.00";
    ThousandDefault();
    CurrencyAffix(100000, DefaultOptions.(currency := Prefix("\U{20AC}")));
    CurrencyAffix(100000, DefaultOptions.(currency := Suffix(" EUR")));
    assert "\U{20AC}" + body == "\U{20AC}1\U{A0}000.00";
    assert body + " EUR" == "1\U{A0}000.00 EUR";
  }

  /** 1000 with the default separators, before any currency symbol. */
  lemma ThousandDefault()
    ensures forall c :: Grouped(100000, DefaultOptions.(currency := c)) == "1\U{A0}000.00"
  {
    ThousandDigits();
    GroupedThousand("1000", NonBreakingSpace);
    assert SignText(100000) + "1\U{A0}000" + ['.'] + "00" == "1\U{A0}000.00";
  }

  lemma SnapshotsSeparators()
    ensures Formatted(100000, DefaultOptions.(thousandsSeparator := ',')) == "1,000.00"
    ensures Formatted(100000, DefaultOptions.(decimalSeparator := ',')) == "1\U{A0}000,00"
  {
    SnapshotCommaThousands();
    SnapshotCommaDecimals();
  }

  lemma SnapshotCommaThousands()
    ensures Formatted(100000, DefaultOptions.(thousandsSeparator := ',')) == "1,000.00"
  {
    ThousandDigits();
    GroupedThousand("1000", ',');
    FormattedFrom(100000, DefaultOptions.(thousandsSeparator := ','), "1000", "1,000", "00");
  }

  lemma SnapshotCommaDecimals()
    ensures Formatted(100000, DefaultOptions.(decimalSeparator := ',')) == "1\U{A0}000,00"
  {
    ThousandDigits();
    GroupedThousand("1000", NonBreakingSpace);
    FormattedFrom(100000, DefaultOptions.(decimalSeparator := ','), "1000", "1\U{A0}000", "00");
  }

  // ----- The loop as written, with byte offsets -----

  /**
   * The loop of `format` as written: the index compared with the separator
   * position is the byte offset that `char_indices` yields, not a character count.
   */
  function GroupBytes(s: string, offset: nat, next: nat, lenTillDot: nat, sep: char): string
    decreases |s|
  {
    if s == [] then []
    else if next == offset && next < lenTillDot then
      [sep, s[0]] + GroupBytes(s[1..], offset + Utf8Width(s[0]), next + 3, lenTillDot, sep)
    else
      [s[0]] + GroupBytes(s[1..], offset + Utf8Width(s[0]), next, lenTillDot, sep)
  }

  /** `format` as written: `len_till_dot` is a byte length. */
  function FormatAsWritten(cents: int, o: FormatOptions): string {
    var s := PlainText(cents, o.decimalSeparator);
    PlainTextLayout(cents, o.decimalSeparator);
    var lenTillDot := ByteLen(s) - 1 - 2;
    var next := FirstSeparatorIndex(lenTillDot, |SignText(cents)|);
    WithCurrency(GroupBytes(s, 0, next, lenTillDot, o.thousandsSeparator), o.currency)
  }

  /**
   * With a decimal separator of two UTF-8 bytes the byte arithmetic puts a thousands
   * separator inside the three-digit integer part of 100.
   */
  lemma MultiByteDecimalSeparatorMisgroups()
    ensures var o := FormatOptions(NonBreakingSpace, '\U{B7}', NoCurrency);
      && FormatAsWritten(10000, o) == "1\U{A0}00\U{B7}00"
      && Formatted(10000, o) == "100\U{B7}00"
  {
    var o := FormatOptions(NonBreakingSpace, '\U{B7}', NoCurrency);
    HundredDigits();
    assert PlainText(10000, o.decimalSeparator) == "100\U{B7}00";
    MisgroupedByteLen();
    MisgroupedBytes();
    assert FirstSeparatorIndex(4, 0) == 1;
    GroupedShort("100", NonBreakingSpace);
  }

  lemma HundredDigits()
    ensures IntegerDigits(10000) == "100" && FractionDigits(10000) == "00"
  {
    assert NatText(10) == "10";
    assert NatText(100) == "100";
    assert 10000 / 100 == 100 && 10000 % 100 == 0;
  }

  /** The plain text of 100 with a two-byte decimal separator is seven bytes long. */
  lemma MisgroupedByteLen()
    ensures ByteLen("100\U{B7}00") == 7
  {
    var s5, s4, s3, s2, s1 := "0", "00", "\U{B7}00", "0\U{B7}00", "00\U{B7}00";
    assert s4 == ['0'] + s5 && s3 == ['\U{B7}'] + s4 && s2 == ['0'] + s3 && s1 == ['0'] + s2;
    assert "100\U{B7}00" == ['1'] + s1;
    ByteLenCons('0', s5);
    ByteLenCons('0', s4);
    ByteLenCons('\U{B7}', s3);
    ByteLenCons('0', s2);
    ByteLenCons('1', s1);
  }

  /** The byte-counting loop on that text puts the separator after the first digit. */
  lemma MisgroupedBytes()
    ensures GroupBytes("100\U{B7}00", 0, 1, 4, NonBreakingSpace) == "1\U{A0}00\U{B7}00"
  {
    var sep, ds := NonBreakingSpace, '\U{B7}';
    assert "100\U{B7}00" == ['1'] + (['0'] + (['0'] + ([ds] + (['0'] + ['0']))));
    assert "1\U{A0}00\U{B7}00" == ['1'] + ([sep] + (['0'] + (['0'] + ([ds] + (['0'] + ['0'])))));
    SeparatorAfterFirstByte('1', '0', '0', ds, '0', '0', sep);
  }

  /**
   * Three one-byte digits, a two-byte decimal separator and two one-byte digits:
   * the byte offset meets the separator position 1 at the second character.
   */
  lemma SeparatorAfterFirstByte(c0: char, c1: char, c2: char, ds: char, c3: char, c4: char, sep: char)
    requires Utf8Width(c0) == 1 && Utf8Width(c1) == 1 && Utf8Width(c2) == 1 && Utf8Width(ds) == 2
    requires Utf8Width(c3) == 1
    ensures GroupBytes([c0] + ([c1] + ([c2] + ([ds] + ([c3] + [c4])))), 0, 1, 4, sep)
      == [c0] + ([sep] + ([c1] + ([c2] + ([ds] + ([c3] + [c4])))))
  {
    var t4 := [c4];
    var t3 := [c3] + t4;
    var t2 := [ds] + t3;
    var t1 := [c2] + t2;
    var t0 := [c1] + t1;
    GroupBytesPlain(c4, [], 6, 4, 4, sep);
    assert [c4] + [] == t4;
    GroupBytesPlain(c3, t4, 5, 4, 4, sep);
    GroupBytesPlain(ds, t3, 3, 4, 4, sep);
    GroupBytesPlain(c2, t2, 2, 4, 4, sep);
    GroupBytesSeparator(c1, t1, 1, 1, 4, sep);
    assert [sep, c1] + t1 == [sep] + t0;
    GroupBytesPlain(c0, t0, 0, 1, 4, sep);
  }

  lemma GroupBytesPlain(c: char, s: string, offset: nat, next: nat, lenTillDot: nat, sep: char)
    requires next != offset || next >= lenTillDot
    ensures GroupBytes([c] + s, offset, next, lenTillDot, sep)
      == [c] + GroupBytes(s, offset + Utf8Width(c), next, lenTillDot, sep)
  {
    GroupBytesCons(c, s, offset, next, lenTillDot, sep);
  }

  lemma GroupBytesSeparator(c: char, s: string, offset: nat, next: nat, lenTillDot: nat, sep: char)
    requires next == offset < lenTillDot
    ensures GroupBytes([c] + s, offset, next, lenTillDot, sep)
      == [sep, c] + GroupBytes(s, offset + Utf8Width(c), next + 3, lenTillDot, sep)
  {
    GroupBytesCons(c, s, offset, next, lenTillDot, sep);
  }

  lemma ByteLenCons(c: char, s: string)
    ensures ByteLen([c] + s) == Utf8Width(c) + ByteLen(s)
  {
    assert ([c] + s)[1..] == s;
  }

  lemma GroupBytesCons(c: char, s: string, offset: nat, next: nat, lenTillDot: nat, sep: char)
    ensures GroupBytes([c] + s, offset, next, lenTillDot, sep)
      == if next == offset && next < lenTillDot
         then [sep, c] + GroupBytes(s, offset + Utf8Width(c), next + 3, lenTillDot, sep)
         else [c] + GroupBytes(s, offset + Utf8Width(c), next, lenTillDot, sep)
  {
    assert ([c] + s)[1..] == s;
  }

  /** The loop of `format` from character `i` on, counting characters. */
  ghost function GroupFrom(s: string, i: nat, next: nat, lenTillDot: nat, sep: char): string
    requires i <= |s|
    decreases |s| - i
  {
    if i == |s| then []
    else if next == i && next < lenTillDot then [sep, s[i]] + GroupFrom(s, i + 1, next + 3, lenTillDot, sep)
    else [s[i]] + GroupFrom(s, i + 1, next, lenTillDot, sep)
  }

  /** On one-byte characters the byte offset is the character index. */
  lemma {:induction false} GroupBytesAscii(s: string, i: nat, next: nat, lenTillDot: nat, sep: char)
    requires i <= |s| && IsAscii(s)
    ensures GroupBytes(s[i..], i, next, lenTillDot, sep) == GroupFrom(s, i, next, lenTillDot, sep)
    decreases |s| - i
  {
    if i < |s| {
      var rest := s[i..];
      assert rest[0] == s[i] && rest[1..] == s[i + 1..];
      assert Utf8Width(s[i]) == 1;
      GroupBytesAscii(s, i + 1, next + 3, lenTillDot, sep);
      GroupBytesAscii(s, i + 1, next, lenTillDot, sep);
    }
  }

  /** A digit at the separator index: the loop pushes the separator, then the digit. */
  lemma DigitAtSeparator(s: string, so: nat, d: string, i: nat, out: string, sep: char)
    requires |s| == so + |d| + 3 && s[so..so + |d|] == d
    requires so <= i < so + |d|
    requires Counter(so, so + |d|, i, i) && Emitted(s, so, d, i, out, sep)
    ensures Counter(so, so + |d|, i + 1, i + 3)
    ensures Emitted(s, so, d, i + 1, out + [sep, s[i]], sep)
  {
    EmitDigit(s, so, d, i, i, out, sep);
    assert out + [sep] + [s[i]] == out + [sep, s[i]];
  }

  /** A digit elsewhere: the loop pushes the digit alone. */
  lemma DigitInsideGroup(s: string, so: nat, d: string, i: nat, next: nat, out: string, sep: char)
    requires |s| == so + |d| + 3 && s[so..so + |d|] == d
    requires so <= i < so + |d| && next != i
    requires Counter(so, so + |d|, i, next) && Emitted(s, so, d, i, out, sep)
    ensures Counter(so, so + |d|, i + 1, next)
    ensures Emitted(s, so, d, i + 1, out + [s[i]], sep)
  {
    EmitDigit(s, so, d, i, next, out, sep);
    assert out + [] + [s[i]] == out + [s[i]];
  }

  lemma ConcatAssociative(a: string, b: string, c: string)
    ensures a + b + c == a + (b + c)
  {
  }

  /**
   * The rest of the loop completes what has been pushed so far. The cases are
   * separate lemmas, which call this one for the next character.
   */
  lemma {:induction false} GroupFromCompletes(s: string, so: nat, d: string, i: nat, next: nat, out: string, sep: char)
    requires |s| == so + |d| + 3 && s[so..so + |d|] == d && i <= |s|
    requires Counter(so, so + |d|, i, next) && Emitted(s, so, d, i, out, sep)
    ensures out + GroupFrom(s, i, next, so + |d|, sep) == s[..so] + GroupedDigits(d, sep) + s[so + |d|..]
    decreases |s| - i, 1
  {
    if i == |s| {
      assert s[so + |d|..i] == s[so + |d|..];
    } else if so <= i < so + |d| && next == i {
      CompletesAtSeparator(s, so, d, i, next, out, sep);
    } else if so <= i < so + |d| {
      CompletesInsideGroup(s, so, d, i, next, out, sep);
    } else {
      CompletesOther(s, so, d, i, next, out, sep);
    }
  }

  lemma {:induction false} CompletesAtSeparator(s: string, so: nat, d: string, i: nat, next: nat, out: string, sep: char)
    requires so <= i < so + |d| && next == i
    requires |s| == so + |d| + 3 && s[so..so + |d|] == d && i <= |s|
    requires Counter(so, so + |d|, i, next) && Emitted(s, so, d, i, out, sep)
    ensures out + GroupFrom(s, i, next, so + |d|, sep) == s[..so] + GroupedDigits(d, sep) + s[so + |d|..]
    decreases |s| - i, 0
  {
    DigitAtSeparator(s, so, d, i, out, sep);
    var rest := GroupFrom(s, i + 1, next + 3, so + |d|, sep);
    GroupFromCompletes(s, so, d, i + 1, next + 3, out + [sep, s[i]], sep);
    ConcatAssociative(out, [sep, s[i]], rest);
  }

  lemma {:induction false} CompletesInsideGroup(s: string, so: nat, d: string, i: nat, next: nat, out: string, sep: char)
    requires so <= i < so + |d| && next != i
    requires |s| == so + |d| + 3 && s[so..so + |d|] == d && i <= |s|
    requires Counter(so, so + |d|, i, next) && Emitted(s, so, d, i, out, sep)
    ensures out + GroupFrom(s, i, next, so + |d|, sep) == s[..so] + GroupedDigits(d, sep) + s[so + |d|..]
    decreases |s| - i, 0
  {
    DigitInsideGroup(s, so, d, i, next, out, sep);
    var rest := GroupFrom(s, i + 1, next, so + |d|, sep);
    GroupFromCompletes(s, so, d, i + 1, next, out + [s[i]], sep);
    assert GroupFrom(s, i, next, so + |d|, sep) == [s[i]] + rest;
    ConcatAssociative(out, [s[i]], rest);
  }

  lemma {:induction false} CompletesOther(s: string, so: nat, d: string, i: nat, next: nat, out: string, sep: char)
    requires i < so || so + |d| <= i < |s|
    requires |s| == so + |d| + 3 && s[so..so + |d|] == d && i <= |s|
    requires Counter(so, so + |d|, i, next) && Emitted(s, so, d, i, out, sep)
    ensures out + GroupFrom(s, i, next, so + |d|, sep) == s[..so] + GroupedDigits(d, sep) + s[so + |d|..]
    decreases |s| - i, 0
  {
    EmitOther(s, so, d, i, next, out, sep);
    var rest := GroupFrom(s, i + 1, next, so + |d|, sep);
    GroupFromCompletes(s, so, d, i + 1, next, out + [s[i]], sep);
    assert GroupFrom(s, i, next, so + |d|, sep) == [s[i]] + rest;
    ConcatAssociative(out, [s[i]], rest);
  }

  /** With a one-byte decimal separator the plain rendering is ASCII. */
  lemma PlainTextAscii(cents: int, ds: char)
    requires Utf8Width(ds) == 1
    ensures IsAscii(PlainText(cents, ds)) && ByteLen(PlainText(cents, ds)) == |PlainText(cents, ds)|
  {
    var s := PlainText(cents, ds);
    PlainTextLayout(cents, ds);
    assert forall i :: 0 <= i < |s| ==> s[i] == '-' || IsDigit(s[i]) || s[i] == ds;
    AsciiByteLen(s);
  }

  /** The character-counting loop, run from the start, gives the grouped number. */
  lemma GroupFromGivesGrouped(cents: int, o: FormatOptions)
    ensures var s := PlainText(cents, o.decimalSeparator);
      && |s| >= 3
      && GroupFrom(s, 0, FirstSeparatorIndex(|s| - 3, |SignText(cents)|), |s| - 3, o.thousandsSeparator)
        == Grouped(cents, o)
  {
    var s := PlainText(cents, o.decimalSeparator);
    PlainTextLayout(cents, o.decimalSeparator);
    ProgressStart(cents, o.decimalSeparator, o.thousandsSeparator);
    var next := FirstSeparatorIndex(|s| - 3, |SignText(cents)|);
    var so, d, sep := |SignText(cents)|, IntegerDigits(cents), o.thousandsSeparator;
    GroupFromCompletes(s, so, d, 0, next, [], sep);
    assert [] + GroupFrom(s, 0, next, so + |d|, sep) == GroupFrom(s, 0, next, so + |d|, sep);
    assert s[..so] + GroupedDigits(d, sep) + s[so + |d|..]
      == SignText(cents) + GroupedDigits(d, sep) + ([o.decimalSeparator] + FractionDigits(cents));
    ConcatAssociative(SignText(cents) + GroupedDigits(d, sep), [o.decimalSeparator], FractionDigits(cents));
  }

  /** With a one-byte decimal separator the byte arithmetic and the character count agree. */
  lemma FormatAsWrittenAgreesOnAscii(cents: int, o: FormatOptions)
    requires Utf8Width(o.decimalSeparator) == 1
    ensures FormatAsWritten(cents, o) == Formatted(cents, o)
  {
    var s := PlainText(cents, o.decimalSeparator);
    PlainTextAscii(cents, o.decimalSeparator);
    GroupFromGivesGrouped(cents, o);
    var next := FirstSeparatorIndex(|s| - 3, |SignText(cents)|);
    GroupBytesAscii(s, 0, next, |s| - 3, o.thousandsSeparator);
    assert s[0..] == s;
  }
}
