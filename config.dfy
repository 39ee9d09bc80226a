/**
 * The `[formatting]` section of the configuration and its mapping to the
 * options of the number formatter.
 */
module Config {
  import opened Wrappers
  import NF = NumberFormatter

  /** The `currency_position` setting. */
  datatype CurrencyPositionChoice = Prefix | Suffix

  /** The `[formatting]` table; every key is optional. */
  datatype FormattingConfig = FormattingConfig(
    currency: Option<string>,
    currencyPosition: Option<CurrencyPositionChoice>,
    thousandsSeparator: char,
    decimalSeparator: char)

  datatype ConfigFile = ConfigFile(formatting: FormattingConfig)

  /** `FormattingConfig::default()`. */
  const DefaultFormatting: FormattingConfig := FormattingConfig(None, None, NF.NonBreakingSpace, '.')

  /** `Config::default()`. */
  const DefaultConfig: ConfigFile := ConfigFile(DefaultFormatting)

  /**
   * `FormattingConfig::format_options`: a currency affix needs both a symbol and a
   * position; the separators are copied through.
   */
  function FormatOptionsOf(c: FormattingConfig): (o: NF.FormatOptions)
    ensures o.thousandsSeparator == c.thousandsSeparator
    ensures o.decimalSeparator == c.decimalSeparator
    ensures o.currency.Prefix? <==> c.currency.Some? && c.currencyPosition == Some(Prefix)
    ensures o.currency.Suffix? <==> c.currency.Some? && c.currencyPosition == Some(Suffix)
    ensures o.currency.NoCurrency? <==> c.currency.None? || c.currencyPosition.None?
    ensures !o.currency.NoCurrency? ==> o.currency.symbol == c.currency.value
  {
    var currency :=
      match (c.currency, c.currencyPosition)
      case (Some(symbol), Some(Prefix)) => NF.Prefix(symbol)
      case (Some(symbol), Some(Suffix)) => NF.Suffix(symbol)
      case _ => NF.NoCurrency;
    NF.FormatOptions(c.thousandsSeparator, c.decimalSeparator, currency)
  }

  /** A configuration that selects the given options. */
  function ConfigFor(o: NF.FormatOptions): FormattingConfig {
    match o.currency
    case Prefix(symbol) => FormattingConfig(Some(symbol), Some(Prefix), o.thousandsSeparator, o.decimalSeparator)
    case Suffix(symbol) => FormattingConfig(Some(symbol), Some(Suffix), o.thousandsSeparator, o.decimalSeparator)
    case NoCurrency => FormattingConfig(None, None, o.thousandsSeparator, o.decimalSeparator)
  }

  /** Every set of format options can be selected by some configuration. */
  lemma EveryOptionReachable(o: NF.FormatOptions)
    ensures FormatOptionsOf(ConfigFor(o)) == o
  {
  }

  /**
   * Two configurations with the same separators and no usable currency select
   * the same options: an absent position makes the symbol irrelevant, and an
   * absent symbol makes the position irrelevant.
   */
  lemma SameOptions(a: FormattingConfig, b: FormattingConfig)
    requires a.thousandsSeparator == b.thousandsSeparator && a.decimalSeparator == b.decimalSeparator
    requires a.currency.None? || a.currencyPosition.None?
    requires b.currency.None? || b.currencyPosition.None?
    ensures FormatOptionsOf(a) == FormatOptionsOf(b)
  {
  }

  /** The default configuration gives the formatter's default options. */
  lemma DefaultFormatOptions()
    ensures FormatOptionsOf(DefaultConfig.formatting) == NF.DefaultOptions
  {
  }

  /** A `$` prefix with a comma decimal separator. */
  lemma FormatOptionsConversion()
    ensures FormatOptionsOf(FormattingConfig(Some("$"), Some(Prefix), NF.NonBreakingSpace, ',')).currency
      == NF.Prefix("$")
  {
  }
}
