/** Country entries as the REST Countries provider returns them. Every field
    the scripts read with a fallback is optional; `cca3` and `name` are
    required (README, "Left out", says what the scripts do without them). */
module Registry {
  import opened Wrappers
  import opened JsText

  datatype Name = Name(common: string, official: string)

  /** The `capital` field: usually a list of names, but the scripts also
      accept a bare string or nothing. */
  datatype Capital = NoCapital | CapitalList(names: seq<string>) | CapitalText(text: string)

  datatype Flags = Flags(svg: Option<string>, png: Option<string>, alt: Option<string>)

  /** One value of the `currencies` object, in the object's key order. */
  datatype Currency = Currency(name: string, symbol: Option<string>)

  /** One language's `demonyms` entry. */
  datatype Demonym = Demonym(f: Option<string>, m: Option<string>)

  datatype RestCountry = RestCountry(
    cca3: string,
    name: Name,
    capital: Capital,
    region: Option<string>,
    subregion: Option<string>,
    area: Option<real>,
    population: Option<real>,
    landlocked: Option<bool>,
    timezones: Option<seq<string>>,
    flags: Option<Flags>,
    unMember: Option<bool>,
    currencies: Option<seq<Currency>>,
    languages: Option<seq<string>>,
    demonyms: Option<map<string, Demonym>>
  )

  /** `flags?.svg || flags?.png || ''`: the SVG link, else the PNG link,
      else the empty string. */
  function FlagUrl(flags: Option<Flags>): (r: string)
    ensures flags.Some? && flags.value.svg.Some? && flags.value.svg.value != "" ==> r == flags.value.svg.value
    ensures r != "" ==> flags.Some? && (r == flags.value.svg.GetOr("") || r == flags.value.png.GetOr(""))
    ensures r == "" <==> flags.None? || (flags.value.svg.GetOr("") == "" && flags.value.png.GetOr("") == "")
  {
    match flags
    case None => ""
    case Some(f) => OrElse(f.svg, OrElse(f.png, ""))
  }

  /** One currency as displayed: `` `${name} (${symbol || ''})`.trim() ``. */
  function CurrencyLabel(c: Currency): string {
    Trim(c.name + " (" + OrElse(c.symbol, "") + ")")
  }

  function CurrencyLabels(cs: seq<Currency>): (r: seq<string>)
    ensures |r| == |cs|
    ensures forall i :: 0 <= i < |cs| ==> r[i] == CurrencyLabel(cs[i])
  {
    seq(|cs|, i requires 0 <= i < |cs| => CurrencyLabel(cs[i]))
  }

  /** The currency line both scripts build: the labels joined by `", "`,
      or `fallback` when that join is empty. */
  function CurrencyLine(currencies: Option<seq<Currency>>, fallback: string): string {
    var cs := currencies.GetOr([]);
    var joined := Join(CurrencyLabels(cs), ", ");
    if joined != "" then joined else fallback
  }

  /** A currency label always ends with the closing parenthesis, whatever
      the name and symbol are. */
  lemma CurrencyLabelEndsWithParen(c: Currency)
    ensures |CurrencyLabel(c)| > 0 && CurrencyLabel(c)[|CurrencyLabel(c)| - 1] == ')'
  {
    var raw := c.name + " (" + OrElse(c.symbol, "") + ")";
    var i, j := TrimHasCore(raw);
    assert !IsWhitespace(raw[|raw| - 1]);
    assert j == |raw|;
  }

  /** The fallback is used exactly when there are no currencies (a missing
      `currencies` object counts as none); otherwise the line is the
      labels joined with `", "` and ends with `')'`, so it can never be
      mistaken for the fallback. */
  lemma CurrencyLineFallback(currencies: Option<seq<Currency>>, fallback: string)
    requires |fallback| > 0 && fallback[|fallback| - 1] != ')'
    ensures var cs := currencies.GetOr([]);
      && (CurrencyLine(currencies, fallback) == fallback <==> |cs| == 0)
      && (|cs| > 0 ==> CurrencyLine(currencies, fallback) == Join(CurrencyLabels(cs), ", "))
  {
    var cs := currencies.GetOr([]);
    if |cs| > 0 {
      var labels := CurrencyLabels(cs);
      CurrencyLabelEndsWithParen(cs[|cs| - 1]);
      JoinEndsWithLast(labels, ", ");
      var joined := Join(labels, ", ");
      assert joined[|joined| - 1] == ')';
    }
  }
}
