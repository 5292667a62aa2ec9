/** The locale and currency tables: the supported locales, the right-to-left
    locales, the currencies with the locales they are the default for, and
    the lookups built on them. */
module I18n {
  import opened Wrappers
  import Text

  /** A locale code such as "en". */
  type Locale = string

  const Locales: seq<Locale> := ["en", "es", "fr", "de", "zh", "ja", "pt", "ar"]

  const DefaultLocale: Locale := "en"

  const RtlLocales: seq<Locale> := ["ar"]

  /** Whether text in `locale` is written right to left. */
  predicate IsRtl(locale: Locale)
  {
    locale in RtlLocales
  }

  /** Arabic is the only right-to-left locale. */
  lemma RtlIsArabic(locale: Locale)
    ensures IsRtl(locale) <==> locale == "ar"
  {
  }

  datatype Currency = Currency(code: string, symbol: string, name: string, locales: seq<Locale>)

  /** The currency table, in the order the lookup scans it. */
  const Currencies: seq<Currency> := [
    Currency("USD", "$", "US Dollar", ["en"]),
    Currency("EUR", "\U{20AC}", "Euro", ["fr", "de", "es", "pt"]),
    Currency("GBP", "\U{00A3}", "British Pound", ["en"]),
    Currency("JPY", "\U{00A5}", "Japanese Yen", ["ja"]),
    Currency("CNY", "\U{00A5}", "Chinese Yuan", ["zh"]),
    Currency("INR", "\U{20B9}", "Indian Rupee", ["en"]),
    Currency("BRL", "R$", "Brazilian Real", ["pt"]),
    Currency("AUD", "A$", "Australian Dollar", ["en"]),
    Currency("CAD", "C$", "Canadian Dollar", ["en", "fr"]),
    Currency("MXN", "$", "Mexican Peso", ["es"]),
    Currency("AED", "\U{062F}.\U{0625}", "UAE Dirham", ["ar"]),
    Currency("SAR", "\U{FDFC}", "Saudi Riyal", ["ar"])
  ]

  const FallbackCurrency: string := "USD"

  /** The first currency of `cs` that lists `locale`, if any. */
  function FindCurrency(cs: seq<Currency>, locale: Locale): (r: Option<Currency>)
    ensures r.None? <==> forall i :: 0 <= i < |cs| ==> locale !in cs[i].locales
    ensures r.Some? ==> exists i :: 0 <= i < |cs| && cs[i] == r.value && locale in cs[i].locales
                                   && forall j :: 0 <= j < i ==> locale !in cs[j].locales
  {
    if cs == [] then None
    else if locale in cs[0].locales then Some(cs[0])
    else
      var r := FindCurrency(cs[1..], locale);
      assert forall i :: 1 <= i < |cs| ==> cs[i] == cs[1..][i - 1];
      r
  }

  /** The default currency for `locale`: the code of the first table entry
      that lists it, and "USD" when none does (or the code found is empty). */
  function GetDefaultCurrency(locale: Locale): (r: string)
    ensures (forall i :: 0 <= i < |Currencies| ==> locale !in Currencies[i].locales) ==> r == FallbackCurrency
    ensures forall i :: 0 <= i < |Currencies| && locale in Currencies[i].locales
                        && (forall j :: 0 <= j < i ==> locale !in Currencies[j].locales)
                        ==> r == Currencies[i].code
  {
    match FindCurrency(Currencies, locale)
    case None => FallbackCurrency
    case Some(c) => if c.code != "" then c.code else FallbackCurrency
  }

  /** Every supported locale is the default of some currency, so the
      fallback is never taken for a supported locale. */
  lemma LocalesCovered(locale: Locale)
    requires locale in Locales
    ensures exists i :: 0 <= i < |Currencies| && locale in Currencies[i].locales
  {
    if locale == "en" { assert locale in Currencies[0].locales; }
    else if locale in ["es", "fr", "de", "pt"] { assert locale in Currencies[1].locales; }
    else if locale == "ja" { assert locale in Currencies[3].locales; }
    else if locale == "zh" { assert locale in Currencies[4].locales; }
    else { assert locale in Currencies[10].locales; }
  }

  /** The codes listed by the table, in order. */
  lemma TableShape()
    ensures |Currencies| == 12
    ensures Currencies[0].locales == ["en"] && Currencies[0].code == "USD"
    ensures Currencies[1].locales == ["fr", "de", "es", "pt"] && Currencies[1].code == "EUR"
    ensures Currencies[2].locales == ["en"]
    ensures Currencies[3].locales == ["ja"] && Currencies[3].code == "JPY"
    ensures Currencies[4].locales == ["zh"] && Currencies[4].code == "CNY"
    ensures Currencies[5].locales == ["en"]
    ensures Currencies[6].locales == ["pt"]
    ensures Currencies[7].locales == ["en"]
    ensures Currencies[8].locales == ["en", "fr"]
    ensures Currencies[9].locales == ["es"]
    ensures Currencies[10].locales == ["ar"] && Currencies[10].code == "AED"
    ensures Currencies[11].locales == ["ar"]
  {
  }

  /** The default currency of a supported locale is the code of the first
      entry listing it, so English gets dollars rather than pounds and French
      euros rather than Canadian dollars. */
  lemma DefaultCurrencyEn()
    ensures GetDefaultCurrency("en") == "USD"
  {
    TableShape();
  }

  lemma DefaultCurrencyFr()
    ensures GetDefaultCurrency("fr") == "EUR"
  {
    TableShape();
  }

  lemma DefaultCurrencyAr()
    ensures GetDefaultCurrency("ar") == "AED"
  {
    assert Late: forall j :: 0 <= j < 10 ==> "ar" !in Currencies[j].locales by {
      ArabicListedLate();
    }
    assert Dirham: "ar" in Currencies[10].locales && Currencies[10].code == "AED" by {
      TableShape();
    }
    DefaultIsFirstListing("ar", 10);
  }

  /** The default currency is the code of the first entry listing the
      locale. */
  lemma DefaultIsFirstListing(locale: Locale, i: nat)
    requires i < |Currencies| && locale in Currencies[i].locales
    requires forall j :: 0 <= j < i ==> locale !in Currencies[j].locales
    ensures GetDefaultCurrency(locale) == Currencies[i].code
  {
  }

  /** No entry before the dirham lists Arabic. */
  lemma ArabicListedLate()
    ensures forall j :: 0 <= j < 10 ==> "ar" !in Currencies[j].locales
  {
    TableShape();
    forall j | 0 <= j < 10
      ensures "ar" !in Currencies[j].locales
    {
      if j == 0 || j == 2 || j == 5 || j == 7 {
        assert Currencies[j].locales == ["en"];
      } else if j == 1 || j == 8 {
        assert Currencies[j].locales[0] != "ar";
      } else {
        assert Currencies[j].locales[0] != "ar";
      }
    }
  }

  /** A locale the table does not know falls back to dollars. */
  lemma UnknownLocaleFallsBack(locale: Locale)
    requires locale !in Locales
    ensures GetDefaultCurrency(locale) == "USD"
  {
    forall i | 0 <= i < |Currencies|
      ensures locale !in Currencies[i].locales
    {
      TableLocalesSupported(i);
    }
  }

  /** Every locale the table lists is a supported one. */
  lemma TableLocalesSupported(i: nat)
    requires i < |Currencies|
    ensures forall l <- Currencies[i].locales :: l in Locales
  {
    TableShape();
  }

  /** The user's preferred locale. `language` is the browser's language tag,
      `None` when there is no browser: the primary subtag (the text before
      the first '-') when it is a supported locale, otherwise the default. */
  function DetectLocale(language: Option<string>): (r: Locale)
    ensures r in Locales
    ensures language.None? ==> r == DefaultLocale
    ensures language.Some? && Text.Split(language.value, '-')[0] in Locales
            ==> r == Text.Split(language.value, '-')[0]
    ensures language.Some? && Text.Split(language.value, '-')[0] !in Locales ==> r == DefaultLocale
  {
    match language
    case None => DefaultLocale
    case Some(tag) =>
      var primary := Text.Split(tag, '-')[0];
      if primary in Locales then primary else DefaultLocale
  }

  /** A regional tag of a supported locale, such as "pt-BR", detects that
      locale; a bare supported locale detects itself. */
  lemma DetectRegional(locale: Locale, region: string)
    requires locale in Locales
    ensures DetectLocale(Some(locale + "-" + region)) == locale
    ensures DetectLocale(Some(locale)) == locale
  {
    assert '-' !in locale;
    Text.SplitLine(locale, region, '-');
    Text.SplitSingle(locale, '-');
  }
}
