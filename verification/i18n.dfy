/**
 * Choosing the name and the description of a shop to display for the
 * interface language: the field for that language when it is filled in,
 * otherwise a fixed fallback order.
 */
module I18n {
  import opened Wrappers
  import opened Text
  import opened Js

  /** The name and detail fields a shop or a review may carry; each may be missing. */
  datatype Named = Named(
    shopName: Option<string>,
    shopNameKo: Option<string>,
    shopNameEn: Option<string>,
    shopNameJp: Option<string>,
    establishmentName: Option<string>,
    detailKo: Option<string>,
    detailEn: Option<string>,
    detailJp: Option<string>)

  /** `a || b || … || ''`: the first filled-in value. */
  function FirstFilled(values: seq<Option<string>>): (r: string)
    ensures r == "" || exists i :: 0 <= i < |values| && values[i] == Some(r)
    ensures r != "" <==> exists i :: 0 <= i < |values| && NonEmpty(values[i])
    ensures forall i :: 0 <= i < |values| && NonEmpty(values[i]) && (forall j :: 0 <= j < i ==> !NonEmpty(values[j])) ==> r == values[i].value
  {
    if values == [] then ""
    else if NonEmpty(values[0]) then values[0].value
    else FirstFilled(values[1..])
  }

  /** Which of the three localized fields the language selects, by its lower-cased prefix. */
  datatype Locale = Korean | English | Japanese | OtherLocale

  function LocaleOf(language: string): Locale {
    var lang := ToLowerAscii(language);
    if StartsWith(lang, "ko") then Korean
    else if StartsWith(lang, "en") then English
    else if StartsWith(lang, "ja") then Japanese
    else OtherLocale
  }

  /** The field of `item` that `locale` prefers among `ko`, `en`, `ja`. */
  function Preferred(locale: Locale, ko: Option<string>, en: Option<string>, ja: Option<string>): Option<string> {
    match locale
    case Korean => ko
    case English => en
    case Japanese => ja
    case OtherLocale => None
  }

  /**
   * `getLocalizedShopName`: no item gives ''; otherwise the language's own
   * name field when it is filled in, else the first filled-in of shopName,
   * shopNameKo, shopNameEn, shopNameJp, establishmentName, else ''.
   */
  function LocalizedShopName(item: Option<Named>, language: string): (r: string)
    ensures item.None? ==> r == ""
    ensures item.Some? ==>
      var n := item.value;
      var own := Preferred(LocaleOf(language), n.shopNameKo, n.shopNameEn, n.shopNameJp);
      && (NonEmpty(own) ==> r == own.value)
      && (!NonEmpty(own) ==> r == FirstFilled([n.shopName, n.shopNameKo, n.shopNameEn, n.shopNameJp, n.establishmentName]))
  {
    match item
    case None => ""
    case Some(n) =>
      var own := Preferred(LocaleOf(language), n.shopNameKo, n.shopNameEn, n.shopNameJp);
      if NonEmpty(own) then own.value
      else
        var fallback := [n.shopName, n.shopNameKo, n.shopNameEn, n.shopNameJp, n.establishmentName];
        RepeatedFallbackIsRedundant(fallback, n.shopName);
        FirstFilled(fallback + [n.shopName])
  }

  /** Trying a value a second time at the end of the fallback list changes nothing. */
  lemma {:induction false} RepeatedFallbackIsRedundant(values: seq<Option<string>>, v: Option<string>)
    requires v in values
    ensures FirstFilled(values + [v]) == FirstFilled(values)
  {
    assert (values + [v])[0] == values[0];
    if !NonEmpty(values[0]) {
      assert (values + [v])[1..] == values[1..] + [v];
      if v in values[1..] {
        RepeatedFallbackIsRedundant(values[1..], v);
      } else {
        assert v == values[0];
        AppendUnfilled(values[1..], v);
      }
    }
  }

  lemma {:induction false} AppendUnfilled(values: seq<Option<string>>, v: Option<string>)
    requires !NonEmpty(v)
    ensures FirstFilled(values + [v]) == FirstFilled(values)
  {
    if values != [] {
      assert (values + [v])[1..] == values[1..] + [v];
      AppendUnfilled(values[1..], v);
    }
  }

  /**
   * `getLocalizedShopDetail`: the same rule over detailKo, detailEn and
   * detailJp, with that fallback order.
   */
  function LocalizedShopDetail(item: Option<Named>, language: string): (r: string)
    ensures item.None? ==> r == ""
    ensures item.Some? ==>
      var n := item.value;
      var own := Preferred(LocaleOf(language), n.detailKo, n.detailEn, n.detailJp);
      && (NonEmpty(own) ==> r == own.value)
      && (!NonEmpty(own) ==> r == FirstFilled([n.detailKo, n.detailEn, n.detailJp]))
  {
    match item
    case None => ""
    case Some(n) =>
      var own := Preferred(LocaleOf(language), n.detailKo, n.detailEn, n.detailJp);
      if NonEmpty(own) then own.value
      else FirstFilled([n.detailKo, n.detailEn, n.detailJp])
  }

  /** The name and the detail shown are always one of the item's own fields, or ''. */
  lemma LocalizedTextIsOwnField(item: Named, language: string)
    ensures var r := LocalizedShopName(Some(item), language);
      r == "" || Some(r) in [item.shopName, item.shopNameKo, item.shopNameEn, item.shopNameJp, item.establishmentName]
    ensures var r := LocalizedShopDetail(Some(item), language);
      r == "" || Some(r) in [item.detailKo, item.detailEn, item.detailJp]
  {
  }

  /** The language is matched case-insensitively: "EN-us" selects the English name. */
  lemma LanguageCaseIgnored(item: Named)
    requires NonEmpty(item.shopNameEn)
    ensures LocalizedShopName(Some(item), "EN-us") == item.shopNameEn.value
  {
    assert ToLowerAscii("EN-us") == "en-us";
  }

  /** Only the language's ASCII case is ignored: lower-casing it first selects the same locale. */
  lemma LocaleIgnoresCase(language: string)
    ensures LocaleOf(ToLowerAscii(language)) == LocaleOf(language)
  {
    LowerTwice(language);
  }
}
