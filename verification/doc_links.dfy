/**
 The documentation locator (`getDocLink`): a locale code selects a localized
 wallet guide, and any other code gets the default one.
 */
module DocLinks {

  import opened Wrappers

  /** The locale codes with a localized guide, and the path segment of each. */
  const LangCodes: map<string, string> := map[
    "it" := "italian",
    "ja" := "japanese",
    "fr" := "french",
    "tr" := "turkish",
    "vi" := "vietnamese",
    "id" := "indonesian",
    "zh-cn" := "chinese",
    "pt-br" := "portuguese-brazilian"
  ]

  const Site: string := "https://docs.pancakeswap.finance/"
  const Versioned: string := "v/"
  const Guide: string := "get-started/wallet-guide"

  /** The guide without a language segment. */
  const DefaultLink: string := Site + Guide

  predicate StartsWith(s: string, prefix: string) {
    |prefix| <= |s| && s[..|prefix|] == prefix
  }

  predicate EndsWith(s: string, suffix: string) {
    |suffix| <= |s| && s[|s| - |suffix|..] == suffix
  }

  /** The localized guide for one language segment. */
  function LocalizedLink(lang: string): (url: string)
    ensures StartsWith(url, Site + Versioned)
    ensures EndsWith(url, "/" + Guide)
  {
    Site + Versioned + lang + "/" + Guide
  }

  /**
   The lookup is a truthiness test on the mapped segment, so a code mapped to
   an empty segment would fall back to the default; no code is.
   */
  function DocLink(code: string): (url: string)
    ensures StartsWith(url, Site)
    ensures EndsWith(url, "/" + Guide)
    ensures code !in LangCodes ==> url == DefaultLink
  {
    if code in LangCodes && LangCodes[code] != "" then LocalizedLink(LangCodes[code]) else DefaultLink
  }

  /**
   Reads the language segment back out of a guide link: `Some` of the
   segment for a localized link, `None` for any other string.
   */
  function LanguageOf(url: string): (lang: Option<string>)
    ensures lang.Some? ==> url == LocalizedLink(lang.value)
  {
    var head := Site + Versioned;
    var tail := "/" + Guide;
    if |head| + |tail| <= |url| && url[..|head|] == head && url[|url| - |tail|..] == tail then
      var lang := url[|head|..|url| - |tail|];
      assert url == head + lang + tail;
      Some(lang)
    else
      None
  }

  lemma MappedSegmentsNonEmpty()
    ensures forall code :: code in LangCodes ==> LangCodes[code] != ""
  {
  }

  /** Distinct codes map to distinct segments. */
  lemma MappedSegmentsDistinct()
    ensures forall a, b :: a in LangCodes && b in LangCodes && a != b ==> LangCodes[a] != LangCodes[b]
  {
  }

  lemma {:induction false} LocalizedLinkRoundTrip(lang: string)
    ensures LanguageOf(LocalizedLink(lang)) == Some(lang)
  {
    var head := Site + Versioned;
    var tail := "/" + Guide;
    var url := LocalizedLink(lang);
    assert url == head + lang + tail;
    assert url[..|head|] == head;
    assert url[|url| - |tail|..] == tail;
    assert url[|head|..|url| - |tail|] == lang;
  }

  lemma DefaultLinkHasNoLanguage()
    ensures LanguageOf(DefaultLink) == None
  {
  }

  /**
   The link names the mapped segment for a mapped code and no segment for
   any other code, so the language can be recovered from the link.
   */
  lemma {:induction false} DocLinkRoundTrip(code: string)
    ensures LanguageOf(DocLink(code)) == (if code in LangCodes then Some(LangCodes[code]) else None)
  {
    MappedSegmentsNonEmpty();
    if code in LangCodes {
      LocalizedLinkRoundTrip(LangCodes[code]);
    } else {
      DefaultLinkHasNoLanguage();
    }
  }

  /** Distinct mapped codes give distinct links, and none of them is the default. */
  lemma {:induction false} DocLinkDistinguishesCodes(a: string, b: string)
    requires a in LangCodes && b in LangCodes && a != b
    ensures DocLink(a) != DocLink(b)
    ensures DocLink(a) != DefaultLink
  {
    DocLinkRoundTrip(a);
    DocLinkRoundTrip(b);
    DefaultLinkHasNoLanguage();
    MappedSegmentsDistinct();
  }

  /** French maps to its segment; an unknown code gets the default guide. */
  lemma DocLinkExamples()
    ensures LanguageOf(DocLink("fr")) == Some("french")
    ensures DocLink("xx") == DefaultLink
  {
    assert "fr" in LangCodes;
    assert LangCodes["fr"] == "french";
    DocLinkRoundTrip("fr");
  }
}
