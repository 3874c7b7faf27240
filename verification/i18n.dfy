/** Localisation (src/i18n.ts): the table of supported locales, the loaded
    message catalogs, the `{lang}` storage record, message lookup with the
    English fallback and placeholder substitution, and the normalisation of the
    browser's UI language to a supported locale.

    The browser collaborators are parameters: `fetch` of a locale file (its
    `getURL` prefix folded in) and the UI language string. */
module I18n {
  import opened Wrappers
  import opened Js
  import Placeholders

  type Locale = string

  /** `supportedLocales`: locale code to display name. */
  const SupportedLocales: map<Locale, string> := map[
    "en" := "English",
    "de" := "German",
    "ru" := "Russian",
    "sr" := "Serbian",
    "zh_TW" := "Chinese (Taiwan)"
  ]

  /** The locale every lookup falls back to, and the last resort of the normalisation. */
  const FallbackLocale: Locale := "en"

  /** `supportedLocales[lang]` is truthy. */
  predicate IsSupported(lang: string) {
    lang in SupportedLocales && SupportedLocales[lang] != ""
  }

  /** One locale's `messages.json`: message key to its `message` text. */
  type Messages = map<string, string>

  /** The loaded catalogs (`messages`), by locale. */
  type Catalog = map<Locale, Messages>

  /** The `{lang}` record of the "i18n" storage, beside the loaded catalogs. */
  datatype State = State(lang: Locale, messages: Catalog)

  /** `getLocale()` */
  function GetLocale(st: State): Locale {
    st.lang
  }

  /** `messages.get(lang)?.[key]?.message` */
  function LookupMessage(catalog: Catalog, lang: Locale, key: string): Option<string> {
    if lang in catalog && key in catalog[lang] then Some(catalog[lang][key]) else None
  }

  /** A looked-up message JavaScript treats as true: present and not the empty string. */
  predicate IsTruthy(m: Option<string>) {
    m.Some? && m.value != ""
  }

  /** `current || english`: the current locale's message unless it is missing or empty. */
  function FindMessage(st: State, key: string): Option<string> {
    var current := LookupMessage(st.messages, GetLocale(st), key);
    if IsTruthy(current) then current else LookupMessage(st.messages, FallbackLocale, key)
  }

  /** `getMessage(key, placeholders?)`, with placeholder values restricted to strings. */
  function GetMessage(st: State, key: string, placeholders: Option<map<string, string>>): (r: string)
    ensures var current := LookupMessage(st.messages, st.lang, key);
            var english := LookupMessage(st.messages, FallbackLocale, key);
            && (!IsTruthy(current) && !IsTruthy(english) ==> r == "[" + key + "]")
            && (IsTruthy(current) && placeholders.None? ==> r == current.value)
            && (!IsTruthy(current) && IsTruthy(english) && placeholders.None? ==> r == english.value)
            && (IsTruthy(current) && placeholders.Some? ==>
                  r == Placeholders.Substitute(current.value, placeholders.value))
            && (!IsTruthy(current) && IsTruthy(english) && placeholders.Some? ==>
                  r == Placeholders.Substitute(english.value, placeholders.value))
  {
    var message := FindMessage(st, key);
    if !IsTruthy(message) then "[" + key + "]"
    else if placeholders.Some? then Placeholders.Substitute(message.value, placeholders.value)
    else message.value
  }

  /** A non-empty message of the current locale wins: the English catalog is not consulted. */
  lemma CurrentLocaleWins(st: State, st': State, key: string, placeholders: Option<map<string, string>>)
    requires IsTruthy(LookupMessage(st.messages, st.lang, key))
    requires st'.lang == st.lang && st.lang in st'.messages
    requires st'.messages[st.lang] == st.messages[st.lang]
    ensures GetMessage(st', key, placeholders) == GetMessage(st, key, placeholders)
  {
  }

  /** When the current locale has no non-empty message, the answer is English's. */
  lemma FallbackIsEnglish(st: State, key: string, placeholders: Option<map<string, string>>)
    requires !IsTruthy(LookupMessage(st.messages, st.lang, key))
    ensures GetMessage(st, key, placeholders) == GetMessage(st.(lang := FallbackLocale), key, placeholders)
  {
  }

  /** The file `loadMessages` fetches for a locale, relative to the extension root. */
  function LocaleFile(lang: Locale): string {
    "_locales/" + lang + "/messages.json"
  }

  /** The guard of `loadMessages`: not loaded yet, and supported. */
  predicate ShouldLoad(catalog: Catalog, lang: Locale) {
    lang !in catalog && IsSupported(lang)
  }

  /** `loadMessages(lang)`: a failed fetch or parse is logged and changes nothing. */
  function LoadMessages(catalog: Catalog, lang: Locale, fetch: string -> Outcome<Messages>): (r: Catalog)
    ensures !ShouldLoad(catalog, lang) ==> r == catalog
    ensures fetch(LocaleFile(lang)).Threw? ==> r == catalog
    ensures ShouldLoad(catalog, lang) && fetch(LocaleFile(lang)).Done? ==>
              r == catalog[lang := fetch(LocaleFile(lang)).value]
  {
    if !ShouldLoad(catalog, lang) then catalog
    else match fetch(LocaleFile(lang))
      case Done(data) => catalog[lang := data]
      case Threw(_) => catalog
  }

  /** Loading only ever adds a catalog: nothing loaded is replaced or dropped,
      and only `lang` can be added. */
  lemma LoadMessagesOnlyAdds(catalog: Catalog, lang: Locale, fetch: string -> Outcome<Messages>)
    ensures var r := LoadMessages(catalog, lang, fetch);
            && (forall l :: l in catalog ==> l in r && r[l] == catalog[l])
            && r.Keys <= catalog.Keys + {lang}
  {
  }

  /** The locale is loaded afterwards exactly when it already was, or it is supported and
      its file was fetched; a second load is then skipped, whatever that fetch would give. */
  lemma LoadMessagesIdempotent(catalog: Catalog, lang: Locale, f: string -> Outcome<Messages>, g: string -> Outcome<Messages>)
    ensures var r := LoadMessages(catalog, lang, f);
            lang in r <==> lang in catalog || (IsSupported(lang) && f(LocaleFile(lang)).Done?)
    ensures var r := LoadMessages(catalog, lang, f);
            lang in r ==> LoadMessages(r, lang, g) == r
  {
  }

  /** `setLocale(lang)`: preload the catalog, then `storage.merge({lang})`. */
  function SetLocale(st: State, lang: Locale, fetch: string -> Outcome<Messages>): (r: State)
    ensures GetLocale(r) == lang
    ensures r.messages == LoadMessages(st.messages, lang, fetch)
  {
    State(lang, LoadMessages(st.messages, lang, fetch))
  }

  /** The locale is stored even when it is unsupported or its catalog failed to load;
      once its catalog is loaded, lookups use it first. */
  lemma SetLocaleStoresAnyLocale(st: State, lang: Locale, fetch: string -> Outcome<Messages>, key: string)
    ensures GetLocale(SetLocale(st, lang, fetch)) == lang
    ensures !IsSupported(lang) ==> SetLocale(st, lang, fetch).messages == st.messages
    ensures IsSupported(lang) && lang !in st.messages && fetch(LocaleFile(lang)).Done? ==>
              LookupMessage(SetLocale(st, lang, fetch).messages, lang, key)
                == (if key in fetch(LocaleFile(lang)).value then Some(fetch(LocaleFile(lang)).value[key]) else None)
  {
  }

  /** `i18nInit()`: load English, then the stored locale. */
  function Init(st: State, fetch: string -> Outcome<Messages>): (r: State)
    ensures r.lang == st.lang
    ensures fetch(LocaleFile(FallbackLocale)).Done? ==> FallbackLocale in r.messages
    ensures IsSupported(st.lang) && fetch(LocaleFile(st.lang)).Done? ==> st.lang in r.messages
    ensures forall l :: l in st.messages ==> l in r.messages && r.messages[l] == st.messages[l]
    ensures r.messages.Keys <= st.messages.Keys + {FallbackLocale, st.lang}
    ensures forall l :: l in r.messages && l !in st.messages ==>
              fetch(LocaleFile(l)).Done? && r.messages[l] == fetch(LocaleFile(l)).value
    ensures forall l :: l in r.messages && l !in st.messages ==> IsSupported(l)
  {
    LoadMessagesOnlyAdds(st.messages, FallbackLocale, fetch);
    var withEnglish := LoadMessages(st.messages, FallbackLocale, fetch);
    LoadMessagesOnlyAdds(withEnglish, st.lang, fetch);
    st.(messages := LoadMessages(withEnglish, GetLocale(st), fetch))
  }

  // ---- Normalising the UI language ----

  /** The separator `sep` occurs in s at index i. */
  predicate OccursAt(s: string, sep: string, i: nat) {
    i + |sep| <= |s| && s[i..i + |sep|] == sep
  }

  /** The first index at or after i where `sep` occurs, or |s| if none. */
  function FindFrom(s: string, sep: string, i: nat): (k: nat)
    requires i <= |s|
    decreases |s| - i
    ensures i <= k <= |s|
    ensures forall m :: i <= m < k ==> !OccursAt(s, sep, m)
    ensures k < |s| ==> OccursAt(s, sep, k)
  {
    if i == |s| then |s|
    else if OccursAt(s, sep, i) then i
    else FindFrom(s, sep, i + 1)
  }

  /** `s.split(sep)[0]` for a non-empty literal separator: the text before its first occurrence. */
  function FirstChunk(s: string, sep: string): (r: string)
    requires |sep| > 0
    ensures r <= s
    ensures forall m :: 0 <= m < |r| ==> !OccursAt(s, sep, m)
    ensures |r| < |s| ==> OccursAt(s, sep, |r|)
  {
    s[..FindFrom(s, sep, 0)]
  }

  /** The separator of `locale.split(/_-/)`: the two characters "_-" together. */
  const LocaleSeparator: string := "_-"

  /** `getSystemLocale()`, given `chrome.i18n.getUILanguage()`. */
  function GetSystemLocale(uiLanguage: string): (r: Locale)
    ensures IsSupported(r)
    ensures IsSupported(uiLanguage) ==> r == uiLanguage
  {
    if IsSupported(uiLanguage) then uiLanguage
    else
      var lang := FirstChunk(uiLanguage, LocaleSeparator);
      if IsSupported(lang) then lang else FallbackLocale
  }

  /** The supported locales whose code contains no `_` or `-`. */
  predicate IsPlainLanguage(l: Locale) {
    IsSupported(l) && forall i :: 0 <= i < |l| ==> !IsSubtagSeparator(l[i])
  }

  /** The plain languages of the table are its two-letter codes. */
  lemma PlainLanguageHasTwoLetters(l: Locale)
    requires IsPlainLanguage(l)
    ensures |l| == 2
  {
    if l == "zh_TW" {
      assert IsSubtagSeparator(l[2]);
    }
  }

  /** The text is cut only where "_-" occurs: a plain language followed by "_-" is kept. */
  lemma SystemLocaleCutsAtUnderscoreDash(l: Locale, rest: string)
    requires IsPlainLanguage(l)
    ensures GetSystemLocale(l + LocaleSeparator + rest) == l
  {
    PlainLanguageHasTwoLetters(l);
    var s := l + LocaleSeparator + rest;
    assert s[0..2] == l;
    assert s[1..3] == [l[1], '_'];
    assert s[2..4] == LocaleSeparator;
    assert FindFrom(s, LocaleSeparator, 2) == 2;
    assert FindFrom(s, LocaleSeparator, 0) == 2;
    assert !IsSupported(s) by {
      assert |s| >= 4;
      assert s[0] == l[0];
    }
  }

  lemma SeparatorNeedsBoth(s: string, m: nat)
    requires m + 2 <= |s|
    requires !(s[m] == '_' && s[m + 1] == '-')
    ensures !OccursAt(s, LocaleSeparator, m)
  {
    assert s[m..m + 2][0] == s[m] && s[m..m + 2][1] == s[m + 1];
  }

  /** An unsupported tag without "_-" always normalises to English. */
  lemma SystemLocaleWithoutSeparator(uiLanguage: string)
    requires !IsSupported(uiLanguage)
    requires forall i :: 0 <= i < |uiLanguage| - 1 ==> !(uiLanguage[i] == '_' && uiLanguage[i + 1] == '-')
    ensures GetSystemLocale(uiLanguage) == FallbackLocale
  {
    var r := FirstChunk(uiLanguage, LocaleSeparator);
    if |r| < |uiLanguage| {
      SeparatorNeedsBoth(uiLanguage, |r|);
      assert false;
    }
    assert r == uiLanguage;
  }

  /** A region tag written with `-` or `_` alone is not cut: "de-DE" and "de_AT" give English. */
  lemma SystemLocaleRegionTagFallsBack()
    ensures GetSystemLocale("de-DE") == FallbackLocale
    ensures GetSystemLocale("de_AT") == FallbackLocale
    ensures GetSystemLocale("zh_TW") == "zh_TW"
  {
    SystemLocaleWithoutSeparator("de-DE");
    SystemLocaleWithoutSeparator("de_AT");
  }

  // ---- The evidently intended normalisation: cut at the first `_` or `-` ----

  predicate IsSubtagSeparator(c: char) {
    c == '_' || c == '-'
  }

  /** The first index at or after i holding `_` or `-`, or |s| if none. */
  function FindSubtagEnd(s: string, i: nat): (k: nat)
    requires i <= |s|
    decreases |s| - i
    ensures i <= k <= |s|
    ensures forall m :: i <= m < k ==> !IsSubtagSeparator(s[m])
    ensures k < |s| ==> IsSubtagSeparator(s[k])
  {
    if i == |s| then |s|
    else if IsSubtagSeparator(s[i]) then i
    else FindSubtagEnd(s, i + 1)
  }

  /** `locale.split(/[_-]/)[0]`: the primary language subtag. */
  function PrimarySubtag(s: string): (r: string)
    ensures r <= s
    ensures forall m :: 0 <= m < |r| ==> !IsSubtagSeparator(s[m])
    ensures |r| < |s| ==> IsSubtagSeparator(s[|r|])
  {
    s[..FindSubtagEnd(s, 0)]
  }

  /** `getSystemLocale()` with the split at the first `_` or `-`, as the comment beside it intends. */
  function GetSystemLocaleBySubtag(uiLanguage: string): (r: Locale)
    ensures IsSupported(r)
    ensures IsSupported(uiLanguage) ==> r == uiLanguage
  {
    if IsSupported(uiLanguage) then uiLanguage
    else
      var lang := PrimarySubtag(uiLanguage);
      if IsSupported(lang) then lang else FallbackLocale
  }

  /** A plain language followed by a region, with either separator, normalises to the language. */
  lemma SubtagLocaleKeepsLanguage(l: Locale, sep: char, rest: string)
    requires IsPlainLanguage(l)
    requires IsSubtagSeparator(sep)
    ensures GetSystemLocaleBySubtag(l + [sep] + rest) == l
  {
    PlainLanguageHasTwoLetters(l);
    var s := l + [sep] + rest;
    assert s[0] == l[0] && s[1] == l[1] && s[2] == sep;
    assert FindSubtagEnd(s, 2) == 2;
    assert FindSubtagEnd(s, 0) == 2;
    assert s[..2] == l;
    assert !IsSupported(s) by {
      assert |s| >= 3;
    }
  }

  lemma SubtagLocaleRegionTag()
    ensures GetSystemLocaleBySubtag("de-DE") == "de"
    ensures GetSystemLocaleBySubtag("de_AT") == "de"
  {
    SubtagLocaleKeepsLanguage("de", '-', "DE");
    assert "de" + ['-'] + "DE" == "de-DE";
    SubtagLocaleKeepsLanguage("de", '_', "AT");
    assert "de" + ['_'] + "AT" == "de_AT";
  }
}
