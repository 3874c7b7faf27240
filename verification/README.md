# XTranslate core logic in Dafny

XTranslate is a browser extension that translates text on web pages. This
project models the parts of it that decide things, with the browser, storage
and network taken out. Those parts are:

- **Localisation** (`src/i18n.ts`):
  - the table of supported UI locales;
  - the loaded message catalogs;
  - `getMessage`, which falls back from the current locale to English, shows
    `[key]` when a key is missing, and substitutes `%name%` placeholders;
  - the `loadMessages` guard and its failure handling;
  - `setLocale`, `getLocale` and `i18nInit`;
  - `getSystemLocale`, which turns the browser's UI language into a supported
    locale.
- **Background service worker** (`src/background/background.ts`):
  - the install hook;
  - the PROXY_REQUEST network proxy and the reply envelope it always sends;
  - the GET_FROM_HISTORY lookup;
  - the SAVE_TO_HISTORY handler, which logs and swallows its errors.
- **Language selector** (`src/components/select-language/select-language.tsx`):
  - the language pair shown, where props override settings;
  - the source and target option lists, in which the other side's language is
    disabled;
  - the swap and change actions;
  - the language-to-flag icon map.
- **Theme fonts** (`src/components/theme-manager/theme.storage.ts`):
  - the available fonts and the default font family;
  - `getFont`;
  - the `loadFont` rule that skips a family already in the document.

Code in the extension that talks to the outside world, or lives in files
outside this model, becomes a parameter:

- Collaborators that can throw return either a value or the thrown error
  (`Js.Outcome`). These are `fetch`, `parseJson`, `response.text()`,
  `response.blob()`, `blobToBase64`, `loadHistory`, `generateId`,
  `toStorageItem` and `toTranslationResult`.
- Three collaborators are plain total functions:
  - `importHistory` (see Left out);
  - `getTranslator`, which only reads the vendor's language tables;
  - the font loader, given as `(family, path) -> bool`: true when the new face
    loads, false when `font.load()` throws.
- Plain values are taken as inputs: the UI language string, the current time
  and the faces already in the document.

Handlers become pure functions: from the message and those outcomes to the
replies they send or the state they leave.

Modules:

- `Wrappers`: `Option`.
- `Js`: the JSON values, thrown values and outcomes that cross the extension's
  boundaries.
- `Placeholders`: JavaScript's `split(/%(.*?)%/)` and the substitution built on
  it.
- `I18n`, `Background`, `SelectLanguage`, `Theme`: one module per source file.

Where the code and its surrounding documentation differ, the model follows the
code:

- GET_FROM_HISTORY sends no reply at all when the history fails to load.
- A lookup miss hands `undefined` to the result converter. It is not a
  separate "no result" reply.
- `getSystemLocale` cuts the UI language at the two-character sequence `_-`,
  not at `_` or `-`; see Findings.

## Model

| member | source | states |
|---|---|---|
| Placeholders.CloseFrom | src/i18n.ts:60 | the lazy `(.*?)%` closes at the first `%` after its start and never crosses a line terminator; no result means no such `%` exists |
| Placeholders.MatchAt | src/i18n.ts:60 | a match of `/%(.*?)%/` at a given index exists exactly when the result names its closing `%` |
| Placeholders.FirstMatch | src/i18n.ts:60 | the leftmost match at or after an index, with no match starting before it; no result means no match anywhere after the index |
| Placeholders.Split | src/i18n.ts:60 | `split` with one capturing group gives an odd number of chunks, and every captured chunk holds no `%` and no line terminator |
| Placeholders.ReassembleSplit | src/i18n.ts:60 | splitting loses nothing: putting the removed `%` back around the captured chunks rebuilds the message |
| Placeholders.SplitFewMarks | src/i18n.ts:60 | a message with fewer than two `%` is one chunk |
| Placeholders.SplitCons | src/i18n.ts:60 | `a%name%rest`, with no `%` in `a`, splits into `a`, `name`, then the split of `rest` |
| Placeholders.SubstituteFewMarks | src/i18n.ts:59-65 | with fewer than two `%`, substitution returns the message itself, or its own entry when the message is a placeholder key |
| Placeholders.SubstitutePlaceholder | src/i18n.ts:59-65 | a leading `%name%` becomes `placeholders[name]`, or the bare name when it has no entry; the literal before it is looked up too (`?? chunk`) |
| Placeholders.SplitRender | src/i18n.ts:60 | a message written from literals without `%` and names without `%` or line breaks splits into exactly those literals and names |
| I18n.GetMessage | src/i18n.ts:49-69 | a missing or empty message in both locales gives `[key]`; otherwise the current locale's non-empty message wins over English's; without placeholders the message is returned as it is, with them it is substituted |
| I18n.CurrentLocaleWins | src/i18n.ts:50-52 | when the current locale has a non-empty message, nothing in the English catalog changes the answer |
| I18n.FallbackIsEnglish | src/i18n.ts:50-56 | when the current locale's message is missing or empty, the answer is the one the English locale gives |
| I18n.LoadMessages | src/i18n.ts:34-45 | an already loaded or unsupported locale is skipped; a failed fetch or parse changes nothing; a successful one stores the parsed catalog from `_locales/<lang>/messages.json` under that locale and keeps the others |
| I18n.LoadMessagesOnlyAdds | src/i18n.ts:34-45 | loading never replaces or drops a loaded catalog, and adds at most the requested locale |
| I18n.LoadMessagesIdempotent | src/i18n.ts:35-41 | the locale is loaded afterwards exactly when it already was, or it is supported and the fetch succeeded; once loaded, loading again changes nothing whatever the network does |
| I18n.SetLocale | src/i18n.ts:71-78 | afterwards `getLocale` returns the new locale, and the catalogs are those `loadMessages` leaves |
| I18n.SetLocaleStoresAnyLocale | src/i18n.ts:71-74 | the locale is stored even when unsupported or when its catalog fails to load; an unsupported locale loads nothing |
| I18n.Init | src/i18n.ts:88-92 | the stored locale is unchanged; English is loaded if its fetch succeeds; the stored locale is loaded if supported and fetched; nothing loaded before is lost; no locale other than English and the stored one is added, and every newly added catalog is the one fetched for it; an unsupported stored locale is not loaded |
| I18n.FindFrom | src/i18n.ts:84 | the first occurrence of the separator at or after an index, or the end of the string |
| I18n.FirstChunk | src/i18n.ts:84 | `split(sep)[0]` is the prefix before the first occurrence of the separator, or the whole string |
| I18n.GetSystemLocale | src/i18n.ts:80-86 | the result is always a supported locale, and a supported UI language is returned unchanged |
| I18n.SystemLocaleCutsAtUnderscoreDash | src/i18n.ts:84-85 | a plain language code followed by `_-` and anything else normalises to that language |
| I18n.SystemLocaleWithoutSeparator | src/i18n.ts:82-85 | an unsupported UI language containing no `_-` always normalises to English |
| I18n.SystemLocaleRegionTagFallsBack | src/i18n.ts:84-85 | "de-DE" and "de_AT" normalise to English, not German; "zh_TW" is kept |
| I18n.FindSubtagEnd | src/i18n.ts:84 | the first `_` or `-` at or after an index, or the end of the string |
| I18n.PrimarySubtag | src/i18n.ts:84 | `split(/[_-]/)[0]` is the prefix before the first `_` or `-` |
| I18n.GetSystemLocaleBySubtag | src/i18n.ts:80-86 | the corrected normalisation also always gives a supported locale and keeps a supported UI language |
| I18n.SubtagLocaleKeepsLanguage | src/i18n.ts:84-85 | with the corrected cut, a plain language code followed by `_` or `-` and a region normalises to the language |
| I18n.SubtagLocaleRegionTag | src/i18n.ts:84-85 | with the corrected cut, "de-DE" and "de_AT" normalise to "de" |
| Background.OnInstall | src/background/background.ts:19-24 | the options page opens exactly on a fresh install or outside production, and then the rate timestamp is set to now; otherwise the timestamp is untouched |
| Background.InstallOnlyOnFreshInstall | src/background/background.ts:19-24 | in production any reason other than "install" leaves everything unchanged; outside production every reason acts like a fresh install |
| Background.ConvertBody | src/background/background.ts:41-54 | JSON yields the parsed body, text yields the body text, and data-URI yields the base64 encoding of the blob; a throw of any of these steps is passed on; a response type with no case leaves the data unset |
| Background.NormaliseError | src/background/background.ts:57 | the reply's error is always an object: a plain-object error is kept field for field, anything else becomes `{message: String(error)}` |
| Background.ProxyRequest | src/background/background.ts:29-67 | exactly one reply is sent, carrying the message id and the url; the error is set exactly when the fetch or the body conversion threw; data and error are never both set; after a successful fetch and conversion, data is exactly the conversion's result; the error is the normalised throw of the fetch or of the conversion |
| Background.ProxyJsonSuccess | src/background/background.ts:40-44 | a JSON request whose fetch and parse succeed replies with exactly the parsed body and no error |
| Background.ProxyText | src/background/background.ts:46-58 | a text request to a reachable URL replies with the body text, or with the normalised error when reading the text throws |
| Background.ProxyFetchFailure | src/background/background.ts:38-58 | a failed fetch replies with no data and the normalised error, whatever the response type |
| Background.ProxyUnlistedType | src/background/background.ts:40-54 | a response type outside the switch replies with neither data nor error once the fetch succeeds |
| Background.ProxyDataUri | src/background/background.ts:50-58 | a data-URI request reports an error when reading the blob or encoding it throws, and otherwise replies with the encoded string |
| Background.StoredItem | src/background/background.ts:91 | the optional-chained lookup is undefined exactly when the id or the vendor is missing, and otherwise is the stored item |
| Background.GetFromHistory | src/background/background.ts:86-96 | at most one reply; no reply when loading the history or `generateId` throws; otherwise a reply is sent exactly when the converter completes, and it is the converter's value for the slot of `generateId(text, from, to)` and the vendor |
| Background.LookupReadsOnlyItsSlot | src/background/background.ts:89-92 | two history documents that agree on the looked-up slot give the same replies |
| Background.OtherSlotsDoNotMatter | src/background/background.ts:91 | writing a slot for another id or another vendor leaves a lookup's slot as it was |
| Background.LookupMiss | src/background/background.ts:89-92 | a missing id or vendor is a normal miss: the reply is the converter's value for `undefined` |
| Background.SaveToHistory | src/background/background.ts:72-81 | if converting the translation or loading the history throws, the history is unchanged; otherwise it is what `importHistory` makes of the loaded history and the item |
| SelectLanguage.PropsOverrideSettings | src/components/select-language/select-language.tsx:29-39 | each of source, target and vendor is the prop when it is defined and the setting otherwise |
| SelectLanguage.Options | src/components/select-language/select-language.tsx:41-59 | one option per table entry in key order, with the entry's code and label, disabled exactly when the code is the other side's language |
| SelectLanguage.SourceLanguageOptions | src/components/select-language/select-language.tsx:41-49 | the source list has one option per entry of the vendor's source table, with its code and label, and an option is disabled exactly when its code is the current target language |
| SelectLanguage.TargetLanguageOptions | src/components/select-language/select-language.tsx:51-59 | the target list has one option per entry of the vendor's target table, with its code and label, and an option is disabled exactly when its code is the current source language |
| SelectLanguage.OneOptionDisabled | src/components/select-language/select-language.tsx:41-59 | with distinct keys, exactly one option is disabled when the other side's language is in the table, and none otherwise |
| SelectLanguage.ResolveUpdate | src/components/select-language/select-language.tsx:70-74 | a side the update gives is taken from it; a missing side keeps the current value |
| SelectLanguage.OnChange | src/components/select-language/select-language.tsx:69-82 | with an `onChange` prop the resolved pair is handed to it and settings are untouched; without one the pair is written into settings and no callback is made |
| SelectLanguage.ChangeDeliversOnePair | src/components/select-language/select-language.tsx:69-82 | the pair the parent or the settings receive is the resolved pair; an update naming one side keeps the other; the vendor setting never changes |
| SelectLanguage.OnSwap | src/components/select-language/select-language.tsx:61-67 | nothing happens when the source is "auto"; otherwise the reversed pair goes through `onChange`, and then `onSwap` (if given) is told the pair as it was |
| SelectLanguage.SwapReverses | src/components/select-language/select-language.tsx:63-65 | the pair a swap delivers is the current pair reversed |
| SelectLanguage.SwapTwiceRestores | src/components/select-language/select-language.tsx:61-82 | an uncontrolled selector swapped twice, neither side being "auto", is back to its original settings |
| SelectLanguage.FlagIconFile | src/components/select-language/select-language.tsx:176-179 | a mapped language uses its mapped flag; any other locale names its own file |
| SelectLanguage.FlagIconMapValues | src/components/select-language/select-language.tsx:146-174 | every mapped flag is a two-letter country code that differs from the language it stands for |
| SelectLanguage.FlagIconExamples | src/components/select-language/select-language.tsx:146-178 | "en" uses "gb", "uk" uses "ua", "hi" and "te" share "in", and an unmapped "fr" uses "fr" |
| Theme.FindFont | src/components/theme-manager/theme.storage.ts:90 | `find` returns the first font of the family, and nothing exactly when no font has that family |
| Theme.FindFontAt | src/components/theme-manager/theme.storage.ts:90 | the font at the first index holding the family is the one found |
| Theme.GetFont | src/components/theme-manager/theme.storage.ts:88-93 | a font object is returned as it is; a name is looked up in the table |
| Theme.LoadFont | src/components/theme-manager/theme.storage.ts:95-113 | an unknown family is rejected before anything is loaded; a family already in the document is skipped; otherwise the file under `assets/fonts/` is loaded: the family is added exactly when the loader succeeds on that family and path, and the attempt is reported as failed otherwise |
| Theme.LoadFontTwiceSkips | src/components/theme-manager/theme.storage.ts:99-101 | once a font has been added, loading it again is skipped, whatever the loader would do |
| Theme.UnknownFamilyRejected | src/components/theme-manager/theme.storage.ts:88-98 | a family name outside the available fonts resolves to nothing and its load is rejected with the document unchanged |
| Theme.DefaultFontResolves | src/components/theme-manager/theme.storage.ts:15-64 | the default family "Open Sans" resolves to its bundled font "OpenSans-Regular.ttf" |
| Theme.DefaultFontPath | src/components/theme-manager/theme.storage.ts:98-111 | unless already in the document, the default family is loaded from "assets/fonts/OpenSans-Regular.ttf" |
| Theme.SystemFontPath | src/components/theme-manager/theme.storage.ts:61-104 | a system font with no file, such as Arial, is loaded (or fails) under its own family from the path of a missing file name |
| Theme.IconsFontLoad | src/components/theme-manager/theme.storage.ts:50-53 | the icons font, passed as an object, is tried under "Material Icons" from the path of its own file whenever that face is absent, whatever the font table holds |
| Theme.IconsFontPath | src/components/theme-manager/theme.storage.ts:50-53 | the icons font's file path is "assets/fonts/MaterialIcons-Regular.ttf" |
| Theme.UndefinedPath | src/components/theme-manager/theme.storage.ts:104 | the path of a missing file name is "assets/fonts/undefined" |

## Left out

- Prototype keys: JavaScript lookups on plain records would also find inherited members such as "toString". The model treats these records as plain maps. The lookups are `supportedLocales[lang]` (src/i18n.ts), `placeholders[chunk]` (src/i18n.ts), `langToFlagIconMap[locale]` (select-language.tsx) and `translations[id]?.[vendor]` (background.ts).
- `getURL`: it only prefixes the extension's origin, so paths are kept relative (`_locales/<lang>/messages.json`, `assets/fonts/<file>`).
- Timing and concurrency: the mobx observables, the `await` ordering, document readiness and the `autorun` reaction are not modelled. Each handler is one atomic step.
- Logging (`logger.info`, `logger.error`, `console.log`): it has no observable effect.
- The message bus (`onMessageType`, `sendResponse`) is not modelled. A handler's replies are returned as a sequence.
- Storage (`createStorageHelper`): `whenReady`, `merge`, sync areas and the default values written on first load are not modelled. The `i18n` storage's default `lang: getSystemLocale()` is therefore not connected to `I18n.GetSystemLocale`.
- The history storage internals (`generateId`, `toStorageItem`, `importHistory`, `toTranslationResult`, `loadHistory`) are not part of this model. They are parameters, so no save-then-lookup round trip is stated.
- Background.GetFromHistory: the loaded history document is taken to always hold a `translations` record. A document without one would make `.translations[translationId]` throw, and the handler would send no reply; the model cannot express that case.
- Background.SaveToHistory: `importHistory` is taken not to throw; a throw from it would be swallowed like the others and leave the history unchanged.
- CHROME_TTS_PLAY and CHROME_TTS_STOP: they forward to `chrome.tts`, decide nothing, and carry a floating-point rate.
- I18n.GetMessage: placeholder values are strings only. The React-element branch (`React.isValidElement`, `Children.toArray`) is not modelled.
- The selector's rendering: `render`, `formatLanguageLabel`, `toggleFavorite` (which only logs), and the `require` of the flag SVG with its `undefined` fallback are not modelled. `SelectLanguage.FlagIconFile` stops at the file name.
- The `ThemeStore` constructor, the sequencing of `init` (it loads the icons font, stated by `Theme.IconsFontLoad`, and then follows `fontFamily` with an `autorun`), `reset`, `borderStyle`, and the colour and size defaults of the theme storage are not modelled. They have no decision logic, and some hold floating-point values.
- JSON numbers are integers (`Js.Num`); nothing in the model depends on fractions.
- Background.ProxyRequest: each network collaborator is a pure function of its argument. That one fetch is attempted per request is implied by the structure, not stated as a property.

## Findings

| source | as written | input that shows it | evidently intended | confidence | as-written member | corrected member |
|---|---|---|---|---|---|---|
| src/i18n.ts:84 | `locale.split(/_-/)[0]` cuts only where the two characters `_-` appear together | UI language "de-DE" (or "de_AT") normalises to "en" although German is supported | cut at the first `_` or `-` (`/[_-]/`), as the comment about "en-GB" says, so "de-DE" gives "de" | high; not executed | I18n.SystemLocaleRegionTagFallsBack | I18n.SubtagLocaleKeepsLanguage |

`I18n.GetSystemLocale` models the line as written. `I18n.GetSystemLocaleBySubtag` is the corrected definition. `I18n.SubtagLocaleKeepsLanguage` and `I18n.SubtagLocaleRegionTag` prove that it keeps the language of a region tag.
