/** The language-pair selector (src/components/select-language/select-language.tsx):
    the (source, target) pair it shows, the option lists of both drop-downs,
    the swap and change actions, and the choice of a flag icon file.

    The component is read as a pure state machine over its props and the
    settings store. `getTranslator` is a parameter; a vendor's language table
    is kept in `Object.keys` order as a sequence of (code, label) entries. */
module SelectLanguage {
  import opened Wrappers

  /** The fields of `settingsStore.data` the component reads or writes. */
  datatype Settings = Settings(langFrom: string, langTo: string, vendor: string)

  /** The component's props; the two callbacks are only told apart by whether they are given. */
  datatype Props = Props(
    from: Option<string>,
    to: Option<string>,
    vendor: Option<string>,
    hasOnChange: bool,
    hasOnSwap: bool)

  /** A language pair, as handed to `props.onChange` and `props.onSwap`. */
  datatype Pair = Pair(langFrom: string, langTo: string)

  /** The argument of the internal `onChange`; a missing side keeps its current value. */
  datatype Update = Update(sourceLang: Option<string>, targetLang: Option<string>)

  /** A call the component makes into its parent. */
  datatype Callback = OnChangeCalled(update: Pair) | OnSwapCalled(update: Pair)

  /** The observable world: the settings store and the callbacks made so far. */
  datatype World = World(settings: Settings, calls: seq<Callback>)

  /** The `langFrom` getter: the prop when defined, else the setting. */
  function LangFrom(props: Props, settings: Settings): string {
    props.from.GetOr(settings.langFrom)
  }

  /** The `langTo` getter. */
  function LangTo(props: Props, settings: Settings): string {
    props.to.GetOr(settings.langTo)
  }

  /** The `vendor` getter. */
  function Vendor(props: Props, settings: Settings): string {
    props.vendor.GetOr(settings.vendor)
  }

  /** Each side takes the prop value exactly when it is defined. */
  lemma PropsOverrideSettings(props: Props, settings: Settings)
    ensures props.from.Some? ==> LangFrom(props, settings) == props.from.value
    ensures props.from.None? ==> LangFrom(props, settings) == settings.langFrom
    ensures props.to.Some? ==> LangTo(props, settings) == props.to.value
    ensures props.to.None? ==> LangTo(props, settings) == settings.langTo
    ensures props.vendor.Some? ==> Vendor(props, settings) == props.vendor.value
    ensures props.vendor.None? ==> Vendor(props, settings) == settings.vendor
  {
  }

  /** A vendor's language table: (code, label) entries in key order. */
  type LangTable = seq<(string, string)>

  /** The two tables `getTranslator(vendor)` provides. */
  datatype Translator = Translator(langFrom: LangTable, langTo: LangTable)

  /** One entry of a drop-down; `caption` is its `label` (a reserved word here). */
  datatype LangOption = LangOption(value: string, isDisabled: bool, caption: string)

  /** `Object.keys(table).map(lang => ({value: lang, isDisabled: lang == other, label: table[lang]}))` */
  function Options(table: LangTable, other: string): (r: seq<LangOption>)
    decreases |table|
    ensures |r| == |table|
    ensures forall i :: 0 <= i < |r| ==>
              r[i].value == table[i].0 && r[i].caption == table[i].1 && (r[i].isDisabled <==> table[i].0 == other)
  {
    if table == [] then []
    else [LangOption(table[0].0, table[0].0 == other, table[0].1)] + Options(table[1..], other)
  }

  /** `sourceLanguageOptions`: the vendor's source table; the current target is disabled. */
  function SourceLanguageOptions(props: Props, settings: Settings, getTranslator: string -> Translator): (r: seq<LangOption>)
    ensures var table := getTranslator(Vendor(props, settings)).langFrom;
            |r| == |table| &&
            forall i :: 0 <= i < |r| ==>
              r[i].value == table[i].0 && r[i].caption == table[i].1 &&
              (r[i].isDisabled <==> r[i].value == LangTo(props, settings))
  {
    Options(getTranslator(Vendor(props, settings)).langFrom, LangTo(props, settings))
  }

  /** `targetLanguageOptions`: the vendor's target table; the current source is disabled. */
  function TargetLanguageOptions(props: Props, settings: Settings, getTranslator: string -> Translator): (r: seq<LangOption>)
    ensures var table := getTranslator(Vendor(props, settings)).langTo;
            |r| == |table| &&
            forall i :: 0 <= i < |r| ==>
              r[i].value == table[i].0 && r[i].caption == table[i].1 &&
              (r[i].isDisabled <==> r[i].value == LangFrom(props, settings))
  {
    Options(getTranslator(Vendor(props, settings)).langTo, LangFrom(props, settings))
  }

  /** Keys of a table are distinct, as keys of a JavaScript object are. */
  predicate DistinctKeys(table: LangTable) {
    forall i, j :: 0 <= i < j < |table| ==> table[i].0 != table[j].0
  }

  predicate HasKey(table: LangTable, code: string) {
    exists i :: 0 <= i < |table| && table[i].0 == code
  }

  function CountDisabled(options: seq<LangOption>): nat
    decreases |options|
  {
    if options == [] then 0 else (if options[0].isDisabled then 1 else 0) + CountDisabled(options[1..])
  }

  /** Exactly one option is disabled when the other side's language is in the table, none otherwise. */
  lemma {:induction false} OneOptionDisabled(table: LangTable, other: string)
    requires DistinctKeys(table)
    decreases |table|
    ensures CountDisabled(Options(table, other)) == (if HasKey(table, other) then 1 else 0)
  {
    if table != [] {
      var rest := table[1..];
      assert DistinctKeys(rest) by {
        forall i, j | 0 <= i < j < |rest|
          ensures rest[i].0 != rest[j].0
        {
          assert rest[i] == table[i + 1] && rest[j] == table[j + 1];
        }
      }
      OneOptionDisabled(rest, other);
      var opts := Options(table, other);
      assert opts[1..] == Options(rest, other);
      if table[0].0 == other {
        assert HasKey(table, other);
        forall i | 0 <= i < |rest|
          ensures rest[i].0 != other
        {
          assert rest[i] == table[i + 1];
        }
      } else {
        if HasKey(table, other) {
          var i :| 0 <= i < |table| && table[i].0 == other;
          assert rest[i - 1].0 == other;
        }
        if HasKey(rest, other) {
          var i :| 0 <= i < |rest| && rest[i].0 == other;
          assert table[i + 1].0 == other;
        }
      }
    }
  }

  /** The resolution of an update: a missing side is filled from the current pair. */
  function ResolveUpdate(props: Props, settings: Settings, update: Update): (r: Pair)
    ensures update.sourceLang.Some? ==> r.langFrom == update.sourceLang.value
    ensures update.sourceLang.None? ==> r.langFrom == LangFrom(props, settings)
    ensures update.targetLang.Some? ==> r.langTo == update.targetLang.value
    ensures update.targetLang.None? ==> r.langTo == LangTo(props, settings)
  {
    Pair(update.sourceLang.GetOr(LangFrom(props, settings)), update.targetLang.GetOr(LangTo(props, settings)))
  }

  /** The internal `onChange`: the resolved pair goes to `props.onChange` if given, else into settings. */
  function OnChange(props: Props, w: World, update: Update): (r: World)
    ensures props.hasOnChange ==>
              r == World(w.settings, w.calls + [OnChangeCalled(ResolveUpdate(props, w.settings, update))])
    ensures !props.hasOnChange ==>
              var p := ResolveUpdate(props, w.settings, update);
              r == World(w.settings.(langFrom := p.langFrom, langTo := p.langTo), w.calls)
  {
    var p := ResolveUpdate(props, w.settings, update);
    if props.hasOnChange then w.(calls := w.calls + [OnChangeCalled(p)])
    else w.(settings := w.settings.(langFrom := p.langFrom, langTo := p.langTo))
  }

  /** Whichever way the pair goes, it is the same pair; choosing one side keeps the other. */
  lemma ChangeDeliversOnePair(props: Props, w: World, update: Update)
    ensures var p := ResolveUpdate(props, w.settings, update);
            var r := OnChange(props, w, update);
            (props.hasOnChange ==> r.calls[|r.calls| - 1] == OnChangeCalled(p)) &&
            (!props.hasOnChange ==> Pair(r.settings.langFrom, r.settings.langTo) == p)
    ensures update.targetLang.None? ==> ResolveUpdate(props, w.settings, update).langTo == LangTo(props, w.settings)
    ensures update.sourceLang.None? ==> ResolveUpdate(props, w.settings, update).langFrom == LangFrom(props, w.settings)
    ensures OnChange(props, w, update).settings.vendor == w.settings.vendor
  {
  }

  /** The language one cannot translate into, hence the swap's refusal. */
  const AutoDetect: string := "auto"

  /** `onSwap`: refused when the source is "auto"; otherwise the pair is exchanged
      through `onChange`, and then `props.onSwap` is told the pair as it was. */
  function OnSwap(props: Props, w: World): (r: World)
    ensures LangFrom(props, w.settings) == AutoDetect ==> r == w
    ensures LangFrom(props, w.settings) != AutoDetect ==>
              var from := LangFrom(props, w.settings);
              var to := LangTo(props, w.settings);
              var changed := OnChange(props, w, Update(Some(to), Some(from)));
              r == (if props.hasOnSwap then changed.(calls := changed.calls + [OnSwapCalled(Pair(from, to))]) else changed)
  {
    var from := LangFrom(props, w.settings);
    var to := LangTo(props, w.settings);
    if from == AutoDetect then w
    else
      var changed := OnChange(props, w, Update(Some(to), Some(from)));
      if props.hasOnSwap then changed.(calls := changed.calls + [OnSwapCalled(Pair(from, to))]) else changed
  }

  /** The pair a swap delivers is the current pair reversed. */
  lemma SwapReverses(props: Props, w: World)
    requires LangFrom(props, w.settings) != AutoDetect
    ensures var r := OnSwap(props, w);
            var reversed := Pair(LangTo(props, w.settings), LangFrom(props, w.settings));
            (props.hasOnChange ==> OnChangeCalled(reversed) in r.calls[|w.calls|..]) &&
            (!props.hasOnChange ==> Pair(r.settings.langFrom, r.settings.langTo) == reversed)
  {
    var r := OnSwap(props, w);
    if props.hasOnChange {
      assert r.calls[|w.calls|..][0] == OnChangeCalled(Pair(LangTo(props, w.settings), LangFrom(props, w.settings)));
    }
  }

  /** An uncontrolled selector (no `from`/`to` props, no `onChange` prop) swapped twice
      is back to its original settings when neither side is "auto". */
  lemma SwapTwiceRestores(props: Props, w: World)
    requires props.from.None? && props.to.None? && !props.hasOnChange
    requires w.settings.langFrom != AutoDetect && w.settings.langTo != AutoDetect
    ensures OnSwap(props, OnSwap(props, w)).settings == w.settings
  {
  }

  /** `langToFlagIconMap` */
  const FlagIconMap: map<string, string> := map[
    "sq" := "al", "hy" := "am", "ce" := "ph", "ny" := "mw", "cs" := "cz",
    "da" := "dk", "en" := "gb", "el" := "gr", "ka" := "ge", "ha" := "ne",
    "haw" := "hm", "hi" := "in", "te" := "in", "ur" := "pk", "ja" := "jp",
    "ko" := "kr", "lo" := "la", "uk" := "ua", "fa" := "ir", "ku" := "iq",
    "ma" := "nz", "sw" := "ke", "zh-CN" := "cn", "zh-TW" := "tw", "yo" := "ng",
    "zu" := "za", "xh" := "za"
  ]

  /** The flag file name `getFlagIcon` asks for: `langToFlagIconMap[locale] ?? locale`. */
  function FlagIconFile(locale: string): (r: string)
    ensures locale in FlagIconMap ==> r == FlagIconMap[locale]
    ensures locale !in FlagIconMap ==> r == locale
  {
    if locale in FlagIconMap then FlagIconMap[locale] else locale
  }

  /** Every mapped flag is a two-letter country code, and no mapped language names its own
      flag file: the map always changes the name it is given. */
  lemma FlagIconMapValues()
    ensures forall locale :: locale in FlagIconMap ==> |FlagIconMap[locale]| == 2
    ensures forall locale :: locale in FlagIconMap ==> FlagIconMap[locale] != locale
  {
  }

  lemma FlagIconExamples()
    ensures FlagIconFile("en") == "gb"
    ensures FlagIconFile("uk") == "ua"
    ensures FlagIconFile("fr") == "fr"
    ensures FlagIconFile("hi") == FlagIconFile("te") == "in"
  {
  }
}
