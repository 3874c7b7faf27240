/** The background service worker's decision logic (src/background/background.ts):
    the install hook, the network-proxy handler's reply envelope, and the two
    translation-history handlers.

    The message bus that delivers messages and replies is not part of this
    model: a handler here is a function from its message (and the outcomes of
    the collaborators it awaits) to the replies it passes to `sendResponse`,
    in order. Network calls, the history store and the clock are parameters. */
module Background {
  import opened Wrappers
  import opened Js

  /** A message as a handler receives it: its correlation id and its payload. */
  datatype Message<P> = Message(id: string, payload: P)

  // ---- Install hook ----

  /** What the install hook leaves behind: the `rateLastTimestamp` storage value,
      and whether the options page was opened. */
  datatype InstallEffect = InstallEffect(rateLastTimestamp: Option<int>, optionsPageOpened: bool)

  /** `onInstall(reason => ...)`, at time `now` (`Date.now()`). */
  function OnInstall(reason: string, isProduction: bool, now: int, rateLastTimestamp: Option<int>): (r: InstallEffect)
    ensures r.optionsPageOpened <==> reason == "install" || !isProduction
    ensures r.optionsPageOpened ==> r.rateLastTimestamp == Some(now)
    ensures !r.optionsPageOpened ==> r.rateLastTimestamp == rateLastTimestamp
  {
    if reason == "install" || !isProduction then InstallEffect(Some(now), true)
    else InstallEffect(rateLastTimestamp, false)
  }

  /** In production an update, or any reason other than "install", leaves everything as it was;
      outside production every reason opens the options page. */
  lemma InstallOnlyOnFreshInstall(reason: string, isProduction: bool, now: int, rate: Option<int>)
    ensures isProduction && reason != "install" ==> OnInstall(reason, isProduction, now, rate) == InstallEffect(rate, false)
    ensures !isProduction ==> OnInstall(reason, isProduction, now, rate) == OnInstall("install", true, now, rate)
  {
  }

  // ---- Network proxy (PROXY_REQUEST) ----

  /** The `responseType` of a proxy request; `Unlisted` is a value the switch has no case for. */
  datatype ResponseType = AsJson | AsText | AsDataUri | Unlisted

  datatype ProxyPayload<Init> = ProxyPayload(url: string, responseType: ResponseType, requestInit: Init)

  /** The reply envelope `ProxyRequestResponse`. */
  datatype ProxyReply = ProxyReply(messageId: string, url: string, data: Option<Json>, error: Option<Json>)

  /** The network collaborators: `fetch`, `parseJson`, `response.text()`,
      `response.blob()` and `blobToBase64`, each of which may throw. */
  datatype Network<!Init, !Response, !Blob> = Network(
    fetch: (string, Init) -> Outcome<Response>,
    parseJson: Response -> Outcome<Json>,
    text: Response -> Outcome<string>,
    blob: Response -> Outcome<Blob>,
    blobToBase64: Blob -> Outcome<string>)

  /** The body conversion chosen by `responseType`; `Done(None)` when no case applies.
      A throw of any step is passed on as it is. */
  function ConvertBody<Init, Response, Blob>(net: Network<Init, Response, Blob>, response: Response, rt: ResponseType): (r: Outcome<Option<Json>>)
    ensures rt == Unlisted ==> r == Done(None)
    ensures r.Done? && rt != Unlisted ==> r.value.Some?
    ensures rt == AsJson ==>
              r == (match net.parseJson(response) case Done(j) => Done(Some(j)) case Threw(e) => Threw(e))
    ensures rt == AsText ==>
              r == (match net.text(response) case Done(t) => Done(Some(Str(t))) case Threw(e) => Threw(e))
    ensures rt == AsDataUri && net.blob(response).Threw? ==> r == Threw(net.blob(response).error)
    ensures rt == AsDataUri && net.blob(response).Done? ==>
              r == (match net.blobToBase64(net.blob(response).value)
                    case Done(uri) => Done(Some(Str(uri)))
                    case Threw(e) => Threw(e))
  {
    match rt
    case AsJson =>
      (match net.parseJson(response)
       case Done(j) => Done(Some(j))
       case Threw(e) => Threw(e))
    case AsText =>
      (match net.text(response)
       case Done(t) => Done(Some(Str(t)))
       case Threw(e) => Threw(e))
    case AsDataUri =>
      (match net.blob(response)
       case Threw(e) => Threw(e)
       case Done(b) =>
         match net.blobToBase64(b)
         case Done(uri) => Done(Some(Str(uri)))
         case Threw(e) => Threw(e))
    case Unlisted => Done(None)
  }

  /** The error normalisation of the catch: a plain object is kept as it is,
      anything else becomes `{message: String(error)}`. */
  function NormaliseError(e: Thrown): (r: Json)
    ensures r.Obj?
    ensures e.PlainObject? ==> r.fields == e.fields
    ensures e.Other? ==> r.fields.Keys == {"message"} && r.fields["message"] == Str(e.asString)
  {
    match e
    case PlainObject(fields) => Obj(fields)
    case Other(s) => Obj(map["message" := Str(s)])
  }

  /** The PROXY_REQUEST handler: the replies it sends. */
  function ProxyRequest<Init, Response, Blob>(msg: Message<ProxyPayload<Init>>, net: Network<Init, Response, Blob>): (replies: seq<ProxyReply>)
    ensures |replies| == 1
    ensures replies[0].messageId == msg.id && replies[0].url == msg.payload.url
    ensures !(replies[0].data.Some? && replies[0].error.Some?)
    ensures replies[0].error.Some? <==>
              (net.fetch(msg.payload.url, msg.payload.requestInit).Threw? ||
               ConvertBody(net, net.fetch(msg.payload.url, msg.payload.requestInit).value, msg.payload.responseType).Threw?)
    ensures replies[0].data.Some? ==>
              net.fetch(msg.payload.url, msg.payload.requestInit).Done? &&
              ConvertBody(net, net.fetch(msg.payload.url, msg.payload.requestInit).value, msg.payload.responseType)
                == Done(replies[0].data)
    ensures net.fetch(msg.payload.url, msg.payload.requestInit).Done? &&
            ConvertBody(net, net.fetch(msg.payload.url, msg.payload.requestInit).value, msg.payload.responseType).Done? ==>
              replies[0].data
                == ConvertBody(net, net.fetch(msg.payload.url, msg.payload.requestInit).value, msg.payload.responseType).value
    ensures replies[0].error.Some? ==>
              replies[0].error.value == NormaliseError(
                if net.fetch(msg.payload.url, msg.payload.requestInit).Threw?
                then net.fetch(msg.payload.url, msg.payload.requestInit).error
                else ConvertBody(net, net.fetch(msg.payload.url, msg.payload.requestInit).value, msg.payload.responseType).error)
    ensures replies[0].error.Some? ==> replies[0].error.value.Obj?
  {
    var p := msg.payload;
    var envelope := ProxyReply(msg.id, p.url, None, None);
    var outcome :=
      match net.fetch(p.url, p.requestInit)
      case Threw(e) => Threw(e)
      case Done(response) => ConvertBody(net, response, p.responseType);
    var result :=
      match outcome
      case Done(data) => envelope.(data := data)
      case Threw(e) => envelope.(error := Some(NormaliseError(e)));
    [result]
  }

  /** A JSON request to a reachable URL that returns valid JSON replies with exactly that JSON. */
  lemma ProxyJsonSuccess<Init, Response, Blob>(msg: Message<ProxyPayload<Init>>, net: Network<Init, Response, Blob>, response: Response, body: Json)
    requires msg.payload.responseType == AsJson
    requires net.fetch(msg.payload.url, msg.payload.requestInit) == Done(response)
    requires net.parseJson(response) == Done(body)
    ensures ProxyRequest(msg, net) == [ProxyReply(msg.id, msg.payload.url, Some(body), None)]
  {
  }

  /** A text request to a reachable URL replies with the body text, or with the error reading it threw. */
  lemma ProxyText<Init, Response, Blob>(msg: Message<ProxyPayload<Init>>, net: Network<Init, Response, Blob>, response: Response)
    requires msg.payload.responseType == AsText
    requires net.fetch(msg.payload.url, msg.payload.requestInit) == Done(response)
    ensures net.text(response).Done? ==>
              ProxyRequest(msg, net) == [ProxyReply(msg.id, msg.payload.url, Some(Str(net.text(response).value)), None)]
    ensures net.text(response).Threw? ==>
              ProxyRequest(msg, net) == [ProxyReply(msg.id, msg.payload.url, None, Some(NormaliseError(net.text(response).error)))]
  {
  }

  /** A failed fetch replies with the normalised error and no data, whatever the response type. */
  lemma ProxyFetchFailure<Init, Response, Blob>(msg: Message<ProxyPayload<Init>>, net: Network<Init, Response, Blob>, e: Thrown)
    requires net.fetch(msg.payload.url, msg.payload.requestInit) == Threw(e)
    ensures ProxyRequest(msg, net) == [ProxyReply(msg.id, msg.payload.url, None, Some(NormaliseError(e)))]
  {
  }

  /** A response type outside the three cases leaves both `data` and `error` unset once the fetch succeeds. */
  lemma ProxyUnlistedType<Init, Response, Blob>(msg: Message<ProxyPayload<Init>>, net: Network<Init, Response, Blob>)
    requires msg.payload.responseType == Unlisted
    requires net.fetch(msg.payload.url, msg.payload.requestInit).Done?
    ensures ProxyRequest(msg, net) == [ProxyReply(msg.id, msg.payload.url, None, None)]
  {
  }

  /** A data-URI request fails when reading the blob or encoding it fails, and
      otherwise carries the encoded string. */
  lemma ProxyDataUri<Init, Response, Blob>(msg: Message<ProxyPayload<Init>>, net: Network<Init, Response, Blob>, response: Response)
    requires msg.payload.responseType == AsDataUri
    requires net.fetch(msg.payload.url, msg.payload.requestInit) == Done(response)
    ensures net.blob(response).Threw? ==>
              ProxyRequest(msg, net)[0].error == Some(NormaliseError(net.blob(response).error))
    ensures net.blob(response).Done? && net.blobToBase64(net.blob(response).value).Threw? ==>
              ProxyRequest(msg, net)[0].error == Some(NormaliseError(net.blobToBase64(net.blob(response).value).error))
    ensures net.blob(response).Done? && net.blobToBase64(net.blob(response).value).Done? ==>
              ProxyRequest(msg, net)[0].data == Some(Str(net.blobToBase64(net.blob(response).value).value))
  {
  }

  // ---- Translation history (GET_FROM_HISTORY, SAVE_TO_HISTORY) ----

  /** The history storage document: translation id, then vendor, to a stored item. */
  datatype HistoryDoc<Item> = HistoryDoc(translations: map<string, map<string, Item>>)

  /** `TranslatePayload`: the query of a lookup. */
  datatype TranslatePayload = TranslatePayload(text: string, from: string, to: string, vendor: string)

  /** `translations[id]?.[vendor]` */
  function StoredItem<Item>(doc: HistoryDoc<Item>, id: string, vendor: string): (r: Option<Item>)
    ensures r.None? <==> id !in doc.translations || vendor !in doc.translations[id]
    ensures r.Some? ==> r.value == doc.translations[id][vendor]
  {
    if id in doc.translations && vendor in doc.translations[id] then Some(doc.translations[id][vendor])
    else None
  }

  /** The document with one slot written; a model of "some other slot changed", not of `importHistory`. */
  function PutSlot<Item>(doc: HistoryDoc<Item>, id: string, vendor: string, item: Item): HistoryDoc<Item> {
    var inner := if id in doc.translations then doc.translations[id] else map[];
    HistoryDoc(doc.translations[id := inner[vendor := item]])
  }

  /** The GET_FROM_HISTORY handler: `loaded` is the outcome of `loadHistory()`
      (the document once loaded); `generateId` and `toTranslationResult` are the
      history store's. A throw anywhere is logged and no reply is sent. */
  function GetFromHistory<Item, Result>(
    msg: Message<TranslatePayload>,
    loaded: Outcome<HistoryDoc<Item>>,
    generateId: (string, string, string) -> Outcome<string>,
    toTranslationResult: Option<Item> -> Outcome<Result>): (replies: seq<Result>)
    ensures |replies| <= 1
    ensures loaded.Threw? ==> replies == []
    ensures generateId(msg.payload.text, msg.payload.from, msg.payload.to).Threw? ==> replies == []
    ensures loaded.Done? && generateId(msg.payload.text, msg.payload.from, msg.payload.to).Done? ==>
              var p := msg.payload;
              var slot := StoredItem(loaded.value, generateId(p.text, p.from, p.to).value, p.vendor);
              (|replies| == 1 <==> toTranslationResult(slot).Done?) &&
              (|replies| == 1 ==> replies[0] == toTranslationResult(slot).value)
  {
    match loaded
    case Threw(_) => []
    case Done(doc) =>
      var p := msg.payload;
      match generateId(p.text, p.from, p.to)
      case Threw(_) => []
      case Done(id) =>
        match toTranslationResult(StoredItem(doc, id, p.vendor))
        case Done(result) => [result]
        case Threw(_) => []
  }

  /** The lookup reads only its own slot: two documents that agree on it give the same replies. */
  lemma LookupReadsOnlyItsSlot<Item, Result>(
    msg: Message<TranslatePayload>, d1: HistoryDoc<Item>, d2: HistoryDoc<Item>,
    generateId: (string, string, string) -> Outcome<string>, toTranslationResult: Option<Item> -> Outcome<Result>)
    requires var p := msg.payload;
             var id := generateId(p.text, p.from, p.to);
             id.Done? ==> StoredItem(d1, id.value, p.vendor) == StoredItem(d2, id.value, p.vendor)
    ensures GetFromHistory(msg, Done(d1), generateId, toTranslationResult)
         == GetFromHistory(msg, Done(d2), generateId, toTranslationResult)
  {
  }

  /** Writing a slot for another id or another vendor leaves every lookup's slot as it was;
      writing the slot itself is what a lookup then finds. */
  lemma OtherSlotsDoNotMatter<Item>(doc: HistoryDoc<Item>, id: string, vendor: string, id': string, vendor': string, item: Item)
    ensures (id', vendor') != (id, vendor) ==>
              StoredItem(PutSlot(doc, id', vendor', item), id, vendor) == StoredItem(doc, id, vendor)
    ensures StoredItem(PutSlot(doc, id, vendor, item), id, vendor) == Some(item)
  {
  }

  /** A missing id or a missing vendor is a normal miss: the converter is handed `undefined`. */
  lemma LookupMiss<Item, Result>(
    msg: Message<TranslatePayload>, doc: HistoryDoc<Item>,
    generateId: (string, string, string) -> Outcome<string>, toTranslationResult: Option<Item> -> Outcome<Result>)
    requires var p := msg.payload;
             var id := generateId(p.text, p.from, p.to);
             id.Done? && (id.value !in doc.translations || p.vendor !in doc.translations[id.value])
    requires toTranslationResult(None).Done?
    ensures GetFromHistory(msg, Done(doc), generateId, toTranslationResult) == [toTranslationResult(None).value]
  {
  }

  /** `SaveToHistoryPayload`: the finished translation to keep. */
  datatype SavePayload<T> = SavePayload(translation: T)

  /** The SAVE_TO_HISTORY handler: the history document afterwards. It never replies;
      a throw from `toStorageItem` (before loading) or from `loadHistory` is logged
      and leaves the document as it was. */
  function SaveToHistory<T, Item>(
    msg: Message<SavePayload<T>>,
    doc: HistoryDoc<Item>,
    toStorageItem: T -> Outcome<Item>,
    loaded: Outcome<HistoryDoc<Item>>,
    importHistory: (HistoryDoc<Item>, Item) -> HistoryDoc<Item>): (r: HistoryDoc<Item>)
    ensures toStorageItem(msg.payload.translation).Threw? ==> r == doc
    ensures loaded.Threw? ==> r == doc
    ensures toStorageItem(msg.payload.translation).Done? && loaded.Done? ==>
              r == importHistory(loaded.value, toStorageItem(msg.payload.translation).value)
  {
    match toStorageItem(msg.payload.translation)
    case Threw(_) => doc
    case Done(item) =>
      match loaded
      case Threw(_) => doc
      case Done(current) => importHistory(current, item)
  }
}
