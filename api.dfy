/**
 * lib/api.ts: reading the persisted device id, decorating API requests
 * with it, and shaping the responses of the document endpoints. Browser
 * storage, `JSON.parse`, `encodeURIComponent` and `fetch` are parameters.
 */
module Api {
  import opened Js
  import DeviceStore

  const DefaultApiUrl: string := "http://localhost:8080"
  const JsonContentType: Json := JStr("application/json")

  /** `window.localStorage` as seen by `getItem`. */
  datatype LocalStorage =
    | Blocked                             // getItem throws (storage disabled)
    | Entries(items: map<string, string>)

  /** Where the code runs: on the server `typeof window === 'undefined'`. */
  datatype Runtime = Server | Browser(storage: LocalStorage)

  /** `JSON.parse`; `None` when it throws. */
  type JsonParser = string -> Option<Json>

  /** `encodeURIComponent(String(v))`; `None` when it throws a URIError. */
  type UriEncoder = Json -> Option<string>

  /** `fetch` as a function of its arguments. */
  type Transport = Request -> FetchOutcome

  /** `API_BASE_URL`: `NEXT_PUBLIC_API_URL` or the local default. */
  function ApiBaseUrl(env: Option<string>): string
  {
    EnvOr(env, DefaultApiUrl)
  }

  /** The text stored under `device-storage`, when it can be read and is not empty. */
  function StoredText(rt: Runtime): Option<string>
  {
    if rt.Browser? && rt.storage.Entries? && DeviceStore.StorageKey in rt.storage.items
       && rt.storage.items[DeviceStore.StorageKey] != ""
    then Some(rt.storage.items[DeviceStore.StorageKey])
    else None
  }

  /** `parsed.state?.deviceId || null`, with `None` for the TypeError on a null `parsed`. */
  function StateDeviceId(parsed: Json): Option<Json>
  {
    if parsed == JNull then None
    else
      var state := Prop(parsed, "state");
      if state.None? || state.value == JNull then None
      else
        var id := Prop(state.value, "deviceId");
        if Truthy(id) then id else None
  }

  /** `getDeviceId()`. */
  function GetDeviceId(rt: Runtime, parse: JsonParser): (r: Option<Json>)
    ensures r.Some? ==> Truthy(r)
    ensures rt.Server? ==> r.None?
    ensures StoredText(rt).None? ==> r.None?
    ensures StoredText(rt).Some? && parse(StoredText(rt).value).None? ==> r.None?
    ensures r.Some? ==>
      && StoredText(rt).Some? && parse(StoredText(rt).value).Some?
      && var parsed := parse(StoredText(rt).value).value;
         && parsed.JObj? && "state" in parsed.fields && parsed.fields["state"].JObj?
         && "deviceId" in parsed.fields["state"].fields
         && parsed.fields["state"].fields["deviceId"] == r.value
    ensures StoredText(rt).Some? && parse(StoredText(rt).value).Some? ==>
      var parsed := parse(StoredText(rt).value).value;
      var state := if parsed.JObj? && "state" in parsed.fields then parsed.fields["state"] else JNull;
      var id := if state.JObj? && "deviceId" in state.fields then Some(state.fields["deviceId"]) else None;
      r == if Truthy(id) then id else None
  {
    if rt.Server? then None
    else match rt.storage
      case Blocked => None
      case Entries(items) =>
        if DeviceStore.StorageKey in items && items[DeviceStore.StorageKey] != "" then
          match parse(items[DeviceStore.StorageKey])
          case None => None
          case Some(parsed) => StateDeviceId(parsed)
        else None
  }

  /**
   * Reading back what the device store persisted: a non-empty id is
   * returned as that string; a null or empty id reads as no id.
   */
  lemma ReadPersistedId(rt: Runtime, parse: JsonParser, deviceId: Option<string>)
    requires StoredText(rt).Some?
    requires parse(StoredText(rt).value) == Some(DeviceStore.PersistedEnvelope(deviceId))
    ensures deviceId.Some? && deviceId.value != "" ==> GetDeviceId(rt, parse) == Some(JStr(deviceId.value))
    ensures deviceId.None? || deviceId.value == "" ==> GetDeviceId(rt, parse).None?
  {
    var envelope := DeviceStore.PersistedEnvelope(deviceId);
    assert Prop(envelope, "state").Some?;
  }

  /** A store holding an id reads back, through `device-storage`, as that id. */
  lemma ReadStoreId(store: DeviceStore.DeviceStore, rt: Runtime, parse: JsonParser)
    requires StoredText(rt).Some?
    requires parse(StoredText(rt).value) == Some(store.Persisted())
    ensures store.HasId() ==> GetDeviceId(rt, parse) == Some(JStr(store.deviceId.value))
    ensures !store.HasId() ==> GetDeviceId(rt, parse).None?
  {
    ReadPersistedId(rt, parse, store.deviceId);
  }

  /** `getApiHeaders()`. */
  function GetApiHeaders(rt: Runtime, parse: JsonParser): (h: Headers)
    ensures "Content-Type" in h && h["Content-Type"] == JsonContentType
    ensures "X-Device-ID" in h <==> GetDeviceId(rt, parse).Some?
    ensures "X-Device-ID" in h ==> h["X-Device-ID"] == GetDeviceId(rt, parse).value
    ensures h.Keys <= {"Content-Type", "X-Device-ID"}
  {
    var headers := map["Content-Type" := JsonContentType];
    var deviceId := GetDeviceId(rt, parse);
    if Truthy(deviceId) then headers["X-Device-ID" := deviceId.value] else headers
  }

  /** Server-rendered requests never carry a device header. */
  lemma ServerHeaders(parse: JsonParser)
    ensures GetApiHeaders(Server, parse) == map["Content-Type" := JsonContentType]
  {
    var h := GetApiHeaders(Server, parse);
    assert h.Keys == {"Content-Type"};
  }

  /** A browser holding a persisted non-empty id sends it as `X-Device-ID`. */
  lemma HeadersCarryPersistedId(rt: Runtime, parse: JsonParser, id: string)
    requires StoredText(rt).Some?
    requires parse(StoredText(rt).value) == Some(DeviceStore.PersistedEnvelope(Some(id)))
    requires id != ""
    ensures GetApiHeaders(rt, parse) == map["Content-Type" := JsonContentType, "X-Device-ID" := JStr(id)]
  {
    ReadPersistedId(rt, parse, Some(id));
    var h := GetApiHeaders(rt, parse);
    assert h.Keys == {"Content-Type", "X-Device-ID"};
  }

  // ---------------------------------------------------------------------
  // fetchDocument

  function DocumentRequest(base: string, encodedTitle: string, headers: Headers): Request
  {
    Request("GET", base + "/api/docs/" + encodedTitle, headers, None)
  }

  /** The body of a successful response, or null for every failure. */
  function DocumentResult(outcome: FetchOutcome): (r: Json)
    ensures r != JNull ==> outcome.Received? && outcome.response.ok && outcome.response.json == Some(r)
    ensures outcome.NetworkError? || !outcome.response.ok || outcome.response.json.None? ==> r == JNull
    ensures outcome.Received? && outcome.response.ok && outcome.response.json.Some? ==>
      r == outcome.response.json.value
  {
    match outcome
    case NetworkError => JNull
    case Received(response) =>
      if !response.ok then JNull
      else if response.json.None? then JNull
      else response.json.value
  }

  /** `fetchDocument(title)`; JSON null stands for the `null` result. */
  function FetchDocument(apiEnv: Option<string>, title: string, encode: UriEncoder,
                         rt: Runtime, parse: JsonParser, send: Transport): (r: Json)
    ensures encode(JStr(title)).None? ==> r == JNull
    ensures encode(JStr(title)).Some? ==>
      var outcome := send(DocumentRequest(ApiBaseUrl(apiEnv), encode(JStr(title)).value, GetApiHeaders(rt, parse)));
      && (r != JNull ==> outcome.Received? && outcome.response.ok && outcome.response.json == Some(r))
      && (outcome.NetworkError? || !outcome.response.ok || outcome.response.json.None? ==> r == JNull)
      && (outcome.Received? && outcome.response.ok && outcome.response.json.Some? ==>
            r == outcome.response.json.value)
  {
    match encode(JStr(title))
    case None => JNull
    case Some(encoded) =>
      var request := DocumentRequest(ApiBaseUrl(apiEnv), encoded, GetApiHeaders(rt, parse));
      DocumentResult(send(request))
  }

  // ---------------------------------------------------------------------
  // fetchDocumentList

  /** `{ title }`: the list endpoint never supplies `updatedAt`. */
  datatype DocumentListItem = DocumentListItem(title: Json, updatedAt: Option<string>)

  /** The `docs` array of a successful response, or nothing. */
  function ReceivedDocs(outcome: FetchOutcome): (docs: Option<seq<Json>>)
    ensures docs.Some? ==> outcome.Received? && outcome.response.ok && outcome.response.json.Some?
    ensures docs.Some? ==> outcome.response.json.value != JNull
    ensures docs.Some? ==> Prop(outcome.response.json.value, "docs") == Some(JArr(docs.value))
    ensures outcome.Received? && outcome.response.ok && outcome.response.json.Some?
            && outcome.response.json.value.JObj? && "docs" in outcome.response.json.value.fields
            && outcome.response.json.value.fields["docs"].JArr? ==>
      docs == Some(outcome.response.json.value.fields["docs"].items)
  {
    if outcome.Received? && outcome.response.ok && outcome.response.json.Some?
       && outcome.response.json.value != JNull
    then
      var docs := Prop(outcome.response.json.value, "docs");
      if docs.Some? && docs.value.JArr? then Some(docs.value.items) else None
    else None
  }

  /** The end index of `slice(0, end)` on a list of `len` elements. */
  function SliceEnd(len: nat, end: int): (k: nat)
    ensures k <= len
    ensures 0 <= end ==> k == if end < len then end else len
    ensures end < 0 ==> k == if len + end < 0 then 0 else len + end
  {
    if end < 0 then (if len + end < 0 then 0 else len + end)
    else if end < len then end else len
  }

  function TitlesToItems(titles: seq<Json>): (items: seq<DocumentListItem>)
    ensures |items| == |titles|
    ensures forall i :: 0 <= i < |titles| ==> items[i] == DocumentListItem(titles[i], None)
  {
    seq(|titles|, i requires 0 <= i < |titles| => DocumentListItem(titles[i], None))
  }

  /**
   * The shaping in `fetchDocumentList(limit)`: `(data.docs || []).slice(0,
   * limit).map(title => ({ title }))`, and `[]` for every failure (a
   * network error, a non-ok status, a body that is not JSON, a null body,
   * and a truthy `docs` that is not an array, on which `slice` or `map` throws).
   */
  function DocumentListResult(limit: int, outcome: FetchOutcome): (items: seq<DocumentListItem>)
    ensures ReceivedDocs(outcome).None? ==> items == []
    ensures ReceivedDocs(outcome).Some? ==>
      var docs := ReceivedDocs(outcome).value;
      && |items| == SliceEnd(|docs|, limit)
      && forall i :: 0 <= i < |items| ==> items[i] == DocumentListItem(docs[i], None)
  {
    match outcome
    case NetworkError => []
    case Received(response) =>
      if !response.ok || response.json.None? || response.json.value == JNull then []
      else
        var docs := Prop(response.json.value, "docs");
        var docsList := if Truthy(docs) then docs.value else JArr([]);
        if docsList.JArr? then
          TitlesToItems(docsList.items[..SliceEnd(|docsList.items|, limit)])
        else []
  }

  function DocumentListRequest(base: string, limit: int, headers: Headers): Request
  {
    Request("GET", base + "/api/docs?limit=" + IntText(limit), headers, None)
  }

  /** `fetchDocumentList(limit)`. */
  function FetchDocumentList(apiEnv: Option<string>, limit: int,
                             rt: Runtime, parse: JsonParser, send: Transport): (items: seq<DocumentListItem>)
    ensures 0 <= limit ==> |items| <= limit
    ensures forall i :: 0 <= i < |items| ==> items[i].updatedAt.None?
    ensures var outcome := send(DocumentListRequest(ApiBaseUrl(apiEnv), limit, GetApiHeaders(rt, parse)));
      && (ReceivedDocs(outcome).None? ==> items == [])
      && (ReceivedDocs(outcome).Some? ==>
            var docs := ReceivedDocs(outcome).value;
            && |items| == SliceEnd(|docs|, limit)
            && forall i :: 0 <= i < |items| ==> items[i] == DocumentListItem(docs[i], None))
  {
    DocumentListResult(limit, send(DocumentListRequest(ApiBaseUrl(apiEnv), limit, GetApiHeaders(rt, parse))))
  }
}
