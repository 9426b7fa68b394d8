# yumiwiki-frontend: device identity and request decoration, in Dafny

The YumiWiki front end renders wiki documents fetched from a remote API.
Around that markup sits a small layer with behaviour worth stating:

- `lib/store/deviceStore.ts`: a localStorage-persisted store (key
  `device-storage`) whose `initializeDeviceId` fills an empty id slot once
  with a string shaped like a version-4 UUID (section 4.4 of RFC 4122).
- `app/components/DeviceProvider.tsx`: a cookie-based bootstrap. When no
  `device_id=` cookie exists, it writes one with a short `hh-hhhhhh` id and
  fires one `NEW_DEVICE_ID_LOG` request.
- `lib/api.ts`: `getDeviceId` reads the id back from `device-storage`.
  `getApiHeaders` adds it as `X-Device-ID`. `fetchDocument` and
  `fetchDocumentList` turn every failure into `null` and `[]`.
- `lib/store/themeStore.ts`: the dark-mode flag and its toggle.
- `app/sitemap.ts`: the sitemap entry list.

The two identity schemes are modelled separately because the code keeps them
apart. The cookie written by `DeviceProvider` is never read by `api.ts`, which
reads only the `device-storage` entry. Neither `DeviceProvider` nor
`initializeDeviceId` is mounted by `app/layout.tsx`.

Files (one module each): `js.dfy` (JSON values, truthiness, `env || fallback`,
fetch requests and outcomes), `hex.dfy` (hex digits), `device_store.dfy`,
`device_provider.dfy`, `api.dfy`, `theme_store.dfy`, `sitemap.dfy`.

Randomness, storage, `JSON.parse`, `encodeURIComponent` and `fetch` are
parameters:
- Each `Math.random()` draw is a `Nibble` (0..15). The generators take the
  sequence of draws.
- `JSON.parse` is a function `string -> Option<Json>`. `None` stands for a
  thrown SyntaxError.
- `encodeURIComponent(String(v))` is a function `Json -> Option<string>`.
  `None` stands for a thrown URIError.
- `fetch` is a function from a request to a network error or a response. The
  response has `ok` and an optional JSON body; a missing body means
  `response.json()` rejected.
- Environment variables are `Option<string>` parameters.

What the code does, and the model follows, in places where a reader might
expect otherwise:
- The cookie bootstrap's comment speaks of a UUID, but its id is two hex
  digits, a hyphen and six hex digits.
- On the server, `getDeviceId` returns `null`, so server-rendered requests
  carry no `X-Device-ID`. The code does not read the inbound cookie.
- `getDeviceId` returns any truthy `state.deviceId` (a number, `true`, an
  array or an object as well as a non-empty string). The TypeScript annotation
  `string | null` is not checked at run time, and the id's format is never
  checked. `Api.GetDeviceId` therefore returns a JSON value, and the header
  object holds that value.
- A `device_id=` cookie with an empty value counts as present. No new id is
  minted for it.

## Model

| member | source | states |
|---|---|---|
| `Hex.Digit` | yumiwiki-frontend/lib/store/deviceStore.ts:21 | `v.toString(16)` for 0..15 is one lower-case hex digit, `0`-`9` then `a`-`f` |
| `Hex.Value` | yumiwiki-frontend/lib/store/deviceStore.ts:21 | every lower-case hex digit is the digit of exactly the value it reads as |
| `Hex.HexString` | yumiwiki-frontend/app/components/DeviceProvider.tsx:6 | `hex(n)` has one digit per draw, the i-th digit being that of the i-th draw |
| `Hex.ParseHex` | yumiwiki-frontend/app/components/DeviceProvider.tsx:6 | a string reads back as draws iff it is all lower-case hex, and the draws write it again |
| `Hex.ParseHexString` | yumiwiki-frontend/app/components/DeviceProvider.tsx:6 | reading back a written hex string gives the draws it was made from (no two draw sequences give the same text) |
| `Js.EnvOr` | yumiwiki-frontend/app/sitemap.ts:9 | `process.env.X \|\| fallback`: a set, non-empty variable is used as is, and an unset or empty one gives the fallback (so the sitemap's base URL defaults to `https://yumiwiki.com`) |
| `Js.NatTextValue` | yumiwiki-frontend/lib/api.ts:88 | the `${limit}` text of a non-negative number denotes that number, with no leading zero |
| `DeviceStore.VariantNibble` | yumiwiki-frontend/lib/store/deviceStore.ts:19-20 | `(r & 0x3) \| 0x8` lies in 8..11 (binary 10xx) and keeps the draw's two low bits |
| `DeviceStore.TemplateSlots` | yumiwiki-frontend/lib/store/deviceStore.ts:18 | the template has 31 `x`/`y` slots, so one call makes 31 draws |
| `DeviceStore.Fill` | yumiwiki-frontend/lib/store/deviceStore.ts:18-22 | `replace(/[xy]/g, ...)` keeps the length and copies every other character; the k-th slot uses the k-th draw, `x` as its digit and `y` as its variant digit |
| `DeviceStore.FillSlots` | yumiwiki-frontend/lib/store/deviceStore.ts:18-21 | every `x` slot becomes a lower-case hex digit and every `y` slot one of `8`,`9`,`a`,`b` |
| `DeviceStore.FilledTemplateIsUuidV4` | yumiwiki-frontend/lib/store/deviceStore.ts:18 | the filled template is 36 characters: hyphens at 8, 13, 18 and 23, `4` at 14, one of `89ab` at 19, hex digits elsewhere |
| `DeviceStore.GenerateDeviceId` | yumiwiki-frontend/lib/store/deviceStore.ts:17-23 | every generated id has the text form of a version-4 UUID (section 4.4 of RFC 4122) |
| `DeviceStore.DeviceStore.constructor` | yumiwiki-frontend/lib/store/deviceStore.ts:28 | the store starts with `deviceId = null` |
| `DeviceStore.DeviceStore.InitializeDeviceId` | yumiwiki-frontend/lib/store/deviceStore.ts:31-37 | a null or empty id is replaced by a freshly generated well-formed id; a non-empty id is kept; afterwards an id is always set |
| `DeviceStore.InitializeTwice` | yumiwiki-frontend/lib/store/deviceStore.ts:31-37 | a second initialisation is a no-op whatever it would draw: the id is the one set by the first |
| `DeviceProvider.GenerateDeviceId` | yumiwiki-frontend/app/components/DeviceProvider.tsx:5-8 | the short id is two lower-case hex digits, `-`, six lower-case hex digits (9 characters) |
| `DeviceProvider.ParseShortId` | yumiwiki-frontend/app/components/DeviceProvider.tsx:7 | a string reads back as eight draws iff it has the short-id shape, and those draws generate it again: the generated ids are exactly the short-id strings |
| `DeviceProvider.ParseGeneratedId` | yumiwiki-frontend/app/components/DeviceProvider.tsx:6-7 | the draws are recovered from the id, so distinct draws give distinct ids |
| `DeviceProvider.Split` | yumiwiki-frontend/app/components/DeviceProvider.tsx:17 | `split('; ')` always yields at least one part |
| `DeviceProvider.JoinSplit` | yumiwiki-frontend/app/components/DeviceProvider.tsx:17 | re-joining the parts of `split('; ')` with `'; '` gives back the cookie text |
| `DeviceProvider.SplitJoin` | yumiwiki-frontend/app/components/DeviceProvider.tsx:17 | splitting the `document.cookie` text of a non-empty jar gives back exactly its `name=value` pairs |
| `DeviceProvider.FindDeviceCookie` | yumiwiki-frontend/app/components/DeviceProvider.tsx:17 | `find` returns the first part that starts with `device_id=`, and returns nothing only when no part does |
| `DeviceProvider.CookieMissingIff` | yumiwiki-frontend/app/components/DeviceProvider.tsx:17-18 | the effect sees the cookie as missing iff no stored pair is named `device_id` (an empty value still counts as present) |
| `DeviceProvider.Browser.constructor` | yumiwiki-frontend/app/components/DeviceProvider.tsx:15-16 | a page load starts with its cookie jar and nothing written or sent |
| `DeviceProvider.MaxAgeTextIsOneYear` | yumiwiki-frontend/app/components/DeviceProvider.tsx:20 | the `max-age` text of the cookie is the decimal text of `60 * 60 * 24 * 365` |
| `DeviceProvider.Browser.RunEffect` | yumiwiki-frontend/app/components/DeviceProvider.tsx:16-36 | with the cookie present, nothing is written and nothing is sent. Without it, exactly one `device_id=<id>; path=/; max-age=31536000; SameSite=Lax` write happens, followed by exactly one POST to `<apiUrl>/api/logs` with `X-Device-ID: <id>` and body `{logType: NEW_DEVICE_ID_LOG, body: {device_id: <id>}}`, for the same id. Afterwards the cookie is present |
| `DeviceProvider.AtMostOneLog` | yumiwiki-frontend/app/components/DeviceProvider.tsx:18-34 | a page load sends at most one log, and only for the id it stored in the jar |
| `DeviceProvider.RunEffectTwice` | yumiwiki-frontend/app/components/DeviceProvider.tsx:16-36 | running the effect a second time writes and sends nothing more: the jar and the effects are those of the first run's id alone |
| `Api.GetDeviceId` | yumiwiki-frontend/lib/api.ts:7-20 | null on the server, when storage is unreadable, when `device-storage` is missing or empty, and when parsing throws. Otherwise the result is the parsed value's `state.deviceId` when it is truthy, and null when `state` is missing or not an object or `deviceId` is absent or falsy. A returned id is never `""` |
| `Api.ReadPersistedId` | yumiwiki-frontend/lib/api.ts:11-14 | reading back the store's persisted envelope gives its id when non-empty, and null for a null or empty id |
| `Api.ReadStoreId` | yumiwiki-frontend/lib/api.ts:11-14 | the persisted state of a device store reads back as its id when it holds one, and as null otherwise |
| `Api.GetApiHeaders` | yumiwiki-frontend/lib/api.ts:26-37 | always `Content-Type: application/json`; `X-Device-ID` present iff `getDeviceId()` is non-null, equal to it; no other key |
| `Api.ServerHeaders` | yumiwiki-frontend/lib/api.ts:8 | server-rendered requests carry only `Content-Type` |
| `Api.HeadersCarryPersistedId` | yumiwiki-frontend/lib/api.ts:26-36 | a browser whose store persisted a non-empty id sends exactly that id as `X-Device-ID` |
| `Api.DocumentResult` | yumiwiki-frontend/lib/api.ts:68-75 | a network error, a non-ok status or a body that is not JSON gives null; an ok response with a parsed body gives exactly that body |
| `Api.FetchDocument` | yumiwiki-frontend/lib/api.ts:62-77 | a title the encoder rejects gives null. Otherwise, for the response to `GET <base>/api/docs/<encoded title>` with the API headers: an ok parsed body is returned as is, every failure gives null, and a non-null result is always such a body |
| `Api.ReceivedDocs` | yumiwiki-frontend/lib/api.ts:96-100 | docs are found exactly when the body is ok, parsed and not null and its `docs` field is an array; they are that array |
| `Api.TitlesToItems` | yumiwiki-frontend/lib/api.ts:101 | `map(title => ({ title }))` keeps order and length and sets no `updatedAt` |
| `Api.SliceEnd` | yumiwiki-frontend/lib/api.ts:101 | the end of `slice(0, limit)` never passes the list: a non-negative `limit` is clamped to the length, and a negative one counts back from the end, stopping at 0 |
| `Api.DocumentListResult` | yumiwiki-frontend/lib/api.ts:92-105 | every failure (including a missing, falsy or non-array `docs`) gives `[]`; otherwise the first `slice(0, limit)` titles of `docs`, in order, as `{title}` |
| `Api.FetchDocumentList` | yumiwiki-frontend/lib/api.ts:86-106 | for the response to `GET <base>/api/docs?limit=<limit>` with the API headers: `[]` on every failure, otherwise the first `slice(0, limit)` titles of `docs` in order. At most `limit` items, none with `updatedAt` |
| `ThemeStore.ThemeStore.constructor` | yumiwiki-frontend/lib/store/themeStore.ts:13 | the theme starts light (`isDark = false`) |
| `ThemeStore.ThemeStore.ToggleTheme` | yumiwiki-frontend/lib/store/themeStore.ts:14 | `isDark` becomes its negation and nothing else changes |
| `ThemeStore.ToggleTwice` | yumiwiki-frontend/lib/store/themeStore.ts:14 | toggling twice restores the original preference |
| `Sitemap.DocumentEntries` | yumiwiki-frontend/app/sitemap.ts:16-21 | the document entries exist iff every title encodes; then entry i is `<base>/docs/<encoded title i>`, weekly, priority 0.8, in document order |
| `Sitemap.Sitemap` | yumiwiki-frontend/app/sitemap.ts:8-50 | on success: `2 + \|documents\|` entries, `<base>` then `<base>/docs` (daily), then one per document in order; if encoding throws: only the `<base>` entry |
| `Sitemap.ChangeFrequencies` | yumiwiki-frontend/app/sitemap.ts:19-34 | exactly the first two entries are daily; document entries are weekly |
| `Sitemap.SitemapSize` | yumiwiki-frontend/app/sitemap.ts:13 | listing with limit 1000 yields at most 1002 sitemap entries |

## Left out

- `Math.random`: each call's result is a parameter (a `Nibble`). Uniqueness therefore appears only as injectivity of the short id in its draws.
- zustand's `persist` middleware is not modelled: rehydration timing and storage writes are left out. Only the `{state, version: 0}` envelope it writes is modelled, as a JSON value.
- `JSON.parse` and `JSON.stringify` work on text and are left out. Stored and sent JSON are modelled as JSON values, so the request body of the log is a value, not its text.
- `fetch` transport, React `cache` memoisation and `console.error` logging are left out. The log request of `DeviceProvider` is recorded but its outcome is not modelled: it is never awaited and `.catch(() => {})` swallows it.
- Browser cookie storage: the `document.cookie` setter is modelled as adding the new `name=value` pair to the jar. Cookie attributes (path, expiry, SameSite) are kept only in the assignment text. Cookie values never contain `;`.
- JavaScript numbers are `real` inside JSON values. `limit` is an integer; a fractional `limit` is not modelled. The default `limit = 5` is not modelled because callers always pass one.
- Js.IntText: writes the full decimal text of any integer. JavaScript writes `${limit}` in exponent form from `1e21` on, and integers above 2^53 lose precision; neither is modelled. The callers pass 5 and 1000.
- `new Date()` timestamps in the sitemap entries are left out.
- Concurrency: two tabs minting at once is not modelled (the code does not coordinate them), nor are React effect scheduling and hydration.
- `app/layout.tsx`'s inline theme script, `ThemeProvider.tsx` (a DOM class toggle) and the rendering components are markup and are left out.
