# MarvEdge share-link and analytics bookkeeping, in Dafny

MarvEdge records a screen capture in the browser, uploads it and hands out a
public share link (`/share/<id>`) whose page counts views and completions. The
server side of this is four Next.js route handlers that each load a JSON
table, change it and write it back:

- `POST /api/analytics` bumps the `views` or `completions` counter of one
  video in the analytics table (`Analytics`, `analytics.dfy`);
- `POST /api/create-share`, `POST /api/upload` and `POST /api/trim-upload`
  append a new record to the video list and return its share link
  (`CreateShare`, `Upload`, `TrimUpload`, over the shared `Videos` module).

Each table is a class field (`Analytics.AnalyticsFile.table`,
`Videos.VideoList.videos`, and `Videos.MediaDir.files` for the uploaded
bytes); each handler is a method that runs the handler's guards in the
source's order, with early returns, and changes the field only on the paths
where the source writes the file. Which I/O calls throw (request parsing,
reading or parsing the table, writing it, writing the media file, the
storage provider call) is an input, the set `faults` of `Io.IoCall`s, so
every `catch` path is a case of the contract. The generated uuid and the
`new Date().toISOString()` timestamp are parameters (`id`, `now`), and the
storage provider's answer is the optional URL `providerUrl`.

Responses are `Http.Response(status, body)` with the exact messages of the
source. The three appending handlers keep their own record shapes:
`create-share` and `trim-upload` store `views: 0` and no `shareLink`,
`upload` stores a `shareLink` and no `views`; `Videos.VideoRecord` has
optional fields for that (`None` is a key the written object lacks).

The analytics counters are specified by `Analytics.Record` (one accepted
event) and `Analytics.Replay` (a series of events on one video). The lemmas
prove the per-event facts, the frame, monotonicity and a closed form for any
series. From the closed form follow the order-independence of views and
completions and the `{views: N, completions: M}` result from an absent entry.

Behaviour of the source that the model keeps as it is:
- `readFile` and `JSON.parse` throw on a missing or unparsable `videos.json` /
  `analytics.json`, so the handler answers 500; no handler treats a missing
  store as empty;
- `trim-upload` calls the storage provider without checking for an access
  token of its own; a provider throw or a result without data are its only
  provider failures;
- `create-share` uses whatever `videoUrl` the body carries and stores a
  record without `file` when the body has none;
- the analytics handler reads the table with plain object indexing, so an id
  the parsed object inherits from `Object.prototype` (one of the twelve
  `Analytics.InheritedKeys`) with no entry of its own is neither created nor
  counted (see "## Findings"). `Analytics.RecordAsWritten` is that update;
  it equals the intended `Analytics.Record` for every other id
  (`Analytics.RecordAsWrittenAgrees`), so the `Record` and `Replay` lemmas
  describe the handler for all those ids.

## Model

| member | source | states |
|---|---|---|
| Analytics.AnalyticsFile.Post | src/app/api/analytics/route.ts:5-35 | a body that cannot be parsed gives 500 "Internal server error"; a falsy `videoId` or `event` gives 400 "Missing videoId or event"; a failing read or write gives 500; on all these paths the table is unchanged; otherwise the answer is `{success: true}` and the table is `RecordAsWritten(old table, videoId, event)`: the zero entry is created only when `!analytics[videoId]` holds and the increment is saved only through an own entry |
| Analytics.RecordVivifies | src/app/api/analytics/route.ts:16-18 | after an accepted event the id has an entry, no other key appears, and for an unknown event on an unseen id that entry is `{0, 0}` |
| Analytics.RecordView | src/app/api/analytics/route.ts:20-22 | "view" raises that id's views by exactly one and leaves its completions as they were (absent reads as zero) |
| Analytics.RecordCompletion | src/app/api/analytics/route.ts:23-25 | "completion" raises that id's completions by exactly one and leaves its views as they were |
| Analytics.RecordOtherEvent | src/app/api/analytics/route.ts:16-29 | any other event changes no counter; the table changes only by gaining the missing zero entry |
| Analytics.RecordFrame | src/app/api/analytics/route.ts:16-27 | the entries of every other id are untouched and no counter of any entry decreases |
| Analytics.ReplayClosedForm | src/app/api/analytics/route.ts:16-25 | a non-empty series of events on one id sets that id's counters to the old ones plus the number of "view" and of "completion" events in the series, and changes nothing else |
| Analytics.ReplayFromAbsent | src/app/api/analytics/route.ts:16-25 | from an absent entry, any series with N "view" and M "completion" events, in any order, yields `{views: N, completions: M}` |
| Analytics.ReplayCommutes | src/app/api/analytics/route.ts:16-25 | two series with the same events in different orders produce the same table |
| Analytics.ReplayMonotone | src/app/api/analytics/route.ts:16-27 | no series of events lowers any counter or removes any entry |
| Analytics.RecordAsWrittenAgrees | src/app/api/analytics/route.ts:16-25 | for an id that has an own entry or is not an inherited `Object.prototype` key, the update as written is exactly the intended `Record` |
| Analytics.RecordAsWrittenDropsInherited | src/app/api/analytics/route.ts:16-27 | for an inherited key absent from the table, every event leaves the saved table unchanged |
| Analytics.InheritedKeyDropsEvent | src/app/api/analytics/route.ts:16-21 | a "view" for id "constructor" on an empty table leaves no entry as written, where the intended update gives `{1, 0}` |
| Videos.AppendFresh | src/app/api/create-share/route.ts:10-24 | appending a record with an id not yet in a list of unique ids keeps the ids unique, and looking up that id finds the new record |
| Videos.AppendKeepsLookups | src/app/api/create-share/route.ts:16-24 | appending never changes the record an already present id resolves to |
| CreateShare.Post | src/app/api/create-share/route.ts:6-32 | any failure to parse the body, read or write the list gives 500 "Failed to create share" with the list unchanged; otherwise the list is the old list plus one record `{id, file: videoUrl, title: "Recording " + id, views: 0, createdAt: now}` at the end and the answer is `{shareLink: "/share/" + id}`; with a fresh id, ids stay unique and the id finds the new record |
| Upload.Post | src/app/api/upload/route.ts:6-40 | a missing or empty `video` field gives 400 "No video file provided" with neither the media files nor the list touched; a thrown error gives 500 "Upload failed"; the bytes are saved as `id + ".webm"` before the list is read and stay saved if the list update fails; on success the list gains `{id, title: "Recording " + id, file: "/uploads/" + id + ".webm", shareLink: "/share/" + id, createdAt: now}` at the end, with no `views`, and the answer carries that same share link |
| TrimUpload.Post | src/app/api/trim-upload/route.ts:7-48 | a missing or empty `video` field gives 400 before the provider is called; a provider result without data gives 500 "Upload to UploadThing failed" whatever the list's own faults, so the list is not read; other errors give 500 "Trim upload failed"; all these leave the list unchanged; on success the list gains `{id, file: ufsUrl, title: "Recording " + id, views: 0, createdAt: now}` at the end and the answer is `{shareLink: "/share/" + id}` |
| Http.ShareLinkRoundTrip | src/app/api/create-share/route.ts:26 | the id the `/share/[id]` page reads from an issued link is `id` exactly when the path is `"/share/" + id` for a non-empty id without `/` |
| Http.ShareLinkInjective | src/app/api/create-share/route.ts:26 | distinct ids are given distinct share links |

## Findings

| source | as written | input that shows it | evidently intended | confidence | as-written member | corrected member |
|---|---|---|---|---|---|---|
| src/app/api/analytics/route.ts:16-21 | `!analytics[videoId]` is false for a key the parsed object inherits from `Object.prototype`, so no entry is created and `analytics[videoId].views += 1` changes the inherited value; the saved table has no entry while the answer is `{success: true}` | `{videoId: "constructor", event: "view"}` on `{}` | every accepted event is counted for its id | medium, not executed | Analytics.RecordAsWrittenDropsInherited | Analytics.RecordView |

`Analytics.AnalyticsFile.Post` models the handler as written, through
`Analytics.RecordAsWritten`; `Analytics.RecordAsWrittenDropsInherited` shows
the loss for every inherited key and event. The corrected update is
`Analytics.Record`, about which the `Record` and `Replay` lemmas are proved.

## Left out

- File and key-value-store I/O and JSON parse/stringify: each table is held as its parsed value; a failing read, parse or write is a member of `faults`.
- A failing `fs.writeFile` is taken to leave the old file intact; partial or truncated writes are not modelled.
- HTTP, `NextRequest`/`NextResponse` and multipart parsing: requests are their fields, responses a status and a body.
- uuid generation and the clock: `id` and `now` are inputs. Uniqueness of ids is proved only when `id` is fresh, because the code never checks it.
- The storage provider call `utapi.uploadFiles` and the router in src/app/api/uploadthing/core.ts: only the provider's result (an optional URL, or a throw) is modelled.
- Request fields are modelled as optional strings. Numbers, `null` and other JSON values for `videoId`, `event` or `videoUrl` are not modelled.
- Analytics.AnalyticsFile.Post: counters are unbounded naturals. JavaScript's double-precision `+= 1` stops increasing past 2^53, and that is not modelled.
- Concurrent requests and the lost update of the unlocked read-modify-write cycles: these are concurrency, and the code does nothing against them.
- `GET /api/video/[id]`: outside the modelled handlers. Only its list lookup, `videos.find(v => v.id === id)`, is modelled, as `Videos.FindById`, to state what a share link leads to; the route's response is not modelled.
- A route that copies the local tables into a remote key-value store is not part of this source, and is not modelled.
- src/components/Recorder.tsx (capture, FFmpeg trim on floating-point seconds), src/components/SocialBar.tsx and src/app/page.tsx: browser APIs, an external engine and UI markup.
