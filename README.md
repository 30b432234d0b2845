# Realtime client registry of the detection hub, in Dafny

This project models the core of the hub's WebSocket server. That core is the
process-wide `clients` registry and the handlers that change it. The registry
maps a client identity to an entry that holds:

- the connection bound to it;
- the last detection payload;
- the `lastUpdated` time;
- the `originalId` it was renamed from;
- the last 20 photo captures.

Three inbound events change the registry:

- a `detection-data` frame: an upsert, with `<id>-conflict-<k>` renaming when
  another open connection holds the identity;
- a `capture` frame: an append to a history that keeps the last 20;
- a connection closing: the first entry bound to that connection is deleted.

After each change the hub broadcasts a `clients-update` snapshot. Before it
admits a connection, it checks a shared token.

Files and modules:

- `wrappers.dfy` (`Wrappers`): `Option`, which stands for `null`/`undefined`
  and `??`.
- `decimal.dfy` (`Decimal`): the decimal text of the numeric suffix, and its
  parser.
- `conflict.dfy` (`Conflict`): the rename candidates, the least free suffix,
  and the candidate-search loop.
- `registry.dfy` (`Registry`): these pieces:
  - the entry types;
  - the registry, an insertion-ordered key list beside a key/value table,
    which is how a JavaScript `Map` orders `set` and `delete`;
  - the bounded capture append;
  - the snapshot builder;
  - the scan for the first entry bound to a connection.
- `events.dfy` (`Events`): each event as a pure transition
  (`Detect`, `RecordCapture`, `Close`, `Step`) that returns the new registry
  and the outputs sent, in order (`IdReassignment`, `ClientsUpdate`), with the
  lemmas about them.
- `auth.dfy` (`Auth`): the token check.
- `server.dfy` (`Server`): class `Hub`. Its fields are the registry, and its
  methods are the `connection`, `message` and `close` handlers. They update
  the fields in place, with the loops of the source. The message and close
  handlers are each proved equal to the matching transition of `Events`;
  `Hub.Set` is proved equal to `Registry.Set`; the connection handler, which
  touches no entry, is proved to admit exactly what `Auth.Authorized`
  admits. `Hub.Valid()` is kept by every handler. It says:
  - every key occurs once in the iteration order;
  - every history holds at most 20 captures;
  - every entry is bound to a connection that passed the token check.

How the environment is modelled:

- A connection is an abstract id, compared by identity as the source compares
  `ws` objects.
- `readyState === OPEN` is a set `open` of connections, passed to each step.
- Payloads, images, locations and timestamps are opaque `Value`s, each held
  as its JSON text.
- `new Date()` and `new Date().toISOString()` are the inputs `now` and
  `nowIso`.
- Frames arrive already decoded as `Message`. An unparseable frame, or any
  other `type`, is `Other`.

## Behaviour of the code worth knowing

- The code does not keep one entry per connection. A connection may send
  detections under two identities. A `capture` frame sets `entry.ws` to its
  sender even when another open connection holds that identity. The close
  handler stops at the first match. So a closed connection can leave its
  later entries behind (`Events.CloseKeepsLaterEntries`).
- A claim on an identity whose holder is no longer open overwrites that entry
  without renaming (`Events.DetectInPlace`).
- A renamed client that keeps sending detections under its old identity,
  while the first holder stays open, gets a new entry on every frame:
  `drone1-conflict-1`, then `drone1-conflict-2`, and so on. The rename search
  skips every existing key, the sender's own renamed entry included
  (`Events.RenamedClientKeepsForking`).
- `capture` frames never go through conflict renaming.
- The broadcast fills a plain object by assignment, and assigning the key
  `__proto__` sets the object's prototype instead of adding a key. An entry
  under that identity is therefore never shown to viewers (`Registry.Snapshot`,
  `Registry.BuildSnapshot`).

## Model

| member | source | states |
|---|---|---|
| `Decimal.FromNat` | src/lib/server/websocket.js:74 | the rendered suffix is a non-empty string of decimal digits with no leading zero |
| `Decimal.ToNatFromNat` | src/lib/server/websocket.js:74-77 | parsing the rendered suffix gives back the number (round trip) |
| `Decimal.FromNatInjective` | src/lib/server/websocket.js:74-77 | distinct suffixes render as distinct strings |
| `Conflict.ConflictId` | src/lib/server/websocket.js:74-77 | a rename candidate strictly extends the requested identity, so it never equals it |
| `Conflict.ConflictIdInjective` | src/lib/server/websocket.js:74-77 | candidates for different suffixes of one identity are different identities |
| `Conflict.SearchFrom` | src/lib/server/websocket.js:75-78 | continuing the search from `k` ends at the least free suffix at or after `k` |
| `Conflict.LeastFreeSuffix` | src/lib/server/websocket.js:73-78 | the chosen suffix is at least 1, its candidate is absent from the registry, and every smaller candidate is present |
| `Conflict.LeastFreeUnique` | src/lib/server/websocket.js:73-78 | at most one suffix is the least free one |
| `Conflict.ResolveConflict` | src/lib/server/websocket.js:73-78 | the loop that skips candidates already in the registry stops at the least free suffix; the identity it returns is that candidate, fresh, and different from the requested one |
| `Registry.Registry.Set` | src/lib/server/websocket.js:93 | `Map.set` makes the key present with the given entry, adds no other key, and leaves the order alone when the key was already present |
| `Registry.SetFrame` | src/lib/server/websocket.js:93 | `Map.set` leaves every other key's entry unchanged, and a new key goes to the end of the iteration order |
| `Registry.Registry.RemoveAt` | src/lib/server/websocket.js:130 | `Map.delete` removes exactly the key at that position from the keys, and the order loses one element |
| `Registry.RemoveAtFrame` | src/lib/server/websocket.js:130 | `Map.delete` leaves every remaining entry unchanged |
| `Registry.SetValid` | src/lib/server/websocket.js:93 | `Map.set` keeps each key once in the order, and, given a bounded history, keeps all histories bounded |
| `Registry.RemoveAtValid` | src/lib/server/websocket.js:130 | `Map.delete` removes exactly that key and keeps each remaining key once, in order |
| `Registry.Retained` | src/lib/server/websocket.js:115 | trimming keeps `min(20, n)` captures of a history of `n` |
| `Registry.AppendBounded` | src/lib/server/websocket.js:109-115 | after the push and the `shift` loop, the history is the last `min(20, n+1)` elements of the old history followed by the new capture, and ends with the new capture |
| `Registry.Snapshot` | src/lib/server/websocket.js:159-165 | the `clients-update` payload has every registry identity as a key except `__proto__`, which the object assignment swallows |
| `Registry.BuildSnapshot` | src/lib/server/websocket.js:162-165 | the loop's result has exactly the registry's keys except `__proto__`; each maps to that entry's payload and captures; it equals `Snapshot` |
| `Registry.SnapshotHidesConnections` | src/lib/server/websocket.js:164 | the snapshot depends only on payloads and captures, never on connections or timestamps |
| `Registry.FirstBoundFrom` | src/lib/server/websocket.js:128-129 | the scan finds the first position bound to the connection, or reports that none is bound |
| `Events.EffectiveId` | src/lib/server/websocket.js:70-80 | the stored identity differs from the requested one exactly when the claim conflicts, and a different one is not yet in the registry |
| `Events.Detect` | src/lib/server/websocket.js:69-102 | a detection adds exactly its effective identity to the keys, and sends one or two outputs, the last of which is the broadcast of the new registry |
| `Events.DetectRenaming` | src/lib/server/websocket.js:70-80 | a claim is renamed iff the identity exists, is bound to another connection, and that connection is open; the new identity is the least free candidate and is not in the registry |
| `Events.DetectInPlace` | src/lib/server/websocket.js:70-99 | a re-send from the holder, or a claim on a closed holder's identity, is never renamed; it overwrites that entry in its position, keeps its captures, and sends no notice |
| `Events.DetectResult` | src/lib/server/websocket.js:92-99 | the entry at the effective identity has the sender as `ws` and the payload as `data`; its captures are the previous ones under that identity (none after a rename); `originalId` is the requested identity exactly on a rename, else null |
| `Events.DetectFrame` | src/lib/server/websocket.js:93 | a detection adds only the effective identity, leaves every other entry unchanged, deletes nothing, and appends a new identity at the end of the order |
| `Events.DetectNotices` | src/lib/server/websocket.js:82-102 | exactly one `id-reassignment` carrying the new identity is sent, only on a rename and only to an open sender, before the one broadcast that ends the step |
| `Events.DetectValid` | src/lib/server/websocket.js:92-99 | a detection keeps the registry's shape and the capture bound |
| `Events.DetectAllLastWins` | src/lib/server/websocket.js:69-102 | from an empty registry, claims where each identity has one sender leave one entry per claimed identity, holding the latest payload, bound to its sender, never renamed |
| `Events.ReflectsStep` | src/lib/server/websocket.js:70-99 | a claim by an identity's own holder, or on an absent identity, keeps the registry reflecting the latest claim per identity |
| `Events.DetectWithoutConflict` | src/lib/server/websocket.js:88-99 | a claim with no conflict stores the sender and payload under the requested identity, with a null `originalId` and the previous captures |
| `Events.DroneConflictExample` | src/lib/server/websocket.js:70-99 | `drone1` from one connection, then from a second open one: the second gets `drone1-conflict-1`, the first entry is untouched, and the broadcast shows both |
| `Events.RenamedClientKeepsForking` | src/lib/server/websocket.js:70-99 | after that exchange, a further `drone1` claim from the renamed client gets `drone1-conflict-2`; the keys are then `drone1`, `drone1-conflict-1` and `drone1-conflict-2`, both renamed ones bound to that client |
| `Events.RecordCapture` | src/lib/server/websocket.js:103-121 | a capture adds exactly its identity to the keys, binds it to the sender with at most 20 captures, and sends one broadcast of the new registry |
| `Events.CaptureResult` | src/lib/server/websocket.js:105-118 | after a capture, the entry has the bounded history ending in the new capture and the sender as `ws`; a missing identity gets payload `{}` and a null `originalId` |
| `Events.CaptureFrame` | src/lib/server/websocket.js:118 | a capture adds only its identity, leaves every other entry unchanged, and deletes nothing |
| `Events.CaptureValid` | src/lib/server/websocket.js:105-118 | a capture keeps the registry's shape and every history at most 20 |
| `Events.RetainedAppend` | src/lib/server/websocket.js:109-115 | trimming the history after each push equals trimming once after the push |
| `Events.AppendAllRetains` | src/lib/server/websocket.js:109-115 | any run of captures leaves exactly the last 20 of the whole history, in arrival order |
| `Events.CaptureAllHistory` | src/lib/server/websocket.js:103-118 | a run of capture frames for one identity leaves it present, with the history the bounded append of the whole run to its previous history |
| `Events.TwentyFiveCaptures` | src/lib/server/websocket.js:109-115 | 25 captures into an empty history leave the last 20; the first five are evicted |
| `Events.TwentyFiveCaptureFrames` | src/lib/server/websocket.js:103-118 | 25 capture frames for a new identity leave the last 20 in its history, in arrival order |
| `Events.Close` | src/lib/server/websocket.js:127-136 | a close removes keys only and adds none; either it changes nothing and sends nothing, or it shortens the order by one and sends one broadcast of the new registry |
| `Events.CloseOneKey` | src/lib/server/websocket.js:128-132 | a close that broadcasts removes exactly one identity from the table and leaves every other entry as it was |
| `Events.CloseEffect` | src/lib/server/websocket.js:127-136 | a close deletes only the first entry, in iteration order, bound to the connection and broadcasts once; with no such entry it changes nothing and sends nothing |
| `Events.CloseKeepsLaterEntries` | src/lib/server/websocket.js:128-134 | when a connection is bound to two entries, the later one is still there and still bound to it after the close |
| `Events.CloseValid` | src/lib/server/websocket.js:127-136 | a close keeps the registry's shape |
| `Events.Step` | src/lib/server/websocket.js:64-125 | a frame of any other type changes nothing and sends nothing; a detection or capture frame ends with a broadcast of the new registry |
| `Auth.NoTokenAdmitsAll` | src/lib/server/websocket.js:22-43 | with the token variable unset or empty, every connection is admitted whatever it presents |
| `Auth.BearerToken` | src/lib/server/websocket.js:47-50 | a credential is read iff the header exists and its first seven characters lower-case to `bearer `; it is the rest of the header |
| `Auth.Authorized` | src/lib/server/websocket.js:41-55 | with no token configured the check passes; with one, a connection that presents neither the token in the query nor a header is refused |
| `Auth.AuthorizedIff` | src/lib/server/websocket.js:41-55 | with no token, every connection is admitted; with token `t`, a connection is admitted iff the query token is `t`, or the header's first seven characters lower-case to `bearer ` and the rest of the header is `t` |
| `Auth.BearerAnyCase` | src/lib/server/websocket.js:48-51 | `Bearer t` and `BEARER t` are accepted, while `Basic t` and a missing credential are refused |
| `Server.Hub.constructor` | src/lib/server/websocket.js:11-22 | the hub starts with an empty registry and the configured token |
| `Server.Hub.Set` | src/lib/server/websocket.js:93-118 | `clients.set` updates the fields as the registry's `Set` does |
| `Server.Hub.OnConnection` | src/lib/server/websocket.js:41-60 | a connection is admitted iff the token check passes; a refused one changes nothing in the registry and is bound to no entry |
| `Server.Hub.OnDetection` | src/lib/server/websocket.js:69-102 | the detection branch, with its rename loop, yields the new registry and outputs of `Detect`, and keeps `Valid()` |
| `Server.Hub.OnCapture` | src/lib/server/websocket.js:103-121 | the capture branch, with its push and shift loop, yields the new registry and output of `RecordCapture`; a missing timestamp becomes `nowIso` |
| `Server.Hub.OnMessage` | src/lib/server/websocket.js:64-125 | the message handler dispatches on the frame type; any other frame changes nothing and sends nothing |
| `Server.Hub.OnClose` | src/lib/server/websocket.js:127-136 | the close handler's scan, which stops at the first match, yields the registry and output of `Close`, and keeps `Valid()` |

## Left out

- Server construction is not modelled: the port, the `globalThis` singleton reuse and the `EADDRINUSE` handling (src/lib/server/websocket.js:5-36, 139-157, 177). These are host-environment concerns.
- `JSON.parse`, `JSON.stringify` and `ws.send` are not modelled. The fan-out over `wss.clients` to every open viewer (src/lib/server/websocket.js:167-174) is reduced to a single `ClientsUpdate` output that carries the snapshot. Delivery belongs to the WebSocket library.
- The `if (!wss) return;` guard (src/lib/server/websocket.js:160) is not modelled. Handlers exist only on a running server, so there, every step broadcasts.
- Sends are assumed never to throw. In the message handler (src/lib/server/websocket.js:64-124), a throw would be caught by its `try` and end the step early. The close handler (src/lib/server/websocket.js:127-136) has no `try`, so a throw from its broadcast would escape the close listener after the entry was deleted.
- The URL parsing is not modelled. The query token and the header are given as optional strings, and a repeated `token` parameter counts as absent. A parse failure inside the `try` (src/lib/server/websocket.js:44-54), which would refuse a connection even with a good header, is not modelled.
- `Auth.ToLower` lower-cases only ASCII letters. JavaScript's `toLowerCase` also folds other Unicode letters, and none of those lower-cases to a letter of `bearer `.
- Client identities are strings. The source accepts any JSON value as a Map key.
- `Registry.BuildSnapshot` models the snapshot entry `{ ...client.data, captures }` as the pair of payload and captures. It does not model the merge of the payload's own fields, or a `captures` field in the payload being overridden.
- The snapshot is a map, so the key order of the serialized JSON object is not modelled. The registry's own iteration order is modelled.
- Entries are values. The capture branch mutates the existing entry object in place. Nothing else holds a reference to it, so replacing the entry in the table has the same effect. The two `new Date()` calls of that branch (lines 106 and 117) are one input `now`, since the second overwrites the first.
- Console logging is not modelled.
- src/lib/adapter/yolov8/map.js, src/lib/adapter/yolov8/webcam.js, src/lib/config.js and src/lib/tf-wasm-setup.js are not part of this model. They are DOM, browser-device and floating-point glue, or constants.
