# teams-hook: subscriber registry and handlers, in Dafny

teams-hook is a small relay written in Go. It receives webhook requests over HTTPS. A POST without a `validationToken` query value has its body written, in list order, to the WebSocket connections in its registry, and the writing stops at the first write that fails. A connection enters the registry after its client sends the shared access token. Removal is imperfect (see below), so the registry can still hold connections whose sessions have closed. This project models the relay's core in `teams-hook.go` and proves properties of that model:

- the subscriber registry: the global `connections` slice and `addConnection`, `removeConnection`, `notifySockets`;
- the choice `webhookHandler` makes for each request;
- the handshake in `wsAuthenticate`;
- the session lifecycle in `wsHandler`.

Files:

- `wire.dfy` (module `Wire`): bytes, read results, `Option`, and `FirstFalse`. `FirstFalse` gives the step at which a loop that stops at the first failed call stops.
- `registry.dfy` (module `Registry`): `Conn` is an opaque connection handle compared by reference, as Go compares `*websocket.Conn` pointers. `class Registry` holds `connections: seq<Conn>` and a ghost log of the `addConnection` and `removeConnection` calls made on it. The specification functions `ScanIndex`, `Removed` and `Broadcast` are here, with their lemmas.
- `websocket.dfy` (module `WebSocket`): the handshake function `WsAuthenticate`, the lifecycle function `Lifecycle`, and the method `WsHandler`. `WsHandler` runs one session against a `Registry`.
- `webhook.dfy` (module `Webhook`): the three-way decision `HandleWebhook`, and `ServeWebhook`, which wires that decision to `NotifySockets`.

The socket library's calls become inputs:

- whether the upgrade succeeded;
- the handshake `ReadMessage` result (a payload or an error);
- the outcome of each `WriteMessage`, as a `seq<bool>` indexed like the registry;
- the outcomes of the successive `NextReader` calls, as a `seq<bool>`.

The write-outcome inputs must have one entry per registered connection. The access token is a parameter, not a global flag.

The model keeps two oddities of the code as written:

- The scan in `removeConnection` stops before the last slot (`i < len(connections) - 1`). A handle held only in the last slot is never found, and the list is left unchanged. A consequence is proved as `ClosedSessionStaysRegistered`. When a session runs with no other session registering between its add and its remove, its connection is still last at removal time. The closing session's entry therefore stays in the registry. `WsHandler` states this too: a session that registered leaves the list at `old + [conn]`, whether it is still listening or already closed.
- `notifySockets` stops at the first failed write. Later connections receive nothing. It still reports `len(connections)` as its recipient count.

Other facts about the code that the model follows:

- Connections have no numeric identity. They are compared by pointer.
- There is no `auth` query check and no 403 response. A non-empty `validationToken` query value is echoed back as `text/plain`.
- There is no payload extraction. The body is broadcast unchanged.

## Model

| member | source | states |
|---|---|---|
| Wire.FirstFalse | teams-hook.go:108-114 | the stopping index of a stop-at-first-failure loop: every earlier outcome succeeded, and the one at the index (if any) failed |
| Registry.ScanIndex | teams-hook.go:38-44 | the index the removal scan settles on: the first index of the handle among 0 .. len-2 (never the last slot), or -1 when the handle is in none of them |
| Registry.LastSlotNeverExamined | teams-hook.go:39-47 | a handle held only in the last slot (including the single entry of a one-element list) is not found and the list is unchanged |
| Registry.ShortListNeverShrinks | teams-hook.go:39-47 | removal from an empty or one-element list never changes the list |
| Registry.RemovedSplicesOut | teams-hook.go:46-50 | when found at index i, the new list is the old one with exactly entry i spliced out: length minus one, earlier entries in place, later ones shifted down by one, multiset loses one copy of the handle |
| Registry.RemovedLength | teams-hook.go:46-50 | removal shortens the list by one exactly when the scan finds the handle, and leaves it unchanged exactly when it does not |
| Registry.RemovedFindsEarlierEntry | teams-hook.go:39-49 | a handle present at some index other than the last is found at or before that index and one entry is removed |
| Registry.AppendThenRemoveKeepsEntry | teams-hook.go:30-50 | appending a new handle and then removing it leaves the handle registered, because it sits in the unexamined last slot |
| Registry.Delivered | teams-hook.go:108-114 | a connection is among those delivered to exactly when some successful write went to it |
| Registry.BroadcastInOrder | teams-hook.go:108-114 | the writes of a broadcast go to connections 0, 1, 2, ... in index order with the given message, up to and including the first failed write and no further |
| Registry.BroadcastDelivers | teams-hook.go:108-114 | exactly the connections before the first failed write receive the message, in order, once per registration |
| Registry.AllWritesSucceed | teams-hook.go:108-114 | when every write succeeds, every registered connection receives the message, and it is the message given |
| Registry.FailureStopsBroadcast | teams-hook.go:109-113 | after the first failed write at index k, nothing more is written: k+1 attempts, and only connections before k receive the message |
| Registry.Registry.constructor | teams-hook.go:21 | the registry starts empty, with an empty call log |
| Registry.Registry.AddConnection | teams-hook.go:30-34 | the handle is appended at the end: length plus one, earlier entries unchanged and in order; one `Add` call on the handle is logged |
| Registry.Registry.RemoveConnection | teams-hook.go:36-52 | the loop over indices 0 .. len-2 leaves the list as `Removed` of the old list; the returned flag is false exactly when the source logs "not found"; one `Remove` call on the handle is logged, found or not |
| Registry.Registry.NotifySockets | teams-hook.go:106-117 | the writes made are `Broadcast` of the registry (index order, stop at first failure); the reported count is the registry length whatever failed; the registry is not modified |
| WebSocket.Reply.Text | teams-hook.go:62-68 | the two acknowledgements have lengths 16 and 17, so they are distinct; the texts themselves, `{ "auth": true }` and `{ "auth": false }`, are its body |
| WebSocket.WsAuthenticate | teams-hook.go:54-75 | returns true iff the read succeeded, the payload equals the access token and the reply write succeeded; reply is the true acknowledgement exactly when the payload matches, the false one exactly when it does not, and none on a read error |
| WebSocket.AddOnlyAfterAuthentication | teams-hook.go:78-91 | a session calls add exactly when the upgrade succeeded and the handshake returned true; its first registry call is always the add |
| WebSocket.RemoveExactlyOnceAfterReadError | teams-hook.go:91-102 | a registered session calls remove exactly once, after its first read error, and never while all reads succeed; frames before that error were read and ignored |
| WebSocket.FailedSessionLeavesRegistry | teams-hook.go:78-88 | on upgrade failure or handshake failure the registry is never touched |
| WebSocket.WrongTokenNeverRegistered | teams-hook.go:60-88 | a wrong token yields the false acknowledgement, a rejected session and an untouched registry, whatever the later reads |
| WebSocket.ClosedSessionStaysRegistered | teams-hook.go:91-102 | a session that closes with its own entry last (no other registration in between) leaves that entry registered |
| WebSocket.WsHandler | teams-hook.go:77-104 | runs upgrade, handshake, add, read loop until the first error, remove; its outcome is `Lifecycle` of the inputs; the registry's call log grows by exactly `outcome.calls`, each on the new connection, and the list is the old one replayed with those calls; once registered the list ends as `old + [conn]` |
| Webhook.HandleWebhook | teams-hook.go:119-138 | non-POST: 405 with no body and no broadcast; POST with empty token: broadcast of the body unchanged and no response body; POST with a token: the token echoed as `text/plain` and no broadcast |
| Webhook.BroadcastXorEcho | teams-hook.go:119-138 | a broadcast happens iff POST with an empty token, a non-empty response body iff POST with a token, never both; 405 iff not POST |
| Webhook.ServeWebhook | teams-hook.go:119-138 | the response is the one decided; the writes are the broadcast of the body over the registry for a POST without a token, and none otherwise; when every write succeeds, every registered connection receives the body unchanged |

## Left out

- `main` (teams-hook.go:140-176): flag parsing, `os.Exit`, route registration and `ListenAndServeTLS` are process startup and TLS I/O. The access token is a parameter here. So the refusal to start without a token is not modelled, and `WsAuthenticate` also accepts an empty token.
- The mutex (teams-hook.go:20, 31, 37, 107): each registry call is one atomic sequential step. `WsHandler` runs one session's whole lifecycle as a single block, so no other session's registry calls can fall between its add and its remove.
- The gorilla/websocket and net/http calls (`Upgrade`, `ReadMessage`, `WriteMessage`, `NextReader`, `Close`, `ResponseWriter`) are foreign code. Their results are inputs.
- The possibly short `r.Body.Read` into a `ContentLength` buffer (teams-hook.go:121-122): the body is taken as the given bytes. `make([]byte, r.ContentLength)` panics when `ContentLength` is -1, the value for an unknown length, as with a chunked POST. Such a request neither broadcasts nor echoes. `HandleWebhook` assumes the body was obtained, so this case is not modelled.
- All log output. The one exception is the recipient count of `notifySockets`, which is returned. `removeConnection`'s "not found" log line is returned as a flag.
- Headers beyond `Content-Type`, and the implicit 200 status: that status is written as 200 in the response value.
- The double close after the read loop (the deferred `Close` plus the explicit one): transport behaviour.
- WsHandler: the read loop runs over a finite sequence of read outcomes. When no read fails, the session ends in `Listening`, standing for a goroutine that is still blocked in the loop.
- Registry.Registry.RemoveConnection: Go's `append(connections[:index], connections[index+1:]...)` shifts entries inside the slice's backing array. The model states only the resulting list value. Nothing else holds that array, so aliasing is not modelled.
