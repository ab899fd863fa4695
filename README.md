# WebOSRemote.Net in Dafny

This project models the core of WebOSRemote.Net, a .NET client that drives an LG webOS
television over WebSockets. The model has five modules:

- `Wrappers`: `Option`, `Outcome` and `Result`. They stand for C# nulls and exceptions.
- `Messages`: the `Message` envelope. Its correlation id is the first eight characters of
  a GUID's text; the GUID is an input.
- `Devices`: the `IDevice` descriptor, as a class, because the client writes the pairing
  key back into it.
- `Sockets`: `SocketConnection`, as a class.
  - Every WebSocket it creates is an `Attempt` in a log.
  - The `fallbackUrl` captured by each attempt's close handler is a cell of that attempt.
  - The ready state an attempt reaches is an input, and so is every later close event.
- `Client`: `WebOSClient`, as a class.
  - The `ConcurrentDictionary` of completion sources is a `map` from message id to a
    handle index.
  - Every `TaskCompletionSource` is a `HandleState` slot in a sequence.
  - An `await` on a reply is given the reply that arrives next; `OnMessage` delivers it.

The JSON text on the wire is abstracted as `JsonFrame(envelope)`. An inbound message is
given as the decoded `Message`, carrying only the payload keys the client reads
(`returnValue`, `pairingType`, `key`, `socketPath`).

## Behaviour worth noting

The model follows the code, which behaves as follows:

- `ConnectAsync` connects to `ws://{HostName}:3000` through `Connect(string)`
  (WebOSClient.cs:58).
  - It does not use the secure-then-plain fallback of `Connect(IDevice)`.
  - It does not fall back to the IP address.
  - A null `HostName` yields the URL `ws://:3000`.
- `Close` on the client does not clear the registry of pending handles. Pending handles
  stay pending.
- `SocketConnection.Close` drops the socket but keeps `Url`. Closing the WebSocket runs its
  close handler, which raises `OnDisconnected`; `WebOSClient` never subscribes to it.
- No timeout exists: `CommandTimeout` is never read.
- `SendButtonAsync` can dereference a null mouse socket. This happens when a reconnect
  succeeds but the device no longer advertises a mouse socket (line 157). The model
  returns `Fail(NullReference)` there.

## Model

| member | source | states |
|---|---|---|
| Messages.HexText | src/WebOsRemote.Net/Commands/Message.cs:41 | the printed digits: as many characters as digits, and each character is the lower-case digit of the nibble at that position |
| Messages.ParseHexText | src/WebOsRemote.Net/Commands/Message.cs:41 | reading the printed hexadecimal digits back gives the digits (round trip) |
| Messages.GuidText | src/WebOsRemote.Net/Commands/Message.cs:41 | the GUID text has 36 characters; hyphens sit at positions 8, 13, 18 and 23 and nowhere else; its first 8 characters print the first 8 digits |
| Messages.GenerateId | src/WebOsRemote.Net/Commands/Message.cs:39-42 | the id has exactly 8 characters, prints the GUID's first hexadecimal group, and holds no hyphen |
| Messages.GenerateIdRoundTrip | src/WebOsRemote.Net/Commands/Message.cs:41 | the id reads back as the GUID's first 8 digits |
| Messages.GenerateIdDeterminedByFirstGroup | src/WebOsRemote.Net/Commands/Message.cs:41 | two GUIDs give the same id if and only if their first groups agree |
| Messages.NewMessage | src/WebOsRemote.Net/Commands/Message.cs:15-36 | a new message has the generated id, and type, uri, payload and error have no value |
| Messages.NewMessageId | src/WebOsRemote.Net/Commands/Message.cs:15 | a new message's id is the 8-character prefix of the GUID text and holds no hyphen |
| Messages.SetIdOverrides | src/WebOsRemote.Net/Commands/Message.cs:15-36 | assigning `Id` to a new message gives that id with `Type`, `Uri`, `Payload` and `Error` still unset; the message changes if and only if the assigned id differs from the generated one |
| Devices.Device.constructor | src/WebOsRemote.Net/Device/IDevice.cs:13-29 | the descriptor holds the four given properties |
| Sockets.DeviceHost | src/WebOsRemote.Net/WebSockets/SocketConnection.cs:23 | the host is `HostName` when it is not null (an empty one is kept); otherwise it is `IPAddress` |
| Sockets.SecureUrl | src/WebOsRemote.Net/WebSockets/SocketConnection.cs:23 | the secure URL is `wss://`, then exactly the host, then `:3001`; it is a secure URL |
| Sockets.PlainUrl | src/WebOsRemote.Net/WebSockets/SocketConnection.cs:23 | the fallback URL is `ws://`, then exactly the host, then `:3000` |
| Sockets.Kept | src/WebOsRemote.Net/WebSockets/SocketConnection.cs:65 | an attempt is kept if and only if its ready state is neither Closing nor Closed |
| Sockets.SecureIsNotPlain | src/WebOsRemote.Net/WebSockets/SocketConnection.cs:59 | a secure URL never has the plain `ws://` scheme |
| Sockets.ParseUrl | src/WebOsRemote.Net/WebSockets/SocketConnection.cs:23 | a parsed URL is secure if and only if it has the `wss` scheme, and its port has four characters |
| Sockets.SecureUrlParses | src/WebOsRemote.Net/WebSockets/SocketConnection.cs:23 | the first URL of `Connect(IDevice)` is secure and names the host on port 3001 |
| Sockets.PlainUrlParses | src/WebOsRemote.Net/WebSockets/SocketConnection.cs:23 | the fallback URL is not secure and names the host on port 3000 |
| Sockets.SocketConnection.constructor | src/WebOsRemote.Net/WebSockets/SocketConnection.cs:9-13 | a new connection holds no socket and no URL, and has made no attempt |
| Sockets.SocketConnection.IsAlive | src/WebOsRemote.Net/WebSockets/SocketConnection.cs:15 | a live connection holds a WebSocket; on a valid connection that WebSocket is at the URL `Url` reports and has no fallback left |
| Sockets.SocketConnection.ConnectWithFallback | src/WebOsRemote.Net/WebSockets/SocketConnection.cs:44-73 | exactly one attempt is appended, with its close handler not yet run. TLS 1.2 is pinned if and only if the URL is secure. `Url` and the held socket change only when the attempt is Connecting or Open, and then its captured fallback is cleared. A failed attempt keeps its fallback, and the previous `Url` and socket stay. The bound on WebSockets grows by one, and by one more when a fallback is left to try |
| Sockets.SocketConnection.ConnectDevice | src/WebOsRemote.Net/WebSockets/SocketConnection.cs:21-24 | one pinned attempt at `wss://H:3001` is made, keeping `ws://H:3000` as fallback unless the attempt is kept, where H is the device host |
| Sockets.SocketConnection.ConnectUrl | src/WebOsRemote.Net/WebSockets/SocketConnection.cs:26-29 | a single attempt with no fallback |
| Sockets.SocketConnection.OnClose | src/WebOsRemote.Net/WebSockets/SocketConnection.cs:50-58 | delivered once per WebSocket. The closed attempt is marked Closed and its handler as run. With no captured fallback, `OnDisconnected` is raised once; otherwise the fallback URL is attempted with no further fallback and nothing is raised. The bound on WebSockets is unchanged |
| Sockets.SocketConnection.Send | src/WebOsRemote.Net/WebSockets/SocketConnection.cs:31-34 | the frame is handed over if and only if a socket is held; nothing else changes |
| Sockets.SocketConnection.Close | src/WebOsRemote.Net/WebSockets/SocketConnection.cs:36-40 | the held socket is closed and dropped, so the connection is not alive; `Url` and the sent frames are kept. When its close handler had not run, it runs now and, the fallback of a kept attempt being cleared, raises `OnDisconnected` once. No other attempt changes, and the bound on WebSockets is unchanged (all stated by `ClosedBy`) |
| Sockets.SecureFailureFallsBackQuietly | src/WebOsRemote.Net/WebSockets/SocketConnection.cs:50-58 | a failed secure attempt that closes is followed by exactly one attempt at the plain URL of the same host. That attempt has no TLS pinning, raises no `OnDisconnected`, and records its URL only if it is kept |
| Sockets.FallbackCloseIsReported | src/WebOsRemote.Net/WebSockets/SocketConnection.cs:50-58 | when the fallback attempt closes, `OnDisconnected` is raised once and no third URL is tried |
| Sockets.KeptAttemptReportsClose | src/WebOsRemote.Net/WebSockets/SocketConnection.cs:65-72 | a kept secure attempt that later closes raises `OnDisconnected` instead of trying the plain URL |
| Sockets.SendAfterCloseIsDropped | src/WebOsRemote.Net/WebSockets/SocketConnection.cs:31-40 | after `Close` the connection is not alive and `Send` hands nothing over |
| Sockets.AnyClosesAfterDeviceConnect | src/WebOsRemote.Net/WebSockets/SocketConnection.cs:50-58 | after `Connect(IDevice)`, any sequence of remote closes and `Close` calls creates at most two WebSockets, only one when the secure attempt was kept, and raises `OnDisconnected` at most once per WebSocket |
| Client.Envelope | src/WebOsRemote.Net/WebOSClient.cs:105-120 | the envelope carries the command's uri and payload. Its type is "request" unless `CustomType` is non-empty. Its id is the generated 8-character id unless `CustomId` is non-empty |
| Client.EnvelopeDependsOnFirstGroupOnly | src/WebOsRemote.Net/WebOSClient.cs:105-115 | two GUIDs give the same envelope if and only if the id is overridden or their first groups agree |
| Client.MouseGetEnvelope | src/WebOsRemote.Net/Commands/Api/MouseGetCommand.cs:9 | the mouse request goes to the pointer-input endpoint as a "request" with a generated id and no payload keys |
| Client.IsPairingPrompt | src/WebOsRemote.Net/WebOSClient.cs:180 | a message with an id other than `register_0`, or with no payload, is never a pairing prompt |
| Client.Resolution | src/WebOsRemote.Net/WebOSClient.cs:187-194 | a delivered reply never leaves the handle pending. The handle faults with the reply's error text if and only if the type is "error"; otherwise it completes with the reply |
| Client.Awaited | src/WebOsRemote.Net/WebOSClient.cs:132-134 | awaiting a handle yields the payload if and only if the handle completed with one. A faulted handle raises `CommandException` with its error, a pending one is not answered, and a missing payload is an error |
| Client.Registered | src/WebOsRemote.Net/WebOSClient.cs:123 | `TryAdd` adds exactly the id to the keys, keeps every existing entry, and maps a new id to the new handle |
| Client.TryAddKeepsRegistryValid | src/WebOsRemote.Net/WebOSClient.cs:122-123 | registering keeps every entry pointing at a distinct pending handle. Under an id already present, the registry is unchanged and the new handle is never registered |
| Client.DeliveryResolvesOnce | src/WebOsRemote.Net/WebOSClient.cs:185-195 | a matching reply removes exactly its entry and resolves exactly its handle, once. Every other entry and handle is unchanged, and an unmatched reply changes nothing |
| Client.PromptThenReplyResolvesHandshake | src/WebOsRemote.Net/WebOSClient.cs:179-183 | a `register_0` pairing prompt changes neither the registry nor any handle; the final handshake reply after it resolves the handshake handle |
| Client.NewPairingKey | src/WebOsRemote.Net/WebOSClient.cs:68-72 | a new key is written if and only if the handshake completed with `ReturnValue` true and a key that differs from the current one; the new key is the returned one |
| Client.MousePath | src/WebOsRemote.Net/WebOSClient.cs:76 | a mouse socket is advertised if and only if `ReturnValue` is true and `SocketPath` is non-empty |
| Client.SameKeyIsNotAnUpdate | src/WebOsRemote.Net/WebOSClient.cs:68 | a returned key equal to the current one, a faulted handshake or an unanswered handshake never rewrites the key |
| Client.ButtonLine | src/WebOsRemote.Net/WebOSClient.cs:157 | the line is `type:button`, a line feed, `name:`, then exactly the code and two line feeds |
| Client.ButtonLineReadsBack | src/WebOsRemote.Net/WebOSClient.cs:157 | a button line reads back as its code when the code has no line feed |
| Client.ButtonLineWithLineFeed | src/WebOsRemote.Net/WebOSClient.cs:157 | a code containing a line feed gives a line that does not read back as a button line |
| Client.ButtonLineRoundTrip | src/WebOsRemote.Net/WebOSClient.cs:157 | the button line reads back as its code if and only if the code has no line feed |
| Client.WebOSClient.constructor | src/WebOsRemote.Net/WebOSClient.cs:23-44 | a new client holds no device and no socket, and its registry is empty |
| Client.WebOSClient.IsConnected | src/WebOsRemote.Net/WebOSClient.cs:50 | a client with no main socket is not connected; a connected client's main socket holds a WebSocket, which on a valid socket is at the URL it reports |
| Client.WebOSClient.CloseSockets | src/WebOsRemote.Net/WebOSClient.cs:199-206 | both sockets are dropped, and each one that was there is closed as `SocketConnection.Close` closes it (`ClosedBy`): its held attempt is closed with its handler run, `OnDisconnected` is raised if that handler had not run, and `Url` and its sent frames are kept. Device, registry and handles are unchanged |
| Client.WebOSClient.Close | src/WebOsRemote.Net/WebOSClient.cs:87-91 | the device is forgotten and both sockets are dropped, each closed as `SocketConnection.Close` closes it (`ClosedBy`), so the client is not connected. The registry and the pending handles are kept |
| Client.WebOSClient.OnMessage | src/WebOsRemote.Net/WebOSClient.cs:173-196 | the registry and handles become `Delivered` and `ResolvedBy` of the reply. The registry invariant is kept, and no handle already resolved changes |
| Client.WebOSClient.Transmit | src/WebOsRemote.Net/WebOSClient.cs:105-130 | one new pending handle is created and offered to `TryAdd` under the envelope id, which registers it unless that id is already present. Then the envelope, and only it, is handed to the main socket |
| Client.WebOSClient.OpenMainSocket | src/WebOsRemote.Net/WebOSClient.cs:54-65 | the old sockets are closed as `SocketConnection.Close` closes them (`ClosedBy`), and a single attempt is made at `ws://HostName:3000` with no fallback. The device is recorded if and only if the socket is alive; otherwise `ConnectionException` is raised |
| Client.WebOSClient.Handshake | src/WebOsRemote.Net/WebOSClient.cs:67-72 | the handshake envelope is sent and the reply is delivered. The result is the awaited outcome of the handshake handle. The key is rewritten, and `PairingUpdated` raised, exactly as `NewPairingKey` says; the device's other properties are unchanged |
| Client.WebOSClient.DiscoverMouse | src/WebOsRemote.Net/WebOSClient.cs:74-84 | the mouse request is sent and the reply delivered. A mouse socket is created only at the advertised path. The result is `ConnectionException` if and only if that socket is not alive |
| Client.WebOSClient.Pair | src/WebOsRemote.Net/WebOSClient.cs:67-84 | the handshake comes before the mouse request. A failed handshake stops the connect before the mouse request is sent. Otherwise both envelopes are sent, in order, and the mouse outcome follows the mouse reply. Only the device's pairing key may change |
| Client.WebOSClient.ConnectAsync | src/WebOsRemote.Net/WebOSClient.cs:52-85 | a dead main socket raises `ConnectionException` with nothing registered or sent. Otherwise the handshake and mouse phases run in order and the result follows from the two replies. The only attempt is at `ws://HostName:3000`. The old sockets are closed as `SocketConnection.Close` closes them (`ClosedBy`). Only the device's pairing key may change |
| Client.WebOSClient.Reconnect | src/WebOsRemote.Net/WebOSClient.cs:100-103 | the reconnect that the senders await: on success the device is recorded, the main socket is alive with the two connect envelopes on it, and an opened mouse socket is alive with nothing sent; it never raises `InvalidOperationException` |
| Client.WebOSClient.SendCommandAsync | src/WebOsRemote.Net/WebOSClient.cs:93-130 | with no device, `InvalidOperationException` is raised and nothing is registered, sent or changed. On a live socket, exactly one handle is created and offered to `TryAdd`, and one envelope is sent; the socket stays connected, and the mouse socket, the device and the pairing count are unchanged. On a dead one, the client reconnects first, and on success the envelope is the third frame of the new socket |
| Client.WebOSClient.SendButtonAsync | src/WebOsRemote.Net/WebOSClient.cs:137-158 | with no device, `InvalidOperationException` is raised. With no mouse socket it is a silent no-op that changes nothing. On a live mouse socket exactly the button line is sent there: the mouse socket stays alive, and the main socket, the device, the registry and the handles are unchanged. After a reconnect the line goes to the new mouse socket, or the call fails |
| Client.SendBeforeConnectFails | src/WebOsRemote.Net/WebOSClient.cs:95-98 | a command on a fresh client raises `InvalidOperationException`, creates no handle and opens no socket |
| Client.ButtonWithoutMouseIsSilent | src/WebOsRemote.Net/WebOSClient.cs:144-148 | when both requests are answered and no mouse socket is advertised, the connect succeeds and the two envelopes are the only frames. A button press is then a silent success with no mouse socket |
| Client.PromptLeavesHandshakeWaiting | src/WebOsRemote.Net/WebOSClient.cs:179-183 | a pairing prompt leaves the connect waiting on a pending handshake handle; the final reply that follows resolves it and removes its entry |

## Left out

- WebSocket library internals are not modelled: TLS negotiation, URL validation and real
  socket I/O. The ready state an attempt reaches and every close event are inputs.
- Remote close events are inputs, delivered at most once per WebSocket. A close raised
  by the library during its own `Connect` is modelled as arriving after that call
  returns. The resulting state is the same.
- Scheme detection is simplified. A WebSocket is secure when its URL starts with
  `wss://` in lower case; the library's case-insensitive scheme check is not modelled.
- No part of JSON serialisation and deserialisation (Newtonsoft) is modelled: not
  `ToJObject`, not `SerializationSettings`, not `ToObject<TResponse>`.
  - Frames carry the envelope itself.
  - Payloads carry only the four keys the client reads.
  - A reply whose payload is null and whose id is `register_0` is treated as not being a
    pairing prompt. The source's `Value<string>` call on a null payload is not modelled.
- Concurrency and thread scheduling are not modelled: `async`, `Task.Run`, and the thread
  safety of `ConcurrentDictionary`. Steps run in sequence.
- Client.WebOSClient.ConnectAsync:
  - Each `await` on a reply is given exactly one reply.
  - When that reply does not resolve the handle, the model returns `NotAnswered`; the
    source would keep waiting.
  - Messages forwarded by discarded attempts are not modelled.
- Client.WebOSClient.SendCommandAsync:
  - It stops at the new handle and does not await it.
  - `Awaited` gives what the `await` and the payload decoding yield once `OnMessage` has
    resolved the handle.
  - `ToObject<TResponse>` on a null payload is modelled as `NullPayload`.
- Client.WebOSClient.SendCommandAsync and Client.WebOSClient.SendButtonAsync: after a
  reconnect, only the new sockets' frames, the created handle and the device's
  unchanged properties are stated, through `Reconnect`. Registry contents beyond the new
  id and the pairing key after the new handshake are stated by `ConnectAsync` alone.
- Timeouts are not modelled: `CommandTimeout` is declared but never read, and the code
  has no deadline or cancellation.
- Logging is left out.
- The `PairingUpdated` event is represented only by a count of raises; its subscribers
  are not modelled.
- `HandshakeCommand`, `HandshakeResponse` and `ButtonType` are not part of this model.
  - The handshake is a `Command` input.
  - A button is its code string.
- `MacAddress` is carried by the device but never read.
- The console program (`Program.cs`) is not part of this model; it calls members that do
  not exist.
- The passive data and interface files are used only for their constants: `WebOSDevice`,
  `Factory`, the interfaces, `CommandBase`, `ResponseBase` and `MouseGetCommand`.
- `Dispose` and `SetSocketsForTesting` are not modelled. `Dispose` is `Close`.
