/** `WebOSClient`: the session with one television. Commands are sent as
    envelopes on the main socket and correlated with the replies by id;
    button presses go as text lines on the optional mouse socket.

    Sockets, the device and the pending-handle registry are fields that the
    methods update in place. Every `TaskCompletionSource` the client creates
    is a slot of `handles`; `registry` maps a message id to the slot that
    waits for it. An `await` on a reply is given the inbound message that
    arrives next, which is delivered through `OnMessage` as the socket would
    deliver it. */
module Client {
  import opened Wrappers
  import opened Messages
  import opened Devices
  import opened Sockets

  /** `CommandBase`: the endpoint, the optional id and type overrides, and
      the payload object `ToJObject` produces, reduced to the keys the
      model knows. */
  datatype Command = Command(
    uri: string,
    customId: Option<string>,
    customType: Option<string>,
    payload: Payload)

  /** `MouseGetCommand`: its own properties are all JSON-ignored, so its
      payload has none of the modelled keys. */
  const MouseGetCommand := Command(
    "ssap://com.webos.service.networkinput/getPointerInputSocket", None, None, EmptyPayload)

  /** The mouse request is a plain "request" to the pointer-input endpoint
      with a generated id and no payload keys. */
  lemma MouseGetEnvelope(g: Guid)
    ensures var m := Envelope(MouseGetCommand, g);
      && m.uri == Some("ssap://com.webos.service.networkinput/getPointerInputSocket")
      && m.msgType == Some("request") && m.id == GenerateId(g)
      && m.payload == Some(EmptyPayload)
  {
  }

  /** The id the handshake reply carries (line 180). */
  const HandshakeId := "register_0"

  /** The exceptions the client raises or lets through. `NotAnswered`
      stands for an `await` that has not completed after the reply given. */
  datatype ClientError =
    | InvalidOperation             // no device (lines 97, 141)
    | ConnectionFailed(host: Option<string>)   // `ConnectionException` (lines 62, 82)
    | CommandFailed(error: Option<string>)     // `CommandException` from a faulted handle
    | NotAnswered
    | NullPayload                  // the reply had no payload to decode
    | NullReference                // line 157 with the mouse socket gone

  /** The oracle inputs of one `ConnectAsync`: the ready state of the main
      socket, the handshake command (its class is not part of this model),
      the GUIDs drawn for the two envelopes, the reply that arrives after
      each request, and the ready state of the mouse socket. */
  datatype ConnectInputs = ConnectInputs(
    mainState: ReadyState,
    handshake: Command,
    handshakeGuid: Guid,
    handshakeReply: Message,
    mouseGuid: Guid,
    mouseReply: Message,
    mouseState: ReadyState)

  /** A `TaskCompletionSource<Message>`. */
  datatype HandleState = Pending | Completed(response: Message) | Faulted(error: Option<string>)

  /** Lines 105-120: the outgoing envelope. The id is generated first and
      then replaced by a non-empty `CustomId`; the type is "request" unless
      `CustomType` is non-empty. */
  function Envelope(cmd: Command, g: Guid): (m: Message)
    ensures m.uri == Some(cmd.uri) && m.payload == Some(cmd.payload) && m.error == None
    ensures m.msgType == if NullOrEmpty(cmd.customType) then Some("request") else cmd.customType
    ensures NullOrEmpty(cmd.customId) ==> m.id == GenerateId(g) && |m.id| == 8
    ensures !NullOrEmpty(cmd.customId) ==> m.id == cmd.customId.value
  {
    var request := NewMessage(g).(uri := Some(cmd.uri), msgType := Some("request"), payload := Some(cmd.payload));
    var withId := if !NullOrEmpty(cmd.customId) then request.(id := cmd.customId.value) else request;
    if !NullOrEmpty(cmd.customType) then withId.(msgType := cmd.customType) else withId
  }

  /** Only a command without an id override depends on the GUID, and then
      only on its first group. */
  lemma EnvelopeDependsOnFirstGroupOnly(cmd: Command, g1: Guid, g2: Guid)
    ensures Envelope(cmd, g1) == Envelope(cmd, g2) <==> !NullOrEmpty(cmd.customId) || g1[..8] == g2[..8]
  {
    GenerateIdDeterminedByFirstGroup(g1, g2);
    if NullOrEmpty(cmd.customId) && Envelope(cmd, g1) == Envelope(cmd, g2) {
      assert GenerateId(g1) == Envelope(cmd, g1).id;
    }
  }

  /** Line 180: the reply that only reports a pairing prompt. */
  predicate IsPairingPrompt(m: Message)
    ensures m.id != HandshakeId || m.payload.None? ==> !IsPairingPrompt(m)
  {
    m.id == HandshakeId && m.payload.Some? && m.payload.value.pairingType == Some("PROMPT")
  }

  /** Lines 187-194: an "error" reply faults the handle with its error
      text; any other reply completes it with the message. */
  function Resolution(m: Message): (s: HandleState)
    ensures s != Pending
    ensures s.Faulted? <==> m.msgType == Some("error")
    ensures s.Faulted? ==> s.error == m.error
    ensures s.Completed? ==> s.response == m
  {
    if m.msgType == Some("error") then Faulted(m.error) else Completed(m)
  }

  /** `await taskSource.Task` followed by `Payload.ToObject`: the reply's
      payload, or the exception the await raises. */
  function Awaited(s: HandleState): (a: Result<Payload, ClientError>)
    ensures a.Success? <==> s.Completed? && s.response.payload.Some?
    ensures a.Success? ==> a.value == s.response.payload.value
    ensures s.Pending? ==> a == Failure(NotAnswered)
    ensures s.Faulted? ==> a == Failure(CommandFailed(s.error))
    ensures s.Completed? && s.response.payload.None? ==> a == Failure(NullPayload)
  {
    match s
    case Pending => Failure(NotAnswered)
    case Faulted(e) => Failure(CommandFailed(e))
    case Completed(m) => if m.payload.None? then Failure(NullPayload) else Success(m.payload.value)
  }

  /** Every registered id names an existing pending handle, and no two
      ids name the same handle. */
  ghost predicate RegistryValid(registry: map<string, nat>, handles: seq<HandleState>)
  {
    && (forall id :: id in registry ==> registry[id] < |handles| && handles[registry[id]] == Pending)
    && (forall a, b :: a in registry && b in registry && registry[a] == registry[b] ==> a == b)
  }

  /** `TryAdd(id, h)`. */
  function Registered(registry: map<string, nat>, id: string, h: nat): (r: map<string, nat>)
    ensures r.Keys == registry.Keys + {id}
    ensures forall k :: k in registry ==> r[k] == registry[k]
    ensures id !in registry ==> r[id] == h
  {
    if id in registry then registry else registry[id := h]
  }

  /** Whether `OnMessage(m)` takes an entry out of the registry. */
  predicate Matches(registry: map<string, nat>, m: Message)
  {
    !IsPairingPrompt(m) && m.id in registry
  }

  /** The registry after `OnMessage(m)`. */
  function Delivered(registry: map<string, nat>, m: Message): map<string, nat>
  {
    if Matches(registry, m) then registry - {m.id} else registry
  }

  /** The handles after `OnMessage(m)`. */
  function ResolvedBy(registry: map<string, nat>, handles: seq<HandleState>, m: Message): seq<HandleState>
    requires RegistryValid(registry, handles)
  {
    if Matches(registry, m) then handles[registry[m.id] := Resolution(m)] else handles
  }

  /** Whether `reply`, arriving right after a request with envelope id `id`
      was registered in `registry` as the new handle, resolves that handle. */
  predicate Answers(registry: map<string, nat>, id: string, reply: Message)
  {
    id !in registry && reply.id == id && !IsPairingPrompt(reply)
  }

  /** A new handle is registered under a fresh id; under an id already
      registered the existing entry stays and the new handle is never
      registered. */
  lemma TryAddKeepsRegistryValid(registry: map<string, nat>, handles: seq<HandleState>, id: string)
    requires RegistryValid(registry, handles)
    ensures RegistryValid(Registered(registry, id, |handles|), handles + [Pending])
    ensures id in registry ==>
      && Registered(registry, id, |handles|) == registry
      && forall k :: k in registry ==> registry[k] != |handles|
    ensures id !in registry ==> Registered(registry, id, |handles|)[id] == |handles|
  {
    var r := Registered(registry, id, |handles|);
    var hs := handles + [Pending];
    forall k | k in r
      ensures r[k] < |hs| && hs[r[k]] == Pending
    {
      if k != id || id in registry {
        assert k in registry && r[k] == registry[k];
      }
    }
  }

  /** `OnMessage` removes exactly the matched entry, resolves exactly its
      handle, and leaves every other entry and handle (in particular every
      handle already resolved) as it was. */
  lemma DeliveryResolvesOnce(registry: map<string, nat>, handles: seq<HandleState>, m: Message)
    requires RegistryValid(registry, handles)
    ensures RegistryValid(Delivered(registry, m), ResolvedBy(registry, handles, m))
    ensures |ResolvedBy(registry, handles, m)| == |handles|
    ensures forall k :: k != m.id ==>
      (k in registry <==> k in Delivered(registry, m))
      && (k in registry ==> Delivered(registry, m)[k] == registry[k])
    ensures forall i :: 0 <= i < |handles| && handles[i] != Pending ==>
      ResolvedBy(registry, handles, m)[i] == handles[i]
    ensures Matches(registry, m) ==>
      m.id !in Delivered(registry, m)
      && ResolvedBy(registry, handles, m)[registry[m.id]] == Resolution(m)
      && forall i :: 0 <= i < |handles| && i != registry[m.id] ==> ResolvedBy(registry, handles, m)[i] == handles[i]
    ensures !Matches(registry, m) ==>
      Delivered(registry, m) == registry && ResolvedBy(registry, handles, m) == handles
  {
    if Matches(registry, m) {
      var h := registry[m.id];
      var r := Delivered(registry, m);
      var hs := ResolvedBy(registry, handles, m);
      forall k | k in r
        ensures r[k] < |hs| && hs[r[k]] == Pending
      {
        assert k != m.id && r[k] == registry[k];
        assert registry[k] != h;
      }
    }
  }

  /** A pairing prompt leaves the handshake pending; the final handshake
      reply that follows it resolves the handshake handle. */
  lemma PromptThenReplyResolvesHandshake(
    registry: map<string, nat>, handles: seq<HandleState>, prompt: Message, reply: Message)
    requires RegistryValid(registry, handles) && HandshakeId in registry
    requires IsPairingPrompt(prompt)
    requires reply.id == HandshakeId && !IsPairingPrompt(reply)
    ensures Delivered(registry, prompt) == registry && ResolvedBy(registry, handles, prompt) == handles
    ensures var r1 := Delivered(registry, prompt);
      var hs1 := ResolvedBy(registry, handles, prompt);
      RegistryValid(r1, hs1)
      && HandshakeId !in Delivered(r1, reply)
      && ResolvedBy(r1, hs1, reply)[registry[HandshakeId]] == Resolution(reply)
  {
    DeliveryResolvesOnce(registry, handles, prompt);
    DeliveryResolvesOnce(registry, handles, reply);
  }

  /** Lines 68-72: the key the device gets, when it gets one: the
      handshake succeeded and returned a key that differs from the
      current one. */
  function NewPairingKey(handshake: HandleState, current: Option<string>): (k: Option<Option<string>>)
    ensures k.Some? <==>
      && handshake.Completed? && handshake.response.payload.Some?
      && handshake.response.payload.value.returnValue
      && handshake.response.payload.value.key != current
    ensures k.Some? ==> k.value == handshake.response.payload.value.key && k.value != current
  {
    match handshake
    case Completed(m) =>
      if m.payload.Some? && m.payload.value.returnValue && m.payload.value.key != current
      then Some(m.payload.value.key) else None
    case _ => None
  }

  /** Line 76: the address of the advertised mouse socket, if any. */
  function MousePath(response: Payload): (p: Option<string>)
    ensures p.Some? <==> response.returnValue && !NullOrEmpty(response.socketPath)
    ensures p.Some? ==> p == response.socketPath && p.value != ""
  {
    if response.returnValue && !NullOrEmpty(response.socketPath) then response.socketPath else None
  }

  /** A handshake whose key equals the current one never rewrites the key. */
  lemma SameKeyIsNotAnUpdate(m: Message, current: Option<string>)
    requires m.payload.Some? && m.payload.value.key == current
    ensures NewPairingKey(Completed(m), current) == None
    ensures NewPairingKey(Faulted(m.error), current) == None && NewPairingKey(Pending, current) == None
  {
  }

  /** Line 157: one button press. */
  function ButtonLine(code: string): (s: string)
    ensures |s| == |code| + 19
    ensures s[..17] == "type:button\nname:" && s[17..|s| - 2] == code && s[|s| - 2..] == "\n\n"
  {
    "type:button\nname:" + code + "\n\n"
  }

  /** The text between line feeds. */
  function Lines(s: string): (ls: seq<string>)
    ensures |ls| >= 1
  {
    if s == [] then [""]
    else
      var rest := Lines(s[1..]);
      if s[0] == '\n' then [""] + rest else [[s[0]] + rest[0]] + rest[1..]
  }

  /** How many line feeds `s` holds. */
  function LineFeeds(s: string): nat
  {
    if s == [] then 0 else (if s[0] == '\n' then 1 else 0) + LineFeeds(s[1..])
  }

  /** Reads a button line back; the partner of `ButtonLine`. */
  function ParseButtonLine(s: string): Option<string>
  {
    var ls := Lines(s);
    if |ls| == 4 && ls[0] == "type:button" && |ls[1]| >= 5 && ls[1][..5] == "name:"
       && ls[2] == "" && ls[3] == ""
    then Some(ls[1][5..]) else None
  }

  lemma {:induction false} LinesOfLine(a: string)
    requires '\n' !in a
    ensures Lines(a) == [a]
  {
    if a != [] {
      LinesOfLine(a[1..]);
      assert [a[0]] + a[1..] == a;
    }
  }

  lemma {:induction false} LinesSplit(a: string, b: string)
    requires '\n' !in a
    ensures Lines(a + "\n" + b) == [a] + Lines(b)
  {
    if a == [] {
      assert a + "\n" + b == "\n" + b;
      assert ("\n" + b)[1..] == b;
    } else {
      assert (a + "\n" + b)[1..] == a[1..] + "\n" + b;
      LinesSplit(a[1..], b);
      assert [a[0]] + a[1..] == a;
    }
  }

  lemma {:induction false} LinesCount(s: string)
    ensures |Lines(s)| == LineFeeds(s) + 1
  {
    if s != [] {
      LinesCount(s[1..]);
    }
  }

  lemma {:induction false} LineFeedsAppend(a: string, b: string)
    ensures LineFeeds(a + b) == LineFeeds(a) + LineFeeds(b)
  {
    if a == [] {
      assert a + b == b;
    } else {
      assert (a + b)[0] == a[0] && (a + b)[1..] == a[1..] + b;
      LineFeedsAppend(a[1..], b);
    }
  }

  lemma {:induction false} NoLineFeeds(a: string)
    ensures LineFeeds(a) == 0 <==> '\n' !in a
  {
    if a != [] {
      NoLineFeeds(a[1..]);
      assert a == [a[0]] + a[1..];
    }
  }

  /** A code without line feed reads back from its button line. */
  lemma ButtonLineReadsBack(code: string)
    requires '\n' !in code
    ensures ParseButtonLine(ButtonLine(code)) == Some(code)
  {
    var name := "name:" + code;
    assert '\n' !in "name:";
    var s := ButtonLine(code);
    assert s == "type:button" + "\n" + (name + "\n" + ("" + "\n" + ""));
    LinesSplit("type:button", name + "\n" + ("" + "\n" + ""));
    LinesSplit(name, "" + "\n" + "");
    LinesSplit("", "");
    LinesOfLine("");
    assert name[..5] == "name:" && name[5..] == code;
  }

  /** A code with a line feed gives a button line of more than four lines,
      which does not read back. */
  lemma ButtonLineWithLineFeed(code: string)
    requires '\n' in code
    ensures ParseButtonLine(ButtonLine(code)) == None
  {
    var head := "type:button\nname:";
    var s := (head + code) + "\n\n";
    assert ButtonLine(code) == s;
    LineFeedsAppend(head + code, "\n\n");
    LineFeedsAppend(head, code);
    NoLineFeeds(code);
    assert LineFeeds("\n\n") == 2;
    LinesCount(s);
  }

  /** The button line reads back as the code exactly when the code holds
      no line feed; a line feed in the code would end the `name:` line
      early. */
  lemma ButtonLineRoundTrip(code: string)
    ensures ParseButtonLine(ButtonLine(code)) == Some(code) <==> '\n' !in code
  {
    if '\n' in code {
      ButtonLineWithLineFeed(code);
    } else {
      ButtonLineReadsBack(code);
    }
  }

  class WebOSClient {
    /** `_socket`. */
    var socket: SocketConnection?
    /** `_mouseSocket`. */
    var mouseSocket: SocketConnection?
    /** `_device`. */
    var device: Device?
    /** `_completionSources`: message id to the handle waiting for it. */
    var registry: map<string, nat>
    /** Every `TaskCompletionSource` created, by creation order. */
    var handles: seq<HandleState>
    /** How many times `PairingUpdated` was raised. */
    var pairingUpdates: nat

    ghost predicate Valid()
      reads this, socket, mouseSocket
    {
      && (socket != null ==> socket.Valid())
      && (mouseSocket != null ==> mouseSocket.Valid())
      && (socket != null && mouseSocket != null ==> socket != mouseSocket)
      && RegistryValid(registry, handles)
    }

    constructor()
      ensures Valid()
      ensures socket == null && mouseSocket == null && device == null
      ensures registry == map[] && handles == [] && pairingUpdates == 0
    {
      socket, mouseSocket, device := null, null, null;
      registry, handles, pairingUpdates := map[], [], 0;
    }

    /** `IsConnected` (line 50). */
    predicate IsConnected()
      reads this, socket
      ensures socket == null ==> !IsConnected()
      ensures IsConnected() ==> socket != null && socket.current.Some? && socket.current.value < |socket.attempts|
      ensures IsConnected() && socket.Valid() ==> socket.url == Some(socket.attempts[socket.current.value].url)
    {
      socket != null && socket.IsAlive()
    }

    /** `CloseSockets` (lines 199-206). */
    method CloseSockets()
      requires Valid()
      modifies this, socket, mouseSocket
      ensures Valid()
      ensures socket == null && mouseSocket == null
      ensures old(socket) != null ==> ClosedBy(old(socket))
      ensures old(mouseSocket) != null ==> ClosedBy(old(mouseSocket))
      ensures device == old(device) && registry == old(registry) && handles == old(handles)
      ensures pairingUpdates == old(pairingUpdates)
    {
      if socket != null {
        socket.Close();
      }
      socket := null;
      if mouseSocket != null {
        mouseSocket.Close();
      }
      mouseSocket := null;
    }

    /** `Close` (lines 87-91): the device is forgotten and both sockets are
        closed. The registry is not cleared. */
    method Close()
      requires Valid()
      modifies this, socket, mouseSocket
      ensures Valid() && !IsConnected()
      ensures device == null && socket == null && mouseSocket == null
      ensures old(socket) != null ==> ClosedBy(old(socket))
      ensures old(mouseSocket) != null ==> ClosedBy(old(mouseSocket))
      ensures registry == old(registry) && handles == old(handles) && pairingUpdates == old(pairingUpdates)
    {
      device := null;
      CloseSockets();
    }

    /** `OnMessage` (lines 173-196). */
    method OnMessage(m: Message)
      requires Valid()
      modifies this
      ensures Valid()
      ensures registry == Delivered(old(registry), m)
      ensures handles == ResolvedBy(old(registry), old(handles), m)
      ensures forall i :: 0 <= i < |old(handles)| && old(handles)[i] != Pending ==> handles[i] == old(handles)[i]
      ensures socket == old(socket) && mouseSocket == old(mouseSocket) && device == old(device)
      ensures pairingUpdates == old(pairingUpdates)
    {
      DeliveryResolvesOnce(registry, handles, m);
      if m.id == HandshakeId && m.payload.Some? && m.payload.value.pairingType == Some("PROMPT") {
        return;
      }
      if m.id in registry {
        var h := registry[m.id];
        registry := map k | k in registry && k != m.id :: registry[k];
        assert registry == old(registry) - {m.id};
        if handles[h] == Pending {
          if m.msgType == Some("error") {
            handles := handles[h := Faulted(m.error)];
          } else {
            handles := handles[h := Completed(m)];
          }
        }
      }
    }

    /** Lines 105-130: builds the envelope, registers a new handle under
        its id, then hands the envelope to the main socket. */
    method Transmit(cmd: Command, g: Guid) returns (h: nat)
      requires Valid() && IsConnected()
      modifies this, socket
      ensures Valid() && IsConnected()
      ensures h == |old(handles)| && handles == old(handles) + [Pending]
      ensures registry == Registered(old(registry), Envelope(cmd, g).id, h)
      ensures socket == old(socket) && socket.sent == old(socket.sent) + [JsonFrame(Envelope(cmd, g))]
      ensures socket.attempts == old(socket.attempts) && socket.current == old(socket.current)
      ensures socket.url == old(socket.url) && socket.disconnects == old(socket.disconnects)
      ensures mouseSocket == old(mouseSocket) && device == old(device)
      ensures pairingUpdates == old(pairingUpdates)
    {
      var request := Envelope(cmd, g);
      h := |handles|;
      TryAddKeepsRegistryValid(registry, handles, request.id);
      handles := handles + [Pending];
      if request.id !in registry {
        registry := registry[request.id := h];
      }
      socket.Send(JsonFrame(request));
    }

    /** Lines 54-65: the main socket, at the device's host name on the plain
        port; the device is recorded only when the socket is alive. */
    method OpenMainSocket(d: Device, state: ReadyState) returns (r: Outcome<ClientError>)
      requires Valid()
      modifies this, socket, mouseSocket
      ensures Valid()
      ensures socket != null && fresh(socket) && mouseSocket == null
      ensures socket.attempts == [Attempt(PlainUrl(d.hostName.GetOr("")), None, NegotiatedDefault, state, false)]
      ensures socket.sent == [] && socket.disconnects == 0
      ensures r == (if state == Open then Pass else Fail(ConnectionFailed(d.hostName)))
      ensures IsConnected() <==> state == Open
      ensures device == if state == Open then d else old(device)
      ensures old(socket) != null ==> ClosedBy(old(socket))
      ensures old(mouseSocket) != null ==> ClosedBy(old(mouseSocket))
      ensures registry == old(registry) && handles == old(handles) && pairingUpdates == old(pairingUpdates)
    {
      CloseSockets();
      var s := new SocketConnection();
      socket := s;
      PlainUrlParses(d.hostName.GetOr(""));
      s.ConnectUrl(PlainUrl(d.hostName.GetOr("")), state);
      if !s.IsAlive() {
        return Fail(ConnectionFailed(d.hostName));
      }
      device := d;
      r := Pass;
    }

    /** Lines 67-72: the handshake, and the pairing key written back when
        it changed. */
    method Handshake(cmd: Command, g: Guid, reply: Message) returns (r: Outcome<ClientError>)
      requires Valid() && device != null && IsConnected()
      modifies this, socket, device
      ensures Valid() && IsConnected()
      ensures socket == old(socket) && mouseSocket == old(mouseSocket) && device == old(device)
      ensures device.hostName == old(device.hostName) && device.ipAddress == old(device.ipAddress)
      ensures device.macAddress == old(device.macAddress)
      ensures socket.sent == old(socket.sent) + [JsonFrame(Envelope(cmd, g))]
      ensures socket.attempts == old(socket.attempts) && socket.current == old(socket.current)
      ensures var h := |old(handles)|;
        var reg := Registered(old(registry), Envelope(cmd, g).id, h);
        && registry == Delivered(reg, reply)
        && RegistryValid(reg, old(handles) + [Pending])
        && handles == ResolvedBy(reg, old(handles) + [Pending], reply)
      ensures forall i :: 0 <= i < |old(handles)| && old(handles)[i] != Pending ==> handles[i] == old(handles)[i]
      ensures |handles| == |old(handles)| + 1
      ensures handles[|old(handles)|] ==
        if Answers(old(registry), Envelope(cmd, g).id, reply) then Resolution(reply) else Pending
      ensures var a := Awaited(handles[|old(handles)|]);
        r == if a.Success? then Pass else Fail(a.error)
      ensures match NewPairingKey(handles[|old(handles)|], old(device.pairingKey))
        case Some(k) => device.pairingKey == k && pairingUpdates == old(pairingUpdates) + 1
        case None => device.pairingKey == old(device.pairingKey) && pairingUpdates == old(pairingUpdates)
    {
      var h := Transmit(cmd, g);
      ghost var reg := registry;
      ghost var hs := handles;
      OnMessage(reply);
      DeliveryResolvesOnce(reg, hs, reply);
      var awaited := Awaited(handles[h]);
      if awaited.Failure? {
        return Fail(awaited.error);
      }
      var response := awaited.value;
      if response.returnValue && response.key != device.pairingKey {
        device.pairingKey := response.key;
        pairingUpdates := pairingUpdates + 1;
      }
      r := Pass;
    }

    /** Lines 74-84: asks for the mouse socket and opens it when one is
        advertised; an advertised socket that is not alive is an error. */
    method DiscoverMouse(g: Guid, reply: Message, state: ReadyState) returns (r: Outcome<ClientError>)
      requires Valid() && device != null && IsConnected() && mouseSocket == null
      modifies this, socket
      ensures Valid() && IsConnected()
      ensures socket == old(socket) && device == old(device) && pairingUpdates == old(pairingUpdates)
      ensures socket.sent == old(socket.sent) + [JsonFrame(Envelope(MouseGetCommand, g))]
      ensures socket.attempts == old(socket.attempts) && socket.current == old(socket.current)
      ensures var h := |old(handles)|;
        var reg := Registered(old(registry), Envelope(MouseGetCommand, g).id, h);
        && registry == Delivered(reg, reply)
        && RegistryValid(reg, old(handles) + [Pending])
        && handles == ResolvedBy(reg, old(handles) + [Pending], reply)
      ensures forall i :: 0 <= i < |old(handles)| && old(handles)[i] != Pending ==> handles[i] == old(handles)[i]
      ensures |handles| == |old(handles)| + 1
      ensures handles[|old(handles)|] ==
        if Answers(old(registry), Envelope(MouseGetCommand, g).id, reply) then Resolution(reply) else Pending
      ensures var a := Awaited(handles[|old(handles)|]);
        && (a.Failure? ==> r == Fail(a.error) && mouseSocket == null)
        && (a.Success? && MousePath(a.value).None? ==> r == Pass && mouseSocket == null)
        && (a.Success? && MousePath(a.value).Some? ==>
             && mouseSocket != null && fresh(mouseSocket)
             && mouseSocket.attempts == [Attempt(MousePath(a.value).value, None,
                  if IsSecureUrl(MousePath(a.value).value) then Tls12 else NegotiatedDefault, state, false)]
             && mouseSocket.sent == []
             && (mouseSocket.IsAlive() <==> state == Open)
             && r == if state == Open then Pass else Fail(ConnectionFailed(device.hostName)))
    {
      var h := Transmit(MouseGetCommand, g);
      ghost var reg := registry;
      ghost var hs := handles;
      OnMessage(reply);
      DeliveryResolvesOnce(reg, hs, reply);
      var awaited := Awaited(handles[h]);
      if awaited.Failure? {
        return Fail(awaited.error);
      }
      var response := awaited.value;
      if response.returnValue && !NullOrEmpty(response.socketPath) {
        var ms := new SocketConnection();
        mouseSocket := ms;
        ms.ConnectUrl(response.socketPath.value, state);
        if !ms.IsAlive() {
          return Fail(ConnectionFailed(device.hostName));
        }
      }
      r := Pass;
    }

    /** Lines 67-84: the handshake followed by the mouse discovery, on a
        main socket that is already open. */
    method Pair(inputs: ConnectInputs) returns (r: Outcome<ClientError>)
      requires Valid() && device != null && IsConnected() && mouseSocket == null
      modifies this, socket, device
      ensures Valid() && IsConnected()
      ensures socket == old(socket) && device == old(device)
      ensures mouseSocket != null ==> fresh(mouseSocket)
      ensures r != Fail(NullReference) && r != Fail(InvalidOperation)
      ensures socket.attempts == old(socket.attempts) && socket.current == old(socket.current)
      ensures device.hostName == old(device.hostName) && device.ipAddress == old(device.ipAddress)
      ensures device.macAddress == old(device.macAddress)
      ensures var h := |old(handles)|;
        && |handles| >= h + 1
        && |socket.sent| >= |old(socket.sent)| + 1
        && socket.sent[..|old(socket.sent)| + 1] ==
             old(socket.sent) + [JsonFrame(Envelope(inputs.handshake, inputs.handshakeGuid))]
        && handles[h] == (
             if Answers(old(registry), Envelope(inputs.handshake, inputs.handshakeGuid).id, inputs.handshakeReply)
             then Resolution(inputs.handshakeReply) else Pending)
        && (match NewPairingKey(handles[h], old(device.pairingKey))
            case Some(k) => device.pairingKey == k && pairingUpdates == old(pairingUpdates) + 1
            case None => device.pairingKey == old(device.pairingKey) && pairingUpdates == old(pairingUpdates))
        && (Awaited(handles[h]).Failure? ==>
             && r == Fail(Awaited(handles[h]).error)
             && |handles| == h + 1 && mouseSocket == null
             && socket.sent == old(socket.sent) + [JsonFrame(Envelope(inputs.handshake, inputs.handshakeGuid))]
             && registry == Delivered(
                  Registered(old(registry), Envelope(inputs.handshake, inputs.handshakeGuid).id, h),
                  inputs.handshakeReply))
      ensures Awaited(handles[|old(handles)|]).Success? ==>
        var h := |old(handles)|;
        var reg := Delivered(
          Registered(old(registry), Envelope(inputs.handshake, inputs.handshakeGuid).id, h),
          inputs.handshakeReply);
        && |handles| == h + 2
        && registry == Delivered(
             Registered(reg, Envelope(MouseGetCommand, inputs.mouseGuid).id, h + 1), inputs.mouseReply)
        && socket.sent == old(socket.sent) + [JsonFrame(Envelope(inputs.handshake, inputs.handshakeGuid)),
                                              JsonFrame(Envelope(MouseGetCommand, inputs.mouseGuid))]
        && handles[h + 1] == (
             if Answers(reg, Envelope(MouseGetCommand, inputs.mouseGuid).id, inputs.mouseReply)
             then Resolution(inputs.mouseReply) else Pending)
        && var a := Awaited(handles[h + 1]);
        && (a.Failure? ==> r == Fail(a.error) && mouseSocket == null)
        && (a.Success? && MousePath(a.value).None? ==> r == Pass && mouseSocket == null)
        && (a.Success? && MousePath(a.value).Some? ==>
             && mouseSocket != null
             && mouseSocket.attempts == [Attempt(MousePath(a.value).value, None,
                  if IsSecureUrl(MousePath(a.value).value) then Tls12 else NegotiatedDefault, inputs.mouseState, false)]
             && mouseSocket.sent == []
             && (mouseSocket.IsAlive() <==> inputs.mouseState == Open)
             && r == if inputs.mouseState == Open then Pass else Fail(ConnectionFailed(device.hostName)))
    {
      ghost var h := |handles|;
      ghost var reg0 := registry;
      ghost var sent0 := socket.sent;
      r := Handshake(inputs.handshake, inputs.handshakeGuid, inputs.handshakeReply);
      assert socket.sent[..|sent0| + 1] == socket.sent;
      if r.Fail? {
        return;
      }
      ghost var afterHandshake := handles;
      ghost var sent1 := socket.sent;
      r := DiscoverMouse(inputs.mouseGuid, inputs.mouseReply, inputs.mouseState);
      assert handles[h] == afterHandshake[h];
      assert socket.sent[..|sent0| + 1] == sent1;
    }

    /** `ConnectAsync` (lines 52-85): open the main socket, shake hands,
        then look for the mouse socket. */
    method ConnectAsync(d: Device, inputs: ConnectInputs) returns (r: Outcome<ClientError>)
      requires Valid()
      modifies this, socket, mouseSocket, d
      ensures Valid()
      ensures socket != null && fresh(socket)
      ensures mouseSocket != null ==> fresh(mouseSocket)
      ensures socket.attempts == [Attempt(PlainUrl(old(d.hostName).GetOr("")), None, NegotiatedDefault, inputs.mainState, false)]
      ensures r != Fail(NullReference) && r != Fail(InvalidOperation)
      ensures old(socket) != null ==> ClosedBy(old(socket))
      ensures old(mouseSocket) != null ==> ClosedBy(old(mouseSocket))
      ensures d.hostName == old(d.hostName) && d.ipAddress == old(d.ipAddress) && d.macAddress == old(d.macAddress)
      ensures inputs.mainState != Open ==>
        && r == Fail(ConnectionFailed(d.hostName)) && device == old(device) && mouseSocket == null
        && registry == old(registry) && handles == old(handles) && socket.sent == []
        && d.pairingKey == old(d.pairingKey) && pairingUpdates == old(pairingUpdates)
      ensures inputs.mainState == Open ==>
        var h := |old(handles)|;
        && device == d && IsConnected()
        && |handles| >= h + 1
        && |socket.sent| >= 1 && socket.sent[0] == JsonFrame(Envelope(inputs.handshake, inputs.handshakeGuid))
        && handles[h] == (
             if Answers(old(registry), Envelope(inputs.handshake, inputs.handshakeGuid).id, inputs.handshakeReply)
             then Resolution(inputs.handshakeReply) else Pending)
        && (match NewPairingKey(handles[h], old(d.pairingKey))
            case Some(k) => d.pairingKey == k && pairingUpdates == old(pairingUpdates) + 1
            case None => d.pairingKey == old(d.pairingKey) && pairingUpdates == old(pairingUpdates))
        && (Awaited(handles[h]).Failure? ==>
             && r == Fail(Awaited(handles[h]).error)
             && |handles| == h + 1 && |socket.sent| == 1 && mouseSocket == null
             && registry == Delivered(
                  Registered(old(registry), Envelope(inputs.handshake, inputs.handshakeGuid).id, h),
                  inputs.handshakeReply))
      ensures inputs.mainState == Open && Awaited(handles[|old(handles)|]).Success? ==>
        var h := |old(handles)|;
        var reg := Delivered(
          Registered(old(registry), Envelope(inputs.handshake, inputs.handshakeGuid).id, h),
          inputs.handshakeReply);
        && |handles| == h + 2
        && registry == Delivered(
             Registered(reg, Envelope(MouseGetCommand, inputs.mouseGuid).id, h + 1), inputs.mouseReply)
        && socket.sent == [JsonFrame(Envelope(inputs.handshake, inputs.handshakeGuid)),
                           JsonFrame(Envelope(MouseGetCommand, inputs.mouseGuid))]
        && handles[h + 1] == (
             if Answers(reg, Envelope(MouseGetCommand, inputs.mouseGuid).id, inputs.mouseReply)
             then Resolution(inputs.mouseReply) else Pending)
        && var a := Awaited(handles[h + 1]);
        && (a.Failure? ==> r == Fail(a.error) && mouseSocket == null)
        && (a.Success? && MousePath(a.value).None? ==> r == Pass && mouseSocket == null)
        && (a.Success? && MousePath(a.value).Some? ==>
             && mouseSocket != null
             && mouseSocket.attempts == [Attempt(MousePath(a.value).value, None,
                  if IsSecureUrl(MousePath(a.value).value) then Tls12 else NegotiatedDefault, inputs.mouseState, false)]
             && mouseSocket.sent == []
             && (mouseSocket.IsAlive() <==> inputs.mouseState == Open)
             && r == if inputs.mouseState == Open then Pass else Fail(ConnectionFailed(d.hostName)))
    {
      r := OpenMainSocket(d, inputs.mainState);
      if r.Fail? {
        return;
      }
      // the checks at the head of `SendCommandAsync` pass here
      assert device != null && IsConnected();
      r := Pair(inputs);
      assert [] + [JsonFrame(Envelope(inputs.handshake, inputs.handshakeGuid))] ==
        [JsonFrame(Envelope(inputs.handshake, inputs.handshakeGuid))];
    }

    /** The `await ConnectAsync(_device)` of lines 102 and 152, stated by
        what the senders rely on: after a successful reconnect the main
        socket is alive with the two connect envelopes on it, and a mouse
        socket, when one was opened, is alive and has carried nothing. */
    method Reconnect(d: Device, inputs: ConnectInputs) returns (r: Outcome<ClientError>)
      requires Valid()
      modifies this, socket, mouseSocket, d
      ensures Valid()
      ensures socket != null && fresh(socket)
      ensures mouseSocket != null ==> fresh(mouseSocket)
      ensures r != Fail(NullReference) && r != Fail(InvalidOperation)
      ensures d.hostName == old(d.hostName) && d.ipAddress == old(d.ipAddress) && d.macAddress == old(d.macAddress)
      ensures device == d || device == old(device)
      ensures r.Pass? ==>
        && device == d && IsConnected()
        && socket.sent == [JsonFrame(Envelope(inputs.handshake, inputs.handshakeGuid)),
                           JsonFrame(Envelope(MouseGetCommand, inputs.mouseGuid))]
        && (mouseSocket != null ==> mouseSocket.IsAlive() && mouseSocket.sent == [])
    {
      ghost var h := |handles|;
      r := ConnectAsync(d, inputs);
      if r.Pass? {
        assert inputs.mainState == Open;
        assert Awaited(handles[h]).Success?;
      }
    }

    /** `SendCommandAsync` (lines 93-132) up to the `await` on the handle:
        returns the handle, which `OnMessage` resolves later. */
    method SendCommandAsync(cmd: Command, g: Guid, reconnect: ConnectInputs) returns (r: Result<nat, ClientError>)
      requires Valid()
      modifies this, socket, mouseSocket, device
      ensures Valid()
      ensures old(device) == null ==>
        && r == Failure(InvalidOperation)
        && socket == old(socket) && mouseSocket == old(mouseSocket) && device == null
        && registry == old(registry) && handles == old(handles) && pairingUpdates == old(pairingUpdates)
        && (old(socket) != null ==> SocketUnchanged(socket))
        && (old(mouseSocket) != null ==> SocketUnchanged(mouseSocket))
      ensures old(device) != null && old(IsConnected()) ==>
        && r == Success(|old(handles)|)
        && handles == old(handles) + [Pending]
        && registry == Registered(old(registry), Envelope(cmd, g).id, |old(handles)|)
        && socket == old(socket) && socket.sent == old(socket.sent) + [JsonFrame(Envelope(cmd, g))]
        && socket.attempts == old(socket.attempts) && socket.current == old(socket.current)
        && socket.url == old(socket.url) && socket.disconnects == old(socket.disconnects)
        && IsConnected()
        && mouseSocket == old(mouseSocket) && (old(mouseSocket) != null ==> SocketUnchanged(mouseSocket))
        && device == old(device) && DeviceUnchanged(device) && pairingUpdates == old(pairingUpdates)
      ensures old(device) != null && !old(IsConnected()) ==>
        && socket != null && fresh(socket) && device != null
        && device.hostName == old(device.hostName) && device.ipAddress == old(device.ipAddress)
        && device.macAddress == old(device.macAddress)
        && (r.Success? ==>
             && r.value == |handles| - 1 && handles[r.value] == Pending
             && Envelope(cmd, g).id in registry
             && |socket.sent| == 3 && socket.sent[2] == JsonFrame(Envelope(cmd, g)))
    {
      if device == null {
        return Failure(InvalidOperation);
      }
      if !IsConnected() {
        var c := Reconnect(device, reconnect);
        if c.Fail? {
          return Failure(c.error);
        }
        var h := Transmit(cmd, g);
        return Success(h);
      }
      var h := Transmit(cmd, g);
      r := Success(h);
    }

    /** `SendButtonAsync` (lines 137-158). */
    method SendButtonAsync(code: string, reconnect: ConnectInputs) returns (r: Outcome<ClientError>)
      requires Valid()
      modifies this, socket, mouseSocket, device
      ensures Valid()
      ensures old(device) == null || old(mouseSocket) == null ==>
        && r == (if old(device) == null then Fail(InvalidOperation) else Pass)
        && socket == old(socket) && mouseSocket == old(mouseSocket) && device == old(device)
        && registry == old(registry) && handles == old(handles) && pairingUpdates == old(pairingUpdates)
        && (old(socket) != null ==> SocketUnchanged(socket))
        && (old(mouseSocket) != null ==> SocketUnchanged(mouseSocket))
        && (old(device) != null ==> DeviceUnchanged(device))
      ensures old(device) != null && old(mouseSocket) != null && old(mouseSocket.IsAlive()) ==>
        && r == Pass
        && mouseSocket == old(mouseSocket) && mouseSocket.sent == old(mouseSocket.sent) + [TextFrame(ButtonLine(code))]
        && mouseSocket.attempts == old(mouseSocket.attempts) && mouseSocket.current == old(mouseSocket.current)
        && mouseSocket.url == old(mouseSocket.url) && mouseSocket.disconnects == old(mouseSocket.disconnects)
        && mouseSocket.IsAlive()
        && socket == old(socket) && (old(socket) != null ==> SocketUnchanged(socket))
        && device == old(device) && DeviceUnchanged(device)
        && registry == old(registry) && handles == old(handles) && pairingUpdates == old(pairingUpdates)
      ensures old(device) != null && old(mouseSocket) != null && !old(mouseSocket.IsAlive()) ==>
        && socket != null && fresh(socket)
        && device == old(device) && device.hostName == old(device.hostName)
        && device.ipAddress == old(device.ipAddress) && device.macAddress == old(device.macAddress)
        && (r.Pass? ==> mouseSocket != null && fresh(mouseSocket) && mouseSocket.sent == [TextFrame(ButtonLine(code))])
        && (mouseSocket == null ==> r.Fail?)
        && (r == Fail(NullReference) ==> mouseSocket == null && IsConnected())
    {
      if device == null {
        return Fail(InvalidOperation);
      }
      if mouseSocket == null {
        return Pass;
      }
      if !mouseSocket.IsAlive() {
        var c := Reconnect(device, reconnect);
        if c.Fail? {
          return c;
        }
        if mouseSocket == null {
          return Fail(NullReference);
        }
      }
      mouseSocket.Send(TextFrame(ButtonLine(code)));
      r := Pass;
    }
  }
  /** Commands are refused before any device is connected: nothing is
      registered and no socket is created. */
  method SendBeforeConnectFails(cmd: Command, g: Guid, reconnect: ConnectInputs)
    returns (r: Result<nat, ClientError>, registered: nat, created: nat, hasSocket: bool)
    ensures r == Failure(InvalidOperation) && registered == 0 && created == 0 && !hasSocket
  {
    var client := new WebOSClient();
    r := client.SendCommandAsync(cmd, g, reconnect);
    registered := |client.registry|;
    created := |client.handles|;
    hasSocket := client.socket != null;
  }

  /** A device that answers both requests and advertises no mouse socket:
      the connection succeeds, the two envelopes are the only frames sent,
      and a button press is then a silent no-op. */
  method ButtonWithoutMouseIsSilent(d: Device, inputs: ConnectInputs, code: string)
    returns (connected: Outcome<ClientError>, pressed: Outcome<ClientError>, frames: seq<Frame>, hasMouse: bool)
    requires inputs.mainState == Open
    requires inputs.handshakeReply.id == Envelope(inputs.handshake, inputs.handshakeGuid).id
    requires !IsPairingPrompt(inputs.handshakeReply) && inputs.handshakeReply.msgType != Some("error")
    requires inputs.handshakeReply.payload.Some?
    requires inputs.mouseReply.id == GenerateId(inputs.mouseGuid)
    requires !IsPairingPrompt(inputs.mouseReply) && inputs.mouseReply.msgType != Some("error")
    requires inputs.mouseReply.payload.Some? && MousePath(inputs.mouseReply.payload.value).None?
    modifies d
    ensures connected == Pass && pressed == Pass && !hasMouse
    ensures frames == [JsonFrame(Envelope(inputs.handshake, inputs.handshakeGuid)),
                       JsonFrame(Envelope(MouseGetCommand, inputs.mouseGuid))]
  {
    var client := new WebOSClient();
    connected := client.ConnectAsync(d, inputs);
    pressed := client.SendButtonAsync(code, inputs);
    frames := client.socket.sent;
    hasMouse := client.mouseSocket != null;
  }

  /** A pairing prompt arriving during the handshake leaves the connect
      waiting; the final handshake reply that arrives later resolves the
      handshake handle. */
  method PromptLeavesHandshakeWaiting(d: Device, inputs: ConnectInputs, final: Message)
    returns (connected: Outcome<ClientError>, before: HandleState, after: HandleState, stillRegistered: bool)
    requires inputs.mainState == Open
    requires inputs.handshake.customId == Some(HandshakeId)
    requires IsPairingPrompt(inputs.handshakeReply)
    requires final.id == HandshakeId && !IsPairingPrompt(final)
    modifies d
    ensures connected == Fail(NotAnswered) && before == Pending
    ensures after == Resolution(final) && !stillRegistered
  {
    var client := new WebOSClient();
    connected := client.ConnectAsync(d, inputs);
    before := client.handles[0];
    DeliveryResolvesOnce(client.registry, client.handles, final);
    client.OnMessage(final);
    after := client.handles[0];
    stillRegistered := HandshakeId in client.registry;
  }
}
