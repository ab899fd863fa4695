/** `SocketConnection`: one WebSocket connection to the device, with the
    secure-then-plain fallback used when it is given a device.

    The WebSocket library is an oracle. Each call of the protected
    `Connect(url, fallbackUrl)` creates a WebSocket, here an `Attempt`
    appended to `attempts`; the ready state it reaches is an input, and so
    is every later close of one of those WebSockets (`OnClose`). The local
    `fallbackUrl` that the close handler of an attempt captures is the
    `fallback` cell of that attempt. */
module Sockets {
  import opened Wrappers
  import opened Messages
  import opened Devices

  /** `WebSocketState`. */
  datatype ReadyState = Connecting | Open | Closing | Closed

  /** The TLS versions a WebSocket may negotiate. */
  datatype SslProtocols = NegotiatedDefault | Tls12

  /** One WebSocket created by `Connect(url, fallbackUrl)`. A WebSocket
      raises `OnClose` at most once; `handled` says that its close handler
      has run. */
  datatype Attempt = Attempt(
    url: string,
    fallback: Option<string>,   // the captured `fallbackUrl`
    ssl: SslProtocols,
    state: ReadyState,
    handled: bool)

  /** The close handler of `a` is still to run and will start its fallback. */
  predicate HoldsFallback(a: Attempt)
  {
    !a.handled && !NullOrEmpty(a.fallback)
  }

  /** How many of the attempts `s` hold a fallback still to be tried. */
  function PendingFallbacks(s: seq<Attempt>): (n: nat)
    ensures n <= |s|
  {
    if s == [] then 0
    else PendingFallbacks(s[..|s| - 1]) + (if HoldsFallback(s[|s| - 1]) then 1 else 0)
  }

  /** How many of the attempts `s` have had their close handler run. */
  function HandlersRun(s: seq<Attempt>): (n: nat)
    ensures n <= |s|
  {
    if s == [] then 0
    else HandlersRun(s[..|s| - 1]) + (if s[|s| - 1].handled then 1 else 0)
  }

  lemma PendingFallbacksAppend(s: seq<Attempt>, a: Attempt)
    ensures PendingFallbacks(s + [a]) == PendingFallbacks(s) + (if HoldsFallback(a) then 1 else 0)
  {
    assert (s + [a])[..|s|] == s;
  }

  lemma HandlersRunAppend(s: seq<Attempt>, a: Attempt)
    ensures HandlersRun(s + [a]) == HandlersRun(s) + (if a.handled then 1 else 0)
  {
    assert (s + [a])[..|s|] == s;
  }

  /** Replacing one attempt changes the count of pending fallbacks by that
      attempt alone. */
  lemma {:induction false} PendingFallbacksUpdate(s: seq<Attempt>, i: nat, a: Attempt)
    requires i < |s|
    ensures PendingFallbacks(s[i := a]) ==
      PendingFallbacks(s) - (if HoldsFallback(s[i]) then 1 else 0) + (if HoldsFallback(a) then 1 else 0)
  {
    var t := s[i := a];
    if i == |s| - 1 {
      assert t[..|t| - 1] == s[..|s| - 1];
    } else {
      assert t[..|t| - 1] == s[..|s| - 1][i := a];
      PendingFallbacksUpdate(s[..|s| - 1], i, a);
    }
  }

  /** Replacing one attempt changes the count of handlers run by that
      attempt alone. */
  lemma {:induction false} HandlersRunUpdate(s: seq<Attempt>, i: nat, a: Attempt)
    requires i < |s|
    ensures HandlersRun(s[i := a]) ==
      HandlersRun(s) - (if s[i].handled then 1 else 0) + (if a.handled then 1 else 0)
  {
    var t := s[i := a];
    if i == |s| - 1 {
      assert t[..|t| - 1] == s[..|s| - 1];
    } else {
      assert t[..|t| - 1] == s[..|s| - 1][i := a];
      HandlersRunUpdate(s[..|s| - 1], i, a);
    }
  }

  /** What is handed to a WebSocket. `JsonFrame(m)` stands for the JSON
      text the serialiser produces from the envelope `m`. */
  datatype Frame = JsonFrame(envelope: Message) | TextFrame(text: string)

  /** Line 65: the attempt is kept when it is `Connecting` or `Open`. */
  predicate Kept(s: ReadyState)
    ensures Kept(s) <==> s != Closing && s != Closed
  {
    s == Connecting || s == Open
  }

  /** A WebSocket is secure when its URL has the `wss` scheme. */
  predicate IsSecureUrl(u: string)
  {
    |u| >= 6 && u[..6] == "wss://"
  }

  /** A secure URL never has the plain scheme. */
  lemma SecureIsNotPlain(u: string)
    ensures IsSecureUrl(u) ==> !(|u| >= 5 && u[..5] == "ws://")
  {
    if IsSecureUrl(u) {
      assert u[..5][2] == u[..6][2];
    }
  }

  /** `device.HostName ?? device.IPAddress`, interpolated: a null host name
      falls back to the IP address, an empty one is kept, and a null
      result prints as nothing. */
  function DeviceHost(hostName: Option<string>, ipAddress: Option<string>): (h: string)
    ensures hostName.Some? ==> h == hostName.value
    ensures hostName.None? ==> h == ipAddress.GetOr("")
  {
    match hostName
    case Some(name) => name
    case None => ipAddress.GetOr("")
  }

  /** The secure endpoint, port 3001. */
  function SecureUrl(host: string): (u: string)
    ensures |u| == |host| + 11 && IsSecureUrl(u)
    ensures u[6..|u| - 5] == host && u[|u| - 5..] == ":3001"
  {
    "wss://" + host + ":3001"
  }

  /** The plain endpoint, port 3000. */
  function PlainUrl(host: string): (u: string)
    ensures |u| == |host| + 10 && u[..5] == "ws://"
    ensures u[5..|u| - 5] == host && u[|u| - 5..] == ":3000"
  {
    "ws://" + host + ":3000"
  }

  /** The parts of a `ws`/`wss` URL with a four-character port. */
  datatype Endpoint = Endpoint(secure: bool, host: string, port: string)

  /** Reads `scheme://host:port` back into its parts; the partner of
      `SecureUrl` and `PlainUrl`. */
  function ParseUrl(u: string): (e: Option<Endpoint>)
    ensures e.Some? ==> (e.value.secure <==> IsSecureUrl(u))
    ensures e.Some? ==> |e.value.port| == 4
  {
    if IsSecureUrl(u) then SplitHostPort(true, u[6..])
    else if |u| >= 5 && u[..5] == "ws://" then SplitHostPort(false, u[5..])
    else None
  }

  function SplitHostPort(secure: bool, rest: string): (e: Option<Endpoint>)
    ensures e.Some? ==> e.value.secure == secure && |e.value.port| == 4
  {
    if |rest| >= 5 && rest[|rest| - 5] == ':'
    then Some(Endpoint(secure, rest[..|rest| - 5], rest[|rest| - 4..]))
    else None
  }

  /** The secure URL names the host on port 3001 over `wss`. */
  lemma SecureUrlParses(host: string)
    ensures IsSecureUrl(SecureUrl(host))
    ensures ParseUrl(SecureUrl(host)) == Some(Endpoint(true, host, "3001"))
  {
    var u := SecureUrl(host);
    assert u[..6] == "wss://";
    var rest := u[6..];
    assert rest == host + ":3001";
    assert rest[|rest| - 5] == ':';
    assert rest[..|rest| - 5] == host && rest[|rest| - 4..] == "3001";
  }

  /** The plain URL names the host on port 3000 over `ws`. */
  lemma PlainUrlParses(host: string)
    ensures !IsSecureUrl(PlainUrl(host))
    ensures ParseUrl(PlainUrl(host)) == Some(Endpoint(false, host, "3000"))
  {
    var u := PlainUrl(host);
    assert u[..5] == "ws://";
    assert u[..6][2] == u[..5][2] == ':';
    assert "wss://"[2] == 's';
    var rest := u[5..];
    assert rest == host + ":3000";
    assert rest[|rest| - 5] == ':';
    assert rest[..|rest| - 5] == host && rest[|rest| - 4..] == "3000";
  }

  class SocketConnection {
    /** `Url`: the URL of the last attempt that was kept. */
    var url: Option<string>
    /** `_socket`: the index of the attempt held, `None` for null. */
    var current: Option<nat>
    /** Every WebSocket this connection created, oldest first. */
    var attempts: seq<Attempt>
    /** Everything handed to a held WebSocket by `Send`. */
    var sent: seq<Frame>
    /** How many times `OnDisconnected` was raised. */
    var disconnects: nat

    /** The held attempt was kept, so its fallback is cleared and `Url` is
        its URL; `OnDisconnected` was raised at most once per closed
        attempt. */
    ghost predicate Valid()
      reads this
    {
      && (current.Some? ==>
           && current.value < |attempts|
           && attempts[current.value].fallback == None
           && url == Some(attempts[current.value].url))
      && disconnects <= HandlersRun(attempts)
    }

    /** The number of WebSockets this connection holds once every close
        handler still to run has run: the attempts made and the fallbacks
        still to be tried. No close event and no `Close` changes it. */
    ghost function AttemptBound(): nat
      reads this
    {
      |attempts| + PendingFallbacks(attempts)
    }

    constructor()
      ensures Valid()
      ensures url == None && current == None && attempts == [] && sent == [] && disconnects == 0
    {
      url, current, attempts, sent, disconnects := None, None, [], [], 0;
    }

    /** `IsAlive`: a WebSocket is held and it is open. A live connection
        is at the URL that `Url` reports, and has no fallback left. */
    predicate IsAlive()
      reads this
      ensures IsAlive() ==> current.Some? && current.value < |attempts|
      ensures Valid() && IsAlive() ==>
        url == Some(attempts[current.value].url) && attempts[current.value].fallback == None
    {
      current.Some? && current.value < |attempts| && attempts[current.value].state == Open
    }

    /** The protected `Connect(url, fallbackUrl)`: a new WebSocket, TLS 1.2
        pinned when it is secure, kept only when it reaches `Connecting` or
        `Open`, in which case its captured fallback is cleared. */
    method ConnectWithFallback(u: string, fallback: Option<string>, outcome: ReadyState)
      requires Valid()
      modifies this
      ensures Valid()
      ensures attempts == old(attempts) + [Attempt(
        u,
        if Kept(outcome) then None else fallback,
        if IsSecureUrl(u) then Tls12 else NegotiatedDefault,
        outcome,
        false)]
      ensures AttemptBound() == old(AttemptBound()) + 1 + (if !Kept(outcome) && !NullOrEmpty(fallback) then 1 else 0)
      ensures Kept(outcome) ==> url == Some(u) && current == Some(|old(attempts)|)
      ensures !Kept(outcome) ==> url == old(url) && current == old(current)
      ensures sent == old(sent) && disconnects == old(disconnects)
    {
      var index := |attempts|;
      var ssl := NegotiatedDefault;
      if IsSecureUrl(u) {
        ssl := Tls12;
      }
      var a := Attempt(u, fallback, ssl, outcome, false);
      PendingFallbacksAppend(attempts, a);
      HandlersRunAppend(attempts, a);
      attempts := attempts + [a];
      if Kept(outcome) {
        url := Some(u);
        current := Some(index);
        PendingFallbacksUpdate(attempts, index, a.(fallback := None));
        HandlersRunUpdate(attempts, index, a.(fallback := None));
        attempts := attempts[index := a.(fallback := None)];
      }
    }

    /** `Connect(IDevice)`: the secure endpoint, falling back to the plain one. */
    method ConnectDevice(device: Device, outcome: ReadyState)
      requires Valid()
      modifies this
      ensures Valid()
      ensures var h := DeviceHost(device.hostName, device.ipAddress);
        attempts == old(attempts) + [Attempt(
          SecureUrl(h), if Kept(outcome) then None else Some(PlainUrl(h)), Tls12, outcome, false)]
        && (Kept(outcome) ==> url == Some(SecureUrl(h)) && current == Some(|old(attempts)|))
      ensures !Kept(outcome) ==> url == old(url) && current == old(current)
      ensures sent == old(sent) && disconnects == old(disconnects)
      ensures AttemptBound() == old(AttemptBound()) + (if Kept(outcome) then 1 else 2)
    {
      var h := DeviceHost(device.hostName, device.ipAddress);
      SecureUrlParses(h);
      ConnectWithFallback(SecureUrl(h), Some(PlainUrl(h)), outcome);
    }

    /** `Connect(string)`: a single attempt without fallback. */
    method ConnectUrl(u: string, outcome: ReadyState)
      requires Valid()
      modifies this
      ensures Valid()
      ensures attempts == old(attempts) + [Attempt(
        u, None, if IsSecureUrl(u) then Tls12 else NegotiatedDefault, outcome, false)]
      ensures Kept(outcome) ==> url == Some(u) && current == Some(|old(attempts)|)
      ensures !Kept(outcome) ==> url == old(url) && current == old(current)
      ensures sent == old(sent) && disconnects == old(disconnects)
    {
      ConnectWithFallback(u, None, outcome);
    }

    /** The WebSocket of attempt `i` closed; its close handler either raises
        `OnDisconnected` or, when its captured fallback is set, attempts the
        fallback URL without a further fallback (reaching `retry`). A
        WebSocket raises `OnClose` once, so the handler has not yet run. */
    method OnClose(i: nat, retry: ReadyState)
      requires Valid() && i < |attempts| && !attempts[i].handled
      modifies this
      ensures Valid()
      ensures AttemptBound() == old(AttemptBound())
      ensures var closed := old(attempts)[i := old(attempts[i]).(state := Closed, handled := true)];
        var fb := old(attempts[i].fallback);
        if NullOrEmpty(fb) then
          && disconnects == old(disconnects) + 1
          && attempts == closed && url == old(url) && current == old(current)
        else
          && disconnects == old(disconnects)
          && attempts == closed + [Attempt(
               fb.value, None, if IsSecureUrl(fb.value) then Tls12 else NegotiatedDefault, retry, false)]
          && (Kept(retry) ==> url == fb && current == Some(|old(attempts)|))
          && (!Kept(retry) ==> url == old(url) && current == old(current))
      ensures sent == old(sent)
    {
      var fallback := attempts[i].fallback;
      PendingFallbacksUpdate(attempts, i, attempts[i].(state := Closed, handled := true));
      HandlersRunUpdate(attempts, i, attempts[i].(state := Closed, handled := true));
      attempts := attempts[i := attempts[i].(state := Closed, handled := true)];
      if NullOrEmpty(fallback) {
        disconnects := disconnects + 1;
        return;
      }
      ConnectWithFallback(fallback.value, None, retry);
    }

    /** `Send`: handed to the held WebSocket; a no-op when none is held. */
    method Send(f: Frame)
      requires Valid()
      modifies this
      ensures Valid()
      ensures sent == if old(current).Some? then old(sent) + [f] else old(sent)
      ensures url == old(url) && current == old(current) && attempts == old(attempts)
      ensures disconnects == old(disconnects)
    {
      if current.Some? {
        sent := sent + [f];
      }
    }

    /** `Close`: the held WebSocket is closed and dropped; `Url` is kept.
        Closing a WebSocket whose close handler has not run raises `OnClose`
        at once, and the handler of a kept attempt, whose fallback is
        cleared, raises `OnDisconnected`. */
    method Close()
      requires Valid()
      modifies this
      ensures Valid() && !IsAlive() && current == None
      ensures AttemptBound() == old(AttemptBound())
      ensures ClosedBy(this)
    {
      if current.Some? {
        var held := attempts[current.value];
        PendingFallbacksUpdate(attempts, current.value, held.(state := Closed, handled := true));
        HandlersRunUpdate(attempts, current.value, held.(state := Closed, handled := true));
        attempts := attempts[current.value := held.(state := Closed, handled := true)];
        if !held.handled {
          disconnects := disconnects + 1;
        }
      }
      current := None;
    }
  }

  /** What `Close` does to `c`: the attempt it held, if any, is closed
      with its handler run, which raises `OnDisconnected` unless it had
      run already; nothing is held afterwards, and `Url` and the sent
      frames are kept. */
  twostate predicate ClosedBy(c: SocketConnection)
    reads c
  {
    && c.current == None && c.url == old(c.url) && c.sent == old(c.sent)
    && (old(c.current).Some? && old(c.current.value) < old(|c.attempts|) ==>
         && c.attempts == old(c.attempts)[old(c.current.value) :=
              old(c.attempts[c.current.value]).(state := Closed, handled := true)]
         && c.disconnects == old(c.disconnects) + (if old(c.attempts[c.current.value].handled) then 0 else 1))
    && (old(c.current).None? ==> c.attempts == old(c.attempts) && c.disconnects == old(c.disconnects))
  }

  /** The connection `c` is in the state it had before the call. */
  twostate predicate SocketUnchanged(c: SocketConnection)
    reads c
  {
    && c.sent == old(c.sent) && c.attempts == old(c.attempts) && c.current == old(c.current)
    && c.url == old(c.url) && c.disconnects == old(c.disconnects)
  }

  /** A secure attempt that fails is followed by one plain attempt, at the
      same host, without TLS pinning and without `OnDisconnected`. */
  method SecureFailureFallsBackQuietly(device: Device, first: ReadyState, retry: ReadyState)
    returns (urls: seq<string>, ssl: seq<SslProtocols>, raised: nat, kept: Option<string>)
    requires !Kept(first)
    ensures var h := DeviceHost(device.hostName, device.ipAddress);
      && urls == [SecureUrl(h), PlainUrl(h)]
      && kept == (if Kept(retry) then Some(PlainUrl(h)) else None)
    ensures ssl == [Tls12, NegotiatedDefault]
    ensures raised == 0
  {
    var c := new SocketConnection();
    c.ConnectDevice(device, first);
    PlainUrlParses(DeviceHost(device.hostName, device.ipAddress));
    c.OnClose(0, retry);
    urls := [c.attempts[0].url, c.attempts[1].url];
    ssl := [c.attempts[0].ssl, c.attempts[1].ssl];
    raised := c.disconnects;
    kept := c.url;
  }

  /** The fallback attempt has no fallback of its own: its close raises
      `OnDisconnected` once and no third URL is tried. */
  method FallbackCloseIsReported(device: Device, first: ReadyState, retry: ReadyState, third: ReadyState)
    returns (attemptsMade: nat, raised: nat)
    requires !Kept(first)
    ensures attemptsMade == 2 && raised == 1
  {
    var c := new SocketConnection();
    c.ConnectDevice(device, first);
    c.OnClose(0, retry);
    c.OnClose(1, third);
    attemptsMade := |c.attempts|;
    raised := c.disconnects;
  }

  /** A kept secure attempt has cleared its fallback: its later close raises
      `OnDisconnected` instead of trying the plain URL. */
  method KeptAttemptReportsClose(device: Device, first: ReadyState, retry: ReadyState)
    returns (attemptsMade: nat, raised: nat, alive: bool, kept: Option<string>)
    requires Kept(first)
    ensures attemptsMade == 1 && raised == 1 && !alive
    ensures kept == Some(SecureUrl(DeviceHost(device.hostName, device.ipAddress)))
  {
    var c := new SocketConnection();
    c.ConnectDevice(device, first);
    c.OnClose(0, retry);
    attemptsMade := |c.attempts|;
    raised := c.disconnects;
    alive := c.IsAlive();
    kept := c.url;
  }

  /** After `Close` nothing is alive and `Send` hands nothing over. */
  method SendAfterCloseIsDropped(u: string, outcome: ReadyState, f: Frame)
    returns (alive: bool, sent: seq<Frame>)
    ensures !alive && sent == []
  {
    var c := new SocketConnection();
    c.ConnectUrl(u, outcome);
    c.Close();
    c.Send(f);
    alive := c.IsAlive();
    sent := c.sent;
  }

  /** A close event the environment may deliver to a connection: the
      WebSocket of an attempt closes (and the retry, if one is started,
      reaches `retry`), or the owner calls `Close`. */
  datatype CloseEvent = RemoteClose(attempt: nat, retry: ReadyState) | LocalClose

  /** Whatever closes follow `Connect(IDevice)`, at most two WebSockets are
      ever created, the second only when the secure attempt was not kept,
      and `OnDisconnected` is raised at most once per WebSocket. A remote
      close of an attempt whose close handler already ran is not delivered,
      as a WebSocket raises `OnClose` once. */
  method AnyClosesAfterDeviceConnect(device: Device, first: ReadyState, events: seq<CloseEvent>)
    returns (attemptsMade: nat, raised: nat)
    ensures attemptsMade <= 2
    ensures Kept(first) ==> attemptsMade == 1
    ensures raised <= attemptsMade
  {
    var c := new SocketConnection();
    c.ConnectDevice(device, first);
    var k := 0;
    while k < |events|
      invariant 0 <= k <= |events|
      invariant c.Valid()
      invariant c.AttemptBound() == if Kept(first) then 1 else 2
    {
      match events[k] {
        case RemoteClose(i, retry) =>
          if i < |c.attempts| && !c.attempts[i].handled {
            c.OnClose(i, retry);
          }
        case LocalClose =>
          c.Close();
      }
      k := k + 1;
    }
    attemptsMade := |c.attempts|;
    raised := c.disconnects;
  }
}
