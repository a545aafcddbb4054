/**
 * The shared event-channel connection: one module-level socket, created and
 * connected on the first call that finds an auth token, reused afterwards.
 * The transport is abstracted to the credential it carries, whether it is
 * connected, how many times `connect()` was issued, and the names of the
 * listeners registered on it.
 */
module Channel {
  import opened Wrappers

  /** The listeners `getSocket` registers when it creates the socket, in order. */
  const CreationListeners: seq<string> := [
    "connect", "disconnect", "connect_error",
    "new_message", "message_edited", "message_deleted", "contact_accepted"]

  /** `!token` is false: the cookie is there and not the empty string. */
  predicate HasToken(cookie: Option<string>) {
    cookie.Some? && cookie.value != ""
  }

  /** An abstract socket.io client socket. */
  class Socket {
    var auth: string
    var connected: bool
    var connectCalls: nat
    var listeners: seq<string>

    /** `io(url, { auth: { token } })`: nothing connected, nothing listening yet. */
    constructor (token: string)
      ensures auth == token && !connected && connectCalls == 0 && listeners == []
    {
      auth, connected, connectCalls, listeners := token, false, 0, [];
    }

    /** `socket.connect()`: a connection attempt is issued; the transport sets `connected` later. */
    method Connect()
      modifies this`connectCalls
      ensures connectCalls == old(connectCalls) + 1
    {
      connectCalls := connectCalls + 1;
    }

    /** `socket.on(event, handler)`. */
    method On(event: string)
      modifies this`listeners
      ensures listeners == old(listeners) + [event]
    {
      listeners := listeners + [event];
    }
  }

  /** The module `socket.ts` and its `let socket` singleton. */
  class SocketModule {
    var socket: Socket?

    constructor ()
      ensures socket == null
    {
      socket := null;
    }

    /**
     * `getSocket()` with the `authToken` cookie as read at the call. No token:
     * null, and the module's socket is left as it is. First call with a token:
     * one fresh socket carrying the token, connected once, with the creation
     * listeners. Later calls: the same socket, its credential overwritten, a
     * new `connect()` only when it is not connected, no listener added.
     */
    method GetSocket(cookie: Option<string>) returns (s: Socket?)
      modifies this, socket
      ensures (s != null) <==> HasToken(cookie)
      ensures !HasToken(cookie) ==> socket == old(socket)
      ensures !HasToken(cookie) && old(socket) != null ==> unchanged(old(socket))
      ensures HasToken(cookie) && old(socket) == null ==>
                s != null && fresh(s) && socket == s &&
                s.auth == cookie.value && !s.connected && s.connectCalls == 1 &&
                s.listeners == CreationListeners
      ensures HasToken(cookie) && old(socket) != null ==>
                s == old(socket) && socket == s && s.auth == cookie.value &&
                s.connected == old(s.connected) && s.listeners == old(s.listeners) &&
                s.connectCalls == old(s.connectCalls) + (if old(s.connected) then 0 else 1)
    {
      if !HasToken(cookie) {
        return null;
      }
      var token := cookie.value;
      if socket == null {
        var created := new Socket(token);
        created.Connect();
        created.On("connect");
        created.On("disconnect");
        created.On("connect_error");
        created.On("new_message");
        created.On("message_edited");
        created.On("message_deleted");
        created.On("contact_accepted");
        socket := created;
      } else {
        socket.auth := token;
        if !socket.connected {
          socket.Connect();
        }
      }
      s := socket;
    }
  }

  /** Repeated acquisition with tokens keeps one socket and never adds a listener. */
  method AcquireTwice(m: SocketModule, first: string, second: string) returns (a: Socket?, b: Socket?)
    requires first != "" && second != ""
    modifies m, m.socket
    ensures a != null && a == b && m.socket == a
    ensures b.auth == second
    ensures old(m.socket) == null ==> fresh(a) && b.listeners == CreationListeners
    ensures old(m.socket) != null ==> a == old(m.socket) && b.listeners == old(m.socket.listeners)
  {
    a := m.GetSocket(Some(first));
    b := m.GetSocket(Some(second));
  }
}
