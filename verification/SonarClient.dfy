/** The connection to the sonar: watchdog, connection attempts and the reception loop. All
    of it runs as handlers of one event loop, one handler at a time. `Client` is the state
    with a function per handler; the class runs the handlers and is proved against it. */
module SonarClients {
  import opened Basics
  import opened Bytes
  import opened OculusMessage
  import opened CallbackTable

  datatype ConnectionState = Initializing | Attempt | Connected | Lost

  /** Whose callback sits in the status listener's table. */
  datatype Owner = Hook | User(tag: nat)

  /** An asynchronous read that has not completed, with the socket it was started on. */
  datatype Read = HeaderRead(socket: nat) | DataRead(socket: nat, size: nat)

  function Without<T>(s: seq<T>, i: nat): seq<T>
    requires i < |s|
  {
    s[..i] + s[i + 1..]
  }

  datatype Client = Client(
    conn: ConnectionState,
    socket: Option<nat>,            // socket_, by the number of its creation
    sockets: nat,                   // sockets created so far
    sonarId: U16,
    remote: U32,
    listeners: map<int, Owner>,     // the table of statusListener_
    hookId: int,                    // statusCallbackId_
    lastStatus: real,               // when the listener's clock was last reset
    lastMessage: real,              // when clock_ was last reset
    message: Snapshot,              // *message_
    connects: seq<nat>,             // asynchronous connects in flight
    pending: seq<Read>,               // asynchronous reads in flight
    connectFailed: bool,            // connect_callback has thrown
    handled: seq<Snapshot>,         // what handle_message was called with
    undefined: bool)                // a null socket was dereferenced or a buffer left
  {
    predicate IsValid(h: Header) {
      h.oculusId == OCULUS_CHECK_ID && h.srcDeviceId == sonarId
    }

    function InitiateReceive(): Client {
      if socket.None? then this else this.(pending := pending + [HeaderRead(socket.value)])
    }

    /** `shutdownFails`: shutdown reports an error, and the early return keeps the socket. */
    function Close(shutdownFails: bool): Client {
      if socket.None? || shutdownFails then this else this.(socket := None)
    }

    function Reset(shutdownFails: bool): Client {
      var c := this.(conn := Attempt).Close(shutdownFails);
      var id := FreshId(c.listeners.Keys);
      c.(listeners := c.listeners[id := Hook], hookId := id)
    }

    function Tick(now: real, shutdownFails: bool): Client {
      if conn == Initializing || conn == Attempt then this
      else if now - lastStatus > 5.0 then this.(conn := Lost)
      else if now - lastMessage > 10.0 then Reset(shutdownFails)
      else this
    }

    function OnFirstStatus(source: U16, ip: U32): Client {
      this.(listeners := listeners - {hookId}, sonarId := source, remote := ip,
            socket := Some(sockets), sockets := sockets + 1, connects := connects + [sockets])
    }

    predicate HookRegistered() {
      hookId in listeners && listeners[hookId] == Hook
    }

    /** A datagram on the status port; only an intact one counts. */
    function Status(now: real, intact: bool, source: U16, ip: U32): Client {
      if !intact then this
      else
        var c := this.(lastStatus := now);
        if HookRegistered() then c.OnFirstStatus(source, ip) else c
    }

    function ConnectDone(now: real, i: nat, ok: bool): Client
      requires i < |connects|
    {
      var c := this.(connects := Without(connects, i));
      if !ok then c.(connectFailed := true)
      else c.(lastMessage := now, conn := Connected).InitiateReceive()
    }

    /** Part of a header arrives: the read writes straight into the shared message. */
    function HeaderBytes(h: Header): Client {
      this.(message := message.(header := h))
    }

    /** A header read ends with `n` bytes, after which the shared header is `h`. */
    function HeaderDone(i: nat, n: nat, h: Header, stamp: I64): Client
      requires i < |pending|
    {
      var c := this.(pending := Without(pending, i)).HeaderBytes(h);
      if n != HEADER_SIZE || !IsValid(h) then c.InitiateReceive()
      else
        var d := c.(message := c.message.UpdateFromHeader(stamp));
        if socket.None? then d.(undefined := true)
        else d.(pending := d.pending + [DataRead(socket.value, h.payloadSize)])
    }

    /** A payload read ends with these bytes. */
    function DataDone(now: real, i: nat, payload: seq<Byte>): Client
      requires i < |pending|
    {
      var n := |payload|;
      var c := this.(pending := Without(pending, i));
      if HEADER_SIZE + n > |message.data| then c.(undefined := true)
      else
        var data := message.data[..HEADER_SIZE] + payload + message.data[HEADER_SIZE + n..];
        var d := c.(message := message.(data := data));
        if n != message.header.payloadSize then d.InitiateReceive()
        else d.(lastMessage := now, handled := handled + [d.message]).InitiateReceive()
    }

    function UserAdd(tag: nat): Client {
      this.(listeners := listeners[FreshId(listeners.Keys) := User(tag)])
    }

    function UserRemove(id: int): Client {
      this.(listeners := listeners - {id})
    }
  }

  /** No entry of the table but possibly the one at `hookId` is the client's own. */
  predicate HooksAt(table: map<int, Owner>, hookId: int) {
    forall id :: id in table && table[id] == Hook ==> id == hookId
  }

  /** The state when the constructor returns. */
  function Constructed(now: real): Client {
    Client(Initializing, None, 0, 0, 0, map[], 0, now, now, Snapshot(ZERO_HEADER, [], 0),
           [], [], false, [], false).Reset(false)
  }

  // ---------------------------------------------------------------- the class

  class SonarClient {
    var connectionState: ConnectionState
    var socket: Option<nat>
    var sockets: nat
    var sonarId: U16
    var remote: U32
    const statusListener: CallbackQueue<Owner>
    var statusCallbackId: CallbackId
    var lastStatus: real
    var lastMessage: real
    const message: Message
    var connects: seq<nat>
    var pending: seq<Read>
    var connectFailed: bool
    var handled: seq<Snapshot>
    var undefined: bool

    function State(): Client
      reads this, statusListener, message
    {
      Client(connectionState, socket, sockets, sonarId, remote, statusListener.callbacks, statusCallbackId,
             lastStatus, lastMessage, message.Value(), connects, pending, connectFailed, handled, undefined)
    }

    /** Room in the 32-bit identifier space, and no hook but the current one. */
    ghost predicate Valid()
      reads this, statusListener
    {
      && |statusListener.callbacks| < 0x7fff_ffff
      && HooksAt(statusListener.callbacks, statusCallbackId)
    }

    constructor (now: real, garbage: bool)
      ensures State() == Constructed(now) && Valid()
      ensures connectionState == Attempt && socket == None && sonarId == 0 && handled == [] && pending == []
      ensures statusListener.callbacks == map[0 := Hook] && connects == []
      ensures fresh(statusListener) && fresh(message)
    {
      connectionState, socket, sockets, sonarId, remote := Initializing, None, 0, 0, 0;
      statusListener := new CallbackQueue<Owner>(garbage);
      statusCallbackId, lastStatus, lastMessage := 0, now, now;
      message := new Message();
      connects, pending, connectFailed, handled, undefined := [], [], false, [], false;
      new;
      ResetConnection(false);
    }

    method InitiateReceive()
      modifies this`pending
      ensures State() == old(State()).InitiateReceive()
    {
      if socket.None? {
        return;
      }
      pending := pending + [HeaderRead(socket.value)];
    }

    method CloseConnection(shutdownFails: bool)
      modifies this`socket
      ensures State() == old(State()).Close(shutdownFails)
      ensures socket == if shutdownFails then old(socket) else None
    {
      if socket.Some? {
        if shutdownFails {
          return;
        }
        socket := None;
      }
    }

    method ResetConnection(shutdownFails: bool)
      requires |statusListener.callbacks| < 0x7fff_ffff
      requires forall id :: id in statusListener.callbacks ==> statusListener.callbacks[id] != Hook
      modifies this, statusListener
      ensures State() == old(State()).Reset(shutdownFails)
      ensures HooksAt(statusListener.callbacks, statusCallbackId)
    {
      connectionState := Attempt;
      CloseConnection(shutdownFails);
      statusCallbackId := statusListener.AddCallback(Hook);
    }

    method CheckerCallback(now: real, shutdownFails: bool)
      requires Valid()
      requires connectionState == Connected || connectionState == Lost ==>
                 forall id :: id in statusListener.callbacks ==> statusListener.callbacks[id] != Hook
      modifies this, statusListener
      ensures State() == old(State()).Tick(now, shutdownFails)
    {
      if connectionState == Initializing || connectionState == Attempt {
        return;
      }
      if now - lastStatus > 5.0 {
        connectionState := Lost;
        return;
      }
      if now - lastMessage > 10.0 {
        ResetConnection(shutdownFails);
        return;
      }
    }

    method OnFirstStatus(source: U16, ip: U32)
      modifies this, statusListener`callbacks
      ensures State() == old(State()).OnFirstStatus(source, ip)
      ensures statusCallbackId == old(statusCallbackId)
    {
      var removed := statusListener.RemoveCallback(statusCallbackId);
      sonarId := source;
      remote := ip;
      socket := Some(sockets);
      connects := connects + [sockets];
      sockets := sockets + 1;
    }

    /** `StatusListener::message_callback`: the clock, then every callback of a copy of the
        table. What users' callbacks do to the table are events of their own. */
    method StatusReceived(now: real, intact: bool, source: U16, ip: U32)
      requires Valid()
      modifies this, statusListener
      ensures State() == old(State()).Status(now, intact, source, ip)
      ensures Valid()
    {
      if !intact {
        return;
      }
      lastStatus := now;
      ghost var before := State();
      var copy := statusListener.callbacks;
      var left := copy.Keys;
      while left != {}
        invariant left <= copy.Keys && statusCallbackId == before.hookId
        invariant statusCallbackId !in left && before.HookRegistered() ==> State() == before.OnFirstStatus(source, ip)
        invariant !(statusCallbackId !in left && before.HookRegistered()) ==> State() == before
        decreases left
      {
        var id :| id in left;
        if copy[id] == Hook {
          OnFirstStatus(source, ip);
        }
        left := left - {id};
      }
      if before.HookRegistered() {
        CallbackTable.SetBound(statusListener.callbacks.Keys, copy.Keys);
      }
    }

    /** `SonarDriver::add_status_callback` and `remove_status_callback`. */
    method AddStatusCallback(tag: nat) returns (id: CallbackId)
      requires |statusListener.callbacks| < 0x7fff_ffff
      modifies statusListener
      ensures State() == old(State()).UserAdd(tag)
      ensures id !in old(statusListener.callbacks)
    {
      id := statusListener.AddCallback(User(tag));
    }

    method RemoveStatusCallback(id: CallbackId) returns (removed: bool)
      modifies statusListener
      ensures State() == old(State()).UserRemove(id)
      ensures removed <==> id in old(statusListener.callbacks)
    {
      removed := statusListener.RemoveCallback(id);
    }

    method ConnectCallback(now: real, i: nat, ok: bool)
      requires i < |connects|
      modifies this
      ensures State() == old(State()).ConnectDone(now, i, ok)
    {
      connects := Without(connects, i);
      if !ok {
        connectFailed := true;
        return;
      }
      lastMessage := now;
      connectionState := Connected;
      InitiateReceive();
    }

    method HeaderReceivedCallback(i: nat, n: nat, h: Header, stamp: I64)
      requires i < |pending|
      modifies this, message
      ensures State() == old(State()).HeaderDone(i, n, h, stamp)
    {
      pending := Without(pending, i);
      message.header := h;
      if n != HEADER_SIZE || h.oculusId != OCULUS_CHECK_ID || h.srcDeviceId != sonarId {
        InitiateReceive();
        return;
      }
      message.UpdateFromHeader(stamp);
      if socket.None? {
        undefined := true;
        return;
      }
      pending := pending + [DataRead(socket.value, message.header.payloadSize)];
    }

    method DataReceivedCallback(now: real, i: nat, payload: seq<Byte>)
      requires i < |pending|
      modifies this, message
      ensures State() == old(State()).DataDone(now, i, payload)
    {
      pending := Without(pending, i);
      var n := |payload|;
      if HEADER_SIZE + n > |message.data| {
        undefined := true;
        return;
      }
      message.data := message.data[..HEADER_SIZE] + payload + message.data[HEADER_SIZE + n..];
      if n != message.header.payloadSize {
        InitiateReceive();
        return;
      }
      lastMessage := now;
      handled := handled + [message.Value()];
      InitiateReceive();
    }
  }
}
