/** Every run of the connection handlers: the life of the status hook, the watchdog in time,
    and the condition under which there is only one reception loop. */
module ConnectionTheorems {
  import opened Basics
  import opened Bytes
  import opened OculusMessage
  import opened CallbackTable
  import opened SonarClients

  datatype Event =
    | Tick(now: real, shutdownFails: bool)
    | Status(now: real, intact: bool, source: U16, ip: U32)
    | ConnectDone(now: real, i: nat, ok: bool)
    | HeaderBytes(h: Header)
    | HeaderDone(i: nat, n: nat, h: Header, stamp: I64)
    | DataDone(now: real, i: nat, payload: seq<Byte>)
    | UserAdd(tag: nat)
    | UserRemove(id: int)

  /** The read is on the client's present socket. On any other socket, closed or replaced,
      nothing arrives any more; such a read can only complete with what it already has. */
  predicate Live(c: Client, r: Read) {
    c.socket == Some(r.socket)
  }

  predicate Enabled(c: Client, e: Event) {
    match e
    case ConnectDone(_, i, _) => i < |c.connects|
    case HeaderBytes(_) => exists i :: 0 <= i < |c.pending| && c.pending[i].HeaderRead? && Live(c, c.pending[i])
    case HeaderDone(i, n, h, _) =>
      && i < |c.pending| && c.pending[i].HeaderRead? && n <= HEADER_SIZE
      && (Live(c, c.pending[i]) || h == c.message.header)
    case DataDone(_, i, payload) => i < |c.pending| && c.pending[i].DataRead? && |payload| <= c.pending[i].size
    case _ => true
  }

  function Step(c: Client, e: Event): Client
    requires Enabled(c, e)
  {
    match e
    case Tick(now, shutdownFails) => c.Tick(now, shutdownFails)
    case Status(now, intact, source, ip) => c.Status(now, intact, source, ip)
    case ConnectDone(now, i, ok) => c.ConnectDone(now, i, ok)
    case HeaderBytes(h) => c.HeaderBytes(h)
    case HeaderDone(i, n, h, stamp) => c.HeaderDone(i, n, h, stamp)
    case DataDone(now, i, payload) => c.DataDone(now, i, payload)
    case UserAdd(tag) => c.UserAdd(tag)
    case UserRemove(id) => c.UserRemove(id)
  }

  predicate Feasible(c: Client, es: seq<Event>)
    decreases |es|
  {
    es == [] || (Enabled(c, es[0]) && Feasible(Step(c, es[0]), es[1..]))
  }

  function Run(c: Client, es: seq<Event>): Client
    requires Feasible(c, es)
    decreases |es|
  {
    if es == [] then c else Run(Step(c, es[0]), es[1..])
  }

  /** A user passes only identifiers that are not the client's own. */
  predicate OwnIdsOnly(c: Client, e: Event) {
    e.UserRemove? && e.id in c.listeners ==> c.listeners[e.id].User?
  }

  ghost predicate Throughout(p: (Client, Event) -> bool, c: Client, es: seq<Event>)
    requires Feasible(c, es)
    decreases |es|
  {
    es == [] || (p(c, es[0]) && Throughout(p, Step(c, es[0]), es[1..]))
  }

  // ---------------------------------------------------------------- the life of the hook

  /** In Attempt the client waits for exactly one thing: a status, a connect, or nothing any
      more because the connect has failed. In Connected and Lost it waits for none of them. */
  predicate ConnInv(c: Client) {
    && (forall id :: id in c.listeners && c.listeners[id] == Hook ==> id == c.hookId)
    && match c.conn
       case Initializing => false
       case Attempt =>
         || (c.HookRegistered() && c.connects == [] && !c.connectFailed)
         || (!c.HookRegistered() && |c.connects| == 1 && !c.connectFailed)
         || (!c.HookRegistered() && c.connects == [] && c.connectFailed)
       case _ => !c.HookRegistered() && c.connects == [] && !c.connectFailed
  }

  lemma ConstructedConnInv(now: real)
    ensures ConnInv(Constructed(now)) && Constructed(now).hookId == 0
  {
    assert FreshId({}) == 0;
  }

  lemma TickConn(c: Client, now: real, shutdownFails: bool)
    requires ConnInv(c)
    ensures ConnInv(c.Tick(now, shutdownFails))
  {
  }

  lemma StatusConn(c: Client, now: real, intact: bool, source: U16, ip: U32)
    requires ConnInv(c)
    ensures ConnInv(c.Status(now, intact, source, ip))
  {
  }

  predicate IsRead(e: Event) {
    e.HeaderBytes? || e.HeaderDone? || e.DataDone?
  }

  /** Everything that does not concern the reception is the same. */
  predicate SameConnection(c: Client, d: Client) {
    && d.conn == c.conn && d.socket == c.socket && d.sockets == c.sockets && d.sonarId == c.sonarId
    && d.listeners == c.listeners && d.hookId == c.hookId && d.lastStatus == c.lastStatus
    && d.connects == c.connects && d.connectFailed == c.connectFailed
  }

  lemma HeaderKeepsConnection(c: Client, i: nat, n: nat, h: Header, stamp: I64)
    requires i < |c.pending|
    ensures SameConnection(c, c.HeaderDone(i, n, h, stamp))
  {
    hide LoadHeader, StoreHeader, Without, Snapshot.UpdateFromHeader, Client.IsValid;
  }

  lemma DataKeepsConnection(c: Client, now: real, i: nat, payload: seq<Byte>)
    requires i < |c.pending|
    ensures SameConnection(c, c.DataDone(now, i, payload))
  {
    hide LoadHeader, StoreHeader, Without;
  }

  lemma ReadKeepsConnection(c: Client, e: Event)
    requires Enabled(c, e) && IsRead(e)
    ensures SameConnection(c, Step(c, e))
  {
    hide Client.HeaderDone, Client.DataDone;
    match e
    case HeaderDone(i, n, h, stamp) => HeaderKeepsConnection(c, i, n, h, stamp);
    case DataDone(now, i, payload) => DataKeepsConnection(c, now, i, payload);
    case _ =>
  }

  /** The reads and their completion leave connection and hook alone. */
  lemma ReadConn(c: Client, e: Event)
    requires ConnInv(c) && Enabled(c, e) && IsRead(e)
    ensures ConnInv(Step(c, e))
  {
    hide Step, Enabled;
    ReadKeepsConnection(c, e);
  }

  lemma UserConn(c: Client, e: Event)
    requires ConnInv(c) && OwnIdsOnly(c, e) && (e.UserAdd? || e.UserRemove?)
    ensures ConnInv(Step(c, e))
  {
    assert e.UserAdd? ==> FreshId(c.listeners.Keys) !in c.listeners;
  }

  lemma ConnStep(c: Client, e: Event)
    requires ConnInv(c) && Enabled(c, e) && OwnIdsOnly(c, e)
    ensures ConnInv(Step(c, e))
  {
    match e
    case Tick(now, shutdownFails) => TickConn(c, now, shutdownFails);
    case Status(now, intact, source, ip) => StatusConn(c, now, intact, source, ip);
    case ConnectDone(_, _, _) =>
    case UserAdd(_) => UserConn(c, e);
    case UserRemove(_) => UserConn(c, e);
    case _ => ReadConn(c, e);
  }

  lemma {:induction false} ConnRun(c: Client, es: seq<Event>)
    requires ConnInv(c) && Feasible(c, es) && Throughout(OwnIdsOnly, c, es)
    ensures ConnInv(Run(c, es))
    decreases |es|
  {
    hide ConnInv, Step, Enabled;
    if es != [] {
      ConnStep(c, es[0]);
      ConnRun(Step(c, es[0]), es[1..]);
    }
  }

  /** In every run the identifier that `on_first_status` removes is that of the client's own
      hook, even if a user held the same identifier before, and no user callback goes. */
  lemma {:induction false} FirstStatusRemovesOwnHook(now0: real, es: seq<Event>, e: Event)
    requires Feasible(Constructed(now0), es) && Throughout(OwnIdsOnly, Constructed(now0), es)
    requires e.Status? && e.intact && Run(Constructed(now0), es).HookRegistered()
    ensures var c := Run(Constructed(now0), es);
            var d := Step(c, e);
            && c.listeners[c.hookId] == Hook
            && (forall id :: id in d.listeners <==> id in c.listeners && c.listeners[id].User?)
            && (forall id :: id in d.listeners ==> d.listeners[id] == c.listeners[id])
            && d.sonarId == e.source && d.remote == e.ip && d.lastStatus == e.now
            && d.connects == [c.sockets] && d.socket == Some(c.sockets)
  {
    hide Run, Feasible, Throughout;
    ConstructedConnInv(now0);
    ConnRun(Constructed(now0), es);
  }

  /** Without the hypothesis: once a user has removed the hook's identifier, for instance by
      removing a callback twice after the hook has reused its identifier, the client is in
      Attempt for ever and starts no connection, whatever happens. */
  lemma {:induction false} RemovedHookIsNeverReplaced(c: Client, es: seq<Event>)
    requires ConnInv(c) && c.HookRegistered()
    requires Feasible(c, [UserRemove(c.hookId)] + es)
    ensures var d := Run(c, [UserRemove(c.hookId)] + es);
            d.conn == Attempt && d.connects == [] && d.sockets == c.sockets
  {
    var c' := Step(c, UserRemove(c.hookId));
    assert ([UserRemove(c.hookId)] + es)[1..] == es;
    Stuck(c', es);
  }

  predicate IsStuck(c: Client) {
    && c.conn == Attempt && c.connects == []
    && (forall id :: id in c.listeners ==> c.listeners[id] != Hook)
  }

  lemma StuckStep(c: Client, e: Event)
    requires IsStuck(c) && Enabled(c, e)
    ensures IsStuck(Step(c, e)) && Step(c, e).sockets == c.sockets
  {
    hide IsStuck, Step, Enabled;
    if IsRead(e) {
      StuckRead(c, e);
    } else {
      StuckOther(c, e);
    }
  }

  lemma StuckOther(c: Client, e: Event)
    requires IsStuck(c) && Enabled(c, e) && !IsRead(e)
    ensures IsStuck(Step(c, e)) && Step(c, e).sockets == c.sockets
  {
    hide Client.HeaderDone, Client.DataDone, FreshId;
  }

  lemma StuckRead(c: Client, e: Event)
    requires IsStuck(c) && Enabled(c, e) && IsRead(e)
    ensures IsStuck(Step(c, e)) && Step(c, e).sockets == c.sockets
  {
    hide Step, Enabled;
    ReadKeepsConnection(c, e);
  }

  lemma {:induction false} Stuck(c: Client, es: seq<Event>)
    requires Feasible(c, es) && IsStuck(c)
    ensures IsStuck(Run(c, es)) && Run(c, es).sockets == c.sockets
    decreases |es|
  {
    hide Step, Enabled, IsStuck;
    if es != [] {
      StuckStep(c, es[0]);
      Stuck(Step(c, es[0]), es[1..]);
    }
  }

  /** A connect that fails is the end, even if the event loop survives the exception: the
      hook is gone, nothing is in flight, and no later event starts another attempt. */
  lemma {:induction false} FailedConnectIsForEver(c: Client, now: real, i: nat, es: seq<Event>)
    requires ConnInv(c) && Enabled(c, ConnectDone(now, i, false))
    requires Feasible(Step(c, ConnectDone(now, i, false)), es)
    ensures var d := Run(Step(c, ConnectDone(now, i, false)), es);
            d.conn == Attempt && d.connects == [] && d.sockets == c.sockets
  {
    Stuck(Step(c, ConnectDone(now, i, false)), es);
  }

  // ---------------------------------------------------------------- the watchdog

  /** The watchdog starts a new connection at exactly the ticks that find a fresh status and
      a stale message; nothing else leaves Connected or Lost for Attempt. Connected is left for
      Lost at exactly the ticks that find a stale status. */
  lemma ResetIffStale(c: Client, e: Event)
    requires ConnInv(c) && Enabled(c, e) && (c.conn == Connected || c.conn == Lost)
    ensures Step(c, e).conn == Attempt <==> e.Tick? && e.now - c.lastStatus <= 5.0 && e.now - c.lastMessage > 10.0
    ensures Step(c, e).conn == Attempt ==> Step(c, e).HookRegistered()
    ensures c.conn == Connected ==> (Step(c, e).conn == Lost <==> e.Tick? && e.now - c.lastStatus > 5.0)
    ensures c.conn == Lost ==> Step(c, e).conn != Connected
  {
  }

  /** A tick finds the status at most 5 s and the message at most 10 s old. */
  predicate Healthy(c: Client, e: Event) {
    e.Tick? ==> e.now - c.lastStatus <= 5.0 && e.now - c.lastMessage <= 10.0
  }

  predicate AlwaysConnected(c: Client, es: seq<Event>)
    requires Feasible(c, es)
    decreases |es|
  {
    c.conn == Connected && (es == [] || AlwaysConnected(Step(c, es[0]), es[1..]))
  }

  /** A connection stays up exactly as long as every tick finds it healthy. A new one starts
      with a fresh message clock, however old the last message before it was. */
  lemma {:induction false} StaysConnectedIffHealthy(c: Client, es: seq<Event>)
    requires ConnInv(c) && c.conn == Connected
    requires Feasible(c, es) && Throughout(OwnIdsOnly, c, es)
    ensures AlwaysConnected(c, es) <==> Throughout(Healthy, c, es)
    decreases |es|
  {
    hide Step, Enabled, ConnInv;
    if es != [] {
      ConnStep(c, es[0]);
      ResetIffStale(c, es[0]);
      NotInitializing(Step(c, es[0]));
      if Healthy(c, es[0]) {
        StaysConnectedIffHealthy(Step(c, es[0]), es[1..]);
      }
    }
  }

  lemma NotInitializing(c: Client)
    requires ConnInv(c)
    ensures c.conn != Initializing
  {
  }

  lemma {:induction false} NewConnectionIsFresh(c: Client, t: real, i: nat, es: seq<Event>)
    requires ConnInv(c) && Enabled(c, ConnectDone(t, i, true))
    requires Feasible(Step(c, ConnectDone(t, i, true)), es)
    requires Throughout(OwnIdsOnly, Step(c, ConnectDone(t, i, true)), es)
    ensures var d := Step(c, ConnectDone(t, i, true));
            && d.lastMessage == t
            && (AlwaysConnected(d, es) <==> Throughout(Healthy, d, es))
  {
    hide Run, Feasible, Throughout, AlwaysConnected;
    StaysConnectedIffHealthy(Step(c, ConnectDone(t, i, true)), es);
  }

  /** No message is completed. */
  predicate NoMessage(c: Client, e: Event) {
    e.DataDone? && e.i < |c.pending| ==> c.DataDone(e.now, e.i, e.payload).handled == c.handled
  }

  predicate FreshStatusAtTicks(c: Client, e: Event) {
    e.Tick? ==> e.now - c.lastStatus <= 5.0
  }

  predicate Quiet(c: Client, e: Event) {
    NoMessage(c, e) && FreshStatusAtTicks(c, e) && OwnIdsOnly(c, e)
  }

  /** Each tick comes at most `period` after the one before; the first one after `last`. */
  predicate TicksWithin(es: seq<Event>, last: real, period: real)
    decreases |es|
  {
    es == [] ||
    (if es[0].Tick? then last < es[0].now <= last + period && TicksWithin(es[1..], es[0].now, period)
     else TicksWithin(es[1..], last, period))
  }

  /** A connection whose messages stop at `t0` is reset at some tick in (t0 + 10, t0 + 10 + period],
      and is left alone until then. */
  lemma {:induction false} SilentConnectionIsReset(c: Client, es: seq<Event>, t0: real, last: real, period: real)
    returns (i: nat)
    requires ConnInv(c) && c.conn == Connected && c.lastMessage == t0
    requires Feasible(c, es) && Throughout(Quiet, c, es)
    requires TicksWithin(es, last, period) && last <= t0 + 10.0
    requires exists k :: 0 <= k < |es| && es[k].Tick? && es[k].now > t0 + 10.0
    ensures i < |es| && es[i].Tick? && t0 + 10.0 < es[i].now <= t0 + 10.0 + period
    ensures Feasible(c, es[..i]) && Feasible(c, es[..i + 1])
    ensures Run(c, es[..i]).conn == Connected && Run(c, es[..i]).lastMessage == t0
    ensures Run(c, es[..i + 1]).conn == Attempt
    decreases |es|
  {
    var c' := Step(c, es[0]);
    if es[0].Tick? && es[0].now > t0 + 10.0 {
      assert es[..0] == [] && es[..1] == [es[0]] && [es[0]][1..] == [];
      return 0;
    }
    QuietStep(c, es[0], t0);
    var last' := if es[0].Tick? then es[0].now else last;
    var k :| 0 <= k < |es| && es[k].Tick? && es[k].now > t0 + 10.0;
    assert es[1..][k - 1] == es[k];
    i := SilentConnectionIsReset(c', es[1..], t0, last', period);
    Unfold(c, es, i + 1);
    Unfold(c, es, i + 2);
    i := i + 1;
  }

  lemma QuietStep(c: Client, e: Event, t0: real)
    requires ConnInv(c) && c.conn == Connected && c.lastMessage == t0 && Enabled(c, e) && Quiet(c, e)
    requires e.Tick? ==> e.now <= t0 + 10.0
    ensures Step(c, e).conn == Connected && Step(c, e).lastMessage == t0 && ConnInv(Step(c, e))
  {
    ConnStep(c, e);
    if e.DataDone? {
      var d := c.DataDone(e.now, e.i, e.payload);
      assert |c.handled + [d.message]| == |c.handled| + 1;
    }
  }

  lemma {:induction false} Unfold(c: Client, es: seq<Event>, n: nat)
    requires 1 <= n <= |es| && Enabled(c, es[0]) && Feasible(Step(c, es[0]), es[1..][..n - 1])
    ensures Feasible(c, es[..n]) && Run(c, es[..n]) == Run(Step(c, es[0]), es[1..][..n - 1])
  {
    assert es[..n][1..] == es[1..][..n - 1];
  }

  /** Every way back from Lost to Connected leads through Attempt and a new connect. */
  lemma {:induction false} LostReconnects(c: Client, es: seq<Event>)
    returns (i: nat, j: nat)
    requires ConnInv(c) && c.conn == Lost
    requires Feasible(c, es) && Throughout(OwnIdsOnly, c, es) && Run(c, es).conn == Connected
    ensures i <= j < |es| && Feasible(c, es[..i]) && Run(c, es[..i]).conn == Attempt
    ensures es[j].ConnectDone? && es[j].ok
    decreases |es|
  {
    hide Step, Enabled, ConnInv;
    var c' := Step(c, es[0]);
    ConnStep(c, es[0]);
    LostStep(c, es[0]);
    if c'.conn == Attempt {
      i := 1;
      assert es[..1] == [es[0]] && [es[0]][1..] == [];
      j := AttemptConnects(c', es[1..]);
      j := j + 1;
    } else {
      i, j := LostReconnects(c', es[1..]);
      Unfold(c, es, i + 1);
      i, j := i + 1, j + 1;
    }
  }

  lemma LostStep(c: Client, e: Event)
    requires ConnInv(c) && c.conn == Lost && Enabled(c, e)
    ensures Step(c, e).conn == Lost || Step(c, e).conn == Attempt
    ensures Step(c, e).conn == Attempt ==> e.Tick? && e.now - c.lastMessage > 10.0
  {
  }

  lemma AttemptStep(c: Client, e: Event)
    requires c.conn == Attempt && Enabled(c, e)
    ensures Step(c, e).conn == if e.ConnectDone? && e.ok then Connected else Attempt
  {
  }

  lemma {:induction false} AttemptConnects(c: Client, es: seq<Event>)
    returns (j: nat)
    requires c.conn == Attempt && Feasible(c, es) && Run(c, es).conn == Connected
    ensures j < |es| && es[j].ConnectDone? && es[j].ok
    decreases |es|
  {
    hide Step, Enabled;
    AttemptStep(c, es[0]);
    if es[0].ConnectDone? && es[0].ok {
      return 0;
    }
    j := AttemptConnects(Step(c, es[0]), es[1..]);
    j := j + 1;
  }

  predicate RecentMessageAtTicks(c: Client, e: Event) {
    OwnIdsOnly(c, e) && (e.Tick? ==> e.now - c.lastMessage <= 10.0)
  }

  /** A gap of the status datagrams alone is enough to stay Lost for ever: as long as messages
      keep coming in, no tick ever resets the connection, and nothing else leads out of Lost. */
  lemma {:induction false} LostWhileMessagesArrive(c: Client, es: seq<Event>)
    requires ConnInv(c) && c.conn == Lost
    requires Feasible(c, es) && Throughout(RecentMessageAtTicks, c, es)
    ensures Run(c, es).conn == Lost
    decreases |es|
  {
    hide Step, Enabled, ConnInv;
    if es != [] {
      ConnStep(c, es[0]);
      LostStep(c, es[0]);
      LostWhileMessagesArrive(Step(c, es[0]), es[1..]);
    }
  }

  // ---------------------------------------------------------------- one reception loop

  predicate Complete(s: Snapshot) {
    s.Consistent() && HeaderValid(s.header) && |s.data| == HEADER_SIZE + s.header.payloadSize
  }

  /** A connect succeeds only when no read of an earlier connection is outstanding. */
  predicate ConnectFindsNoRead(c: Client, e: Event) {
    e.ConnectDone? && e.ok ==> c.pending == []
  }

  /** A whole valid header completes after the socket was dropped. */
  predicate HeaderWithoutSocket(c: Client, e: Event) {
    e.HeaderDone? && c.socket.None? && e.n == HEADER_SIZE && c.IsValid(e.h)
  }

  predicate Sound(c: Client, e: Event) {
    ConnectFindsNoRead(c, e) && !HeaderWithoutSocket(c, e)
  }

  /** At most one read is outstanding, exactly one on the present socket while there is a
      connection; a message of which the payload is awaited agrees with its header, as do
      all that were handed on. */
  predicate LoopInv(c: Client) {
    && ConnInv(c) && !c.undefined
    && |c.pending| <= 1
    && (c.connects != [] ==> c.socket.Some?)
    && (c.conn == Connected || c.conn == Lost ==> |c.pending| == 1 && Live(c, c.pending[0]))
    && (|c.pending| == 1 && c.pending[0].DataRead? ==>
          Complete(c.message) && c.message.header.payloadSize == c.pending[0].size)
    && (forall s :: s in c.handled ==> Complete(s))
  }

  lemma ConstructedLoopInv(now: real)
    ensures LoopInv(Constructed(now))
  {
    ConstructedConnInv(now);
  }

  lemma HeaderLoopStep(c: Client, e: Event)
    requires LoopInv(c) && Enabled(c, e) && Sound(c, e) && e.HeaderDone?
    ensures LoopInv(Step(c, e))
  {
    hide LoadHeader, StoreHeader;
    ConnStep(c, e);
    assert Without(c.pending, e.i) == [];
    var m := c.message.(header := e.h).UpdateFromHeader(e.stamp);
    assert m.data[..HEADER_SIZE] == StoreHeader(e.h);
    LoadStoreHeader(e.h, m.data);
  }

  lemma DataLoopStep(c: Client, e: Event)
    requires LoopInv(c) && Enabled(c, e) && e.DataDone?
    ensures LoopInv(Step(c, e))
  {
    hide LoadHeader;
    ConnStep(c, e);
    assert Without(c.pending, e.i) == [];
    var data := c.message.data[..HEADER_SIZE] + e.payload + c.message.data[HEADER_SIZE + |e.payload|..];
    SameHeader(c.message.data, data);
  }

  lemma SameHeader(a: seq<Byte>, b: seq<Byte>)
    requires |a| >= HEADER_SIZE && |b| >= HEADER_SIZE && a[..HEADER_SIZE] == b[..HEADER_SIZE]
    ensures LoadHeader(a) == LoadHeader(b)
  {
    assert forall i :: 0 <= i < HEADER_SIZE ==> a[i] == a[..HEADER_SIZE][i] == b[i];
  }

  lemma LoopStep(c: Client, e: Event)
    requires LoopInv(c) && Enabled(c, e) && OwnIdsOnly(c, e) && Sound(c, e)
    ensures LoopInv(Step(c, e))
  {
    hide LoopInv, Step, Enabled, OwnIdsOnly, Sound;
    match e
    case HeaderDone(_, _, _, _) => HeaderLoopStep(c, e);
    case DataDone(_, _, _) => DataLoopStep(c, e);
    case ConnectDone(_, _, _) => ConnectLoopStep(c, e);
    case Tick(_, _) => TickLoopStep(c, e);
    case Status(_, _, _, _) => StatusLoopStep(c, e);
    case _ => OtherLoopStep(c, e);
  }

  lemma ConnectLoopStep(c: Client, e: Event)
    requires LoopInv(c) && Enabled(c, e) && OwnIdsOnly(c, e) && Sound(c, e) && e.ConnectDone?
    ensures LoopInv(Step(c, e))
  {
    hide Complete, LoadHeader, StoreHeader;
    ConnStep(c, e);
  }

  lemma TickLoopStep(c: Client, e: Event)
    requires LoopInv(c) && Enabled(c, e) && OwnIdsOnly(c, e) && e.Tick?
    ensures LoopInv(Step(c, e))
  {
    hide Complete, FreshId;
    ConnStep(c, e);
  }

  lemma StatusLoopStep(c: Client, e: Event)
    requires LoopInv(c) && Enabled(c, e) && OwnIdsOnly(c, e) && e.Status?
    ensures LoopInv(Step(c, e))
  {
    hide Complete, FreshId;
    ConnStep(c, e);
  }

  lemma OtherLoopStep(c: Client, e: Event)
    requires LoopInv(c) && Enabled(c, e) && OwnIdsOnly(c, e) && (e.HeaderBytes? || e.UserAdd? || e.UserRemove?)
    ensures LoopInv(Step(c, e))
  {
    hide Complete, FreshId;
    ConnStep(c, e);
  }

  /** The two ways out of the invariant, each exactly: a second read comes from a connect that
      finds one outstanding, and undefined behaviour from a header that finds no socket. */
  lemma LoopBreaksIff(c: Client, e: Event)
    requires LoopInv(c) && Enabled(c, e) && OwnIdsOnly(c, e)
    ensures |Step(c, e).pending| > 1 <==> !ConnectFindsNoRead(c, e)
    ensures Step(c, e).undefined <==> HeaderWithoutSocket(c, e)
  {
    hide LoadHeader, StoreHeader;
    if Sound(c, e) {
      LoopStep(c, e);
    }
  }

  /** At most one read and no undefined behaviour in any state of the run. */
  predicate AlwaysSafe(c: Client, es: seq<Event>)
    requires Feasible(c, es)
    decreases |es|
  {
    |c.pending| <= 1 && !c.undefined && (es == [] || AlwaysSafe(Step(c, es[0]), es[1..]))
  }

  /** There is a single reception loop on a live socket throughout a run if and only if every
      connect succeeds without a read outstanding and no header completes without a socket.
      In such a run every message handed on is complete and agrees with its header. */
  lemma {:induction false} SafeIffSound(c: Client, es: seq<Event>)
    requires LoopInv(c) && Feasible(c, es) && Throughout(OwnIdsOnly, c, es)
    ensures AlwaysSafe(c, es) <==> Throughout(Sound, c, es)
    ensures AlwaysSafe(c, es) ==> LoopInv(Run(c, es))
    decreases |es|
  {
    hide Step, Enabled, LoopInv, Sound, ConnectFindsNoRead, HeaderWithoutSocket;
    SafeNow(c);
    if es != [] {
      var e, d := es[0], Step(c, es[0]);
      SoundIff(c, e);
      if Sound(c, e) {
        LoopStep(c, e);
        SafeIffSound(d, es[1..]);
      }
    }
  }

  lemma SafeNow(c: Client)
    requires LoopInv(c)
    ensures |c.pending| <= 1 && !c.undefined
  {
  }

  lemma SoundIff(c: Client, e: Event)
    requires LoopInv(c) && Enabled(c, e) && OwnIdsOnly(c, e)
    ensures Sound(c, e) <==> |Step(c, e).pending| <= 1 && !Step(c, e).undefined
  {
    hide Step, Enabled, LoopInv, ConnectFindsNoRead, HeaderWithoutSocket;
    LoopBreaksIff(c, e);
  }

  predicate AtMostOneRead(c: Client, es: seq<Event>)
    requires Feasible(c, es)
    decreases |es|
  {
    |c.pending| <= 1 && (es == [] || AtMostOneRead(Step(c, es[0]), es[1..]))
  }

  /** The number of reads grows exactly when a connect succeeds. */
  lemma ReadsGrowIff(c: Client, e: Event)
    requires ConnInv(c) && (c.connects != [] ==> c.socket.Some?) && Enabled(c, e) && OwnIdsOnly(c, e)
    ensures |Step(c, e).pending| <= |c.pending| + 1
    ensures |Step(c, e).pending| > |c.pending| <==> e.ConnectDone? && e.ok
    ensures Step(c, e).connects != [] ==> Step(c, e).socket.Some?
  {
    hide Client.HeaderDone, Client.DataDone, FreshId;
    match e
    case HeaderDone(i, n, h, stamp) =>
      HeaderKeepsConnection(c, i, n, h, stamp);
      HeaderReads(c, i, n, h, stamp);
    case DataDone(now, i, payload) =>
      DataKeepsConnection(c, now, i, payload);
      DataReads(c, now, i, payload);
    case _ =>
  }

  lemma HeaderReads(c: Client, i: nat, n: nat, h: Header, stamp: I64)
    requires i < |c.pending|
    ensures |c.HeaderDone(i, n, h, stamp).pending| <= |c.pending|
  {
    hide Snapshot.UpdateFromHeader, Client.IsValid;
  }

  lemma DataReads(c: Client, now: real, i: nat, payload: seq<Byte>)
    requires i < |c.pending|
    ensures |c.DataDone(now, i, payload).pending| <= |c.pending|
  {
  }

  /** Of the reads alone, whatever happens to headers without a socket: over every run from the
      constructor there is never a second read if and only if every connect that succeeds
      finds none outstanding. */
  lemma {:induction false} SingleLoopIff(now: real, es: seq<Event>)
    requires Feasible(Constructed(now), es) && Throughout(OwnIdsOnly, Constructed(now), es)
    ensures AtMostOneRead(Constructed(now), es) <==> Throughout(ConnectFindsNoRead, Constructed(now), es)
  {
    hide AtMostOneRead, Throughout, Feasible;
    ConstructedConnInv(now);
    OneReadIff(Constructed(now), es);
  }

  lemma {:induction false} OneReadIff(c: Client, es: seq<Event>)
    requires ConnInv(c) && |c.pending| <= 1 && (c.connects != [] ==> c.socket.Some?)
    requires Feasible(c, es) && Throughout(OwnIdsOnly, c, es)
    ensures AtMostOneRead(c, es) <==> Throughout(ConnectFindsNoRead, c, es)
    decreases |es|
  {
    hide Step, Enabled, ConnInv;
    if es != [] {
      var e, d := es[0], Step(c, es[0]);
      ConnStep(c, e);
      ReadsGrowIff(c, e);
      if |d.pending| <= 1 {
        OneReadIff(d, es[1..]);
      }
    }
  }

  /** What the original counts on, said of the environment alone: shutdown succeeds, so that a
      close always drops the socket, and a header read cut off by the close completes, short,
      before the next connection is attempted. */
  predicate Orderly(c: Client, e: Event) {
    && OwnIdsOnly(c, e)
    && (e.Tick? ==> !e.shutdownFails)
    && (e.Status? && e.intact && c.HookRegistered() ==> c.pending == [])
    && (e.HeaderDone? && c.socket.None? ==> e.n < HEADER_SIZE)
  }

  /** While the hook waits there is no socket, while a connect is in flight no read. */
  predicate OrderlyInv(c: Client) {
    LoopInv(c) && (c.conn == Attempt ==> if c.HookRegistered() then c.socket.None? else c.pending == [])
  }

  lemma OrderlyStep(c: Client, e: Event)
    requires OrderlyInv(c) && Enabled(c, e) && Orderly(c, e)
    ensures Sound(c, e) && OrderlyInv(Step(c, e))
  {
    hide LoadHeader, StoreHeader, Complete;
    LoopStep(c, e);
  }

  lemma {:induction false} OrderlyIsSound(c: Client, es: seq<Event>)
    requires OrderlyInv(c) && Feasible(c, es) && Throughout(Orderly, c, es)
    ensures Throughout(Sound, c, es) && Throughout(OwnIdsOnly, c, es)
    decreases |es|
  {
    hide OrderlyInv, Step, Enabled, Sound;
    if es != [] {
      OrderlyStep(c, es[0]);
      OrderlyIsSound(Step(c, es[0]), es[1..]);
    }
  }

  /** So every orderly run from the constructor is safe from end to end. */
  lemma {:induction false} SingleLoop(now: real, es: seq<Event>)
    requires Feasible(Constructed(now), es) && Throughout(Orderly, Constructed(now), es)
    ensures AlwaysSafe(Constructed(now), es) && LoopInv(Run(Constructed(now), es))
  {
    hide Feasible, Throughout, AlwaysSafe, Run, LoopInv;
    ConstructedOrderly(now);
    OrderlyIsSound(Constructed(now), es);
    SafeIffSound(Constructed(now), es);
  }

  lemma ConstructedOrderly(now: real)
    ensures OrderlyInv(Constructed(now)) && LoopInv(Constructed(now))
  {
    ConstructedLoopInv(now);
  }

  /** Between `update_from_header` and `handle_message` nothing touches the shared message. */
  lemma MessageStable(c: Client, e: Event)
    requires LoopInv(c) && Enabled(c, e) && OwnIdsOnly(c, e) && Sound(c, e)
    requires |c.pending| == 1 && c.pending[0].DataRead? && !e.DataDone?
    ensures Step(c, e).message == c.message && Step(c, e).pending == c.pending
  {
  }

  // ---------------------------------------------------------------- why order is needed

  lemma Prefix(c: Client, e: Event, rest: seq<Event>)
    returns (es: seq<Event>)
    requires Enabled(c, e) && Feasible(Step(c, e), rest)
    ensures es == [e] + rest && Feasible(c, es) && Run(c, es) == Run(Step(c, e), rest)
  {
    es := [e] + rest;
    assert es[1..] == rest;
  }

  lemma {:induction false} Append(c: Client, es: seq<Event>, rest: seq<Event>)
    requires Feasible(c, es) && Feasible(Run(c, es), rest)
    ensures Feasible(c, es + rest) && Run(c, es + rest) == Run(Run(c, es), rest)
    decreases |es|
  {
    hide Step, Enabled;
    if es == [] {
      assert es + rest == rest;
    } else {
      assert (es + rest)[1..] == es[1..] + rest;
      Append(Step(c, es[0]), es[1..], rest);
    }
  }

  /** A connected client between two messages. */
  predicate Waiting(c: Client) {
    LoopInv(c) && c.conn == Connected && c.pending[0].HeaderRead?
  }

  /** The messages of any such client stop, and it connects again: the old read is still there. */
  lemma Reconnect(c: Client, source: U16, shutdownFails: bool)
    returns (es: seq<Event>)
    requires Waiting(c)
    ensures Feasible(c, es)
    ensures forall i :: 0 <= i < |es| ==> !es[i].UserRemove? && (es[i].Tick? ==> es[i].shutdownFails == shutdownFails)
    ensures var d := Run(c, es);
            && d.conn == Connected && d.socket == Some(c.sockets) && d.sonarId == source && d.handled == c.handled
            && d.pending == c.pending + [HeaderRead(c.sockets)]
  {
    hide Complete, FreshId, LoadHeader, StoreHeader, Client.HeaderDone, Client.DataDone;
    var now := c.lastMessage + 11.0;
    var c1 := c.(lastStatus := now);
    assert Step(c, Status(now, true, source, 0)) == c1;
    var c2 := Step(c1, Tick(now, shutdownFails));
    ResetKeepsRead(c1, shutdownFails);
    var c3 := Step(c2, Status(now, true, source, 0));
    es := Prefix(c3, ConnectDone(now, 0, true), []);
    es := Prefix(c2, Status(now, true, source, 0), es);
    es := Prefix(c1, Tick(now, shutdownFails), es);
    es := Prefix(c, Status(now, true, source, 0), es);
  }

  /** Whether shutdown reports an error, so that the close returns early, or the close succeeds
      and the aborted read merely completes after the next status: the old read then finds the
      new socket and starts over on it, beside the loop of the new connection. */
  lemma SurvivingReadMakesTwo(c: Client, source: U16, shutdownFails: bool)
    returns (es: seq<Event>)
    requires Waiting(c)
    ensures Feasible(c, es) && Throughout(OwnIdsOnly, c, es)
    ensures forall i :: 0 <= i < |es| && es[i].Tick? ==> es[i].shutdownFails == shutdownFails
    ensures var d := Run(c, es);
            && d.conn == Connected && d.socket == Some(c.sockets) && d.sonarId == source && d.handled == c.handled
            && d.pending == [HeaderRead(c.sockets), HeaderRead(c.sockets)]
  {
    hide Run, Feasible, Throughout, LoopInv;
    var first := Reconnect(c, source, shutdownFails);
    var d := Run(c, first);
    assert |c.pending| == 1 by {
      OneReadWhileWaiting(c);
    }
    var second := AbortedReadStartsOver(d, c.sockets);
    Append(c, first, second);
    es := first + second;
    NobodyRemoves(c, es);
  }

  lemma OneReadWhileWaiting(c: Client)
    requires Waiting(c)
    ensures |c.pending| == 1
  {
  }

  lemma AbortedReadStartsOver(c: Client, socket: nat)
    returns (es: seq<Event>)
    requires |c.pending| == 2 && c.pending[0].HeaderRead? && c.pending[1] == HeaderRead(socket)
    requires c.socket == Some(socket)
    ensures es == [HeaderDone(0, 0, c.message.header, 0)] && Feasible(c, es)
    ensures Run(c, es) == c.(pending := [HeaderRead(socket), HeaderRead(socket)])
  {
    hide LoadHeader, StoreHeader;
    assert Without(c.pending, 0) == [HeaderRead(socket)];
    es := Prefix(c, HeaderDone(0, 0, c.message.header, 0), []);
  }

  lemma {:induction false} NobodyRemoves(c: Client, es: seq<Event>)
    requires Feasible(c, es) && forall i :: 0 <= i < |es| ==> !es[i].UserRemove?
    ensures Throughout(OwnIdsOnly, c, es)
    decreases |es|
  {
    hide Step, Enabled;
    if es != [] {
      NobodyRemoves(Step(c, es[0]), es[1..]);
    }
  }

  lemma ResetKeepsRead(c: Client, shutdownFails: bool)
    requires c.connects == []
    ensures var d := c.Reset(shutdownFails);
            && d.HookRegistered() && d.conn == Attempt && d.connects == []
            && d.sockets == c.sockets && d.pending == c.pending && d.message == c.message && d.handled == c.handled
  {
  }

  /** The consequence, in one run from any client that waits for a header. The two reads share
      the bytes of the new connection in the order in which they were started. The older one
      takes the header of a frame, and the read of its payload queues up behind the other
      header read, which takes the 16 bytes that follow, from inside the payload, and puts them
      where the header was; they are no valid header, so it starts over. The payload read gets
      the bytes behind. Whether that is handed on now depends on what size the misplaced bytes
      happen to announce; if it is, header and data do not belong together. */
  lemma TwoReadsMixBytes(c: Client, a: Header, chunk: seq<Byte>, rest: seq<Byte>, shutdownFails: bool)
    returns (first: seq<Event>, second: seq<Event>)
    requires Waiting(c) && HeaderValid(a)
    requires |chunk| == HEADER_SIZE && !HeaderValid(LoadHeader(chunk)) && |rest| == a.payloadSize
    ensures Feasible(c, first + second)
    ensures forall i :: 0 <= i < |first| && first[i].Tick? ==> first[i].shutdownFails == shutdownFails
    ensures second == [HeaderDone(0, HEADER_SIZE, a, 0), HeaderDone(0, HEADER_SIZE, LoadHeader(chunk), 0),
                       DataDone(0.0, 0, rest)]
    ensures Run(c, first + second).handled
         == c.handled + if LoadHeader(chunk).payloadSize != a.payloadSize then []
                        else [Snapshot(LoadHeader(chunk), StoreHeader(a) + rest, 0)]
    ensures !Snapshot(LoadHeader(chunk), StoreHeader(a) + rest, 0).Consistent()
  {
    hide LoadHeader, StoreHeader, Run, Feasible, Throughout, Waiting;
    first := SurvivingReadMakesTwo(c, a.srcDeviceId, shutdownFails);
    second := MixUp(Run(c, first), a, LoadHeader(chunk), rest);
    Append(c, first, second);
    MixedSnapshot(a, LoadHeader(chunk), rest);
  }

  lemma MixUp(c: Client, a: Header, b: Header, rest: seq<Byte>)
    returns (es: seq<Event>)
    requires c.socket.Some? && c.pending == [HeaderRead(c.socket.value), HeaderRead(c.socket.value)]
    requires c.IsValid(a) && !HeaderValid(b) && |rest| == a.payloadSize
    ensures es == [HeaderDone(0, HEADER_SIZE, a, 0), HeaderDone(0, HEADER_SIZE, b, 0), DataDone(0.0, 0, rest)]
    ensures Feasible(c, es)
    ensures Run(c, es).handled
         == c.handled + if b.payloadSize != a.payloadSize then [] else [Snapshot(b, StoreHeader(a) + rest, 0)]
  {
    hide Client.HeaderDone, Client.DataDone, StoreHeader;
    var c1 := c.HeaderDone(0, HEADER_SIZE, a, 0);
    FirstHeader(c, a);
    var c2 := c1.HeaderDone(0, HEADER_SIZE, b, 0);
    MisplacedHeader(c1, b, a.payloadSize);
    PayloadUnderHeader(c2, StoreHeader(a), rest);
    es := Prefix(c2, DataDone(0.0, 0, rest), []);
    es := Prefix(c1, HeaderDone(0, HEADER_SIZE, b, 0), es);
    es := Prefix(c, HeaderDone(0, HEADER_SIZE, a, 0), es);
  }

  lemma FirstHeader(c: Client, a: Header)
    requires c.socket.Some? && c.pending == [HeaderRead(c.socket.value), HeaderRead(c.socket.value)] && c.IsValid(a)
    ensures var d := c.HeaderDone(0, HEADER_SIZE, a, 0);
            && d.pending == [HeaderRead(c.socket.value), DataRead(c.socket.value, a.payloadSize)]
            && d.socket == c.socket && d.handled == c.handled && d.message.timestamp == 0
            && |d.message.data| == HEADER_SIZE + a.payloadSize && d.message.data[..HEADER_SIZE] == StoreHeader(a)
  {
    hide StoreHeader;
    assert Without(c.pending, 0) == [HeaderRead(c.socket.value)];
  }

  lemma MisplacedHeader(c: Client, b: Header, size: nat)
    requires c.socket.Some? && c.pending == [HeaderRead(c.socket.value), DataRead(c.socket.value, size)]
    requires !HeaderValid(b)
    ensures var d := c.HeaderDone(0, HEADER_SIZE, b, 0);
            && d.pending == [DataRead(c.socket.value, size), HeaderRead(c.socket.value)]
            && d.message == c.message.(header := b) && d.handled == c.handled
  {
    assert Without(c.pending, 0) == [DataRead(c.socket.value, size)];
  }

  lemma PayloadUnderHeader(c: Client, front: seq<Byte>, rest: seq<Byte>)
    requires |c.pending| > 0 && |c.message.data| == HEADER_SIZE + |rest| && c.message.data[..HEADER_SIZE] == front
    ensures c.DataDone(0.0, 0, rest).handled
         == c.handled + if c.message.header.payloadSize != |rest| then [] else [c.message.(data := front + rest)]
  {
    hide Without;
    var data := c.message.data[..HEADER_SIZE] + rest + c.message.data[HEADER_SIZE + |rest|..];
    assert data == front + rest;
  }

  lemma MixedSnapshot(a: Header, b: Header, rest: seq<Byte>)
    requires HeaderValid(a) && !HeaderValid(b)
    ensures !Snapshot(b, StoreHeader(a) + rest, 0).Consistent()
  {
    hide StoreHeader, LoadHeader;
    var data := StoreHeader(a) + rest;
    assert data[..HEADER_SIZE] == StoreHeader(a);
    LoadStoreHeader(a, data);
  }

  /** A close that succeeds is not harmless either. If a whole header has come in, but its
      completion is still queued when the tick drops the socket, the header handler goes
      through the null socket. */
  lemma QueuedHeaderFindsNoSocket(c: Client, h: Header)
    returns (es: seq<Event>)
    requires Waiting(c) && c.IsValid(h)
    ensures Feasible(c, es) && Throughout(OwnIdsOnly, c, es)
    ensures forall i :: 0 <= i < |es| && es[i].Tick? ==> !es[i].shutdownFails
    ensures Run(c, es).undefined
  {
    hide Complete, FreshId, StoreHeader, LoadHeader;
    var now := c.lastMessage + 11.0;
    var c1 := Step(c, HeaderBytes(h));
    var c2 := Step(c1, Status(now, true, c.sonarId, 0));
    assert c2 == c1.(lastStatus := now);
    var c3 := Step(c2, Tick(now, false));
    ResetKeepsRead(c2, false);
    assert c3.socket.None? && c3.sonarId == c.sonarId;
    es := Prefix(c3, HeaderDone(0, HEADER_SIZE, h, 0), []);
    es := Prefix(c2, Tick(now, false), es);
    es := Prefix(c1, Status(now, true, c.sonarId, 0), es);
    es := Prefix(c, HeaderBytes(h), es);
    NobodyRemoves(c, es);
  }
}
