/** The watchdog in the times of the events: what its two clocks hold after any run, and when a
    connection stays up, stays lost or is reset, without reference to the clocks. */
module ClockTheorems {
  import opened Basics
  import opened Bytes
  import opened OculusMessage
  import opened SonarClients
  import opened ConnectionTheorems

  /** The event completes a message, which is handed on. */
  predicate Arrives(c: Client, e: Event)
    requires Enabled(c, e)
  {
    e.DataDone? && |Step(c, e).handled| > |c.handled|
  }

  /** ... exactly if the payload read got all that the header announced, within the buffer. */
  lemma ArrivesIffWhole(c: Client, e: Event)
    requires Enabled(c, e) && e.DataDone?
    ensures Arrives(c, e)
       <==> |e.payload| == c.message.header.payloadSize && HEADER_SIZE + |e.payload| <= |c.message.data|
    ensures |Step(c, e).handled| <= |c.handled| + 1
  {
  }

  /** The time of the last intact status, or `t` if there was none. */
  function StatusTime(es: seq<Event>, t: real): real
    decreases |es|
  {
    if es == [] then t else StatusTime(es[1..], if es[0].Status? && es[0].intact then es[0].now else t)
  }

  /** The event from which the age of messages counts: a message, or a new connection. */
  predicate Refreshes(c: Client, e: Event)
    requires Enabled(c, e)
  {
    (e.ConnectDone? && e.ok) || Arrives(c, e)
  }

  /** The time of the last message or connection, or `t` if there was none. */
  function MessageTime(c: Client, es: seq<Event>, t: real): real
    requires Feasible(c, es)
    decreases |es|
  {
    if es == [] then t
    else MessageTime(Step(c, es[0]), es[1..], if Refreshes(c, es[0]) then es[0].now else t)
  }

  lemma HeaderKeepsClocks(c: Client, i: nat, n: nat, h: Header, stamp: I64)
    requires i < |c.pending|
    ensures var d := c.HeaderDone(i, n, h, stamp);
            d.lastMessage == c.lastMessage && d.lastStatus == c.lastStatus
  {
    hide StoreHeader, Snapshot.UpdateFromHeader;
  }

  lemma ClockStep(c: Client, e: Event)
    requires Enabled(c, e)
    ensures Step(c, e).lastStatus == if e.Status? && e.intact then e.now else c.lastStatus
    ensures Step(c, e).lastMessage == if Refreshes(c, e) then e.now else c.lastMessage
  {
    hide Client.HeaderDone;
    if e.HeaderDone? {
      HeaderKeepsClocks(c, e.i, e.n, e.h, e.stamp);
    }
  }

  lemma {:induction false} ClocksAfterRun(c: Client, es: seq<Event>)
    requires Feasible(c, es)
    ensures Run(c, es).lastStatus == StatusTime(es, c.lastStatus)
    ensures Run(c, es).lastMessage == MessageTime(c, es, c.lastMessage)
    decreases |es|
  {
    hide Step, Enabled, Refreshes;
    if es != [] {
      ClockStep(c, es[0]);
      ClocksAfterRun(Step(c, es[0]), es[1..]);
    }
  }

  /** Over every run from the constructor: the two clocks are the times of the last intact
      status, and of the last message or connection. */
  lemma {:induction false} ClocksAreEventTimes(start: real, es: seq<Event>)
    requires Feasible(Constructed(start), es)
    ensures Run(Constructed(start), es).lastStatus == StatusTime(es, start)
    ensures Run(Constructed(start), es).lastMessage == MessageTime(Constructed(start), es, start)
  {
    ClocksAfterRun(Constructed(start), es);
    assert Constructed(start).lastStatus == start && Constructed(start).lastMessage == start;
  }

  // ---------------------------------------------------------------- staying connected, staying lost

  /** Every tick comes within 5 s of a status and within 10 s of a message or the connection;
      `ts` and `tm` are the times of the last ones before. */
  predicate TicksInTime(c: Client, es: seq<Event>, ts: real, tm: real)
    requires Feasible(c, es)
    decreases |es|
  {
    es == [] ||
    (var e := es[0];
     && (e.Tick? ==> e.now - ts <= 5.0 && e.now - tm <= 10.0)
     && TicksInTime(Step(c, e), es[1..], if e.Status? && e.intact then e.now else ts,
                    if Refreshes(c, e) then e.now else tm))
  }

  /** No tick comes within 5 s of a status but more than 10 s behind the last message. */
  predicate NoTickResets(c: Client, es: seq<Event>, ts: real, tm: real)
    requires Feasible(c, es)
    decreases |es|
  {
    es == [] ||
    (var e := es[0];
     && (e.Tick? ==> e.now - ts > 5.0 || e.now - tm <= 10.0)
     && NoTickResets(Step(c, e), es[1..], if e.Status? && e.intact then e.now else ts,
                     if Refreshes(c, e) then e.now else tm))
  }

  lemma {:induction false} HealthyIffInTime(c: Client, es: seq<Event>)
    requires Feasible(c, es)
    ensures Throughout(Healthy, c, es) <==> TicksInTime(c, es, c.lastStatus, c.lastMessage)
    decreases |es|
  {
    hide Step, Enabled, Refreshes;
    if es != [] {
      ClockStep(c, es[0]);
      HealthyIffInTime(Step(c, es[0]), es[1..]);
    }
  }

  predicate AlwaysLost(c: Client, es: seq<Event>)
    requires Feasible(c, es)
    decreases |es|
  {
    c.conn == Lost && (es == [] || AlwaysLost(Step(c, es[0]), es[1..]))
  }

  lemma {:induction false} LostIffNoReset(c: Client, es: seq<Event>)
    requires ConnInv(c) && c.conn == Lost && Feasible(c, es) && Throughout(OwnIdsOnly, c, es)
    ensures AlwaysLost(c, es) <==> NoTickResets(c, es, c.lastStatus, c.lastMessage)
    decreases |es|
  {
    hide Step, Enabled, Refreshes, ConnInv;
    if es != [] {
      var d := Step(c, es[0]);
      ConnStep(c, es[0]);
      ClockStep(c, es[0]);
      ResetIffStale(c, es[0]);
      NotInitializing(d);
      if d.conn == Lost {
        LostIffNoReset(d, es[1..]);
      }
    }
  }

  /** A client that reaches Connected after the events `before` stays there exactly as long as
      every tick finds the last status and the last message, or the connection, recent. */
  lemma {:induction false} StaysConnectedIffInTime(start: real, before: seq<Event>, es: seq<Event>)
    requires Feasible(Constructed(start), before) && Throughout(OwnIdsOnly, Constructed(start), before)
    requires var c := Run(Constructed(start), before);
             c.conn == Connected && Feasible(c, es) && Throughout(OwnIdsOnly, c, es)
    ensures var c := Run(Constructed(start), before);
            AlwaysConnected(c, es)
            <==> TicksInTime(c, es, StatusTime(before, start), MessageTime(Constructed(start), before, start))
  {
    hide Run, Feasible, Throughout, AlwaysConnected, TicksInTime, StatusTime, MessageTime;
    var c := Run(Constructed(start), before);
    ConstructedConnInv(start);
    ConnRun(Constructed(start), before);
    ClocksAreEventTimes(start, before);
    StaysConnectedIffHealthy(c, es);
    HealthyIffInTime(c, es);
  }

  /** ... and one that reaches Lost stays there exactly until a tick finds a recent status and
      no recent message. */
  lemma {:induction false} StaysLostIffNoTickResets(start: real, before: seq<Event>, es: seq<Event>)
    requires Feasible(Constructed(start), before) && Throughout(OwnIdsOnly, Constructed(start), before)
    requires var c := Run(Constructed(start), before);
             c.conn == Lost && Feasible(c, es) && Throughout(OwnIdsOnly, c, es)
    ensures var c := Run(Constructed(start), before);
            AlwaysLost(c, es)
            <==> NoTickResets(c, es, StatusTime(before, start), MessageTime(Constructed(start), before, start))
  {
    hide Run, Feasible, Throughout, AlwaysLost, NoTickResets, StatusTime, MessageTime;
    ConstructedConnInv(start);
    ConnRun(Constructed(start), before);
    ClocksAreEventTimes(start, before);
    LostIffNoReset(Run(Constructed(start), before), es);
  }

  // ---------------------------------------------------------------- silence

  /** Every tick comes within 5 s of a status. */
  predicate StatusInTime(es: seq<Event>, ts: real)
    decreases |es|
  {
    es == [] ||
    ((es[0].Tick? ==> es[0].now - ts <= 5.0)
     && StatusInTime(es[1..], if es[0].Status? && es[0].intact then es[0].now else ts))
  }

  predicate NothingArrives(c: Client, e: Event) {
    Enabled(c, e) ==> !Arrives(c, e)
  }

  lemma {:induction false} SilenceIsQuiet(c: Client, es: seq<Event>)
    requires Feasible(c, es) && Throughout(OwnIdsOnly, c, es) && Throughout(NothingArrives, c, es)
    requires StatusInTime(es, c.lastStatus)
    ensures Throughout(Quiet, c, es)
    decreases |es|
  {
    hide Step, Enabled, Quiet, Arrives;
    if es != [] {
      ClockStep(c, es[0]);
      QuietEvent(c, es[0]);
      SilenceIsQuiet(Step(c, es[0]), es[1..]);
    }
  }

  lemma QuietEvent(c: Client, e: Event)
    requires Enabled(c, e) && OwnIdsOnly(c, e) && !Arrives(c, e) && (e.Tick? ==> e.now - c.lastStatus <= 5.0)
    ensures Quiet(c, e)
  {
    if e.DataDone? {
      ArrivesIffWhole(c, e);
    }
  }

  /** A client that is connected after the events `before`, and whose last message or connection
      was at `t0`: if nothing arrives any more, while ticks come at most `period` apart and a
      status within 5 s of each, it is reset at some tick in (t0 + 10, t0 + 10 + period]. */
  lemma {:induction false} SilenceResets(start: real, before: seq<Event>, es: seq<Event>, t0: real, last: real,
                                         period: real)
    returns (i: nat)
    requires Feasible(Constructed(start), before) && Throughout(OwnIdsOnly, Constructed(start), before)
    requires t0 == MessageTime(Constructed(start), before, start)
    requires var c := Run(Constructed(start), before);
             && c.conn == Connected && Feasible(c, es)
             && Throughout(OwnIdsOnly, c, es) && Throughout(NothingArrives, c, es)
    requires StatusInTime(es, StatusTime(before, start))
    requires TicksWithin(es, last, period) && last <= t0 + 10.0
    requires exists k :: 0 <= k < |es| && es[k].Tick? && es[k].now > t0 + 10.0
    ensures i < |es| && es[i].Tick? && t0 + 10.0 < es[i].now <= t0 + 10.0 + period
    ensures var c := Run(Constructed(start), before);
            && Feasible(c, es[..i]) && Feasible(c, es[..i + 1])
            && Run(c, es[..i]).conn == Connected && Run(c, es[..i + 1]).conn == Attempt
  {
    hide Run, Feasible, Throughout, StatusInTime, StatusTime, MessageTime, TicksWithin;
    var c := Run(Constructed(start), before);
    ConstructedConnInv(start);
    ConnRun(Constructed(start), before);
    ClocksAreEventTimes(start, before);
    SilenceIsQuiet(c, es);
    i := SilentConnectionIsReset(c, es, t0, last, period);
  }
}
