/** What the driver's configuration holds after any calls and messages, what goes over the wire,
    and what a request comes back with, in the fields of what was sent and received. */
module DriverTheorems {
  import opened Basics
  import opened Bytes
  import opened OculusMessage
  import opened SonarDrivers

  // ---------------------------------------------------------------- the tracked configuration

  /** The two ask for the same, apart from the rate. */
  predicate SameSettings(a: Config, b: Config) {
    && a.masterMode == b.masterMode && a.gammaCorrection == b.gammaCorrection && a.flags == b.flags
    && a.range == b.range && a.gainPercent == b.gainPercent
    && a.speedOfSound == b.speedOfSound && a.salinity == b.salinity
  }

  /** `c` is what the ping `echo` tells about, its gain mapped back from 40..100 in
      high-frequency mode. */
  predicate Reports(c: Config, echo: Config) {
    && c.masterMode == echo.masterMode && c.gammaCorrection == echo.gammaCorrection && c.flags == echo.flags
    && c.range == echo.range
    && echo.gainPercent == (if c.masterMode == 2 then 40.0 + 0.6 * c.gainPercent else c.gainPercent)
    && c.speedOfSound == echo.speedOfSound && c.salinity == echo.salinity
  }

  function LastPing(ms: seq<Incoming>): Option<Config>
    decreases |ms|
  {
    if ms == [] then None
    else if ms[|ms| - 1].Ping? then Some(ms[|ms| - 1].fire)
    else LastPing(ms[..|ms| - 1])
  }

  /** The settings of the last ping among `ms`, or of `start` if there is none. */
  predicate Settings(c: Config, start: Config, ms: seq<Incoming>) {
    match LastPing(ms)
    case None => SameSettings(c, start)
    case Some(echo) => Reports(c, echo)
  }

  /** ... with header and network speed as well: everything but the rate. */
  predicate Tracks(c: Config, start: Config, ms: seq<Incoming>) {
    && Settings(c, start, ms)
    && var source := if LastPing(ms).Some? then LastPing(ms).value else start;
       c.head == source.head && c.networkSpeed == source.networkSpeed
  }

  lemma TracksMessage(d: Driver, start: Config, ms: seq<Incoming>, m: Incoming)
    requires Tracks(d.lastConfig, start, ms)
    ensures Tracks(d.AfterMessage(m).lastConfig, start, ms + [m])
  {
    assert (ms + [m])[..|ms|] == ms;
    if m.Ping? {
      var g := m.fire.gainPercent;
      assert 40.0 + 0.6 * ((g - 40.0) * 100.0 / 60.0) == g;
    }
  }

  lemma {:induction false} TracksMessages(d: Driver, start: Config, before: seq<Incoming>, ms: seq<Incoming>)
    requires Tracks(d.lastConfig, start, before)
    ensures Tracks(AfterMessages(d, ms).lastConfig, start, before + ms)
    decreases |ms|
  {
    hide Tracks;
    if ms == [] {
      assert before + [] == before;
    } else {
      TracksMessage(d, start, before, ms[0]);
      TracksMessages(d.AfterMessage(ms[0]), start, before + [ms[0]], ms[1..]);
      assert before + [ms[0]] + ms[1..] == before + ms;
    }
  }

  /** Sends touch nothing but the rate. */
  lemma TracksSend(d: Driver, start: Config, ms: seq<Incoming>, config: Config, whole: bool)
    requires Tracks(d.lastConfig, start, ms)
    ensures Tracks(d.AfterSend(config, whole).lastConfig, start, ms)
  {
  }

  function MessagesOf(ops: seq<Op>): seq<Incoming> {
    if ops == [] then [] else MessageIn(ops[0]) + MessagesOf(ops[1..])
  }

  function MessageIn(op: Op): seq<Incoming> {
    if op.Message? then [op.m] else []
  }

  lemma TracksOp(d: Driver, start: Config, before: seq<Incoming>, op: Op)
    requires Tracks(d.lastConfig, start, before)
    ensures Tracks(Apply(d, op).lastConfig, start, before + MessageIn(op))
  {
    hide Tracks, Driver.AfterMessage, Driver.AfterSend, Request;
    if op.Message? {
      TracksMessage(d, start, before, op.m);
    } else {
      TracksSend(d, start, before, Request(d, op), op.whole);
      assert before + [] == before;
    }
  }

  lemma {:induction false} TracksRun(d: Driver, start: Config, before: seq<Incoming>, ops: seq<Op>)
    requires Tracks(d.lastConfig, start, before)
    ensures Tracks(ApplyAll(d, ops).lastConfig, start, before + MessagesOf(ops))
    decreases |ops|
  {
    hide Tracks, Apply, MessageIn;
    if ops == [] {
      assert before + [] == before;
    } else {
      TracksOp(d, start, before, ops[0]);
      TracksRun(Apply(d, ops[0]), start, before + MessageIn(ops[0]), ops[1..]);
      assert before + MessageIn(ops[0]) + MessagesOf(ops[1..]) == before + (MessageIn(ops[0]) + MessagesOf(ops[1..]));
    }
  }

  /** Over every sequence of sends, standbys, resumes, connects, dummies and other messages, all
      of the last configuration but the rate is that of the last ping, or the one at the start. */
  lemma {:induction false} ConfigIsLastReported(d: Driver, ops: seq<Op>)
    ensures Tracks(ApplyAll(d, ops).lastConfig, d.lastConfig, MessagesOf(ops))
  {
    TracksRun(d, d.lastConfig, [], ops);
    assert [] + MessagesOf(ops) == MessagesOf(ops);
  }

  /** What happens to the rate, in order: whole sends set theirs, dummies set standby. */
  function RateEvents(d: Driver, ops: seq<Op>): seq<U8>
    decreases |ops|
  {
    if ops == [] then []
    else
      (match ops[0]
       case Message(m) => if m.Dummy? then [RATE_STANDBY] else []
       case _ => if ops[0].whole then [RequestedRate(d, ops[0])] else [])
      + RateEvents(Apply(d, ops[0]), ops[1..])
  }

  lemma {:induction false} RateIsLastEvent(d: Driver, ops: seq<Op>)
    ensures var rates := RateEvents(d, ops);
            ApplyAll(d, ops).lastConfig.pingRate
            == if rates == [] then d.lastConfig.pingRate else rates[|rates| - 1]
    decreases |ops|
  {
    if ops != [] {
      RateIsLastEvent(Apply(d, ops[0]), ops[1..]);
    }
  }

  // ---------------------------------------------------------------- on the wire

  /** What the driver sends when it was asked for nothing in particular: after any operations
      since the start a resume puts the last reported settings on the wire with the last active
      rate, a standby the same settings with the standby rate, and a new connection the same
      settings with the tracked rate, all addressed to the sonar. */
  lemma {:induction false} OwnRequestsOnTheWire(ops: seq<Op>, op: Op, sonarId: U16)
    requires op.Standby? || op.Resume? || op.Connect?
    ensures var d := ApplyAll(InitialDriver(), ops);
            var w := Wire(Request(d, op), sonarId);
            && Settings(w, InitialDriver().lastConfig, MessagesOf(ops))
            && w.pingRate == (if op.Standby? then RATE_STANDBY
                              else if op.Resume? then LastActive(RATE_NORMAL, RatesSent(InitialDriver(), ops))
                              else d.lastConfig.pingRate)
            && w.head.oculusId == OCULUS_CHECK_ID && w.head.msgId == MSG_SIMPLE_FIRE && w.head.srcDeviceId == 0
            && w.head.dstDeviceId == sonarId && w.head.payloadSize == 37 && w.networkSpeed == 0xff
  {
    ConfigIsLastReported(InitialDriver(), ops);
    LastPingRateIsLastActive(InitialDriver(), ops);
  }

  /** A sonar that reports back what came over the wire, its gain mapped, is believed at once:
      the answer has the settings that were asked for, with the gains switched on. */
  lemma {:induction false} EchoOfTheWireIsAccepted(d: Driver, request: Config, sonarId: U16, missed: seq<Incoming>,
                                                   header: Header, echo: Config, rest: seq<Round>)
    requires request.pingRate != RATE_STANDBY && header.msgId == MSG_SIMPLE_PING_RESULT
    requires Reports(Wire(Asked(request), sonarId), echo)
    ensures var answer := Negotiate(d, Asked(request), [Answered(missed, Ping(header, echo))] + rest, 0).1;
            && answer.Settled? && SameSettings(answer.config, Asked(request))
            && answer.config.head == header && answer.config.networkSpeed == echo.networkSpeed
    ensures SameSettings(Asked(request).(flags := request.flags), request) && Asked(request).flags / 4 % 2 == 1
  {
    var g := request.gainPercent;
    assert (40.0 + 0.6 * g - 40.0) * 100.0 / 60.0 == g;
  }

  // ---------------------------------------------------------------- the answer to a request

  /** All messages handled during the rounds. */
  function Heard(rounds: seq<Round>): seq<Incoming> {
    if rounds == [] then []
    else rounds[0].missed + (if rounds[0].Answered? then [rounds[0].message] else []) + Heard(rounds[1..])
  }

  lemma RoundTracks(d: Driver, start: Config, before: seq<Incoming>, asked: Config, r: Round)
    requires Tracks(d.lastConfig, start, before)
    ensures var heard := r.missed + if r.Answered? then [r.message] else [];
            Tracks(AfterRound(d, asked, r).lastConfig, start, before + heard)
  {
    hide Tracks;
    TracksSend(d, start, before, asked, !r.SendFailed?);
    var e := d.AfterSend(asked, !r.SendFailed?);
    TracksMessages(e, start, before, r.missed);
    if r.Answered? {
      TracksMessage(AfterMessages(e, r.missed), start, before + r.missed, r.message);
      assert before + r.missed + [r.message] == before + (r.missed + [r.message]);
    } else {
      assert r.missed + [] == r.missed;
    }
  }

  predicate HasDummy(ms: seq<Incoming>) {
    exists i :: 0 <= i < |ms| && ms[i].Dummy?
  }

  lemma {:induction false} RateAfterMessages(d: Driver, ms: seq<Incoming>)
    ensures AfterMessages(d, ms).lastConfig.pingRate == if HasDummy(ms) then RATE_STANDBY else d.lastConfig.pingRate
    decreases |ms|
  {
    if ms != [] {
      RateAfterMessages(d.AfterMessage(ms[0]), ms[1..]);
      if i :| 0 <= i < |ms| && ms[i].Dummy? {
        assert i > 0 ==> ms[1..][i - 1].Dummy?;
      }
      if i :| 0 <= i < |ms[1..]| && ms[1..][i].Dummy? {
        assert ms[i + 1].Dummy?;
      }
    }
  }

  /** What an answered round comes back with. */
  lemma FeedbackIs(d: Driver, start: Config, before: seq<Incoming>, asked: Config, r: Round)
    requires Tracks(d.lastConfig, start, before) && r.Answered?
    ensures var c := FeedbackOf(d, asked, r);
            && c.head == r.message.header
            && Settings(c, start, before + (r.missed + [r.message]))
            && (r.message.Ping? ==> Reports(c, r.message.fire) && c.networkSpeed == r.message.fire.networkSpeed)
            && c.pingRate == if r.message.Dummy? || HasDummy(r.missed) then RATE_STANDBY else asked.pingRate
  {
    RoundTracks(d, start, before, asked, r);
    RateAfterMessages(d.AfterSend(asked, true), r.missed);
    var ms := before + (r.missed + [r.message]);
    assert ms[|ms| - 1] == r.message;
  }

  /** The `used`-th round settles the request, after the first `used` rounds. If it is not the
      mark after a hundred counted rounds, the result is what the sonar reports in the first
      round that is accepted: under the header caught, the settings of the ping, with its gain
      mapped back, or for standby those of the last ping before, and the rate asked for, unless
      a dummy says standby. */
  lemma {:induction false} ResultIsReport(d: Driver, start: Config, before: seq<Incoming>, asked: Config,
                                          rounds: seq<Round>, count: nat)
    returns (used: nat)
    requires count < MAX_ROUNDS && Negotiate(d, asked, rounds, count).1.Settled?
    requires Tracks(d.lastConfig, start, before)
    ensures 0 < used <= |rounds| && Negotiate(d, asked, rounds, count).0 == AfterRounds(d, asked, rounds[..used])
    ensures forall i :: 0 <= i < used - 1 ==> !AcceptedAt(d, asked, rounds, i)
    ensures var result, r := Negotiate(d, asked, rounds, count).1.config, rounds[used - 1];
            if AcceptedAt(d, asked, rounds, used - 1) then
              && r.Answered? && result.head == r.message.header
              && Settings(result, start, before + Heard(rounds[..used]))
              && (r.message.Ping? ==>
                    Reports(result, r.message.fire) && result.networkSpeed == r.message.fire.networkSpeed)
              && result.pingRate == if r.message.Dummy? || HasDummy(r.missed) then RATE_STANDBY else asked.pingRate
            else
              && result == asked.(head := asked.head.(msgId := 0))
              && count + Counted(rounds[..used]) == MAX_ROUNDS
    decreases |rounds|
  {
    hide AfterRound, CheckConfigFeedback, Tracks, Settings, Reports, FeedbackOf;
    var r := rounds[0];
    var e := AfterRound(d, asked, r);
    var heard := r.missed + if r.Answered? then [r.message] else [];
    assert rounds[..0] == [] && rounds[..1] == [r] && [r][1..] == [];
    assert Heard([r]) == heard + [] == heard;
    RoundTracks(d, start, before, asked, r);
    if !r.TimedOut? && (Accepted(d, asked, r) || count + 1 >= MAX_ROUNDS) {
      used := 1;
      if r.Answered? {
        FeedbackIs(d, start, before, asked, r);
      }
    } else {
      var next := if r.TimedOut? then count else count + 1;
      used := ResultIsReport(e, start, before + heard, asked, rounds[1..], next);
      OneMoreRound(rounds, used);
      assert before + heard + Heard(rounds[1..][..used]) == before + (heard + Heard(rounds[1..][..used]));
      forall i | 0 <= i < used ensures AcceptedAt(e, asked, rounds[1..], i) == AcceptedAt(d, asked, rounds, i + 1) {
        AcceptedShift(d, asked, rounds, i);
      }
      forall i | 0 <= i < used ensures !AcceptedAt(d, asked, rounds, i) {
        if i > 0 {
          assert !AcceptedAt(e, asked, rounds[1..], i - 1);
        }
      }
      used := used + 1;
    }
  }

  lemma {:induction false} OneMoreRound(rounds: seq<Round>, n: nat)
    requires rounds != [] && n <= |rounds[1..]|
    ensures rounds[..n + 1][1..] == rounds[1..][..n] && rounds[..n + 1][0] == rounds[0]
    ensures Heard(rounds[..n + 1])
         == rounds[0].missed + (if rounds[0].Answered? then [rounds[0].message] else []) + Heard(rounds[1..][..n])
    ensures Counted(rounds[..n + 1]) == (if rounds[0].TimedOut? then 0 else 1) + Counted(rounds[1..][..n])
  {
    assert rounds[..n + 1][1..] == rounds[1..][..n];
  }

  /** The whole call, from the driver's own configuration on. */
  lemma {:induction false} AnswerIsReport(d: Driver, request: Config, rounds: seq<Round>)
    returns (used: nat)
    requires Negotiate(d, Asked(request), rounds, 0).1.Settled?
    ensures 0 < used <= |rounds|
    ensures Negotiate(d, Asked(request), rounds, 0).0 == AfterRounds(d, Asked(request), rounds[..used])
    ensures var result, r := Negotiate(d, Asked(request), rounds, 0).1.config, rounds[used - 1];
            if AcceptedAt(d, Asked(request), rounds, used - 1) then
              && r.Answered? && result.head == r.message.header
              && Settings(result, d.lastConfig, Heard(rounds[..used]))
              && (r.message.Ping? ==>
                    Reports(result, r.message.fire) && result.networkSpeed == r.message.fire.networkSpeed)
              && result.pingRate == if r.message.Dummy? || HasDummy(r.missed) then RATE_STANDBY else request.pingRate
            else
              && SameSettings(result.(flags := request.flags), request) && result.flags / 4 % 2 == 1
              && result.head.msgId == 0 && Counted(rounds[..used]) == MAX_ROUNDS
  {
    hide Negotiate, AcceptedAt;
    used := ResultIsReport(d, d.lastConfig, [], Asked(request), rounds, 0);
    assert [] + Heard(rounds[..used]) == Heard(rounds[..used]);
  }

  /** While the loop is going on the driver has been through all rounds. */
  lemma {:induction false} StillAskingState(d: Driver, asked: Config, rounds: seq<Round>, count: nat)
    requires Negotiate(d, asked, rounds, count).1 == StillAsking
    ensures Negotiate(d, asked, rounds, count).0 == AfterRounds(d, asked, rounds)
    decreases |rounds|
  {
    hide AfterRound, Accepted, FeedbackOf;
    if rounds != [] {
      StillAskingState(AfterRound(d, asked, rounds[0]), asked, rounds[1..],
                       if rounds[0].TimedOut? then count else count + 1);
    }
  }

  // ---------------------------------------------------------------- announcements

  /** Exactly which messages are announced to the configuration callbacks: a ping that differs
      in a discrete field, or in a number by more than its tolerance, which for the gain in
      high-frequency mode is 0.06 as reported; the first dummy behind another rate; nothing else. */
  lemma AnnouncedIff(d: Driver, m: Incoming)
    ensures var c := d.lastConfig;
            d.Announces(m) <==>
              match m
              case Ping(_, echo) =>
                || echo.masterMode != c.masterMode || echo.networkSpeed != c.networkSpeed
                || echo.gammaCorrection != c.gammaCorrection || echo.flags != c.flags
                || Abs(echo.range - c.range) > 0.001
                || (echo.masterMode == 2 && Abs(echo.gainPercent - (40.0 + 0.6 * c.gainPercent)) > 0.06)
                || (echo.masterMode != 2 && Abs(echo.gainPercent - c.gainPercent) > 0.1)
                || Abs(echo.speedOfSound - c.speedOfSound) > 0.1 || Abs(echo.salinity - c.salinity) > 0.1
              case Dummy(_) => c.pingRate != RATE_STANDBY
              case Other(_) => false
  {
    if m.Ping? {
      var g, h := d.lastConfig.gainPercent, m.fire.gainPercent;
      assert g - (h - 40.0) * 100.0 / 60.0 == (40.0 + 0.6 * g - h) * 100.0 / 60.0;
    }
  }
}
