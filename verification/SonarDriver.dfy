/** The configuration tracker on top of the client: sending configurations, standby and
    resume, feedback from ping and dummy messages. Floating-point numbers are reals. */
module SonarDrivers {
  import opened Basics
  import opened Bytes
  import opened OculusMessage
  import opened LogFormat

  const RATE_NORMAL: U8 := 0x00
  const RATE_STANDBY: U8 := 0x05
  const CONFIG_SIZE: nat := 53      // sizeof(OculusSimpleFireMessage), packed
  const MAX_ROUNDS: nat := 100

  /** OculusSimpleFireMessage. */
  datatype Config = Config(
    head: Header, masterMode: U8, pingRate: U8, networkSpeed: U8, gammaCorrection: U8, flags: U8,
    range: real, gainPercent: real, speedOfSound: real, salinity: real)

  function DefaultPingConfig(): Config {
    Config(Header(OCULUS_CHECK_ID, 0, 0, MSG_SIMPLE_FIRE, 0, CONFIG_SIZE - HEADER_SIZE, 0),
           2, RATE_NORMAL, 0xff, 127, 0x1 + 0x4 + 0x8, 2.54, 50.0, 0.0, 0.0)
  }

  /** `flags | 0x4`: the sonar is asked to send its gains. */
  function WithGains(flags: U8): U8 {
    if flags / 4 % 2 == 1 then flags else flags + 4
  }

  predicate CheckConfigFeedback(requested: Config, feedback: Config) {
    if requested.pingRate == RATE_STANDBY then feedback.head.msgId == MSG_DUMMY
    else
      && feedback.head.msgId == MSG_SIMPLE_PING_RESULT
      && requested.masterMode == feedback.masterMode
      && requested.gammaCorrection == feedback.gammaCorrection
      && requested.flags == feedback.flags
      && requested.range == feedback.range
      && Abs(requested.gainPercent - feedback.gainPercent) < 0.1
      && if requested.speedOfSound != 0.0 then Abs(requested.speedOfSound - feedback.speedOfSound) < 0.1
         else Abs(requested.salinity - feedback.salinity) < 0.1
  }

  predicate ConfigChanged(previous: Config, next: Config) {
    || previous.masterMode != next.masterMode
    || previous.pingRate != next.pingRate
    || previous.networkSpeed != next.networkSpeed
    || previous.gammaCorrection != next.gammaCorrection
    || previous.flags != next.flags
    || Abs(previous.range - next.range) > 0.001
    || Abs(previous.gainPercent - next.gainPercent) > 0.1
    || Abs(previous.speedOfSound - next.speedOfSound) > 0.1
    || Abs(previous.salinity - next.salinity) > 0.1
  }

  /** A complete message, by what the driver looks at. */
  datatype Incoming = Ping(header: Header, fire: Config) | Dummy(header: Header) | Other(header: Header) {
    predicate Sound() {
      && (header.msgId == MSG_SIMPLE_PING_RESULT <==> Ping?)
      && (header.msgId == MSG_DUMMY <==> Dummy?)
    }
  }

  /** The 53 packed bytes of a fire message. `toReal` and `fromReal` stand for the conversion
      between a double and its bytes. */
  function StoreConfig(c: Config, fromReal: real -> Double): (s: seq<Byte>)
    ensures |s| == CONFIG_SIZE
  {
    StoreHeader(c.head) + [c.masterMode, c.pingRate, c.networkSpeed, c.gammaCorrection, c.flags]
    + fromReal(c.range) + fromReal(c.gainPercent) + fromReal(c.speedOfSound) + fromReal(c.salinity)
  }

  function LoadConfig(s: seq<Byte>, toReal: Double -> real): Config
    requires |s| >= CONFIG_SIZE
  {
    Config(LoadHeader(s), s[16], s[17], s[18], s[19], s[20],
           toReal(s[21..29]), toReal(s[29..37]), toReal(s[37..45]), toReal(s[45..53]))
  }

  /** Where the fields of a fire message lie, behind its header. */
  lemma ConfigLayout(s: seq<Byte>, toReal: Double -> real)
    requires |s| >= CONFIG_SIZE
    ensures var c := LoadConfig(s, toReal);
            && c.head == LoadHeader(s[..16])
            && [c.masterMode as Byte, c.pingRate, c.networkSpeed, c.gammaCorrection, c.flags] == s[16..21]
            && c.range == toReal(s[21..29]) && c.gainPercent == toReal(s[29..37])
            && c.speedOfSound == toReal(s[37..45]) && c.salinity == toReal(s[45..53])
  {
    assert forall i :: 0 <= i < 16 ==> s[..16][i] == s[i];
  }

  /** A fire message at the start of any longer message is read back as it was stored, if its
      four numbers are doubles. */
  lemma LoadStoreConfig(c: Config, rest: seq<Byte>, fromReal: real -> Double, toReal: Double -> real)
    requires toReal(fromReal(c.range)) == c.range && toReal(fromReal(c.gainPercent)) == c.gainPercent
    requires toReal(fromReal(c.speedOfSound)) == c.speedOfSound && toReal(fromReal(c.salinity)) == c.salinity
    ensures LoadConfig(StoreConfig(c, fromReal) + rest, toReal) == c
  {
    hide StoreHeader, LoadHeader;
    var s := StoreConfig(c, fromReal) + rest;
    assert s[..HEADER_SIZE] == StoreHeader(c.head);
    LoadStoreHeader(c.head, s);
    assert s[21..29] == fromReal(c.range) && s[29..37] == fromReal(c.gainPercent);
    assert s[37..45] == fromReal(c.speedOfSound) && s[45..53] == fromReal(c.salinity);
  }

  /** What the driver takes from a message; None for a ping too short for its fire message,
      behind the end of which the original reads. */
  function Received(m: Snapshot, toReal: Double -> real): (r: Option<Incoming>)
    ensures r.Some? ==> r.value.Sound() && r.value.header == m.header
    ensures r.None? <==> m.IsPing() && |m.data| < CONFIG_SIZE
  {
    if m.IsPing() then
      if |m.data| < CONFIG_SIZE then None else Some(Ping(m.header, LoadConfig(m.data, toReal)))
    else if m.header.msgId == MSG_DUMMY then Some(Dummy(m.header))
    else Some(Other(m.header))
  }

  datatype Driver = Driver(lastConfig: Config, lastPingRate: U8) {
    /** The state behind `send_ping_config(config)`. */
    function AfterSend(config: Config, whole: bool): Driver {
      if !whole then this
      else Driver(lastConfig.(pingRate := config.pingRate),
                  if config.pingRate != RATE_STANDBY then config.pingRate else lastPingRate)
    }

    /** The configuration a message tells about. */
    function ConfigFrom(m: Incoming): Config {
      match m
      case Ping(_, fire) =>
        var next := fire.(pingRate := lastConfig.pingRate);
        if next.masterMode == 2 then next.(gainPercent := (next.gainPercent - 40.0) * 100.0 / 60.0) else next
      case Dummy(_) => lastConfig.(pingRate := RATE_STANDBY)
      case Other(_) => lastConfig
    }

    function AfterMessage(m: Incoming): Driver {
      this.(lastConfig := ConfigFrom(m))
    }

    /** Whether the configuration callbacks are called for the message. */
    predicate Announces(m: Incoming) {
      ConfigChanged(lastConfig, ConfigFrom(m))
    }
  }

  function InitialDriver(): Driver {
    Driver(DefaultPingConfig(), RATE_NORMAL)
  }

  /** What goes over the wire for a requested configuration. */
  function Wire(config: Config, sonarId: U16): Config {
    config.(head := Header(OCULUS_CHECK_ID, 0, sonarId, MSG_SIMPLE_FIRE, config.head.msgVersion,
                           CONFIG_SIZE - HEADER_SIZE, config.head.spare2),
            networkSpeed := 0xff)
  }

  // ---------------------------------------------------------------- the class

  /** How a round of `request_ping_config` goes in the environment: the send is cut short, the
      wait for a message times out, or a message is caught. `missed` are the messages handled
      in between, while nobody is waiting for one or without waking the one who waits. */
  datatype Round =
    | SendFailed(missed: seq<Incoming>)
    | TimedOut(missed: seq<Incoming>)
    | Answered(missed: seq<Incoming>, message: Incoming)
  {
    predicate Sound() {
      && (forall m :: m in missed ==> m.Sound())
      && (Answered? ==> message.Sound())
    }
  }

  class SonarDriver {
    var lastConfig: Config
    var lastPingRate: U8
    var sonarId: U16
    var wire: seq<Config>                    // everything handed to the socket, whole or not
    var announced: seq<(Config, Config)>     // calls of the configuration callbacks
    const toReal: Double -> real

    function State(): Driver
      reads this
    {
      Driver(lastConfig, lastPingRate)
    }

    constructor (toReal: Double -> real)
      ensures this.toReal == toReal
      ensures State() == InitialDriver() && wire == [] && announced == [] && sonarId == 0
      ensures lastConfig.head == Header(0x4f53, 0, 0, 0x15, 0, 37, 0)
      ensures lastConfig.masterMode == 2 && lastConfig.pingRate == 0 && lastConfig.networkSpeed == 0xff
      ensures lastConfig.gammaCorrection == 127 && lastConfig.flags == 13
      ensures lastConfig.range == 2.54 && lastConfig.gainPercent == 50.0
      ensures lastConfig.speedOfSound == 0.0 && lastConfig.salinity == 0.0
      ensures lastPingRate == 0
    {
      lastConfig, lastPingRate, sonarId := DefaultPingConfig(), RATE_NORMAL, 0;
      wire, announced := [], [];
      this.toReal := toReal;
    }

    /** `bytesSent` is what the client's `send` reports: 0 while there is no connection. */
    method SendPingConfig(request: Config, bytesSent: nat) returns (ok: bool)
      modifies this`lastConfig, this`lastPingRate, this`wire
      ensures ok <==> bytesSent == CONFIG_SIZE
      ensures State() == old(State()).AfterSend(request, ok)
      ensures wire == old(wire) + [Wire(request, sonarId)]
      ensures var w := wire[|wire| - 1];
              && w.head == Header(0x4f53, 0, sonarId, 0x15, request.head.msgVersion, 37, request.head.spare2)
              && w.masterMode == request.masterMode && w.pingRate == request.pingRate && w.networkSpeed == 0xff
              && w.gammaCorrection == request.gammaCorrection && w.flags == request.flags
              && w.range == request.range && w.gainPercent == request.gainPercent
              && w.speedOfSound == request.speedOfSound && w.salinity == request.salinity
      ensures !ok ==> lastConfig == old(lastConfig) && lastPingRate == old(lastPingRate)
      ensures ok ==> lastConfig == old(lastConfig).(pingRate := request.pingRate)
    {
      var config := request;
      config := config.(head := config.head.(oculusId := OCULUS_CHECK_ID));
      config := config.(head := config.head.(msgId := MSG_SIMPLE_FIRE));
      config := config.(head := config.head.(srcDeviceId := 0));
      config := config.(head := config.head.(dstDeviceId := sonarId));
      config := config.(head := config.head.(payloadSize := CONFIG_SIZE - HEADER_SIZE));
      config := config.(networkSpeed := 0xff);
      wire := wire + [config];
      if bytesSent != CONFIG_SIZE {
        return false;
      }
      lastConfig := lastConfig.(pingRate := config.pingRate);
      if lastConfig.pingRate != RATE_STANDBY {
        lastPingRate := lastConfig.pingRate;
      }
      return true;
    }

    method Standby(bytesSent: nat)
      modifies this`lastConfig, this`lastPingRate, this`wire
      ensures State() == Apply(old(State()), Op.Standby(bytesSent == CONFIG_SIZE))
      ensures wire == old(wire) + [Wire(Request(old(State()), Op.Standby(bytesSent == CONFIG_SIZE)), sonarId)]
    {
      var request := lastConfig;
      request := request.(pingRate := RATE_STANDBY);
      var ok := SendPingConfig(request, bytesSent);
    }

    method Resume(bytesSent: nat)
      modifies this`lastConfig, this`lastPingRate, this`wire
      ensures State() == Apply(old(State()), Op.Resume(bytesSent == CONFIG_SIZE))
      ensures wire == old(wire) + [Wire(Request(old(State()), Op.Resume(bytesSent == CONFIG_SIZE)), sonarId)]
    {
      var request := lastConfig;
      request := request.(pingRate := lastPingRate);
      var ok := SendPingConfig(request, bytesSent);
    }

    method OnConnect(bytesSent: nat)
      modifies this`lastConfig, this`lastPingRate, this`wire
      ensures State() == Apply(old(State()), Op.Connect(bytesSent == CONFIG_SIZE))
      ensures wire == old(wire) + [Wire(Request(old(State()), Op.Connect(bytesSent == CONFIG_SIZE)), sonarId)]
    {
      var ok := SendPingConfig(lastConfig, bytesSent);
    }

    /** `handle_message`, up to its dispatches. False stands for a read behind the end of the
        message's data. */
    method HandleMessage(message: Message) returns (defined: bool)
      modifies this`lastConfig, this`announced
      ensures defined <==> !(message.Value().IsPing() && |message.data| < CONFIG_SIZE)
      ensures !defined ==> State() == old(State()) && announced == old(announced)
      ensures defined ==>
        var m := Received(message.Value(), toReal).value;
        && State() == old(State()).AfterMessage(m)
        && announced == if old(State()).Announces(m) then old(announced) + [(old(lastConfig), lastConfig)]
                        else old(announced)
    {
      var m := Received(Snapshot(message.header, message.data, message.timestamp), toReal);
      if m.None? {
        return false;
      }
      Handle(m.value);
      return true;
    }

    method Handle(m: Incoming)
      requires m.Sound()
      modifies this`lastConfig, this`announced
      ensures State() == old(State()).AfterMessage(m)
      ensures announced == if old(State()).Announces(m) then old(announced) + [(old(lastConfig), lastConfig)]
                           else old(announced)
    {
      var newConfig := lastConfig;
      if m.header.msgId == MSG_SIMPLE_PING_RESULT {
        newConfig := m.fire;
        newConfig := newConfig.(pingRate := lastConfig.pingRate);
        if newConfig.masterMode == 2 {
          newConfig := newConfig.(gainPercent := (newConfig.gainPercent - 40.0) * 100.0 / 60.0);
        }
      } else if m.header.msgId == MSG_DUMMY {
        newConfig := newConfig.(pingRate := RATE_STANDBY);
      }
      if ConfigChanged(lastConfig, newConfig) {
        announced := announced + [(lastConfig, newConfig)];
      }
      lastConfig := newConfig;
    }

    /** Messages that the event loop handles meanwhile. */
    method HandleMessages(ms: seq<Incoming>)
      requires forall m :: m in ms ==> m.Sound()
      modifies this`lastConfig, this`announced
      ensures State() == AfterMessages(old(State()), ms)
    {
      for i := 0 to |ms|
        invariant AfterMessages(State(), ms[i..]) == AfterMessages(old(State()), ms)
      {
        assert ms[i] in ms && ms[i..][0] == ms[i] && ms[i..][1..] == ms[i + 1..];
        Handle(ms[i]);
      }
      assert ms[|ms|..] == [];
    }

    /** The rounds the environment grants are a finite list; None means that all of them are
        used up and the loop is still going. */
    method RequestPingConfig(request: Config, rounds: seq<Round>) returns (result: Answer)
      requires forall r :: r in rounds ==> r.Sound()
      modifies this
      ensures (State(), result) == Negotiate(old(State()), Asked(request), rounds, 0)
    {
      var asked := request.(flags := WithGains(request.flags));
      var count := 0;
      var round := 0;
      var feedback := asked;
      while round < |rounds|
        invariant round <= |rounds| && count < MAX_ROUNDS
        invariant Negotiate(State(), asked, rounds[round..], count) == Negotiate(old(State()), asked, rounds, 0)
      {
        var r := rounds[round];
        assert r in rounds && rounds[round..][0] == r && rounds[round..][1..] == rounds[round + 1..];
        round := round + 1;
        var sent := SendPingConfig(asked, if r.SendFailed? then 0 else CONFIG_SIZE);
        HandleMessages(r.missed);
        if sent {
          if r.TimedOut? {
            continue;
          }
          Handle(r.message);
          feedback := lastConfig.(head := r.message.header);
          if CheckConfigFeedback(asked, feedback) {
            return Settled(feedback);
          }
        }
        count := count + 1;
        if count >= MAX_ROUNDS {
          feedback := asked.(head := asked.head.(msgId := 0));
          return Settled(feedback);
        }
      }
      return StillAsking;
    }
  }

  // ---------------------------------------------------------------- negotiation

  datatype Answer = StillAsking | Settled(config: Config)

  function Asked(request: Config): Config {
    request.(flags := WithGains(request.flags))
  }

  /** The driver's state at the end of a round. */
  function AfterRound(d: Driver, asked: Config, r: Round): Driver {
    var e := AfterMessages(d.AfterSend(asked, !r.SendFailed?), r.missed);
    if r.Answered? then e.AfterMessage(r.message) else e
  }

  /** The configuration a caught message answers with. */
  function FeedbackOf(d: Driver, asked: Config, r: Round): Config
    requires r.Answered?
  {
    AfterRound(d, asked, r).lastConfig.(head := r.message.header)
  }

  predicate Accepted(d: Driver, asked: Config, r: Round) {
    r.Answered? && CheckConfigFeedback(asked, FeedbackOf(d, asked, r))
  }

  /** The loop of `request_ping_config`, with `count` rounds behind it that did not time out. */
  function Negotiate(d: Driver, asked: Config, rounds: seq<Round>, count: nat): (Driver, Answer)
    decreases |rounds|
  {
    if rounds == [] then (d, StillAsking)
    else
      var e := AfterRound(d, asked, rounds[0]);
      if rounds[0].TimedOut? then Negotiate(e, asked, rounds[1..], count)
      else if Accepted(d, asked, rounds[0]) then (e, Settled(FeedbackOf(d, asked, rounds[0])))
      else if count + 1 >= MAX_ROUNDS then (e, Settled(asked.(head := asked.head.(msgId := 0))))
      else Negotiate(e, asked, rounds[1..], count + 1)
  }

  /** Rounds that did not time out. */
  function Counted(rounds: seq<Round>): nat {
    if rounds == [] then 0 else (if rounds[0].TimedOut? then 0 else 1) + Counted(rounds[1..])
  }

  /** The driver's state after some rounds that did not settle the request. */
  function AfterRounds(d: Driver, asked: Config, rounds: seq<Round>): Driver
    decreases |rounds|
  {
    if rounds == [] then d else AfterRounds(AfterRound(d, asked, rounds[0]), asked, rounds[1..])
  }

  /** Round `i` answers the request. */
  predicate AcceptedAt(d: Driver, asked: Config, rounds: seq<Round>, i: nat)
    requires i < |rounds|
  {
    Accepted(AfterRounds(d, asked, rounds[..i]), asked, rounds[i])
  }

  predicate Accepts(d: Driver, asked: Config, rounds: seq<Round>) {
    exists i :: 0 <= i < |rounds| && AcceptedAt(d, asked, rounds, i)
  }

  /** The loop ends if and only if some round is accepted or a hundred rounds do not time out:
      timeouts are not counted, so a sonar that stays silent keeps it going for ever. */
  lemma {:induction false} SettlesIff(d: Driver, asked: Config, rounds: seq<Round>, count: nat)
    requires count < MAX_ROUNDS
    ensures Negotiate(d, asked, rounds, count).1.Settled?
       <==> Accepts(d, asked, rounds) || count + Counted(rounds) >= MAX_ROUNDS
    decreases |rounds|
  {
    hide Accepted, AfterRound;
    if rounds != [] {
      var rest, e := rounds[1..], AfterRound(d, asked, rounds[0]);
      assert rounds[..0] == [];
      assert AcceptedAt(d, asked, rounds, 0) == Accepted(d, asked, rounds[0]);
      assert Accepted(d, asked, rounds[0]) ==> rounds[0].Answered? by {
        OnlyAnswersAreAccepted(d, asked, rounds[0]);
      }
      if !AcceptedAt(d, asked, rounds, 0) {
        AcceptedLater(d, asked, rounds);
        var next := if rounds[0].TimedOut? then count else count + 1;
        if next < MAX_ROUNDS {
          SettlesIff(e, asked, rest, next);
        }
      }
    }
  }

  lemma OnlyAnswersAreAccepted(d: Driver, asked: Config, r: Round)
    ensures Accepted(d, asked, r) ==> r.Answered?
  {
  }

  lemma AcceptedLater(d: Driver, asked: Config, rounds: seq<Round>)
    requires rounds != [] && !AcceptedAt(d, asked, rounds, 0)
    ensures var e := AfterRound(d, asked, rounds[0]);
            (Accepts(d, asked, rounds) <==> Accepts(e, asked, rounds[1..]))
  {
    hide AcceptedAt;
    var e, rest := AfterRound(d, asked, rounds[0]), rounds[1..];
    if i :| 0 <= i < |rounds| && AcceptedAt(d, asked, rounds, i) {
      AcceptedShift(d, asked, rounds, i - 1);
    }
    if i :| 0 <= i < |rest| && AcceptedAt(e, asked, rest, i) {
      AcceptedShift(d, asked, rounds, i);
    }
  }

  lemma AcceptedShift(d: Driver, asked: Config, rounds: seq<Round>, i: nat)
    requires rounds != [] && i < |rounds[1..]|
    ensures AcceptedAt(AfterRound(d, asked, rounds[0]), asked, rounds[1..], i) == AcceptedAt(d, asked, rounds, i + 1)
  {
    hide Accepted, AfterRound;
    assert rounds[..i + 1][1..] == rounds[1..][..i] && rounds[..i + 1][0] == rounds[0];
  }

  /** A sonar that never answers in time keeps the call waiting for any number of rounds. */
  lemma {:induction false} SilenceNeverSettles(d: Driver, asked: Config, rounds: seq<Round>)
    requires forall r :: r in rounds ==> r.TimedOut?
    ensures Negotiate(d, asked, rounds, 0).1 == StillAsking
    decreases |rounds|
  {
    hide AfterRound;
    if rounds != [] {
      assert rounds[0] in rounds;
      SilenceNeverSettles(AfterRound(d, asked, rounds[0]), asked, rounds[1..]);
    }
  }

  /** Whatever is returned: feedback that passes the check, or the request itself with the
      gain flag set, marked with message id 0, after a hundred counted rounds. */
  lemma {:induction false} SettledIsAcceptedOrMarked(d: Driver, asked: Config, rounds: seq<Round>, count: nat)
    requires count < MAX_ROUNDS && Negotiate(d, asked, rounds, count).1.Settled?
    ensures var result := Negotiate(d, asked, rounds, count).1.config;
            || CheckConfigFeedback(asked, result)
            || (result == asked.(head := asked.head.(msgId := 0)) && count + Counted(rounds) >= MAX_ROUNDS)
    decreases |rounds|
  {
    hide CheckConfigFeedback, AfterRound;
    if rounds != [] {
      var e := AfterRound(d, asked, rounds[0]);
      if rounds[0].TimedOut? {
        SettledIsAcceptedOrMarked(e, asked, rounds[1..], count);
      } else if count + 1 < MAX_ROUNDS && !Accepted(d, asked, rounds[0]) {
        SettledIsAcceptedOrMarked(e, asked, rounds[1..], count + 1);
      }
    }
  }

  /** How the sonar reports the gain it was asked for: in high-frequency mode it maps the
      percentage to 40..100. */
  function EchoedGain(asked: Config): real {
    if asked.masterMode == 2 then 40.0 + 0.6 * asked.gainPercent else asked.gainPercent
  }

  /** A sonar that echoes the request is accepted in the very first round, for every gain and
      mode and whatever messages were missed before, and hands the requested gain back. */
  lemma {:induction false} EchoIsAccepted(d: Driver, request: Config, missed: seq<Incoming>, echo: Config,
                                          header: Header, rest: seq<Round>)
    requires Asked(request).pingRate != RATE_STANDBY
    requires header.msgId == MSG_SIMPLE_PING_RESULT
    requires var asked := Asked(request);
             && echo.masterMode == asked.masterMode && echo.gammaCorrection == asked.gammaCorrection
             && echo.flags == asked.flags && echo.range == asked.range && echo.gainPercent == EchoedGain(asked)
             && echo.speedOfSound == asked.speedOfSound && echo.salinity == asked.salinity
    ensures var (e, answer) := Negotiate(d, Asked(request), [Answered(missed, Ping(header, echo))] + rest, 0);
            && answer.Settled? && CheckConfigFeedback(Asked(request), answer.config)
            && answer.config.gainPercent == request.gainPercent && answer.config.flags / 4 % 2 == 1
            && e.lastConfig.gainPercent == request.gainPercent
  {
    var g := request.gainPercent;
    assert (40.0 + 0.6 * g - 40.0) * 100.0 / 60.0 == g;
  }

  /** Exactly the answers that end a request, in terms of what the sonar reports: a dummy for
      standby; otherwise a ping with the same discrete fields and range, the gain within 0.1,
      which in high-frequency mode means within 0.06 of the mapped gain, and sound speed or, if
      none was asked for, salinity within 0.1. */
  lemma AcceptedIffEchoed(d: Driver, asked: Config, missed: seq<Incoming>, echo: Config, header: Header)
    ensures asked.pingRate != RATE_STANDBY ==>
      (Accepted(d, asked, Answered(missed, Ping(header, echo))) <==>
        && header.msgId == MSG_SIMPLE_PING_RESULT
        && echo.masterMode == asked.masterMode && echo.gammaCorrection == asked.gammaCorrection
        && echo.flags == asked.flags && echo.range == asked.range
        && Abs(echo.gainPercent - EchoedGain(asked)) < (if asked.masterMode == 2 then 0.06 else 0.1)
        && if asked.speedOfSound != 0.0 then Abs(echo.speedOfSound - asked.speedOfSound) < 0.1
           else Abs(echo.salinity - asked.salinity) < 0.1)
    ensures asked.pingRate == RATE_STANDBY ==>
      forall m :: Accepted(d, asked, Answered(missed, m)) <==> m.header.msgId == MSG_DUMMY
  {
    var g, h := asked.gainPercent, echo.gainPercent;
    assert g - (h - 40.0) * 100.0 / 60.0 == (40.0 + 0.6 * g - h) * 100.0 / 60.0;
  }

  // ---------------------------------------------------------------- the last ping rate

  /** Calls and messages, in the order in which they take effect. */
  datatype Op =
    | Send(config: Config, whole: bool)
    | Standby(whole: bool)
    | Resume(whole: bool)
    | Connect(whole: bool)
    | Message(m: Incoming)

  /** The rate an operation sends, given the state it starts from. */
  function RequestedRate(d: Driver, op: Op): U8
    requires !op.Message?
  {
    match op
    case Send(config, _) => config.pingRate
    case Standby(_) => RATE_STANDBY
    case Resume(_) => d.lastPingRate
    case Connect(_) => d.lastConfig.pingRate
  }

  /** The configuration it asks for. */
  function Request(d: Driver, op: Op): Config
    requires !op.Message?
  {
    match op
    case Send(config, _) => config
    case _ => d.lastConfig.(pingRate := RequestedRate(d, op))
  }

  function Apply(d: Driver, op: Op): Driver {
    match op
    case Message(m) => d.AfterMessage(m)
    case _ => d.AfterSend(Request(d, op), op.whole)
  }

  function ApplyAll(d: Driver, ops: seq<Op>): Driver
    decreases |ops|
  {
    if ops == [] then d else ApplyAll(Apply(d, ops[0]), ops[1..])
  }

  /** The rates that went out whole, in order. */
  function RatesSent(d: Driver, ops: seq<Op>): seq<U8>
    decreases |ops|
  {
    if ops == [] then []
    else
      (if !ops[0].Message? && ops[0].whole then [RequestedRate(d, ops[0])] else [])
      + RatesSent(Apply(d, ops[0]), ops[1..])
  }

  /** The last rate that is not standby, or `before` if there is none. */
  function LastActive(before: U8, rates: seq<U8>): U8
    decreases |rates|
  {
    if rates == [] then before
    else if rates[|rates| - 1] != RATE_STANDBY then rates[|rates| - 1]
    else LastActive(before, rates[..|rates| - 1])
  }

  lemma {:induction false} LastActiveFront(before: U8, first: U8, rates: seq<U8>)
    ensures LastActive(before, [first] + rates)
         == LastActive(if first != RATE_STANDBY then first else before, rates)
    decreases |rates|
  {
    var all := [first] + rates;
    if rates == [] {
      assert all[..0] == [];
    } else {
      assert all[..|all| - 1] == [first] + rates[..|rates| - 1];
      LastActiveFront(before, first, rates[..|rates| - 1]);
    }
  }

  /** Over every sequence of operations `lastPingRate_` is the last rate sent that was not
      standby, and the initial one if there was none. */
  lemma {:induction false} LastPingRateIsLastActive(d: Driver, ops: seq<Op>)
    ensures ApplyAll(d, ops).lastPingRate == LastActive(d.lastPingRate, RatesSent(d, ops))
    decreases |ops|
  {
    if ops != [] {
      var e := Apply(d, ops[0]);
      LastPingRateIsLastActive(e, ops[1..]);
      var rest := RatesSent(e, ops[1..]);
      if !ops[0].Message? && ops[0].whole {
        LastActiveFront(d.lastPingRate, RequestedRate(d, ops[0]), rest);
      } else {
        assert [] + rest == rest;
      }
    }
  }

  lemma {:induction false} LastActiveIsActive(before: U8, rates: seq<U8>)
    requires before != RATE_STANDBY
    ensures LastActive(before, rates) != RATE_STANDBY
    decreases |rates|
  {
    if rates != [] {
      LastActiveIsActive(before, rates[..|rates| - 1]);
    }
  }

  /** So from the start on, if each operation is over before the next begins, after any number
      of standbys and dummy messages `resume` asks for the last active rate, and never for
      standby. Module SendRaces has what happens when they overlap. */
  lemma {:induction false} ResumeAsksForLastActive(ops: seq<Op>, whole: bool)
    ensures var d := ApplyAll(InitialDriver(), ops);
            var rate := LastActive(RATE_NORMAL, RatesSent(InitialDriver(), ops));
            && RequestedRate(d, Resume(whole)) == rate != RATE_STANDBY
            && (whole ==> Apply(d, Resume(whole)).lastConfig.pingRate == rate)
            && Apply(d, Resume(whole)).lastPingRate == rate
  {
    LastPingRateIsLastActive(InitialDriver(), ops);
    LastActiveIsActive(RATE_NORMAL, RatesSent(InitialDriver(), ops));
  }

  // ---------------------------------------------------------------- silent drift

  /** Messages none of which is announced to the configuration callbacks. */
  predicate Unannounced(d: Driver, ms: seq<Incoming>)
    decreases |ms|
  {
    ms == [] || (!d.Announces(ms[0]) && Unannounced(d.AfterMessage(ms[0]), ms[1..]))
  }

  function AfterMessages(d: Driver, ms: seq<Incoming>): Driver
    decreases |ms|
  {
    if ms == [] then d else AfterMessages(d.AfterMessage(ms[0]), ms[1..])
  }

  /** `a` and `b` agree in the discrete fields and are at most `n` tolerances apart otherwise. */
  predicate Within(a: Config, b: Config, n: nat) {
    && a.masterMode == b.masterMode && a.pingRate == b.pingRate && a.networkSpeed == b.networkSpeed
    && a.gammaCorrection == b.gammaCorrection && a.flags == b.flags
    && Abs(a.range - b.range) <= n as real * 0.001
    && Abs(a.gainPercent - b.gainPercent) <= n as real * 0.1
    && Abs(a.speedOfSound - b.speedOfSound) <= n as real * 0.1
    && Abs(a.salinity - b.salinity) <= n as real * 0.1
  }

  lemma WithinAdds(a: Config, b: Config, c: Config, n: nat)
    requires !ConfigChanged(a, b) && Within(b, c, n)
    ensures Within(a, c, n + 1)
  {
    assert (n + 1) as real * 0.001 == n as real * 0.001 + 0.001;
    assert (n + 1) as real * 0.1 == n as real * 0.1 + 0.1;
  }

  /** The tolerance of the change test adds up: `n` unannounced messages leave the discrete
      fields alone and can move the range by n * 0.001 and the other numbers by n * 0.1. */
  lemma {:induction false} UnannouncedDrift(d: Driver, ms: seq<Incoming>)
    requires Unannounced(d, ms)
    ensures Within(d.lastConfig, AfterMessages(d, ms).lastConfig, |ms|)
    decreases |ms|
  {
    if ms != [] {
      var e := d.AfterMessage(ms[0]);
      UnannouncedDrift(e, ms[1..]);
      WithinAdds(d.lastConfig, e.lastConfig, AfterMessages(d, ms).lastConfig, |ms| - 1);
    }
  }

  /** The bound is reached: pings that move the range by a millimetre each are never announced. */
  lemma {:induction false} DriftIsReached(d: Driver, n: nat)
    returns (ms: seq<Incoming>)
    ensures |ms| == n && Unannounced(d, ms)
    ensures AfterMessages(d, ms).lastConfig == d.lastConfig.(range := d.lastConfig.range + n as real * 0.001)
    decreases n
  {
    ms := [];
    if n > 0 {
      var next := d.lastConfig.(range := d.lastConfig.range + 0.001);
      var m := Ping(ZERO_HEADER.(msgId := MSG_SIMPLE_PING_RESULT), next.(gainPercent := EchoedGain(next)));
      var e := d.AfterMessage(m);
      assert (40.0 + 0.6 * next.gainPercent - 40.0) * 100.0 / 60.0 == next.gainPercent;
      assert e.lastConfig == next;
      ms := DriftIsReached(e, n - 1);
      assert ([m] + ms)[1..] == ms;
      assert n as real * 0.001 == 0.001 + (n - 1) as real * 0.001;
      ms := [m] + ms;
    }
  }
}
