/** Sends and message handlers on two threads. Nothing protects `lastConfig_` and
    `lastPingRate_`, so their steps interleave. */
module SendRaces {
  import opened Basics
  import opened Bytes
  import opened OculusMessage
  import opened SonarDrivers

  /** The sender stores its rate, tests it, and saves it; the handler copies the configuration,
      changes the copy, calls callbacks, and writes it back. */
  datatype Sender = Sending | Stored | Tested | Returned(saved: bool)

  /** `begun` tells where the sender was when the handler took its copy. */
  datatype Handler = Idle | Handling(m: Incoming, copy: Config, begun: Sender)

  datatype Race = Race(d: Driver, sender: Sender, handler: Handler) {
    predicate InWindow() {
      sender == Stored || sender == Tested
    }
  }

  datatype Move = Store | Test | Save | Begin(m: Incoming) | End

  predicate CanMove(s: Race, a: Move) {
    match a
    case Store => s.sender == Sending
    case Test => s.sender == Stored
    case Save => s.sender == Tested
    case Begin(_) => s.handler == Idle
    case End => s.handler.Handling?
  }

  function MoveOn(s: Race, a: Move, rate: U8): Race
    requires CanMove(s, a)
  {
    match a
    case Store => s.(d := s.d.(lastConfig := s.d.lastConfig.(pingRate := rate)), sender := Stored)
    case Test => s.(sender := if s.d.lastConfig.pingRate != RATE_STANDBY then Tested else Returned(false))
    case Save => s.(d := s.d.(lastPingRate := s.d.lastConfig.pingRate), sender := Returned(true))
    case Begin(m) => s.(handler := Handling(m, s.d.ConfigFrom(m), s.sender))
    case End => s.(d := s.d.(lastConfig := s.handler.copy), handler := Idle)
  }

  predicate CanRace(s: Race, run: seq<Move>, rate: U8)
    decreases |run|
  {
    run == [] || (CanMove(s, run[0]) && CanRace(MoveOn(s, run[0], rate), run[1..], rate))
  }

  function RaceOn(s: Race, run: seq<Move>, rate: U8): Race
    requires CanRace(s, run, rate)
    decreases |run|
  {
    if run == [] then s else RaceOn(MoveOn(s, run[0], rate), run[1..], rate)
  }

  /** The handler took its copy before the rate was stored. */
  predicate Early(h: Handler) {
    h.Handling? && h.begun == Sending
  }

  /** Writing this copy back puts another rate in place of the one just stored. */
  predicate Harmful(s: Race, rate: U8) {
    s.handler.Handling? && (s.handler.m.Dummy? || (Early(s.handler) && s.handler.copy.pingRate != rate))
  }

  /** ... and that rate is standby. */
  predicate Silencing(s: Race) {
    s.handler.Handling?
    && (s.handler.m.Dummy? || (Early(s.handler) && s.handler.copy.pingRate == RATE_STANDBY))
  }

  /** A harmful copy is written back between the store and the save. */
  predicate Disturbed(s: Race, run: seq<Move>, rate: U8)
    requires CanRace(s, run, rate)
    decreases |run|
  {
    run != []
    && ((run[0].End? && s.InWindow() && Harmful(s, rate)) || Disturbed(MoveOn(s, run[0], rate), run[1..], rate))
  }

  /** A standby copy is written back between the store and the test. */
  predicate Silenced(s: Race, run: seq<Move>, rate: U8)
    requires CanRace(s, run, rate)
    decreases |run|
  {
    run != []
    && ((run[0].End? && s.sender == Stored && Silencing(s)) || Silenced(MoveOn(s, run[0], rate), run[1..], rate))
  }

  /** What a copy holds: standby after a dummy; otherwise, once the rate is stored, the rate
      that is still there, since only the handler itself could have replaced it. */
  predicate CopyInv(s: Race) {
    s.handler.Handling? ==>
      && (s.handler.m.Dummy? ==> s.handler.copy.pingRate == RATE_STANDBY)
      && (s.handler.begun == Sending || s.sender != Sending)
      && (!s.handler.m.Dummy? && !Early(s.handler) && s.InWindow() ==>
            s.handler.copy.pingRate == s.d.lastConfig.pingRate)
  }

  lemma CopyStep(s: Race, a: Move, rate: U8)
    requires CopyInv(s) && CanMove(s, a)
    ensures CopyInv(MoveOn(s, a, rate))
  {
  }

  /** Behind the save nothing touches the saved rate. */
  lemma {:induction false} SavedForGood(s: Race, run: seq<Move>, rate: U8)
    requires s.sender.Returned? && CanRace(s, run, rate)
    ensures RaceOn(s, run, rate).d.lastPingRate == s.d.lastPingRate && RaceOn(s, run, rate).sender == s.sender
    ensures !Disturbed(s, run, rate) && !Silenced(s, run, rate)
    decreases |run|
  {
    if run != [] {
      SavedForGood(MoveOn(s, run[0], rate), run[1..], rate);
    }
  }

  /** Once the stored rate is gone it does not come back: no early copy is left. */
  lemma {:induction false} LostRate(s: Race, run: seq<Move>, rate: U8)
    requires CopyInv(s) && s.InWindow() && rate != RATE_STANDBY
    requires s.d.lastConfig.pingRate != rate && !Early(s.handler)
    requires s.sender == Tested || s.d.lastConfig.pingRate != RATE_STANDBY
    requires CanRace(s, run, rate) && RaceOn(s, run, rate).sender.Returned?
    ensures var e := RaceOn(s, run, rate);
            e.d.lastPingRate == rate <==> Silenced(s, run, rate) && s.d.lastPingRate == rate
    decreases |run|
  {
    var t := MoveOn(s, run[0], rate);
    CopyStep(s, run[0], rate);
    if t.sender.Returned? {
      SavedForGood(t, run[1..], rate);
    } else if t.sender == Stored && t.d.lastConfig.pingRate == RATE_STANDBY {
      SilentTest(t, run[1..], rate);
    } else {
      LostRate(t, run[1..], rate);
    }
  }

  /** With standby in place before the test, nothing is saved. */
  lemma {:induction false} SilentTest(s: Race, run: seq<Move>, rate: U8)
    requires CopyInv(s) && s.sender == Stored && s.d.lastConfig.pingRate == RATE_STANDBY && !Early(s.handler)
    requires CanRace(s, run, rate) && RaceOn(s, run, rate).sender.Returned?
    ensures RaceOn(s, run, rate).d.lastPingRate == s.d.lastPingRate
    decreases |run|
  {
    var t := MoveOn(s, run[0], rate);
    CopyStep(s, run[0], rate);
    if t.sender.Returned? {
      SavedForGood(t, run[1..], rate);
    } else {
      SilentTest(t, run[1..], rate);
    }
  }

  lemma {:induction false} SavedFromWindow(s: Race, run: seq<Move>, rate: U8)
    requires CopyInv(s) && s.InWindow() && s.d.lastConfig.pingRate == rate != RATE_STANDBY
    requires CanRace(s, run, rate) && RaceOn(s, run, rate).sender.Returned?
    ensures RaceOn(s, run, rate).d.lastPingRate == rate
       <==> !Disturbed(s, run, rate) || (Silenced(s, run, rate) && s.d.lastPingRate == rate)
    decreases |run|
  {
    var t := MoveOn(s, run[0], rate);
    CopyStep(s, run[0], rate);
    if t.sender.Returned? {
      SavedForGood(t, run[1..], rate);
    } else if t.d.lastConfig.pingRate == rate {
      SavedFromWindow(t, run[1..], rate);
    } else if t.sender == Stored && t.d.lastConfig.pingRate == RATE_STANDBY {
      SilentTest(t, run[1..], rate);
    } else {
      LostRate(t, run[1..], rate);
    }
  }

  /** For every interleaving of a whole send of an active rate with message handlers, also one
      that is under way when the send begins: afterwards the rate to resume is the rate sent
      if and only if, between the store and the save, nothing is written back by a dummy, nor
      by a handler that took its copy before the store and with another rate. The one
      exception is that standby comes in before the test, and the rate that is then left
      alone happens to be the same. */
  lemma {:induction false} RateSavedIff(s: Race, run: seq<Move>, rate: U8)
    requires CopyInv(s) && s.sender == Sending && rate != RATE_STANDBY
    requires CanRace(s, run, rate) && RaceOn(s, run, rate).sender.Returned?
    ensures RaceOn(s, run, rate).d.lastPingRate == rate
       <==> !Disturbed(s, run, rate) || (Silenced(s, run, rate) && s.d.lastPingRate == rate)
    decreases |run|
  {
    var t := MoveOn(s, run[0], rate);
    CopyStep(s, run[0], rate);
    if t.sender == Stored {
      SavedFromWindow(t, run[1..], rate);
    } else {
      RateSavedIff(t, run[1..], rate);
    }
  }

  /** A send that nothing interrupts is the send of the class. */
  lemma {:induction false} UninterruptedSend(d: Driver, config: Config)
    ensures var run := if config.pingRate == RATE_STANDBY then [Store, Test] else [Store, Test, Save];
            && CanRace(Race(d, Sending, Idle), run, config.pingRate)
            && RaceOn(Race(d, Sending, Idle), run, config.pingRate).d == d.AfterSend(config, true)
  {
    var s := Race(d, Sending, Idle);
    var s1 := MoveOn(s, Store, config.pingRate);
    var s2 := MoveOn(s1, Test, config.pingRate);
    RaceTwo(s, Store, Test, [], config.pingRate);
    if config.pingRate != RATE_STANDBY {
      var s3 := MoveOn(s2, Save, config.pingRate);
      assert [Save][1..] == [];
      RaceTwo(s, Store, Test, [Save], config.pingRate);
      assert [Store, Test] + [Save] == [Store, Test, Save];
    } else {
      assert [Store, Test] + [] == [Store, Test];
    }
  }

  lemma {:induction false} RaceTwo(s: Race, a: Move, b: Move, rest: seq<Move>, rate: U8)
    requires CanMove(s, a) && CanMove(MoveOn(s, a, rate), b)
    requires CanRace(MoveOn(MoveOn(s, a, rate), b, rate), rest, rate)
    ensures CanRace(s, [a, b] + rest, rate)
    ensures RaceOn(s, [a, b] + rest, rate) == RaceOn(MoveOn(MoveOn(s, a, rate), b, rate), rest, rate)
  {
    var run := [a, b] + rest;
    assert run[1..] == [b] + rest && run[1..][1..] == rest;
  }

  /** An uninterrupted handler is the handler of the class. */
  lemma {:induction false} UninterruptedHandler(d: Driver, m: Incoming, sender: Sender, rate: U8)
    ensures var s := Race(d, sender, Idle);
            && CanRace(s, [Begin(m), End], rate)
            && RaceOn(s, [Begin(m), End], rate) == Race(d.AfterMessage(m), sender, Idle)
  {
    RaceTwo(Race(d, sender, Idle), Begin(m), End, [], rate);
    assert [Begin(m), End] + [] == [Begin(m), End];
  }

  /** No dummy is needed: a handler of any other message, begun before the store and finished
      behind it, writes the old rate back, and that is what the send then saves. */
  lemma {:induction false} EarlyHandlerUndoesSend(d: Driver, m: Incoming, rate: U8)
    requires !m.Dummy? && d.lastConfig.pingRate != RATE_STANDBY
    ensures var s := Race(d, Sending, Idle);
            && CanRace(s, [Begin(m), Store, End, Test, Save], rate)
            && RaceOn(s, [Begin(m), Store, End, Test, Save], rate).d.lastPingRate == d.lastConfig.pingRate
  {
    var s := Race(d, Sending, Idle);
    var s2 := MoveOn(MoveOn(s, Begin(m), rate), Store, rate);
    var s4 := MoveOn(MoveOn(s2, End, rate), Test, rate);
    assert [Save][1..] == [];
    RaceTwo(s2, End, Test, [Save], rate);
    RaceTwo(s, Begin(m), Store, [End, Test] + [Save], rate);
    assert [Begin(m), Store] + ([End, Test] + [Save]) == [Begin(m), Store, End, Test, Save];
  }

  // ---------------------------------------------------------------- standby

  /** A standby copy is written back between the test and the save. */
  predicate Poisoned(s: Race, run: seq<Move>, rate: U8)
    requires CanRace(s, run, rate)
    decreases |run|
  {
    run != []
    && ((run[0].End? && s.sender == Tested && Silencing(s)) || Poisoned(MoveOn(s, run[0], rate), run[1..], rate))
  }

  /** The handler took a copy with an active rate before the store. */
  predicate Reviving(s: Race) {
    Early(s.handler) && !s.handler.m.Dummy? && s.handler.copy.pingRate != RATE_STANDBY
  }

  /** Such a copy is written back between the store and the test. */
  predicate Revived(s: Race, run: seq<Move>, rate: U8)
    requires CanRace(s, run, rate)
    decreases |run|
  {
    run != []
    && ((run[0].End? && s.sender == Stored && Reviving(s)) || Revived(MoveOn(s, run[0], rate), run[1..], rate))
  }

  function RevivedRate(s: Race, run: seq<Move>, rate: U8): U8
    requires CanRace(s, run, rate) && Revived(s, run, rate)
    decreases |run|
  {
    if run[0].End? && s.sender == Stored && Reviving(s) then s.handler.copy.pingRate
    else RevivedRate(MoveOn(s, run[0], rate), run[1..], rate)
  }

  lemma {:induction false} NothingBehindReturn(s: Race, run: seq<Move>, rate: U8)
    requires s.sender.Returned? && CanRace(s, run, rate)
    ensures !Poisoned(s, run, rate) && !Revived(s, run, rate)
    decreases |run|
  {
    if run != [] {
      NothingBehindReturn(MoveOn(s, run[0], rate), run[1..], rate);
    }
  }

  lemma {:induction false} FromTested(s: Race, run: seq<Move>, rate: U8)
    requires CopyInv(s) && s.sender == Tested && (s.d.lastConfig.pingRate == RATE_STANDBY ==> !Early(s.handler))
    requires CanRace(s, run, rate) && RaceOn(s, run, rate).sender.Returned?
    ensures var e := RaceOn(s, run, rate);
            && e.sender == Returned(true)
            && (e.d.lastPingRate == RATE_STANDBY <==>
                  Poisoned(s, run, rate) || s.d.lastConfig.pingRate == RATE_STANDBY)
            && (!Early(s.handler) ==>
                  e.d.lastPingRate == if Poisoned(s, run, rate) then RATE_STANDBY else s.d.lastConfig.pingRate)
    ensures !Silenced(s, run, rate) && !Revived(s, run, rate)
    decreases |run|
  {
    var t := MoveOn(s, run[0], rate);
    CopyStep(s, run[0], rate);
    if t.sender.Returned? {
      SavedForGood(t, run[1..], rate);
      NothingBehindReturn(t, run[1..], rate);
    } else {
      FromTested(t, run[1..], rate);
    }
  }

  lemma {:induction false} FromStored(s: Race, run: seq<Move>, rate: U8)
    requires CopyInv(s) && s.sender == Stored && (Early(s.handler) ==> s.d.lastConfig.pingRate == rate)
    requires CanRace(s, run, rate) && RaceOn(s, run, rate).sender.Returned?
    ensures var e, r := RaceOn(s, run, rate), s.d.lastConfig.pingRate;
            && (e.sender.saved <==> !Silenced(s, run, rate) && (r != RATE_STANDBY || Revived(s, run, rate)))
            && (!e.sender.saved ==> e.d.lastPingRate == s.d.lastPingRate && !Poisoned(s, run, rate))
            && (e.sender.saved ==> (e.d.lastPingRate == RATE_STANDBY <==> Poisoned(s, run, rate)))
            && (e.sender.saved && !Poisoned(s, run, rate) && !Early(s.handler) ==> e.d.lastPingRate == r)
            && (e.sender.saved && !Poisoned(s, run, rate) && r == RATE_STANDBY ==>
                  e.d.lastPingRate == RevivedRate(s, run, rate))
    ensures !Early(s.handler) ==> !Revived(s, run, rate)
    decreases |run|
  {
    var t := MoveOn(s, run[0], rate);
    CopyStep(s, run[0], rate);
    if t.sender.Returned? {
      SavedForGood(t, run[1..], rate);
      NothingBehindReturn(t, run[1..], rate);
    } else if t.sender == Tested {
      FromTested(t, run[1..], rate);
    } else {
      FromStored(t, run[1..], rate);
    }
  }

  /** The result of a whole send of any rate, standby included, for every interleaving. Whether
      a rate is saved at all: an active one unless standby is written back before the test; for
      standby only if an active copy from before the store is, and no dummy behind it. And the
      rate to resume ends as standby exactly if a standby copy is written back between the
      test and the save, or nothing is saved and it was standby already. */
  lemma {:induction false} SendResult(s: Race, run: seq<Move>, rate: U8)
    requires CopyInv(s) && s.sender == Sending
    requires CanRace(s, run, rate) && RaceOn(s, run, rate).sender.Returned?
    ensures var e := RaceOn(s, run, rate);
            && (e.sender.saved <==> !Silenced(s, run, rate) && (rate != RATE_STANDBY || Revived(s, run, rate)))
            && (!e.sender.saved ==> e.d.lastPingRate == s.d.lastPingRate && !Poisoned(s, run, rate))
            && (e.sender.saved ==> (e.d.lastPingRate == RATE_STANDBY <==> Poisoned(s, run, rate)))
            && (e.sender.saved && rate == RATE_STANDBY && !Poisoned(s, run, rate) ==>
                  e.d.lastPingRate == RevivedRate(s, run, rate))
    decreases |run|
  {
    var t := MoveOn(s, run[0], rate);
    CopyStep(s, run[0], rate);
    if t.sender == Stored {
      FromStored(t, run[1..], rate);
    } else {
      SendResult(t, run[1..], rate);
    }
  }

  /** Never standby, exactly: if the rate to resume is active before a send, it is standby
      afterwards if and only if a dummy, or a handler that took a standby copy before the
      store, writes back between the test and the save. */
  lemma {:induction false} StandbySavedIff(s: Race, run: seq<Move>, rate: U8)
    requires CopyInv(s) && s.sender == Sending && s.d.lastPingRate != RATE_STANDBY
    requires CanRace(s, run, rate) && RaceOn(s, run, rate).sender.Returned?
    ensures RaceOn(s, run, rate).d.lastPingRate == RATE_STANDBY <==> Poisoned(s, run, rate)
  {
    SendResult(s, run, rate);
  }

  /** A send of standby leaves the rate to resume alone, unless a handler that took an active
      copy before the store writes it back between store and test, and no dummy does behind it;
      then that copy's rate, or standby, is saved instead. */
  lemma {:induction false} StandbySendKeepsRateIff(s: Race, run: seq<Move>)
    requires CopyInv(s) && s.sender == Sending
    requires CanRace(s, run, RATE_STANDBY) && RaceOn(s, run, RATE_STANDBY).sender.Returned?
    ensures var kept := !Revived(s, run, RATE_STANDBY) || Silenced(s, run, RATE_STANDBY);
            && (kept <==> RaceOn(s, run, RATE_STANDBY).sender == Returned(false))
            && RaceOn(s, run, RATE_STANDBY).d.lastPingRate
               == if kept then s.d.lastPingRate
                  else if Poisoned(s, run, RATE_STANDBY) then RATE_STANDBY
                  else RevivedRate(s, run, RATE_STANDBY)
  {
    SendResult(s, run, RATE_STANDBY);
    if Poisoned(s, run, RATE_STANDBY) {
      assert RaceOn(s, run, RATE_STANDBY).sender.saved;
    }
  }

  /** A dummy handled between the test and the save of any active rate: from then on `resume`
      asks for standby. */
  lemma {:induction false} DummyMakesResumeStandby(d: Driver, header: Header, rate: U8, whole: bool)
    requires rate != RATE_STANDBY
    ensures var s, run := Race(d, Sending, Idle), [Store, Test, Begin(Dummy(header)), End, Save];
            && CanRace(s, run, rate)
            && RequestedRate(RaceOn(s, run, rate).d, Resume(whole)) == RATE_STANDBY
  {
    var s := Race(d, Sending, Idle);
    var s2 := MoveOn(MoveOn(s, Store, rate), Test, rate);
    assert [Save][1..] == [];
    RaceTwo(s2, Begin(Dummy(header)), End, [Save], rate);
    RaceTwo(s, Store, Test, [Begin(Dummy(header)), End] + [Save], rate);
    assert [Store, Test] + ([Begin(Dummy(header)), End] + [Save]) == [Store, Test, Begin(Dummy(header)), End, Save];
  }

  // ---------------------------------------------------------------- any number of sends

  /** A call of the driver with the moves of both threads from its start to the start of the
      next call; the handler may be anywhere at either end. */
  datatype Call = Call(op: Op, run: seq<Move>)

  /** The sender reads the rate it asks for and sets out; a handler under way is early now. */
  function Enter(s: Race): Race {
    s.(sender := Sending, handler := if s.handler.Handling? then s.handler.(begun := Sending) else Idle)
  }

  /** A send that is cut short stops in front of the store. */
  predicate CanCall(s: Race, c: Call) {
    && !c.op.Message?
    && CanRace(Enter(s), c.run, RequestedRate(s.d, c.op))
    && var e := RaceOn(Enter(s), c.run, RequestedRate(s.d, c.op));
       if c.op.whole then e.sender.Returned? else e.sender == Sending
  }

  function AfterCall(s: Race, c: Call): Race
    requires CanCall(s, c)
  {
    RaceOn(Enter(s), c.run, RequestedRate(s.d, c.op))
  }

  predicate CanCalls(s: Race, cs: seq<Call>)
    decreases |cs|
  {
    cs == [] || (CanCall(s, cs[0]) && CanCalls(AfterCall(s, cs[0]), cs[1..]))
  }

  function AfterCalls(s: Race, cs: seq<Call>): Race
    requires CanCalls(s, cs)
    decreases |cs|
  {
    if cs == [] then s else AfterCalls(AfterCall(s, cs[0]), cs[1..])
  }

  ghost predicate EachCall(p: (Race, Call) -> bool, s: Race, cs: seq<Call>)
    requires CanCalls(s, cs)
    decreases |cs|
  {
    cs == [] || (p(s, cs[0]) && EachCall(p, AfterCall(s, cs[0]), cs[1..]))
  }

  /** A dummy's copy is a standby copy. */
  predicate DummyInv(s: Race) {
    s.handler.Handling? && s.handler.m.Dummy? ==> s.handler.copy.pingRate == RATE_STANDBY
  }

  lemma {:induction false} RunKeepsCopies(s: Race, run: seq<Move>, rate: U8)
    requires CopyInv(s) && CanRace(s, run, rate)
    ensures CopyInv(RaceOn(s, run, rate))
    ensures RaceOn(s, run, rate).sender == Sending ==> RaceOn(s, run, rate).d.lastPingRate == s.d.lastPingRate
    decreases |run|
  {
    hide CopyInv;
    if run != [] {
      CopyStep(s, run[0], rate);
      RunKeepsCopies(MoveOn(s, run[0], rate), run[1..], rate);
      if run[0].Store? || run[0].Test? || run[0].Save? {
        NeverBackToSending(MoveOn(s, run[0], rate), run[1..], rate);
      }
    }
  }

  lemma {:induction false} NeverBackToSending(s: Race, run: seq<Move>, rate: U8)
    requires s.sender != Sending && CanRace(s, run, rate)
    ensures RaceOn(s, run, rate).sender != Sending
    decreases |run|
  {
    if run != [] {
      NeverBackToSending(MoveOn(s, run[0], rate), run[1..], rate);
    }
  }

  lemma CallStart(s: Race)
    requires DummyInv(s)
    ensures CopyInv(Enter(s)) && Enter(s).sender == Sending && Enter(s).d == s.d
  {
  }

  lemma CallKeepsCopies(s: Race, c: Call)
    requires DummyInv(s) && CanCall(s, c)
    ensures DummyInv(AfterCall(s, c))
    ensures !c.op.whole ==> AfterCall(s, c).d.lastPingRate == s.d.lastPingRate
  {
    hide RaceOn, CanRace;
    CallStart(s);
    RunKeepsCopies(Enter(s), c.run, RequestedRate(s.d, c.op));
  }

  /** In this call no standby copy is written back between test and save. */
  predicate NotPoisoned(s: Race, c: Call) {
    CanCall(s, c) ==> !c.op.whole || !Poisoned(Enter(s), c.run, RequestedRate(s.d, c.op))
  }

  ghost predicate NeverStandby(s: Race, cs: seq<Call>)
    requires CanCalls(s, cs)
    decreases |cs|
  {
    s.d.lastPingRate != RATE_STANDBY && (cs == [] || NeverStandby(AfterCall(s, cs[0]), cs[1..]))
  }

  /** Over every interleaving of any sends, standbys, resumes and connects with any messages:
      the rate to resume is never standby if and only if no standby copy is ever written back
      between the test and the save of a send. */
  lemma {:induction false} NeverStandbyIff(s: Race, cs: seq<Call>)
    requires DummyInv(s) && s.d.lastPingRate != RATE_STANDBY && CanCalls(s, cs)
    ensures NeverStandby(s, cs) <==> EachCall(NotPoisoned, s, cs)
    decreases |cs|
  {
    hide CanCall, AfterCall, NotPoisoned, DummyInv;
    if cs != [] {
      CallKeepsCopies(s, cs[0]);
      CallStandbyIff(s, cs[0]);
      if NotPoisoned(s, cs[0]) {
        NeverStandbyIff(AfterCall(s, cs[0]), cs[1..]);
      }
    }
  }

  lemma CallStandbyIff(s: Race, c: Call)
    requires DummyInv(s) && s.d.lastPingRate != RATE_STANDBY && CanCall(s, c)
    ensures AfterCall(s, c).d.lastPingRate != RATE_STANDBY <==> NotPoisoned(s, c)
  {
    hide RaceOn, CanRace, Poisoned, CopyInv;
    CallStart(s);
    if c.op.whole {
      StandbySavedIff(Enter(s), c.run, RequestedRate(s.d, c.op));
    } else {
      CallKeepsCopies(s, c);
    }
  }

  /** In this call the handlers stay out of the sender's way: nothing harmful comes in between
      store and save of an active rate, nothing active between store and test of standby. */
  predicate Clean(s: Race, c: Call) {
    CanCall(s, c) && c.op.whole ==>
      var rate := RequestedRate(s.d, c.op);
      if rate == RATE_STANDBY then !Revived(Enter(s), c.run, rate) || Silenced(Enter(s), c.run, rate)
      else !Disturbed(Enter(s), c.run, rate)
  }

  function RatesOf(s: Race, cs: seq<Call>): seq<U8>
    requires CanCalls(s, cs)
    decreases |cs|
  {
    if cs == [] then []
    else (if cs[0].op.whole then [RequestedRate(s.d, cs[0].op)] else []) + RatesOf(AfterCall(s, cs[0]), cs[1..])
  }

  lemma CleanCall(s: Race, c: Call)
    requires DummyInv(s) && CanCall(s, c) && Clean(s, c)
    ensures var rate := RequestedRate(s.d, c.op);
            AfterCall(s, c).d.lastPingRate == if c.op.whole && rate != RATE_STANDBY then rate else s.d.lastPingRate
  {
    hide RaceOn, CanRace, Revived, Silenced, Disturbed, CopyInv;
    CallStart(s);
    var rate := RequestedRate(s.d, c.op);
    if !c.op.whole {
      CallKeepsCopies(s, c);
    } else if rate == RATE_STANDBY {
      StandbySendKeepsRateIff(Enter(s), c.run);
    } else {
      RateSavedIff(Enter(s), c.run, rate);
    }
  }

  /** Over every interleaving in which that is so the rate to resume is, as for operations one
      after the other, the last one sent whole that was not standby; so a resume asks for it. */
  lemma {:induction false} CleanCallsResumeLastActive(s: Race, cs: seq<Call>, whole: bool)
    requires DummyInv(s) && CanCalls(s, cs) && EachCall(Clean, s, cs)
    ensures RequestedRate(AfterCalls(s, cs).d, Resume(whole)) == LastActive(s.d.lastPingRate, RatesOf(s, cs))
    decreases |cs|
  {
    hide CanRace, RaceOn, AfterCall, Clean, DummyInv, LastActive;
    if cs == [] {
      NoRates(s.d.lastPingRate);
    } else {
      var t := AfterCall(s, cs[0]);
      CallKeepsCopies(s, cs[0]);
      CleanCall(s, cs[0]);
      CleanCallsResumeLastActive(t, cs[1..], whole);
      var rest := RatesOf(t, cs[1..]);
      if cs[0].op.whole {
        LastActiveFront(s.d.lastPingRate, RequestedRate(s.d, cs[0].op), rest);
      } else {
        assert [] + rest == rest;
      }
    }
  }

  lemma {:induction false} NoRates(before: U8)
    ensures LastActive(before, []) == before
  {
  }
}
