/** Starting and stopping a recording through the callback table of the messages, as the
    Python handle does. */
module RecorderHandle {
  import opened Bytes
  import opened OculusMessage
  import opened LogFormat
  import opened CallbackTable
  import LogResults
  import LogTheorems
  import LogWriter

  /** Whose message callback it is: the handle's recorder, or somebody else's. */
  datatype Owner = ToRecorder | Other(tag: nat)

  datatype Handle = Handle(recording: bool, id: int, table: map<int, Owner>) {
    /** `recorder_start`: nothing while recording, an exception if the file cannot be opened. */
    function Start(available: bool): Handle {
      if recording || !available then this
      else
        var newId := FreshId(table.Keys);
        Handle(true, newId, table[newId := ToRecorder])
    }

    /** `recorder_stop`: the identifier is kept, and 0 is never removed. */
    function Stop(): Handle {
      if id > 0 then Handle(false, id, table - {id}) else this.(recording := false)
    }

    /** The recorder's entries in the table: a dispatched message is passed to the recorder
        once for each. */
    function Taps(): set<int> {
      set i | i in table && table[i] == ToRecorder
    }
  }

  type I32 = n: int | -0x8000_0000 <= n < 0x8000_0000

  class PythonHandle {
    const recorder: LogWriter.Recorder
    const messageCallbacks: CallbackQueue<Owner>
    var recorderCallbackId: I32

    function State(): Handle
      reads this, recorder, messageCallbacks
    {
      Handle(recorder.file.isOpen, recorderCallbackId, messageCallbacks.callbacks)
    }

    constructor (toSeconds: TimeStamp -> Double, garbage: bool)
      ensures State() == Handle(false, -1, map[])
      ensures fresh(recorder) && fresh(messageCallbacks)
    {
      recorder := new LogWriter.Recorder(toSeconds);
      messageCallbacks := new CallbackQueue<Owner>(garbage);
      recorderCallbackId := -1;
    }

    /** The bound on the table keeps the conversion of the identifier to int from wrapping. */
    method RecorderStart(available: bool, now: Double) returns (ok: bool)
      requires |messageCallbacks.callbacks| < 0x4000_0000
      modifies this, recorder, messageCallbacks
      ensures State() == old(State()).Start(available)
      ensures ok <==> old(recorder.file.isOpen) || available
      ensures recorder.file == Started(old(recorder.file), available, now)
    {
      if recorder.file.isOpen {
        return true;
      }
      ok := recorder.Open(available, now);
      if !ok {
        return false;
      }
      recorderCallbackId := messageCallbacks.AddCallback(ToRecorder);
    }

    method RecorderStop()
      modifies recorder, messageCallbacks
      ensures State() == old(State()).Stop()
      ensures recorder.file == old(recorder.file).Close()
    {
      recorder.Close();
      if recorderCallbackId > 0 {
        var removed := messageCallbacks.RemoveCallback(recorderCallbackId);
      }
    }

    method RecorderCallback(m: Message)
      modifies recorder
      ensures recorder.file == Dispatch(old(recorder.file), m.Value(), 1, recorder.toSeconds)
    {
      var size := recorder.Write(m);
    }
  }

  // ---------------------------------------------------------------- runs

  datatype Event =
    | Start(available: bool)
    | Stop
    | Add(tag: nat)
    | Remove(id: int)

  function Step(h: Handle, e: Event): Handle {
    match e
    case Start(available) => h.Start(available)
    case Stop => h.Stop()
    case Add(tag) => h.(table := h.table[FreshId(h.table.Keys) := Other(tag)])
    case Remove(id) => h.(table := h.table - {id})
  }

  function Run(h: Handle, es: seq<Event>): Handle
    decreases |es|
  {
    if es == [] then h else Run(Step(h, es[0]), es[1..])
  }

  /** Each start finds some other message callback in place, each stop ends a recording, and
      nobody removes an entry of the recorder. */
  predicate Proper(h: Handle, e: Event) {
    match e
    case Start(available) => !h.recording && available ==> h.table != map[]
    case Stop => h.recording
    case Add(_) => true
    case Remove(id) => id in h.table ==> h.table[id].Other?
  }

  predicate AllProper(h: Handle, es: seq<Event>)
    decreases |es|
  {
    es == [] || (Proper(h, es[0]) && AllProper(Step(h, es[0]), es[1..]))
  }

  /** One tap while recording, none otherwise. */
  ghost predicate TapInv(h: Handle) {
    h.Taps() == if h.recording then {h.id} else {}
  }

  ghost predicate Inv(h: Handle) {
    TapInv(h) && (h.recording ==> h.id > 0)
  }

  /** Identifier 0 is given out exactly to the first entry of an empty table. */
  lemma ZeroIffEmpty(table: map<int, Owner>)
    ensures FreshId(table.Keys) == 0 <==> table == map[]
  {
    if table != map[] {
      assert table.Keys != {};
    }
  }

  lemma StepInv(h: Handle, e: Event)
    requires Inv(h) && Proper(h, e)
    ensures Inv(Step(h, e))
  {
    ZeroIffEmpty(h.table);
    var fresh' := FreshId(h.table.Keys);
    assert fresh' !in h.table;
    var h' := Step(h, e);
    forall i ensures i in h'.Taps() <==> h'.recording && i == h'.id {
      assert i in h.Taps() <==> h.recording && i == h.id;
    }
  }

  /** Over every proper run each message dispatched while recording is written once, and none
      is passed to the recorder otherwise. */
  lemma {:induction false} OneTapWhileRecording(h: Handle, es: seq<Event>)
    requires Inv(h) && AllProper(h, es)
    ensures Inv(Run(h, es)) && |Run(h, es).Taps()| == if Run(h, es).recording then 1 else 0
    decreases |es|
  {
    hide Step, Proper;
    if es != [] {
      StepInv(h, es[0]);
      OneTapWhileRecording(Step(h, es[0]), es[1..]);
    }
  }

  /** The exact condition: a start and stop on a clean handle leaves the table as it was iff
      the table was not empty. The recorder's own entry stays behind when it got identifier 0. */
  lemma StopUndoesStartIffOthersPresent(h: Handle)
    requires !h.recording && h.Taps() == {}
    ensures h.Start(true).Stop().table == h.table <==> h.table != map[]
    ensures h.table == map[] ==> h.Start(true).Stop().Taps() == {0}
  {
    ZeroIffEmpty(h.table);
    var id := FreshId(h.table.Keys);
    var s := h.Start(true);
    assert id !in h.table;
    if h.table == map[] {
      assert s.Stop().table == map[0 := ToRecorder];
      assert 0 in s.Stop().Taps();
    } else {
      assert s.Stop().table == h.table;
    }
  }

  /** ... so that the second recording of a handle without other callbacks has two taps, and
      writes every message twice. */
  lemma SecondRecordingWritesTwice()
    ensures var h := Run(Handle(false, -1, map[]), [Start(true), Stop, Start(true)]);
            h.recording && |h.Taps()| == 2
  {
    var h0 := Handle(false, -1, map[]);
    ZeroIffEmpty(h0.table);
    var h1 := Step(h0, Start(true));
    assert h1.table == map[0 := ToRecorder];
    var h2 := Step(h1, Stop);
    var h3 := Step(h2, Start(true));
    var id := FreshId(h2.table.Keys);
    assert h3.table == map[0 := ToRecorder, id := ToRecorder] && id != 0;
    assert h3.Taps() == {0, id};
    Three(h0, Start(true), Stop, Start(true));
  }

  lemma {:induction false} Three(h: Handle, a: Event, b: Event, c: Event)
    ensures Run(h, [a, b, c]) == Step(Step(Step(h, a), b), c)
  {
    assert [a, b, c][1..] == [b, c] && [b, c][1..] == [c] && [c][1..] == [];
    var h' := Step(Step(h, a), b);
    assert Run(h', [c]) == Step(h', c);
  }

  /** A stop without a recording is not harmless either: the identifier it remembers may have
      been given to somebody else, whose callback it then removes. */
  lemma StopTwiceRemovesAnothersCallback(h: Handle, tag: nat)
    requires !h.recording && h.Taps() == {} && h.table != map[]
    ensures var stopped := h.Start(true).Stop();
            var added := Step(stopped, Add(tag));
            && added.table[added.id] == Other(tag) && added.id in added.table && !added.recording
            && added.Stop().table == h.table
  {
    ZeroIffEmpty(h.table);
    StopUndoesStartIffOthersPresent(h);
  }

  /** Exactly when a stop takes somebody else's callback away: it comes while nothing is being
      recorded, and the identifier it remembers is positive and in use. */
  lemma StopRemovesOthersIff(h: Handle)
    requires Inv(h)
    ensures (exists i :: i in h.table && h.table[i].Other? && i !in h.Stop().table)
       <==> !h.recording && h.id > 0 && h.id in h.table
  {
    assert forall i :: i in h.Taps() <==> h.recording && i == h.id;
    assert h.id in h.table ==> (h.table[h.id].Other? <==> h.id !in h.Taps());
  }

  // ---------------------------------------------------------------- what reaches the file

  /** A dispatch passes the message to the recorder once per tap. */
  function Dispatch(file: LogWriter.OutFile, m: Snapshot, taps: nat, toSeconds: TimeStamp -> Double): LogWriter.OutFile
    decreases taps
  {
    if taps == 0 then file
    else Dispatch(if file.isOpen then file.Write(LogFormat.StoreRecords(LogWriter.RecordsOf(m, toSeconds))) else file,
                  m, taps - 1, toSeconds)
  }

  /** The recorder's entries among these. */
  function TapsAmong(order: seq<CallbackId>, table: map<CallbackId, Owner>): set<int>
    requires forall id :: id in order ==> id in table
  {
    set k | 0 <= k < |order| && table[order[k]] == ToRecorder :: order[k] as int
  }

  lemma {:induction false} CountTaps(order: seq<CallbackId>, table: map<CallbackId, Owner>)
    requires forall id :: id in order ==> id in table
    requires forall i, j :: 0 <= i < j < |order| ==> order[i] != order[j]
    ensures multiset(CallsIn(order, table))[ToRecorder] == |TapsAmong(order, table)|
    decreases |order|
  {
    if order != [] {
      var front, last := order[..|order| - 1], order[|order| - 1];
      CountTaps(front, table);
      assert CallsIn(order, table) == CallsIn(front, table) + [table[last]];
      assert TapsAmong(order, table) == TapsAmong(front, table) + if table[last] == ToRecorder then {last} else {};
    }
  }

  /** A dispatch by the callback queue calls the recorder once per tap, in whatever order it
      goes through the table. */
  lemma DispatchCallsEachTap(order: seq<CallbackId>, table: map<CallbackId, Owner>, recording: bool, id: int)
    requires Enumerates(order, table)
    ensures multiset(CallsIn(order, table))[ToRecorder] == |Handle(recording, id, table).Taps()|
  {
    CountTaps(order, table);
    assert TapsAmong(order, table) == Handle(recording, id, table).Taps();
  }

  function Repeated(bytes: seq<Byte>, n: nat): seq<Byte> {
    if n == 0 then [] else bytes + Repeated(bytes, n - 1)
  }

  /** A good open file gets the records of a message as often as there are taps. */
  lemma {:induction false} WrittenOncePerTap(file: LogWriter.OutFile, m: Snapshot, taps: nat,
                                             toSeconds: TimeStamp -> Double)
    requires file.isOpen && !file.fail
    ensures Dispatch(file, m, taps, toSeconds)
         == file.(contents := file.contents + Repeated(StoreRecords(LogWriter.RecordsOf(m, toSeconds)), taps))
    decreases taps
  {
    hide StoreItem, StoreStamp, LogWriter.RecordsOf, StoreRecords;
    var bytes := StoreRecords(LogWriter.RecordsOf(m, toSeconds));
    if taps == 0 {
      assert file.contents + [] == file.contents;
    } else {
      WrittenOncePerTap(file.Write(bytes), m, taps - 1, toSeconds);
      LogWriter.WriteTwice(file, bytes, Repeated(bytes, taps - 1));
    }
  }

  // ---------------------------------------------------------------- whole sessions

  /** What a start does to the recorder's stream. */
  function Started(file: LogWriter.OutFile, available: bool, now: Double): LogWriter.OutFile {
    if file.isOpen then file
    else if available then LogWriter.OutFile(true, false, StoreLogHeader(LogWriter.FileHeader(now)))
    else file.(fail := true)
  }

  /** A handle in use, with messages arriving in between. */
  datatype Action = Use(event: Event, now: Double) | Arrives(m: Snapshot)

  datatype Session = Session(handle: Handle, file: LogWriter.OutFile)

  function Act(s: Session, a: Action, toSeconds: TimeStamp -> Double): Session {
    match a
    case Use(e, now) =>
      Session(Step(s.handle, e),
              match e
              case Start(available) => Started(s.file, available, now)
              case Stop => s.file.Close()
              case _ => s.file)
    case Arrives(m) => s.(file := Dispatch(s.file, m, |s.handle.Taps()|, toSeconds))
  }

  function ActAll(s: Session, actions: seq<Action>, toSeconds: TimeStamp -> Double): Session
    decreases |actions|
  {
    if actions == [] then s else ActAll(Act(s, actions[0], toSeconds), actions[1..], toSeconds)
  }

  function Arrived(actions: seq<Action>): seq<Snapshot> {
    if actions == [] then []
    else (if actions[0].Arrives? then [actions[0].m] else []) + Arrived(actions[1..])
  }

  /** The recording goes on; starting it again is allowed, and does nothing. */
  predicate Undisturbed(h: Handle, actions: seq<Action>)
    decreases |actions|
  {
    actions == [] ||
    match actions[0]
    case Use(e, _) => !e.Stop? && Proper(h, e) && Undisturbed(Step(h, e), actions[1..])
    case Arrives(_) => Undisturbed(h, actions[1..])
  }

  /** While recording, whatever users add, remove and start meanwhile, the file is at every
      moment the log of the messages that have arrived. */
  lemma {:induction false} FileIsLogOfArrivals(s: Session, actions: seq<Action>, ms: seq<Snapshot>, now: Double,
                                               toSeconds: TimeStamp -> Double)
    requires Inv(s.handle) && s.handle.recording && Undisturbed(s.handle, actions)
    requires s.file == LogWriter.OutFile(true, false, LogWriter.Log(ms, now, toSeconds))
    ensures var e := ActAll(s, actions, toSeconds);
            && Inv(e.handle) && e.handle.recording
            && e.file == LogWriter.OutFile(true, false, LogWriter.Log(ms + Arrived(actions), now, toSeconds))
    decreases |actions|
  {
    hide LogWriter.Log, LogWriter.RecordsOf, StoreRecords, Step, Proper, Dispatch;
    if actions == [] {
      assert ms + [] == ms;
    } else {
      var rest := Arrived(actions[1..]);
      var next := Act(s, actions[0], toSeconds);
      match actions[0]
      case Use(e, _) =>
        StepInv(s.handle, e);
        StaysRecording(s.handle, e);
        FileIsLogOfArrivals(next, actions[1..], ms, now, toSeconds);
        assert [] + rest == rest;
      case Arrives(m) =>
        WrittenOncePerTap(s.file, m, 1, toSeconds);
        assert |s.handle.Taps()| == 1;
        OneRepeated(StoreRecords(LogWriter.RecordsOf(m, toSeconds)));
        LogWriter.LogGrows(ms, m, now, toSeconds);
        FileIsLogOfArrivals(next, actions[1..], ms + [m], now, toSeconds);
        assert ms + [m] + rest == ms + ([m] + rest);
    }
  }

  lemma {:induction false} OneRepeated(bytes: seq<Byte>)
    ensures Repeated(bytes, 1) == bytes
  {
    assert bytes + Repeated(bytes, 0) == bytes;
  }

  lemma StaysRecording(h: Handle, e: Event)
    requires h.recording && !e.Stop?
    ensures Step(h, e).recording
  {
  }

  /** From start to stop: the file that a recording leaves is read back as the messages that
      arrived in between, exactly and in order, and the handle is clean again. */
  lemma {:induction false} SessionReadsBack(s: Session, now: Double, later: Double, actions: seq<Action>, m: Snapshot,
                                            n: nat, toSeconds: TimeStamp -> Double, fallback: Double -> I64)
    requires Inv(s.handle) && !s.handle.recording && s.handle.table != map[] && !s.file.isOpen
    requires Undisturbed(s.handle.Start(true), actions)
    requires forall x :: x in Arrived(actions) ==> LogResults.Recordable(x)
    ensures var first := Act(s, Use(Start(true), now), toSeconds);
            var e := Act(ActAll(first, actions, toSeconds), Use(Stop, later), toSeconds);
            && !e.handle.recording && Inv(e.handle) && !e.file.isOpen
            && LogTheorems.ReadMany(LogTheorems.Lookahead(e.file.contents, LOG_HEADER_SIZE, m), n, fallback)
               == LogTheorems.Padded(LogResults.Delivered(Arrived(actions)), n)
  {
    hide StoreLogHeader, LogTheorems.ReadMany, LogTheorems.Lookahead, LogTheorems.Padded, LogResults.Delivered;
    var first := Act(s, Use(Start(true), now), toSeconds);
    StepInv(s.handle, Start(true));
    assert LogWriter.Log([], now, toSeconds) == StoreLogHeader(LogWriter.FileHeader(now));
    FileIsLogOfArrivals(first, actions, [], now, toSeconds);
    assert [] + Arrived(actions) == Arrived(actions);
    StepInv(ActAll(first, actions, toSeconds).handle, Stop);
    LogResults.RoundTrip(Arrived(actions), now, m, n, toSeconds, fallback);
  }
}
