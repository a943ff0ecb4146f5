/** The log writer. */
module LogWriter {
  import opened Basics
  import opened Bytes
  import opened OculusMessage
  import opened LogFormat

  /** A std::ofstream in binary mode together with the file behind it. */
  datatype OutFile = OutFile(isOpen: bool, fail: bool, contents: seq<Byte>) {
    /** Opening an open stream only sets its fail bit; a successful open truncates the
        file and clears the flags. */
    function Open(available: bool): OutFile {
      if isOpen || !available then this.(fail := true) else OutFile(true, false, [])
    }

    function Write(bytes: seq<Byte>): OutFile {
      if isOpen && !fail then this.(contents := contents + bytes) else this.(fail := true)
    }

    function Close(): OutFile {
      if isOpen then this.(isOpen := false) else this.(fail := true)
    }
  }

  function FileHeader(now: Double): (h: LogHeader)
    ensures |h.source| == 16
  {
    LogHeader(FILE_MAGIC, LOG_HEADER_SIZE, SOURCE_ID, 1, 0, 0, now)
  }

  /** What a user does with a recorder. */
  datatype Call = Opening(available: bool, now: Double) | Writing(m: Snapshot) | Closing

  /** What a call does to the stream. */
  function Use(file: OutFile, call: Call, toSeconds: TimeStamp -> Double): OutFile {
    match call
    case Opening(available, now) =>
      if file.Open(available).isOpen then file.Open(available).Write(StoreLogHeader(FileHeader(now)))
      else file.Open(available)
    case Writing(m) => if file.isOpen then file.Write(StoreRecords(RecordsOf(m, toSeconds))) else file
    case Closing => file.Close()
  }

  /** The two records that stand for one message. The size is computed in size_t but
      stored in a uint32_t, and only that many bytes are written. */
  function SonarRecord(m: Snapshot, toSeconds: TimeStamp -> Double): (r: Record)
    ensures r.Complete()
  {
    var size := |m.data| % TWO_32;
    var date := toSeconds(FromSonarStamp(m.timestamp));
    Record(LogItem(ITEM_MAGIC, LOG_ITEM_SIZE, RT_OCULUS_SONAR, 0, date, 0, size, size), m.data[..size])
  }

  function StampRecord(m: Snapshot, toSeconds: TimeStamp -> Double): (r: Record)
    ensures r.Complete()
  {
    var stamp := FromSonarStamp(m.timestamp);
    Record(LogItem(ITEM_MAGIC, LOG_ITEM_SIZE, RT_OCULUS_SONAR_STAMP, 0, toSeconds(stamp), 0, STAMP_SIZE, STAMP_SIZE),
           StoreStamp(stamp))
  }

  function RecordsOf(m: Snapshot, toSeconds: TimeStamp -> Double): (rs: seq<Record>)
    ensures |rs| == 2
  {
    [SonarRecord(m, toSeconds), StampRecord(m, toSeconds)]
  }

  function AllRecords(ms: seq<Snapshot>, toSeconds: TimeStamp -> Double): seq<Record> {
    if ms == [] then [] else RecordsOf(ms[0], toSeconds) + AllRecords(ms[1..], toSeconds)
  }

  /** What `write(message)` returns on an open recorder. */
  function RecordedSize(m: Snapshot): nat {
    LOG_ITEM_SIZE + |m.data| % TWO_32 + LOG_ITEM_SIZE + STAMP_SIZE
  }

  function RecordedSizes(ms: seq<Snapshot>): nat {
    if ms == [] then 0 else RecordedSize(ms[0]) + RecordedSizes(ms[1..])
  }

  lemma StoreTwo(a: Record, b: Record)
    ensures StoreRecords([a, b]) == StoreRecord(a) + StoreRecord(b)
  {
    assert [a, b][1..] == [b];
    assert [b][1..] == [];
    assert StoreRecords([b]) == StoreRecord(b);
  }

  /** The stream does not show where one write ends and the next begins. */
  lemma WriteTwice(file: OutFile, a: seq<Byte>, b: seq<Byte>)
    ensures file.Write(a).Write(b) == file.Write(a + b)
  {
    assert file.contents + a + b == file.contents + (a + b);
  }

  class Recorder {
    var file: OutFile
    const toSeconds: TimeStamp -> Double   // to_seconds<double>, left abstract

    constructor (toSeconds: TimeStamp -> Double)
      ensures file == OutFile(false, false, []) && this.toSeconds == toSeconds
    {
      file := OutFile(false, false, []);
      this.toSeconds := toSeconds;
    }

    /** `available` tells whether the file system lets the file be opened and `now` is the
        wall-clock time. False stands for the exception. The `force` argument of the
        original is never looked at. */
    method Open(available: bool, now: Double) returns (ok: bool)
      modifies this
      ensures ok <==> (old(file.isOpen) || available)
      ensures ok && !old(file.isOpen) ==> file == OutFile(true, false, StoreLogHeader(FileHeader(now)))
      ensures old(file.isOpen) || !available ==> file == old(file).(fail := true)
      ensures file == Use(old(file), Opening(available, now), toSeconds)
    {
      file := file.Open(available);
      if !file.isOpen {
        return false;
      }
      file := file.Write(StoreLogHeader(FileHeader(now)));
      return true;
    }

    method Close()
      modifies this
      ensures !file.isOpen && file.contents == old(file.contents)
      ensures file.fail <==> old(file.fail) || !old(file.isOpen)
      ensures file == Use(old(file), Closing, toSeconds)
    {
      file := file.Close();
    }

    method WriteItem(item: LogItem, data: seq<Byte>) returns (size: nat)
      requires |data| >= item.payloadSize
      modifies this
      ensures !old(file.isOpen) ==> size == 0 && file == old(file)
      ensures old(file.isOpen) ==>
        size == LOG_ITEM_SIZE + item.payloadSize
        && file == old(file).Write(StoreRecord(Record(item, data[..item.payloadSize])))
    {
      if !file.isOpen {
        return 0;
      }
      file := file.Write(StoreItem(item));
      file := file.Write(data[..item.payloadSize]);
      size := LOG_ITEM_SIZE + item.payloadSize;
      WriteTwice(old(file), StoreItem(item), data[..item.payloadSize]);
    }

    method Write(message: Message) returns (size: nat)
      modifies this
      ensures !old(file.isOpen) ==> size == 0 && file == old(file)
      ensures old(file.isOpen) ==>
        size == RecordedSize(message.Value())
        && file == old(file).Write(StoreRecords(RecordsOf(message.Value(), toSeconds)))
      ensures file == Use(old(file), Writing(message.Value()), toSeconds)
    {
      if !file.isOpen {
        return 0;
      }
      ghost var m := message.Value();
      var stamp := FromSonarStamp(message.timestamp);
      var originalSize: U32 := |message.data| % TWO_32;
      var date := toSeconds(stamp);
      var item := LogItem(ITEM_MAGIC, LOG_ITEM_SIZE, RT_OCULUS_SONAR, 0, date, 0, originalSize, originalSize);
      size := WriteItem(item, message.data);
      item := item.(kind := RT_OCULUS_SONAR_STAMP, originalSize := STAMP_SIZE, payloadSize := STAMP_SIZE);
      var size' := WriteItem(item, StoreStamp(stamp));
      size := size + size';

      StoreTwo(SonarRecord(m, toSeconds), StampRecord(m, toSeconds));
      assert StoreStamp(stamp)[..STAMP_SIZE] == StoreStamp(stamp);
      WriteTwice(old(file), StoreRecord(SonarRecord(m, toSeconds)), StoreRecord(StampRecord(m, toSeconds)));
    }
  }

  // ---------------------------------------------------------------- whole recordings

  function WriteAll(file: OutFile, ms: seq<Snapshot>, toSeconds: TimeStamp -> Double): OutFile
    decreases |ms|
  {
    if ms == [] then file else WriteAll(file.Write(StoreRecords(RecordsOf(ms[0], toSeconds))), ms[1..], toSeconds)
  }

  /** The log a recorder leaves behind: opened, every message of `ms` written, closed. */
  function Log(ms: seq<Snapshot>, now: Double, toSeconds: TimeStamp -> Double): seq<Byte> {
    StoreLogHeader(FileHeader(now)) + StoreRecords(AllRecords(ms, toSeconds))
  }

  lemma {:induction false} RecordedBytes(file: OutFile, ms: seq<Snapshot>, toSeconds: TimeStamp -> Double)
    requires file.isOpen && !file.fail
    ensures WriteAll(file, ms, toSeconds)
         == file.(contents := file.contents + StoreRecords(AllRecords(ms, toSeconds)))
    ensures |StoreRecords(AllRecords(ms, toSeconds))| == RecordedSizes(ms)
    decreases |ms|
  {
    if ms == [] {
      assert file.contents + [] == file.contents;
    } else {
      var head, tail := RecordsOf(ms[0], toSeconds), AllRecords(ms[1..], toSeconds);
      RecordedBytes(file.Write(StoreRecords(head)), ms[1..], toSeconds);
      StoreRecordsAppend(head, tail);
      StoreTwo(head[0], head[1]);
      WriteTwice(file, StoreRecords(head), StoreRecords(tail));
    }
  }

  /** A recording that starts on a closed recorder leaves exactly the log, and its length is
      the file header plus the sizes the writes returned. */
  lemma {:induction false} RecordingLeavesLog(file: OutFile, ms: seq<Snapshot>, now: Double,
                                              toSeconds: TimeStamp -> Double)
    requires !file.isOpen
    ensures var started := file.Open(true).Write(StoreLogHeader(FileHeader(now)));
            var closed := WriteAll(started, ms, toSeconds).Close();
            && closed == OutFile(false, false, Log(ms, now, toSeconds))
            && |closed.contents| == LOG_HEADER_SIZE + RecordedSizes(ms)
  {
    var started := file.Open(true).Write(StoreLogHeader(FileHeader(now)));
    assert [] + StoreLogHeader(FileHeader(now)) == StoreLogHeader(FileHeader(now));
    RecordedBytes(started, ms, toSeconds);
  }

  // ---------------------------------------------------------------- the bytes of a log

  /** The head of every recording, byte by byte: magic number and size, "Oculus" and its
      terminator, version 1, no encryption, no key, and the time. */
  lemma HeaderBytes(ms: seq<Snapshot>, now: Double, toSeconds: TimeStamp -> Double)
    ensures var d := Log(ms, now, toSeconds);
            && |d| >= 48
            && d[..8] == [0x44, 0x33, 0x22, 0x11, 48, 0, 0, 0]
            && d[8..24] == [79, 99, 117, 108, 117, 115, 0, 0, 0, 0, 0, 0, 0, 0, 0, 0]
            && d[24..40] == [1, 0, 0, 0, 0, 0, 0, 0, 0, 0, 0, 0, 0, 0, 0, 0]
            && d[40..48] == now
  {
    hide AllRecords, StoreRecords;
    var h := StoreLogHeader(FileHeader(now));
    HeadOf(h, StoreRecords(AllRecords(ms, toSeconds)));
    assert Zeros(9) == [0, 0, 0, 0, 0, 0, 0, 0, 0] && Zeros(4) == [0, 0, 0, 0];
    assert SOURCE_ID == [79, 99, 117, 108, 117, 115, 0, 0, 0, 0, 0, 0, 0, 0, 0, 0];
  }

  lemma HeadOf(h: seq<Byte>, rest: seq<Byte>)
    requires |h| == LOG_HEADER_SIZE
    ensures (h + rest)[..8] == h[..8] && (h + rest)[8..24] == h[8..24]
    ensures (h + rest)[24..40] == h[24..40] && (h + rest)[40..48] == h[40..48]
  {
  }

  /** Both items of a message: magic number and size, kind, no version and no compression, the
      date of the message, and the size of the payload twice. */
  lemma ItemsOf(m: Snapshot, toSeconds: TimeStamp -> Double)
    ensures var son, stamp := SonarRecord(m, toSeconds).item, StampRecord(m, toSeconds).item;
            && StoreItem(son)[..12] == [0xdd, 0xcc, 0xbb, 0xaa, 40, 0, 0, 0, 10, 0, 0, 0]
            && StoreItem(stamp)[..12] == [0xdd, 0xcc, 0xbb, 0xaa, 40, 0, 0, 0, 0xf2, 3, 0, 0]
            && son.time == stamp.time == toSeconds(FromSonarStamp(m.timestamp))
            && son.compression == stamp.compression == 0
            && son.originalSize == son.payloadSize == |m.data| % TWO_32
            && stamp.originalSize == stamp.payloadSize == 16
  {
    assert Store32(ITEM_MAGIC) == [0xdd, 0xcc, 0xbb, 0xaa] && Store32(40) == [40, 0, 0, 0];
    assert Store16(10) == [10, 0] && Store16(1010) == [0xf2, 3] && Store16(0) == [0, 0];
  }

  // ---------------------------------------------------------------- any use of a recorder

  function UseAll(file: OutFile, calls: seq<Call>, toSeconds: TimeStamp -> Double): OutFile
    decreases |calls|
  {
    if calls == [] then file
    else Use(UseAll(file, calls[..|calls| - 1], toSeconds), calls[|calls| - 1], toSeconds)
  }

  /** The answer of `is_open()` after the calls. */
  predicate IsOpen(calls: seq<Call>)
    decreases |calls|
  {
    calls != [] &&
    var front := calls[..|calls| - 1];
    match calls[|calls| - 1]
    case Opening(available, _) => available || IsOpen(front)
    case Writing(_) => IsOpen(front)
    case Closing => false
  }

  /** The last call, if it is an open that starts a log: on a closed recorder, of a file that
      is available. */
  predicate Starts(calls: seq<Call>) {
    calls != [] && calls[|calls| - 1].Opening? && calls[|calls| - 1].available && !IsOpen(calls[..|calls| - 1])
  }

  /** The log that was started last: when, and the messages written to it since, each accepted
      with its full size. */
  function Accepted(calls: seq<Call>): Option<(Double, seq<Snapshot>)>
    decreases |calls|
  {
    if calls == [] then None
    else if Starts(calls) then Some((calls[|calls| - 1].now, []))
    else
      var front, last := calls[..|calls| - 1], calls[|calls| - 1];
      var before := Accepted(front);
      if last.Writing? && IsOpen(front) && before.Some? then Some((before.value.0, before.value.1 + [last.m]))
      else before
  }

  /** Since that start there was an open on the open recorder. */
  predicate Reopened(calls: seq<Call>)
    decreases |calls|
  {
    calls != [] && !Starts(calls) &&
    var front := calls[..|calls| - 1];
    (Reopened(front) || (calls[|calls| - 1].Opening? && IsOpen(front)))
  }

  /** ... and behind it a write on the open recorder. */
  predicate WrittenAfterReopen(calls: seq<Call>)
    decreases |calls|
  {
    calls != [] && !Starts(calls) &&
    var front := calls[..|calls| - 1];
    (WrittenAfterReopen(front) || (calls[|calls| - 1].Writing? && IsOpen(front) && Reopened(front)))
  }

  /** What is known of the stream after any calls; `kept` messages of the log are in the file. */
  predicate Holds(file: OutFile, calls: seq<Call>, kept: nat, toSeconds: TimeStamp -> Double) {
    && file.isOpen == IsOpen(calls)
    && (Accepted(calls).None? ==> file.contents == [] && !file.isOpen && !WrittenAfterReopen(calls))
    && (Accepted(calls).Some? ==>
          var (now, ms) := Accepted(calls).value;
          && kept <= |ms| && file.contents == Log(ms[..kept], now, toSeconds)
          && (file.isOpen ==> (file.fail <==> Reopened(calls)))
          && (kept < |ms| <==> WrittenAfterReopen(calls)))
  }

  lemma {:induction false} AnyUse(calls: seq<Call>, toSeconds: TimeStamp -> Double)
    returns (kept: nat)
    ensures Holds(UseAll(OutFile(false, false, []), calls, toSeconds), calls, kept, toSeconds)
    decreases |calls|
  {
    hide StoreLogHeader, StoreRecords, RecordsOf, AllRecords;
    if calls == [] {
      return 0;
    }
    var front, last := calls[..|calls| - 1], calls[|calls| - 1];
    kept := AnyUse(front, toSeconds);
    var file := UseAll(OutFile(false, false, []), front, toSeconds);
    if Starts(calls) {
      kept := 0;
      EmptyLog(last.now, toSeconds);
    } else if last.Writing? && IsOpen(front) {
      var (now, ms) := Accepted(front).value;
      assert (ms + [last.m])[..kept] == ms[..kept];
      if !Reopened(front) {
        assert kept == |ms| && ms[..kept] == ms by {
          NotYetLost(front);
        }
        LogGrows(ms, last.m, now, toSeconds);
        kept := kept + 1;
        assert (ms + [last.m])[..kept] == ms + [last.m];
      }
    }
  }

  lemma {:induction false} NotYetLost(calls: seq<Call>)
    requires !Reopened(calls)
    ensures !WrittenAfterReopen(calls)
    decreases |calls|
  {
    if calls != [] && !Starts(calls) {
      NotYetLost(calls[..|calls| - 1]);
    }
  }

  lemma EmptyLog(now: Double, toSeconds: TimeStamp -> Double)
    ensures Log([], now, toSeconds) == [] + StoreLogHeader(FileHeader(now))
  {
  }

  lemma {:induction false} AllRecordsAppend(ms: seq<Snapshot>, m: Snapshot, toSeconds: TimeStamp -> Double)
    ensures AllRecords(ms + [m], toSeconds) == AllRecords(ms, toSeconds) + RecordsOf(m, toSeconds)
    decreases |ms|
  {
    hide RecordsOf;
    if ms == [] {
      assert [m][1..] == [];
    } else {
      assert (ms + [m])[1..] == ms[1..] + [m];
      AllRecordsAppend(ms[1..], m, toSeconds);
    }
  }

  lemma LogGrows(ms: seq<Snapshot>, m: Snapshot, now: Double, toSeconds: TimeStamp -> Double)
    ensures Log(ms + [m], now, toSeconds) == Log(ms, now, toSeconds) + StoreRecords(RecordsOf(m, toSeconds))
  {
    hide RecordsOf, AllRecords, StoreLogHeader, StoreRecords;
    AllRecordsAppend(ms, m, toSeconds);
    StoreRecordsAppend(AllRecords(ms, toSeconds), RecordsOf(m, toSeconds));
  }

  /** A log with messages missing at its end is shorter. */
  lemma {:induction false} LogLength(ms: seq<Snapshot>, k: nat, now: Double, toSeconds: TimeStamp -> Double)
    requires k <= |ms|
    ensures |Log(ms[..k], now, toSeconds)| + 96 * (|ms| - k) <= |Log(ms, now, toSeconds)|
    decreases |ms|
  {
    hide RecordsOf, AllRecords, StoreLogHeader, StoreRecords;
    if k == |ms| {
      assert ms[..k] == ms;
    } else {
      var front, last := ms[..|ms| - 1], ms[|ms| - 1];
      assert ms == front + [last] && front[..k] == ms[..k];
      LogLength(front, k, now, toSeconds);
      LogGrows(front, last, now, toSeconds);
      StoreTwo(SonarRecord(last, toSeconds), StampRecord(last, toSeconds));
      TwoRecords(last, toSeconds);
    }
  }

  lemma TwoRecords(m: Snapshot, toSeconds: TimeStamp -> Double)
    ensures |StoreRecords(RecordsOf(m, toSeconds))| >= 96
  {
    hide StoreRecord;
    StoreTwo(SonarRecord(m, toSeconds), StampRecord(m, toSeconds));
  }

  /** Over every sequence of opens, writes and closes of a new recorder: the file is the log of
      the messages accepted since the last effective open if and only if none of them was
      written behind an open of the open recorder. Otherwise these are missing, although each
      write returned its full size. */
  lemma {:induction false} FileIsLogIffNotReopened(calls: seq<Call>, toSeconds: TimeStamp -> Double)
    requires Accepted(calls).Some?
    ensures var (now, ms) := Accepted(calls).value;
            (UseAll(OutFile(false, false, []), calls, toSeconds).contents == Log(ms, now, toSeconds)
             <==> !WrittenAfterReopen(calls))
  {
    hide UseAll, Log, WrittenAfterReopen, Accepted;
    var kept := AnyUse(calls, toSeconds);
    var (now, ms) := Accepted(calls).value;
    LogLength(ms, kept, now, toSeconds);
    if kept == |ms| {
      assert ms[..kept] == ms;
    }
  }
}
