/** Consequences of the parsing theorem: mixed logs, recordings, truncation, rewinding, and
    the invariant that ties the pending item to its place in the file. */
module LogResults {
  import opened Basics
  import opened Bytes
  import opened OculusMessage
  import opened LogFormat
  import opened LogWriter
  import opened LogReader
  import opened LogTheorems

  // ---------------------------------------------------------------- opening

  /** What `FileReader.Open` establishes does not depend on the members' earlier values. */
  lemma OpenLooksAhead(d: seq<Byte>, item: LogItem, position: nat, m: Snapshot)
    ensures NextHeader(Reader(InFile(d, LOG_HEADER_SIZE, false, false), item, position, m)).0
         == Lookahead(d, LOG_HEADER_SIZE, m)
  {
    hide LoadItem;
  }

  /** A recording, also one cut anywhere behind its header, passes the checks of `open`. */
  lemma RecordingOpens(ms: seq<Snapshot>, now: Double, cut: nat, toSeconds: TimeStamp -> Double)
    requires LOG_HEADER_SIZE <= cut <= |Log(ms, now, toSeconds)|
    ensures var h := LoadLogHeader(Log(ms, now, toSeconds)[..cut][..LOG_HEADER_SIZE]);
            h == FileHeader(now) && h.fileHeader == FILE_MAGIC && h.encryption == 0
  {
    hide StoreLogHeader, LoadLogHeader;
    assert Log(ms, now, toSeconds)[..cut][..LOG_HEADER_SIZE] == StoreLogHeader(FileHeader(now));
    LoadStoreLogHeader(FileHeader(now));
  }

  /** Every complete log: the answers of `read_next_message` are its meaning, then null. */
  lemma {:induction false} MixedLog(header: seq<Byte>, rs: seq<Record>, m: Snapshot, n: nat, fallback: Double -> I64)
    requires |header| == LOG_HEADER_SIZE && Readable(rs, Clean([]))
    ensures ReadMany(Lookahead(header + StoreRecords(rs), LOG_HEADER_SIZE, m), n, fallback)
         == Padded(Answers(rs, Clean([]), fallback), n)
  {
    var d := header + StoreRecords(rs);
    assert d[LOG_HEADER_SIZE..] == StoreRecords(rs) + [];
    ReadLog(d, LOG_HEADER_SIZE, rs, Clean([]), m, n, fallback);
  }

  // ---------------------------------------------------------------- pings

  function PingMany(r: Reader, n: nat, fallback: Double -> I64): seq<Answer>
    decreases n
  {
    if n == 0 then []
    else
      var (s, answer) := NextPing(r, fallback);
      [answer] + PingMany(s, n - 1, fallback)
  }

  /** Messages that are not pings removed; exceptions kept. */
  function Pings(s: seq<Answer>): seq<Answer> {
    if s == [] then []
    else if s[0].Returned? && s[0].value.Some? && !s[0].value.value.IsPing() then Pings(s[1..])
    else [s[0]] + Pings(s[1..])
  }

  /** The answers of the message reader from `r` on are `s`, then null for ever. */
  ghost predicate Reads(r: Reader, s: seq<Answer>, fallback: Double -> I64) {
    forall n: nat :: ReadMany(r, n, fallback) == Padded(s, n)
  }

  lemma ReadsNext(r: Reader, s: seq<Answer>, fallback: Double -> I64)
    requires Reads(r, s, fallback)
    ensures var (r', answer) := NextMessage(r, fallback);
            && answer == (if s == [] then Returned(None) else s[0])
            && Reads(r', if s == [] then [] else s[1..], fallback)
  {
    hide NextMessage;
    var (r', answer) := NextMessage(r, fallback);
    var rest := if s == [] then [] else s[1..];
    assert ReadMany(r, 1, fallback) == Padded(s, 1);
    assert ReadMany(r, 1, fallback)[0] == answer;
    forall n: nat ensures ReadMany(r', n, fallback) == Padded(rest, n) {
      assert ReadMany(r, n + 1, fallback) == Padded(s, n + 1);
      assert ReadMany(r, n + 1, fallback)[1..] == ReadMany(r', n, fallback);
      assert Padded(s, n + 1)[1..] == Padded(rest, n);
    }
  }

  /** The ping reader is the message reader filtered by message id. */
  lemma {:induction false} PingsAreFilteredMessages(r: Reader, s: seq<Answer>, n: nat, fallback: Double -> I64)
    requires Reads(r, s, fallback)
    ensures PingMany(r, n, fallback) == Padded(Pings(s), n)
    decreases |s|, n
  {
    hide NextMessage, ReadMany, Reads, Padded;
    if n == 0 {
      assert Padded(Pings(s), 0) == [];
    } else {
      ReadsNext(r, s, fallback);
      var (r', answer) := NextMessage(r, fallback);
      if s == [] {
        PingsAreFilteredMessages(r', [], n - 1, fallback);
        PadOne([], n);
      } else if s[0].Returned? && s[0].value.Some? && !s[0].value.value.IsPing() {
        assert NextPing(r, fallback) == NextPing(r', fallback);
        PingsAreFilteredMessages(r', s[1..], n, fallback);
      } else {
        PingsAreFilteredMessages(r', s[1..], n - 1, fallback);
        PadOne(Pings(s), n);
        assert Pings(s)[1..] == Pings(s[1..]);
      }
    }
  }

  lemma PadOne(s: seq<Answer>, n: nat)
    requires n > 0
    ensures Padded(s, n) == if s == [] then [Returned(None)] + Padded([], n - 1) else [s[0]] + Padded(s[1..], n - 1)
  {
  }

  /** Every complete log: `read_next_ping` answers the pings among its messages, then null. */
  lemma {:induction false} MixedLogPings(header: seq<Byte>, rs: seq<Record>, m: Snapshot, n: nat,
                                         fallback: Double -> I64)
    requires |header| == LOG_HEADER_SIZE && Readable(rs, Clean([]))
    ensures PingMany(Lookahead(header + StoreRecords(rs), LOG_HEADER_SIZE, m), n, fallback)
         == Padded(Pings(Answers(rs, Clean([]), fallback)), n)
  {
    var r := Lookahead(header + StoreRecords(rs), LOG_HEADER_SIZE, m);
    forall k: nat ensures ReadMany(r, k, fallback) == Padded(Answers(rs, Clean([]), fallback), k) {
      MixedLog(header, rs, m, k, fallback);
    }
    PingsAreFilteredMessages(r, Answers(rs, Clean([]), fallback), n, fallback);
  }

  // ---------------------------------------------------------------- truncation at any byte

  /** The complete records and the tail that the first `k` bytes of the records hold. */
  function CutAt(rs: seq<Record>, k: nat): (c: (seq<Record>, Tail))
    ensures |c.0| <= |rs| && c.0 == rs[..|c.0|]
    decreases |rs|
  {
    if rs == [] then ([], Clean([]))
    else if k < LOG_ITEM_SIZE then ([], Clean(StoreRecord(rs[0])[..k]))
    else if k < rs[0].Size() then ([], Partial(rs[0].item, rs[0].payload[..k - LOG_ITEM_SIZE]))
    else
      var (a, tail) := CutAt(rs[1..], k - rs[0].Size());
      ([rs[0]] + a, tail)
  }

  lemma {:induction false} CutBytes(rs: seq<Record>, k: nat)
    requires k <= |StoreRecords(rs)| && AllComplete(rs)
    ensures var (a, tail) := CutAt(rs, k);
            && StoreRecords(rs)[..k] == StoreRecords(a) + tail.Bytes()
            && tail.Proper()
            && (Readable(rs, Clean([])) ==> Readable(a, tail))
    decreases |rs|
  {
    hide StoreItem;
    if rs != [] {
      var first, rest := StoreRecord(rs[0]), StoreRecords(rs[1..]);
      assert StoreRecords(rs) == first + rest && rs[0] in rs;
      if k < LOG_ITEM_SIZE {
        assert (first + rest)[..k] == first[..k];
      } else if k < rs[0].Size() {
        assert (first + rest)[..k] == StoreItem(rs[0].item) + rs[0].payload[..k - LOG_ITEM_SIZE];
      } else {
        var k' := k - rs[0].Size();
        CutBytes(rs[1..], k');
        var (a, tail) := CutAt(rs[1..], k');
        assert (first + rest)[..k] == first + rest[..k'];
        assert ([rs[0]] + a)[1..] == a;
        assert first + (StoreRecords(a) + tail.Bytes()) == first + StoreRecords(a) + tail.Bytes();
        CutFollowing(rs[1..], k');
      }
    }
  }

  /** A cut never invents an item: what follows is what followed in the whole log, or less. */
  lemma {:induction false} CutFollowing(rs: seq<Record>, k: nat)
    ensures var (a, tail) := CutAt(rs, k);
            && (a != [] ==> rs != [] && a[0] == rs[0])
            && (a == [] && tail.Partial? ==> rs != [] && tail.item == rs[0].item)
  {
  }

  /** A log cut at any byte behind its header is read as the records it still holds. */
  lemma {:induction false} TruncatedLog(header: seq<Byte>, rs: seq<Record>, cut: nat, m: Snapshot, n: nat,
                                        fallback: Double -> I64)
    requires |header| == LOG_HEADER_SIZE && Readable(rs, Clean([])) && AllComplete(rs)
    requires LOG_HEADER_SIZE <= cut <= LOG_HEADER_SIZE + |StoreRecords(rs)|
    ensures var (a, tail) := CutAt(rs, cut - LOG_HEADER_SIZE);
            && Readable(a, tail)
            && (ReadMany(Lookahead((header + StoreRecords(rs))[..cut], LOG_HEADER_SIZE, m), n, fallback)
                == Padded(Answers(a, tail, fallback), n))
  {
    hide Answers, Readable, StoreRecords, Padded, ReadMany, Lookahead;
    var d := (header + StoreRecords(rs))[..cut];
    var (a, tail) := CutAt(rs, cut - LOG_HEADER_SIZE);
    CutBytes(rs, cut - LOG_HEADER_SIZE);
    assert d[LOG_HEADER_SIZE..] == StoreRecords(rs)[..cut - LOG_HEADER_SIZE];
    ReadLog(d, LOG_HEADER_SIZE, a, tail, m, n, fallback);
  }

  // ---------------------------------------------------------------- recordings

  /** A message as the driver hands it out, small enough for the 32-bit size field. */
  predicate Recordable(m: Snapshot) {
    m.Consistent() && |m.data| < TWO_32
  }

  function Delivered(ms: seq<Snapshot>): (s: seq<Answer>)
    ensures |s| == |ms|
  {
    seq(|ms|, i requires 0 <= i < |ms| => Returned(Some(ms[i])))
  }

  /** What is left of the last message when only its stamp item is missing. */
  function WithItemDate(m: Snapshot, toSeconds: TimeStamp -> Double, fallback: Double -> I64): Snapshot {
    m.(timestamp := fallback(toSeconds(FromSonarStamp(m.timestamp))))
  }

  /** The answers for the first `k` bytes behind the header of a recording of `ms`. */
  function CutAnswers(ms: seq<Snapshot>, k: nat, toSeconds: TimeStamp -> Double, fallback: Double -> I64): seq<Answer>
    decreases |ms|
  {
    if ms == [] || k < LOG_ITEM_SIZE then []
    else if k < LOG_ITEM_SIZE + |ms[0].data| then [Raised]
    else if k < 2 * LOG_ITEM_SIZE + |ms[0].data| then [Returned(Some(WithItemDate(ms[0], toSeconds, fallback)))]
    else if k < 2 * LOG_ITEM_SIZE + |ms[0].data| + STAMP_SIZE then [Raised]
    else [Returned(Some(ms[0]))]
         + CutAnswers(ms[1..], k - 2 * LOG_ITEM_SIZE - |ms[0].data| - STAMP_SIZE, toSeconds, fallback)
  }

  lemma {:induction false} RecordingReadable(ms: seq<Snapshot>, toSeconds: TimeStamp -> Double)
    requires forall m :: m in ms ==> Recordable(m)
    ensures Readable(AllRecords(ms, toSeconds), Clean([])) && AllComplete(AllRecords(ms, toSeconds))
    decreases |ms|
  {
    if ms != [] {
      RecordingReadable(ms[1..], toSeconds);
      var rs := AllRecords(ms, toSeconds);
      assert rs[1..][1..] == AllRecords(ms[1..], toSeconds);
      assert Recordable(ms[0]);
      assert Readable(rs[1..], Clean([]));
    }
  }

  /** The records of one message, cut: nothing, an exception, or the message with the date of
      its item in place of its stamp. */
  lemma {:induction false} CutOneMessage(m: Snapshot, rs: seq<Record>, k: nat, toSeconds: TimeStamp -> Double,
                                         fallback: Double -> I64)
    requires Recordable(m) && k < RecordedSize(m)
    requires |rs| >= 2 && rs == RecordsOf(m, toSeconds) + rs[2..]
    ensures var (a, tail) := CutAt(rs, k);
            Readable(a, tail) ==> Answers(a, tail, fallback) == CutAnswers([m], k, toSeconds, fallback)
  {
    hide StoreItem, LoadStamp, StoreStamp, LoadHeader, CutAt;
    var son, stamp := SonarRecord(m, toSeconds), StampRecord(m, toSeconds);
    assert rs[0] == son && rs[1] == stamp && rs[1..][0] == stamp;
    CutTwo(rs, k);
    var (a, tail) := CutAt(rs, k);
    if k >= son.Size() {
      assert a == [son] && a[1..] == [];
      assert m.data[..|m.data|] == m.data;
      assert MessageOf(son, fallback(son.item.time)) == WithItemDate(m, toSeconds, fallback);
    }
  }

  lemma {:induction false} CutTwo(rs: seq<Record>, k: nat)
    requires |rs| >= 2 && k < rs[0].Size() + rs[1].Size()
    ensures var (a, tail) := CutAt(rs, k);
            if k < LOG_ITEM_SIZE then a == [] && tail.Clean?
            else if k < rs[0].Size() then a == [] && tail.Partial? && tail.item == rs[0].item
            else a == [rs[0]] && if k < rs[0].Size() + LOG_ITEM_SIZE then tail.Clean?
                                 else tail.Partial? && tail.item == rs[1].item
  {
    hide StoreItem;
    assert rs[1..][0] == rs[1];
  }

  /** A message whose two records are both there is read back exactly. */
  lemma {:induction false} WholeMessage(m: Snapshot, rs: seq<Record>, tail: Tail, toSeconds: TimeStamp -> Double,
                                        fallback: Double -> I64)
    requires Recordable(m) && Readable(RecordsOf(m, toSeconds) + rs, tail)
    ensures Readable(rs, tail)
    ensures Answers(RecordsOf(m, toSeconds) + rs, tail, fallback)
         == [Returned(Some(m))] + Answers(rs, tail, fallback)
  {
    hide StoreItem, LoadStamp, StoreStamp, LoadHeader, ToSonarStamp, FromSonarStamp;
    var son, stamp := SonarRecord(m, toSeconds), StampRecord(m, toSeconds);
    var all := RecordsOf(m, toSeconds) + rs;
    assert all[0] == son && all[1] == stamp && all[1..][1..] == rs;
    assert Readable(all[1..], tail) && all[1..][0] == stamp;
    LoadStoreStamp(FromSonarStamp(m.timestamp));
    StampRoundTrip(m.timestamp);
    assert m.data[..|m.data|] == m.data;
    assert MessageOf(son, m.timestamp) == m;
  }

  lemma {:induction false} CutRecording(ms: seq<Snapshot>, k: nat, toSeconds: TimeStamp -> Double,
                                        fallback: Double -> I64)
    requires forall m :: m in ms ==> Recordable(m)
    requires k <= |StoreRecords(AllRecords(ms, toSeconds))|
    ensures var (a, tail) := CutAt(AllRecords(ms, toSeconds), k);
            && tail.Proper() && Readable(a, tail)
            && Answers(a, tail, fallback) == CutAnswers(ms, k, toSeconds, fallback)
    decreases |ms|
  {
    hide StoreItem, StoreRecord, LoadStamp, StoreStamp, LoadHeader, RecordsOf, Answers, Readable;
    var rs := AllRecords(ms, toSeconds);
    RecordingReadable(ms, toSeconds);
    CutBytes(rs, k);
    if ms == [] {
      NoRecords(Clean([]), fallback);
    } else {
      var m, rest := ms[0], AllRecords(ms[1..], toSeconds);
      assert Recordable(m);
      assert rs[2..] == rest;
      if k < RecordedSize(m) {
        CutOneMessage(m, rs, k, toSeconds, fallback);
        CutFirstOnly(ms, k, toSeconds, fallback);
      } else {
        var k' := k - RecordedSize(m);
        CutBehind(m, rest, k, toSeconds);
        RestSize(m, rest, toSeconds);
        CutRecording(ms[1..], k', toSeconds, fallback);
        var (a, tail) := CutAt(rest, k');
        WholeMessage(m, a, tail, toSeconds, fallback);
      }
    }
  }

  lemma {:induction false} NoRecords(tail: Tail, fallback: Double -> I64)
    requires tail.Clean?
    ensures Readable([], tail) && Answers([], tail, fallback) == []
  {
  }

  lemma {:induction false} CutFirstOnly(ms: seq<Snapshot>, k: nat, toSeconds: TimeStamp -> Double,
                                        fallback: Double -> I64)
    requires ms != [] && Recordable(ms[0]) && k < RecordedSize(ms[0])
    ensures CutAnswers(ms, k, toSeconds, fallback) == CutAnswers([ms[0]], k, toSeconds, fallback)
  {
  }

  lemma {:induction false} RestSize(m: Snapshot, rest: seq<Record>, toSeconds: TimeStamp -> Double)
    ensures |StoreRecords(RecordsOf(m, toSeconds) + rest)| == RecordedSize(m) + |StoreRecords(rest)|
  {
    hide StoreItem, StoreStamp;
    StoreRecordsAppend(RecordsOf(m, toSeconds), rest);
    StoreTwo(SonarRecord(m, toSeconds), StampRecord(m, toSeconds));
  }

  lemma {:induction false} CutBehind(m: Snapshot, rest: seq<Record>, k: nat, toSeconds: TimeStamp -> Double)
    requires k >= RecordedSize(m)
    ensures CutAt(RecordsOf(m, toSeconds) + rest, k)
         == (RecordsOf(m, toSeconds) + CutAt(rest, k - RecordedSize(m)).0, CutAt(rest, k - RecordedSize(m)).1)
  {
    hide StoreItem, StoreStamp, StoreRecord;
    var son, stamp := SonarRecord(m, toSeconds), StampRecord(m, toSeconds);
    var rs := RecordsOf(m, toSeconds) + rest;
    assert rs == [son] + ([stamp] + rest);
    CutBehindOne(son, [stamp] + rest, k);
    CutBehindOne(stamp, rest, k - son.Size());
    assert [son] + ([stamp] + CutAt(rest, k - RecordedSize(m)).0)
        == RecordsOf(m, toSeconds) + CutAt(rest, k - RecordedSize(m)).0;
  }

  lemma {:induction false} CutBehindOne(r: Record, rest: seq<Record>, k: nat)
    requires k >= r.Size()
    ensures CutAt([r] + rest, k) == ([r] + CutAt(rest, k - r.Size()).0, CutAt(rest, k - r.Size()).1)
  {
    hide StoreRecord;
    assert ([r] + rest)[1..] == rest;
  }

  /** Reading a recording cut at byte `cut`: the exact sequence of answers. */
  lemma {:induction false} TruncatedRecording(ms: seq<Snapshot>, now: Double, cut: nat, m: Snapshot, n: nat,
                                              toSeconds: TimeStamp -> Double, fallback: Double -> I64)
    requires forall x :: x in ms ==> Recordable(x)
    requires LOG_HEADER_SIZE <= cut <= |Log(ms, now, toSeconds)|
    ensures ReadMany(Lookahead(Log(ms, now, toSeconds)[..cut], LOG_HEADER_SIZE, m), n, fallback)
         == Padded(CutAnswers(ms, cut - LOG_HEADER_SIZE, toSeconds, fallback), n)
  {
    hide StoreLogHeader, Answers, Readable, StoreRecords, AllRecords, ReadMany, Lookahead, CutAt, CutAnswers, Padded;
    RecordingReadable(ms, toSeconds);
    CutRecording(ms, cut - LOG_HEADER_SIZE, toSeconds, fallback);
    TruncatedLog(StoreLogHeader(FileHeader(now)), AllRecords(ms, toSeconds), cut, m, n, fallback);
  }

  lemma {:induction false} CutAnswersArePrefix(ms: seq<Snapshot>, k: nat, toSeconds: TimeStamp -> Double,
                                               fallback: Double -> I64)
    returns (j: nat, last: seq<Answer>)
    ensures j <= |ms| && CutAnswers(ms, k, toSeconds, fallback) == Delivered(ms[..j]) + last
    ensures || last == []
            || last == [Raised]
            || (j < |ms| && last == [Returned(Some(WithItemDate(ms[j], toSeconds, fallback)))])
    decreases |ms|
  {
    if ms == [] || k < 2 * LOG_ITEM_SIZE + |ms[0].data| + STAMP_SIZE {
      return 0, CutAnswers(ms, k, toSeconds, fallback);
    }
    var i;
    i, last := CutAnswersArePrefix(ms[1..], k - 2 * LOG_ITEM_SIZE - |ms[0].data| - STAMP_SIZE, toSeconds, fallback);
    j := i + 1;
    assert ms[..j] == [ms[0]] + ms[1..][..i];
    assert Delivered(ms[..j]) == [Returned(Some(ms[0]))] + Delivered(ms[1..][..i]);
  }

  /** No wrong message: reading a recording cut at any byte gives back a prefix of the
      messages, exact in header, data and stamp, then at most one more answer, which is an
      exception or the next message with only its stamp replaced by the date of its item, and
      then null for ever. */
  lemma {:induction false} TruncationSafety(ms: seq<Snapshot>, now: Double, cut: nat, m: Snapshot,
                                            toSeconds: TimeStamp -> Double, fallback: Double -> I64)
    returns (j: nat, last: seq<Answer>)
    requires forall x :: x in ms ==> Recordable(x)
    requires LOG_HEADER_SIZE <= cut <= |Log(ms, now, toSeconds)|
    ensures j <= |ms|
    ensures || last == []
            || last == [Raised]
            || (j < |ms| && last == [Returned(Some(WithItemDate(ms[j], toSeconds, fallback)))])
    ensures forall n: nat ::
      ReadMany(Lookahead(Log(ms, now, toSeconds)[..cut], LOG_HEADER_SIZE, m), n, fallback)
      == Padded(Delivered(ms[..j]) + last, n)
  {
    hide Log, ReadMany, Lookahead, CutAnswers, Padded, Delivered, Recordable, WithItemDate;
    j, last := CutAnswersArePrefix(ms, cut - LOG_HEADER_SIZE, toSeconds, fallback);
    forall n: nat
      ensures ReadMany(Lookahead(Log(ms, now, toSeconds)[..cut], LOG_HEADER_SIZE, m), n, fallback)
           == Padded(Delivered(ms[..j]) + last, n)
    {
      TruncatedRecording(ms, now, cut, m, n, toSeconds, fallback);
    }
  }

  lemma {:induction false} UncutRecording(ms: seq<Snapshot>, toSeconds: TimeStamp -> Double, fallback: Double -> I64)
    requires forall m :: m in ms ==> Recordable(m)
    ensures CutAnswers(ms, RecordedSizes(ms), toSeconds, fallback) == Delivered(ms)
    decreases |ms|
  {
    if ms != [] {
      assert Recordable(ms[0]);
      UncutRecording(ms[1..], toSeconds, fallback);
      assert Delivered(ms) == [Returned(Some(ms[0]))] + Delivered(ms[1..]);
    }
  }

  /** Recording and reading back: the same headers, data and stamps, in order, then null. */
  lemma {:induction false} RoundTrip(ms: seq<Snapshot>, now: Double, m: Snapshot, n: nat,
                                     toSeconds: TimeStamp -> Double, fallback: Double -> I64)
    requires forall x :: x in ms ==> Recordable(x)
    ensures ReadMany(Lookahead(Log(ms, now, toSeconds), LOG_HEADER_SIZE, m), n, fallback) == Padded(Delivered(ms), n)
  {
    hide StoreLogHeader;
    RecordedBytes(OutFile(true, false, []), ms, toSeconds);
    UncutRecording(ms, toSeconds, fallback);
    var d := Log(ms, now, toSeconds);
    assert d[..|d|] == d;
    TruncatedRecording(ms, now, |d|, m, n, toSeconds, fallback);
  }

  /** The same from the opening of the file on: `open` accepts the recording, and the reader it
      leaves, whatever its members held before, gives the messages back. */
  lemma {:induction false} OpenAndReadBack(ms: seq<Snapshot>, now: Double, item: LogItem, position: nat, m: Snapshot,
                                           n: nat, toSeconds: TimeStamp -> Double, fallback: Double -> I64)
    requires forall x :: x in ms ==> Recordable(x)
    ensures var d := Log(ms, now, toSeconds);
            && |d| >= LOG_HEADER_SIZE && LoadLogHeader(d[..LOG_HEADER_SIZE]) == FileHeader(now)
            && FileHeader(now).fileHeader == FILE_MAGIC && FileHeader(now).encryption == 0
            && (ReadMany(NextHeader(Reader(InFile(d, LOG_HEADER_SIZE, false, false), item, position, m)).0, n, fallback)
                == Padded(Delivered(ms), n))
  {
    hide StoreLogHeader, LoadLogHeader, ReadMany, Lookahead, Padded, Delivered, NextHeader, AllRecords, StoreRecords;
    var d := Log(ms, now, toSeconds);
    assert d[..|d|] == d;
    RecordingOpens(ms, now, |d|, toSeconds);
    OpenLooksAhead(d, item, position, m);
    RoundTrip(ms, now, m, n, toSeconds, fallback);
  }

  /** The 32-bit size field is the only thing between a consistent message and its exact
      return: the two records of a message are read back as that message iff it is smaller
      than 4 GiB. */
  lemma RecordedExactlyIffFits(m: Snapshot, toSeconds: TimeStamp -> Double, fallback: Double -> I64)
    requires m.Consistent()
    ensures (Readable(RecordsOf(m, toSeconds), Clean([]))
             && Answers(RecordsOf(m, toSeconds), Clean([]), fallback) == [Returned(Some(m))])
       <==> |m.data| < TWO_32
  {
    hide StoreItem, LoadStamp, StoreStamp, LoadHeader, ToSonarStamp, FromSonarStamp;
    var rs := RecordsOf(m, toSeconds);
    if |m.data| < TWO_32 {
      RecordingReadable([m], toSeconds);
      assert AllRecords([m], toSeconds) == rs + AllRecords([], toSeconds) == rs;
      assert rs + [] == rs;
      WholeMessage(m, [], Clean([]), toSeconds, fallback);
    } else {
      var son := SonarRecord(m, toSeconds);
      assert |son.payload| < |m.data|;
      if Readable(rs, Clean([])) {
        assert rs[1].item.kind == RT_OCULUS_SONAR_STAMP;
        assert Answers(rs, Clean([]), fallback)[0].value.value.data == son.payload;
      }
    }
  }

  // ---------------------------------------------------------------- the pending item

  /** Either nothing is pending, or the pending item is the one stored at `position`, and the
      stream stands good right behind it. */
  predicate Positioned(r: Reader) {
    && (r.file.eof ==> r.file.fail)
    && (r.item.kind != 0 ==>
          && r.file.Good()
          && LOG_HEADER_SIZE <= r.position && r.file.pos == r.position + LOG_ITEM_SIZE <= |r.file.data|
          && r.item == LoadItem(r.file.data[r.position..r.position + LOG_ITEM_SIZE]))
  }

  lemma HeaderKeepsPosition(r: Reader)
    requires (r.file.eof ==> r.file.fail) && LOG_HEADER_SIZE <= r.file.pos
    ensures Positioned(NextHeader(r).0)
    ensures NextHeader(r).1 ==> r.file.fail
  {
    hide LoadItem;
  }

  lemma ItemKeepsPosition(r: Reader)
    requires Positioned(r)
    ensures Positioned(JumpItem(r).0) && Positioned(ReadItem(r).0) && Positioned(ReadItemIntoMessage(r).0)
    ensures r.item.kind != 0 ==> JumpItem(r).1 == Returned(r.position) && r.position != 0
    ensures JumpItem(r).0.item.kind != 0 ==> JumpItem(r).0.position >= r.position + LOG_ITEM_SIZE + r.item.payloadSize
                                             || r.item.kind == 0
  {
    hide LoadItem;
  }

  lemma {:induction false} SkipKeepsPosition(r: Reader)
    requires Positioned(r)
    ensures Positioned(SkipToSonar(r).0)
    ensures SkipToSonar(r).1 == Returned(())
    ensures SkipToSonar(r).0.item.kind == RT_OCULUS_SONAR || SkipToSonar(r).0.item.kind == 0
    decreases r.Left()
  {
    hide LoadItem, NextHeader, Positioned;
    if r.item.kind != RT_OCULUS_SONAR && r.item.kind != 0 {
      ItemKeepsPosition(r);
      SkipKeepsPosition(JumpItem(r).0);
    }
  }

  lemma MessageKeepsPosition(r: Reader, fallback: Double -> I64)
    requires Positioned(r)
    ensures Positioned(NextMessage(r, fallback).0)
  {
    hide LoadItem, NextHeader, ReadItem, SkipToSonar;
    SkipKeepsPosition(r);
    var a := SkipToSonar(r).0;
    ItemKeepsPosition(a);
    var b := ReadItemIntoMessage(a).0;
    if |b.message.data| >= HEADER_SIZE {
      ItemKeepsPosition(b.(message := b.message.UpdateFromData()));
    }
  }

  lemma {:induction false} PingKeepsPosition(last: (Reader, Answer), fallback: Double -> I64)
    requires Positioned(last.0)
    ensures Positioned(UntilPing(last, fallback).0)
    decreases last.0.Left()
  {
    hide NextMessage, Positioned;
    if last.1.Returned? && last.1.value.Some? && !last.1.value.value.IsPing() {
      MessageKeepsPosition(last.0, fallback);
      var next := NextMessage(last.0, fallback);
      if next.1.Returned? && next.1.value.Some? {
        PingKeepsPosition(next, fallback);
      }
    }
  }

  lemma RewindKeepsPosition(r: Reader)
    requires r.file.eof ==> r.file.fail
    ensures Positioned(Rewind(r).0)
  {
    hide LoadItem;
  }

  /** How many items the search for a sonar item jumps over. */
  function Jumps(r: Reader): nat
    decreases r.Left()
  {
    if r.item.kind == RT_OCULUS_SONAR || r.item.kind == 0 then 0
    else if JumpItem(r).1 == Returned(r.position) then 1 + Jumps(JumpItem(r).0) else 1
  }

  lemma {:induction false} JumpsBounded(r: Reader)
    requires Positioned(r)
    ensures r.item.kind == 0 ==> Jumps(r) == 0
    ensures r.item.kind != 0 ==> Jumps(r) * LOG_ITEM_SIZE <= |r.file.data| - r.position
    decreases r.Left()
  {
    hide LoadItem, NextHeader;
    if r.item.kind != RT_OCULUS_SONAR && r.item.kind != 0 {
      ItemKeepsPosition(r);
      JumpsBounded(JumpItem(r).0);
    }
  }

  /** Jumping over an item and reading it leave the same reader exactly when its payload is
      all there; behind a cut payload, jumping reports the end of the file and reading an error. */
  lemma JumpIsReadIffComplete(r: Reader)
    requires Positioned(r) && r.item.kind != 0
    ensures JumpItem(r) == (ReadItem(r).0, ReadItem(r).2) <==> r.file.pos + r.item.payloadSize <= |r.file.data|
  {
    hide LoadItem;
  }

  /** `rewind` brings back the reader as it was just opened iff the stream has not failed. A
      failed stream stays failed, and the call raises an exception. */
  lemma RewindRestoresIffGood(r: Reader)
    requires r.file.eof ==> r.file.fail
    ensures Rewind(r) == (Lookahead(r.file.data, LOG_HEADER_SIZE, r.message), false) <==> !r.file.fail
    ensures r.file.fail ==> Rewind(r).1 && Rewind(r).0.item.kind == 0
  {
    hide LoadItem;
  }

  /** The reader after `n` calls of `read_next_message`. */
  function After(r: Reader, n: nat, fallback: Double -> I64): Reader
    decreases n
  {
    if n == 0 then r else After(NextMessage(r, fallback).0, n - 1, fallback)
  }

  lemma {:induction false} NextRecorded(d: seq<Byte>, p: nat, ms: seq<Snapshot>, m: Snapshot,
                                        toSeconds: TimeStamp -> Double, fallback: Double -> I64)
    returns (q: nat, last: Snapshot)
    requires 1 <= p && At(d, p, AllRecords(ms, toSeconds), Clean([])) && ms != [] && Recordable(ms[0])
    ensures NextMessage(Lookahead(d, p, m), fallback).0 == Lookahead(d, q, last)
    ensures 1 <= q && At(d, q, AllRecords(ms[1..], toSeconds), Clean([]))
  {
    hide LoadItem, StoreItem, LoadHeader, LoadStamp, StoreStamp, NextMessage, AttachStamp, Lookahead, At;
    var rs := AllRecords(ms, toSeconds);
    var son, stamp := SonarRecord(ms[0], toSeconds), StampRecord(ms[0], toSeconds);
    assert rs[0] == son && rs[1..][0] == stamp && rs[1..][1..] == AllRecords(ms[1..], toSeconds);
    Peel(d, p, rs, Clean([]));
    Peel(d, p + son.Size(), rs[1..], Clean([]));
    ReadSonar(d, p, m, son, fallback);
    StampFromNextItem(d, p + son.Size(), MessageOf(son, m.timestamp), stamp, son.item.time, fallback);
    q, last := p + son.Size() + stamp.Size(), MessageOf(son, ToSonarStamp(LoadStamp(stamp.payload)));
  }

  lemma {:induction false} AfterRecorded(d: seq<Byte>, p: nat, ms: seq<Snapshot>, n: nat, m: Snapshot,
                                         toSeconds: TimeStamp -> Double, fallback: Double -> I64)
    returns (q: nat, last: Snapshot)
    requires 1 <= p && At(d, p, AllRecords(ms, toSeconds), Clean([])) && n <= |ms|
    requires forall x :: x in ms ==> Recordable(x)
    ensures After(Lookahead(d, p, m), n, fallback) == Lookahead(d, q, last)
    ensures At(d, q, AllRecords(ms[n..], toSeconds), Clean([]))
    decreases n
  {
    hide NextMessage, Lookahead, At, AllRecords, Recordable;
    if n == 0 {
      assert ms[0..] == ms;
      return p, m;
    }
    var q1, m1 := NextRecorded(d, p, ms, m, toSeconds, fallback);
    assert ms[1..][n - 1..] == ms[n..];
    q, last := AfterRecorded(d, q1, ms[1..], n - 1, m1, toSeconds, fallback);
  }

  /** While a recording is read, `rewind` works as long as a message is left. Handing out the
      last message already fails the stream, through the lookahead behind it, and from then
      on `rewind` raises an exception instead of starting over. */
  lemma {:induction false} RewindWorksUntilLastMessage(ms: seq<Snapshot>, now: Double, n: nat, m: Snapshot,
                                                       toSeconds: TimeStamp -> Double, fallback: Double -> I64)
    requires forall x :: x in ms ==> Recordable(x)
    requires n <= |ms|
    ensures var d := Log(ms, now, toSeconds);
            var r := After(Lookahead(d, LOG_HEADER_SIZE, m), n, fallback);
            && (Rewind(r).1 <==> n == |ms|)
            && (n < |ms| ==> Rewind(r) == (Lookahead(d, LOG_HEADER_SIZE, r.message), false))
  {
    hide LoadItem, StoreItem, LoadHeader, LoadStamp, StoreStamp, NextMessage, StoreLogHeader;
    var d := Log(ms, now, toSeconds);
    assert d[LOG_HEADER_SIZE..] == StoreRecords(AllRecords(ms, toSeconds)) + [];
    var q, last := AfterRecorded(d, LOG_HEADER_SIZE, ms, n, m, toSeconds, fallback);
    var r := Lookahead(d, q, last);
    if n == |ms| {
      assert d[q..] == [];
    } else {
      Peel(d, q, AllRecords(ms[n..], toSeconds), Clean([]));
      assert !r.file.fail && r.file.data == d;
    }
    RewindRestoresIffGood(r);
  }
}
