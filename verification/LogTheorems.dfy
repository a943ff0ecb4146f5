/** What the reader returns on a log, complete or cut at any byte, and what a recording
    therefore gives back. */
module LogTheorems {
  import opened Basics
  import opened Bytes
  import opened OculusMessage
  import opened LogFormat
  import opened LogWriter
  import opened LogReader

  type Answer = Outcome<Option<Snapshot>>

  // ---------------------------------------------------------------- independent meaning of a log

  /** What is left of a log after its last complete record: less than an item header, or a
      whole item header with part of its payload. */
  datatype Tail = Clean(bytes: seq<Byte>) | Partial(item: LogItem, bytes: seq<Byte>) {
    function Bytes(): seq<Byte> {
      match this
      case Clean(bytes) => bytes
      case Partial(item, bytes) => StoreItem(item) + bytes
    }

    predicate Proper() {
      match this
      case Clean(bytes) => |bytes| < LOG_ITEM_SIZE
      case Partial(item, bytes) => |bytes| < item.payloadSize
    }

    predicate IsStamp() {
      Partial? && item.kind == RT_OCULUS_SONAR_STAMP
    }
  }

  /** The kind and announced size of what follows the first record. */
  function Following(rs: seq<Record>, tail: Tail): Option<LogItem>
    requires rs != []
  {
    if |rs| > 1 then Some(rs[1].item) else if tail.Partial? then Some(tail.item) else None
  }

  /** The payload sizes the reader takes for granted in front of an item of kind 0, where it
      stops: a message header in every sonar item, and 16 bytes in a stamp that directly
      follows a sonar item. */
  predicate Readable(rs: seq<Record>, tail: Tail)
    decreases |rs|
  {
    rs == [] ||
    (rs[0].Complete() && (rs[0].item.kind == 0 || (FirstReadable(rs, tail) && Readable(rs[1..], tail))))
  }

  predicate FirstReadable(rs: seq<Record>, tail: Tail)
    requires rs != []
  {
    rs[0].item.kind == RT_OCULUS_SONAR ==>
      && |rs[0].payload| >= HEADER_SIZE
      && var next := Following(rs, tail);
         (next.Some? && next.value.kind == RT_OCULUS_SONAR_STAMP ==> next.value.payloadSize == STAMP_SIZE)
  }

  predicate AllComplete(rs: seq<Record>) {
    forall r :: r in rs ==> r.Complete()
  }

  function MessageOf(r: Record, timestamp: I64): Snapshot
    requires |r.payload| >= HEADER_SIZE
  {
    Snapshot(LoadHeader(r.payload), r.payload, timestamp)
  }

  /** The answers of successive calls of `read_next_message`, up to the end of the log: the
      sonar items in order, each stamped by the stamp item right behind it or else by its own
      date; nothing after an item of kind 0; an exception where a payload that must be read
      is cut. */
  function Answers(rs: seq<Record>, tail: Tail, fallback: Double -> I64): seq<Answer>
    requires Readable(rs, tail)
    decreases |rs|
  {
    if rs == [] then
      if tail.Partial? && tail.item.kind == RT_OCULUS_SONAR then [Raised] else []
    else if rs[0].item.kind == 0 then []
    else if rs[0].item.kind != RT_OCULUS_SONAR then Answers(rs[1..], tail, fallback)
    else if |rs| > 1 && rs[1].item.kind == RT_OCULUS_SONAR_STAMP then
      assert Readable(rs[1..], tail) && rs[1..][0] == rs[1];
      [Returned(Some(MessageOf(rs[0], ToSonarStamp(LoadStamp(rs[1].payload)))))] + Answers(rs[1..][1..], tail, fallback)
    else if |rs| == 1 && tail.IsStamp() then [Raised]
    else [Returned(Some(MessageOf(rs[0], fallback(rs[0].item.time))))] + Answers(rs[1..], tail, fallback)
  }

  /** `n` answers: those of `s`, then null for ever. */
  function Padded(s: seq<Answer>, n: nat): (r: seq<Answer>)
    ensures |r| == n
    decreases n
  {
    if n == 0 then []
    else if s == [] then [Returned(None)] + Padded([], n - 1)
    else [s[0]] + Padded(s[1..], n - 1)
  }

  // ---------------------------------------------------------------- reading

  function ReadMany(r: Reader, n: nat, fallback: Double -> I64): (a: seq<Answer>)
    ensures |a| == n
    decreases n
  {
    if n == 0 then []
    else
      var (s, answer) := NextMessage(r, fallback);
      [answer] + ReadMany(s, n - 1, fallback)
  }

  /** The reader after its one-item lookahead at offset `p` of a stream in good state. */
  function Lookahead(d: seq<Byte>, p: nat, m: Snapshot): (r: Reader)
    ensures r.message == m
  {
    NextHeader(Reader(InFile(d, p, false, false), ZERO_ITEM, 0, m)).0
  }

  /** The bytes from `p` on are these records and this tail. */
  predicate At(d: seq<Byte>, p: nat, rs: seq<Record>, tail: Tail) {
    p <= |d| && d[p..] == StoreRecords(rs) + tail.Bytes()
  }

  lemma Peel(d: seq<Byte>, p: nat, rs: seq<Record>, tail: Tail)
    requires At(d, p, rs, tail) && rs != []
    ensures p + rs[0].Size() <= |d|
    ensures d[p..p + LOG_ITEM_SIZE] == StoreItem(rs[0].item)
    ensures d[p + LOG_ITEM_SIZE..p + rs[0].Size()] == rs[0].payload
    ensures At(d, p + rs[0].Size(), rs[1..], tail)
  {
    hide StoreItem;
    var item, rest := StoreItem(rs[0].item), StoreRecords(rs[1..]) + tail.Bytes();
    Regroup(item, rs[0].payload, StoreRecords(rs[1..]), tail.Bytes());
    Slices(d, p, item, rs[0].payload, rest);
  }

  lemma Regroup(a: seq<Byte>, b: seq<Byte>, c: seq<Byte>, d: seq<Byte>)
    ensures a + b + c + d == a + (b + (c + d))
  {
  }

  lemma Slices(d: seq<Byte>, p: nat, a: seq<Byte>, b: seq<Byte>, rest: seq<Byte>)
    requires p <= |d| && d[p..] == a + (b + rest)
    ensures p + |a| + |b| <= |d|
    ensures d[p..p + |a|] == a && d[p + |a|..p + |a| + |b|] == b && d[p + |a| + |b|..] == rest
  {
    assert |d[p..]| == |a| + |b| + |rest|;
    assert d[p..p + |a|] == d[p..][..|a|];
    assert d[p + |a|..] == d[p..][|a|..] == b + rest;
    assert d[p + |a|..p + |a| + |b|] == d[p + |a|..][..|b|];
    assert d[p + |a| + |b|..] == d[p + |a|..][|b|..];
  }

  lemma LookaheadItem(d: seq<Byte>, p: nat, m: Snapshot, i: LogItem)
    requires p + LOG_ITEM_SIZE <= |d| && d[p..p + LOG_ITEM_SIZE] == StoreItem(i)
    ensures Lookahead(d, p, m) == Reader(InFile(d, p + LOG_ITEM_SIZE, false, false), i, p, m)
  {
    LoadStoreItem(i);
  }

  lemma JumpOver(d: seq<Byte>, p: nat, m: Snapshot, i: LogItem)
    requires p + LOG_ITEM_SIZE <= |d| && d[p..p + LOG_ITEM_SIZE] == StoreItem(i) && i.kind != 0
    ensures JumpItem(Lookahead(d, p, m)) == (Lookahead(d, p + LOG_ITEM_SIZE + i.payloadSize, m), Returned(p))
  {
    hide LoadItem, StoreItem;
    LookaheadItem(d, p, m, i);
  }

  lemma ReadOver(d: seq<Byte>, p: nat, m: Snapshot, i: LogItem)
    requires p + LOG_ITEM_SIZE + i.payloadSize <= |d| && d[p..p + LOG_ITEM_SIZE] == StoreItem(i) && i.kind != 0
    ensures var q := p + LOG_ITEM_SIZE;
            ReadItem(Lookahead(d, p, m)) == (Lookahead(d, q + i.payloadSize, m), d[q..q + i.payloadSize], Returned(p))
  {
    hide LoadItem, StoreItem, LoadHeader, LoadStamp;
    LookaheadItem(d, p, m, i);
  }

  /** Once no item is pending, every further call answers null and changes nothing. */
  lemma {:induction false} Exhausted(r: Reader, n: nat, fallback: Double -> I64)
    requires r.item.kind == 0
    ensures ReadMany(r, n, fallback) == Padded([], n)
  {
    if n > 0 {
      assert NextMessage(r, fallback) == (r, Returned(None));
      Exhausted(r, n - 1, fallback);
    }
  }

  /** Items of other kinds are invisible. */
  lemma {:induction false} SkipOther(d: seq<Byte>, p: nat, m: Snapshot, i: LogItem, n: nat, fallback: Double -> I64)
    requires 1 <= p && p + LOG_ITEM_SIZE <= |d| && d[p..p + LOG_ITEM_SIZE] == StoreItem(i)
    requires i.kind != 0 && i.kind != RT_OCULUS_SONAR
    ensures ReadMany(Lookahead(d, p, m), n, fallback)
         == ReadMany(Lookahead(d, p + LOG_ITEM_SIZE + i.payloadSize, m), n, fallback)
  {
    hide LoadItem, StoreItem, LoadHeader, LoadStamp;
    if n > 0 {
      JumpOver(d, p, m, i);
      LookaheadItem(d, p, m, i);
      assert SkipToSonar(Lookahead(d, p, m)) == SkipToSonar(Lookahead(d, p + LOG_ITEM_SIZE + i.payloadSize, m));
    }
  }

  /** A complete sonar item is read into the message, which leaves the stamp to be settled. */
  lemma ReadSonar(d: seq<Byte>, p: nat, m: Snapshot, r: Record, fallback: Double -> I64)
    requires SonarAt(d, p, r)
    ensures var (s, o) := AttachStamp(Lookahead(d, p + r.Size(), MessageOf(r, m.timestamp)), r.item.time, fallback);
            (NextMessage(Lookahead(d, p, m), fallback)
             == (s, if o.Returned? then Returned(Some(s.message)) else if o.Raised? then Raised else Undefined))
  {
    hide LoadItem, StoreItem, LoadHeader, LoadStamp;
    LookaheadItem(d, p, m, r.item);
    ReadOver(d, p, m, r.item);
    assert Overwrite(Resize(m.data, r.item.payloadSize), r.payload) == r.payload;
  }

  /** The record `r` lies complete at `p`, and is a sonar item the reader can take in. */
  predicate SonarAt(d: seq<Byte>, p: nat, r: Record) {
    && RecordAt(d, p, r)
    && r.item.kind == RT_OCULUS_SONAR && |r.payload| >= HEADER_SIZE
  }

  predicate RecordAt(d: seq<Byte>, p: nat, r: Record) {
    && r.Complete()
    && p + r.Size() <= |d| && d[p..p + LOG_ITEM_SIZE] == StoreItem(r.item)
    && d[p + LOG_ITEM_SIZE..p + r.Size()] == r.payload
  }

  lemma StampFromNextItem(d: seq<Byte>, p: nat, m: Snapshot, s: Record, date: Double, fallback: Double -> I64)
    requires RecordAt(d, p, s) && s.item.kind == RT_OCULUS_SONAR_STAMP && |s.payload| == STAMP_SIZE
    ensures AttachStamp(Lookahead(d, p, m), date, fallback)
         == (Lookahead(d, p + s.Size(), m.(timestamp := ToSonarStamp(LoadStamp(s.payload)))), Returned(()))
  {
    hide LoadItem, StoreItem, LoadStamp;
    LookaheadItem(d, p, m, s.item);
    ReadOver(d, p, m, s.item);
  }

  lemma {:induction false} Unstamped(d: seq<Byte>, p: nat, m: Snapshot, r: Record, n: nat, fallback: Double -> I64)
    requires n > 0 && SonarAt(d, p, r)
    requires Lookahead(d, p + r.Size(), m).item.kind != RT_OCULUS_SONAR_STAMP
    ensures var msg := MessageOf(r, fallback(r.item.time));
            (ReadMany(Lookahead(d, p, m), n, fallback)
             == [Returned(Some(msg))] + ReadMany(Lookahead(d, p + r.Size(), msg), n - 1, fallback))
  {
    hide LoadItem, StoreItem, LoadHeader, LoadStamp, NextMessage;
    ReadSonar(d, p, m, r, fallback);
  }

  lemma {:induction false} Stamped(d: seq<Byte>, p: nat, m: Snapshot, r: Record, s: Record, n: nat,
                                   fallback: Double -> I64)
    requires n > 0 && SonarAt(d, p, r) && RecordAt(d, p + r.Size(), s)
    requires s.item.kind == RT_OCULUS_SONAR_STAMP && |s.payload| == STAMP_SIZE
    ensures var msg := MessageOf(r, ToSonarStamp(LoadStamp(s.payload)));
            (ReadMany(Lookahead(d, p, m), n, fallback)
             == [Returned(Some(msg))] + ReadMany(Lookahead(d, p + r.Size() + s.Size(), msg), n - 1, fallback))
  {
    hide LoadItem, StoreItem, LoadHeader, LoadStamp, NextMessage, AttachStamp, Lookahead;
    ReadSonar(d, p, m, r, fallback);
    StampFromNextItem(d, p + r.Size(), MessageOf(r, m.timestamp), s, r.item.time, fallback);
  }

  lemma CutSonar(d: seq<Byte>, p: nat, m: Snapshot, i: LogItem, fallback: Double -> I64)
    requires p + LOG_ITEM_SIZE <= |d| < p + LOG_ITEM_SIZE + i.payloadSize
    requires d[p..p + LOG_ITEM_SIZE] == StoreItem(i) && i.kind == RT_OCULUS_SONAR
    ensures var (s, answer) := NextMessage(Lookahead(d, p, m), fallback);
            answer == Raised && s.item.kind == 0
  {
    hide LoadItem, StoreItem, LoadHeader, LoadStamp;
    LookaheadItem(d, p, m, i);
  }

  lemma TailItem(d: seq<Byte>, p: nat, tail: Tail)
    requires At(d, p, [], tail) && tail.Proper() && tail.Partial?
    ensures p + LOG_ITEM_SIZE <= |d| < p + LOG_ITEM_SIZE + tail.item.payloadSize
    ensures d[p..p + LOG_ITEM_SIZE] == StoreItem(tail.item)
  {
    hide StoreItem;
    assert d[p..] == StoreItem(tail.item) + tail.bytes;
    assert d[p..p + LOG_ITEM_SIZE] == d[p..][..LOG_ITEM_SIZE];
  }

  /** With less than an item header left, the lookahead finds nothing. */
  lemma NothingLeft(d: seq<Byte>, p: nat, m: Snapshot)
    requires |d| < p + LOG_ITEM_SIZE
    ensures Lookahead(d, p, m).item.kind == 0
  {
  }

  /** At the end of the complete records: the tail never yields a message. */
  lemma {:induction false} ReadTail(d: seq<Byte>, p: nat, tail: Tail, m: Snapshot, n: nat, fallback: Double -> I64)
    requires 1 <= p && At(d, p, [], tail) && tail.Proper()
    ensures ReadMany(Lookahead(d, p, m), n, fallback) == Padded(Answers([], tail, fallback), n)
  {
    hide LoadItem, StoreItem, NextMessage, NextHeader, Lookahead, ReadMany;
    if tail.Clean? {
      assert |d[p..]| == |tail.bytes|;
      NothingLeft(d, p, m);
      Exhausted(Lookahead(d, p, m), n, fallback);
    } else {
      TailItem(d, p, tail);
      ReadPartialItem(d, p, tail, m, n, fallback);
    }
  }

  lemma {:induction false} ReadPartialItem(d: seq<Byte>, p: nat, tail: Tail, m: Snapshot, n: nat,
                                           fallback: Double -> I64)
    requires 1 <= p && tail.Partial?
    requires p + LOG_ITEM_SIZE <= |d| < p + LOG_ITEM_SIZE + tail.item.payloadSize
    requires d[p..p + LOG_ITEM_SIZE] == StoreItem(tail.item)
    ensures ReadMany(Lookahead(d, p, m), n, fallback) == Padded(Answers([], tail, fallback), n)
  {
    hide LoadItem, StoreItem, NextMessage, NextHeader, Lookahead;
    LookaheadItem(d, p, m, tail.item);
    if tail.item.kind == 0 {
      Exhausted(Lookahead(d, p, m), n, fallback);
    } else if tail.item.kind != RT_OCULUS_SONAR {
      SkipOther(d, p, m, tail.item, n, fallback);
      var q := p + LOG_ITEM_SIZE + tail.item.payloadSize;
      NothingLeft(d, q, m);
      Exhausted(Lookahead(d, q, m), n, fallback);
    } else if n > 0 {
      CutSonar(d, p, m, tail.item, fallback);
      Exhausted(NextMessage(Lookahead(d, p, m), fallback).0, n - 1, fallback);
    }
  }

  lemma CutStampRaises(d: seq<Byte>, p: nat, m: Snapshot, date: Double, tail: Tail, fallback: Double -> I64)
    requires At(d, p, [], tail) && tail.Proper() && tail.IsStamp() && tail.item.payloadSize == STAMP_SIZE
    ensures var (s, outcome) := AttachStamp(Lookahead(d, p, m), date, fallback);
            outcome == Raised && s.item.kind == 0
  {
    hide LoadItem, StoreItem, LoadStamp;
    TailItem(d, p, tail);
    LookaheadItem(d, p, m, tail.item);
  }

  /** A stamp cut short: the message in front of it is lost to the exception. */
  lemma {:induction false} CutStamp(d: seq<Byte>, p: nat, m: Snapshot, r: Record, tail: Tail, n: nat,
                                    fallback: Double -> I64)
    requires SonarAt(d, p, r) && At(d, p + r.Size(), [], tail)
    requires tail.Proper() && tail.IsStamp() && tail.item.payloadSize == STAMP_SIZE
    ensures ReadMany(Lookahead(d, p, m), n, fallback) == Padded([Raised], n)
  {
    hide LoadItem, StoreItem, LoadHeader, LoadStamp, NextMessage, AttachStamp, Lookahead;
    if n > 0 {
      ReadSonar(d, p, m, r, fallback);
      CutStampRaises(d, p + r.Size(), MessageOf(r, m.timestamp), r.item.time, tail, fallback);
      Exhausted(NextMessage(Lookahead(d, p, m), fallback).0, n - 1, fallback);
    }
  }

  lemma LookaheadTail(d: seq<Byte>, p: nat, tail: Tail, m: Snapshot)
    requires At(d, p, [], tail) && tail.Proper()
    ensures Lookahead(d, p, m).item.kind == RT_OCULUS_SONAR_STAMP <==> tail.IsStamp()
  {
    hide LoadItem, StoreItem;
    if tail.Partial? {
      TailItem(d, p, tail);
      LookaheadItem(d, p, m, tail.item);
    }
  }

  /** The reader answers exactly what the log means, for any mix of items, cut anywhere. */
  lemma {:induction false} ReadLog(d: seq<Byte>, p: nat, rs: seq<Record>, tail: Tail, m: Snapshot, n: nat,
                                   fallback: Double -> I64)
    requires 1 <= p && At(d, p, rs, tail) && tail.Proper() && Readable(rs, tail)
    ensures ReadMany(Lookahead(d, p, m), n, fallback) == Padded(Answers(rs, tail, fallback), n)
    decreases |rs|
  {
    hide LoadItem, StoreItem, LoadHeader, LoadStamp, NextMessage, NextHeader, Lookahead, At, StoreRecords;
    if rs == [] {
      ReadTail(d, p, tail, m, n, fallback);
    } else if n > 0 {
      var r, q := rs[0], p + rs[0].Size();
      Peel(d, p, rs, tail);
      LookaheadItem(d, p, m, r.item);
      if r.item.kind == 0 {
        Exhausted(Lookahead(d, p, m), n, fallback);
      } else if r.item.kind != RT_OCULUS_SONAR {
        SkipOther(d, p, m, r.item, n, fallback);
        ReadLog(d, q, rs[1..], tail, m, n, fallback);
      } else if |rs| > 1 && rs[1].item.kind == RT_OCULUS_SONAR_STAMP {
        var s := rs[1];
        Peel(d, q, rs[1..], tail);
        Stamped(d, p, m, r, s, n, fallback);
        ReadLog(d, q + s.Size(), rs[1..][1..], tail, MessageOf(r, ToSonarStamp(LoadStamp(s.payload))), n - 1, fallback);
      } else if |rs| == 1 && tail.IsStamp() {
        assert rs[1..] == [];
        CutStamp(d, p, m, r, tail, n, fallback);
      } else {
        NoStampBehind(d, q, rs[1..], tail, m);
        Unstamped(d, p, m, r, n, fallback);
        ReadLog(d, q, rs[1..], tail, MessageOf(r, fallback(r.item.time)), n - 1, fallback);
      }
    }
  }

  lemma NoStampBehind(d: seq<Byte>, p: nat, rs: seq<Record>, tail: Tail, m: Snapshot)
    requires At(d, p, rs, tail) && tail.Proper()
    requires if rs == [] then !tail.IsStamp() else rs[0].item.kind != RT_OCULUS_SONAR_STAMP
    ensures Lookahead(d, p, m).item.kind != RT_OCULUS_SONAR_STAMP
  {
    if rs == [] {
      LookaheadTail(d, p, tail, m);
    } else {
      Peel(d, p, rs, tail);
      LookaheadItem(d, p, m, rs[0].item);
    }
  }

  // ---------------------------------------------------------------- undefined behaviour

  lemma {:induction false} AnswersAreDefined(rs: seq<Record>, tail: Tail, fallback: Double -> I64)
    requires Readable(rs, tail)
    ensures Undefined !in Answers(rs, tail, fallback)
    decreases |rs|
  {
    hide LoadHeader, LoadStamp, ToSonarStamp;
    if rs != [] && rs[0].item.kind != 0 {
      AnswersAreDefined(rs[1..], tail, fallback);
      if |rs| > 1 && rs[1].item.kind == RT_OCULUS_SONAR_STAMP {
        assert rs[1..][0] == rs[1];
        AnswersAreDefined(rs[1..][1..], tail, fallback);
      }
    }
  }

  lemma {:induction false} PaddedIsDefined(s: seq<Answer>, n: nat)
    requires Undefined !in s
    ensures Undefined !in Padded(s, n)
    decreases n
  {
    if n > 0 && s != [] {
      PaddedIsDefined(s[1..], n - 1);
    } else if n > 0 {
      PaddedIsDefined([], n - 1);
    }
  }

  /** A sonar item below 16 bytes leaves less than a header in the buffer. */
  lemma ShortSonar(d: seq<Byte>, p: nat, m: Snapshot, r: Record, fallback: Double -> I64)
    requires RecordAt(d, p, r) && r.item.kind == RT_OCULUS_SONAR && |r.payload| < HEADER_SIZE
    ensures NextMessage(Lookahead(d, p, m), fallback).1 == Undefined
  {
    hide LoadItem, StoreItem, LoadHeader, LoadStamp;
    LookaheadItem(d, p, m, r.item);
    ReadOver(d, p, m, r.item);
  }

  /** A stamp item of another size does not fit the stamp. */
  lemma OddStamp(d: seq<Byte>, p: nat, m: Snapshot, r: Record, stamp: LogItem, fallback: Double -> I64)
    requires SonarAt(d, p, r) && p + r.Size() + LOG_ITEM_SIZE <= |d|
    requires d[p + r.Size()..p + r.Size() + LOG_ITEM_SIZE] == StoreItem(stamp)
    requires stamp.kind == RT_OCULUS_SONAR_STAMP && stamp.payloadSize != STAMP_SIZE
    ensures NextMessage(Lookahead(d, p, m), fallback).1 == Undefined
  {
    hide LoadItem, StoreItem, LoadHeader, LoadStamp, NextMessage, Lookahead;
    ReadSonar(d, p, m, r, fallback);
    LookaheadItem(d, p + r.Size(), MessageOf(r, m.timestamp), stamp);
  }

  lemma FollowingAt(d: seq<Byte>, p: nat, rs: seq<Record>, tail: Tail)
    requires rs != [] && At(d, p + rs[0].Size(), rs[1..], tail) && tail.Proper() && Following(rs, tail).Some?
    ensures var q := p + rs[0].Size();
            q + LOG_ITEM_SIZE <= |d| && d[q..q + LOG_ITEM_SIZE] == StoreItem(Following(rs, tail).value)
  {
    hide StoreItem;
    if |rs| > 1 {
      assert rs[1..][0] == rs[1];
      Peel(d, p + rs[0].Size(), rs[1..], tail);
    } else {
      assert rs[1..] == [];
      TailItem(d, p + rs[0].Size(), tail);
    }
  }

  /** What does not read well is read: after some number of calls an answer is undefined. */
  lemma {:induction false} UnreadableIsUndefined(d: seq<Byte>, p: nat, rs: seq<Record>, tail: Tail, m: Snapshot,
                                                 fallback: Double -> I64)
    returns (n: nat)
    requires 1 <= p && At(d, p, rs, tail) && tail.Proper() && AllComplete(rs) && !Readable(rs, tail)
    ensures Undefined in ReadMany(Lookahead(d, p, m), n, fallback)
    decreases |rs|
  {
    hide LoadItem, StoreItem, LoadHeader, LoadStamp, NextMessage, NextHeader, Lookahead, At, StoreRecords, StoreRecord;
    var r, q := rs[0], p + rs[0].Size();
    assert r in rs && AllComplete(rs[1..]);
    Peel(d, p, rs, tail);
    if !FirstReadable(rs, tail) {
      if |r.payload| < HEADER_SIZE {
        ShortSonar(d, p, m, r, fallback);
      } else {
        FollowingAt(d, p, rs, tail);
        OddStamp(d, p, m, r, Following(rs, tail).value, fallback);
      }
      assert ReadMany(Lookahead(d, p, m), 1, fallback)[0] == Undefined;
      return 1;
    }
    if r.item.kind != RT_OCULUS_SONAR {
      n := UnreadableIsUndefined(d, q, rs[1..], tail, m, fallback);
      SkipOther(d, p, m, r.item, n, fallback);
    } else if |rs| > 1 && rs[1].item.kind == RT_OCULUS_SONAR_STAMP {
      var s := rs[1];
      assert s in rs && s.Complete();
      assert rs[1..][0] == s && !Readable(rs[1..][1..], tail) && AllComplete(rs[1..][1..]);
      Peel(d, q, rs[1..], tail);
      var next := MessageOf(r, ToSonarStamp(LoadStamp(s.payload)));
      n := UnreadableIsUndefined(d, q + s.Size(), rs[1..][1..], tail, next, fallback);
      n := n + 1;
      Stamped(d, p, m, r, s, n, fallback);
    } else {
      assert rs[1..] != [];
      NoStampBehind(d, q, rs[1..], tail, m);
      n := UnreadableIsUndefined(d, q, rs[1..], tail, MessageOf(r, fallback(r.item.time)), fallback);
      n := n + 1;
      Unstamped(d, p, m, r, n, fallback);
    }
  }

  /** Exactly which logs lead the reader out of a buffer: some answer is undefined if and only
      if the records in front of the first item of kind 0, or of the end, are not readable. */
  lemma {:induction false} UndefinedIffUnreadable(d: seq<Byte>, p: nat, rs: seq<Record>, tail: Tail, m: Snapshot,
                                                  fallback: Double -> I64)
    requires 1 <= p && At(d, p, rs, tail) && tail.Proper() && AllComplete(rs)
    ensures (exists n: nat :: Undefined in ReadMany(Lookahead(d, p, m), n, fallback)) <==> !Readable(rs, tail)
  {
    hide At, AllComplete, Readable, ReadMany, Lookahead, Answers, Padded;
    if Readable(rs, tail) {
      forall n: nat ensures Undefined !in ReadMany(Lookahead(d, p, m), n, fallback) {
        ReadLog(d, p, rs, tail, m, n, fallback);
        AnswersAreDefined(rs, tail, fallback);
        PaddedIsDefined(Answers(rs, tail, fallback), n);
      }
    } else {
      var n := UnreadableIsUndefined(d, p, rs, tail, m, fallback);
    }
  }
}
