/** The log reader: a parser with one item of lookahead over an input stream. Each member
    function of the original appears twice, as a function on the reader's state and as a
    method of the class that is proved against it. */
module LogReader {
  import opened Basics
  import opened Bytes
  import opened OculusMessage
  import opened LogFormat

  /** How a call ends: a value, the std::runtime_error the original throws, or behaviour the
      original leaves undefined (a read or write outside a buffer). */
  datatype Outcome<+T> = Returned(value: T) | Raised | Undefined

  // ---------------------------------------------------------------- std::ifstream

  /** A std::ifstream on a file with the given contents. */
  datatype InFile = InFile(data: seq<Byte>, pos: nat, eof: bool, fail: bool) {
    predicate Good() {
      !eof && !fail
    }

    /** `read`: a stream that is not good only gets its fail bit set; a short read takes what
        is left and sets both bits. */
    function Read(n: nat): (r: (seq<Byte>, InFile))
      ensures !r.1.fail ==> |r.0| == n
      ensures |r.0| <= n
      ensures r.1.data == data
    {
      if !Good() then ([], this.(fail := true))
      else if n == 0 then ([], this)
      else if pos + n <= |data| then (data[pos..pos + n], this.(pos := pos + n))
      else if pos <= |data| then (data[pos..], InFile(data, |data|, true, true))
      else ([], InFile(data, pos, true, true))
    }

    /** `seekg` clears the eof bit only, and moves only a stream that has not failed. Moving
        past the end of the file is not an error. */
    function SeekTo(p: nat): InFile {
      if fail then this.(eof := false) else InFile(data, p, false, false)
    }

    function Skip(n: nat): InFile {
      SeekTo(pos + n)
    }

    /** `tellg`, converted to size_t. */
    function Tell(): nat {
      if fail then TWO_64 - 1 else pos
    }
  }

  // ---------------------------------------------------------------- reader state

  datatype Reader = Reader(file: InFile, item: LogItem, position: nat, message: Snapshot) {
    /** Strictly decreases with every item consumed. */
    function Left(): nat {
      if item.kind == 0 then 0 else 1 + (if file.pos <= |file.data| then |file.data| - file.pos else 0)
    }
  }

  /** Second component: an exception is raised. */
  function NextHeader(r: Reader): (s: (Reader, bool))
    ensures s.0.file.data == r.file.data && s.0.message == r.message
    ensures s.0.Left() <= |r.file.data|
    ensures s.0.item.kind != 0 ==> s.0.Left() + LOG_ITEM_SIZE <= 1 + |r.file.data| - r.file.pos
  {
    var (bytes, file) := r.file.Read(LOG_ITEM_SIZE);
    if file.fail then (r.(file := file, item := ZERO_ITEM, position := 0), !file.eof)
    else (r.(file := file, item := LoadItem(bytes), position := r.file.Tell()), false)
  }

  function JumpItem(r: Reader): (s: (Reader, Outcome<nat>))
    ensures s.0.file.data == r.file.data && s.0.message == r.message
    ensures r.item.kind != 0 ==> s.0.Left() < r.Left()
  {
    if r.item.kind == 0 then (r, Returned(0))
    else
      var file := r.file.Skip(r.item.payloadSize);
      if file.fail then (r.(file := file, item := ZERO_ITEM), Raised)
      else
        var (s, raised) := NextHeader(r.(file := file));
        (s, if raised then Raised else Returned(r.position))
  }

  /** Reading an item's payload; the middle component holds the bytes delivered. */
  function ReadItem(r: Reader): (s: (Reader, seq<Byte>, Outcome<nat>))
    ensures s.0.file.data == r.file.data && s.0.message == r.message
    ensures r.item.kind != 0 ==> s.0.Left() < r.Left()
    ensures |s.1| <= r.item.payloadSize
    ensures s.2.Returned? && r.item.kind != 0 ==> |s.1| == r.item.payloadSize
  {
    if r.item.kind == 0 then (r, [], Returned(0))
    else
      var (bytes, file) := r.file.Read(r.item.payloadSize);
      if file.fail then (r.(file := file, item := ZERO_ITEM), bytes, Raised)
      else
        var (s, raised) := NextHeader(r.(file := file));
        (s, bytes, if raised then Raised else Returned(r.position))
  }

  /** The overload that resizes a vector first, applied to the shared message's buffer. */
  function ReadItemIntoMessage(r: Reader): (s: (Reader, Outcome<nat>))
    ensures s.0.file.data == r.file.data
    ensures r.item.kind != 0 ==> s.0.Left() < r.Left()
  {
    if r.item.kind == 0 then (r, Returned(0))
    else
      var (s, bytes, outcome) := ReadItem(r);
      (s.(message := r.message.(data := Overwrite(Resize(r.message.data, r.item.payloadSize), bytes))), outcome)
  }

  /** The loop that looks for the next sonar item. */
  function SkipToSonar(r: Reader): (s: (Reader, Outcome<()>))
    ensures s.0.file.data == r.file.data && s.0.message == r.message && s.0.Left() <= r.Left()
    decreases r.Left()
  {
    if r.item.kind == RT_OCULUS_SONAR || r.item.kind == 0 then (r, Returned(()))
    else
      var (s, outcome) := JumpItem(r);
      if !outcome.Returned? then (s, Raised)
      else if outcome.value == 0 then (s, Returned(()))
      else SkipToSonar(s)
  }

  /** The time stamp of the message just read: from the item that follows if that is a stamp,
      otherwise from the date of the message's own item. */
  function AttachStamp(r: Reader, date: Double, fallback: Double -> I64): (s: (Reader, Outcome<()>))
    ensures s.0.file.data == r.file.data
    ensures s.0.Left() <= r.Left()
  {
    if r.item.kind != RT_OCULUS_SONAR_STAMP then
      (r.(message := r.message.(timestamp := fallback(date))), Returned(()))
    else if r.item.payloadSize != STAMP_SIZE then (r, Undefined)
    else
      var (s, bytes, outcome) := ReadItem(r);
      if !outcome.Returned? then (s, Raised)
      else (s.(message := s.message.(timestamp := ToSonarStamp(LoadStamp(bytes)))), Returned(()))
  }

  function NextMessage(r: Reader, fallback: Double -> I64): (s: (Reader, Outcome<Option<Snapshot>>))
    ensures s.0.file.data == r.file.data
    ensures s.1.Returned? && s.1.value.Some? ==> s.1.value.value == s.0.message && s.0.Left() < r.Left()
  {
    var (a, skipped) := SkipToSonar(r);
    if !skipped.Returned? then (a, Raised)
    else if a.item.kind == 0 then (a, Returned(None))
    else
      var (b, read) := ReadItemIntoMessage(a);
      if !read.Returned? then (b, Raised)
      else if |b.message.data| < HEADER_SIZE then (b, Undefined)
      else
        var (c, stamped) := AttachStamp(b.(message := b.message.UpdateFromData()), a.item.time, fallback);
        (c, match stamped
            case Returned(_) => Returned(Some(c.message))
            case Raised => Raised
            case Undefined => Undefined)
  }

  function NextPing(r: Reader, fallback: Double -> I64): (Reader, Outcome<Option<Snapshot>>) {
    UntilPing(NextMessage(r, fallback), fallback)
  }

  /** The loop that throws away messages until one is a ping. */
  function UntilPing(last: (Reader, Outcome<Option<Snapshot>>), fallback: Double -> I64)
    : (Reader, Outcome<Option<Snapshot>>)
    decreases last.0.Left()
  {
    if last.1.Returned? && last.1.value.Some? && !last.1.value.value.IsPing() then
      var next := NextMessage(last.0, fallback);
      if next.1.Returned? && next.1.value.Some? then UntilPing(next, fallback) else next
    else last
  }

  /** `rewind`; second component: an exception is raised. */
  function Rewind(r: Reader): (Reader, bool) {
    NextHeader(r.(file := r.file.SeekTo(LOG_HEADER_SIZE)))
  }

  // ---------------------------------------------------------------- the class

  class FileReader {
    var file: InFile
    var isOpen: bool
    var nextItem: LogItem
    var itemPosition: nat
    var fileHeader: LogHeader
    const message: Message                 // shared with every caller of ReadNextMessage
    const fallback: Double -> I64          // double seconds to a time point, left abstract

    function State(): Reader
      reads this, message
    {
      Reader(file, nextItem, itemPosition, message.Value())
    }

    /** The members up to the call of `open`. */
    constructor (fallback: Double -> I64)
      ensures !isOpen && nextItem == ZERO_ITEM && itemPosition == 0 && fresh(message)
      ensures this.fallback == fallback && message.Value() == Snapshot(ZERO_HEADER, [], 0)
    {
      file, isOpen := InFile([], 0, false, false), false;
      nextItem, itemPosition := ZERO_ITEM, 0;
      fileHeader := LogHeader(0, 0, Zeros(16), 0, 0, 0, ZERO_DOUBLE);
      message := new Message();
      this.fallback := fallback;
    }

    /** `contents` is None when the file cannot be opened. A version other than 1 only draws
        a warning. Opening a stream that is already open fails it, and changes nothing else. */
    method Open(contents: Option<seq<Byte>>) returns (ok: bool)
      modifies this
      ensures ok <==> && !old(isOpen) && contents.Some? && |contents.value| >= LOG_HEADER_SIZE
                      && var h := LoadLogHeader(contents.value[..LOG_HEADER_SIZE]);
                         h.fileHeader == FILE_MAGIC && h.encryption == 0
      ensures ok ==> fileHeader == LoadLogHeader(contents.value[..LOG_HEADER_SIZE])
      ensures ok ==> State() == NextHeader(Reader(InFile(contents.value, LOG_HEADER_SIZE, false, false),
                                                  old(nextItem), old(itemPosition), old(message.Value()))).0
      ensures old(isOpen) ==>
        State() == old(State()).(file := old(file).(fail := true)) && fileHeader == old(fileHeader)
      ensures isOpen <==> old(isOpen) || contents.Some?
    {
      if isOpen || contents.None? {
        file := file.(fail := true);
      } else {
        file, isOpen := InFile(contents.value, 0, false, false), true;
      }
      if !isOpen {
        return false;
      }
      var (bytes, file') := file.Read(LOG_HEADER_SIZE);
      file := file';
      if file.fail {
        return false;
      }
      fileHeader := LoadLogHeader(bytes);
      if fileHeader.fileHeader != FILE_MAGIC || fileHeader.encryption != 0 {
        return false;
      }
      ok := ReadNextHeader();
    }

    method ReadNextHeader() returns (ok: bool)
      modifies this`file, this`nextItem, this`itemPosition
      ensures (State(), !ok) == NextHeader(old(State()))
    {
      itemPosition := file.Tell();
      var (bytes, file') := file.Read(LOG_ITEM_SIZE);
      file := file';
      if file.fail {
        nextItem := ZERO_ITEM;
        itemPosition := 0;
        return file.eof;
      }
      nextItem := LoadItem(bytes);
      return true;
    }

    method RewindToStart() returns (ok: bool)
      modifies this
      ensures (State(), !ok) == Rewind(old(State()))
      ensures fileHeader == old(fileHeader)
    {
      file := file.SeekTo(LOG_HEADER_SIZE);
      ok := ReadNextHeader();
    }

    method Jump() returns (outcome: Outcome<nat>)
      modifies this`file, this`nextItem, this`itemPosition
      ensures (State(), outcome) == JumpItem(old(State()))
    {
      if nextItem.kind == 0 {
        return Returned(0);
      }
      file := file.Skip(nextItem.payloadSize);
      if file.fail {
        nextItem := ZERO_ITEM;
        return Raised;
      }
      var currentItemPosition := itemPosition;
      var ok := ReadNextHeader();
      outcome := if ok then Returned(currentItemPosition) else Raised;
    }

    method ReadNextItem() returns (bytes: seq<Byte>, outcome: Outcome<nat>)
      modifies this`file, this`nextItem, this`itemPosition
      ensures (State(), bytes, outcome) == ReadItem(old(State()))
    {
      if nextItem.kind == 0 {
        return [], Returned(0);
      }
      var (got, file') := file.Read(nextItem.payloadSize);
      bytes, file := got, file';
      if file.fail {
        nextItem := ZERO_ITEM;
        return bytes, Raised;
      }
      var currentItemPosition := itemPosition;
      var ok := ReadNextHeader();
      outcome := if ok then Returned(currentItemPosition) else Raised;
    }

    method ReadNextItemIntoMessage() returns (outcome: Outcome<nat>)
      modifies this`file, this`nextItem, this`itemPosition, message`data
      ensures (State(), outcome) == ReadItemIntoMessage(old(State()))
    {
      if nextItem.kind == 0 {
        return Returned(0);
      }
      var buffer := Resize(message.data, nextItem.payloadSize);
      var bytes;
      bytes, outcome := ReadNextItem();
      message.data := Overwrite(buffer, bytes);
    }

    /** A pointer and an outcome handed to the caller are what the state function says. */
    ghost predicate Delivers(m: Message?, outcome: Outcome<()>, expected: (Reader, Outcome<Option<Snapshot>>))
      reads this, message
    {
      && State() == expected.0
      && (m != null <==> expected.1.Returned? && expected.1.value.Some?)
      && (m != null ==> m == message && m.Value() == expected.1.value.value)
      && (outcome.Returned? <==> expected.1.Returned?)
      && (outcome.Raised? <==> expected.1.Raised?)
    }

    /** The message handed out is always the same object, overwritten by this call. */
    method ReadNextMessage() returns (m: Message?, outcome: Outcome<()>)
      modifies this`file, this`nextItem, this`itemPosition, message
      ensures Delivers(m, outcome, NextMessage(old(State()), fallback))
    {
      m := null;
      var searching := true;
      while searching && nextItem.kind != RT_OCULUS_SONAR
        invariant message.Value() == old(message.Value())
        invariant searching ==> SkipToSonar(old(State())) == SkipToSonar(State())
        invariant !searching ==> SkipToSonar(old(State())) == (State(), Returned(()))
        decreases searching, State().Left()
      {
        var jumped := Jump();
        if !jumped.Returned? {
          return null, Raised;
        }
        searching := jumped.value != 0;
      }
      if nextItem.kind == 0 {
        return null, Returned(());
      }
      var nextItemDate := nextItem.time;
      var read := ReadNextItemIntoMessage();
      if !read.Returned? {
        return null, Raised;
      }
      if |message.data| < HEADER_SIZE {
        return null, Undefined;
      }
      message.UpdateFromData();
      if nextItem.kind == RT_OCULUS_SONAR_STAMP {
        if nextItem.payloadSize != STAMP_SIZE {
          return null, Undefined;
        }
        var bytes;
        bytes, read := ReadNextItem();
        if !read.Returned? {
          return null, Raised;
        }
        message.timestamp := ToSonarStamp(LoadStamp(bytes));
      } else {
        message.timestamp := fallback(nextItemDate);
      }
      return message, Returned(());
    }

    method ReadNextPing() returns (m: Message?, outcome: Outcome<()>)
      modifies this`file, this`nextItem, this`itemPosition, message
      ensures Delivers(m, outcome, NextPing(old(State()), fallback))
    {
      ghost var last := NextMessage(State(), fallback);
      m, outcome := ReadNextMessage();
      while m != null && !m.Value().IsPing()
        invariant Delivers(m, outcome, last)
        invariant UntilPing(last, fallback) == NextPing(old(State()), fallback)
        decreases m != null, last.0.Left()
      {
        last := NextMessage(State(), fallback);
        m, outcome := ReadNextMessage();
      }
    }
  }
}
