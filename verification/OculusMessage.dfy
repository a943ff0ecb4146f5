/** The network message of the sonar: a packed 16-byte header followed by a payload. */
module OculusMessage {
  import opened Bytes

  const OCULUS_CHECK_ID: U16 := 0x4f53
  const HEADER_SIZE: nat := 16

  const MSG_SIMPLE_FIRE: U16 := 0x15
  const MSG_SIMPLE_PING_RESULT: U16 := 0x23
  const MSG_DUMMY: U16 := 0xff

  datatype Header = Header(
    oculusId: U16, srcDeviceId: U16, dstDeviceId: U16, msgId: U16,
    msgVersion: U16, payloadSize: U32, spare2: U16)

  const ZERO_HEADER := Header(0, 0, 0, 0, 0, 0, 0)

  function StoreHeader(h: Header): (s: seq<Byte>)
    ensures |s| == HEADER_SIZE
  {
    Store16(h.oculusId) + Store16(h.srcDeviceId) + Store16(h.dstDeviceId) + Store16(h.msgId)
    + Store16(h.msgVersion) + Store32(h.payloadSize) + Store16(h.spare2)
  }

  function LoadHeader(s: seq<Byte>): Header
    requires |s| >= HEADER_SIZE
  {
    Header(Load16(s, 0), Load16(s, 2), Load16(s, 4), Load16(s, 6), Load16(s, 8), Load32(s, 10), Load16(s, 14))
  }

  /** Where the fields of a header lie. */
  lemma HeaderLayout(s: seq<Byte>)
    requires |s| >= HEADER_SIZE
    ensures var h := LoadHeader(s);
            && h.oculusId == LittleEndian(s[0..2]) && h.srcDeviceId == LittleEndian(s[2..4])
            && h.dstDeviceId == LittleEndian(s[4..6]) && h.msgId == LittleEndian(s[6..8])
            && h.msgVersion == LittleEndian(s[8..10]) && h.payloadSize == LittleEndian(s[10..14])
            && h.spare2 == LittleEndian(s[14..16])
  {
    hide LittleEndian, Load16, Load32;
    LoadIsLittleEndian(s, 0);
    LoadIsLittleEndian(s, 2);
    LoadIsLittleEndian(s, 4);
    LoadIsLittleEndian(s, 6);
    LoadIsLittleEndian(s, 8);
    LoadIsLittleEndian(s, 10);
    LoadIsLittleEndian(s, 14);
  }

  lemma LoadStoreHeader(h: Header, s: seq<Byte>)
    requires |s| >= HEADER_SIZE && s[..HEADER_SIZE] == StoreHeader(h)
    ensures LoadHeader(s) == h
  {
    var t := s[..HEADER_SIZE];
    assert s[0..2] == t[0..2] == Store16(h.oculusId);
    assert s[2..4] == t[2..4] == Store16(h.srcDeviceId);
    assert s[4..6] == t[4..6] == Store16(h.dstDeviceId);
    assert s[6..8] == t[6..8] == Store16(h.msgId);
    assert s[8..10] == t[8..10] == Store16(h.msgVersion);
    assert s[10..14] == t[10..14] == Store32(h.payloadSize);
    assert s[14..16] == t[14..16] == Store16(h.spare2);
    LoadStore16(h.oculusId, s, 0);
    LoadStore16(h.srcDeviceId, s, 2);
    LoadStore16(h.dstDeviceId, s, 4);
    LoadStore16(h.msgId, s, 6);
    LoadStore16(h.msgVersion, s, 8);
    LoadStore32(h.payloadSize, s, 10);
    LoadStore16(h.spare2, s, 14);
  }

  lemma StoreLoadHeader(s: seq<Byte>)
    requires |s| >= HEADER_SIZE
    ensures StoreHeader(LoadHeader(s)) == s[..HEADER_SIZE]
  {
    StoreLoad16(s, 0);
    StoreLoad16(s, 2);
    StoreLoad16(s, 4);
    StoreLoad16(s, 6);
    StoreLoad16(s, 8);
    StoreLoad32(s, 10);
    StoreLoad16(s, 14);
    assert s[..16] == s[0..2] + s[2..4] + s[4..6] + s[6..8] + s[8..10] + s[10..14] + s[14..16];
  }

  /** What a `Message` object holds at one instant. The objects are shared and
      rewritten in place, so results about several messages are stated on snapshots. */
  datatype Snapshot = Snapshot(header: Header, data: seq<Byte>, timestamp: I64) {
    /** The relation that only SonarClient and FileReader may disturb. */
    predicate Consistent() {
      |data| >= HEADER_SIZE && header == LoadHeader(data)
    }

    predicate IsPing() {
      header.msgId == MSG_SIMPLE_PING_RESULT
    }

    function UpdateFromHeader(now: I64): Snapshot {
      Snapshot(header, StoreHeader(header) + Resize(data, header.payloadSize + HEADER_SIZE)[HEADER_SIZE..], now)
    }

    function UpdateFromData(): Snapshot
      requires |data| >= HEADER_SIZE
    {
      this.(header := LoadHeader(data))
    }
  }

  predicate HeaderValid(h: Header) {
    h.oculusId == OCULUS_CHECK_ID
  }

  class Message {
    var timestamp: I64
    var header: Header
    var data: seq<Byte>

    function Value(): Snapshot
      reads this
    {
      Snapshot(header, data, timestamp)
    }

    constructor ()
      ensures Value() == Snapshot(ZERO_HEADER, [], 0)
    {
      timestamp, header, data := 0, ZERO_HEADER, [];
    }

    /** Sizes the buffer for the announced payload and writes the header at its start. */
    method UpdateFromHeader(now: I64)
      modifies this
      ensures Value() == old(Value()).UpdateFromHeader(now)
      ensures |data| == HEADER_SIZE + header.payloadSize && Value().Consistent()
      ensures header == old(header) && timestamp == now
      ensures forall i :: HEADER_SIZE <= i < |data| ==> data[i] == if i < |old(data)| then old(data)[i] else 0
    {
      timestamp := now;
      data := Resize(data, header.payloadSize + HEADER_SIZE);
      data := Overwrite(data, StoreHeader(header));
      LoadStoreHeader(header, data);
    }

    method UpdateFromData()
      requires |data| >= HEADER_SIZE
      modifies this`header
      ensures Value() == old(Value()).UpdateFromData() && Value().Consistent()
    {
      header := LoadHeader(data);
    }

    /** `Message::Create` on a caller's buffer: nothing unless the magic number is right
        and the announced size is exactly the buffer's. The announced size is summed in
        size_t, so it does not wrap. */
    static method Create(bytes: seq<Byte>, stamp: I64) returns (m: Message?)
      requires |bytes| >= HEADER_SIZE
      ensures m == null <==> !HeaderValid(LoadHeader(bytes))
                             || |bytes| != LoadHeader(bytes).payloadSize + HEADER_SIZE
      ensures m != null ==> fresh(m) && m.Value() == Snapshot(LoadHeader(bytes), bytes, stamp) && m.Value().Consistent()
    {
      var h := LoadHeader(bytes);
      if !HeaderValid(h) || |bytes| != h.payloadSize + HEADER_SIZE {
        return null;
      }
      m := new Message();
      m.header := h;
      m.timestamp := stamp;
      m.data := bytes;
    }
  }
}
