/** The `.oculus` log format: a 48-byte file header, then records made of a 40-byte
    item header and its payload. Both structures have the natural alignment of a
    64-bit platform, so they contain padding, which the writer leaves zero. */
module LogFormat {
  import opened Bytes
  import opened OculusMessage

  const FILE_MAGIC: U32 := 0x11223344
  const ITEM_MAGIC: U32 := 0xaabbccdd
  const LOG_HEADER_SIZE: nat := 48
  const LOG_ITEM_SIZE: nat := 40
  const STAMP_SIZE: nat := 16

  const RT_OCULUS_SONAR: U16 := 10
  const RT_OCULUS_SONAR_STAMP: U16 := 1010

  const NANOS_PER_SECOND: int := 1000000000

  /** An IEEE double, kept as its 8 bytes: no logic of the log looks inside one. */
  type Double = s: seq<Byte> | |s| == 8 witness [0, 0, 0, 0, 0, 0, 0, 0]

  const ZERO_DOUBLE: Double := [0, 0, 0, 0, 0, 0, 0, 0]

  // ---------------------------------------------------------------- file header

  datatype LogHeader = LogHeader(
    fileHeader: U32, sizeHeader: U32, source: seq<Byte>,
    version: U16, encryption: U16, key: U64, time: Double)

  /** "Oculus", its terminator, and the zeros of the memset. */
  const SOURCE_ID: seq<Byte> := [0x4f, 0x63, 0x75, 0x6c, 0x75, 0x73, 0] + Zeros(9)

  function StoreLogHeader(h: LogHeader): (s: seq<Byte>)
    requires |h.source| == 16
    ensures |s| == LOG_HEADER_SIZE
  {
    Store32(h.fileHeader) + Store32(h.sizeHeader) + h.source + Store16(h.version) + Store16(h.encryption)
    + Zeros(4) + Store64(h.key) + h.time
  }

  function LoadLogHeader(s: seq<Byte>): LogHeader
    requires |s| == LOG_HEADER_SIZE
  {
    LogHeader(Load32(s, 0), Load32(s, 4), s[8..24], Load16(s, 24), Load16(s, 26), Load64(s, 32), s[40..48])
  }

  lemma LoadStoreLogHeader(h: LogHeader)
    requires |h.source| == 16
    ensures LoadLogHeader(StoreLogHeader(h)) == h
  {
    var s := StoreLogHeader(h);
    assert s[0..4] == Store32(h.fileHeader);
    assert s[4..8] == Store32(h.sizeHeader);
    assert s[8..24] == h.source;
    assert s[24..26] == Store16(h.version);
    assert s[26..28] == Store16(h.encryption);
    assert s[32..40] == Store64(h.key);
    assert s[40..48] == h.time;
    LoadStore32(h.fileHeader, s, 0);
    LoadStore32(h.sizeHeader, s, 4);
    LoadStore16(h.version, s, 24);
    LoadStore16(h.encryption, s, 26);
    LoadStore64(h.key, s, 32);
  }

  // ---------------------------------------------------------------- items

  datatype LogItem = LogItem(
    itemHeader: U32, sizeHeader: U32, kind: U16, version: U16, time: Double,
    compression: U16, originalSize: U32, payloadSize: U32)

  const ZERO_ITEM := LogItem(0, 0, 0, 0, ZERO_DOUBLE, 0, 0, 0)

  function StoreItem(i: LogItem): (s: seq<Byte>)
    ensures |s| == LOG_ITEM_SIZE
  {
    Store32(i.itemHeader) + Store32(i.sizeHeader) + Store16(i.kind) + Store16(i.version) + Zeros(4) + i.time
    + Store16(i.compression) + Zeros(2) + Store32(i.originalSize) + Store32(i.payloadSize) + Zeros(4)
  }

  function LoadItem(s: seq<Byte>): LogItem
    requires |s| == LOG_ITEM_SIZE
  {
    LogItem(Load32(s, 0), Load32(s, 4), Load16(s, 8), Load16(s, 10), s[16..24], Load16(s, 24), Load32(s, 28),
            Load32(s, 32))
  }

  lemma LoadStoreItem(i: LogItem)
    ensures LoadItem(StoreItem(i)) == i
  {
    var s := StoreItem(i);
    assert s[0..4] == Store32(i.itemHeader);
    assert s[4..8] == Store32(i.sizeHeader);
    assert s[8..10] == Store16(i.kind);
    assert s[10..12] == Store16(i.version);
    assert s[16..24] == i.time;
    assert s[24..26] == Store16(i.compression);
    assert s[28..32] == Store32(i.originalSize);
    assert s[32..36] == Store32(i.payloadSize);
    LoadStore32(i.itemHeader, s, 0);
    LoadStore32(i.sizeHeader, s, 4);
    LoadStore16(i.kind, s, 8);
    LoadStore16(i.version, s, 10);
    LoadStore16(i.compression, s, 24);
    LoadStore32(i.originalSize, s, 28);
    LoadStore32(i.payloadSize, s, 32);
  }

  /** Where the fields of an item lie, between padding from 12, 26 and 36 on. */
  lemma ItemLayout(s: seq<Byte>)
    requires |s| == LOG_ITEM_SIZE
    ensures var i := LoadItem(s);
            && i.itemHeader == LittleEndian(s[0..4]) && i.sizeHeader == LittleEndian(s[4..8])
            && i.kind == LittleEndian(s[8..10]) && i.version == LittleEndian(s[10..12]) && i.time == s[16..24]
            && i.compression == LittleEndian(s[24..26]) && i.originalSize == LittleEndian(s[28..32])
            && i.payloadSize == LittleEndian(s[32..36])
  {
    hide LittleEndian, Load16, Load32;
    LoadIsLittleEndian(s, 0);
    LoadIsLittleEndian(s, 4);
    LoadIsLittleEndian(s, 8);
    LoadIsLittleEndian(s, 10);
    LoadIsLittleEndian(s, 24);
    LoadIsLittleEndian(s, 28);
    LoadIsLittleEndian(s, 32);
  }

  // ---------------------------------------------------------------- records

  datatype Record = Record(item: LogItem, payload: seq<Byte>) {
    predicate Complete() {
      |payload| == item.payloadSize
    }

    function Size(): nat {
      LOG_ITEM_SIZE + |payload|
    }
  }

  function StoreRecord(r: Record): (s: seq<Byte>)
    ensures |s| == r.Size()
  {
    StoreItem(r.item) + r.payload
  }

  function StoreRecords(rs: seq<Record>): seq<Byte> {
    if rs == [] then [] else StoreRecord(rs[0]) + StoreRecords(rs[1..])
  }

  lemma {:induction false} StoreRecordsAppend(a: seq<Record>, b: seq<Record>)
    ensures StoreRecords(a + b) == StoreRecords(a) + StoreRecords(b)
  {
    if a == [] {
      assert a + b == b;
    } else {
      assert (a + b)[1..] == a[1..] + b;
      StoreRecordsAppend(a[1..], b);
    }
  }

  // ---------------------------------------------------------------- time stamps

  /** Seconds and remaining nanoseconds, both uint64_t. */
  datatype TimeStamp = TimeStamp(seconds: U64, nanoseconds: U64)

  /** int64_t to uint64_t, and back, as the C++ conversions wrap. */
  function ToUnsigned(t: I64): U64 {
    if t < 0 then t + TWO_64 else t
  }

  function ToSigned(n: U64): I64 {
    if n >= 0x8000_0000_0000_0000 then n - TWO_64 else n
  }

  function FromSonarStamp(t: I64): TimeStamp {
    var n: int := ToUnsigned(t);
    TimeStamp(n / NANOS_PER_SECOND, n - NANOS_PER_SECOND * (n / NANOS_PER_SECOND))
  }

  /** The sum is computed in uint64_t. */
  function ToSonarStamp(s: TimeStamp): I64 {
    ToSigned((NANOS_PER_SECOND * s.seconds + s.nanoseconds) % TWO_64)
  }

  /** Every representable time point survives, also those before the epoch. */
  lemma StampRoundTrip(t: I64)
    ensures ToSonarStamp(FromSonarStamp(t)) == t
    ensures FromSonarStamp(t).nanoseconds < NANOS_PER_SECOND
  {
    var n: int := ToUnsigned(t);
    assert NANOS_PER_SECOND * (n / NANOS_PER_SECOND) + n % NANOS_PER_SECOND == n;
  }

  function StoreStamp(s: TimeStamp): (b: seq<Byte>)
    ensures |b| == STAMP_SIZE
  {
    Store64(s.seconds) + Store64(s.nanoseconds)
  }

  function LoadStamp(b: seq<Byte>): TimeStamp
    requires |b| == STAMP_SIZE
  {
    TimeStamp(Load64(b, 0), Load64(b, 8))
  }

  lemma StampLayout(b: seq<Byte>)
    requires |b| == STAMP_SIZE
    ensures LoadStamp(b).seconds == LittleEndian(b[0..8]) && LoadStamp(b).nanoseconds == LittleEndian(b[8..16])
  {
    hide LittleEndian, Load64;
    LoadIsLittleEndian(b, 0);
    LoadIsLittleEndian(b, 8);
  }

  lemma LoadStoreStamp(s: TimeStamp)
    ensures LoadStamp(StoreStamp(s)) == s
  {
    var b := StoreStamp(s);
    assert b[0..8] == Store64(s.seconds) && b[8..16] == Store64(s.nanoseconds);
    LoadStore64(s.seconds, b, 0);
    LoadStore64(s.nanoseconds, b, 8);
  }
}
