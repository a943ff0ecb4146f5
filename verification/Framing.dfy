/** The reception loop seen from the byte stream: which bytes reach `handle_message`. */
module Framing {
  import opened Basics
  import opened Bytes
  import opened OculusMessage
  import opened SonarClients

  // ---------------------------------------------------------------- the handlers on a stream

  /** The client waits for a header, on its current socket, with nothing else outstanding. */
  predicate Receiving(c: Client) {
    c.socket.Some? && c.pending == [HeaderRead(c.socket.value)]
  }

  /** The handlers run on the stream `s` from offset `p`, each read being given exactly the
      bytes it asked for, until one asks for more than is left. */
  function Feed(c: Client, s: seq<Byte>, p: nat, now: real, stamps: nat -> I64): Client
    requires Receiving(c) && p <= |s|
    decreases |s| - p
  {
    if p + HEADER_SIZE > |s| then c
    else
      var h := LoadHeader(s[p..p + HEADER_SIZE]);
      var d := c.HeaderDone(0, HEADER_SIZE, h, stamps(p));
      var q := p + HEADER_SIZE;
      if d.pending[0].HeaderRead? then Feed(d, s, q, now, stamps)
      else if q + d.pending[0].size > |s| then d
      else
        AfterHeader(c, h, stamps(p));
        AfterData(c, s, p, now, stamps(p));
        Feed(d.DataDone(now, 0, s[q..q + d.pending[0].size]), s, q + d.pending[0].size, now, stamps)
  }

  lemma AfterHeader(c: Client, h: Header, stamp: I64)
    requires Receiving(c)
    ensures var d := c.HeaderDone(0, HEADER_SIZE, h, stamp);
            && d.pending == (if c.IsValid(h) then [DataRead(c.socket.value, h.payloadSize)] else c.pending)
            && d.socket == c.socket && d.sonarId == c.sonarId && d.handled == c.handled && d.undefined == c.undefined
            && (c.IsValid(h) ==> d.message.header == h && d.message.timestamp == stamp
                                 && |d.message.data| == HEADER_SIZE + h.payloadSize
                                 && d.message.data[..HEADER_SIZE] == StoreHeader(h))
  {
    hide StoreHeader;
    assert Without(c.pending, 0) == [];
  }

  /** A client whose only read is that of a payload gets all of it. */
  lemma PayloadTaken(d: Client, now: real, payload: seq<Byte>, data: seq<Byte>)
    requires d.socket.Some? && d.pending == [DataRead(d.socket.value, |payload|)]
    requires d.message.header.payloadSize == |payload| && |d.message.data| == HEADER_SIZE + |payload|
    requires data == d.message.data[..HEADER_SIZE] + payload
    ensures var e := d.DataDone(now, 0, payload);
            && Receiving(e) && e.sonarId == d.sonarId && e.undefined == d.undefined
            && e.handled == d.handled + [d.message.(data := data)]
  {
    assert Without(d.pending, 0) == [];
    assert d.message.data[HEADER_SIZE + |payload|..] == [];
    assert data + [] == data;
  }

  lemma AfterData(c: Client, s: seq<Byte>, p: nat, now: real, stamp: I64)
    requires Receiving(c) && p + HEADER_SIZE <= |s|
    requires Accepted(s, p, c.sonarId)
    ensures var h := LoadHeader(s[p..p + HEADER_SIZE]);
            var q := p + HEADER_SIZE + h.payloadSize;
            var e := c.HeaderDone(0, HEADER_SIZE, h, stamp).DataDone(now, 0, s[p + HEADER_SIZE..q]);
            && Receiving(e) && e.sonarId == c.sonarId && e.undefined == c.undefined
            && e.handled == c.handled + [Snapshot(h, s[p..q], stamp)]
  {
    hide StoreHeader, LoadHeader, Client.HeaderDone, Client.DataDone, Without;
    var h := LoadHeader(s[p..p + HEADER_SIZE]);
    var q := p + HEADER_SIZE + h.payloadSize;
    AfterHeader(c, h, stamp);
    var d := c.HeaderDone(0, HEADER_SIZE, h, stamp);
    StoreLoadHeader(s[p..p + HEADER_SIZE]);
    assert s[p..p + HEADER_SIZE] + s[p + HEADER_SIZE..q] == s[p..q];
    PayloadTaken(d, now, s[p + HEADER_SIZE..q], s[p..q]);
  }

  // ---------------------------------------------------------------- the frames of a stream

  predicate ValidAt(s: seq<Byte>, p: nat, id: U16)
    requires p + HEADER_SIZE <= |s|
  {
    var h := LoadHeader(s[p..p + HEADER_SIZE]);
    h.oculusId == OCULUS_CHECK_ID && h.srcDeviceId == id
  }

  function EndOf(s: seq<Byte>, p: nat): nat
    requires p + HEADER_SIZE <= |s|
  {
    p + HEADER_SIZE + LoadHeader(s[p..p + HEADER_SIZE]).payloadSize
  }

  /** A complete frame from the sonar `id` starts at `p`. */
  predicate Accepted(s: seq<Byte>, p: nat, id: U16) {
    p + HEADER_SIZE <= |s| && ValidAt(s, p, id) && EndOf(s, p) <= |s|
  }

  predicate AllAccepted(s: seq<Byte>, starts: seq<nat>, id: U16) {
    forall i :: 0 <= i < |starts| ==> Accepted(s, starts[i], id)
  }

  /** Where the frames start that a reader in step with `p` sees: 16 bytes that are no valid
      header are skipped, a frame is skipped whole. */
  function Scan(s: seq<Byte>, p: nat, id: U16): (starts: seq<nat>)
    ensures AllAccepted(s, starts, id) && forall i :: 0 <= i < |starts| ==> p <= starts[i]
    decreases |s| - p
  {
    if p + HEADER_SIZE > |s| then []
    else if !ValidAt(s, p, id) then Scan(s, p + HEADER_SIZE, id)
    else if EndOf(s, p) > |s| then []
    else [p] + Scan(s, EndOf(s, p), id)
  }

  /** The slices at the given places, as messages. */
  function Messages(s: seq<Byte>, starts: seq<nat>, id: U16, stamps: nat -> I64): seq<Snapshot>
    requires AllAccepted(s, starts, id)
  {
    if starts == [] then []
    else
      var q := starts[0];
      [Snapshot(LoadHeader(s[q..q + HEADER_SIZE]), s[q..EndOf(s, q)], stamps(q))] + Messages(s, starts[1..], id, stamps)
  }

  /** One turn of the loop: a chunk skipped, a frame handed on, or a read left waiting. */
  lemma FeedTurn(c: Client, s: seq<Byte>, p: nat, now: real, stamps: nat -> I64)
    returns (e: Client)
    requires Receiving(c) && p + HEADER_SIZE <= |s|
    ensures Receiving(e) && e.sonarId == c.sonarId
    ensures !ValidAt(s, p, c.sonarId) ==>
      e.handled == c.handled && Feed(c, s, p, now, stamps) == Feed(e, s, p + HEADER_SIZE, now, stamps)
    ensures Accepted(s, p, c.sonarId) ==>
      && e.handled == c.handled + [Snapshot(LoadHeader(s[p..p + HEADER_SIZE]), s[p..EndOf(s, p)], stamps(p))]
      && Feed(c, s, p, now, stamps) == Feed(e, s, EndOf(s, p), now, stamps)
    ensures ValidAt(s, p, c.sonarId) && !Accepted(s, p, c.sonarId) ==>
      Feed(c, s, p, now, stamps).handled == c.handled
  {
    hide LoadHeader, StoreHeader, Without;
    var h := LoadHeader(s[p..p + HEADER_SIZE]);
    AfterHeader(c, h, stamps(p));
    var d := c.HeaderDone(0, HEADER_SIZE, h, stamps(p));
    e := c;
    if !c.IsValid(h) {
      e := d;
    } else if EndOf(s, p) <= |s| {
      AfterData(c, s, p, now, stamps(p));
      e := d.DataDone(now, 0, s[p + HEADER_SIZE..EndOf(s, p)]);
    }
  }

  /** The frames from `p` on. */
  function Frames(s: seq<Byte>, p: nat, id: U16, stamps: nat -> I64): seq<Snapshot> {
    Messages(s, Scan(s, p, id), id, stamps)
  }

  lemma FramesTurn(s: seq<Byte>, p: nat, id: U16, stamps: nat -> I64)
    ensures p + HEADER_SIZE > |s| ==> Frames(s, p, id, stamps) == []
    ensures p + HEADER_SIZE <= |s| && !ValidAt(s, p, id) ==>
      Frames(s, p, id, stamps) == Frames(s, p + HEADER_SIZE, id, stamps)
    ensures p + HEADER_SIZE <= |s| && ValidAt(s, p, id) && !Accepted(s, p, id) ==> Frames(s, p, id, stamps) == []
    ensures Accepted(s, p, id) ==>
      Frames(s, p, id, stamps) == [Snapshot(LoadHeader(s[p..p + HEADER_SIZE]), s[p..EndOf(s, p)], stamps(p))]
                                  + Frames(s, EndOf(s, p), id, stamps)
  {
    hide LoadHeader, ValidAt;
    if Accepted(s, p, id) {
      var rest := Scan(s, EndOf(s, p), id);
      assert ([p] + rest)[1..] == rest;
    }
  }

  lemma {:induction false} FeedEnd(c: Client, s: seq<Byte>, p: nat, now: real, stamps: nat -> I64)
    requires Receiving(c) && p <= |s| < p + HEADER_SIZE
    ensures Feed(c, s, p, now, stamps) == c
  {
  }

  /** What the handlers deliver is what the scan finds, byte for byte, on any stream. */
  lemma {:induction false} FeedDeliversFrames(c: Client, s: seq<Byte>, p: nat, now: real, stamps: nat -> I64)
    requires Receiving(c) && p <= |s|
    ensures Feed(c, s, p, now, stamps).handled == c.handled + Frames(s, p, c.sonarId, stamps)
    decreases |s| - p
  {
    hide LoadHeader, ValidAt, Receiving, Feed, Frames;
    var id := c.sonarId;
    FramesTurn(s, p, id, stamps);
    if p + HEADER_SIZE > |s| {
      FeedEnd(c, s, p, now, stamps);
    } else {
      var e := FeedTurn(c, s, p, now, stamps);
      if !ValidAt(s, p, id) {
        FeedDeliversFrames(e, s, p + HEADER_SIZE, now, stamps);
      } else if EndOf(s, p) <= |s| {
        FeedDeliversFrames(e, s, EndOf(s, p), now, stamps);
        var first := [Snapshot(LoadHeader(s[p..p + HEADER_SIZE]), s[p..EndOf(s, p)], stamps(p))];
        var rest := Frames(s, EndOf(s, p), id, stamps);
        assert c.handled + first + rest == c.handled + (first + rest);
      }
    }
  }

  /** On any stream the delivered messages are slices of it, in order and without overlap,
      each with the header and the payload size that its own first bytes announce. */
  lemma {:induction false} SlicesAreDisjoint(s: seq<Byte>, p: nat, id: U16, i: nat, j: nat)
    requires i < j < |Scan(s, p, id)|
    ensures var starts := Scan(s, p, id);
            p <= starts[i] && EndOf(s, starts[i]) <= starts[j] && EndOf(s, starts[j]) <= |s|
    decreases |s| - p
  {
    hide LoadHeader;
    var starts := Scan(s, p, id);
    if !ValidAt(s, p, id) {
      SlicesAreDisjoint(s, p + HEADER_SIZE, id, i, j);
    } else if i > 0 {
      SlicesAreDisjoint(s, EndOf(s, p), id, i - 1, j - 1);
    } else {
      assert starts[j] == Scan(s, EndOf(s, p), id)[j - 1];
    }
  }

  lemma {:induction false} MessagesAgree(s: seq<Byte>, starts: seq<nat>, id: U16, stamps: nat -> I64, i: nat)
    requires AllAccepted(s, starts, id)
    requires i < |starts|
    ensures var m := Messages(s, starts, id, stamps);
            && |m| == |starts|
            && m[i].Consistent() && HeaderValid(m[i].header) && m[i].header.srcDeviceId == id
            && |m[i].data| == HEADER_SIZE + m[i].header.payloadSize
            && m[i].data == s[starts[i]..EndOf(s, starts[i])]
    decreases |starts|
  {
    hide LoadHeader;
    var q := starts[0];
    assert s[q..EndOf(s, q)][..HEADER_SIZE] == s[q..q + HEADER_SIZE];
    PrefixHeader(s[q..EndOf(s, q)], s[q..q + HEADER_SIZE]);
    if i > 0 {
      MessagesAgree(s, starts[1..], id, stamps, i - 1);
    } else if |starts| > 1 {
      MessagesAgree(s, starts[1..], id, stamps, 0);
    }
  }

  lemma PrefixHeader(a: seq<Byte>, b: seq<Byte>)
    requires |b| == HEADER_SIZE <= |a| && a[..HEADER_SIZE] == b
    ensures LoadHeader(a) == LoadHeader(b)
  {
    assert forall i :: 0 <= i < HEADER_SIZE ==> a[i] == a[..HEADER_SIZE][i] == b[i];
  }

  // ---------------------------------------------------------------- streams in step

  /** A piece of stream: 16 bytes that are no valid header, or a complete frame. */
  datatype Segment = Junk(bytes: seq<Byte>) | Frame(bytes: seq<Byte>) {
    predicate Sound(id: U16) {
      && |bytes| >= HEADER_SIZE
      && (Junk? ==> |bytes| == HEADER_SIZE && !ValidAt(bytes, 0, id))
      && (Frame? ==> ValidAt(bytes, 0, id) && |bytes| == EndOf(bytes, 0))
    }
  }

  function Flatten(segments: seq<Segment>): seq<Byte> {
    if segments == [] then [] else segments[0].bytes + Flatten(segments[1..])
  }

  function FramesOf(segments: seq<Segment>): seq<seq<Byte>> {
    if segments == [] then []
    else if segments[0].Frame? then [segments[0].bytes] + FramesOf(segments[1..])
    else FramesOf(segments[1..])
  }

  function DataOf(ms: seq<Snapshot>): seq<seq<Byte>> {
    if ms == [] then [] else [ms[0].data] + DataOf(ms[1..])
  }

  /** Less than a header, or a frame that is not complete yet. */
  predicate Unfinished(tail: seq<Byte>, id: U16) {
    |tail| < HEADER_SIZE || (ValidAt(tail, 0, id) && |tail| < EndOf(tail, 0))
  }

  /** What lies at `p` can be looked at on its own. */
  lemma Shift(s: seq<Byte>, p: nat, a: seq<Byte>, rest: seq<Byte>, id: U16)
    requires p <= |s| && s[p..] == a + rest && |a| >= HEADER_SIZE
    ensures p + |a| <= |s| && s[p + |a|..] == rest && s[p..p + |a|] == a
    ensures ValidAt(s, p, id) == ValidAt(a, 0, id) && EndOf(s, p) == p + EndOf(a, 0)
  {
    hide LoadHeader;
    assert |s[p..]| == |a| + |rest|;
    assert s[p..p + HEADER_SIZE] == s[p..][..HEADER_SIZE] == a[0..HEADER_SIZE];
    assert s[p..p + |a|] == s[p..][..|a|];
    assert s[p + |a|..] == s[p..][|a|..];
  }

  /** On a stream made of such pieces, in any order and with an unfinished end, the loop
      delivers exactly the frames, in order. */
  lemma {:induction false} FramesDelivered(s: seq<Byte>, p: nat, segments: seq<Segment>, tail: seq<Byte>, id: U16,
                                           stamps: nat -> I64)
    requires p <= |s| && s[p..] == Flatten(segments) + tail
    requires (forall x :: x in segments ==> x.Sound(id)) && Unfinished(tail, id)
    ensures DataOf(Frames(s, p, id, stamps)) == FramesOf(segments)
    decreases |segments|
  {
    hide LoadHeader, ValidAt, EndOf, Frames;
    FramesTurn(s, p, id, stamps);
    if segments == [] {
      assert s[p..] == tail;
      if |tail| >= HEADER_SIZE {
        Shift(s, p, tail, [], id);
      }
    } else {
      var x, rest := segments[0], Flatten(segments[1..]) + tail;
      assert x in segments && x.Sound(id);
      assert x.bytes + Flatten(segments[1..]) + tail == x.bytes + rest;
      Shift(s, p, x.bytes, rest, id);
      FramesDelivered(s, p + |x.bytes|, segments[1..], tail, id, stamps);
      if x.Frame? {
        var ms, more := Frames(s, p, id, stamps), Frames(s, EndOf(s, p), id, stamps);
        assert ms[1..] == more && ms[0].data == x.bytes;
      }
    }
  }

  // ---------------------------------------------------------------- streams out of step

  /** None of the 16-byte chunks from `p` on that start below `k` is a valid header. */
  predicate NoHeaderBelow(s: seq<Byte>, p: nat, k: nat, id: U16)
    requires k + HEADER_SIZE <= |s|
  {
    forall q :: p <= q < k && (q - p) % HEADER_SIZE == 0 ==> !ValidAt(s, q, id)
  }

  /** Where the first chunk behind `k` starts. */
  function ChunkBehind(p: nat, k: nat): (q: nat)
    requires p <= k
    ensures k < q <= k + HEADER_SIZE && (q - p) % HEADER_SIZE == 0
  {
    k + HEADER_SIZE - (k - p) % HEADER_SIZE
  }

  /** Exactly which stray bytes cost a frame. When the reader meets no valid header before the
      frame at `k`, the frame is found if and only if their number is a multiple of 16;
      otherwise the search goes on at the first chunk that starts behind the start of the frame. */
  lemma {:induction false} FoundIffInStep(s: seq<Byte>, p: nat, k: nat, id: U16)
    requires p <= k && Accepted(s, k, id) && NoHeaderBelow(s, p, k, id)
    ensures Scan(s, p, id) == if (k - p) % HEADER_SIZE == 0 then [k] + Scan(s, EndOf(s, k), id)
                              else Scan(s, ChunkBehind(p, k), id)
    ensures k in Scan(s, p, id) <==> (k - p) % HEADER_SIZE == 0
    decreases k - p
  {
    hide ValidAt, EndOf;
    if p + HEADER_SIZE <= k {
      assert (k - p) % HEADER_SIZE == (k - (p + HEADER_SIZE)) % HEADER_SIZE;
      forall q | p + HEADER_SIZE <= q < k && (q - (p + HEADER_SIZE)) % HEADER_SIZE == 0 ensures !ValidAt(s, q, id) {
        assert (q - p) % HEADER_SIZE == 0;
      }
      FoundIffInStep(s, p + HEADER_SIZE, k, id);
    }
  }

  lemma EndBehind(s: seq<Byte>, k: nat)
    requires k + HEADER_SIZE <= |s|
    ensures k <= EndOf(s, k)
  {
  }

  /** The same of the handlers: in step they hand on the frame at `k` first, and go on behind
      it; out of step they never look at its start, whatever they make of its inside. */
  lemma {:induction false} DeliveredIffInStep(c: Client, s: seq<Byte>, p: nat, k: nat, now: real, stamps: nat -> I64)
    requires Receiving(c) && p <= k && Accepted(s, k, c.sonarId) && NoHeaderBelow(s, p, k, c.sonarId)
    ensures Feed(c, s, p, now, stamps).handled
         == if (k - p) % HEADER_SIZE == 0 then
              c.handled + [Snapshot(LoadHeader(s[k..k + HEADER_SIZE]), s[k..EndOf(s, k)], stamps(k))]
              + Frames(s, EndOf(s, k), c.sonarId, stamps)
            else c.handled + Frames(s, ChunkBehind(p, k), c.sonarId, stamps)
  {
    hide LoadHeader, ValidAt, EndOf, Feed, Receiving, NoHeaderBelow;
    var id := c.sonarId;
    FeedDeliversFrames(c, s, p, now, stamps);
    FoundIffInStep(s, p, k, id);
    assert k <= EndOf(s, k) <= |s| by {
      EndBehind(s, k);
    }
    if (k - p) % HEADER_SIZE == 0 {
      var rest := Scan(s, EndOf(s, k), id);
      assert ([k] + rest)[1..] == rest;
      var first := [Snapshot(LoadHeader(s[k..k + HEADER_SIZE]), s[k..EndOf(s, k)], stamps(k))];
      assert c.handled + first + Frames(s, EndOf(s, k), id, stamps)
          == c.handled + (first + Frames(s, EndOf(s, k), id, stamps));
    }
  }

  /** Eight stray bytes, then `n` frames without payload. */
  function Stray(h: Header, n: nat): seq<Byte> {
    Zeros(8) + seq(HEADER_SIZE * n, i requires i >= 0 => StoreHeader(h)[i % HEADER_SIZE])
  }

  /** Out of step the loop need never find its step again: behind a number of stray bytes that is no
      multiple of 16 it can miss every one of any number of frames. */
  lemma {:induction false} StrayBytesLoseEveryFrame(h: Header, n: nat, k: nat)
    requires h.msgVersion != OCULUS_CHECK_ID
    ensures Scan(Stray(h, n), HEADER_SIZE * k, h.srcDeviceId) == []
    decreases n + 1 - k
  {
    hide StoreHeader;
    var s, p := Stray(h, n), HEADER_SIZE * k;
    if p + HEADER_SIZE <= |s| {
      StrayBytesLoseEveryFrame(h, n, k + 1);
      StrayHeader(h, n, k);
    }
  }

  lemma StrayHeader(h: Header, n: nat, k: nat)
    requires HEADER_SIZE * k + HEADER_SIZE <= |Stray(h, n)|
    ensures var oculusId := LoadHeader(Stray(h, n)[HEADER_SIZE * k..HEADER_SIZE * k + HEADER_SIZE]).oculusId;
            oculusId == if k == 0 then 0 else h.msgVersion
  {
    var s, p := Stray(h, n), HEADER_SIZE * k;
    var chunk := s[p..p + HEADER_SIZE];
    assert chunk[0] == s[p] && chunk[1] == s[p + 1];
    if k > 0 {
      var t := StoreHeader(h);
      assert (p - 8) % HEADER_SIZE == 8 && (p - 7) % HEADER_SIZE == 9;
      assert s[p] == t[8] && s[p + 1] == t[9];
      assert t[8..10] == Store16(h.msgVersion);
      LoadStore16(h.msgVersion, t, 8);
    }
  }
}
