/** From the network to the file and back: what a client receives while it is recorded. */
module ReceivedLog {
  import opened Bytes
  import opened OculusMessage
  import opened LogFormat
  import opened LogTheorems
  import opened LogResults
  import opened SonarClients
  import F = Framing
  import H = RecorderHandle

  /** Every message that the reception loop hands on below 4 GiB can be recorded. */
  lemma {:induction false} FramesAreRecordable(s: seq<Byte>, starts: seq<nat>, id: U16, stamps: nat -> I64, x: Snapshot)
    requires F.AllAccepted(s, starts, id) && x in F.Messages(s, starts, id, stamps)
    requires forall i :: 0 <= i < |starts| ==> F.EndOf(s, starts[i]) - starts[i] < TWO_32
    ensures Recordable(x)
  {
    hide LoadHeader;
    if starts != [] {
      F.MessagesAgree(s, starts, id, stamps, 0);
    }
    var i :| 0 <= i < |F.Messages(s, starts, id, stamps)| && F.Messages(s, starts, id, stamps)[i] == x;
    F.MessagesAgree(s, starts, id, stamps, i);
  }

  /** The frames of the stream from `p` on are all smaller than 4 GiB. */
  predicate FramesFit(s: seq<Byte>, p: nat, id: U16) {
    var starts := F.Scan(s, p, id);
    forall i :: 0 <= i < |starts| ==> F.EndOf(s, starts[i]) - starts[i] < TWO_32
  }

  /** A client receives any stream while its messages are recorded, by a handle that users may
      go on using meanwhile. Reading the file then gives exactly the frames of the stream, byte
      for byte, in order, with the times of their headers, and null behind them for ever. */
  lemma {:induction false} ReceivedIsReadBack(c: Client, s: seq<Byte>, p: nat, now: real, stamps: nat -> I64,
                                              session: H.Session, start: Double, stop: Double, actions: seq<H.Action>,
                                              m: Snapshot, n: nat, toSeconds: TimeStamp -> Double,
                                              fallback: Double -> I64)
    requires F.Receiving(c) && p <= |s| && FramesFit(s, p, c.sonarId)
    requires H.Inv(session.handle) && !session.handle.recording && session.handle.table != map[]
    requires !session.file.isOpen && H.Undisturbed(session.handle.Start(true), actions)
    requires c.handled + H.Arrived(actions) == F.Feed(c, s, p, now, stamps).handled
    ensures var first := H.Act(session, H.Use(H.Start(true), start), toSeconds);
            var file := H.Act(H.ActAll(first, actions, toSeconds), H.Use(H.Stop, stop), toSeconds).file;
            (ReadMany(Lookahead(file.contents, LOG_HEADER_SIZE, m), n, fallback)
             == Padded(Delivered(F.Frames(s, p, c.sonarId, stamps)), n))
  {
    hide ReadMany, Lookahead, Padded, Delivered, Recordable, LoadHeader;
    hide H.Act, H.ActAll, H.Undisturbed, F.Feed, F.Receiving, F.Scan, F.Messages;
    F.FeedDeliversFrames(c, s, p, now, stamps);
    var frames := F.Frames(s, p, c.sonarId, stamps);
    assert H.Arrived(actions) == (c.handled + H.Arrived(actions))[|c.handled|..] == (c.handled + frames)[|c.handled|..]
        == frames;
    forall x | x in frames ensures Recordable(x) {
      FramesAreRecordable(s, F.Scan(s, p, c.sonarId), c.sonarId, stamps, x);
    }
    H.SessionReadsBack(session, start, stop, actions, m, n, toSeconds, fallback);
  }
}
