/** What the peer is told about the end of a channel: the exit status when the subsystem
    is over, EOF when no more data comes (sections 5.3 and 6.10 of RFC 4254). */
module Endings {
  import opened Bytes
  import opened Channels
  import CloseSafety
  import Rx = ReceiveWindow
  import Tx = SendWindow

  predicate Announced(c: Channel) {
    && (Eof in c.sent <==> c.eofSent) && (ExitStatus in c.sent <==> c.doClose)
    && (c.input.Closed? || c.closeSent ==> c.eofSent || c.closeRcvd)
    && (c.eofSent ==> c.closeRcvd || (c.isOpened && !Running(c))) && (c.asking ==> c.isOpened)
  }

  lemma SentIs(sent: seq<Event>, e: Event)
    ensures Eof in sent + [e] <==> Eof in sent || e.Eof?
    ensures ExitStatus in sent + [e] <==> ExitStatus in sent || e.ExitStatus?
  {
    assert forall x :: x in sent + [e] <==> x in sent || x == e;
  }

  lemma SendCloseAnnounced(c: Channel, doSend: bool, deleted: bool)
    requires Announced(c)
    ensures Announced(SendClose(c, doSend)) && Announced(SendClose(c, doSend).(deleted := deleted))
  {
    SentIs(c.sent, Close);
  }

  lemma CloseSessionAnnounced(c: Channel)
    requires Announced(c)
    ensures Announced(CloseSession(c))
  {
    hide Rx.EndOfFile;
  }

  lemma CollectAnnounced(c: Channel)
    requires Announced(c)
    ensures Announced(GarbageCollect(c))
  {
    hide Announced, SendClose, CloseSession, ChanIsDead;
    var d := SendClose(c, c.doClose);
    var e := CloseSession(d);
    SendCloseAnnounced(c, c.doClose, false);
    CloseSessionAnnounced(d);
    SendCloseAnnounced(e, true, ChanIsDead(e, true));
  }

  lemma PollAnnounced(c: Channel)
    requires Announced(c)
    ensures Announced(OutputPoll(c))
  {
    hide Tx.Ship, Tx.ShipLength, HasMessages;
    ShipFrame(c.tx);
    SentIs(c.sent, Data(c.tx.ascending[..Tx.ShipLength(c.tx)]));
  }

  lemma ActAnnounced(c: Channel, a: Move)
    requires Announced(c)
    ensures Announced(Act(c, a))
  {
    hide GarbageCollect, OutputPoll, Rx.Opened, Rx.TakeData, Rx.EndOfFile, Rx.Forward, Rx.Adjusted, Rx.WantsAdjust,
         Rx.Worker, Tx.Fetch, Tx.Grant, Tx.WorkerPut, HasMessages;
    match a
    case Start => SentIs(c.sent, Adjust(WINDOW_SIZE));
    case PeerClose => SentIs(c.sent, Eof);
    case Poll => PollAnnounced(c);
    case Ask => SentIs(c.sent, Eof);
    case Check => SentIs(c.sent, Adjust(c.rx.consumed));
    case Collect => CollectAnnounced(c);
    case Fill => CollectAnnounced(FinishOutput(c));
    case Terminated => SentIs(c.sent, ExitStatus);
    case _ =>
  }

  lemma {:induction false} RunAnnounced(c: Channel, moves: seq<Move>)
    requires Announced(c)
    ensures Announced(Run(c, moves))
    decreases |moves|
  {
    hide Announced, Act, Blocked;
    if moves != [] {
      ActAnnounced(c, moves[0]);
      RunAnnounced(Step(c, moves[0]), moves[1..]);
    }
  }

  /** In every run: EOF was sent exactly if the channel says so, and the exit status
      exactly if the end of the subsystem was noticed; a channel whose input half is closed
      or that has sent CLOSE has sent EOF, unless the peer closed it; and it sends EOF only
      when the subsystem is over, unless the peer closed it. */
  lemma EndsAreAnnounced(sftp: bool, window: U32, maxPacket: U32, moves: seq<Move>)
    ensures var c := Run(Fresh(sftp, window, maxPacket), moves);
      && (Eof in c.sent <==> c.eofSent) && (ExitStatus in c.sent <==> c.doClose)
      && (c.input.Closed? || Close in c.sent ==> Eof in c.sent || c.closeRcvd)
      && (Eof in c.sent ==> c.closeRcvd || !Running(c))
  {
    hide Step;
    CloseSafety.ClosesOnce(sftp, window, maxPacket, moves);
    RunAnnounced(Fresh(sftp, window, maxPacket), moves);
  }
}
