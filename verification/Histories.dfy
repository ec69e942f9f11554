/** The histories a channel keeps are those of its moves: what it says it received, was
    granted, was asked to close and so on is what the peer and the subsystem did. */
module Histories {
  import opened Bytes
  import opened DoubleBuffer
  import opened Channels
  import R = ReadDoubleBuffer
  import Rx = ReceiveWindow
  import Tx = SendWindow

  datatype Log = Log(
    fromPeer: nat, received: seq<Byte>, granted: nat,    // bytes of data, those accepted, window
    started: bool, peerEof: bool, peerClosed: bool,
    emitted: seq<seq<Byte>>, exited: bool, noticed: bool) // by the subsystem

  /** What a channel says happened. */
  function Kept(c: Channel): (l: Log) {
    Log(c.fromPeer, c.rx.received, c.tx.granted, c.isOpened, c.eofRcvd, c.closeRcvd,
        DataOf(c.tx.r.put), c.terminated, c.doClose)
  }

  /** What a move adds: data is accepted by an open channel whose output half is open, if
      the window holds it; the subsystem speaks while its thread runs. */
  function Entered(c: Channel, a: Move, l: Log): (m: Log) {
    match a
    case Start => l.(started := true)
    case Incoming(data) =>
      var accept := c.isOpened && c.output.Open? && |data| <= c.rx.window;
      l.(fromPeer := l.fromPeer + |data|, received := l.received + if accept then data else [])
    case PeerEof => l.(peerEof := true)
    case PeerClose => l.(peerClosed := true)
    case PeerAdjust(n) => l.(granted := l.granted + n)
    case Emit(msg) => l.(emitted := l.emitted + if Running(c) then [msg] else [])
    case Exit => l.(exited := l.exited || c.subsystem)
    case Terminated => l.(noticed := l.noticed || (c.subsystem && c.terminated))
    case _ => l
  }

  /** The log of a run, from the moves that were not blocked. */
  function History(c: Channel, moves: seq<Move>, l: Log): (m: Log)
    decreases |moves|
  {
    if moves == [] then l
    else History(Step(c, moves[0]), moves[1..], if Blocked(c, moves[0]) then l else Entered(c, moves[0], l))
  }

  lemma EndOfFileLog(rx: Rx.Receive)
    ensures Rx.EndOfFile(rx).received == rx.received
  {
  }

  lemma SendCloseLog(c: Channel, doSend: bool, deleted: bool)
    ensures Kept(SendClose(c, doSend)) == Kept(c) && Kept(SendClose(c, doSend).(deleted := deleted)) == Kept(c)
  {
    hide DataOf;
  }

  lemma CloseSessionLog(c: Channel)
    ensures Kept(CloseSession(c)) == Kept(c)
  {
    hide DataOf, Rx.EndOfFile;
    EndOfFileLog(c.rx);
  }

  lemma CollectLog(c: Channel)
    ensures Kept(GarbageCollect(c)) == Kept(c)
  {
    hide Kept, SendClose, ChanIsDead, CloseSession;
    var d := SendClose(c, c.doClose);
    var e := CloseSession(d);
    SendCloseLog(c, c.doClose, false);
    CloseSessionLog(d);
    SendCloseLog(e, true, ChanIsDead(e, true));
  }

  lemma FinishOutputLog(c: Channel)
    ensures Kept(FinishOutput(c)) == Kept(c)
  {
    hide DataOf, Rx.EndOfFile;
    EndOfFileLog(c.rx);
  }

  lemma FillLog(c: Channel)
    ensures Kept(FillEvents(c)) == Kept(c)
  {
    hide Kept, GarbageCollect, FinishOutput;
    FinishOutputLog(c);
    CollectLog(FinishOutput(c));
  }

  lemma PollLog(c: Channel)
    ensures Kept(OutputPoll(c)) == Kept(c)
  {
    hide DataOf, Tx.ShipLength, HasMessages;
  }

  lemma FinishInputLog(c: Channel)
    ensures Kept(FinishInput(c)) == Kept(c)
  {
    hide DataOf;
  }

  lemma FetchLog(c: Channel)
    ensures Kept(FetchOne(c)) == Kept(c)
  {
    hide DataOf, R.GetStep, Tx.Written;
    GetLog(c.tx.r);
  }

  lemma GetLog(s: R.State)
    ensures R.GetStep(s).put == s.put
  {
  }

  lemma ForwardLog(c: Channel)
    ensures Kept(ForwardOn(c)) == Kept(c)
  {
    hide DataOf, Rx.Forward;
    ForwardReceives(c.rx, c.sftp);
  }

  lemma ForwardReceives(rx: Rx.Receive, sftp: bool)
    ensures Rx.Forward(rx, sftp).received == rx.received
  {
  }

  lemma CheckLog(c: Channel)
    ensures Kept(CheckWindow(c)) == Kept(c)
  {
    hide DataOf, Rx.WantsAdjust;
  }

  lemma WorkLog(c: Channel, other: bool)
    ensures Kept(WorkOn(c, other)) == Kept(c)
  {
    hide DataOf, Rx.Worker;
    WorkReceives(c.rx, other);
  }

  lemma WorkReceives(rx: Rx.Receive, other: bool)
    ensures Rx.Worker(rx, other).received == rx.received
  {
  }

  lemma OpenLog(c: Channel)
    ensures Kept(OpenUp(c)) == Entered(c, Start, Kept(c))
  {
    hide DataOf;
  }

  lemma InputDataLog(c: Channel, data: PacketData)
    ensures Kept(InputData(c, data)) == Entered(c, Incoming(data), Kept(c))
  {
    hide DataOf;
    assert c.rx.received + [] == c.rx.received;
  }

  lemma InputEofLog(c: Channel)
    ensures Kept(InputEof(c)) == Entered(c, PeerEof, Kept(c))
  {
    hide DataOf, Rx.EndOfFile;
    EndOfFileLog(c.rx);
  }

  lemma InputCloseLog(c: Channel)
    ensures Kept(InputClose(c)) == Entered(c, PeerClose, Kept(c))
  {
    hide DataOf;
  }

  lemma AdjustLog(c: Channel, n: U32)
    ensures Kept(InputAdjust(c, n)) == Entered(c, PeerAdjust(n), Kept(c))
  {
    hide DataOf;
  }

  lemma EmitLog(c: Channel, msg: seq<Byte>)
    requires !c.tx.r.fatal
    ensures Kept(EmitOne(c, msg)) == Entered(c, Emit(msg), Kept(c))
  {
    hide DataOf;
    var put := c.tx.r.put;
    DataOfSnoc(put, Item(|put|, msg));
    assert DataOf(put) + [] == DataOf(put);
  }

  lemma ExitLog(c: Channel)
    ensures Kept(ExitThread(c)) == Entered(c, Exit, Kept(c))
  {
    hide DataOf;
  }

  lemma NotifyLog(c: Channel)
    ensures Kept(Notify(c)) == Entered(c, Terminated, Kept(c))
  {
    hide DataOf;
  }

  lemma OtherMoves(c: Channel, a: Move, l: Log)
    requires a.Poll? || a.Ask? || a.FetchStep? || a.Forward? || a.Check? || a.Collect? || a.Fill? || a.Work?
    ensures Entered(c, a, l) == l
  {
  }

  lemma ActLog(c: Channel, a: Move)
    requires !c.tx.r.fatal
    ensures Kept(Act(c, a)) == Entered(c, a, Kept(c))
  {
    hide Kept, Entered, OpenUp, InputData, InputEof, InputClose, InputAdjust, OutputPoll, FinishInput, FetchOne,
         ForwardOn, CheckWindow, GarbageCollect, FillEvents, Notify, WorkOn, EmitOne, ExitThread;
    match a
    case Start => OpenLog(c);
    case Incoming(data) => InputDataLog(c, data);
    case PeerEof => InputEofLog(c);
    case PeerClose => InputCloseLog(c);
    case PeerAdjust(n) => AdjustLog(c, n);
    case Poll => PollLog(c); OtherMoves(c, a, Kept(c));
    case Ask => FinishInputLog(c); OtherMoves(c, a, Kept(c));
    case FetchStep => FetchLog(c); OtherMoves(c, a, Kept(c));
    case Forward => ForwardLog(c); OtherMoves(c, a, Kept(c));
    case Check => CheckLog(c); OtherMoves(c, a, Kept(c));
    case Collect => CollectLog(c); OtherMoves(c, a, Kept(c));
    case Fill => FillLog(c); OtherMoves(c, a, Kept(c));
    case Terminated => NotifyLog(c);
    case Work(other) => WorkLog(c, other); OtherMoves(c, a, Kept(c));
    case Emit(msg) => EmitLog(c, msg);
    case Exit => ExitLog(c);
  }

  lemma StepLog(c: Channel, a: Move)
    ensures Kept(Step(c, a)) == if Blocked(c, a) then Kept(c) else Entered(c, a, Kept(c))
  {
    hide Kept, Entered, Act;
    if !Blocked(c, a) {
      ActLog(c, a);
    }
  }

  lemma {:induction false} RunLog(c: Channel, moves: seq<Move>)
    ensures Kept(Run(c, moves)) == History(c, moves, Kept(c))
    decreases |moves|
  {
    hide Kept, Entered, Step;
    if moves != [] {
      StepLog(c, moves[0]);
      RunLog(Step(c, moves[0]), moves[1..]);
    }
  }

  /** In every run the histories of the channel are those of its moves, from a start at
      which the peer has granted the window of its opening and nothing else was done. */
  lemma HistoriesAreTrue(sftp: bool, window: U32, maxPacket: U32, moves: seq<Move>)
    ensures Kept(Run(Fresh(sftp, window, maxPacket), moves))
      == History(Fresh(sftp, window, maxPacket), moves, Log(0, [], window, false, false, false, [], false, false))
  {
    hide History, Run;
    RunLog(Fresh(sftp, window, maxPacket), moves);
  }
}
