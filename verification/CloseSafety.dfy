/** The close machine over whole runs (section 5.3 of RFC 4254): at most one CLOSE,
    no data after it, and a channel goes away only when both sides have closed. */
module CloseSafety {
  import opened Bytes
  import opened Channels
  import R = ReadDoubleBuffer
  import Rx = ReceiveWindow
  import Tx = SendWindow

  /** Nothing follows a CLOSE that may not: no data, no other CLOSE. */
  predicate Tidy(sent: seq<Event>) {
    forall i, j :: 0 <= i < j < |sent| && sent[i].Close? ==> !sent[j].Data? && !sent[j].Close?
  }

  /** No data left to send, and none can come. */
  predicate Quiet(c: Channel) {
    c.tx.ascending == [] && c.tx.r.read == [] && c.tx.r.write == [] && !Running(c)
  }

  /** The two halves: input ends only after output does. */
  predicate HalvesOrdered(c: Channel) {
    && (!c.input.Open? ==> !c.output.Open?)
    && (c.input.WaitDrain? ==> c.output.Closed?)
  }

  /** A channel that closes by itself, or has, has nothing more to send. */
  predicate ClosedQuietly(c: Channel) {
    && (c.input.Closed? && !c.closeRcvd ==> c.isOpened && c.output.Closed? && (c.doClose ==> Quiet(c)))
    && (c.closeSent && !c.deleted ==> c.isOpened && c.output.Closed? && Quiet(c))
    && (c.asking ==> c.isOpened && c.input.WaitDrain? && (c.doClose ==> Quiet(c)))
  }

  /** It closes by itself only once its subsystem is over. */
  predicate Terminal(c: Channel) {
    (c.subsystem ==> c.isOpened) && (c.doClose ==> c.isOpened && !Running(c))
  }

  predicate Recorded(c: Channel) {
    Tidy(c.sent) && (Close in c.sent <==> c.closeSent) && (c.deleted ==> c.closeSent && c.closeRcvd)
  }

  predicate Safe(c: Channel) {
    HalvesOrdered(c) && ClosedQuietly(c) && Terminal(c) && Recorded(c) && R.Valid(c.tx.r)
  }

  lemma TidySnoc(sent: seq<Event>, e: Event)
    requires Tidy(sent) && (e.Data? || e.Close? ==> Close !in sent)
    ensures Tidy(sent + [e])
    ensures Close in sent + [e] <==> Close in sent || e.Close?
  {
    var s := sent + [e];
    forall i, j | 0 <= i < j < |s| && s[i].Close? ensures !s[j].Data? && !s[j].Close? {
      assert s[i] in sent;
    }
    assert forall x :: x in s <==> x in sent || x == e;
  }

  lemma OpenSafe(c: Channel)
    requires Safe(c) && !c.deleted && !c.asking
    ensures Safe(OpenUp(c))
  {
    hide Tidy, R.Valid, Rx.Opened;
    TidySnoc(c.sent, Adjust(WINDOW_SIZE));
  }

  lemma InputDataSafe(c: Channel, data: PacketData)
    requires Safe(c) && !c.deleted && !c.asking
    ensures Safe(InputData(c, data))
  {
    hide Tidy, R.Valid, Rx.TakeData, Rx.Ignored;
  }

  lemma InputEofSafe(c: Channel)
    requires Safe(c) && !c.deleted && !c.asking
    ensures Safe(InputEof(c))
  {
    hide Tidy, R.Valid, Rx.EndOfFile;
  }

  lemma InputCloseSafe(c: Channel)
    requires Safe(c) && !c.deleted && !c.asking
    ensures Safe(InputClose(c))
  {
    hide Tidy, R.Valid;
    TidySnoc(c.sent, Eof);
  }

  lemma InputAdjustSafe(c: Channel, n: U32)
    requires Safe(c) && !c.deleted && !c.asking
    ensures Safe(InputAdjust(c, n))
  {
    hide Tidy, R.Valid;
  }

  lemma ShipNothing(tx: Tx.Transmit)
    requires tx.ascending == []
    ensures Tx.ShipLength(tx) == 0
  {
  }

  lemma ShipKeepsReader(tx: Tx.Transmit)
    ensures Tx.Ship(tx).r == tx.r
    ensures tx.ascending == [] ==> Tx.Ship(tx).ascending == []
  {
  }

  lemma ShipDataSafe(c: Channel)
    requires Safe(c) && !c.deleted && !c.asking
    ensures Safe(ShipData(c)) && !ShipData(c).deleted && ShipData(c).isOpened == c.isOpened && !ShipData(c).asking
  {
    hide Tidy, R.Valid, Tx.Ship, Tx.ShipLength;
    ShipKeepsReader(c.tx);
    ShipFrame(c.tx);
    if c.closeSent {
      ShipNothing(c.tx);
    } else {
      TidySnoc(c.sent, Data(c.tx.ascending[..Tx.ShipLength(c.tx)]));
    }
  }

  lemma FinishInputSafe(c: Channel)
    requires Safe(c) && !c.deleted
    ensures Safe(FinishInput(c))
  {
    hide Tidy, R.Valid;
    TidySnoc(c.sent, Eof);
  }

  lemma PollSafe(c: Channel)
    requires Safe(c) && !c.deleted && !c.asking
    ensures Safe(OutputPoll(c))
  {
    hide Tidy, ShipData;
    ShipDataSafe(c);
  }

  lemma FetchQuiet(tx: Tx.Transmit, sftp: bool)
    requires R.Valid(tx.r)
    ensures R.Valid(Tx.Fetch(tx, sftp).r)
    ensures tx.ascending == [] && tx.r.read == [] && tx.r.write == [] ==>
      var t := Tx.Fetch(tx, sftp); t.ascending == [] && t.r.read == [] && t.r.write == []
  {
    hide Tx.Written;
    R.ValidGet(tx.r);
  }

  lemma FetchSafe(c: Channel)
    requires Safe(c) && !c.deleted && !c.asking
    ensures Safe(FetchOne(c))
  {
    hide Tidy, R.Valid, Tx.Fetch;
    FetchQuiet(c.tx, c.sftp);
  }

  lemma ForwardSafe(c: Channel)
    requires Safe(c) && !c.deleted && !c.asking
    ensures Safe(ForwardOn(c))
  {
    hide Tidy, R.Valid, Rx.Forward;
  }

  lemma CheckSafe(c: Channel)
    requires Safe(c) && !c.deleted && !c.asking
    ensures Safe(CheckWindow(c))
  {
    hide Tidy, R.Valid, Rx.WantsAdjust, Rx.Adjusted;
    TidySnoc(c.sent, Adjust(c.rx.consumed));
  }

  lemma NotifySafe(c: Channel)
    requires Safe(c) && !c.deleted && !c.asking
    ensures Safe(Notify(c))
  {
    hide Tidy, R.Valid;
    TidySnoc(c.sent, ExitStatus);
  }

  lemma WorkSafe(c: Channel, other: bool)
    requires Safe(c) && !c.deleted
    ensures Safe(WorkOn(c, other))
  {
    hide Tidy, R.Valid, Rx.Worker;
  }

  lemma EmitSafe(c: Channel, msg: seq<Byte>)
    requires Safe(c) && !c.deleted
    ensures Safe(EmitOne(c, msg))
  {
    hide Tidy, R.Valid, R.PutStep;
    R.ValidPut(c.tx.r, msg);
  }

  lemma ExitSafe(c: Channel)
    requires Safe(c) && !c.deleted
    ensures Safe(ExitThread(c))
  {
    hide Tidy, R.Valid;
  }

  lemma SendCloseSafe(c: Channel)
    requires Safe(c) && !c.deleted && !c.asking && !ChanIsDead(c, c.doClose)
    ensures Safe(SendClose(c, c.doClose))
  {
    hide Tidy, R.Valid;
    if !c.closeSent {
      TidySnoc(c.sent, Close);
    }
  }

  lemma BuriedSafe(c: Channel)
    requires Safe(c) && !c.deleted && !c.asking && ChanIsDead(c, c.doClose)
    ensures Safe(GarbageCollect(c))
  {
    hide Tidy, R.Valid, Rx.EndOfFile;
    if !c.closeSent {
      TidySnoc(c.sent, Close);
    }
  }

  lemma CollectSafe(c: Channel)
    requires Safe(c) && !c.deleted && !c.asking
    ensures Safe(GarbageCollect(c))
  {
    hide Safe, ChanIsDead, SendClose, CloseSession;
    if ChanIsDead(c, c.doClose) {
      BuriedSafe(c);
    } else {
      SendCloseSafe(c);
    }
  }

  lemma FinishOutputSafe(c: Channel)
    requires Safe(c) && !c.deleted && !c.asking
    ensures Safe(FinishOutput(c)) && !FinishOutput(c).deleted && !FinishOutput(c).asking
  {
    hide Tidy, R.Valid, Rx.EndOfFile;
  }

  lemma FillSafe(c: Channel)
    requires Safe(c) && !c.deleted && !c.asking
    ensures Safe(FillEvents(c))
  {
    hide Safe, FinishOutput, GarbageCollect;
    FinishOutputSafe(c);
    CollectSafe(FinishOutput(c));
  }

  lemma ActSafe(c: Channel, a: Move)
    requires Safe(c) && !c.deleted && (c.asking ==> a.Ask? || ByWorker(a))
    ensures Safe(Act(c, a))
  {
    hide Safe, OpenUp, InputData, InputEof, InputClose, InputAdjust, OutputPoll, FinishInput, FetchOne,
         ForwardOn, CheckWindow, GarbageCollect, FillEvents, Notify, WorkOn, EmitOne, ExitThread;
    match a
    case Start => OpenSafe(c);
    case Incoming(data) => InputDataSafe(c, data);
    case PeerEof => InputEofSafe(c);
    case PeerClose => InputCloseSafe(c);
    case PeerAdjust(n) => InputAdjustSafe(c, n);
    case Poll => PollSafe(c);
    case Ask => FinishInputSafe(c);
    case FetchStep => FetchSafe(c);
    case Forward => ForwardSafe(c);
    case Check => CheckSafe(c);
    case Collect => CollectSafe(c);
    case Fill => FillSafe(c);
    case Terminated => NotifySafe(c);
    case Work(other) => WorkSafe(c, other);
    case Emit(msg) => EmitSafe(c, msg);
    case Exit => ExitSafe(c);
  }

  lemma StepSafe(c: Channel, a: Move)
    requires Safe(c)
    ensures Safe(Step(c, a))
  {
    hide Safe, Act;
    if !Blocked(c, a) {
      ActSafe(c, a);
    }
  }

  lemma {:induction false} RunSafe(c: Channel, moves: seq<Move>)
    requires Safe(c)
    ensures Safe(Run(c, moves))
    decreases |moves|
  {
    hide Safe, Step;
    if moves != [] {
      StepSafe(c, moves[0]);
      RunSafe(Step(c, moves[0]), moves[1..]);
    }
  }

  lemma FreshSafe(sftp: bool, window: U32, maxPacket: U32)
    ensures Safe(Fresh(sftp, window, maxPacket))
  {
  }

  // -------------------------------------------------------- the output half

  /** How far a half has got. */
  function Progress(h: Half): (n: nat) {
    match h
    case Open => 0
    case WaitDrain => 1
    case Closed => 2
  }

  lemma ActForward(c: Channel, a: Move)
    ensures Progress(c.output) <= Progress(Act(c, a).output)
  {
    hide Rx.Opened, Rx.TakeData, Rx.EndOfFile, Rx.Forward, Rx.Adjusted, Rx.WantsAdjust, Rx.Worker, Tx.Ship,
         Tx.Fetch, Tx.Grant, Tx.WorkerPut, HasMessages, Tx.ShipLength;
    match a
    case Collect => CollectKeepsOutput(c);
    case Fill => CollectKeepsOutput(FinishOutput(c));
    case _ =>
  }

  lemma CollectKeepsOutput(c: Channel)
    ensures GarbageCollect(c).output == c.output
  {
  }

  lemma {:induction false} RunForward(c: Channel, moves: seq<Move>)
    ensures Progress(c.output) <= Progress(Run(c, moves).output)
    decreases |moves|
  {
    hide Act, Blocked, Progress;
    if moves != [] {
      ActForward(c, moves[0]);
      RunForward(Step(c, moves[0]), moves[1..]);
    }
  }

  // --------------------------------------------------------------- main results

  /** In every run of a channel: it sends at most one CLOSE and no data after it; it
      has sent one exactly when it says so; input not open means output not open; and
      it is deleted only when CLOSE was both sent and received. */
  lemma ClosesOnce(sftp: bool, window: U32, maxPacket: U32, moves: seq<Move>)
    ensures var c := Run(Fresh(sftp, window, maxPacket), moves);
      && (forall i, j :: 0 <= i < j < |c.sent| && c.sent[i].Close? ==> !c.sent[j].Data? && !c.sent[j].Close?)
      && (Close in c.sent <==> c.closeSent)
      && (!c.input.Open? ==> !c.output.Open?)
      && (c.deleted ==> c.closeSent && c.closeRcvd)
  {
    hide Step, Fresh, R.Valid;
    FreshSafe(sftp, window, maxPacket);
    RunSafe(Fresh(sftp, window, maxPacket), moves);
  }

  lemma {:induction false} RunConcat(c: Channel, a: seq<Move>, b: seq<Move>)
    ensures Run(c, a + b) == Run(Run(c, a), b)
    decreases |a|
  {
    hide Step;
    if a == [] {
      assert a + b == b;
    } else {
      assert (a + b)[0] == a[0] && (a + b)[1..] == a[1..] + b;
      RunConcat(Step(c, a[0]), a[1..], b);
    }
  }

  /** Over any continuation of any run the output half only moves forward. */
  lemma OutputOnlyForward(sftp: bool, window: U32, maxPacket: U32, moves: seq<Move>, more: seq<Move>)
    ensures Progress(Run(Fresh(sftp, window, maxPacket), moves).output)
         <= Progress(Run(Fresh(sftp, window, maxPacket), moves + more).output)
  {
    hide Step, Fresh, Progress;
    RunConcat(Fresh(sftp, window, maxPacket), moves, more);
    RunForward(Run(Fresh(sftp, window, maxPacket), moves), more);
  }

  // ---------------------------------------------------------- the input half

  /** The moves that take a closed input half back: the output half's end in
      `fill_event_array`, and the notice that the subsystem is over. */
  predicate Reopens(c: Channel, a: Move) {
    && c.input.Closed? && !Blocked(c, a)
    && ((a.Fill? && c.output.WaitDrain? && c.rx.descending == [])
        || (a.Terminated? && c.subsystem && c.terminated))
  }

  lemma CollectKeepsInput(c: Channel)
    ensures GarbageCollect(c).input == c.input
  {
  }

  /** In a reachable channel the input half goes back exactly on those moves. */
  lemma InputBackExactly(c: Channel, a: Move)
    requires Safe(c)
    ensures Progress(Step(c, a).input) < Progress(c.input) <==> Reopens(c, a)
  {
    hide Tidy, R.Valid, GarbageCollect, Rx.Opened, Rx.TakeData, Rx.EndOfFile, Rx.Forward, Rx.Adjusted, Rx.WantsAdjust,
         Rx.Worker, Tx.Ship, Tx.Fetch, Tx.Grant, Tx.WorkerPut, HasMessages, Tx.ShipLength, Over;
    match a
    case Collect => CollectKeepsInput(c);
    case Fill => CollectKeepsInput(FinishOutput(c));
    case _ =>
  }

  predicate InputOnlyForward(c: Channel, moves: seq<Move>)
    decreases |moves|
  {
    moves != [] ==>
      && Progress(c.input) <= Progress(Step(c, moves[0]).input)
      && InputOnlyForward(Step(c, moves[0]), moves[1..])
  }

  predicate NeverReopens(c: Channel, moves: seq<Move>)
    decreases |moves|
  {
    moves != [] ==> !Reopens(c, moves[0]) && NeverReopens(Step(c, moves[0]), moves[1..])
  }

  lemma {:induction false} ForwardRun(c: Channel, moves: seq<Move>)
    requires Safe(c)
    ensures InputOnlyForward(c, moves) <==> NeverReopens(c, moves)
    decreases |moves|
  {
    hide Safe, Step, Reopens, Progress;
    if moves != [] {
      InputBackExactly(c, moves[0]);
      StepSafe(c, moves[0]);
      ForwardRun(Step(c, moves[0]), moves[1..]);
    }
  }

  /** The input half only moves forward exactly in the runs without such a move. */
  lemma InputForwardExactly(sftp: bool, window: U32, maxPacket: U32, moves: seq<Move>)
    ensures var c := Fresh(sftp, window, maxPacket);
      InputOnlyForward(c, moves) <==> NeverReopens(c, moves)
  {
    hide Safe, Step, Fresh;
    FreshSafe(sftp, window, maxPacket);
    ForwardRun(Fresh(sftp, window, maxPacket), moves);
  }

  lemma RunTwo(c: Channel, a: Move, b: Move)
    ensures Run(c, [a, b]) == Step(Step(c, a), b)
  {
    hide Step;
    assert [a, b][1..] == [b] && [b][1..] == [];
    assert Run(Step(c, a), [b]) == Run(Step(Step(c, a), b), []);
  }

  lemma ClosedByPeer(window: U32, maxPacket: U32)
    ensures var c := Step(Step(Fresh(false, window, maxPacket), Start), PeerClose);
      c.input.Closed? && c.output.WaitDrain? && c.rx.descending == [] && !c.asking && !Over(c)
  {
  }

  lemma FillReopens(c: Channel)
    requires c.input.Closed? && c.output.WaitDrain? && c.rx.descending == [] && !c.asking && !Over(c)
    ensures Step(c, Fill).input.WaitDrain? && Step(c, Fill).output.Closed?
  {
    hide Rx.EndOfFile;
  }

  /** Such runs are there: the end of the output half sends a closed input
      half back to draining. */
  lemma InputCanReopen(window: U32, maxPacket: U32)
    ensures var c := Run(Fresh(false, window, maxPacket), [Start, PeerClose]);
      c.input.Closed? && Step(c, Fill).input.WaitDrain?
  {
    hide Step, Fresh;
    RunTwo(Fresh(false, window, maxPacket), Start, PeerClose);
    ClosedByPeer(window, maxPacket);
    FillReopens(Run(Fresh(false, window, maxPacket), [Start, PeerClose]));
  }
}
