/** A session channel with its subsystem: both halves of the close machine over
    both windows (sections 5.2 and 5.3 of RFC 4254).  The busy thread and the
    worker take turns in any order, one action at a time. */
module Channels {
  import opened Bytes
  import opened DoubleBuffer
  import W = WriteDoubleBuffer
  import Buffers
  import Rx = ReceiveWindow
  import Tx = SendWindow

  datatype Half = Open | WaitDrain | Closed

  /** What a channel sends to the peer. */
  datatype Event = Data(bytes: seq<Byte>) | Adjust(size: nat) | Eof | Close | ExitStatus

  datatype Channel = Channel(
    sftp: bool, isOpened: bool, eofRcvd: bool, eofSent: bool, closeRcvd: bool, closeSent: bool,
    doClose: bool, input: Half, output: Half,
    asking: bool,                      // inside `hasAscendingData`, about to look at the thread
    subsystem: bool, terminated: bool, // the subsystem exists; its thread is over
    rx: Rx.Receive, tx: Tx.Transmit,
    deleted: bool,
    // history
    sent: seq<Event>, fromPeer: nat)

  /** SessionChannel::PacketDefaultSize and WindowDefaultSize. */
  const PACKET_SIZE: U32 := 0x8000
  const WINDOW_SIZE: U32 := 0x20_0000

  function Fresh(sftp: bool, window: U32, maxPacket: U32): (c: Channel) {
    Channel(sftp, false, false, false, false, false, false, Open, Open, false, false, false,
            Rx.Empty(PACKET_SIZE), Tx.Empty(window, maxPacket), false, [], 0)
  }

  /** The channel is gone, or the whole process is. */
  predicate Over(c: Channel) {
    c.deleted || c.rx.ended || c.rx.w.fatal || c.tx.r.fatal
  }

  // ------------------------------------------------------------ the busy thread

  /** `input_channel_req` starting a subsystem, and `Channel::open`. */
  function OpenUp(c: Channel): (t: Channel) {
    c.(isOpened := true, subsystem := c.subsystem || !c.isOpened,
       rx := if c.isOpened then c.rx else Rx.Opened(c.rx, WINDOW_SIZE),
       sent := if c.isOpened then c.sent else c.sent + [Adjust(WINDOW_SIZE)])
  }

  /** The string in a CHANNEL_DATA packet; `packet_get_string_ptr` takes no more. */
  type PacketData = d: seq<Byte> | |d| <= 0x4_0000

  /** `channel_input_data`: data for a channel not yet open is ignored. */
  function InputData(c: Channel, data: PacketData): (t: Channel) {
    c.(fromPeer := c.fromPeer + |data|,
       rx := if c.isOpened then Rx.TakeData(c.rx, data, c.output.Open?)
             else Rx.Ignored(c.rx, |data|))
  }

  /** `rcvd_ieof`: an open output half is closed, at once if nothing is left to
      deliver; the end of file goes to the subsystem and the input half drains. */
  function InputEof(c: Channel): (t: Channel) {
    var finish := c.output.Open? && c.rx.descending == [];
    c.(eofRcvd := true,
       output := if finish then Closed else if c.output.Open? then WaitDrain else c.output,
       input := if finish then WaitDrain else c.input,
       rx := if finish then Rx.EndOfFile(c.rx) else c.rx)
  }

  /** `channel_input_oclose`: a larval channel is torn down at once; otherwise the
      output half may still drain, and an input half that was draining says EOF. */
  function InputClose(c: Channel): (t: Channel) {
    var eof := c.isOpened && c.input.WaitDrain?;
    c.(closeRcvd := true, input := Closed,
       output := if !c.isOpened then Closed else if c.output.Open? then WaitDrain else c.output,
       eofSent := c.eofSent || eof, sent := if eof then c.sent + [Eof] else c.sent)
  }

  function InputAdjust(c: Channel, n: U32): (t: Channel) {
    c.(tx := Tx.Grant(c.tx, n))
  }

  /** The worker acts only while its thread runs. */
  predicate Running(c: Channel) {
    c.subsystem && !c.terminated
  }

  /** The first test of `hasAscendingData`: messages or bytes on this side. */
  predicate HasMessages(c: Channel) {
    c.tx.ascending != [] || c.tx.r.nRead + c.tx.r.nWrite > 0
  }

  /** The first half of `channel_output_poll`: one data packet. */
  function ShipData(c: Channel): (t: Channel) {
    c.(tx := if c.input.Closed? then c.tx else Tx.Ship(c.tx),
       sent := if c.input.Closed? || Tx.ShipLength(c.tx) == 0 then c.sent
               else c.sent + [Data(c.tx.ascending[..Tx.ShipLength(c.tx)])])
  }

  /** `channel_output_poll` up to the second test of `hasAscendingData`, whether the
      thread still runs.  The worker may act before that test is made. */
  function OutputPoll(c: Channel): (t: Channel) {
    if !c.isOpened then c
    else var d := ShipData(c); d.(asking := d.input.WaitDrain? && !HasMessages(d))
  }

  /** The second test, and the end of the input half if nothing more can come. */
  function FinishInput(c: Channel): (t: Channel) {
    var finish := c.asking && !Running(c);
    var eof := finish && !(c.eofSent || c.closeSent);
    c.(asking := false, input := if finish then Closed else c.input, eofSent := c.eofSent || eof,
       sent := if eof then c.sent + [Eof] else c.sent)
  }

  /** `channel_check_window`. */
  function CheckWindow(c: Channel): (t: Channel) {
    var adjust := c.isOpened && !(c.closeSent || c.closeRcvd) && Rx.WantsAdjust(c.rx);
    c.(rx := if adjust then Rx.Adjusted(c.rx) else c.rx,
       sent := if adjust then c.sent + [Adjust(c.rx.consumed)] else c.sent)
  }

  /** Both halves closed. */
  predicate HalvesClosed(c: Channel) {
    c.input.Closed? && c.output.Closed?
  }

  /** The answer of `chan_is_dead`. */
  predicate ChanIsDead(c: Channel, doSend: bool) {
    HalvesClosed(c) &&
    if !c.closeSent && !doSend && c.closeRcvd then true // almost dead
    else (c.closeSent || doSend) && c.closeRcvd
  }

  /** `chan_is_dead` sends a CLOSE on the way if asked to. */
  function SendClose(c: Channel, doSend: bool): (t: Channel) {
    var close := HalvesClosed(c) && !c.closeSent && doSend;
    c.(closeSent := c.closeSent || close, sent := if close then c.sent + [Close] else c.sent)
  }

  /** `session_close_by_channel`. */
  function CloseSession(c: Channel): (t: Channel) {
    c.(rx := if c.subsystem then Rx.EndOfFile(c.rx) else c.rx, subsystem := false)
  }

  /** `garbage_collect`: the first test sends a CLOSE only if our side closes first,
      the second one always. */
  function GarbageCollect(c: Channel): (t: Channel) {
    var d := SendClose(c, c.doClose);
    if !ChanIsDead(c, c.doClose) then d
    else
      var e := CloseSession(d);
      SendClose(e, true).(deleted := ChanIsDead(e, true))
  }

  /** The output half has delivered all it had. */
  function FinishOutput(c: Channel): (t: Channel) {
    var finish := c.output.WaitDrain? && c.rx.descending == [];
    c.(rx := if finish then Rx.EndOfFile(c.rx) else c.rx,
       output := if finish then Closed else c.output, input := if finish then WaitDrain else c.input)
  }

  /** One channel's turn in `fill_event_array`. */
  function FillEvents(c: Channel): (t: Channel) {
    GarbageCollect(FinishOutput(c))
  }

  /** `subproc_terminated_notify`, for a channel whose subsystem is over. */
  function Notify(c: Channel): (t: Channel) {
    var over := c.subsystem && c.terminated;
    c.(sent := if over then c.sent + [ExitStatus] else c.sent, doClose := c.doClose || over,
       output := if over then Closed else c.output, input := if over then WaitDrain else c.input)
  }

  // ------------------------------------------------------------------- all moves

  datatype Move =
    | Start | Incoming(data: PacketData) | PeerEof | PeerClose | PeerAdjust(size: U32)
    | Poll | Ask | FetchStep | Forward | Check | Collect | Fill | Terminated // the busy thread
    | Work(other: bool) | Emit(msg: seq<Byte>) | Exit                  // the worker

  function FetchOne(c: Channel): (t: Channel) {
    c.(tx := if c.isOpened then Tx.Fetch(c.tx, c.sftp) else c.tx)
  }

  function ForwardOn(c: Channel): (t: Channel) {
    c.(rx := if c.isOpened then Rx.Forward(c.rx, c.sftp) else c.rx)
  }

  function WorkOn(c: Channel, other: bool): (t: Channel) {
    c.(rx := if Running(c) then Rx.Worker(c.rx, other) else c.rx)
  }

  function EmitOne(c: Channel, msg: seq<Byte>): (t: Channel) {
    c.(tx := if Running(c) then Tx.WorkerPut(c.tx, msg) else c.tx)
  }

  function ExitThread(c: Channel): (t: Channel) {
    c.(terminated := c.terminated || c.subsystem)
  }

  /** `channel_post` is FetchStep, Forward, Check and Collect; here they may come in
      any order, with the worker in between. */
  function Act(c: Channel, a: Move): (t: Channel) {
    match a
    case Start => OpenUp(c)
    case Incoming(data) => InputData(c, data)
    case PeerEof => InputEof(c)
    case PeerClose => InputClose(c)
    case PeerAdjust(n) => InputAdjust(c, n)
    case Poll => OutputPoll(c)
    case Ask => FinishInput(c)
    case FetchStep => FetchOne(c)
    case Forward => ForwardOn(c)
    case Check => CheckWindow(c)
    case Collect => GarbageCollect(c)
    case Fill => FillEvents(c)
    case Terminated => Notify(c)
    case Work(other) => WorkOn(c, other)
    case Emit(msg) => EmitOne(c, msg)
    case Exit => ExitThread(c)
  }

  predicate ByWorker(a: Move) {
    a.Work? || a.Emit? || a.Exit?
  }

  /** The busy thread finishes its poll before it does anything else. */
  predicate Blocked(c: Channel, a: Move) {
    Over(c) || (c.asking && !a.Ask? && !ByWorker(a))
  }

  function Step(c: Channel, a: Move): (t: Channel) {
    if Blocked(c, a) then c else Act(c, a)
  }

  function Run(c: Channel, moves: seq<Move>): (t: Channel)
    decreases |moves|
  {
    if moves == [] then c else Run(Step(c, moves[0]), moves[1..])
  }

  /** The peer never sends more than it has credit for. */
  predicate Respectful(c: Channel, moves: seq<Move>)
    decreases |moves|
  {
    moves != [] ==>
      && (moves[0].Incoming? ==> |moves[0].data| <= c.rx.credit)
      && Respectful(Step(c, moves[0]), moves[1..])
  }

  // --------------------------------------------------------- the windows add up

  function AdjustTotal(sent: seq<Event>): (n: nat) {
    if sent == [] then 0
    else
      var e := sent[|sent| - 1];
      AdjustTotal(sent[..|sent| - 1]) + if e.Adjust? then e.size else 0
  }

  function DataPackets(sent: seq<Event>): (r: seq<seq<Byte>>) {
    if sent == [] then []
    else
      var e := sent[|sent| - 1];
      DataPackets(sent[..|sent| - 1]) + if e.Data? then [e.bytes] else []
  }

  lemma SentSnoc(sent: seq<Event>, e: Event)
    ensures AdjustTotal(sent + [e]) == AdjustTotal(sent) + if e.Adjust? then e.size else 0
    ensures DataPackets(sent + [e]) == DataPackets(sent) + if e.Data? then [e.bytes] else []
  {
    assert (sent + [e])[..|sent|] == sent;
  }

  /** The receiving side, tied to what went over the wire. */
  ghost predicate Receives(c: Channel) {
    && Rx.Valid(c.rx, c.sftp)
    && c.rx.credit + c.fromPeer == AdjustTotal(c.sent)
    && (!c.isOpened ==> c.rx.window == 0 && c.rx.max == 0)
    && (c.isOpened ==> c.rx.max == WINDOW_SIZE) && c.rx.maxPacket == PACKET_SIZE
  }

  /** The sending side. */
  predicate Transmits(c: Channel) {
    Tx.Valid(c.tx, c.sftp) && DataPackets(c.sent) == c.tx.packets
  }

  lemma EndOfFileFrame(rx: Rx.Receive)
    ensures var t := Rx.EndOfFile(rx);
      t.credit == rx.credit && t.window == rx.window && t.max == rx.max && t.maxPacket == rx.maxPacket
  {
  }

  lemma EofKeeps(c: Channel)
    ensures Receives(c) ==> Receives(c.(rx := Rx.EndOfFile(c.rx)))
  {
    hide Rx.Valid, AdjustTotal, Rx.EndOfFile;
    EndOfFileFrame(c.rx);
    if Receives(c) {
      Rx.EndOfFileKeeps(c.rx, c.sftp);
    }
  }

  lemma InputEofKeeps(c: Channel)
    ensures Receives(c) ==> Receives(InputEof(c))
    ensures Transmits(c) ==> Transmits(InputEof(c))
  {
    hide Rx.Valid, Tx.Valid, DataPackets, AdjustTotal, Rx.EndOfFile;
    EofKeeps(c);
  }

  lemma InputCloseKeeps(c: Channel)
    ensures Receives(c) ==> Receives(InputClose(c))
    ensures Transmits(c) ==> Transmits(InputClose(c))
  {
    hide Rx.Valid, Tx.Valid, DataPackets, AdjustTotal;
    SentSnoc(c.sent, Eof);
  }

  lemma NotifyKeeps(c: Channel)
    ensures Receives(c) ==> Receives(Notify(c))
    ensures Transmits(c) ==> Transmits(Notify(c))
  {
    hide Rx.Valid, Tx.Valid, DataPackets, AdjustTotal;
    SentSnoc(c.sent, ExitStatus);
  }

  lemma FinishInputKeeps(c: Channel)
    ensures Receives(c) ==> Receives(FinishInput(c))
    ensures Transmits(c) ==> Transmits(FinishInput(c))
  {
    hide Rx.Valid, Tx.Valid, DataPackets, AdjustTotal;
    SentSnoc(c.sent, Eof);
  }

  lemma FinishOutputReceives(c: Channel)
    requires Receives(c)
    ensures Receives(FinishOutput(c))
  {
    hide Rx.Valid, AdjustTotal, Rx.EndOfFile;
    EndOfFileFrame(c.rx);
    Rx.EndOfFileKeeps(c.rx, c.sftp);
  }

  lemma FinishOutputKeeps(c: Channel)
    ensures Receives(c) ==> Receives(FinishOutput(c))
    ensures Transmits(c) ==> Transmits(FinishOutput(c))
  {
    hide Receives, Tx.Valid, DataPackets, Rx.EndOfFile;
    if Receives(c) {
      FinishOutputReceives(c);
    }
  }

  lemma SendCloseKeeps(c: Channel, doSend: bool)
    ensures Receives(c) ==> Receives(SendClose(c, doSend))
    ensures Transmits(c) ==> Transmits(SendClose(c, doSend))
  {
    hide Rx.Valid, Tx.Valid, DataPackets, AdjustTotal;
    SentSnoc(c.sent, Close);
  }

  lemma CloseSessionKeeps(c: Channel)
    ensures Receives(c) ==> Receives(CloseSession(c))
    ensures Transmits(c) ==> Transmits(CloseSession(c))
  {
    hide Rx.Valid, Tx.Valid, DataPackets, AdjustTotal, Rx.EndOfFile;
    EofKeeps(c);
  }

  lemma DeletedKeeps(c: Channel, deleted: bool)
    ensures Receives(c) ==> Receives(c.(deleted := deleted))
    ensures Transmits(c) ==> Transmits(c.(deleted := deleted))
  {
    hide Rx.Valid, Tx.Valid, DataPackets, AdjustTotal;
  }

  lemma CollectKeeps(c: Channel)
    ensures Receives(c) ==> Receives(GarbageCollect(c))
    ensures Transmits(c) ==> Transmits(GarbageCollect(c))
  {
    hide Receives, Transmits, SendClose, ChanIsDead, CloseSession;
    var d := SendClose(c, c.doClose);
    var e := CloseSession(d);
    SendCloseKeeps(c, c.doClose);
    CloseSessionKeeps(d);
    SendCloseKeeps(e, true);
    DeletedKeeps(SendClose(e, true), ChanIsDead(e, true));
  }

  lemma FillKeeps(c: Channel)
    ensures Receives(c) ==> Receives(FillEvents(c))
    ensures Transmits(c) ==> Transmits(FillEvents(c))
  {
    hide Receives, Transmits, GarbageCollect, FinishOutput;
    FinishOutputKeeps(c);
    CollectKeeps(FinishOutput(c));
  }

  lemma ShipFrame(tx: Tx.Transmit)
    ensures Tx.ShipLength(tx) <= |tx.ascending|
    ensures Tx.Ship(tx).packets == tx.packets +
      if Tx.ShipLength(tx) == 0 then [] else [tx.ascending[..Tx.ShipLength(tx)]]
  {
  }

  lemma ShipDataReceives(c: Channel)
    requires Receives(c)
    ensures Receives(ShipData(c))
  {
    hide Rx.Valid, AdjustTotal, Tx.ShipLength, Tx.Ship;
    ShipFrame(c.tx);
    SentSnoc(c.sent, Data(c.tx.ascending[..Tx.ShipLength(c.tx)]));
  }

  lemma ShipDataTransmits(c: Channel)
    requires Transmits(c)
    ensures Transmits(ShipData(c))
  {
    hide Tx.Valid, DataPackets, Tx.ShipLength, Tx.Ship;
    if !c.input.Closed? {
      Tx.ShipKeeps(c.tx, c.sftp);
      ShipFrame(c.tx);
      if Tx.ShipLength(c.tx) != 0 {
        SentSnoc(c.sent, Data(c.tx.ascending[..Tx.ShipLength(c.tx)]));
      }
    }
  }

  lemma ShipDataKeeps(c: Channel)
    ensures Receives(c) ==> Receives(ShipData(c))
    ensures Transmits(c) ==> Transmits(ShipData(c))
  {
    hide Receives, Transmits, ShipData;
    if Receives(c) { ShipDataReceives(c); }
    if Transmits(c) { ShipDataTransmits(c); }
  }

  lemma AskingKeeps(c: Channel, asking: bool)
    ensures Receives(c) ==> Receives(c.(asking := asking))
    ensures Transmits(c) ==> Transmits(c.(asking := asking))
  {
    hide Rx.Valid, Tx.Valid, DataPackets, AdjustTotal;
  }

  lemma PollKeeps(c: Channel)
    ensures Receives(c) ==> Receives(OutputPoll(c))
    ensures Transmits(c) ==> Transmits(OutputPoll(c))
  {
    hide Receives, Transmits, ShipData, HasMessages;
    var d := ShipData(c);
    ShipDataKeeps(c);
    AskingKeeps(d, d.input.WaitDrain? && !HasMessages(d));
  }

  lemma OpenKeeps(c: Channel)
    ensures Receives(c) ==> Receives(OpenUp(c))
    ensures Transmits(c) ==> Transmits(OpenUp(c))
  {
    hide Rx.Valid, Tx.Valid, DataPackets, AdjustTotal, Rx.Opened;
    SentSnoc(c.sent, Adjust(WINDOW_SIZE));
    OpenedFrame(c.rx, WINDOW_SIZE);
    if Receives(c) && !c.isOpened {
      Rx.OpenedKeeps(c.rx, WINDOW_SIZE, c.sftp);
    }
  }

  lemma OpenedFrame(rx: Rx.Receive, n: U32)
    ensures var t := Rx.Opened(rx, n); t.credit == rx.credit + n && t.max == n && t.maxPacket == rx.maxPacket
  {
  }

  lemma InputDataTaken(c: Channel, data: PacketData)
    requires Receives(c) && |data| <= c.rx.credit && c.isOpened
    ensures Receives(InputData(c, data))
  {
    hide Rx.Valid, AdjustTotal, Rx.TakeData, Rx.Ignored;
    TakeDataFrame(c.rx, data, c.output.Open?);
    Rx.TakeDataKeeps(c.rx, data, c.output.Open?, c.sftp);
  }

  lemma InputDataIgnored(c: Channel, data: PacketData)
    requires Receives(c) && |data| <= c.rx.credit && !c.isOpened
    ensures Receives(InputData(c, data))
  {
    hide Rx.Valid, AdjustTotal, Rx.TakeData, Rx.Ignored;
    TakeDataFrame(c.rx, data, c.output.Open?);
    Rx.WindowAddsUp(c.rx, c.sftp);
    Rx.IgnoredKeeps(c.rx, |data|, c.sftp);
  }

  lemma InputDataKeeps(c: Channel, data: PacketData)
    ensures Receives(c) && |data| <= c.rx.credit ==> Receives(InputData(c, data))
    ensures Transmits(c) ==> Transmits(InputData(c, data))
  {
    hide Receives, Tx.Valid, DataPackets, Rx.TakeData, Rx.Ignored;
    if Receives(c) && |data| <= c.rx.credit {
      if c.isOpened { InputDataTaken(c, data); } else { InputDataIgnored(c, data); }
    }
  }

  lemma TakeDataFrame(rx: Rx.Receive, data: PacketData, open: bool)
    ensures var t := Rx.TakeData(rx, data, open);
      t.credit == rx.credit - |data| && t.max == rx.max && t.maxPacket == rx.maxPacket
    ensures var t := Rx.Ignored(rx, |data|);
      t.credit == rx.credit - |data| && t.max == rx.max && t.window == rx.window && t.maxPacket == rx.maxPacket
  {
  }

  lemma CheckKeeps(c: Channel)
    ensures Receives(c) ==> Receives(CheckWindow(c))
    ensures Transmits(c) ==> Transmits(CheckWindow(c))
  {
    hide Rx.Valid, Tx.Valid, DataPackets, AdjustTotal, Rx.Adjusted, Rx.WantsAdjust;
    SentSnoc(c.sent, Adjust(c.rx.consumed));
    AdjustedFrame(c.rx);
    if Receives(c) {
      Rx.AdjustedKeeps(c.rx, c.sftp);
    }
  }

  lemma AdjustedFrame(rx: Rx.Receive)
    ensures var t := Rx.Adjusted(rx);
      t.credit == rx.credit + rx.consumed && t.max == rx.max && t.maxPacket == rx.maxPacket
  {
  }

  lemma FetchKeeps(c: Channel)
    ensures Receives(c) ==> Receives(FetchOne(c))
    ensures Transmits(c) ==> Transmits(FetchOne(c))
  {
    hide Rx.Valid, Tx.Valid, DataPackets, AdjustTotal, Tx.Fetch;
    FetchFrame(c.tx, c.sftp);
    if Transmits(c) {
      Tx.FetchKeeps(c.tx, c.sftp);
    }
  }

  lemma GrantTransmits(c: Channel, n: U32)
    requires Transmits(c)
    ensures Transmits(InputAdjust(c, n))
  {
    hide Tx.Valid, DataPackets, Tx.Grant;
    GrantFrame(c.tx, n);
    Tx.GrantKeeps(c.tx, n, c.sftp);
  }

  lemma GrantKeeps(c: Channel, n: U32)
    ensures Receives(c) ==> Receives(InputAdjust(c, n))
    ensures Transmits(c) ==> Transmits(InputAdjust(c, n))
  {
    hide Transmits, Rx.Valid, AdjustTotal, Tx.Grant;
    if Transmits(c) {
      GrantTransmits(c, n);
    }
  }

  lemma EmitKeeps(c: Channel, msg: seq<Byte>)
    ensures Receives(c) ==> Receives(EmitOne(c, msg))
    ensures Transmits(c) ==> Transmits(EmitOne(c, msg))
  {
    hide Rx.Valid, Tx.Valid, DataPackets, AdjustTotal, Tx.WorkerPut;
    WorkerPutFrame(c.tx, msg);
    if Transmits(c) {
      Tx.WorkerPutKeeps(c.tx, msg, c.sftp);
    }
  }

  lemma FetchFrame(tx: Tx.Transmit, sftp: bool)
    ensures Tx.Fetch(tx, sftp).packets == tx.packets
  {
  }

  lemma GrantFrame(tx: Tx.Transmit, n: U32)
    ensures Tx.Grant(tx, n).packets == tx.packets
  {
  }

  lemma WorkerPutFrame(tx: Tx.Transmit, msg: seq<Byte>)
    ensures Tx.WorkerPut(tx, msg).packets == tx.packets
  {
  }

  lemma ForwardKeeps(c: Channel)
    ensures Receives(c) ==> Receives(ForwardOn(c))
    ensures Transmits(c) ==> Transmits(ForwardOn(c))
  {
    hide Rx.Valid, Tx.Valid, DataPackets, AdjustTotal, Rx.Forward;
    ForwardFrame(c.rx, c.sftp);
    if Receives(c) {
      Rx.ForwardKeeps(c.rx, c.sftp);
    }
  }

  lemma ForwardFrame(rx: Rx.Receive, sftp: bool)
    ensures var t := Rx.Forward(rx, sftp);
      t.credit == rx.credit && t.window == rx.window && t.max == rx.max && t.maxPacket == rx.maxPacket
  {
  }

  lemma WorkKeeps(c: Channel, other: bool)
    ensures Receives(c) ==> Receives(WorkOn(c, other))
    ensures Transmits(c) ==> Transmits(WorkOn(c, other))
  {
    hide Rx.Valid, Tx.Valid, DataPackets, AdjustTotal, W.WorkStep;
    if Receives(c) {
      Rx.WorkerKeeps(c.rx, other, c.sftp);
    }
  }

  lemma ExitKeeps(c: Channel)
    ensures Receives(c) ==> Receives(ExitThread(c))
    ensures Transmits(c) ==> Transmits(ExitThread(c))
  {
    hide Rx.Valid, Tx.Valid, DataPackets, AdjustTotal;
  }

  lemma ActKeeps(c: Channel, a: Move)
    ensures Receives(c) && (a.Incoming? ==> |a.data| <= c.rx.credit) ==> Receives(Act(c, a))
    ensures Transmits(c) ==> Transmits(Act(c, a))
  {
    hide Receives, Transmits, OpenUp, InputData, InputEof, InputClose, InputAdjust, OutputPoll, FinishInput, FetchOne,
         ForwardOn, CheckWindow, GarbageCollect, FillEvents, Notify, WorkOn, EmitOne, ExitThread;
    match a
    case Start => OpenKeeps(c);
    case Incoming(data) => InputDataKeeps(c, data);
    case PeerEof => InputEofKeeps(c);
    case PeerClose => InputCloseKeeps(c);
    case PeerAdjust(n) => GrantKeeps(c, n);
    case Poll => PollKeeps(c);
    case Ask => FinishInputKeeps(c);
    case FetchStep => FetchKeeps(c);
    case Forward => ForwardKeeps(c);
    case Check => CheckKeeps(c);
    case Collect => CollectKeeps(c);
    case Fill => FillKeeps(c);
    case Terminated => NotifyKeeps(c);
    case Work(other) => WorkKeeps(c, other);
    case Emit(msg) => EmitKeeps(c, msg);
    case Exit => ExitKeeps(c);
  }

  lemma {:induction false} TransmitsRun(c: Channel, moves: seq<Move>)
    requires Transmits(c)
    ensures Transmits(Run(c, moves))
    decreases |moves|
  {
    hide Transmits, Act, Blocked;
    if moves != [] {
      ActKeeps(c, moves[0]);
      TransmitsRun(Step(c, moves[0]), moves[1..]);
    }
  }

  lemma {:induction false} ReceivesRun(c: Channel, moves: seq<Move>)
    requires Receives(c) && Respectful(c, moves)
    ensures Receives(Run(c, moves))
    decreases |moves|
  {
    hide Receives, Act, Blocked;
    if moves != [] {
      ActKeeps(c, moves[0]);
      ReceivesRun(Step(c, moves[0]), moves[1..]);
    }
  }

  lemma FreshAccounts(sftp: bool, window: U32, maxPacket: U32)
    ensures Receives(Fresh(sftp, window, maxPacket)) && Transmits(Fresh(sftp, window, maxPacket))
  {
    hide Rx.Valid, Tx.Valid;
    Rx.EmptyValid(PACKET_SIZE, sftp);
    Tx.EmptyValid(window, maxPacket, sftp);
  }

  /** A message is forwarded to an SFTP subsystem, and nothing was consumed before. */
  predicate Loses(c: Channel, a: Move) {
    && a.Forward? && !Blocked(c, a) && c.isOpened && c.sftp
    && Rx.CompletePacket(c.rx.descending) && GetU32(c.rx.descending) <= Buffers.MAX_CHUNK
    && (c.rx.consumed - c.rx.w.writeConsumed) % 0x1_0000_0000 == 0
  }

  function LossCount(c: Channel, moves: seq<Move>): (n: nat)
    decreases |moves|
  {
    if moves == [] then 0
    else (if Loses(c, moves[0]) then 1 else 0) + LossCount(Step(c, moves[0]), moves[1..])
  }

  lemma ForwardLoses(c: Channel)
    requires !Blocked(c, Forward)
    ensures ForwardOn(c).sftp == c.sftp
    ensures ForwardOn(c).rx.lost == c.rx.lost + if Loses(c, Forward) then 1 else 0
  {
    hide GetU32;
  }

  lemma EofLosesNothing(rx: Rx.Receive)
    ensures Rx.EndOfFile(rx).lost == rx.lost
  {
  }

  /** The kind of a channel and its losses. */
  predicate SameLosses(c: Channel, t: Channel) {
    t.sftp == c.sftp && t.rx.lost == c.rx.lost
  }

  lemma SendCloseLosesNothing(c: Channel, doSend: bool, deleted: bool)
    ensures SameLosses(c, SendClose(c, doSend)) && SameLosses(c, SendClose(c, doSend).(deleted := deleted))
  {
  }

  lemma CloseSessionLosesNothing(c: Channel)
    ensures SameLosses(c, CloseSession(c))
  {
    hide Rx.EndOfFile;
    EofLosesNothing(c.rx);
  }

  lemma CollectLosesNothing(c: Channel)
    ensures SameLosses(c, GarbageCollect(c))
  {
    hide SendClose, CloseSession, ChanIsDead;
    var d := SendClose(c, c.doClose);
    var e := CloseSession(d);
    SendCloseLosesNothing(c, c.doClose, false);
    CloseSessionLosesNothing(d);
    SendCloseLosesNothing(e, true, ChanIsDead(e, true));
  }

  lemma FinishOutputLosesNothing(c: Channel)
    ensures SameLosses(c, FinishOutput(c))
  {
    hide Rx.EndOfFile;
    EofLosesNothing(c.rx);
  }

  lemma CountersLoseNothing(rx: Rx.Receive, data: PacketData, open: bool, size: U32, other: bool)
    ensures Rx.TakeData(rx, data, open).lost == rx.lost && Rx.Ignored(rx, |data|).lost == rx.lost
    ensures Rx.Opened(rx, size).lost == rx.lost && Rx.Adjusted(rx).lost == rx.lost
    ensures Rx.Worker(rx, other).lost == rx.lost
  {
    hide W.WorkStep;
  }

  lemma OpenLosesNothing(c: Channel)
    ensures SameLosses(c, OpenUp(c))
  {
    hide Rx.Opened;
    CountersLoseNothing(c.rx, [], false, WINDOW_SIZE, false);
  }

  lemma InputDataLosesNothing(c: Channel, data: PacketData)
    ensures SameLosses(c, InputData(c, data))
  {
    hide Rx.TakeData, Rx.Ignored;
    CountersLoseNothing(c.rx, data, c.output.Open?, 0, false);
  }

  lemma InputEofLosesNothing(c: Channel)
    ensures SameLosses(c, InputEof(c))
  {
    hide Rx.EndOfFile;
    EofLosesNothing(c.rx);
  }

  lemma InputCloseLosesNothing(c: Channel)
    ensures SameLosses(c, InputClose(c))
  {
  }

  lemma AdjustLosesNothing(c: Channel, n: U32)
    ensures SameLosses(c, InputAdjust(c, n))
  {
    hide Tx.Grant;
  }

  lemma PollLosesNothing(c: Channel)
    ensures SameLosses(c, OutputPoll(c))
  {
    hide Tx.Ship, Tx.ShipLength, HasMessages;
  }

  lemma FinishInputLosesNothing(c: Channel)
    ensures SameLosses(c, FinishInput(c))
  {
  }

  lemma FetchLosesNothing(c: Channel)
    ensures SameLosses(c, FetchOne(c))
  {
    hide Tx.Fetch;
  }

  lemma CheckLosesNothing(c: Channel)
    ensures SameLosses(c, CheckWindow(c))
  {
    hide Rx.Adjusted, Rx.WantsAdjust;
    CountersLoseNothing(c.rx, [], false, 0, false);
  }

  lemma FillLosesNothing(c: Channel)
    ensures SameLosses(c, FillEvents(c))
  {
    hide GarbageCollect, FinishOutput;
    FinishOutputLosesNothing(c);
    CollectLosesNothing(FinishOutput(c));
  }

  lemma NotifyLosesNothing(c: Channel)
    ensures SameLosses(c, Notify(c))
  {
  }

  lemma WorkLosesNothing(c: Channel, other: bool)
    ensures SameLosses(c, WorkOn(c, other))
  {
    hide Rx.Worker;
    CountersLoseNothing(c.rx, [], false, 0, other);
  }

  lemma EmitLosesNothing(c: Channel, msg: seq<Byte>)
    ensures SameLosses(c, EmitOne(c, msg))
  {
    hide Tx.WorkerPut;
  }

  lemma ExitLosesNothing(c: Channel)
    ensures SameLosses(c, ExitThread(c))
  {
  }

  lemma ActLosesNothing(c: Channel, a: Move)
    requires !a.Forward?
    ensures SameLosses(c, Act(c, a))
  {
    hide SameLosses, OpenUp, InputData, InputEof, InputClose, InputAdjust, OutputPoll, FinishInput, FetchOne,
         ForwardOn, CheckWindow, GarbageCollect, FillEvents, Notify, WorkOn, EmitOne, ExitThread;
    match a
    case Start => OpenLosesNothing(c);
    case Incoming(data) => InputDataLosesNothing(c, data);
    case PeerEof => InputEofLosesNothing(c);
    case PeerClose => InputCloseLosesNothing(c);
    case PeerAdjust(n) => AdjustLosesNothing(c, n);
    case Poll => PollLosesNothing(c);
    case Ask => FinishInputLosesNothing(c);
    case FetchStep => FetchLosesNothing(c);
    case Check => CheckLosesNothing(c);
    case Collect => CollectLosesNothing(c);
    case Fill => FillLosesNothing(c);
    case Terminated => NotifyLosesNothing(c);
    case Work(other) => WorkLosesNothing(c, other);
    case Emit(msg) => EmitLosesNothing(c, msg);
    case Exit => ExitLosesNothing(c);
  }

  lemma StepLoses(c: Channel, a: Move)
    ensures Step(c, a).rx.lost == c.rx.lost + if Loses(c, a) then 1 else 0
    ensures Step(c, a).sftp == c.sftp
  {
    hide Blocked, ForwardOn, GetU32, Rx.CompletePacket, Act;
    if !Blocked(c, a) {
      if a.Forward? {
        ForwardLoses(c);
        ActIsForward(c);
      } else {
        ActLosesNothing(c, a);
        StepIsAct(c, a);
      }
    }
  }

  lemma ActIsForward(c: Channel)
    ensures Act(c, Forward) == ForwardOn(c)
  {
    hide ForwardOn;
  }

  lemma StepIsAct(c: Channel, a: Move)
    requires !Blocked(c, a)
    ensures Step(c, a) == Act(c, a)
  {
    hide Act, Blocked;
  }

  lemma {:induction false} LossesCounted(c: Channel, moves: seq<Move>)
    ensures Run(c, moves).rx.lost == c.rx.lost + LossCount(c, moves)
    ensures Run(c, moves).sftp == c.sftp
    decreases |moves|
  {
    hide Step, Loses;
    if moves != [] {
      StepLoses(c, moves[0]);
      LossesCounted(Step(c, moves[0]), moves[1..]);
    }
  }

  lemma FreshLoses(sftp: bool, window: U32, maxPacket: U32)
    ensures Fresh(sftp, window, maxPacket).rx.lost == 0 && Fresh(sftp, window, maxPacket).sftp == sftp
  {
  }

  lemma RunThree(c: Channel, a: Move, b: Move, d: Move)
    ensures Run(c, [a, b, d]) == Step(Step(Step(c, a), b), d)
  {
    hide Step;
    assert [a, b, d][1..] == [b, d] && [b, d][1..] == [d] && [d][1..] == [];
    var c1 := Step(c, a);
    var c2 := Step(c1, b);
    assert Run(c2, [d]) == Run(Step(c2, d), []);
    assert Run(c1, [b, d]) == Run(c2, [d]);
  }

  /** The very first message loses its 4 bytes: the window is down by 5, and only the
      byte of content will ever be given back. */
  lemma FirstMessageLoses(window: U32, maxPacket: U32, x: Byte)
    ensures var c := Run(Fresh(true, window, maxPacket), [Start, Incoming([0, 0, 0, 1, x]), Forward]);
      && c.rx.lost == 1 && c.rx.descending == [] && c.rx.window == WINDOW_SIZE - 5
      && Payload(c.rx.w.write) == 1
  {
    hide Step;
    var c := Fresh(true, window, maxPacket);
    RunThree(c, Start, Incoming([0, 0, 0, 1, x]), Forward);
    FirstMessageComes(window, maxPacket, x);
    FirstMessageGoes(Step(Step(c, Start), Incoming([0, 0, 0, 1, x])), x);
  }

  lemma FirstMessageComes(window: U32, maxPacket: U32, x: Byte)
    ensures var c := Step(Step(Fresh(true, window, maxPacket), Start), Incoming([0, 0, 0, 1, x]));
      && c.isOpened && c.sftp && !c.asking && !Over(c) && c.rx.descending == [0, 0, 0, 1, x]
      && c.rx.w == W.EMPTY && c.rx.consumed == 0 && c.rx.lost == 0 && c.rx.window == WINDOW_SIZE - 5
  {
    assert [] + [0, 0, 0, 1, x] == [0, 0, 0, 1, x];
  }

  lemma FirstMessageGoes(c: Channel, x: Byte)
    requires c.isOpened && c.sftp && !c.asking && !Over(c) && c.rx.descending == [0, 0, 0, 1, x]
    requires c.rx.w == W.EMPTY && c.rx.consumed == 0 && c.rx.lost == 0
    ensures var t := Step(c, Forward);
      && t.rx.lost == 1 && t.rx.descending == [] && t.rx.window == c.rx.window && Payload(t.rx.w.write) == 1
  {
    hide Rx.ForwardSftp;
    MessageLoses(c.rx, x);
  }

  lemma MessageLoses(rx: Rx.Receive, x: Byte)
    requires rx.descending == [0, 0, 0, 1, x] && rx.w == W.EMPTY && rx.consumed == 0 && rx.lost == 0
    ensures var t := Rx.ForwardSftp(rx);
      t.lost == 1 && t.descending == [] && t.window == rx.window && Payload(t.w.write) == 1
  {
    hide Rx.PutThrough;
    var d := rx.descending;
    assert GetU32(d) == 1 && d[4..] == [x] && [x][..1] == [x] && [x][1..] == [];
    OneByteThrough(rx, x);
  }

  lemma OneByteThrough(rx: Rx.Receive, x: Byte)
    requires rx.w == W.EMPTY && rx.consumed == 0
    ensures var t := Rx.PutThrough(rx, [x]);
      t.consumed == 0 && t.lost == rx.lost && t.window == rx.window && Payload(t.w.write) == 1
  {
    var item := Item(0, [x]);
    assert [] + [item] == [item];
    PayloadSnoc([], item);
  }

  /** Receive-window conservation, in every state that any interleaving of the busy
      thread and the worker can reach with a peer that respects the window: the local
      window is the peer's credit (adjustments sent less data received), and window,
      consumed counter, buffered bytes and bytes in the double buffer make up the
      maximum, less 4 for each SFTP message forwarded with nothing consumed (`Loses`). */
  lemma ReceiveWindowConserved(sftp: bool, window: U32, maxPacket: U32, moves: seq<Move>)
    requires Respectful(Fresh(sftp, window, maxPacket), moves)
    ensures var c := Run(Fresh(sftp, window, maxPacket), moves);
      var rx := c.rx;
      && rx.window == AdjustTotal(c.sent) - c.fromPeer
      && rx.max == (if c.isOpened then WINDOW_SIZE else 0)
      && rx.window + rx.consumed + |rx.descending|
         + Payload(rx.w.read) + Payload(rx.w.write) - rx.w.readConsumed - rx.w.writeConsumed
         == rx.max - 4 * rx.lost
      && rx.lost == LossCount(Fresh(sftp, window, maxPacket), moves) && (!c.sftp ==> rx.lost == 0)
  {
    hide Step, Fresh, AdjustTotal, Rx.Valid, LossCount;
    LossesCounted(Fresh(sftp, window, maxPacket), moves);
    FreshLoses(sftp, window, maxPacket);
    FreshAccounts(sftp, window, maxPacket);
    ReceivesRun(Fresh(sftp, window, maxPacket), moves);
    var c := Run(Fresh(sftp, window, maxPacket), moves);
    Rx.WindowAddsUp(c.rx, c.sftp);
  }

  ghost predicate Flowing(c: Channel) {
    Rx.Streams(c.rx, c.sftp)
  }

  lemma InputEofFlows(c: Channel)
    requires Flowing(c)
    ensures Flowing(InputEof(c))
  {
    hide Rx.Streams, Rx.EndOfFile;
    Rx.EndOfFileStreams(c.rx, c.sftp);
  }

  lemma FinishOutputFlows(c: Channel)
    requires Flowing(c)
    ensures Flowing(FinishOutput(c))
  {
    hide Rx.Streams, Rx.EndOfFile;
    Rx.EndOfFileStreams(c.rx, c.sftp);
  }

  lemma SendCloseFlows(c: Channel, doSend: bool, deleted: bool)
    requires Flowing(c)
    ensures Flowing(SendClose(c, doSend)) && Flowing(SendClose(c, doSend).(deleted := deleted))
  {
    hide Rx.Streams;
  }

  lemma CloseSessionFlows(c: Channel)
    requires Flowing(c)
    ensures Flowing(CloseSession(c))
  {
    hide Rx.Streams, Rx.EndOfFile;
    Rx.EndOfFileStreams(c.rx, c.sftp);
  }

  lemma CollectFlows(c: Channel)
    requires Flowing(c)
    ensures Flowing(GarbageCollect(c))
  {
    hide Flowing, SendClose, ChanIsDead, CloseSession;
    var d := SendClose(c, c.doClose);
    var e := CloseSession(d);
    SendCloseFlows(c, c.doClose, false);
    CloseSessionFlows(d);
    SendCloseFlows(e, true, ChanIsDead(e, true));
  }

  lemma FillFlows(c: Channel)
    requires Flowing(c)
    ensures Flowing(FillEvents(c))
  {
    hide Flowing, GarbageCollect, FinishOutput;
    FinishOutputFlows(c);
    CollectFlows(FinishOutput(c));
  }

  lemma PollFlows(c: Channel)
    requires Flowing(c)
    ensures Flowing(OutputPoll(c)) && Flowing(FinishInput(c))
  {
    hide Rx.Streams, HasMessages, Tx.Ship, Tx.ShipLength;
  }

  lemma OpenFlows(c: Channel)
    requires Flowing(c)
    ensures Flowing(OpenUp(c))
  {
    hide Rx.Streams, Rx.Opened;
    Rx.CountersStreams(c.rx, WINDOW_SIZE, c.sftp);
  }

  lemma InputDataFlows(c: Channel, data: PacketData)
    requires Flowing(c)
    ensures Flowing(InputData(c, data))
  {
    hide Rx.Streams, Rx.TakeData, Rx.Ignored;
    Rx.TakeDataStreams(c.rx, data, c.output.Open?, c.sftp);
    Rx.CountersStreams(c.rx, |data|, c.sftp);
  }

  lemma CheckFlows(c: Channel)
    requires Flowing(c)
    ensures Flowing(CheckWindow(c))
  {
    hide Rx.Streams, Rx.Adjusted, Rx.WantsAdjust;
    Rx.CountersStreams(c.rx, 0, c.sftp);
  }

  lemma SubsystemFlows(c: Channel, other: bool)
    requires Flowing(c)
    ensures Flowing(ForwardOn(c)) && Flowing(WorkOn(c, other))
  {
    hide Rx.Streams, Rx.Forward, Rx.Worker;
    Rx.ForwardStreams(c.rx, c.sftp);
    Rx.WorkerStreams(c.rx, other, c.sftp);
  }

  lemma InputCloseFlows(c: Channel)
    requires Flowing(c)
    ensures Flowing(InputClose(c))
  {
    hide Rx.Streams;
  }

  lemma AdjustFlows(c: Channel, n: U32)
    requires Flowing(c)
    ensures Flowing(InputAdjust(c, n))
  {
    hide Rx.Streams, Tx.Grant;
  }

  lemma FetchFlows(c: Channel)
    requires Flowing(c)
    ensures Flowing(FetchOne(c))
  {
    hide Rx.Streams, Tx.Fetch;
  }

  lemma NotifyFlows(c: Channel)
    requires Flowing(c)
    ensures Flowing(Notify(c))
  {
    hide Rx.Streams;
  }

  lemma EmitFlows(c: Channel, msg: seq<Byte>)
    requires Flowing(c)
    ensures Flowing(EmitOne(c, msg))
  {
    hide Rx.Streams, Tx.WorkerPut;
  }

  lemma ExitFlows(c: Channel)
    requires Flowing(c)
    ensures Flowing(ExitThread(c))
  {
    hide Rx.Streams;
  }

  lemma ActFlows(c: Channel, a: Move)
    requires Flowing(c)
    ensures Flowing(Act(c, a))
  {
    hide Flowing, OpenUp, InputData, InputEof, InputClose, InputAdjust, OutputPoll, FinishInput, FetchOne,
         ForwardOn, CheckWindow, GarbageCollect, FillEvents, Notify, WorkOn, EmitOne, ExitThread;
    match a
    case Start => OpenFlows(c);
    case Incoming(data) => InputDataFlows(c, data);
    case PeerEof => InputEofFlows(c);
    case PeerClose => InputCloseFlows(c);
    case PeerAdjust(n) => AdjustFlows(c, n);
    case Poll => PollFlows(c);
    case Ask => PollFlows(c);
    case FetchStep => FetchFlows(c);
    case Forward => SubsystemFlows(c, false);
    case Check => CheckFlows(c);
    case Collect => CollectFlows(c);
    case Fill => FillFlows(c);
    case Terminated => NotifyFlows(c);
    case Work(other) => SubsystemFlows(c, other);
    case Emit(msg) => EmitFlows(c, msg);
    case Exit => ExitFlows(c);
  }

  lemma {:induction false} FlowsRun(c: Channel, moves: seq<Move>)
    requires Flowing(c)
    ensures Flowing(Run(c, moves))
    decreases |moves|
  {
    hide Flowing, Act, Blocked;
    if moves != [] {
      ActFlows(c, moves[0]);
      FlowsRun(Step(c, moves[0]), moves[1..]);
    }
  }

  /** A raw channel never stalls: once all that was received is taken by the subsystem
      and credited, a look at the window leaves the peer all but three packets of it. */
  lemma PeerNeverStalls(window: U32, maxPacket: U32, moves: seq<Move>)
    requires Respectful(Fresh(false, window, maxPacket), moves)
    requires var c := Run(Fresh(false, window, maxPacket), moves);
      && c.isOpened && !Blocked(c, Check) && !c.closeSent && !c.closeRcvd && c.rx.descending == []
      && c.rx.w.read == [] && c.rx.w.write == [] && c.rx.w.readConsumed == 0 && c.rx.w.writeConsumed == 0
    ensures var c := Step(Run(Fresh(false, window, maxPacket), moves), Check);
      && c.rx.window >= 0x20_0000 - 3 * 0x8000 && c.rx.window == AdjustTotal(c.sent) - c.fromPeer
  {
    hide Step, Fresh, AdjustTotal, Rx.Valid, Blocked, LossCount, Rx.Adjusted, Rx.WantsAdjust;
    var c := Run(Fresh(false, window, maxPacket), moves);
    ReceiveWindowConserved(false, window, maxPacket, moves);
    FreshAccounts(false, window, maxPacket);
    ReceivesRun(Fresh(false, window, maxPacket), moves);
    LossesCounted(Fresh(false, window, maxPacket), moves);
    FreshLoses(false, window, maxPacket);
    CheckKeeps(c);
    StepIsCheck(c);
    NothingUnderway(c.rx.w);
    CheckRestores(c);
    Rx.WindowAddsUp(CheckWindow(c).rx, CheckWindow(c).sftp);
  }

  lemma NothingUnderway(w: W.State)
    requires w.read == [] && w.write == []
    ensures Payload(w.read) == 0 && Payload(w.write) == 0
  {
  }

  lemma StepIsCheck(c: Channel)
    requires !Blocked(c, Check)
    ensures Step(c, Check) == CheckWindow(c)
  {
    hide Blocked, CheckWindow;
  }

  lemma CheckRestores(c: Channel)
    requires c.isOpened && !c.closeSent && !c.closeRcvd && c.rx.max == WINDOW_SIZE && c.rx.maxPacket == PACKET_SIZE
    requires c.rx.window + c.rx.consumed == c.rx.max
    ensures CheckWindow(c).rx.window >= 0x20_0000 - 3 * 0x8000 && CheckWindow(c).sftp == c.sftp
  {
  }

  /** What the subsystem receives is what the peer sent, whatever the peer does.  The accepted data is the
      messages forwarded (raw, or each behind its length) and then `descending`; those
      with content are what was put into the double buffer; each reaches the worker at
      most once; and between two of its `get`s the worker has had the first of them in
      order, exactly in the runs without a race. */
  lemma StreamReachesSubsystem(sftp: bool, window: U32, maxPacket: U32, moves: seq<Move>)
    ensures var c := Run(Fresh(sftp, window, maxPacket), moves);
      var sent, w := Rx.NonEmpty(c.rx.forwarded), c.rx.w;
      && c.rx.received == Rx.Stream(c.rx.forwarded, c.sftp) + c.rx.descending
      && Rx.Contents(w.put) == sent
      && multiset(Rx.Contents(w.got)) <= multiset(sent)
      && (w.place.Idle? ==> (w.got + w.read <= w.put <==> !w.raced))
      && (w.place.Idle? && !w.raced ==> Rx.Contents(w.got) <= sent)
  {
    hide Step, Fresh, W.Invariant, Rx.Stream, Rx.Contents, Rx.NonEmpty;
    FreshAccounts(sftp, window, maxPacket);
    FlowsRun(Fresh(sftp, window, maxPacket), moves);
    Rx.TakenAsPut(Run(Fresh(sftp, window, maxPacket), moves).rx.w);
  }

  /** Send-window conservation, in every run whatsoever: the data sent plus the remote
      window is what the peer granted, exactly as long as the peer does not let the
      window pass 2^32 - 1; no data packet is empty or over the peer's limit; and the
      data sent, followed by `ascending`, is what the subsystem put, in order. */
  lemma SendWindowConserved(sftp: bool, window: U32, maxPacket: U32, moves: seq<Move>)
    ensures var c := Run(Fresh(sftp, window, maxPacket), moves);
      var data := DataPackets(c.sent);
      && (|Tx.Flat(data)| + c.tx.window == c.tx.granted <==> c.tx.granted - |Tx.Flat(data)| < TWO32)
      && (forall i :: 0 <= i < |data| ==> 0 < |data[i]| <= c.tx.maxPacket)
      && Tx.Flat(data) + c.tx.ascending == Tx.Output(c.tx.r.got, c.sftp)
      && c.tx.r.got <= c.tx.r.put
  {
    hide Step, Fresh, DataPackets, Tx.Valid, Tx.Flat, Tx.Output;
    FreshAccounts(sftp, window, maxPacket);
    TransmitsRun(Fresh(sftp, window, maxPacket), moves);
    var c := Run(Fresh(sftp, window, maxPacket), moves);
    Tx.SendWindowAddsUp(c.tx, c.sftp);
  }
}
