/** `Channel`, `SessionChannel` and `SFTPChannel` as objects: each method does to the
    fields what its function in Channels says.  The windows and buffers of the two
    directions are kept in a part object each. */
module SessionChannel {
  import opened Bytes
  import opened Channels
  import W = WriteDoubleBuffer
  import R = ReadDoubleBuffer
  import Buffers
  import Rx = ReceiveWindow
  import Tx = SendWindow

  /** The receiving direction. */
  class Receiver {
    var localWindow: U32
    var localWindowMax: U32
    var localConsumed: U32
    var localMaxpacket: U32
    var descending: seq<Byte>
    const fromChannel: W.BusyThreadWriteBuffer
    ghost var view: Rx.Receive

    ghost predicate Valid()
      reads this, fromChannel
    {
      && localWindow == view.window && localWindowMax == view.max && localConsumed == view.consumed
      && localMaxpacket == view.maxPacket && descending == view.descending
      && !view.ended && !view.w.fatal && fromChannel.view == view.w && fromChannel.Valid()
    }

    lemma Live()
      requires Valid()
      ensures !view.ended && !view.w.fatal && descending == view.descending
    {
    }

    constructor (maxPacket: U32)
      ensures Valid() && fresh(fromChannel) && view == Rx.Empty(maxPacket)
    {
      localWindow, localWindowMax, localConsumed, localMaxpacket := 0, 0, 0, maxPacket;
      descending := [];
      fromChannel := new W.BusyThreadWriteBuffer();
      view := Rx.Empty(maxPacket);
    }

    method SetWindow(size: U32)
      requires Valid()
      modifies this
      ensures Valid() && view == Rx.Opened(old(view), size)
    {
      hide fromChannel.Valid;
      localWindow, localWindowMax := size, size;
      view := Rx.Opened(view, size);
    }

    /** The end of `channel_input_data`. */
    method TakeData(data: PacketData, outputOpen: bool)
      requires Valid()
      modifies this
      ensures Valid() && view == Rx.TakeData(old(view), data, outputOpen)
    {
      hide fromChannel.Valid;
      ghost var next := Rx.TakeData(view, data, outputOpen);
      if !outputOpen {
        localWindow := (localWindow - |data|) % 0x1_0000_0000;
        localConsumed := (localConsumed + |data|) % 0x1_0000_0000;
      } else if |data| <= localWindow {
        localWindow := localWindow - |data|;
        descending := descending + data;
      }
      view := next;
    }

    method PutEof()
      requires Valid()
      modifies this, fromChannel
      ensures Valid() && view == Rx.EndOfFile(old(view))
    {
      hide fromChannel.Valid, W.PutEofStep;
      fromChannel.PutEof();
      view := Rx.EndOfFile(view);
    }

    /** `channel_check_window` on an open channel not being closed; `sent` is the
        adjustment sent, 0 if none. */
    method CheckWindow() returns (sent: U32)
      requires Valid()
      modifies this
      ensures Valid() && sent == (if Rx.WantsAdjust(old(view)) then old(view).consumed else 0)
      ensures view == if Rx.WantsAdjust(old(view)) then Rx.Adjusted(old(view)) else old(view)
    {
      hide fromChannel.Valid;
      sent := 0;
      if ((localWindowMax - localWindow) % 0x1_0000_0000 > localMaxpacket * 3 || localWindow < localWindowMax / 2)
         && localConsumed > 0
      {
        sent := localConsumed;
        localWindow := (localWindow + localConsumed) % 0x1_0000_0000;
        localConsumed := 0;
        view := Rx.Adjusted(view);
      }
    }

    /** `fromChannel->put (data, len, &local_consumed)`. */
    method PutThrough(data: seq<Byte>)
      requires Valid() && |data| < TWO32
      modifies this, fromChannel
      ensures Valid() && view == Rx.PutThrough(old(view), data)
    {
      hide fromChannel.Valid, W.PutStep;
      ghost var next := Rx.PutThrough(view, data);
      var consumed := fromChannel.Put(data, localConsumed);
      localConsumed := consumed % 0x1_0000_0000;
      view := next;
    }

    /** `SessionChannel::descending2subproc`; `ok` is false when the process ends. */
    method Descending2subproc() returns (ok: bool)
      requires Valid()
      modifies this, fromChannel
      ensures view == Rx.ForwardRaw(old(view)) && ok == !view.ended && (ok ==> Valid())
    {
      hide fromChannel.Valid, Rx.PutThrough;
      ghost var was, next := view, Rx.ForwardRaw(view);
      ok := |descending| <= Buffers.MAX_CHUNK;
      if ok {
        PutThrough(descending);
        PutThroughFrame(was, was.descending);
        descending := [];
      }
      view := next;
    }

    /** `SFTPChannel::descending2subproc`. */
    method Descending2sftp() returns (ok: bool)
      requires Valid()
      modifies this, fromChannel
      ensures view == Rx.ForwardSftp(old(view)) && ok == !view.ended && (ok ==> Valid())
    {
      hide fromChannel.Valid, Rx.PutThrough, GetU32;
      ghost var was, next := view, Rx.ForwardSftp(view);
      ok := true;
      if |descending| < 5 || |descending| < (GetU32(descending) + 4) % 0x1_0000_0000 {
        PutThroughFrame(was, []);
        PutThrough([]);
      } else {
        var len := GetU32(descending);
        ok := len <= Buffers.MAX_CHUNK;
        if ok {
          var data := descending[4..][..len];
          PutThroughFrame(was, data);
          PutThrough(data);
          descending := descending[4..][len..];
          if localConsumed > 0 {
            localConsumed := (localConsumed + 4) % 0x1_0000_0000;
          }
        }
        view := next;
      }
    }
  }

  lemma PutThroughFrame(rx: Rx.Receive, data: seq<Byte>)
    ensures var t := Rx.PutThrough(rx, data);
      && t.window == rx.window && t.max == rx.max && t.maxPacket == rx.maxPacket
      && t.descending == rx.descending && t.ended == rx.ended
  {
  }

  /** The sending direction. */
  class Transmitter {
    var remoteWindow: U32
    var remoteMaxpacket: U32
    var ascending: seq<Byte>
    const toChannel: R.BusyThreadReadBuffer
    ghost var view: Tx.Transmit

    ghost predicate Valid()
      reads this, toChannel
    {
      && remoteWindow == view.window && remoteMaxpacket == view.maxPacket && ascending == view.ascending
      && toChannel.view == view.r && !view.r.fatal && toChannel.Valid()
    }

    constructor (window: U32, maxPacket: U32)
      ensures Valid() && fresh(toChannel) && view == Tx.Empty(window, maxPacket)
    {
      remoteWindow, remoteMaxpacket, ascending := window, maxPacket, [];
      toChannel := new R.BusyThreadReadBuffer();
      view := Tx.Empty(window, maxPacket);
    }

    method RemoteWindowAdjust(adjust: U32)
      requires Valid()
      modifies this
      ensures Valid() && view == Tx.Grant(old(view), adjust)
    {
      hide toChannel.Valid;
      remoteWindow := (remoteWindow + adjust) % 0x1_0000_0000;
      view := Tx.Grant(view, adjust);
    }

    /** The data packet of `channel_output_poll`, [] if none is sent. */
    method Ship() returns (data: seq<Byte>)
      requires Valid()
      modifies this
      ensures Valid() && view == Tx.Ship(old(view))
      ensures data == old(view).ascending[..Tx.ShipLength(old(view))]
    {
      hide toChannel.Valid;
      var len := |ascending|;
      if len > remoteWindow {
        len := remoteWindow;
      }
      if len > remoteMaxpacket {
        len := remoteMaxpacket;
      }
      data := ascending[..len];
      if len > 0 {
        ascending := ascending[len..];
        remoteWindow := remoteWindow - len;
      }
      view := Tx.Ship(view);
    }

    /** One step of `subproc2ascending`; `ok` is false when the process ends. */
    method Subproc2ascending(sftp: bool) returns (ok: bool)
      requires Valid()
      modifies this, toChannel
      ensures view == Tx.Fetch(old(view), sftp) && ok == !view.r.fatal && (ok ==> Valid())
    {
      hide R.GetStep;
      ghost var next := Tx.Fetch(view, sftp);
      GetStepGives(view.r);
      if toChannel.place.Take? {
        ok, ascending := toChannel.TakeOne(ascending, sftp);
      } else {
        ok := true;
        toChannel.Advance();
      }
      view := next;
    }

    /** The first half of `hasAscendingData`. */
    method HasData() returns (has: bool)
      requires Valid()
      ensures has <==> view.ascending != [] || view.r.nRead + view.r.nWrite > 0
    {
      has := |ascending| != 0 || toChannel.nReadBufMsgs + toChannel.nWriteBufMsgs > 0;
    }
  }

  lemma GetStepGives(s: R.State)
    requires !s.fatal
    ensures var t := R.GetStep(s);
      && (!s.place.Take? ==> t.got == s.got && !t.fatal)
      && (s.place.Take? && !t.fatal ==> s.read != [] && t.got == s.got + [s.read[0]])
  {
  }

  /** The flags and the two half states of a channel. */
  datatype Flags = Flags(isOpened: bool, eofRcvd: bool, eofSent: bool, closeRcvd: bool, closeSent: bool,
                         doClose: bool, subsystem: bool, input: Half, output: Half)

  function FlagsOf(c: Channel): (f: Flags) {
    Flags(c.isOpened, c.eofRcvd, c.eofSent, c.closeRcvd, c.closeSent, c.doClose, c.subsystem, c.input, c.output)
  }

  /** Nothing besides flags, packets and the receiving side is touched. */
  predicate Untouched(c: Channel, t: Channel) {
    t.tx == c.tx && t.sftp == c.sftp && t.deleted == c.deleted
  }

  lemma InputCloseFlags(c: Channel)
    ensures var t := InputClose(c); var f := FlagsOf(c); var eof := f.isOpened && f.input.WaitDrain?;
      && Untouched(c, t) && t.rx == c.rx && t.sent == c.sent + (if eof then [Eof] else [])
      && FlagsOf(t) == f.(closeRcvd := true, input := Closed, eofSent := f.eofSent || eof,
           output := if !f.isOpened then Closed else if f.output.Open? then WaitDrain else f.output)
  {
  }

  lemma InputEofFlags(c: Channel)
    ensures var t := InputEof(c); var f := FlagsOf(c); var finish := f.output.Open? && c.rx.descending == [];
      && Untouched(c, t) && t.sent == c.sent && t.rx == (if finish then Rx.EndOfFile(c.rx) else c.rx)
      && FlagsOf(t) == f.(eofRcvd := true, input := if finish then WaitDrain else f.input,
           output := if finish then Closed else if f.output.Open? then WaitDrain else f.output)
  {
  }

  lemma FinishInputFlags(c: Channel)
    ensures var t := FinishInput(c); var f := FlagsOf(c);
      var finish := c.asking && (!f.subsystem || c.terminated);
      var eof := finish && !(f.eofSent || f.closeSent);
      && Untouched(c, t) && t.rx == c.rx && t.sent == c.sent + (if eof then [Eof] else [])
      && FlagsOf(t) == f.(input := if finish then Closed else f.input, eofSent := f.eofSent || eof)
  {
  }

  function Asks(c: Channel, asking: bool): (t: Channel) {
    c.(asking := asking)
  }

  lemma AsksFlags(c: Channel, asking: bool)
    ensures var t := Asks(c, asking);
      && Untouched(c, t) && t.rx == c.rx && t.sent == c.sent && FlagsOf(t) == FlagsOf(c)
    ensures FlagsOf(c).input == c.input
  {
  }

  lemma ForwardFlags(c: Channel)
    ensures var t := ForwardOn(c);
      && Untouched(c, t) && t.sent == c.sent && FlagsOf(t) == FlagsOf(c)
      && (FlagsOf(c).isOpened ==> t.rx == Rx.Forward(c.rx, c.sftp))
      && (!FlagsOf(c).isOpened ==> t.rx == c.rx)
  {
    hide Rx.Forward;
  }

  lemma FetchFlags(c: Channel)
    ensures var t := FetchOne(c);
      && t.rx == c.rx && t.sftp == c.sftp && t.deleted == c.deleted && t.sent == c.sent
      && FlagsOf(t) == FlagsOf(c)
      && (FlagsOf(c).isOpened ==> t.tx == Tx.Fetch(c.tx, c.sftp))
      && (!FlagsOf(c).isOpened ==> t.tx == c.tx)
  {
    hide Tx.Fetch;
  }

  /** The channel itself: the two halves of the close machine. */
  class SessionChannel {
    var flags: Flags
    var packets: seq<Event> // handed to the connection
    const sftp: bool        // an SFTPChannel
    const rx: Receiver
    const tx: Transmitter
    ghost var view: Channel

    ghost predicate Own()
      reads this
    {
      flags == FlagsOf(view) && packets == view.sent && sftp == view.sftp && !view.deleted
    }

    ghost predicate Parts()
      reads this, rx, tx, rx.fromChannel, tx.toChannel
    {
      rx.Valid() && rx.view == view.rx && tx.Valid() && tx.view == view.tx
    }

    ghost predicate Valid()
      reads this, rx, tx, rx.fromChannel, tx.toChannel
    {
      Own() && Parts()
    }

    constructor (sftp: bool, window: U32, maxPacket: U32)
      ensures Valid() && fresh(rx) && fresh(tx) && fresh(rx.fromChannel) && fresh(tx.toChannel)
      ensures view == Fresh(sftp, window, maxPacket)
    {
      this.sftp := sftp;
      flags := Flags(false, false, false, false, false, false, false, Open, Open);
      packets := [];
      rx := new Receiver(PACKET_SIZE);
      tx := new Transmitter(window, maxPacket);
      view := Fresh(sftp, window, maxPacket);
    }

    /** `Channel::open`, with the subsystem just started. */
    method OpenWith()
      requires Valid() && !flags.isOpened
      modifies this, rx
      ensures Valid() && view == OpenUp(old(view))
    {
      hide rx.Valid, tx.Valid, Rx.Opened;
      ghost var next := OpenUp(view);
      flags := flags.(subsystem := true, isOpened := true);
      rx.SetWindow(WINDOW_SIZE);
      packets := packets + [Adjust(WINDOW_SIZE)];
      view := next;
    }

    /** Data for a channel that is not open is ignored. */
    method ChannelInputData(data: PacketData)
      requires Valid()
      modifies this, rx
      ensures Valid() && view == InputData(old(view), data)
    {
      hide tx.Valid, Rx.TakeData;
      ghost var next := InputData(view, data);
      if flags.isOpened {
        rx.TakeData(data, flags.output == Open);
      } else {
        rx.view := Rx.Ignored(rx.view, |data|);
      }
      view := next;
    }

    method RcvdIeof()
      requires Valid()
      modifies this, rx, rx.fromChannel
      ensures Valid() && view == InputEof(old(view))
    {
      hide rx.Valid, tx.Valid, Rx.EndOfFile, InputEof, FlagsOf;
      rx.Live();
      ghost var next := InputEof(view);
      InputEofFlags(view);
      var f := flags.(eofRcvd := true);
      if f.output == Open {
        f := f.(output := WaitDrain);
        if |rx.descending| == 0 {
          rx.PutEof();
          f := f.(output := Closed, input := WaitDrain);
        }
      }
      flags, view := f, next;
    }

    method ChannelInputOclose()
      requires Valid()
      modifies this
      ensures Valid() && view == InputClose(old(view))
    {
      hide rx.Valid, tx.Valid, InputClose, FlagsOf;
      ghost var next := InputClose(view);
      InputCloseFlags(view);
      var f := flags.(closeRcvd := true);
      if !f.isOpened {
        f := f.(output := Closed, input := Closed);
      } else {
        if f.output == Open {
          f := f.(output := WaitDrain);
        }
        if f.input == WaitDrain {
          packets := packets + [Eof];
          f := f.(eofSent := true);
        }
        f := f.(input := Closed);
      }
      flags, view := f, next;
    }

    method RemoteWindowAdjust(adjust: U32)
      requires Valid()
      modifies this, tx
      ensures Valid() && view == InputAdjust(old(view), adjust)
    {
      hide rx.Valid, tx.Valid, Tx.Grant;
      ghost var next := InputAdjust(view, adjust);
      tx.RemoteWindowAdjust(adjust);
      view := next;
    }

    /** The data packet of `channel_output_poll`. */
    method SendData()
      requires Valid()
      modifies this, tx
      ensures Valid() && view == ShipData(old(view))
    {
      hide rx.Valid, tx.Valid, Tx.Ship, Tx.ShipLength;
      ghost var next := ShipData(view);
      ShipFrame(view.tx);
      if flags.input != Closed {
        var data := tx.Ship();
        if |data| > 0 {
          packets := packets + [Data(data)];
        }
      }
      view := next;
    }

    /** `channel_output_poll` through the first test of `hasAscendingData`; `asking` tells
        that the second one is still to be made. */
    method ChannelOutputPoll() returns (asking: bool)
      requires Valid() && !view.asking
      modifies this, tx
      ensures Valid() && view == OutputPoll(old(view)) && asking == view.asking
    {
      hide rx.Valid, tx.Valid, ShipData, FlagsOf, HasMessages, Own, Parts;
      asking := false;
      if Opened() {
        SendData();
        asking := FirstTest();
      }
    }

    predicate Opened()
      requires Valid()
      reads this, rx, tx, rx.fromChannel, tx.toChannel
      ensures Opened() == view.isOpened
    {
      flags.isOpened
    }

    /** The first test of `hasAscendingData`, for a draining input half. */
    method FirstTest() returns (asking: bool)
      requires Valid()
      modifies this`view
      ensures Valid() && asking == (old(view).input.WaitDrain? && !HasMessages(old(view)))
      ensures view == Asks(old(view), asking)
    {
      hide rx.Valid, tx.Valid, FlagsOf, Asks;
      var has := tx.HasData();
      AsksFlags(view, flags.input == WaitDrain && !has);
      asking := flags.input == WaitDrain && !has;
      view := Asks(view, asking);
    }

    /** The second test, `terminated` being the state of the subsystem's thread, and the
        end of the input half. */
    method FinishPoll(asking: bool, terminated: bool)
      requires Valid() && asking == view.asking && terminated == view.terminated
      modifies this
      ensures Valid() && view == FinishInput(old(view))
    {
      hide rx.Valid, tx.Valid, FinishInput, FlagsOf;
      ghost var next := FinishInput(view);
      FinishInputFlags(view);
      if asking && !(flags.subsystem && !terminated) {
        if !(flags.eofSent || flags.closeSent) {
          packets := packets + [Eof];
          flags := flags.(eofSent := true);
        }
        flags := flags.(input := Closed);
      }
      view := next;
    }

    method ChannelCheckWindow()
      requires Valid()
      modifies this, rx
      ensures Valid() && view == CheckWindow(old(view))
    {
      hide rx.Valid, tx.Valid, Rx.Adjusted;
      ghost var next := CheckWindow(view);
      if flags.isOpened && !(flags.closeSent || flags.closeRcvd) {
        var sent := rx.CheckWindow();
        if sent > 0 {
          packets := packets + [Adjust(sent)];
        }
      }
      view := next;
    }

    method SendClose()
      requires Valid() && flags.input == Closed && flags.output == Closed && !flags.closeSent
      modifies this
      ensures Valid() && view == Channels.SendClose(old(view), true)
    {
      hide rx.Valid, tx.Valid;
      ghost var next := Channels.SendClose(view, true);
      packets, flags := packets + [Close], flags.(closeSent := true);
      view := next;
    }

    method ChanIsDead(doSend: bool) returns (dead: bool)
      requires Valid()
      modifies this
      ensures Valid() && view == Channels.SendClose(old(view), doSend)
      ensures dead == Channels.ChanIsDead(old(view), doSend)
    {
      hide rx.Valid, tx.Valid;
      if flags.input != Closed || flags.output != Closed {
        return false;
      }
      if !flags.closeSent {
        if doSend {
          SendClose();
        } else if flags.closeRcvd {
          return true;
        }
      }
      return flags.closeSent && flags.closeRcvd;
    }

    /** `garbage_collect`; `deleted` when the channel leaves the repository. */
    method GarbageCollect() returns (deleted: bool)
      requires Valid()
      modifies this, rx, rx.fromChannel
      ensures view == Channels.GarbageCollect(old(view)) && deleted == view.deleted
      ensures !deleted ==> Valid()
    {
      hide tx.Valid, rx.Valid, Rx.EndOfFile;
      deleted := false;
      var dead := ChanIsDead(flags.doClose);
      if dead {
        ghost var closed := CloseSession(view);
        if flags.subsystem {
          rx.PutEof();
          flags := flags.(subsystem := false);
        }
        view := closed;
        deleted := ChanIsDead(true);
        view := view.(deleted := deleted);
      }
    }

    /** One channel's turn in `fill_event_array`. */
    method FillEvents() returns (deleted: bool)
      requires Valid()
      modifies this, rx, rx.fromChannel
      ensures view == Channels.FillEvents(old(view)) && deleted == view.deleted
      ensures !deleted ==> Valid()
    {
      hide tx.Valid, Rx.EndOfFile, Channels.GarbageCollect;
      ghost var next := FinishOutput(view);
      if flags.output == WaitDrain && |rx.descending| == 0 {
        rx.PutEof();
        flags := flags.(output := Closed, input := WaitDrain);
      }
      view := next;
      deleted := GarbageCollect();
    }

    method SubprocTerminatedNotify(terminated: bool)
      requires Valid() && terminated == view.terminated
      modifies this
      ensures Valid() && view == Notify(old(view))
    {
      hide rx.Valid, tx.Valid;
      ghost var next := Notify(view);
      if flags.subsystem && terminated {
        packets := packets + [ExitStatus];
        flags := flags.(doClose := true, output := Closed, input := WaitDrain);
      }
      view := next;
    }

    /** `descending2subproc` as `channel_post` calls it. */
    method Descend() returns (ok: bool)
      requires Valid()
      modifies this, rx, rx.fromChannel
      ensures view == ForwardOn(old(view)) && ok == !view.rx.ended && (ok ==> Valid())
    {
      hide tx.Valid, rx.Valid, Rx.ForwardRaw, Rx.ForwardSftp, ForwardOn, FlagsOf;
      ghost var next := ForwardOn(view);
      ForwardFlags(view);
      rx.Live();
      ok := true;
      if flags.isOpened {
        if sftp {
          ok := rx.Descending2sftp();
        } else {
          ok := rx.Descending2subproc();
        }
      }
      view := next;
    }

    /** One step of `subproc2ascending`. */
    method Ascend() returns (ok: bool)
      requires Valid()
      modifies this, tx, tx.toChannel
      ensures view == FetchOne(old(view)) && ok == !view.tx.r.fatal && (ok ==> Valid())
    {
      hide rx.Valid, Tx.Fetch, FetchOne, FlagsOf;
      ghost var next := FetchOne(view);
      FetchFlags(view);
      ok := true;
      if flags.isOpened {
        ok := tx.Subproc2ascending(sftp);
      }
      view := next;
    }
  }
}
