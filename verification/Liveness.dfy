/** What a channel must do, beside what it may not: data goes out while there is window
    for it, and a channel that is done closes (sections 5.2 and 5.3 of RFC 4254). */
module Liveness {
  import opened Bytes
  import opened Channels
  import opened DoubleBuffer
  import opened Wire
  import Buffers
  import CloseSafety
  import R = ReadDoubleBuffer
  import W = WriteDoubleBuffer
  import Rx = ReceiveWindow
  import Tx = SendWindow

  // ------------------------------------------------------------- sending data

  lemma ShipDoes(tx: Tx.Transmit)
    ensures var t, n := Tx.Ship(tx), Tx.ShipLength(tx);
      && (tx.ascending != [] && tx.window > 0 && tx.maxPacket > 0 <==> n > 0)
      && n == |tx.ascending| - |t.ascending| && n <= tx.maxPacket
      && t.ascending == tx.ascending[n..] && t.window == tx.window - n
      && (n > 0 ==> t.ascending == [] || t.window == 0 || n == tx.maxPacket)
      && (n == 0 ==> t == tx)
  {
    assert tx.ascending[0..] == tx.ascending;
  }

  /** A poll of an open channel whose input half is not closed sends one data packet
      exactly when there are bytes, window and a packet size for it: the first bytes
      waiting, and so many that nothing waits, no window is left or the packet is full. */
  lemma PollShips(c: Channel)
    requires !Blocked(c, Poll) && c.isOpened && !c.input.Closed?
    ensures var t := Step(c, Poll);
      var some := c.tx.ascending != [] && c.tx.window > 0 && c.tx.maxPacket > 0;
      var n := |c.tx.ascending| - |t.tx.ascending|;
      && (some ==>
           && 0 < n <= c.tx.maxPacket && t.sent == c.sent + [Data(c.tx.ascending[..n])]
           && t.tx.ascending == c.tx.ascending[n..] && t.tx.window == c.tx.window - n
           && (t.tx.ascending == [] || t.tx.window == 0 || n == c.tx.maxPacket))
      && (!some ==> t.sent == c.sent && t.tx.ascending == c.tx.ascending && t.tx.window == c.tx.window)
  {
    hide HasMessages, Tx.Ship, Tx.ShipLength;
    ShipDoes(c.tx);
    ShipFrame(c.tx);
  }

  /** What a poll and the test behind it leave alone. */
  lemma PollFrame(c: Channel)
    requires !Blocked(c, Poll) && c.isOpened
    ensures var t := Step(Step(c, Poll), Ask);
      && !Over(t) && !t.asking && t.isOpened && t.tx.maxPacket == c.tx.maxPacket
      && t.tx == Step(c, Poll).tx && t.sent <= Step(c, Poll).sent + [Eof]
      && (!c.input.Closed? && t.tx.ascending != [] ==> !t.input.Closed?)
  {
    hide R.GetStep, W.WorkStep;
  }

  lemma PollShipsNone(c: Channel)
    requires !Blocked(c, Poll) && c.isOpened && (c.input.Closed? || c.tx.ascending == [])
    ensures Step(c, Poll).tx == c.tx && Step(c, Poll).sent == c.sent
  {
    hide HasMessages, Tx.Ship, Tx.ShipLength;
    ShipDoes(c.tx);
  }

  function Polls(k: nat): (moves: seq<Move>) {
    if k == 0 then [] else [Poll, Ask] + Polls(k - 1)
  }

  lemma PollsFirst(c: Channel, k: nat)
    requires k > 0
    ensures Run(c, Polls(k)) == Run(Step(Step(c, Poll), Ask), Polls(k - 1))
  {
    hide Step;
    var moves := Polls(k);
    assert moves == [Poll, Ask] + Polls(k - 1);
    assert moves[1..][1..] == Polls(k - 1);
    assert Run(c, moves) == Run(Step(c, Poll), moves[1..]);
  }

  /** The bytes of the data packets among what was sent. */
  function DataSent(c: Channel): (w: seq<Byte>) {
    Tx.Flat(DataPackets(c.sent))
  }

  lemma EofIsNoData(sent: seq<Event>, t: seq<Event>)
    requires sent <= t <= sent + [Eof]
    ensures DataPackets(t) == DataPackets(sent)
  {
    SentSnoc(sent, Eof);
    assert t == sent || t == sent + [Eof];
  }

  /** From `c` to `t` the first `n` bytes waiting went out. */
  predicate Shipped(c: Channel, t: Channel, n: nat) {
    && n <= |c.tx.ascending| && n <= c.tx.window
    && DataSent(t) == DataSent(c) + c.tx.ascending[..n]
    && t.tx.ascending == c.tx.ascending[n..] && t.tx.window == c.tx.window - n
  }

  lemma ShippedTwice(c: Channel, t: Channel, u: Channel, n: nat, m: nat)
    requires Shipped(c, t, n) && Shipped(t, u, m)
    ensures Shipped(c, u, n + m)
  {
    hide DataSent;
    var a := c.tx.ascending;
    assert a[..n + m] == a[..n] + a[n..][..m];
  }

  lemma NothingShipped(c: Channel, t: Channel)
    requires t.tx == c.tx && DataSent(t) == DataSent(c)
    ensures Shipped(c, t, 0)
  {
    hide DataSent;
    assert DataSent(c) + [] == DataSent(c);
  }

  lemma PollSends(c: Channel)
    requires !Blocked(c, Poll) && c.isOpened && !c.input.Closed?
    ensures Shipped(c, Step(Step(c, Poll), Ask), Tx.Least(|c.tx.ascending|, c.tx.window, c.tx.maxPacket))
  {
    hide Step, Blocked, Tx.Flat, DataPackets, Over;
    var s, t := Step(c, Poll), Step(Step(c, Poll), Ask);
    var n := |c.tx.ascending| - |s.tx.ascending|;
    PollShips(c);
    PollFrame(c);
    AskSends(s);
    EofIsNoData(s.sent, t.sent);
    assert DataSent(c) + [] == DataSent(c);
    if c.tx.ascending != [] && c.tx.window > 0 && c.tx.maxPacket > 0 {
      SentSnoc(c.sent, Data(c.tx.ascending[..n]));
      Tx.FlatSnoc(DataPackets(c.sent), c.tx.ascending[..n]);
    }
  }

  lemma AskSends(c: Channel)
    ensures c.sent <= Step(c, Ask).sent
  {
  }

  lemma {:induction false} PollsIdle(c: Channel, k: nat)
    requires !Over(c) && !c.asking && c.isOpened && (c.input.Closed? || c.tx.ascending == [])
    ensures var t := Run(c, Polls(k)); t.tx == c.tx && DataSent(t) == DataSent(c)
    decreases k
  {
    hide Step, Over, Tx.Flat, DataPackets;
    if k > 0 {
      var s, t := Step(c, Poll), Step(Step(c, Poll), Ask);
      PollsFirst(c, k);
      PollFrame(c);
      PollShipsNone(c);
      AskSends(s);
      EofIsNoData(s.sent, t.sent);
      if c.input.Closed? { StillClosed(c); }
      PollsIdle(t, k - 1);
    }
  }

  lemma StillClosed(c: Channel)
    requires c.input.Closed? && !Blocked(c, Poll)
    ensures Step(Step(c, Poll), Ask).input.Closed?
  {
    hide HasMessages, Tx.Ship, Tx.ShipLength, Over;
    assert Step(c, Poll).input.Closed?;
  }

  lemma LeastOnce(a: nat, w: nat, m: nat, k: nat)
    requires k > 0
    ensures var n := Tx.Least(a, w, m);
      n < a ==> Tx.Least(a, w, k * m) == n + Tx.Least(a - n, w - n, (k - 1) * m)
    ensures Tx.Least(a, w, m) == a ==> Tx.Least(a, w, k * m) == a
  {
    assert k * m == (k - 1) * m + m;
    assert (k - 1) * m >= 0;
  }

  lemma {:induction false} PollsShip(c: Channel, k: nat)
    requires !Blocked(c, Poll) && c.isOpened && !c.input.Closed?
    ensures Shipped(c, Run(c, Polls(k)), Tx.Least(|c.tx.ascending|, c.tx.window, k * c.tx.maxPacket))
    decreases k
  {
    hide Step, Over, DataSent, Shipped, Tx.Least, Polls;
    if k == 0 {
      assert Polls(k) == [] by { PollsNone(); }
      NothingShipped(c, c);
    } else {
      var t, u := Step(Step(c, Poll), Ask), Run(c, Polls(k));
      var a, n := |c.tx.ascending|, Tx.Least(|c.tx.ascending|, c.tx.window, c.tx.maxPacket);
      PollsFirst(c, k);
      PollFrame(c);
      PollSends(c);
      LeastOnce(a, c.tx.window, c.tx.maxPacket, k);
      ShippedLeaves(c, t, n);
      if n == a {
        PollsIdle(t, k - 1);
        NothingShipped(t, u);
        ShippedTwice(c, t, u, n, 0);
      } else {
        PollsShip(t, k - 1);
        ShippedTwice(c, t, u, n, Tx.Least(a - n, c.tx.window - n, (k - 1) * c.tx.maxPacket));
      }
    }
  }

  lemma PollsNone()
    ensures Polls(0) == []
  {
  }

  lemma ShippedLeaves(c: Channel, t: Channel, n: nat)
    requires Shipped(c, t, n)
    ensures |t.tx.ascending| == |c.tx.ascending| - n && t.tx.window == c.tx.window - n
  {
    hide DataSent;
  }

  /** Any number of polls in a row send what fits: of the bytes waiting, as many as the
      window and that number of packets hold. */
  lemma PollsSend(c: Channel, k: nat)
    requires !Blocked(c, Poll) && c.isOpened && !c.input.Closed?
    ensures var t := Run(c, Polls(k));
      var n := Tx.Least(|c.tx.ascending|, c.tx.window, k * c.tx.maxPacket);
      && DataSent(t) == DataSent(c) + c.tx.ascending[..n]
      && t.tx.ascending == c.tx.ascending[n..] && t.tx.window == c.tx.window - n
  {
    hide Run, Polls, Over, DataSent, Tx.Least;
    PollsShip(c, k);
  }

  /** With window for all that waits, and a packet size, enough polls send all of it. */
  lemma PollsSendAll(c: Channel, k: nat)
    requires !Blocked(c, Poll) && c.isOpened && !c.input.Closed?
    requires c.tx.maxPacket > 0 && c.tx.window >= |c.tx.ascending| && k >= |c.tx.ascending|
    ensures var t := Run(c, Polls(k)); t.tx.ascending == [] && DataSent(t) == DataSent(c) + c.tx.ascending
  {
    hide Run, Polls, Over, DataSent;
    PollsSend(c, k);
    assert k * c.tx.maxPacket >= k;
  }

  // ------------------------------------------------- fetching from the subsystem

  function Fetches(n: nat): (moves: seq<Move>) {
    if n == 0 then [] else [FetchStep] + Fetches(n - 1)
  }

  lemma FetchFirst(c: Channel, n: nat)
    requires n > 0
    ensures Run(c, Fetches(n)) == Run(Step(c, FetchStep), Fetches(n - 1))
  {
    hide Step;
    assert Fetches(n)[1..] == Fetches(n - 1);
  }

  lemma FetchIsGet(c: Channel)
    requires !c.deleted && !c.rx.ended && !c.rx.w.fatal && !c.asking && c.isOpened
    ensures var t := Step(c, FetchStep);
      && t.tx.r == R.GetStep(c.tx.r)
      && !t.deleted && !t.rx.ended && !t.rx.w.fatal && !t.asking && t.isOpened
  {
    hide R.GetStep, Tx.Fetch, Step;
    if c.tx.r.fatal {
      GetEnded(c.tx.r);
      OverStays(c, FetchStep);
    } else {
      FetchReader(c.tx, c.sftp);
      StepIsFetch(c);
    }
  }

  lemma StepIsFetch(c: Channel)
    requires !Blocked(c, FetchStep)
    ensures Step(c, FetchStep) == FetchOne(c)
  {
    hide FetchOne, Blocked;
  }

  lemma FetchReader(tx: Tx.Transmit, sftp: bool)
    ensures Tx.Fetch(tx, sftp).r == R.GetStep(tx.r)
  {
    hide R.GetStep, Tx.Written;
  }

  lemma GetEnded(s: R.State)
    ensures s.fatal ==> R.GetStep(s) == s
  {
  }

  /** Steps of `get` in a channel are steps of `get` in its double buffer. */
  lemma {:induction false} FetchesGet(c: Channel, n: nat)
    requires !c.deleted && !c.rx.ended && !c.rx.w.fatal && !c.asking && c.isOpened
    ensures Run(c, Fetches(n)).tx.r == R.Run(c.tx.r, R.Gets(n))
    decreases n
  {
    hide Step, R.GetStep;
    if n > 0 {
      FetchFirst(c, n);
      FetchIsGet(c);
      R.RunCons(c.tx.r, R.Get, R.Gets(n - 1));
      FetchesGet(Step(c, FetchStep), n - 1);
    }
  }

  /** In every run: if a message of the subsystem waits in an open channel, five steps of
      `get` take one over, unless the process ends on a message over 256K. */
  lemma MessagesAreFetched(sftp: bool, window: U32, maxPacket: U32, moves: seq<Move>)
    requires var c := Run(Fresh(sftp, window, maxPacket), moves);
      && !Blocked(c, FetchStep) && c.isOpened && c.tx.r.read + c.tx.r.write != []
    ensures var c := Run(Fresh(sftp, window, maxPacket), moves); var t := Run(c, Fetches(5));
      t.tx.r.fatal || |t.tx.r.got| > |c.tx.r.got|
  {
    hide Step, Fresh, CloseSafety.HalvesOrdered, CloseSafety.ClosedQuietly, CloseSafety.Terminal,
         CloseSafety.Recorded, R.Valid, R.Rank, R.Gets, Fetches;
    var c := Run(Fresh(sftp, window, maxPacket), moves);
    CloseSafety.FreshSafe(sftp, window, maxPacket);
    CloseSafety.RunSafe(Fresh(sftp, window, maxPacket), moves);
    FetchesGet(c, 5);
    R.RankBound(c.tx.r);
    R.GetsTake(c.tx.r, 5);
  }

  // -------------------------------------------------------------------- closing

  /** In every run, a garbage collection of a channel not in the middle of a poll: a CLOSE
      goes out exactly when both halves are closed, none went out before, and either this
      side is done or the peer has closed; and the channel is deleted exactly when both
      halves are closed and the peer has closed. */
  lemma CollectCloses(sftp: bool, window: U32, maxPacket: U32, moves: seq<Move>)
    ensures var c := Run(Fresh(sftp, window, maxPacket), moves);
      var t, both := Step(c, Collect), c.input.Closed? && c.output.Closed?;
      !Blocked(c, Collect) ==>
        && t.sent == c.sent + (if both && (c.doClose || c.closeRcvd) && Close !in c.sent then [Close] else [])
        && (both && (c.doClose || c.closeRcvd) ==> Close in t.sent)
        && (t.deleted <==> both && c.closeRcvd)
  {
    hide Step, Fresh, R.Valid, CloseSafety.HalvesOrdered, CloseSafety.ClosedQuietly, CloseSafety.Terminal,
         CloseSafety.Tidy, Blocked, GarbageCollect;
    CloseSafety.FreshSafe(sftp, window, maxPacket);
    CloseSafety.RunSafe(Fresh(sftp, window, maxPacket), moves);
    var c := Run(Fresh(sftp, window, maxPacket), moves);
    if !Blocked(c, Collect) {
      StepIsCollect(c);
      AliveThen(c);
      CollectDoes(c);
    }
  }

  lemma AliveThen(c: Channel)
    requires !Blocked(c, Collect)
    ensures !c.deleted && !Over(c)
  {
  }

  lemma StepIsCollect(c: Channel)
    requires !Blocked(c, Collect)
    ensures Step(c, Collect) == GarbageCollect(c)
  {
    hide Blocked, GarbageCollect;
  }

  lemma DeadExactly(c: Channel, doSend: bool)
    ensures ChanIsDead(c, doSend) <==> c.input.Closed? && c.output.Closed? && c.closeRcvd
  {
  }

  lemma CloseSessionFrame(c: Channel)
    ensures var t := CloseSession(c);
      && t.input == c.input && t.output == c.output && t.closeRcvd == c.closeRcvd && t.closeSent == c.closeSent
      && t.sent == c.sent
  {
    hide Rx.EndOfFile;
  }

  lemma SendCloseDoes(c: Channel, doSend: bool)
    ensures var t, both := SendClose(c, doSend), c.input.Closed? && c.output.Closed?;
      && t.input == c.input && t.output == c.output && t.closeRcvd == c.closeRcvd && t.deleted == c.deleted
      && t.closeSent == (c.closeSent || (both && doSend))
      && t.sent == c.sent + (if both && doSend && !c.closeSent then [Close] else [])
  {
    assert c.sent + [] == c.sent;
  }

  lemma CollectDoes(c: Channel)
    requires !c.deleted
    ensures var t, both := GarbageCollect(c), c.input.Closed? && c.output.Closed?;
      && t.sent == c.sent + (if both && (c.doClose || c.closeRcvd) && !c.closeSent then [Close] else [])
      && (t.deleted <==> both && c.closeRcvd)
  {
    hide ChanIsDead, CloseSession, SendClose;
    var d := SendClose(c, c.doClose);
    var e := CloseSession(d);
    SendCloseDoes(c, c.doClose);
    CloseSessionFrame(d);
    SendCloseDoes(e, true);
    DeadExactly(c, c.doClose);
    DeadExactly(e, true);
    assert c.sent + [] == c.sent;
  }

  /** What `CollectDoes` leaves alone, for a channel it does not delete. */
  lemma CollectFrame(c: Channel)
    requires !c.deleted && !GarbageCollect(c).deleted
    ensures GarbageCollect(c) == SendClose(c, c.doClose)
  {
    hide CloseSession, SendClose, ChanIsDead;
    var e := CloseSession(SendClose(c, c.doClose));
    SendCloseDoes(c, c.doClose);
    CloseSessionFrame(SendClose(c, c.doClose));
    DeadExactly(c, c.doClose);
    DeadExactly(e, true);
  }

  /** An open channel between two polls, with nothing left to send. */
  predicate Done(c: Channel) {
    && !Over(c) && !c.asking && c.isOpened && R.Valid(c.tx.r) && CloseSafety.Quiet(c)
  }

  lemma NotifyDone(c: Channel)
    requires Done(c) && c.subsystem && c.terminated
    ensures var t := Step(c, Terminated);
      Done(t) && t.input.WaitDrain? && t.output.Closed? && t.doClose && t.closeRcvd == c.closeRcvd
  {
    hide R.Valid;
  }

  lemma PollDone(c: Channel)
    requires Done(c) && c.input.WaitDrain?
    ensures var t := Step(Step(c, Poll), Ask);
      && Done(t) && t.input.Closed? && t.output == c.output && t.doClose == c.doClose && t.closeRcvd == c.closeRcvd
  {
    hide Tx.Ship, Tx.ShipLength;
    ShipDoes(c.tx);
  }

  lemma RunFour(c: Channel, m: seq<Move>)
    requires |m| == 4
    ensures Run(c, m) == Step(Step(Step(Step(c, m[0]), m[1]), m[2]), m[3])
  {
    hide Step;
    RunThree(Step(c, m[0]), m[1], m[2], m[3]);
    assert m[1..] == [m[1], m[2], m[3]];
  }

  /** The last step: this side has its halves closed and wants, or has, the CLOSE. */
  lemma CollectLast(c: Channel)
    requires !Blocked(c, Collect) && CloseSafety.Recorded(c)
    requires c.input.Closed? && c.output.Closed? && (c.doClose || c.closeRcvd)
    ensures var t := Step(c, Collect);
      && Close in t.sent
      && (c.closeRcvd ==> t.deleted)
      && (!c.closeRcvd ==> !Over(t) && !t.asking && t.isOpened == c.isOpened && t.input.Closed? && t.output.Closed?)
  {
    hide GarbageCollect, CloseSafety.Tidy;
    StepIsCollect(c);
    CollectDoes(c);
    if !c.closeRcvd {
      CollectFrame(c);
    }
  }

  lemma PeerCloseLast(c: Channel)
    requires !Over(c) && !c.asking && c.isOpened && c.input.Closed? && c.output.Closed?
    ensures Step(Step(c, PeerClose), Collect).deleted
  {
    hide GarbageCollect;
    var t := Step(c, PeerClose);
    StepIsCollect(t);
    CollectDoes(t);
  }

  /** In every run: once the subsystem of an open channel is over and nothing of it is
      left to send, its notice, a poll and a collection send the CLOSE; and the CLOSE of
      the peer then deletes the channel. */
  lemma SubsystemEndCloses(sftp: bool, window: U32, maxPacket: U32, moves: seq<Move>)
    requires var c := Run(Fresh(sftp, window, maxPacket), moves);
      !Over(c) && !c.asking && c.isOpened && c.subsystem && c.terminated && CloseSafety.Quiet(c)
    ensures var c := Run(Fresh(sftp, window, maxPacket), moves);
      var t := Run(c, [Terminated, Poll, Ask, Collect]);
      Close in t.sent && Run(t, [PeerClose, Collect]).deleted
  {
    hide Step, Run, Fresh, Over, CloseSafety.Quiet, R.Valid, CloseSafety.HalvesOrdered, CloseSafety.ClosedQuietly,
         CloseSafety.Terminal, CloseSafety.Recorded;
    var c := Run(Fresh(sftp, window, maxPacket), moves);
    CloseSafety.FreshSafe(sftp, window, maxPacket);
    CloseSafety.RunSafe(Fresh(sftp, window, maxPacket), moves);
    var d := Step(c, Terminated);
    var e := Step(Step(d, Poll), Ask);
    var t := Step(e, Collect);
    RunFour(c, [Terminated, Poll, Ask, Collect]);
    CloseSafety.StepSafe(c, Terminated);
    CloseSafety.StepSafe(d, Poll);
    CloseSafety.StepSafe(Step(d, Poll), Ask);
    NotifyDone(c);
    PollDone(d);
    CollectLast(e);
    CloseSafety.RunTwo(t, PeerClose, Collect);
    if c.closeRcvd {
      OverStays(t, PeerClose);
      OverStays(t, Collect);
    } else {
      PeerCloseLast(t);
    }
  }

  // ------------------------------------------------------ when the peer closes first

  /** A channel the peer has closed does not take its input half back to open. */
  predicate ShutByPeer(c: Channel) {
    c.closeRcvd ==> !c.input.Open?
  }

  lemma ActShut(c: Channel, a: Move)
    requires ShutByPeer(c)
    ensures ShutByPeer(Act(c, a))
  {
    hide GarbageCollect, Rx.Opened, Rx.TakeData, Rx.EndOfFile, Rx.Forward, Rx.Adjusted, Rx.WantsAdjust, Rx.Worker,
         Tx.Ship, Tx.Fetch, Tx.Grant, Tx.WorkerPut, HasMessages, Tx.ShipLength;
    match a
    case Collect => CollectKeepsShut(c);
    case Fill => CollectKeepsShut(FinishOutput(c));
    case _ =>
  }

  lemma CollectKeepsShut(c: Channel)
    ensures GarbageCollect(c).input == c.input && GarbageCollect(c).closeRcvd == c.closeRcvd
  {
    hide SendClose, CloseSession, ChanIsDead;
    var d := SendClose(c, c.doClose);
    SendCloseDoes(c, c.doClose);
    CloseSessionFrame(d);
    SendCloseDoes(CloseSession(d), true);
  }

  lemma {:induction false} RunShut(c: Channel, moves: seq<Move>)
    requires ShutByPeer(c)
    ensures ShutByPeer(Run(c, moves))
    decreases |moves|
  {
    hide ShutByPeer, Act, Blocked;
    if moves != [] {
      ActShut(c, moves[0]);
      RunShut(Step(c, moves[0]), moves[1..]);
    }
  }

  lemma FinishOutputDone(c: Channel)
    requires Done(c) && c.rx.descending == [] && !c.output.Open?
    ensures var t := FinishOutput(c);
      Done(t) && t.output.Closed? && t.closeRcvd == c.closeRcvd && (!c.input.Open? ==> !t.input.Open?)
  {
    hide R.Valid;
  }

  lemma FillDone(c: Channel)
    requires Done(c) && c.rx.descending == [] && !c.output.Open? && c.closeRcvd && !c.input.Open?
    ensures var t := Step(c, Fill);
      t.deleted || (Done(t) && t.input.WaitDrain? && t.output.Closed? && t.closeRcvd)
  {
    hide Done, FinishOutput, GarbageCollect;
    var d := FinishOutput(c);
    FinishOutputDone(c);
    DoneStep(c, Fill);
    DoneStep(d, Collect);
    CollectDoes(d);
    if !(d.input.Closed? && d.output.Closed?) {
      CollectFrame(d);
      SendsNoClose(d);
    }
  }

  lemma DoneStep(c: Channel, a: Move)
    requires Done(c)
    ensures !c.deleted && Step(c, a) == Act(c, a)
  {
    hide Act, R.Valid;
  }

  lemma SendsNoClose(c: Channel)
    requires !(c.input.Closed? && c.output.Closed?)
    ensures SendClose(c, c.doClose) == c
  {
  }

  /** In every run: a channel the peer has closed, with nothing left to deliver or to send
      and its subsystem over, is deleted by one round of the loop and the next collection. */
  lemma PeerCloseEnds(sftp: bool, window: U32, maxPacket: U32, moves: seq<Move>)
    requires var c := Run(Fresh(sftp, window, maxPacket), moves);
      !Over(c) && !c.asking && c.isOpened && c.closeRcvd && c.rx.descending == [] && CloseSafety.Quiet(c)
    ensures Run(Run(Fresh(sftp, window, maxPacket), moves), [Fill, Poll, Ask, Collect]).deleted
  {
    hide Step, Run, Fresh, Over, CloseSafety.Quiet, R.Valid, CloseSafety.ClosedQuietly,
         CloseSafety.Terminal, CloseSafety.Recorded;
    var c := Run(Fresh(sftp, window, maxPacket), moves);
    CloseSafety.FreshSafe(sftp, window, maxPacket);
    CloseSafety.RunSafe(Fresh(sftp, window, maxPacket), moves);
    FreshShut(sftp, window, maxPacket);
    RunShut(Fresh(sftp, window, maxPacket), moves);
    RunFour(c, [Fill, Poll, Ask, Collect]);
    FillDone(c);
    var d := Step(c, Fill);
    if d.deleted {
      OverStays(d, Poll);
      OverStays(d, Ask);
      OverStays(d, Collect);
    } else {
      CloseSafety.StepSafe(c, Fill);
      CloseSafety.StepSafe(d, Poll);
      CloseSafety.StepSafe(Step(d, Poll), Ask);
      PollDone(d);
      CollectLast(Step(Step(d, Poll), Ask));
    }
  }

  lemma FreshShut(sftp: bool, window: U32, maxPacket: U32)
    ensures ShutByPeer(Fresh(sftp, window, maxPacket))
  {
  }

  // ---------------------------------------------------- delivery to the subsystem

  function Works(n: nat): (moves: seq<Move>) {
    if n == 0 then [] else [Work(false)] + Works(n - 1)
  }

  lemma WorkFirst(c: Channel, n: nat)
    requires n > 0
    ensures Run(c, Works(n)) == Run(Step(c, Work(false)), Works(n - 1))
  {
    hide Step;
    assert Works(n)[1..] == Works(n - 1);
  }

  lemma WorkIsGet(c: Channel)
    requires !c.deleted && !c.rx.ended && !c.tx.r.fatal && Running(c)
    ensures var t := Step(c, Work(false));
      && t.rx.w == W.WorkStep(c.rx.w, false)
      && !t.deleted && !t.rx.ended && !t.tx.r.fatal && Running(t)
  {
    hide W.WorkStep, Rx.Worker, Step;
    if c.rx.w.fatal {
      WorkEnded(c.rx.w);
      OverStays(c, Work(false));
    } else {
      WorkerIsGet(c.rx);
      StepIsWork(c);
    }
  }

  lemma OverStays(c: Channel, a: Move)
    requires c.deleted || c.rx.w.fatal || c.tx.r.fatal
    ensures Step(c, a) == c
  {
    hide Act;
  }

  lemma StepIsWork(c: Channel)
    requires !Over(c)
    ensures Step(c, Work(false)) == WorkOn(c, false)
  {
    hide WorkOn, Over;
  }

  lemma WorkerIsGet(rx: Rx.Receive)
    ensures Rx.Worker(rx, false).w == W.WorkStep(rx.w, false) && Rx.Worker(rx, false).ended == rx.ended
  {
    hide W.WorkStep;
  }

  lemma WorkEnded(s: W.State)
    ensures s.fatal ==> W.WorkStep(s, false) == s
  {
  }

  /** Steps of the worker's `get` in a channel are steps of `get` in its double buffer. */
  lemma {:induction false} WorksGet(c: Channel, n: nat)
    requires !c.deleted && !c.rx.ended && !c.tx.r.fatal && Running(c)
    ensures Run(c, Works(n)).rx.w == W.Run(c.rx.w, W.Works(n))
    decreases n
  {
    hide Step, W.WorkStep, Running;
    if n > 0 {
      WorkFirst(c, n);
      WorkIsGet(c);
      W.RunCons(c.rx.w, W.Work(false), W.Works(n - 1));
      WorksGet(Step(c, Work(false)), n - 1);
    }
  }

  /** In every run: if a message waits for the subsystem and its thread runs, six steps of
      the worker's `get` hand one over, unless the process ends on one over 256K. */
  lemma MessagesAreDelivered(sftp: bool, window: U32, maxPacket: U32, moves: seq<Move>)
    requires var c := Run(Fresh(sftp, window, maxPacket), moves);
      !Over(c) && Running(c) && c.rx.w.read + c.rx.w.write != []
    ensures var c := Run(Fresh(sftp, window, maxPacket), moves); var t := Run(c, Works(6));
      t.rx.w.fatal || |t.rx.w.got| > |c.rx.w.got|
  {
    hide Step, Fresh, Running, W.Invariant, W.Rank, W.Works, Works, Rx.Stream, Rx.Contents, Rx.NonEmpty;
    var c := Run(Fresh(sftp, window, maxPacket), moves);
    FreshAccounts(sftp, window, maxPacket);
    FlowsRun(Fresh(sftp, window, maxPacket), moves);
    WorksGet(c, 6);
    W.RankBound(c.rx.w);
    W.WorksTake(c.rx.w, 6);
  }

  /** Forwarding on an open raw channel empties `descending` into one message, unless that
      is more than a buffer of the subsystem takes. */
  lemma ForwardsAll(c: Channel)
    requires !Blocked(c, Forward) && c.isOpened && !c.sftp
    ensures var t, d, put := Step(c, Forward), c.rx.descending, DataOf(c.rx.w.put);
      && (t.rx.ended <==> |d| > Buffers.MAX_CHUNK)
      && (!t.rx.ended ==> t.rx.descending == [] && DataOf(t.rx.w.put) == put + if d == [] then [] else [d])
  {
    hide DataOf;
    PutRecorded(c.rx.w, c.rx.descending);
    assert DataOf(c.rx.w.put) + [] == DataOf(c.rx.w.put);
  }

  lemma PutRecorded(w: W.State, data: seq<Byte>)
    requires !w.fatal
    ensures DataOf(W.PutStep(w, data).put) == DataOf(w.put) + if data == [] then [] else [data]
  {
    hide DataOf;
    DataOfSnoc(w.put, Item(|w.put|, data));
    assert DataOf(w.put) + [] == DataOf(w.put);
  }

  /** On an open SFTP channel it cuts off the first message, if all of it is there: a
      length field, that many bytes, and at least one byte in all behind the field. */
  lemma ForwardsFirst(c: Channel, m: seq<Byte>, rest: seq<Byte>)
    requires !Blocked(c, Forward) && c.isOpened && c.sftp
    requires |m| <= Buffers.MAX_CHUNK && m + rest != [] && c.rx.descending == PutString(m) + rest
    ensures var t := Step(c, Forward);
      t.rx.descending == rest && DataOf(t.rx.w.put) == DataOf(c.rx.w.put) + if m == [] then [] else [m]
  {
    hide DataOf, GetU32, W.PutStep;
    SplitFirst(c.rx.descending, m, rest);
    PutRecorded(c.rx.w, m);
  }

  lemma SplitFirst(d: seq<Byte>, m: seq<Byte>, rest: seq<Byte>)
    requires |m| < TWO32 - 4 && m + rest != [] && d == PutString(m) + rest
    ensures |d| >= 5 && GetU32(d) == |m| && d[4..][..|m|] == m && d[4..][|m|..] == rest
    ensures |d| >= (GetU32(d) + 4) % 0x1_0000_0000
  {
    hide GetU32, PutU32;
    assert d == PutU32(|m|) + (m + rest);
    GetU32Prefix(PutU32(|m|), m + rest);
    assert d[4..] == m + rest;
  }

  lemma CollectKeepsPut(c: Channel)
    ensures GarbageCollect(c).output == c.output && c.rx.w.put <= GarbageCollect(c).rx.w.put
  {
    hide SendClose, ChanIsDead;
    var d := SendClose(c, c.doClose);
    SendCloseDoes(c, c.doClose);
    SendCloseKeepsRx(c, c.doClose);
    SendCloseDoes(CloseSession(d), true);
    SendCloseKeepsRx(CloseSession(d), true);
  }

  lemma SendCloseKeepsRx(c: Channel, doSend: bool)
    ensures SendClose(c, doSend).rx == c.rx
  {
  }

  lemma FinishOutputPuts(c: Channel)
    requires !c.rx.w.fatal && c.output.WaitDrain?
    ensures var t, put := FinishOutput(c), c.rx.w.put;
      && (t.output.Closed? <==> c.rx.descending == [])
      && (t.output.Closed? ==> t.rx.w.put == put + [Item(|put|, [])])
  {
  }

  /** The output half ends on the peer's EOF, or later in the loop, exactly when nothing is
      left to forward; the end of file is then put behind all that was forwarded. */
  lemma OutputEnds(c: Channel, a: Move)
    requires !Blocked(c, a) && (if a.PeerEof? then c.output.Open? else a.Fill? && c.output.WaitDrain?)
    ensures var t, put := Step(c, a), c.rx.w.put;
      && (t.output.Closed? <==> c.rx.descending == [])
      && (t.output.Closed? ==> put + [Item(|put|, [])] <= t.rx.w.put)
  {
    hide GarbageCollect, FinishOutput;
    if a.Fill? {
      FinishOutputPuts(c);
      CollectKeepsPut(FinishOutput(c));
    }
  }
}
