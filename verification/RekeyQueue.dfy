/** `packet_send2`: holding back ordinary packets while keys are exchanged
    (sections 7.1 and 9 of RFC 4253). */
module RekeyQueue {
  import opened Options
  import opened Bytes
  import opened Messages
  import opened Packets

  /** One call of `packet_send` with an ordinary packet: the key epoch it was
      made in and whether it was held back. */
  datatype Asked = Asked(msg: Message, epoch: nat, held: bool)

  /** The packet level plus `send2_rekeying`, the `outgoing` queue, and the
      ordinary packets asked for so far. */
  datatype Sender = Sender(out: Out, rekeying: bool, queue: seq<Message>, asked: seq<Asked>)

  function Fresh(random: nat -> U32): (s: Sender) {
    Sender(Out(START, None, [], false, random, 0, []), false, [], [])
  }

  /** The loop that empties the queue, stopped only by the end of the process. */
  function Flush(s: Sender): (t: Sender)
    decreases |s.queue|
  {
    if s.queue == [] || s.out.ended then s
    else Flush(s.(queue := s.queue[1..], out := SendWrapped(s.out, s.queue[0])))
  }

  function PacketSend(s: Sender, m: Message): (t: Sender)
  {
    if s.out.ended then s else
    var hold := s.rekeying && !IsTransport(m.kind);
    var a := if IsTransport(m.kind) then s
             else s.(asked := s.asked + [Asked(m, s.out.cursor.epoch, hold)]);
    if hold then a.(queue := a.queue + [m])
    else
      var b := a.(rekeying := a.rekeying || m.kind == MSG_KEXINIT);
      var c := b.(out := SendWrapped(b.out, m));
      if m.kind == MSG_NEWKEYS && !c.out.ended then Flush(c.(rekeying := false)) else c
  }

  /** `kex_derive_keys` fills the slot that `set_newkeys` will take from. */
  function Derive(s: Sender, k: Keys): (t: Sender) {
    s.(out := s.out.(slot := Some(k)))
  }

  datatype Action = Send(msg: Message) | DeriveKeys(keys: Keys)

  function Step(s: Sender, a: Action): (t: Sender) {
    match a
    case Send(m) => PacketSend(s, m)
    case DeriveKeys(k) => Derive(s, k)
  }

  function Run(s: Sender, actions: seq<Action>): (t: Sender)
    decreases |actions|
  {
    if actions == [] then s else Run(Step(s, actions[0]), actions[1..])
  }

  // ---------------------------------------------------------- nothing reordered

  /** The ordinary packets of a log, in order. */
  function Ordinary(log: seq<Packet>): (r: seq<Packet>) {
    if log == [] then []
    else
      var n := |log| - 1;
      Ordinary(log[..n]) + if IsTransport(log[n].msg.kind) then [] else [log[n]]
  }

  lemma OrdinarySnoc(log: seq<Packet>, p: Packet)
    ensures Ordinary(log + [p])
         == Ordinary(log) + if IsTransport(p.msg.kind) then [] else [p]
  {
    assert (log + [p])[..|log|] == log;
  }

  /** A packet left as asked, under the keys of its call, or the next ones if held. */
  predicate Honoured(p: Packet, a: Asked) {
    p.msg == a.msg && p.epoch == a.epoch + if a.held then 1 else 0
  }

  /** The sent packets answer the first calls; the queue holds the rest, asked for
      in epoch `e`. */
  predicate Kept(sent: seq<Packet>, queue: seq<Message>, asked: seq<Asked>, e: nat) {
    && |sent| + |queue| == |asked|
    && (forall i :: 0 <= i < |sent| ==> Honoured(sent[i], asked[i]))
    && (forall i :: |sent| <= i < |asked| ==> asked[i] == Asked(queue[i - |sent|], e, true))
    && (forall j :: 0 <= j < |queue| ==> !IsTransport(queue[j].kind))
  }

  // ------------------------------------------------------- silence during rekey

  /** The last key-exchange mark in the log is a KEXINIT. */
  predicate Exchanging(log: seq<Packet>) {
    log != [] &&
    var n := |log| - 1;
    (log[n].msg.kind == MSG_KEXINIT
     || (log[n].msg.kind != MSG_NEWKEYS && Exchanging(log[..n])))
  }

  /** No ordinary packet left while the log was between KEXINIT and NEWKEYS. */
  predicate Silent(log: seq<Packet>) {
    forall j :: 0 <= j < |log| && !IsTransport(log[j].msg.kind) ==> !Exchanging(log[..j])
  }

  lemma SilentSnoc(log: seq<Packet>, p: Packet)
    requires Silent(log) && (!IsTransport(p.msg.kind) ==> !Exchanging(log))
    ensures Silent(log + [p])
    ensures Exchanging(log + [p])
        <==> p.msg.kind == MSG_KEXINIT || (p.msg.kind != MSG_NEWKEYS && Exchanging(log))
  {
    var l := log + [p];
    assert l[..|log|] == log;
    forall j | 0 <= j < |l| && !IsTransport(l[j].msg.kind) ensures !Exchanging(l[..j]) {
      if j < |log| {
        assert l[..j] == log[..j];
      }
    }
  }

  lemma {:induction false} ExchangingSince(log: seq<Packet>, i: nat)
    requires i < |log| && log[i].msg.kind == MSG_KEXINIT && !Exchanging(log)
    ensures exists k :: i < k < |log| && log[k].msg.kind == MSG_NEWKEYS
    decreases |log|
  {
    var n := |log| - 1;
    if log[n].msg.kind != MSG_NEWKEYS {
      ExchangingSince(log[..n], i);
      var k :| i < k < n && log[..n][k].msg.kind == MSG_NEWKEYS;
      assert log[k].msg.kind == MSG_NEWKEYS;
    }
  }

  // ------------------------------------------------------------- the invariant

  predicate Valid(s: Sender, e: nat) {
    && Kept(Ordinary(s.out.log), s.queue, s.asked, e)
    && Silent(s.out.log)
    && (!s.out.ended ==> s.rekeying == Exchanging(s.out.log))
  }

  predicate Settled(s: Sender) {
    Valid(s, s.out.cursor.epoch) && (s.queue != [] ==> s.rekeying)
  }

  /** Every reachable state; an ended process may leave a queue behind. */
  ghost predicate Invariant(s: Sender) {
    if s.out.ended then exists e: nat :: Valid(s, e) else Settled(s)
  }

  lemma SendWrappedLog(o: Out, m: Message)
    requires !o.ended
    ensures var p := PacketFor(o, m);
      SendWrapped(o, m).log == o.log + [p] && p.msg == m && p.epoch == o.cursor.epoch
    ensures !SendWrapped(o, m).ended ==>
      SendWrapped(o, m).cursor.epoch == o.cursor.epoch + if m.kind == MSG_NEWKEYS then 1 else 0
  {
  }

  /** The head of the queue goes out under the next keys. */
  lemma KeptNext(sent: seq<Packet>, queue: seq<Message>, asked: seq<Asked>, e: nat, p: Packet)
    requires Kept(sent, queue, asked, e) && queue != []
    requires p.msg == queue[0] && p.epoch == e + 1
    ensures Kept(sent + [p], queue[1..], asked, e)
    ensures !IsTransport(p.msg.kind)
  {
    assert asked[|sent|] == Asked(queue[0], e, true);
  }

  lemma {:induction false} FlushKeeps(s: Sender, e: nat)
    requires Valid(s, e) && !s.rekeying && (!s.out.ended ==> s.out.cursor.epoch == e + 1)
    ensures var t := Flush(s);
      && Valid(t, e) && !t.rekeying && t.asked == s.asked
      && (!t.out.ended ==> t.queue == [] && t.out.cursor.epoch == e + 1)
    decreases |s.queue|
  {
    if s.queue != [] && !s.out.ended {
      var m := s.queue[0];
      var p := PacketFor(s.out, m);
      SendWrappedLog(s.out, m);
      OrdinarySnoc(s.out.log, p);
      SilentSnoc(s.out.log, p);
      KeptNext(Ordinary(s.out.log), s.queue, s.asked, e, p);
      FlushKeeps(s.(queue := s.queue[1..], out := SendWrapped(s.out, m)), e);
    }
  }

  /** A packet that is not held back, up to the point where the queue is flushed. */
  function SendNow(s: Sender, m: Message): (t: Sender) {
    s.(asked := if IsTransport(m.kind) then s.asked
                else s.asked + [Asked(m, s.out.cursor.epoch, false)],
       rekeying := s.rekeying || m.kind == MSG_KEXINIT,
       out := SendWrapped(s.out, m))
  }

  lemma KeptSnoc(sent: seq<Packet>, asked: seq<Asked>, e: nat, p: Packet)
    requires Kept(sent, [], asked, e)
    ensures Kept(sent + [p], [], asked + [Asked(p.msg, p.epoch, false)], e)
  {
  }

  lemma SendNowKeeps(s: Sender, m: Message)
    requires Settled(s) && !s.out.ended && (s.rekeying ==> IsTransport(m.kind))
    ensures var t := SendNow(s, m);
      && Kept(Ordinary(t.out.log), t.queue, t.asked, s.out.cursor.epoch)
      && Silent(t.out.log)
      && (Exchanging(t.out.log) <==> t.rekeying && m.kind != MSG_NEWKEYS)
  {
    var p := PacketFor(s.out, m);
    SendWrappedLog(s.out, m);
    var t := SendNow(s, m);
    assert t.out.log == s.out.log + [p];
    OrdinarySnoc(s.out.log, p);
    SilentSnoc(s.out.log, p);
    if IsTransport(m.kind) {
      assert Ordinary(t.out.log) == Ordinary(s.out.log);
    } else {
      KeptSnoc(Ordinary(s.out.log), s.asked, s.out.cursor.epoch, p);
    }
  }

  lemma PacketSendKeeps(s: Sender, m: Message)
    requires Invariant(s) && !s.out.ended
    ensures Invariant(PacketSend(s, m))
  {
    if !(s.rekeying && !IsTransport(m.kind)) {
      var e := s.out.cursor.epoch;
      SendNowKeeps(s, m);
      SendWrappedLog(s.out, m);
      var c := SendNow(s, m);
      if c.out.ended {
        assert Valid(c, e);
      } else if m.kind == MSG_NEWKEYS {
        FlushKeeps(c.(rekeying := false), e);
        assert Valid(Flush(c.(rekeying := false)), e);
      }
    }
  }

  lemma StepKeeps(s: Sender, a: Action)
    requires Invariant(s)
    ensures Invariant(Step(s, a))
  {
    match a
    case Send(m) => if !s.out.ended { PacketSendKeeps(s, m); }
    case DeriveKeys(k) =>
      if s.out.ended {
        var e: nat :| Valid(s, e);
        assert Valid(Derive(s, k), e);
      }
  }

  lemma {:induction false} RunKeeps(s: Sender, actions: seq<Action>)
    requires Invariant(s)
    ensures Invariant(Run(s, actions))
    decreases |actions|
  {
    if actions != [] {
      StepKeeps(s, actions[0]);
      RunKeeps(Step(s, actions[0]), actions[1..]);
    }
  }

  // --------------------------------------------------------------- main results

  /** In every run, no ordinary packet is sent between a KEXINIT and the next
      NEWKEYS. */
  lemma SilentWhileRekeying(random: nat -> U32, actions: seq<Action>, i: nat, j: nat)
    requires var log := Run(Fresh(random), actions).out.log;
      i < j < |log| && log[i].msg.kind == MSG_KEXINIT && !(1 <= log[j].msg.kind <= 49)
    ensures var log := Run(Fresh(random), actions).out.log;
      exists k :: i < k < j && log[k].msg.kind == MSG_NEWKEYS
  {
    RunKeeps(Fresh(random), actions);
    var log := Run(Fresh(random), actions).out.log;
    ExchangingSince(log[..j], i);
    var k :| i < k < j && log[..j][k].msg.kind == MSG_NEWKEYS;
    assert log[k].msg.kind == MSG_NEWKEYS;
  }

  /** In every run, the ordinary packets sent, followed by the queue, are the ones
      asked for, in order; a packet held back goes out under the keys after those
      it was asked for under, any other under those very keys; and outside a key
      exchange nothing is held. */
  lemma HeldPacketsKeepTheirOrder(random: nat -> U32, actions: seq<Action>)
    ensures var s := Run(Fresh(random), actions);
      && AllHonoured(Ordinary(s.out.log), s.queue, s.asked)
      && (!s.out.ended && s.queue != [] ==> s.rekeying)
  {
    RunKeeps(Fresh(random), actions);
  }

  predicate AllHonoured(sent: seq<Packet>, queue: seq<Message>, asked: seq<Asked>) {
    && |sent| + |queue| == |asked|
    && (forall i :: 0 <= i < |sent| ==> Honoured(sent[i], asked[i]))
    && (forall i :: |sent| <= i < |asked| ==> asked[i].msg == queue[i - |sent|] && asked[i].held)
  }

  // ------------------------------------------------- nothing dropped, either

  /** The messages of packets. */
  function MessagesOf(ps: seq<Packet>): (ms: seq<Message>)
    ensures |ms| == |ps|
  {
    if ps == [] then [] else MessagesOf(ps[..|ps| - 1]) + [ps[|ps| - 1].msg]
  }

  /** The transport packets of a log, in order. */
  function Transport(log: seq<Packet>): (r: seq<Packet>) {
    if log == [] then []
    else
      var n := |log| - 1;
      Transport(log[..n]) + if IsTransport(log[n].msg.kind) then [log[n]] else []
  }

  /** The messages that `packet_send` was called with, transport or not. */
  function Requested(actions: seq<Action>, transport: bool): (ms: seq<Message>) {
    if actions == [] then []
    else
      var a := actions[0];
      (if a.Send? && (1 <= a.msg.kind <= 49) == transport then [a.msg] else []) + Requested(actions[1..], transport)
  }

  /** The messages of either kind in a log. */
  function OfKind(log: seq<Packet>, transport: bool): (ms: seq<Message>) {
    MessagesOf(if transport then Transport(log) else Ordinary(log))
  }

  /** What has left of either kind. */
  function Left(s: Sender, transport: bool): (ms: seq<Message>) {
    OfKind(s.out.log, transport)
  }

  lemma MessagesOfSnoc(ps: seq<Packet>, p: Packet)
    ensures MessagesOf(ps + [p]) == MessagesOf(ps) + [p.msg]
  {
    assert (ps + [p])[..|ps|] == ps;
  }

  lemma TransportSnoc(log: seq<Packet>, p: Packet)
    ensures Transport(log + [p]) == Transport(log) + if IsTransport(p.msg.kind) then [p] else []
  {
    assert (log + [p])[..|log|] == log;
  }

  lemma OfKindSnoc(log: seq<Packet>, p: Packet, transport: bool)
    ensures OfKind(log + [p], transport)
         == OfKind(log, transport) + if IsTransport(p.msg.kind) == transport then [p.msg] else []
  {
    hide MessagesOf, Ordinary, Transport, IsTransport;
    OrdinarySnoc(log, p);
    TransportSnoc(log, p);
    MessagesOfSnoc(Ordinary(log), p);
    MessagesOfSnoc(Transport(log), p);
    assert Ordinary(log) + [] == Ordinary(log) && Transport(log) + [] == Transport(log);
  }

  /** A packet that goes out is the next of its kind, and the other kind is untouched. */
  lemma LeftNext(s: Sender, t: Sender, p: Packet)
    requires t.out.log == s.out.log + [p]
    ensures Left(t, true) == Left(s, true) + if IsTransport(p.msg.kind) then [p.msg] else []
    ensures Left(t, false) == Left(s, false) + if IsTransport(p.msg.kind) then [] else [p.msg]
  {
    hide OfKind, IsTransport;
    OfKindSnoc(s.out.log, p, true);
    OfKindSnoc(s.out.log, p, false);
  }

  /** A flush moves messages from the queue to the log, and all of them unless the process
      ends on the way. */
  lemma {:induction false} FlushSends(s: Sender)
    requires forall j :: 0 <= j < |s.queue| ==> !IsTransport(s.queue[j].kind)
    ensures var t := Flush(s);
      && Left(t, false) + t.queue == Left(s, false) + s.queue && Left(t, true) == Left(s, true)
      && (!t.out.ended ==> t.queue == [])
    decreases |s.queue|
  {
    hide Left, SendWrapped;
    if s.queue != [] && !s.out.ended {
      var m := s.queue[0];
      var next := s.(queue := s.queue[1..], out := SendWrapped(s.out, m));
      SendWrappedLog(s.out, m);
      LeftNext(s, next, PacketFor(s.out, m));
      FlushSends(next);
      assert Left(s, false) + [m] + s.queue[1..] == Left(s, false) + s.queue;
    }
  }

  lemma LogOnly(s: Sender, t: Sender)
    requires t.out.log == s.out.log
    ensures Left(t, true) == Left(s, true) && Left(t, false) == Left(s, false)
  {
  }

  /** One call: a transport message is in the log at once, any other in the log or at
      the end of the queue. */
  lemma SendSends(s: Sender, m: Message)
    requires Settled(s) && !s.out.ended
    ensures var t := PacketSend(s, m);
      && Left(t, true) == Left(s, true) + (if IsTransport(m.kind) then [m] else [])
      && Left(t, false) + t.queue == Left(s, false) + s.queue + (if IsTransport(m.kind) then [] else [m])
  {
    hide Left, SendWrapped, Flush, Silent, Exchanging;
    if s.rekeying && !IsTransport(m.kind) {
      assert Left(s, false) + (s.queue + [m]) == Left(s, false) + s.queue + [m];
      LogOnly(s, PacketSend(s, m));
    } else {
      var now := SendNow(s, m);
      SendWrappedLog(s.out, m);
      LeftNext(s, now, PacketFor(s.out, m));
      if m.kind == MSG_NEWKEYS && !now.out.ended {
        var c := now.(rekeying := false);
        LogOnly(now, c);
        FlushSends(c);
        assert PacketSend(s, m) == Flush(c);
      } else {
        assert s.queue == [] || IsTransport(m.kind);
        assert Left(s, false) + [m] + [] == Left(s, false) + [] + [m];
      }
    }
  }

  /** Calls are answered in order, and all of them while the process runs. */
  ghost predicate Answered(done: seq<Message>, asked: seq<Message>, ended: bool) {
    done <= asked && (!ended ==> done == asked)
  }

  lemma RequestedSplit(actions: seq<Action>, transport: bool)
    requires actions != []
    ensures Requested(actions, transport) == Requested([actions[0]], transport) + Requested(actions[1..], transport)
  {
    assert [actions[0]][1..] == [];
  }

  lemma StepSends(s: Sender, a: Action)
    requires Invariant(s) && !s.out.ended
    ensures var t := Step(s, a);
      && Left(t, true) == Left(s, true) + Requested([a], true)
      && Left(t, false) + t.queue == Left(s, false) + s.queue + Requested([a], false)
  {
    hide Left, Settled, PacketSend;
    assert [a][1..] == [];
    match a
    case Send(m) =>
      SendSends(s, m);
      assert [m] + [] == [m];
    case DeriveKeys(k) =>
      LogOnly(s, Step(s, a));
      assert Left(s, true) + [] == Left(s, true) && Left(s, false) + s.queue + [] == Left(s, false) + s.queue;
  }

  lemma Regroup(a: seq<Message>, b: seq<Message>, c: seq<Message>)
    ensures a + b + c == a + (b + c)
  {
  }

  lemma NothingRequested()
    ensures Requested([], true) == [] && Requested([], false) == []
  {
  }

  lemma {:induction false} RunSends(s: Sender, actions: seq<Action>)
    requires Invariant(s)
    ensures var t := Run(s, actions);
      && Answered(Left(t, true), Left(s, true) + Requested(actions, true), t.out.ended)
      && Answered(Left(t, false) + t.queue, Left(s, false) + s.queue + Requested(actions, false), t.out.ended)
    decreases |actions|
  {
    hide Left, Settled, Step, Requested, Invariant;
    if actions == [] {
      NothingRequested();
      assert Left(s, true) + [] == Left(s, true);
      assert Left(s, false) + s.queue + [] == Left(s, false) + s.queue;
    } else if s.out.ended {
      EndedRun(s, actions);
    } else {
      var t := Step(s, actions[0]);
      StepKeeps(s, actions[0]);
      RunSends(t, actions[1..]);
      StepSends(s, actions[0]);
      RequestedSplit(actions, true);
      RequestedSplit(actions, false);
      Regroup(Left(s, true), Requested([actions[0]], true), Requested(actions[1..], true));
      Regroup(Left(s, false) + s.queue, Requested([actions[0]], false), Requested(actions[1..], false));
    }
  }

  lemma {:induction false} EndedRun(s: Sender, actions: seq<Action>)
    requires s.out.ended
    ensures var t := Run(s, actions);
      t.out.ended && t.queue == s.queue && Left(t, true) == Left(s, true) && Left(t, false) == Left(s, false)
    decreases |actions|
  {
    hide Left;
    if actions != [] {
      LogOnly(s, Step(s, actions[0]));
      EndedRun(Step(s, actions[0]), actions[1..]);
    }
  }

  /** Nothing is dropped, duplicated or made up.  The transport messages in the log are
      those `packet_send` was called with, each at once and in order; the other messages
      in the log, followed by the queue, are the others it was called with, in order.
      A process that has ended answers no further calls. */
  lemma NothingIsDropped(random: nat -> U32, actions: seq<Action>)
    ensures var s := Run(Fresh(random), actions);
      && Answered(OfKind(s.out.log, true), Requested(actions, true), s.out.ended)
      && Answered(OfKind(s.out.log, false) + s.queue, Requested(actions, false), s.out.ended)
  {
    hide Requested;
    RunSends(Fresh(random), actions);
    assert [] + Requested(actions, true) == Requested(actions, true);
    assert [] + [] + Requested(actions, false) == Requested(actions, false);
  }
}
