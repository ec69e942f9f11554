/** Both ends of one direction of a connection: whatever the sender emits, cut
    into any chunks, the reader gets back packet by packet. */
module Stream {
  import opened Options
  import opened Bytes
  import opened Messages
  import opened Packets
  import opened RekeyQueue

  /** The keys of each exchange.  Both sides derive the same ones. */
  type Schedule = nat -> Keys

  /** The cursor behind a packet when its keys, if it is a NEWKEYS, are in place. */
  function Next(c: Cursor, p: Packet, ks: Schedule): (d: Cursor) {
    var d := Counted(c, 4 + PacketLength(p));
    if p.msg.kind == MSG_NEWKEYS then Switched(d, ks(c.epoch)) else d
  }

  /** Every packet is padded for the keys it is sent under. */
  predicate Chained(c: Cursor, ps: seq<Packet>, ks: Schedule)
    decreases |ps|
  {
    ps != [] ==> Padded(c, ps[0]) && Chained(Next(c, ps[0], ks), ps[1..], ks)
  }

  /** The bytes of a sequence of packets, keys changing where a NEWKEYS stands. */
  function Encode(c: Cursor, ps: seq<Packet>, ks: Schedule): (w: seq<Byte>)
    requires Chained(c, ps, ks)
    decreases |ps|
  {
    if ps == [] then [] else Wire(c, ps[0]) + Encode(Next(c, ps[0], ks), ps[1..], ks)
  }

  function After(c: Cursor, ps: seq<Packet>, ks: Schedule): (d: Cursor)
    decreases |ps|
  {
    if ps == [] then c else After(Next(c, ps[0], ks), ps[1..], ks)
  }

  lemma {:induction false} ChainedSnoc(c: Cursor, ps: seq<Packet>, p: Packet, ks: Schedule)
    requires Chained(c, ps, ks) && Padded(After(c, ps, ks), p)
    ensures Chained(c, ps + [p], ks)
    ensures After(c, ps + [p], ks) == Next(After(c, ps, ks), p, ks)
    decreases |ps|
  {
    if ps == [] {
      assert (ps + [p])[1..] == [] && (ps + [p])[0] == p;
    } else {
      assert (ps + [p])[1..] == ps[1..] + [p] && (ps + [p])[0] == ps[0];
      ChainedSnoc(Next(c, ps[0], ks), ps[1..], p, ks);
    }
  }

  lemma {:induction false} EncodeSnoc(c: Cursor, ps: seq<Packet>, p: Packet, ks: Schedule)
    requires Chained(c, ps, ks) && Padded(After(c, ps, ks), p) && Chained(c, ps + [p], ks)
    ensures Encode(c, ps + [p], ks) == Encode(c, ps, ks) + Wire(After(c, ps, ks), p)
    decreases |ps|
  {
    if ps == [] {
      assert (ps + [p])[1..] == [] && (ps + [p])[0] == p;
    } else {
      var d := Next(c, ps[0], ks);
      assert (ps + [p])[1..] == ps[1..] + [p] && (ps + [p])[0] == ps[0];
      EncodeSnoc(d, ps[1..], p, ks);
      ConcatAssociates(Wire(c, ps[0]), Encode(d, ps[1..], ks), Wire(After(c, ps, ks), p));
    }
  }

  lemma ConcatAssociates(a: seq<Byte>, b: seq<Byte>, c: seq<Byte>)
    ensures (a + b) + c == a + (b + c)
  {
  }

  // ------------------------------------------------------------ reading a packet

  /** What is wrong with a packet sent at cursor `c`, if anything: the reader has
      limits the sender does not check. */
  function Fault(c: Cursor, p: Packet, slot: Option<Keys>): (f: Option<Why>) {
    if PacketLength(p) > 256 * 1024 then Some(BadLength)
    else if c.packets + 1 == 0x1_0000_0000 then Some(TooManyPackets)
    else if !(1 <= p.msg.kind < 192) then Some(BadType)
    else if p.msg.kind == MSG_NEWKEYS && slot.None? then Some(NoKeys)
    else None
  }

  /** The reader has decrypted the first block of `p`, sent at cursor `c`. */
  ghost predicate Begun(r: In, c: Cursor, p: Packet) {
    var n := BlockSize(c.keys);
    && Padded(c, p) && PacketLength(p) <= 256 * 1024 && n <= 4 + PacketLength(p)
    && |r.incoming| == n && r.cursor == Skip(c, n) && r.length == PacketLength(p)
    && r.incoming == Plain(p)[..n]
  }

  /** Bytes of the current packet that have come in. */
  function Arrived(r: In, c: Cursor): (n: nat) {
    |r.input| + if r.length == 0 then 0 else BlockSize(c.keys)
  }

  /** The reader stands at `c`, at the start of `p` or inside it; `coming` has not
      arrived yet and `tail` is what follows the packet. */
  ghost predicate Reading(r: In, c: Cursor, p: Packet, coming: seq<Byte>, tail: seq<Byte>)
    requires Padded(c, p)
  {
    if r.length == 0 then r.cursor == c && r.input + coming == Wire(c, p) + tail
    else Begun(r, c, p) && r.input + coming == Wire(c, p)[BlockSize(c.keys)..] + tail
  }

  lemma ExcessLessBlock(n: nat, total: nat)
    requires (n == 8 || n == 16) && Excess(n, total) == 0 && total > 0
    ensures n <= total && Excess(n, total - n) == 0
  {
  }

  lemma WholeBlocks(c: Cursor, p: Packet)
    requires Padded(c, p)
    ensures var n := BlockSize(c.keys);
      n <= 4 + PacketLength(p) && Excess(n, 4 + PacketLength(p) - n) == 0
  {
    var len := 6 + |p.msg.body|;
    ExcessLessBlock(BlockSize(c.keys), len + PadLen(BlockSize(c.keys), len));
  }

  /** Cutting two equal concatenations at the same place. */
  lemma CutEqual(a: seq<Byte>, b: seq<Byte>, w: seq<Byte>, t: seq<Byte>, n: nat)
    requires a + b == w + t && n <= |a| && n <= |w|
    ensures a[..n] == w[..n]
    ensures a[n..] + b == w[n..] + t
  {
    assert a[..n] == (a + b)[..n] && w[..n] == (w + t)[..n];
    assert a[n..] + b == (a + b)[n..] && w[n..] + t == (w + t)[n..];
  }

  lemma CutThree(a: seq<Byte>, b: seq<Byte>, x: seq<Byte>, y: seq<Byte>, t: seq<Byte>)
    requires a + b == (x + y) + t && |a| >= |x| + |y|
    ensures a[..|x|] == x && a[|x|..][..|y|] == y
    ensures a[|x|..][|y|..] == a[|x| + |y|..]
    ensures a[|x| + |y|..] + b == t
  {
    CutEqual(a, b, x + y, t, |x|);
    assert (x + y)[..|x|] == x && (x + y)[|x|..] == y;
    CutEqual(a[|x|..], b, y, t, |y|);
  }

  lemma PlainLength(c: Cursor, p: Packet, n: nat)
    requires Padded(c, p) && 8 <= n <= |Plain(p)|
    ensures GetU32(Plain(p)[..n]) == PacketLength(p)
  {
    var w := PutU32(PacketLength(p));
    assert Plain(p)[..n][..4] == w;
    GetU32Prefix(w, Plain(p)[4..n]);
    assert Plain(p)[..n] == w + Plain(p)[4..n];
  }

  /** The first block, decrypted on its own, gives the length. */
  lemma BeginOnWire(r: In, c: Cursor, p: Packet, coming: seq<Byte>, tail: seq<Byte>)
    requires Padded(c, p) && Reading(r, c, p, coming, tail)
    requires r.status.Open? && r.length == 0 && |r.input| >= BlockSize(c.keys)
    ensures var t := BeginPacket(r);
      if PacketLength(p) > 256 * 1024 then t.status == Closed(BadLength)
      else t.status.Open? && Reading(t, c, p, coming, tail) && t.length != 0
           && t.slot == r.slot && |t.input| == |r.input| - BlockSize(c.keys)
  {
    var n := BlockSize(c.keys);
    WholeBlocks(c, p);
    CutEqual(r.input, coming, Wire(c, p), tail, n);
    CryptInTwo(c, Plain(p), n);
    PlainLength(c, p, n);
    assert Wire(c, p)[..n] == Crypt(c, Plain(p))[..n];
  }

  /** The rest of the packet in one piece, ciphertext and MAC. */
  lemma RestOfWire(c: Cursor, p: Packet, n: nat)
    requires Padded(c, p) && n == BlockSize(c.keys)
    ensures n <= 4 + PacketLength(p)
    ensures Wire(c, p)[n..] == Crypt(c, Plain(p))[n..] + MacOf(c, Plain(p))
    ensures Crypt(Skip(c, n), Crypt(c, Plain(p))[n..]) == Plain(p)[n..]
    ensures MacOf(Skip(c, n), Plain(p)) == MacOf(c, Plain(p))
    ensures Counted(Skip(c, n), 4 + PacketLength(p) - n) == Counted(c, 4 + PacketLength(p))
  {
    WholeBlocks(c, p);
    CryptInTwo(c, Plain(p), n);
  }

  lemma FinishWaits(r: In, c: Cursor, p: Packet)
    requires Begun(r, c, p) && r.status.Open?
    requires |r.input| < |Wire(c, p)| - BlockSize(c.keys)
    ensures FinishPacket(r) == (r, Nothing)
  {
    WholeBlocks(c, p);
    FinishShort(r, 4 + PacketLength(p) - BlockSize(c.keys));
  }

  lemma FinishShort(r: In, need: nat)
    requires r.status.Open? && 5 <= r.length <= 256 * 1024
    requires var n := BlockSize(r.cursor.keys);
      |r.incoming| == n && need == 4 + r.length - n && Excess(n, need) == 0
    requires |r.input| < need + MacSize(r.cursor.keys)
    ensures FinishPacket(r) == (r, Nothing)
  {
  }

  /** What the last part of the call makes of a packet the sender built. */
  ghost predicate Delivered(r: In, c: Cursor, p: Packet, ks: Schedule, t: In, res: Polled)
  {
    && t.input == r.input
    && match Fault(c, p, r.slot)
       case Some(why) => res.Nothing? && t.status == Closed(why)
       case None =>
         && res == Got(p.msg, c.seqnr) && t.status.Open? && t.length == 0
         && t.cursor == Next(c, p, ks)
         && t.slot == if p.msg.kind == MSG_NEWKEYS then None else r.slot
  }

  lemma DeliverSent(r: In, c: Cursor, p: Packet, ks: Schedule)
    requires Padded(c, p) && PacketLength(p) <= 256 * 1024
    requires r.status.Open? && r.cursor == Counted(c, 4 + PacketLength(p))
    requires r.slot.Some? ==> r.slot.value == ks(c.epoch)
    ensures var d := Deliver(r, Plain(p), c.seqnr); Delivered(r, c, p, ks, d.0, d.1)
  {
    var w := Plain(p);
    assert w[4] == |p.pad| && w[5] == p.msg.kind;
    assert w[6..|w| - |p.pad|] == p.msg.body;
  }

  lemma RestArrived(r: In, c: Cursor, p: Packet, coming: seq<Byte>, tail: seq<Byte>, n: nat)
    returns (cipher: seq<Byte>, mac: seq<Byte>)
    requires n == BlockSize(c.keys) && Begun(r, c, p)
    requires r.input + coming == Wire(c, p)[n..] + tail
    requires |r.input| >= |Wire(c, p)| - n
    ensures |cipher| == 4 + PacketLength(p) - n && |mac| == MacSize(c.keys)
    ensures r.input[..|cipher|] == cipher && r.input[|cipher|..][..|mac|] == mac
    ensures r.input[|cipher|..][|mac|..] == r.input[|Wire(c, p)| - n..]
    ensures r.input[|Wire(c, p)| - n..] + coming == tail
    ensures r.incoming + Crypt(r.cursor, cipher) == Plain(p) && mac == MacOf(r.cursor, Plain(p))
    ensures Counted(r.cursor, |cipher|) == Counted(c, 4 + PacketLength(p))
  {
    RestOfWire(c, p, n);
    cipher, mac := Crypt(c, Plain(p))[n..], MacOf(c, Plain(p));
    CutThree(r.input, coming, cipher, mac, tail);
    assert r.incoming + Plain(p)[n..] == Plain(p);
  }

  lemma CheckMacPasses(r: In, need: nat, c: Cursor, p: Packet, ks: Schedule)
    requires r.status.Open? && Padded(c, p) && PacketLength(p) <= 256 * 1024
    requires |r.incoming| + need == 4 + PacketLength(p)
    requires |r.input| >= need + MacSize(r.cursor.keys)
    requires r.incoming + Crypt(r.cursor, r.input[..need]) == Plain(p)
    requires r.input[need..][..MacSize(r.cursor.keys)] == MacOf(r.cursor, Plain(p))
    requires r.cursor.seqnr == c.seqnr && Counted(r.cursor, need) == Counted(c, 4 + PacketLength(p))
    requires r.slot.Some? ==> r.slot.value == ks(c.epoch)
    ensures var d := CheckMac(r, need);
      Delivered(r.(input := r.input[need..][MacSize(r.cursor.keys)..]), c, p, ks, d.0, d.1)
  {
    DeliverSent(r.(input := r.input[need..][MacSize(r.cursor.keys)..], cursor := Counted(r.cursor, need)),
                c, p, ks);
  }

  /** The rest of the packet, once it is there, decrypts and passes its MAC. */
  lemma CheckMacOnWire(r: In, c: Cursor, p: Packet, coming: seq<Byte>, tail: seq<Byte>, n: nat, ks: Schedule)
    requires n == BlockSize(c.keys) && Begun(r, c, p) && r.status.Open?
    requires r.input + coming == Wire(c, p)[n..] + tail
    requires |r.input| >= |Wire(c, p)| - n
    requires r.slot.Some? ==> r.slot.value == ks(c.epoch)
    ensures r.input[|Wire(c, p)| - n..] + coming == tail
    ensures var d := CheckMac(r, 4 + PacketLength(p) - n);
      Delivered(r.(input := r.input[|Wire(c, p)| - n..]), c, p, ks, d.0, d.1)
  {
    var cipher, mac := RestArrived(r, c, p, coming, tail, n);
    CheckMacPasses(r, |cipher|, c, p, ks);
  }

  lemma PollKeepsSlot(r: In)
    requires InShape(r)
    ensures Poll(r).1.Nothing? ==> Poll(r).0.slot == r.slot
  {
  }

  /** What a call of `packet_read_poll2` anywhere in the packet `p` must do. */
  ghost predicate Outcome(r: In, c: Cursor, p: Packet, coming: seq<Byte>, tail: seq<Byte>,
                          ks: Schedule, t: In, res: Polled)
    requires Padded(c, p)
  {
    && InShape(t)
    && match t.status
       case Closed(why) =>
         res.Nothing? && t.slot == r.slot && Fault(c, p, r.slot) == Some(why)
       case Open =>
         if res.Nothing? then
           Arrived(r, c) < |Wire(c, p)| && t.slot == r.slot && Reading(t, c, p, coming, tail)
         else
           && Arrived(r, c) >= |Wire(c, p)| && Fault(c, p, r.slot).None?
           && res == Got(p.msg, c.seqnr)
           && t.length == 0 && t.cursor == Next(c, p, ks) && t.input + coming == tail
           && t.slot == if p.msg.kind == MSG_NEWKEYS then None else r.slot
  }

  lemma PollOnWire(r: In, c: Cursor, p: Packet, coming: seq<Byte>, tail: seq<Byte>, ks: Schedule)
    requires InShape(r) && r.status.Open?
    requires Padded(c, p) && Reading(r, c, p, coming, tail)
    requires r.slot.Some? ==> r.slot.value == ks(c.epoch)
    ensures Outcome(r, c, p, coming, tail, ks, Poll(r).0, Poll(r).1)
  {
    PollKeepsSlot(r);
    var t := r;
    if r.length == 0 {
      WholeBlocks(c, p);
      if |r.input| < BlockSize(c.keys) { return; }
      BeginOnWire(r, c, p, coming, tail);
      t := BeginPacket(r);
      if t.status.Closed? { return; }
    }
    if |t.input| < |Wire(c, p)| - BlockSize(c.keys) {
      FinishWaits(t, c, p);
    } else {
      PollRest(t, c, p, coming, tail, BlockSize(c.keys), ks);
    }
  }

  lemma PollRest(t: In, c: Cursor, p: Packet, coming: seq<Byte>, tail: seq<Byte>, n: nat, ks: Schedule)
    requires n == BlockSize(c.keys) && t.status.Open? && Begun(t, c, p)
    requires t.input + coming == Wire(c, p)[n..] + tail
    requires |t.input| >= |Wire(c, p)| - n
    requires t.slot.Some? ==> t.slot.value == ks(c.epoch)
    ensures t.input[|Wire(c, p)| - n..] + coming == tail
    ensures var d := FinishPacket(t);
      Delivered(t.(input := t.input[|Wire(c, p)| - n..]), c, p, ks, d.0, d.1)
  {
    hide CheckMac, FinishPacket, Wire, Crypt, Delivered;
    WholeBlocks(c, p);
    CheckMacOnWire(t, c, p, coming, tail, n, ks);
    FinishThere(t, 4 + PacketLength(p) - n, t.(input := t.input[|Wire(c, p)| - n..]), c, p, ks);
  }

  lemma FinishThere(r: In, need: nat, s: In, c: Cursor, p: Packet, ks: Schedule)
    requires r.status.Open? && 5 <= r.length <= 256 * 1024
    requires var n := BlockSize(r.cursor.keys);
      |r.incoming| == n && need == 4 + r.length - n && Excess(n, need) == 0
    requires |r.input| >= need + MacSize(r.cursor.keys)
    requires var d := CheckMac(r, need); Delivered(s, c, p, ks, d.0, d.1)
    ensures var d := FinishPacket(r); Delivered(s, c, p, ks, d.0, d.1)
  {
  }

  // ------------------------------------------------------------------ the system

  datatype Delivery = Delivery(msg: Message, seqnr: U32)

  /** A sender, a reader, the bytes on the way (the sender's output buffer and the
      reader's input buffer), and what the reader returned.  `base` is the reader's
      cursor at the start of its current packet. */
  datatype Link = Link(snd: Sender, rcv: In, base: Cursor, got: seq<Delivery>)

  datatype Move =
    | Ask(msg: Message)   // packet_send
    | DeriveOut           // the sender derives the next keys of the schedule
    | DeriveIn            // so does the reader
    | Carry(count: nat)   // the network moves that many bytes, or all there are
    | Read                // packet_read_poll2

  function Initial(random: nat -> U32): (l: Link) {
    Link(Fresh(random), In(START, None, [], 0, [], Open), START, [])
  }

  function Min(a: nat, b: nat): (m: nat) { if a < b then a else b }

  function DeriveInStep(l: Link, ks: Schedule): (t: Link)
    requires InShape(l.rcv)
    ensures InShape(t.rcv)
  {
    if l.rcv.status.Closed? then l
    else l.(rcv := l.rcv.(slot := Some(ks(l.base.epoch))))
  }

  function ReadStep(l: Link): (t: Link)
    requires InShape(l.rcv)
    ensures InShape(t.rcv)
  {
    var (r, res) := Poll(l.rcv);
    match res
    case Nothing => l.(rcv := r)
    case Got(m, seqnr) => l.(rcv := r, base := r.cursor, got := l.got + [Delivery(m, seqnr)])
  }

  function MoveStep(l: Link, a: Move, ks: Schedule): (t: Link)
    requires InShape(l.rcv)
    ensures InShape(t.rcv)
  {
    match a
    case Ask(m) => l.(snd := PacketSend(l.snd, m))
    case DeriveOut => l.(snd := Derive(l.snd, ks(l.snd.out.cursor.epoch)))
    case DeriveIn => DeriveInStep(l, ks)
    case Carry(count) =>
      var o := l.snd.out;
      var n := Min(count, |o.output|);
      l.(snd := l.snd.(out := o.(output := o.output[n..])),
         rcv := l.rcv.(input := l.rcv.input + o.output[..n]))
    case Read => ReadStep(l)
  }

  function Moves(l: Link, actions: seq<Move>, ks: Schedule): (t: Link)
    requires InShape(l.rcv)
    ensures InShape(t.rcv)
    decreases |actions|
  {
    if actions == [] then l else Moves(MoveStep(l, actions[0], ks), actions[1..], ks)
  }

  /** What was returned is what was sent first, numbered from zero. */
  predicate InStep(got: seq<Delivery>, log: seq<Packet>) {
    && |got| <= |log|
    && (forall i :: 0 <= i < |got| ==>
          got[i].msg == log[i].msg && got[i].seqnr == i % 0x1_0000_0000)
  }

  /** The bytes on the way are the rest of the current packet and the encoding of
      all later ones. */
  ghost predicate OnTheWay(r: In, base: Cursor, ps: seq<Packet>, coming: seq<Byte>, ks: Schedule) {
    && Chained(base, ps, ks)
    && if ps == [] then r.length == 0 && r.cursor == base && r.input + coming == []
       else Reading(r, base, ps[0], coming, Encode(Next(base, ps[0], ks), ps[1..], ks))
  }

  ghost predicate Linked(o: Out, r: In, base: Cursor, got: seq<Delivery>, ks: Schedule) {
    && InShape(r) && InStep(got, o.log)
    && (o.slot.Some? ==> o.slot.value == ks(o.cursor.epoch))
    && match r.status
       case Closed(why) =>
         |got| < |o.log| && Fault(base, o.log[|got|], r.slot) == Some(why)
       case Open =>
         base.seqnr == |got| % 0x1_0000_0000 && Following(o, r, base, o.log[|got|..], ks)
  }

  /** An open reader has the packets `ps` still to come. */
  ghost predicate Following(o: Out, r: In, base: Cursor, ps: seq<Packet>, ks: Schedule) {
    && (r.slot.Some? ==> r.slot.value == ks(base.epoch))
    && OnTheWay(r, base, ps, o.output, ks)
    && (!o.ended ==> o.cursor == After(base, ps, ks))
  }

  lemma ReadingMore(r: In, c: Cursor, p: Packet, coming: seq<Byte>, tail: seq<Byte>, w: seq<Byte>)
    requires Padded(c, p) && Reading(r, c, p, coming, tail)
    ensures Reading(r, c, p, coming + w, tail + w)
  {
    ConcatAssociates(r.input, coming, w);
    if r.length == 0 {
      ConcatAssociates(Wire(c, p), tail, w);
    } else {
      ConcatAssociates(Wire(c, p)[BlockSize(c.keys)..], tail, w);
    }
  }

  lemma OnTheWaySnoc(r: In, base: Cursor, ps: seq<Packet>, coming: seq<Byte>, p: Packet, ks: Schedule)
    requires OnTheWay(r, base, ps, coming, ks) && Padded(After(base, ps, ks), p)
    ensures OnTheWay(r, base, ps + [p], coming + Wire(After(base, ps, ks), p), ks)
    ensures After(base, ps + [p], ks) == Next(After(base, ps, ks), p, ks)
  {
    ChainedSnoc(base, ps, p, ks);
    var w := Wire(After(base, ps, ks), p);
    if ps == [] {
      assert ps + [p] == [p] && [p][1..] == [];
      assert r.input + (coming + w) == (r.input + coming) + w == w + [];
    } else {
      OnTheWayLater(r, base, ps, coming, p, w, ks);
    }
  }

  lemma OnTheWayLater(r: In, base: Cursor, ps: seq<Packet>, coming: seq<Byte>, p: Packet,
                      w: seq<Byte>, ks: Schedule)
    requires ps != [] && OnTheWay(r, base, ps, coming, ks) && Padded(After(base, ps, ks), p)
    requires Chained(base, ps + [p], ks) && w == Wire(After(base, ps, ks), p)
    ensures OnTheWay(r, base, ps + [p], coming + w, ks)
  {
    var more := ps + [p];
    assert more[0] == ps[0] && more[1..] == ps[1..] + [p];
    var tail := OnTheWayTail(r, base, ps, coming, ks);
    EncodeSnoc(Next(base, ps[0], ks), ps[1..], p, ks);
    ReadingMore(r, base, ps[0], coming, tail, w);
    OnTheWayFrom(r, base, more, coming + w, ks);
  }

  lemma OnTheWayTail(r: In, base: Cursor, ps: seq<Packet>, coming: seq<Byte>, ks: Schedule)
    returns (tail: seq<Byte>)
    requires ps != [] && OnTheWay(r, base, ps, coming, ks)
    ensures Chained(Next(base, ps[0], ks), ps[1..], ks)
    ensures tail == Encode(Next(base, ps[0], ks), ps[1..], ks)
    ensures Padded(base, ps[0]) && Reading(r, base, ps[0], coming, tail)
  {
    tail := Encode(Next(base, ps[0], ks), ps[1..], ks);
  }

  lemma OnTheWayFrom(r: In, base: Cursor, ps: seq<Packet>, coming: seq<Byte>, ks: Schedule)
    requires Chained(base, ps, ks) && ps != []
    requires Reading(r, base, ps[0], coming, Encode(Next(base, ps[0], ks), ps[1..], ks))
    ensures OnTheWay(r, base, ps, coming, ks)
  {
  }

  lemma SendWrappedNext(o: Out, m: Message, ks: Schedule)
    requires !o.ended && (o.slot.Some? ==> o.slot.value == ks(o.cursor.epoch))
    ensures var t, p := SendWrapped(o, m), PacketFor(o, m);
      && t.log == o.log + [p] && t.output == o.output + Wire(o.cursor, p)
      && (!t.ended ==> t.cursor == Next(o.cursor, p, ks))
      && (t.slot.Some? ==> t.slot.value == ks(t.cursor.epoch))
  {
  }

  lemma LinkedSendWrapped(o: Out, m: Message, r: In, base: Cursor, got: seq<Delivery>, ks: Schedule)
    requires Linked(o, r, base, got, ks)
    ensures Linked(SendWrapped(o, m), r, base, got, ks)
  {
    if !o.ended {
      var p := PacketFor(o, m);
      SendWrappedNext(o, m, ks);
      assert (o.log + [p])[|got|..] == o.log[|got|..] + [p];
      if r.status.Open? {
        OnTheWaySnoc(r, base, o.log[|got|..], o.output, p, ks);
      }
    }
  }

  lemma {:induction false} LinkedFlush(s: Sender, r: In, base: Cursor, got: seq<Delivery>, ks: Schedule)
    requires Linked(s.out, r, base, got, ks)
    ensures Linked(Flush(s).out, r, base, got, ks)
    decreases |s.queue|
  {
    if s.queue != [] && !s.out.ended {
      LinkedSendWrapped(s.out, s.queue[0], r, base, got, ks);
      LinkedFlush(s.(queue := s.queue[1..], out := SendWrapped(s.out, s.queue[0])), r, base, got, ks);
    }
  }

  lemma LinkedSend(s: Sender, m: Message, r: In, base: Cursor, got: seq<Delivery>, ks: Schedule)
    requires Linked(s.out, r, base, got, ks)
    ensures Linked(PacketSend(s, m).out, r, base, got, ks)
  {
    if !s.out.ended && !(s.rekeying && !IsTransport(m.kind)) {
      LinkedSendWrapped(s.out, m, r, base, got, ks);
      LinkedFlush(SendNow(s, m).(rekeying := false), r, base, got, ks);
    }
  }

  lemma LinkedCarry(o: Out, n: nat, r: In, base: Cursor, got: seq<Delivery>, ks: Schedule)
    requires Linked(o, r, base, got, ks) && n <= |o.output|
    ensures Linked(o.(output := o.output[n..]), r.(input := r.input + o.output[..n]), base, got, ks)
  {
    assert r.input + o.output[..n] + o.output[n..] == r.input + o.output;
  }

  lemma LinkedDeriveIn(l: Link, ks: Schedule)
    requires Linked(l.snd.out, l.rcv, l.base, l.got, ks)
    ensures var t := DeriveInStep(l, ks); Linked(t.snd.out, t.rcv, t.base, t.got, ks)
  {
  }

  lemma LinkedRead(l: Link, ks: Schedule)
    requires Linked(l.snd.out, l.rcv, l.base, l.got, ks)
    ensures var t := ReadStep(l); Linked(t.snd.out, t.rcv, t.base, t.got, ks)
  {
    var o, r, ps := l.snd.out, l.rcv, l.snd.out.log[|l.got|..];
    if r.status.Open? {
      if ps == [] {
        assert |r.input| == |r.input + o.output| == 0;
      } else {
        PollOnWire(r, l.base, ps[0], o.output, Encode(Next(l.base, ps[0], ks), ps[1..], ks), ks);
        var (t, res) := Poll(r);
        if res.Nothing? {
          LinkedNothing(o, r, l.base, l.got, ks, t);
        } else {
          LinkedGot(o, r, l.base, l.got, ks, t, res);
        }
      }
    }
  }

  lemma LinkedNothing(o: Out, r: In, base: Cursor, got: seq<Delivery>, ks: Schedule, t: In)
    requires Linked(o, r, base, got, ks) && r.status.Open? && |got| < |o.log|
    requires var ps := o.log[|got|..];
      Outcome(r, base, ps[0], o.output, Encode(Next(base, ps[0], ks), ps[1..], ks), ks, t, Nothing)
    ensures Linked(o, t, base, got, ks)
  {
    FollowingOutcome(o, r, base, o.log[|got|..], ks, t, Nothing);
  }

  lemma LinkedGot(o: Out, r: In, base: Cursor, got: seq<Delivery>, ks: Schedule, t: In, res: Polled)
    requires Linked(o, r, base, got, ks) && r.status.Open? && |got| < |o.log| && res.Got?
    requires var ps := o.log[|got|..];
      Outcome(r, base, ps[0], o.output, Encode(Next(base, ps[0], ks), ps[1..], ks), ks, t, res)
    ensures Linked(o, t, t.cursor, got + [Delivery(res.msg, res.seqnr)], ks)
  {
    var ps := o.log[|got|..];
    FollowingOutcome(o, r, base, ps, ks, t, res);
    assert res == Got(ps[0].msg, base.seqnr) && InShape(t) && t.status.Open?;
    LinkedCounted(o, base, got, ks, t);
  }

  lemma LinkedCounted(o: Out, base: Cursor, got: seq<Delivery>, ks: Schedule, t: In)
    requires InStep(got, o.log) && |got| < |o.log| && InShape(t) && t.status.Open?
    requires o.slot.Some? ==> o.slot.value == ks(o.cursor.epoch)
    requires base.seqnr == |got| % 0x1_0000_0000
    requires t.cursor.seqnr == (base.seqnr + 1) % 0x1_0000_0000
    requires Following(o, t, t.cursor, o.log[|got|..][1..], ks)
    ensures Linked(o, t, t.cursor, got + [Delivery(o.log[|got|].msg, base.seqnr)], ks)
  {
    assert o.log[|got| + 1..] == o.log[|got|..][1..];
    InStepSnoc(got, o.log);
    CountOn(|got|);
  }

  lemma CountOn(n: nat)
    ensures (n % 0x1_0000_0000 + 1) % 0x1_0000_0000 == (n + 1) % 0x1_0000_0000
  {
  }

  lemma InStepSnoc(got: seq<Delivery>, log: seq<Packet>)
    requires InStep(got, log) && |got| < |log|
    ensures InStep(got + [Delivery(log[|got|].msg, |got| % 0x1_0000_0000)], log)
  {
  }

  lemma FollowingOutcome(o: Out, r: In, base: Cursor, ps: seq<Packet>, ks: Schedule, t: In, res: Polled)
    requires ps != [] && Following(o, r, base, ps, ks)
    requires Outcome(r, base, ps[0], o.output, Encode(Next(base, ps[0], ks), ps[1..], ks), ks, t, res)
    ensures t.status.Open? && res.Nothing? ==> Following(o, t, base, ps, ks)
    ensures t.status.Open? && res.Got? ==>
      t.cursor.seqnr == (base.seqnr + 1) % 0x1_0000_0000 && Following(o, t, t.cursor, ps[1..], ks)
  {
    if res.Got? {
      NextSeqnr(base, ps[0], ks);
      AtNext(t, t.cursor, ps[1..], o.output, ks);
    }
  }

  lemma NextSeqnr(c: Cursor, p: Packet, ks: Schedule)
    ensures Next(c, p, ks).seqnr == (c.seqnr + 1) % 0x1_0000_0000
  {
  }

  lemma AtNext(r: In, d: Cursor, ps: seq<Packet>, coming: seq<Byte>, ks: Schedule)
    requires Chained(d, ps, ks) && r.length == 0 && r.cursor == d
    requires r.input + coming == Encode(d, ps, ks)
    ensures OnTheWay(r, d, ps, coming, ks)
  {
  }

  lemma LinkedStep(l: Link, a: Move, ks: Schedule)
    requires Linked(l.snd.out, l.rcv, l.base, l.got, ks)
    ensures var t := MoveStep(l, a, ks); Linked(t.snd.out, t.rcv, t.base, t.got, ks)
  {
    match a
    case Ask(m) => LinkedSend(l.snd, m, l.rcv, l.base, l.got, ks);
    case DeriveOut =>
    case DeriveIn => LinkedDeriveIn(l, ks);
    case Carry(count) => LinkedCarry(l.snd.out, Min(count, |l.snd.out.output|), l.rcv, l.base, l.got, ks);
    case Read => LinkedRead(l, ks);
  }

  lemma {:induction false} LinkedMoves(l: Link, actions: seq<Move>, ks: Schedule)
    requires Linked(l.snd.out, l.rcv, l.base, l.got, ks)
    ensures var t := Moves(l, actions, ks); Linked(t.snd.out, t.rcv, t.base, t.got, ks)
    decreases |actions|
  {
    if actions != [] {
      LinkedStep(l, actions[0], ks);
      LinkedMoves(MoveStep(l, actions[0], ks), actions[1..], ks);
    }
  }

  // ----------------------------------------------------------------- main results

  ghost predicate Reachable(l: Link, ks: Schedule) {
    exists random: nat -> U32, actions: seq<Move> :: l == Moves(Initial(random), actions, ks)
  }

  lemma LinkedInitial(random: nat -> U32, ks: Schedule)
    ensures var l := Initial(random); Linked(l.snd.out, l.rcv, l.base, l.got, ks)
  {
  }

  lemma LinkedReachable(l: Link, ks: Schedule)
    requires Reachable(l, ks)
    ensures Linked(l.snd.out, l.rcv, l.base, l.got, ks)
  {
    var random: nat -> U32, actions: seq<Move> :| l == Moves(Initial(random), actions, ks);
    LinkedInitial(random, ks);
    LinkedMoves(Initial(random), actions, ks);
  }

  /** For every run of both sides over any chunking and any number of key changes,
      the reader has returned exactly the first packets sent, types and payloads, in
      order and numbered from zero; and if it has given the connection up, then
      because of a limit that the next packet sent itself breaks. */
  lemma StreamRoundTrip(l: Link, ks: Schedule)
    requires Reachable(l, ks)
    ensures InStep(l.got, l.snd.out.log)
    ensures l.rcv.status.Closed? ==>
      && |l.got| < |l.snd.out.log|
      && Fault(l.base, l.snd.out.log[|l.got|], l.rcv.slot) == Some(l.rcv.status.why)
  {
    LinkedReachable(l, ks);
  }

  /** A call returns nothing only while the next packet is incomplete: as soon as
      all its bytes are there and it breaks no limit, it is returned. */
  lemma NothingOnlyWhileIncomplete(l: Link, ks: Schedule)
    requires Reachable(l, ks) && l.rcv.status.Open? && |l.got| < |l.snd.out.log|
    requires Fault(l.base, l.snd.out.log[|l.got|], l.rcv.slot).None?
    ensures var p := l.snd.out.log[|l.got|];
      && InShape(l.rcv) && Padded(l.base, p)
      && (Poll(l.rcv).1 == if Arrived(l.rcv, l.base) < |Wire(l.base, p)| then Nothing
                           else Got(p.msg, |l.got| % 0x1_0000_0000))
  {
    LinkedReachable(l, ks);
    var ps := l.snd.out.log[|l.got|..];
    PollOnWire(l.rcv, l.base, ps[0], l.snd.out.output, Encode(Next(l.base, ps[0], ks), ps[1..], ks), ks);
  }

  // ------------------------------------------------------------------ completeness

  /** No packet breaks a limit, given that keys are derived in time. */
  predicate Readable(c: Cursor, ps: seq<Packet>, ks: Schedule)
    decreases |ps|
  {
    ps != [] ==>
      && Fault(c, ps[0], Some(ks(c.epoch))).None?
      && Readable(Next(c, ps[0], ks), ps[1..], ks)
  }

  /** The reader derives keys if it has none, and polls; so `rounds` times. */
  function ReadRounds(l: Link, rounds: nat, ks: Schedule): (t: Link)
    requires InShape(l.rcv)
    decreases rounds
  {
    if rounds == 0 then l
    else ReadRounds(ReadStep(DeriveInStep(l, ks)), rounds - 1, ks)
  }

  lemma AllArrived(r: In, c: Cursor, p: Packet, tail: seq<Byte>)
    requires Padded(c, p) && Reading(r, c, p, [], tail)
    ensures Arrived(r, c) >= |Wire(c, p)|
  {
    assert r.input + [] == r.input;
  }

  lemma MustReturn(r: In, c: Cursor, p: Packet, tail: seq<Byte>, ks: Schedule, t: In, res: Polled)
    requires Padded(c, p) && Outcome(r, c, p, [], tail, ks, t, res)
    requires Arrived(r, c) >= |Wire(c, p)| && Fault(c, p, r.slot).None?
    ensures res.Got? && t.status.Open? && t.cursor == Next(c, p, ks)
  {
  }

  lemma PollReturns(o: Out, r: In, base: Cursor, got: seq<Delivery>, ks: Schedule)
    requires Linked(o, r, base, got, ks) && r.status.Open?
    requires o.output == [] && |got| < |o.log|
    requires Fault(base, o.log[|got|], r.slot).None?
    ensures var (t, res) := Poll(r);
      res.Got? && t.status.Open? && t.cursor == Next(base, o.log[|got|], ks)
  {
    var ps := o.log[|got|..];
    var tail := OnTheWayTail(r, base, ps, [], ks);
    PollOnWire(r, base, ps[0], [], tail, ks);
    AllArrived(r, base, ps[0], tail);
    MustReturn(r, base, ps[0], tail, ks, Poll(r).0, Poll(r).1);
  }

  /** With everything carried over, one round returns the next packet. */
  lemma RoundReturns(l: Link, ks: Schedule)
    requires Linked(l.snd.out, l.rcv, l.base, l.got, ks) && l.rcv.status.Open?
    requires l.snd.out.output == [] && |l.got| < |l.snd.out.log|
    requires Fault(l.base, l.snd.out.log[|l.got|], Some(ks(l.base.epoch))).None?
    ensures var t := ReadStep(DeriveInStep(l, ks));
      && t.rcv.status.Open? && t.snd == l.snd && |t.got| == |l.got| + 1
      && t.base == Next(l.base, l.snd.out.log[|l.got|], ks)
  {
    var d := DeriveInStep(l, ks);
    LinkedDeriveIn(l, ks);
    PollReturns(d.snd.out, d.rcv, d.base, d.got, ks);
  }

  lemma {:induction false} RoundsReturnAll(l: Link, ks: Schedule)
    requires Linked(l.snd.out, l.rcv, l.base, l.got, ks) && l.rcv.status.Open?
    requires l.snd.out.output == []
    requires Readable(l.base, l.snd.out.log[|l.got|..], ks)
    ensures var t := ReadRounds(l, |l.snd.out.log| - |l.got|, ks);
      InStep(t.got, l.snd.out.log) && |t.got| == |l.snd.out.log| && t.rcv.status.Open?
    decreases |l.snd.out.log| - |l.got|
  {
    hide Poll, Fault, Encode, OnTheWay;
    var log, n := l.snd.out.log, |l.got|;
    if n < |log| {
      var d := DeriveInStep(l, ks);
      var t := ReadStep(d);
      RoundReturns(l, ks);
      LinkedDeriveIn(l, ks);
      LinkedRead(d, ks);
      assert log[n..][1..] == log[n + 1..];
      RoundsReturnAll(t, ks);
    }
  }

  /** Whatever was sent and however it was cut up: once all bytes are across, and
      provided no packet breaks a limit, polling returns every packet sent. */
  lemma EverythingArrives(l: Link, ks: Schedule)
    requires Reachable(l, ks) && l.rcv.status.Open? && l.snd.out.output == []
    requires |l.got| <= |l.snd.out.log| ==> Readable(l.base, l.snd.out.log[|l.got|..], ks)
    ensures |l.got| <= |l.snd.out.log| && InShape(l.rcv)
    ensures var t := ReadRounds(l, |l.snd.out.log| - |l.got|, ks);
      InStep(t.got, l.snd.out.log) && |t.got| == |l.snd.out.log| && t.rcv.status.Open?
  {
    LinkedReachable(l, ks);
    RoundsReturnAll(l, ks);
  }

  // ------------------------------------------------ from the calls to the peer

  /** The messages asked for in a run, transport or not. */
  function AskedFor(actions: seq<Move>, transport: bool): (ms: seq<Message>) {
    if actions == [] then []
    else
      var a := actions[0];
      (if a.Ask? && (1 <= a.msg.kind <= 49) == transport then [a.msg] else []) + AskedFor(actions[1..], transport)
  }

  /** The messages returned, of either kind. */
  function Returned(got: seq<Delivery>, transport: bool): (ms: seq<Message>) {
    if got == [] then []
    else
      var n := |got| - 1;
      Returned(got[..n], transport) + if IsTransport(got[n].msg.kind) == transport then [got[n].msg] else []
  }

  lemma CarryKeeps(s: Sender, output: seq<Byte>)
    requires Invariant(s)
    ensures Invariant(s.(out := s.out.(output := output)))
  {
    hide Kept, Silent, Exchanging, Ordinary;
    var t := s.(out := s.out.(output := output));
    if s.out.ended {
      var e: nat :| RekeyQueue.Valid(s, e);
      assert RekeyQueue.Valid(t, e);
    }
  }

  /** What a sender has done with the calls made so far. */
  ghost predicate Doing(s: Sender, t: Sender, ordinary: seq<Message>, transport: seq<Message>) {
    && Answered(Left(t, true), Left(s, true) + transport, t.out.ended)
    && Answered(Left(t, false) + t.queue, Left(s, false) + s.queue + ordinary, t.out.ended)
  }

  lemma AnsweredLater(s: Sender, t: Sender, u: Sender, a: seq<Message>, b: seq<Message>,
                      c: seq<Message>, d: seq<Message>)
    requires !t.out.ended && Doing(s, t, a, b) && Doing(t, u, c, d)
    ensures Doing(s, u, a + c, b + d)
  {
    hide Left;
    assert Left(s, false) + s.queue + (a + c) == Left(s, false) + s.queue + a + c;
    assert Left(s, true) + (b + d) == Left(s, true) + b + d;
  }

  lemma AskDoes(s: Sender, m: Message)
    requires Invariant(s) && !s.out.ended
    ensures var t := PacketSend(s, m);
      if IsTransport(m.kind) then Doing(s, t, [], [m]) else Doing(s, t, [m], [])
  {
    hide Left, Settled, PacketSend, IsTransport;
    SendSends(s, m);
    assert Left(s, false) + s.queue + [] == Left(s, false) + s.queue && Left(s, true) + [] == Left(s, true);
  }

  lemma NothingDone(s: Sender, t: Sender)
    requires t.out.log == s.out.log && t.queue == s.queue
    ensures Doing(s, t, [], [])
  {
    LogOnly(s, t);
    assert Left(s, false) + s.queue + [] == Left(s, false) + s.queue && Left(s, true) + [] == Left(s, true);
  }

  lemma AskedForOne(m: Message)
    ensures AskedFor([Ask(m)], true) == if IsTransport(m.kind) then [m] else []
    ensures AskedFor([Ask(m)], false) == if IsTransport(m.kind) then [] else [m]
  {
    assert [Ask(m)][1..] == [];
  }

  lemma StepDoes(l: Link, a: Move, ks: Schedule)
    requires InShape(l.rcv) && Invariant(l.snd) && !l.snd.out.ended
    ensures Invariant(MoveStep(l, a, ks).snd)
    ensures Doing(l.snd, MoveStep(l, a, ks).snd, AskedFor([a], false), AskedFor([a], true))
  {
    hide Invariant, Doing, PacketSend, IsTransport, Poll;
    assert [a][1..] == [];
    match a
    case Ask(m) =>
      AskedForOne(m);
      AskDoes(l.snd, m);
      StepKeeps(l.snd, Send(m));
    case DeriveOut =>
      StepKeeps(l.snd, DeriveKeys(ks(l.snd.out.cursor.epoch)));
      NothingDone(l.snd, MoveStep(l, a, ks).snd);
    case Carry(count) =>
      var o := l.snd.out;
      CarryKeeps(l.snd, o.output[Min(count, |o.output|)..]);
      NothingDone(l.snd, MoveStep(l, a, ks).snd);
    case _ => NothingDone(l.snd, MoveStep(l, a, ks).snd);
  }

  lemma AskedForSplit(actions: seq<Move>, transport: bool)
    requires actions != []
    ensures AskedFor(actions, transport) == AskedFor([actions[0]], transport) + AskedFor(actions[1..], transport)
  {
    assert [actions[0]][1..] == [];
  }

  lemma {:induction false} MovesDo(l: Link, actions: seq<Move>, ks: Schedule)
    requires InShape(l.rcv) && Invariant(l.snd)
    ensures Doing(l.snd, Moves(l, actions, ks).snd, AskedFor(actions, false), AskedFor(actions, true))
    decreases |actions|
  {
    hide Invariant, MoveStep, Left;
    if actions == [] {
      NothingDone(l.snd, l.snd);
    } else if l.snd.out.ended {
      EndedMoves(l, actions, ks);
    } else {
      var t := MoveStep(l, actions[0], ks);
      StepDoes(l, actions[0], ks);
      MovesDo(t, actions[1..], ks);
      AskedForSplit(actions, false);
      AskedForSplit(actions, true);
      if t.snd.out.ended {
        EndedMoves(t, actions[1..], ks);
      } else {
        AnsweredLater(l.snd, t.snd, Moves(t, actions[1..], ks).snd, AskedFor([actions[0]], false),
                      AskedFor([actions[0]], true), AskedFor(actions[1..], false), AskedFor(actions[1..], true));
      }
    }
  }

  lemma EndedStep(l: Link, a: Move, ks: Schedule)
    requires InShape(l.rcv) && l.snd.out.ended
    ensures var t := MoveStep(l, a, ks).snd; t.out.ended && t.queue == l.snd.queue && t.out.log == l.snd.out.log
  {
    hide Poll;
  }

  lemma {:induction false} EndedMoves(l: Link, actions: seq<Move>, ks: Schedule)
    requires InShape(l.rcv) && l.snd.out.ended
    ensures var t := Moves(l, actions, ks).snd;
      t.out.ended && t.queue == l.snd.queue && Left(t, true) == Left(l.snd, true)
      && Left(t, false) == Left(l.snd, false)
    decreases |actions|
  {
    hide MoveStep, Left;
    if actions != [] {
      EndedStep(l, actions[0], ks);
      LogOnly(l.snd, MoveStep(l, actions[0], ks).snd);
      EndedMoves(MoveStep(l, actions[0], ks), actions[1..], ks);
    }
  }

  /** The reader's messages of a kind are the first of the sender's log. */
  lemma {:induction false} ReturnedFirst(got: seq<Delivery>, log: seq<Packet>, transport: bool)
    requires InStep(got, log)
    ensures Returned(got, transport) == OfKind(log[..|got|], transport)
    decreases |got|
  {
    hide OfKind, IsTransport;
    if got == [] {
      NoneOfKind(transport);
      assert log[..0] == [];
    } else {
      var n := |got| - 1;
      ReturnedFirst(got[..n], log, transport);
      assert log[..|got|] == log[..n] + [log[n]];
      OfKindSnoc(log[..n], log[n], transport);
    }
  }

  lemma NoneOfKind(transport: bool)
    ensures OfKind([], transport) == []
  {
  }

  lemma {:induction false} KindsPrefix(log: seq<Packet>, n: nat, transport: bool)
    requires n <= |log|
    ensures OfKind(log[..n], transport) <= OfKind(log, transport)
    decreases |log| - n
  {
    hide OfKind, IsTransport;
    if n == |log| {
      assert log[..n] == log;
    } else {
      KindsPrefix(log, n + 1, transport);
      assert log[..n + 1] == log[..n] + [log[n]];
      OfKindSnoc(log[..n], log[n], transport);
    }
  }

  /** From the calls of `packet_send` at one end to the returns of `packet_read_poll2` at
      the other: the transport messages returned are the first of those asked for, and
      so are the others, each kind in order; and once everything sent has arrived and
      nothing is held back, they are all of them. */
  lemma DeliveredAsAsked(random: nat -> U32, actions: seq<Move>, ks: Schedule)
    ensures var l := Moves(Initial(random), actions, ks);
      && Returned(l.got, true) <= AskedFor(actions, true)
      && Returned(l.got, false) <= AskedFor(actions, false)
      && (|l.got| == |l.snd.out.log| && !l.snd.out.ended && l.snd.queue == [] ==>
            Returned(l.got, true) == AskedFor(actions, true) && Returned(l.got, false) == AskedFor(actions, false))
  {
    hide MoveStep, AskedFor, Invariant, OfKind, Returned;
    var start, l := Initial(random), Moves(Initial(random), actions, ks);
    assert Reachable(l, ks);
    StreamRoundTrip(l, ks);
    FreshInvariant(random);
    MovesDo(start, actions, ks);
    NothingLeftYet(random);
    assert [] + AskedFor(actions, true) == AskedFor(actions, true);
    assert [] + [] + AskedFor(actions, false) == AskedFor(actions, false);
    ReturnedFirst(l.got, l.snd.out.log, true);
    ReturnedFirst(l.got, l.snd.out.log, false);
    KindsPrefix(l.snd.out.log, |l.got|, true);
    KindsPrefix(l.snd.out.log, |l.got|, false);
    if |l.got| == |l.snd.out.log| {
      assert l.snd.out.log[..|l.got|] == l.snd.out.log;
    }
  }

  lemma FreshInvariant(random: nat -> U32)
    ensures Invariant(Fresh(random))
  {
  }

  lemma NothingLeftYet(random: nat -> U32)
    ensures Left(Fresh(random), true) == [] && Left(Fresh(random), false) == [] && Fresh(random).queue == []
  {
  }
}
