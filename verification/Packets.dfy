/** The binary packet protocol of CoreConnection.cpp, one direction at a time
    (sections 6 and 7.3 of RFC 4253).  Compression is always "none" there. */
module Packets {
  import opened Options
  import opened Bytes
  import opened Messages
  import opened Cipher

  /** SSH2_MSG_TRANSPORT_MIN to SSH2_MSG_TRANSPORT_MAX. */
  predicate IsTransport(kind: Byte) { 1 <= kind <= 49 }

  /** What the reader lets through: SSH2_MSG_MIN up to below SSH2_MSG_LOCAL_MIN. */
  predicate IsKnown(kind: Byte) { 1 <= kind < 192 }

  /** One direction's keys: a block function and IV for counter mode, and a keyed
      MAC giving byte `i` of the code for a sequence number and a packet. */
  datatype Keys = Keys(aes: BlockFunction, iv: seq<Byte>,
                       mac: (U32, seq<Byte>, int) -> Byte, macLen: nat, macEnabled: bool)

  /** Where one direction stands: its keys (none before the first NEWKEYS), the
      cipher's counter, the packet counters, and how many key switches came before. */
  datatype Cursor = Cursor(keys: Option<Keys>, ctr: seq<Byte>, seqnr: U32, packets: U32, epoch: nat)

  const START := Cursor(None, [], 0, 0, 0)

  function BlockSize(keys: Option<Keys>): (n: nat)
    ensures n == 8 || n == 16
  {
    if keys.None? then 8 else 16
  }

  function MacSize(keys: Option<Keys>): (n: nat) {
    if keys.Some? && keys.value.macEnabled then keys.value.macLen else 0
  }

  /** `mac_compute`, or nothing while no MAC is enabled. */
  function MacOf(c: Cursor, plain: seq<Byte>): (m: seq<Byte>)
    ensures |m| == MacSize(c.keys)
  {
    seq(MacSize(c.keys), (i: int) requires 0 <= i < MacSize(c.keys) =>
      c.keys.value.mac(c.seqnr, plain, i))
  }

  /** `cipher_crypt`, the same in both directions. */
  function Crypt(c: Cursor, data: seq<Byte>): (r: seq<Byte>)
    ensures |r| == |data|
  {
    if c.keys.None? then data else CtrCrypt(c.keys.value.aes, c.ctr, data)
  }

  /** The cursor after `cipher_crypt` took `len` bytes. */
  function Skip(c: Cursor, len: nat): (d: Cursor) {
    if c.keys.None? then c else c.(ctr := CtrAfter(c.ctr, len))
  }

  /** Decrypting in two calls, cut after the first block, undoes one encryption. */
  lemma CryptInTwo(c: Cursor, plain: seq<Byte>, n: nat)
    requires n == BlockSize(c.keys) <= |plain|
    ensures Crypt(c, Crypt(c, plain)[..n]) == plain[..n]
    ensures Crypt(Skip(c, n), Crypt(c, plain)[n..]) == plain[n..]
    ensures Skip(Skip(c, n), |plain| - n) == Skip(c, |plain|)
  {
    if c.keys.Some? {
      var aes, a, b := c.keys.value.aes, plain[..n], plain[n..];
      assert plain == a + b;
      CtrCryptConcat(aes, c.ctr, a, b);
      CtrCryptTwice(aes, c.ctr, a);
      CtrCryptTwice(aes, CtrAfter(c.ctr, n), b);
      assert Crypt(c, plain)[..n] == CtrCrypt(aes, c.ctr, a);
      assert Crypt(c, plain)[n..] == CtrCrypt(aes, CtrAfter(c.ctr, n), b);
    }
  }

  // ------------------------------------------------------------------- framing

  /** A payload fits the `Buffer` it is built in. */
  type Body = b: seq<Byte> | |b| < 0xa0_0000

  datatype Message = Message(kind: Byte, body: Body)

  /** A message as it left: with its padding, and stamped with its key epoch. */
  datatype Packet = Packet(msg: Message, pad: seq<Byte>, epoch: nat)

  /** `len % block_size`, for the two block sizes there are. */
  function Excess(blockSize: nat, len: nat): (r: nat) {
    if blockSize == 8 then len % 8 else len % 16
  }

  lemma ExcessPadded(n: nat, len: nat)
    requires n == 8 || n == 16
    ensures Excess(n, len) < n
    ensures Excess(n, len + n - Excess(n, len)) == 0
    ensures Excess(n, len + n - Excess(n, len) + n) == 0
  {
    if n == 8 {
      assert len == 8 * (len / 8) + len % 8;
    } else {
      assert len == 16 * (len / 16) + len % 16;
    }
  }

  function PadLen(blockSize: nat, len: nat): (p: nat)
    requires blockSize == 8 || blockSize == 16
    ensures 4 <= p < 20 && Excess(blockSize, len + p) == 0
  {
    ExcessPadded(blockSize, len);
    var p := blockSize - Excess(blockSize, len);
    if p < 4 then p + blockSize else p
  }

  predicate Padded(c: Cursor, p: Packet) {
    |p.pad| == PadLen(BlockSize(c.keys), 6 + |p.msg.body|)
  }

  function PacketLength(p: Packet): (n: nat) {
    |p.msg.body| + |p.pad| + 2
  }

  function Plain(p: Packet): (w: seq<Byte>)
    requires |p.pad| < 256
    ensures |w| == 4 + PacketLength(p)
  {
    PutU32(PacketLength(p)) + [|p.pad|, p.msg.kind] + p.msg.body + p.pad
  }

  function Wire(c: Cursor, p: Packet): (w: seq<Byte>)
    requires |p.pad| < 256
    ensures |w| == 4 + PacketLength(p) + MacSize(c.keys)
  {
    Crypt(c, Plain(p)) + MacOf(c, Plain(p))
  }

  /** The cursor behind a packet of `len` bytes, before any key switch. */
  function Counted(c: Cursor, len: nat): (d: Cursor) {
    Skip(c, len).(seqnr := (c.seqnr + 1) % 0x1_0000_0000, packets := (c.packets + 1) % 0x1_0000_0000)
  }

  /** `set_newkeys`: a fresh cipher context; the sequence number runs on. */
  function Switched(c: Cursor, k: Keys): (d: Cursor) {
    c.(keys := Some(k), ctr := k.iv, packets := 0, epoch := c.epoch + 1)
  }

  // -------------------------------------------------------------------- sending

  /** The packet level of the sending side.  `random` is what the generator will
      return, `drawn` how far it was read; `log` is what was sent so far. */
  datatype Out = Out(cursor: Cursor, slot: Option<Keys>, output: seq<Byte>, ended: bool,
                     random: nat -> U32, drawn: nat, log: seq<Packet>)

  /** Byte `i` of the padding: each word yields four bytes, low byte first. */
  function RandomPad(random: nat -> U32, drawn: nat, n: nat): (pad: seq<Byte>)
    ensures |pad| == n
  {
    seq(n, (i: int) requires 0 <= i < n => RandomByte(random(drawn + i / 4), i % 4))
  }

  function RandomByte(word: U32, k: int): (b: Byte) {
    match k
    case 0 => word % 256
    case 1 => word / 0x100 % 256
    case 2 => word / 0x1_0000 % 256
    case _ => word / 0x100_0000
  }

  function PacketFor(o: Out, m: Message): (p: Packet)
    ensures Padded(o.cursor, p) && p.msg == m && p.epoch == o.cursor.epoch
  {
    var n := PadLen(BlockSize(o.cursor.keys), 6 + |m.body|);
    Packet(m, if o.cursor.keys.Some? then RandomPad(o.random, o.drawn, n) else Zeros(n),
           o.cursor.epoch)
  }

  /** Lines 904-981: pad, authenticate, encrypt, count. */
  function Emitted(o: Out, m: Message): (r: Out) {
    var p := PacketFor(o, m);
    o.(output := o.output + Wire(o.cursor, p), log := o.log + [p],
       drawn := o.drawn + if o.cursor.keys.Some? then (|p.pad| + 3) / 4 else 0,
       cursor := Counted(o.cursor, 4 + PacketLength(p)))
  }

  /** `set_newkeys` for MODE_OUT: without derived keys the process ends. */
  function SwitchedOut(o: Out): (r: Out) {
    if o.slot.None? then o.(ended := true)
    else o.(cursor := Switched(o.cursor, o.slot.value), slot := None)
  }

  /** `packet_send2_wrapped`.  The process ends after 2^32 packets under one key. */
  function SendWrapped(o: Out, m: Message): (r: Out)
  {
    if o.ended then o else
    var sent := Emitted(o, m);
    if sent.cursor.packets == 0 then sent.(ended := true)
    else if m.kind == MSG_NEWKEYS then SwitchedOut(sent)
    else sent
  }

  // ------------------------------------------------------------------ receiving

  /** Why the connection was given up. */
  datatype Why = BadLength | BadAlignment | BadMac | TooManyPackets | BadPadding | BadType | NoKeys

  datatype Status = Open | Closed(why: Why)

  /** The receiving side between two calls of `packet_read_poll2`; `length` is
      `poll2_packet_length`, zero when no packet is begun. */
  datatype In = In(cursor: Cursor, slot: Option<Keys>, input: seq<Byte>,
                   length: U32, incoming: seq<Byte>, status: Status)

  datatype Polled = Nothing | Got(msg: Message, seqnr: U32)

  /** Lines 333-361: decrypt the first block and learn the length. */
  function BeginPacket(r: In): (t: In)
    requires r.status.Open? && r.length == 0 && |r.input| >= BlockSize(r.cursor.keys)
    ensures t.status.Open? ==> 5 <= t.length <= 256 * 1024 && |t.incoming| == BlockSize(t.cursor.keys)
  {
    var n := BlockSize(r.cursor.keys);
    var head := Crypt(r.cursor, r.input[..n]);
    var t := r.(incoming := head, length := GetU32(head), cursor := Skip(r.cursor, n));
    if t.length < 1 + 4 || t.length > 256 * 1024 then t.(status := Closed(BadLength))
    else t.(input := r.input[n..])
  }

  /** Lines 363-453: wait for the rest, check the MAC, strip the padding. */
  function FinishPacket(r: In): (res: (In, Polled))
    requires r.status.Open? && 5 <= r.length <= 256 * 1024
    requires |r.incoming| == BlockSize(r.cursor.keys)
    ensures InShape(res.0)
  {
    var n := BlockSize(r.cursor.keys);
    var need := if r.length + 4 < n then r.length + 4 - n + 0x1_0000_0000 else r.length + 4 - n; // unsigned
    if Excess(n, need) != 0 then (r.(status := Closed(BadAlignment)), Nothing)
    else if |r.input| < need + MacSize(r.cursor.keys) then (r, Nothing)
    else CheckMac(r, need)
  }

  /** Lines 374-413: the whole packet is there, `need` bytes of it still encrypted. */
  function CheckMac(r: In, need: nat): (res: (In, Polled))
    requires |r.input| >= need + MacSize(r.cursor.keys) && 5 <= |r.incoming| + need < 0xa0_0000
    ensures InShape(res.0)
  {
    var plain := r.incoming + Crypt(r.cursor, r.input[..need]);
    var after := r.input[need..];
    var macLen := MacSize(r.cursor.keys);
    if after[..macLen] != MacOf(r.cursor, plain) then (r.(status := Closed(BadMac)), Nothing)
    else
      Deliver(r.(input := after[macLen..], cursor := Counted(r.cursor, need)), plain, r.cursor.seqnr)
  }

  /** Lines 409-453, on a whole decrypted packet.  Padding that leaves no room for
      a type is fatal in the buffer functions it is stripped with. */
  function Deliver(r: In, plain: seq<Byte>, seqnr: U32): (res: (In, Polled))
    requires 5 <= |plain| < 0xa0_0000
    ensures InShape(res.0)
  {
    var padLen: int := plain[4];
    if r.cursor.packets == 0 then (r.(status := Closed(TooManyPackets)), Nothing)
    else if padLen < 4 || |plain| - 5 < padLen || |plain| - 5 - padLen < 1 then
      (r.(status := Closed(BadPadding)), Nothing)
    else
      var m := Message(plain[5], plain[6..|plain| - padLen]);
      if !IsKnown(m.kind) then (r.(status := Closed(BadType)), Nothing)
      else if m.kind == MSG_NEWKEYS && r.slot.None? then (r.(status := Closed(NoKeys)), Nothing)
      else
        var t := r.(length := 0, incoming := m.body);
        (if m.kind == MSG_NEWKEYS
         then t.(cursor := Switched(t.cursor, r.slot.value), slot := None) else t,
         Got(m, seqnr))
  }

  /** `packet_read_poll2`. */
  function Poll(r: In): (res: (In, Polled))
    requires InShape(r)
    ensures InShape(res.0)
  {
    if r.status.Closed? then (r, Nothing)
    else if r.length != 0 then FinishPacket(r)
    else if |r.input| < BlockSize(r.cursor.keys) then (r, Nothing)
    else
      var t := BeginPacket(r);
      if t.status.Closed? then (t, Nothing) else FinishPacket(t)
  }

  /** A packet begun has its first block decrypted and a length in range. */
  predicate InShape(r: In) {
    r.status.Open? && r.length != 0 ==>
      5 <= r.length <= 256 * 1024 && |r.incoming| == BlockSize(r.cursor.keys)
  }
}
