/** The reader on arbitrary input: it returns only what was properly encoded. */
module PacketSoundness {
  import opened Options
  import opened Bytes
  import opened Messages
  import opened Cipher
  import opened Packets

  /** Some packet carrying `m`, with padding of its own, is what the bytes `w` are. */
  ghost predicate Encodes(w: seq<Byte>, c: Cursor, m: Message) {
    exists p: Packet :: p.msg == m && 4 <= |p.pad| < 256 && w == Wire(c, p)
  }

  /** Encrypting in one call undoes decryption in two. */
  lemma CryptJoins(c: Cursor, a: seq<Byte>, b: seq<Byte>)
    requires |a| == BlockSize(c.keys)
    ensures Crypt(c, Crypt(c, a) + Crypt(Skip(c, |a|), b)) == a + b
  {
    if c.keys.Some? {
      var aes := c.keys.value.aes;
      CtrCryptConcat(aes, c.ctr, a, b);
      CtrCryptTwice(aes, c.ctr, a + b);
    }
  }

  /** A decrypted packet of consistent lengths is the plain form of its parts. */
  lemma PlainOfParts(plain: seq<Byte>, padLen: Byte)
    requires 6 + padLen <= |plain| < 0xa0_0000 && plain[4] == padLen
    requires GetU32(plain) == |plain| - 4
    ensures Plain(Packet(Message(plain[5], plain[6..|plain| - padLen]), plain[|plain| - padLen..], 0)) == plain
  {
    PutU32Inverse(plain[..4]);
    GetU32Prefix(plain[..4], plain[4..]);
    assert plain[..4] + plain[4..] == plain;
    assert plain == plain[..4] + [plain[4], plain[5]] + plain[6..|plain| - padLen] + plain[|plain| - padLen..];
  }

  lemma DeliverParts(r: In, plain: seq<Byte>, seqnr: U32)
    requires 5 <= |plain| < 0xa0_0000 && Deliver(r, plain, seqnr).1.Got?
    ensures var (t, res) := Deliver(r, plain, seqnr);
      && 4 <= plain[4] && 6 + plain[4] as int <= |plain| && t.input == r.input && res.seqnr == seqnr
      && res.msg == Message(plain[5], plain[6..|plain| - plain[4]])
  {
  }

  predicate WellFormed(plain: seq<Byte>) {
    && 6 <= |plain| < 0xa0_0000 && GetU32(plain) == |plain| - 4
    && 4 <= plain[4] && 6 + plain[4] as int <= |plain|
  }

  function MessageOf(plain: seq<Byte>): (m: Message)
    requires WellFormed(plain)
  {
    Message(plain[5], plain[6..|plain| - plain[4]])
  }

  /** First block, rest and MAC together are the encoding of what they decrypt to. */
  lemma EncodedParts(c: Cursor, first: seq<Byte>, rest: seq<Byte>, plain: seq<Byte>)
    requires |first| == BlockSize(c.keys)
    requires plain == Crypt(c, first) + Crypt(Skip(c, |first|), rest) && WellFormed(plain)
    ensures Encodes(first + rest + MacOf(c, plain), c, MessageOf(plain))
  {
    CryptJoins(c, first, rest);
    PlainOfParts(plain, plain[4]);
    var p := Packet(MessageOf(plain), plain[|plain| - plain[4]..], 0);
    assert Wire(c, p) == first + rest + MacOf(c, plain);
  }

  /** `t` is `r` after the encoding of `res` was taken off its input. */
  ghost predicate Accepted(r: In, t: In, res: Polled) {
    && res.Got? && res.seqnr == r.cursor.seqnr && |t.input| <= |r.input|
    && var used := |r.input| - |t.input|;
       t.input == r.input[used..] && Encodes(r.input[..used], r.cursor, res.msg)
  }

  lemma AcceptedWhole(r: In, first: seq<Byte>, rest: seq<Byte>, mac: seq<Byte>, after: seq<Byte>, t: In, res: Polled)
    requires r.input == first + rest + mac + after && t.input == after
    requires res.Got? && res.seqnr == r.cursor.seqnr
    requires Encodes(first + rest + mac, r.cursor, res.msg)
    ensures Accepted(r, t, res)
  {
    var used := |first + rest + mac|;
    assert r.input[used..] == after && r.input[..used] == first + rest + mac;
  }

  lemma CutInFour(w: seq<Byte>, n: nat, need: nat, macLen: nat)
    requires |w| >= n + need + macLen
    ensures w == w[..n] + w[n..][..need] + w[n..][need..][..macLen] + w[n..][need..][macLen..]
  {
  }

  /** What a call that returns a packet has checked. */
  lemma CheckedParts(b: In, need: int) returns (plain: seq<Byte>)
    requires b.status.Open? && 5 <= b.length <= 256 * 1024
    requires |b.incoming| == BlockSize(b.cursor.keys) && GetU32(b.incoming) == b.length
    requires FinishPacket(b).1.Got?
    requires need == 4 + b.length - BlockSize(b.cursor.keys)
    ensures 0 <= need && |b.input| >= need + MacSize(b.cursor.keys)
    ensures plain == b.incoming + Crypt(b.cursor, b.input[..need]) && WellFormed(plain)
    ensures b.input[need..][..MacSize(b.cursor.keys)] == MacOf(b.cursor, plain)
    ensures var (t, res) := FinishPacket(b);
      && t.input == b.input[need..][MacSize(b.cursor.keys)..]
      && res == Got(MessageOf(plain), b.cursor.seqnr)
  {
    FinishedPacket(b, need);
    plain := b.incoming + Crypt(b.cursor, b.input[..need]);
    GetU32Prefix(b.incoming, Crypt(b.cursor, b.input[..need]));
    DeliverParts(b.(input := b.input[need..][MacSize(b.cursor.keys)..], cursor := Counted(b.cursor, need)),
                 plain, b.cursor.seqnr);
  }

  lemma AcceptedRest(r: In, b: In)
    requires r.status.Open? && r.length == 0 && |r.input| >= BlockSize(r.cursor.keys)
    requires b == BeginPacket(r) && b.status.Open? && FinishPacket(b).1.Got?
    ensures Accepted(r, FinishPacket(b).0, FinishPacket(b).1)
  {
    var n, macLen := BlockSize(r.cursor.keys), MacSize(r.cursor.keys);
    var need := 4 + b.length - n;
    var plain := CheckedParts(b, need);
    AcceptedJoined(r, b, n, need, macLen, plain, FinishPacket(b).0, FinishPacket(b).1);
  }

  lemma AcceptedJoined(r: In, b: In, n: nat, need: nat, macLen: nat, plain: seq<Byte>, t: In, res: Polled)
    requires n == BlockSize(r.cursor.keys) && macLen == MacSize(r.cursor.keys)
    requires |r.input| >= n + need + macLen && b.input == r.input[n..]
    requires plain == Crypt(r.cursor, r.input[..n]) + Crypt(Skip(r.cursor, n), b.input[..need])
    requires b.input[need..][..macLen] == MacOf(r.cursor, plain) && WellFormed(plain)
    requires t.input == b.input[need..][macLen..] && res == Got(MessageOf(plain), r.cursor.seqnr)
    ensures Accepted(r, t, res)
  {
    EncodedParts(r.cursor, r.input[..n], b.input[..need], plain);
    CutInFour(r.input, n, need, macLen);
    AcceptedWhole(r, r.input[..n], b.input[..need], MacOf(r.cursor, plain), t.input, t, res);
  }

  /** Whatever the input bytes are: a packet returned by a call at a packet
      boundary is preceded, byte for byte, by its own encoding at the reader's
      cursor: length, padding and MAC all agree. */
  lemma AcceptedIsEncoded(r: In)
    requires r.status.Open? && r.length == 0 && Poll(r).1.Got?
    ensures Accepted(r, Poll(r).0, Poll(r).1)
  {
    AcceptedRest(r, BeginPacket(r));
  }

  /** A call that returns a packet went all the way. */
  lemma FinishedPacket(r: In, need: int)
    requires r.status.Open? && 5 <= r.length <= 256 * 1024
    requires |r.incoming| == BlockSize(r.cursor.keys) && need == 4 + r.length - BlockSize(r.cursor.keys)
    requires FinishPacket(r).1.Got?
    ensures 0 <= need && |r.input| >= need + MacSize(r.cursor.keys)
    ensures var plain := r.incoming + Crypt(r.cursor, r.input[..need]);
      var macLen := MacSize(r.cursor.keys);
      && r.input[need..][..macLen] == MacOf(r.cursor, plain)
      && FinishPacket(r) == Deliver(r.(input := r.input[need..][macLen..],
                                       cursor := Counted(r.cursor, need)), plain, r.cursor.seqnr)
  {
  }

  // ------------------------------------------------------------------ resuming

  lemma DeliverEnds(r: In, plain: seq<Byte>, seqnr: U32)
    requires 5 <= |plain| < 0xa0_0000 && r.status.Open?
    ensures var (t, res) := Deliver(r, plain, seqnr);
      t.input == r.input && (res.Got? <==> t.status.Open?)
  {
  }

  lemma CheckMacEnds(r: In, need: nat)
    requires |r.input| >= need + MacSize(r.cursor.keys) && 5 <= |r.incoming| + need < 0xa0_0000 && r.status.Open?
    ensures var (t, res) := CheckMac(r, need);
      Front(r.input, t.input) && (res.Got? <==> t.status.Open?)
  {
    hide Deliver, MacOf, Crypt;
    var plain, macLen := r.incoming + Crypt(r.cursor, r.input[..need]), MacSize(r.cursor.keys);
    var after := r.(input := r.input[need..][macLen..], cursor := Counted(r.cursor, need));
    DeliverEnds(after, plain, r.cursor.seqnr);
    assert r.input[need..][macLen..] == r.input[need + macLen..];
  }

  /** A begun packet that is neither complete nor refused is left as it is. */
  lemma FinishEnds(r: In)
    requires r.status.Open? && 5 <= r.length <= 256 * 1024 && |r.incoming| == BlockSize(r.cursor.keys)
    ensures var (t, res) := FinishPacket(r);
      Front(r.input, t.input) && (res.Nothing? && t.status.Open? ==> t == r)
  {
    hide CheckMac;
    var n := BlockSize(r.cursor.keys);
    var need := if r.length + 4 < n then r.length + 4 - n + 0x1_0000_0000 else r.length + 4 - n;
    if Excess(n, need) == 0 && |r.input| >= need + MacSize(r.cursor.keys) {
      NeedInBounds(r.length, n);
      CheckMacEnds(r, need);
    }
  }

  lemma NeedInBounds(length: U32, n: nat)
    requires 5 <= length <= 256 * 1024 && (n == 8 || n == 16)
    ensures length + 4 >= n ==> 5 <= n + (length + 4 - n) < 0xa0_0000
  {
  }

  /** `b` is the end of `a`. */
  predicate Front(a: seq<Byte>, b: seq<Byte>) {
    |b| <= |a| && b == a[|a| - |b|..]
  }

  lemma FrontOfFront(a: seq<Byte>, b: seq<Byte>, c: seq<Byte>)
    requires Front(a, b) && Front(b, c)
    ensures Front(a, c)
  {
  }

  lemma BeginMore(r: In, more: seq<Byte>)
    requires r.status.Open? && r.length == 0 && |r.input| >= BlockSize(r.cursor.keys)
    ensures BeginPacket(r.(input := r.input + more)) == BeginPacket(r).(input := BeginPacket(r).input + more)
    ensures Front(r.input, BeginPacket(r).input)
  {
    hide GetU32, Crypt;
    var n := BlockSize(r.cursor.keys);
    assert (r.input + more)[..n] == r.input[..n] && (r.input + more)[n..] == r.input[n..] + more;
  }

  /** A call that waits loses nothing: called again with more input, the reader goes on
      as if all of it had been there at once. */
  lemma WaitingLosesNothing(r: In, more: seq<Byte>)
    requires InShape(r) && Poll(r).1.Nothing? && Poll(r).0.status.Open?
    ensures var t := Poll(r).0;
      Poll(t.(input := t.input + more)) == Poll(r.(input := r.input + more))
  {
    hide BeginPacket, FinishPacket;
    if r.length != 0 {
      FinishEnds(r);
    } else if |r.input| >= BlockSize(r.cursor.keys) {
      BeginMore(r, more);
      FinishEnds(BeginPacket(r));
    }
  }

  // --------------------------------------------------------------- whole runs

  /** What can happen to a reader: bytes come in, keys are derived, it is called. */
  datatype Arrival = Chunk(bytes: seq<Byte>) | Derived(keys: Keys) | Call

  /** A packet returned: the cursor it was read at, and its bytes. */
  datatype Taken = Taken(cursor: Cursor, msg: Message, wire: seq<Byte>)

  /** The reader, all bytes it was ever given, and what became of them; `base` is the
      cursor at the last packet boundary, `pending` what was consumed since. */
  datatype Session = Session(r: In, all: seq<Byte>, base: Cursor, pending: seq<Byte>, taken: seq<Taken>)

  const FRESH := Session(In(START, None, [], 0, [], Open), [], START, [], [])

  function Called(s: Session, t: In, res: Polled): (n: Session)
    requires |t.input| <= |s.pending| + |s.r.input|
  {
    var whole := s.pending + s.r.input;
    var used := whole[..|whole| - |t.input|];
    s.(r := t, base := if res.Got? then t.cursor else s.base,
       pending := if res.Got? then [] else used,
       taken := if res.Got? then s.taken + [Taken(s.base, res.msg, used)] else s.taken)
  }

  function Step(s: Session, a: Arrival): (t: Session)
    requires InShape(s.r)
    ensures InShape(t.r)
  {
    match a
    case Chunk(bytes) => s.(r := s.r.(input := s.r.input + bytes), all := s.all + bytes)
    case Derived(keys) => s.(r := s.r.(slot := Some(keys)))
    case Call =>
      var (t, res) := Poll(s.r);
      PollTakesFront(s.r);
      Called(s, t, res)
  }

  function Run(s: Session, arrivals: seq<Arrival>): (t: Session)
    requires InShape(s.r)
    decreases |arrivals|
  {
    if arrivals == [] then s else Run(Step(s, arrivals[0]), arrivals[1..])
  }

  /** What is left of the input is its end. */
  lemma PollTakesFront(r: In)
    requires InShape(r)
    ensures Front(r.input, Poll(r).0.input)
  {
    hide BeginPacket, FinishPacket;
    if r.status.Open? {
      if r.length != 0 {
        FinishEnds(r);
      } else if |r.input| >= BlockSize(r.cursor.keys) {
        BeginMore(r, []);
        var b := BeginPacket(r);
        if b.status.Open? {
          FinishEnds(b);
          FrontOfFront(r.input, b.input, FinishPacket(b).0.input);
        }
      }
    }
  }

  /** A call that waits has at most begun the packet. */
  lemma PollWaits(r: In)
    requires InShape(r) && Poll(r).1.Nothing? && Poll(r).0.status.Open?
    ensures var t := Poll(r).0;
      r.status.Open? && (t == r || (r.length == 0 && |r.input| >= BlockSize(r.cursor.keys) && t == BeginPacket(r)))
  {
    hide BeginPacket, FinishPacket;
    if r.length != 0 {
      FinishEnds(r);
    } else if |r.input| >= BlockSize(r.cursor.keys) {
      FinishEnds(BeginPacket(r));
    }
  }

  function Flat(taken: seq<Taken>): (w: seq<Byte>) {
    if taken == [] then [] else Flat(taken[..|taken| - 1]) + taken[|taken| - 1].wire
  }

  /** The cursor behind a packet: counted, and with new keys after a NEWKEYS only. */
  ghost predicate Behind(x: Taken, c: Cursor) {
    var len := |x.wire| - MacSize(x.cursor.keys);
    && len >= 0
    && if x.msg.kind == MSG_NEWKEYS then c.keys.Some? && c == Switched(Counted(x.cursor, len), c.keys.value)
       else c == Counted(x.cursor, len)
  }

  ghost predicate Chained(taken: seq<Taken>, base: Cursor) {
    if taken == [] then base == START
    else
      var n := |taken| - 1;
      Behind(taken[n], base) && Chained(taken[..n], taken[n].cursor)
  }

  ghost predicate AllEncoded(taken: seq<Taken>) {
    forall i :: 0 <= i < |taken| ==>
      && Encodes(taken[i].wire, taken[i].cursor, taken[i].msg)
      && taken[i].cursor.seqnr == i % 0x1_0000_0000
  }

  /** Between calls at most one first block is taken off the input and not returned. */
  ghost predicate Pending(r: In, base: Cursor, pending: seq<Byte>) {
    if r.length == 0 then pending == [] && r.cursor == base
    else
      && |pending| == BlockSize(base.keys) && r.incoming == Crypt(base, pending)
      && r.cursor == Skip(base, |pending|) && r.length == GetU32(r.incoming)
  }

  ghost predicate Sound(s: Session) {
    && InShape(s.r)
    && s.all == Flat(s.taken) + s.pending + s.r.input
    && AllEncoded(s.taken) && Chained(s.taken, s.base) && s.base.seqnr == |s.taken| % 0x1_0000_0000
    && (s.r.status.Open? ==> Pending(s.r, s.base, s.pending))
  }

  lemma ChunkSound(s: Session, bytes: seq<Byte>)
    requires Sound(s)
    ensures Sound(Step(s, Chunk(bytes)))
  {
    hide Flat, AllEncoded, Chained;
    assert Flat(s.taken) + s.pending + (s.r.input + bytes) == (Flat(s.taken) + s.pending + s.r.input) + bytes;
  }

  /** The reader as if it had not begun the packet. */
  function Rewound(s: Session): (r: In) {
    s.r.(length := 0, cursor := s.base, input := s.pending + s.r.input)
  }

  lemma RewoundSame(s: Session)
    requires InShape(s.r) && s.r.status.Open? && Pending(s.r, s.base, s.pending)
    ensures Poll(Rewound(s)) == Poll(s.r)
  {
    var rr, n := Rewound(s), BlockSize(s.base.keys);
    if s.r.length == 0 {
      assert rr.input == s.r.input;
    } else {
      assert rr.input[..n] == s.pending && rr.input[n..] == s.r.input;
      assert BeginPacket(rr) == s.r;
    }
  }

  lemma CountedInTwo(c: Cursor, n: nat, m: nat)
    requires n == BlockSize(c.keys)
    ensures Counted(Skip(c, n), m) == Counted(c, n + m)
  {
    if c.keys.Some? {
      CtrAfterTwo(c.ctr, n, m);
    }
  }

  lemma CtrAfterTwo(ctr: seq<Byte>, n: nat, m: nat)
    requires n == 16
    ensures CtrAfter(CtrAfter(ctr, n), m) == CtrAfter(ctr, n + m)
  {
    CtrCryptConcat((_, _) => 0, ctr, seq(n, _ => 0), seq(m, _ => 0));
  }

  lemma DeliverCursor(r: In, plain: seq<Byte>, seqnr: U32)
    requires 5 <= |plain| < 0xa0_0000 && Deliver(r, plain, seqnr).1.Got?
    ensures var (t, res) := Deliver(r, plain, seqnr);
      && t.length == 0 && t.status == r.status
      && if res.msg.kind == MSG_NEWKEYS then r.slot.Some? && t.cursor == Switched(r.cursor, r.slot.value)
         else t.cursor == r.cursor
  {
  }

  /** Where a call at a boundary that returns a packet leaves the reader. */
  lemma GotCursor(r: In)
    requires r.status.Open? && r.length == 0 && Poll(r).1.Got?
    ensures var (t, res) := Poll(r);
      && t.length == 0 && t.status.Open? && |t.input| <= |r.input|
      && Behind(Taken(r.cursor, res.msg, r.input[..|r.input| - |t.input|]), t.cursor)
  {
    hide Poll, Switched, Counted;
    GotLeaves(r);
    var (t, res) := Poll(r);
    var x := Taken(r.cursor, res.msg, r.input[..|r.input| - |t.input|]);
    var len := |r.input| - |t.input| - MacSize(r.cursor.keys);
    assert len == |x.wire| - MacSize(x.cursor.keys);
  }

  lemma GotLeaves(r: In)
    requires r.status.Open? && r.length == 0 && Poll(r).1.Got?
    ensures var (t, res) := Poll(r);
      var len := |r.input| - |t.input| - MacSize(r.cursor.keys);
      && t.length == 0 && t.status.Open? && len >= 0
      && if res.msg.kind == MSG_NEWKEYS
         then t.cursor.keys.Some? && t.cursor == Switched(Counted(r.cursor, len), t.cursor.keys.value)
         else t.cursor == Counted(r.cursor, len)
  {
    hide Crypt, MacOf, GetU32, Counted, Deliver;
    var n, macLen := BlockSize(r.cursor.keys), MacSize(r.cursor.keys);
    var b := BeginPacket(r);
    var need := 4 + b.length - n;
    FinishedPacket(b, need);
    var plain := b.incoming + Crypt(b.cursor, b.input[..need]);
    var d := b.(input := b.input[need..][macLen..], cursor := Counted(b.cursor, need));
    DeliverParts(d, plain, b.cursor.seqnr);
    DeliverCursor(d, plain, b.cursor.seqnr);
    CountedInTwo(r.cursor, n, need);
  }

  lemma FlatSnoc(taken: seq<Taken>, x: Taken)
    ensures Flat(taken + [x]) == Flat(taken) + x.wire
  {
    assert (taken + [x])[..|taken|] == taken;
  }

  lemma ChainedSnoc(taken: seq<Taken>, x: Taken, c: Cursor)
    requires Chained(taken, x.cursor) && Behind(x, c)
    ensures Chained(taken + [x], c)
  {
    assert (taken + [x])[..|taken|] == taken;
  }

  lemma GotSound(s: Session)
    requires Sound(s) && s.r.status.Open? && Poll(s.r).1.Got?
    ensures Sound(Step(s, Call))
  {
    hide Flat, AllEncoded, Chained, Poll, Encodes, Behind;
    RewoundSame(s);
    AcceptedIsEncoded(Rewound(s));
    GotCursor(Rewound(s));
    var (t, res) := Poll(s.r);
    PollTakesFront(s.r);
    Returned(s, t, res);
  }

  lemma Returned(s: Session, t: In, res: Polled)
    requires Sound(s) && s.r.status.Open? && Accepted(Rewound(s), t, res) && t.length == 0 && InShape(t)
    requires |t.input| <= |s.r.input|
    requires Behind(Taken(s.base, res.msg, (s.pending + s.r.input)[..|s.pending + s.r.input| - |t.input|]), t.cursor)
    ensures Sound(Called(s, t, res))
  {
    hide Flat, AllEncoded, Chained, Poll, Encodes, Behind, GetU32, Crypt, Skip;
    var whole := s.pending + s.r.input;
    var x := Taken(s.base, res.msg, whole[..|whole| - |t.input|]);
    FlatSnoc(s.taken, x);
    ChainedSnoc(s.taken, x, t.cursor);
    EncodedSnoc(s.taken, x);
    assert s.all == Flat(s.taken) + whole && whole == x.wire + t.input;
    assert Flat(s.taken) + (x.wire + t.input) == Flat(s.taken) + x.wire + [] + t.input;
    BehindCounts(x, t.cursor);
  }

  lemma EncodedSnoc(taken: seq<Taken>, x: Taken)
    requires AllEncoded(taken) && Encodes(x.wire, x.cursor, x.msg) && x.cursor.seqnr == |taken| % 0x1_0000_0000
    ensures AllEncoded(taken + [x])
  {
    hide Encodes;
  }

  lemma BehindCounts(x: Taken, c: Cursor)
    requires Behind(x, c)
    ensures c.seqnr == (x.cursor.seqnr + 1) % 0x1_0000_0000
  {
  }

  lemma WaitSound(s: Session)
    requires Sound(s) && Poll(s.r).1.Nothing?
    ensures Sound(Step(s, Call))
  {
    hide Flat, AllEncoded, Chained, Poll, BeginPacket;
    var t := Poll(s.r).0;
    PollTakesFront(s.r);
    var whole := s.pending + s.r.input;
    var used := whole[..|whole| - |t.input|];
    assert whole == used + t.input;
    assert s.all == Flat(s.taken) + whole;
    assert Flat(s.taken) + (used + t.input) == Flat(s.taken) + used + t.input;
    if t.status.Open? {
      PollWaits(s.r);
      if t == s.r {
        assert used == s.pending;
      } else {
        assert whole == s.r.input;
        BeginPending(s.r, t, used);
      }
    }
  }

  lemma BeginPending(r: In, t: In, used: seq<Byte>)
    requires r.status.Open? && r.length == 0 && |r.input| >= BlockSize(r.cursor.keys)
    requires t == BeginPacket(r) && t.status.Open? && r.input == used + t.input
    ensures Pending(t, r.cursor, used)
  {
    hide GetU32, Crypt;
    assert r.input[..BlockSize(r.cursor.keys)] == used;
  }

  lemma CallSound(s: Session)
    requires Sound(s)
    ensures Sound(Step(s, Call))
  {
    hide Poll, AllEncoded, Chained, Flat, Pending;
    if Poll(s.r).1.Got? {
      ClosedGetsNothing(s.r);
      GotSound(s);
    } else {
      WaitSound(s);
    }
  }

  lemma ClosedGetsNothing(r: In)
    requires InShape(r) && Poll(r).1.Got?
    ensures r.status.Open?
  {
  }

  lemma StepSound(s: Session, a: Arrival)
    requires Sound(s)
    ensures Sound(Step(s, a))
  {
    hide Flat, AllEncoded, Chained, Poll;
    match a
    case Chunk(bytes) => ChunkSound(s, bytes);
    case Derived(keys) =>
    case Call => CallSound(s);
  }

  lemma {:induction false} RunSound(s: Session, arrivals: seq<Arrival>)
    requires Sound(s)
    ensures Sound(Run(s, arrivals))
    decreases |arrivals|
  {
    hide Flat, AllEncoded, Chained, Step;
    if arrivals != [] {
      StepSound(s, arrivals[0]);
      RunSound(Step(s, arrivals[0]), arrivals[1..]);
    }
  }

  /** Whatever bytes come in, cut in whatever chunks, with keys derived whenever they
      are and calls made at any time: the bytes taken off the input are the encodings
      of the packets returned, end to end, each at the cursor behind the one before
      it and numbered from 0, with keys changing after a NEWKEYS only; and while
      the connection stands, at most one first block besides. */
  lemma ReaderIsSound(arrivals: seq<Arrival>)
    ensures var s := Run(FRESH, arrivals);
      && s.all == Flat(s.taken) + s.pending + s.r.input
      && AllEncoded(s.taken) && Chained(s.taken, s.base)
      && (s.r.status.Open? ==> |s.pending| == if s.r.length == 0 then 0 else BlockSize(s.base.keys))
  {
    hide Flat, AllEncoded, Chained, Step;
    FreshSound();
    RunSound(FRESH, arrivals);
  }

  lemma FreshSound()
    ensures Sound(FRESH)
  {
  }
}
