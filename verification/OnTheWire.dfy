/** The bytes of a connection in terms of the block function and the MAC alone: what is
    sent under one set of keys, and what a reader lets pass (sections 6.3 and 6.4 of
    RFC 4253, section 4 of RFC 4344). */
module OnTheWire {
  import opened Options
  import opened Bytes
  import opened Messages
  import opened Cipher
  import opened Packets
  import Read = PacketSoundness

  /** `plain` is a packet carrying `m`: length, padding length, type, body, padding. */
  predicate IsPacket(plain: seq<Byte>, m: Message) {
    && 6 <= |plain| < TWO32 && GetU32(plain) == |plain| - 4
    && 4 <= plain[4] && 6 + plain[4] as int <= |plain|
    && plain[5] == m.kind && plain[6..|plain| - plain[4]] == m.body
  }

  /** At `i` stands the tag that `k.mac` makes of a sequence number and a packet. */
  predicate TagAt(w: seq<Byte>, i: nat, k: Keys, seqnr: U32, plain: seq<Byte>) {
    i + k.macLen <= |w| && forall j :: 0 <= j < k.macLen ==> w[i + j] == k.mac(seqnr, plain, j)
  }

  // ------------------------------------------------------------------- sending

  lemma PlainIsPacket(p: Packet)
    requires 4 <= |p.pad| < 256
    ensures IsPacket(Plain(p), p.msg)
  {
    hide PutU32;
    var w := Plain(p);
    var len := PutU32(PacketLength(p));
    GetU32Prefix(len, [|p.pad|, p.msg.kind] + p.msg.body + p.pad);
    assert w == len + ([|p.pad|, p.msg.kind] + p.msg.body + p.pad);
    assert w[4] == |p.pad| && w[5] == p.msg.kind && w[6..|w| - |p.pad|] == p.msg.body;
  }

  function Concat(parts: seq<seq<Byte>>): (w: seq<Byte>) {
    if parts == [] then [] else Concat(parts[..|parts| - 1]) + parts[|parts| - 1]
  }

  /** Each part with what follows it. */
  function Woven(parts: seq<seq<Byte>>, tags: seq<seq<Byte>>): (w: seq<Byte>)
    requires |parts| == |tags|
  {
    if parts == [] then []
    else
      var n := |parts| - 1;
      Woven(parts[..n], tags[..n]) + (parts[n] + tags[n])
  }

  /** `packet_send2_wrapped` for one message after another. */
  function SendAll(o: Out, ms: seq<Message>): (t: Out)
    decreases |ms|
  {
    if ms == [] then o
    else SendWrapped(SendAll(o, ms[..|ms| - 1]), ms[|ms| - 1])
  }

  lemma {:induction false} EndedBefore(o: Out, ms: seq<Message>)
    requires ms != [] && !SendAll(o, ms).ended
    ensures !SendAll(o, ms[..|ms| - 1]).ended
  {
  }

  lemma WovenSnoc(parts: seq<seq<Byte>>, tags: seq<seq<Byte>>, a: seq<Byte>, b: seq<Byte>)
    requires |parts| == |tags|
    ensures Woven(parts + [a], tags + [b]) == Woven(parts, tags) + (a + b)
    ensures Concat(parts + [a]) == Concat(parts) + a
  {
    assert (parts + [a])[..|parts|] == parts && (tags + [b])[..|tags|] == tags;
  }

  /** The cipher context after whole blocks. */
  lemma OneMore(aes: BlockFunction, iv: seq<Byte>, a: seq<Byte>, b: seq<Byte>)
    requires |a| % 16 == 0 && |b| % 16 == 0
    ensures CtrCrypt(aes, iv, a) + CtrCrypt(aes, CtrAfter(iv, |a|), b) == CtrCrypt(aes, iv, a + b)
    ensures CtrAfter(CtrAfter(iv, |a|), |b|) == CtrAfter(iv, |a + b|) && |a + b| % 16 == 0
  {
    hide CtrCrypt;
    CtrCryptConcat(aes, iv, a, b);
  }

  /** What is known after sending under `k`: the counter, the number, and the woven output. */
  ghost predicate Under(k: Keys, first: U32, before: seq<Byte>, t: Out,
                        parts: seq<seq<Byte>>, tags: seq<seq<Byte>>, plains: seq<seq<Byte>>) {
    && |parts| == |tags| == |plains| && |Concat(plains)| % 16 == 0
    && t.cursor.keys == Some(k) && t.cursor.ctr == CtrAfter(k.iv, |Concat(plains)|)
    && t.cursor.seqnr == (first + |plains|) % 0x1_0000_0000
    && t.output == before + Woven(parts, tags) && Concat(parts) == CtrCrypt(k.aes, k.iv, Concat(plains))
  }

  lemma SentOne(k: Keys, o: Out, m: Message)
    requires o.cursor.keys == Some(k) && !o.ended && m.kind != MSG_NEWKEYS && !SendWrapped(o, m).ended
    ensures var t, plain := SendWrapped(o, m), Plain(PacketFor(o, m));
      && |plain| % 16 == 0
      && t.output == o.output + (Crypt(o.cursor, plain) + MacOf(o.cursor, plain))
      && t.cursor.keys == Some(k) && t.cursor.ctr == CtrAfter(o.cursor.ctr, |plain|)
      && t.cursor.seqnr == (o.cursor.seqnr + 1) % 0x1_0000_0000
  {
    hide CtrCrypt, CtrAfter, MacOf, Plain, PacketFor;
    WholePacket(o, m);
  }

  lemma OneUnder(k: Keys, first: U32, before: seq<Byte>, o: Out, m: Message,
                 parts: seq<seq<Byte>>, tags: seq<seq<Byte>>, plains: seq<seq<Byte>>)
    requires Under(k, first, before, o, parts, tags, plains) && !o.ended && m.kind != MSG_NEWKEYS
    requires !SendWrapped(o, m).ended
    ensures var plain := Plain(PacketFor(o, m));
      Under(k, first, before, SendWrapped(o, m), parts + [Crypt(o.cursor, plain)],
            tags + [MacOf(o.cursor, plain)], plains + [plain])
  {
    hide CtrCrypt, CtrAfter, Concat, Woven, MacOf, Plain, PacketFor, SendWrapped;
    var plain := Plain(PacketFor(o, m));
    SentOne(k, o, m);
    OneMore(k.aes, k.iv, Concat(plains), plain);
    WovenSnoc(parts, tags, Crypt(o.cursor, plain), MacOf(o.cursor, plain));
    WovenSnoc(plains, tags, plain, []);
    assert before + Woven(parts, tags) + (Crypt(o.cursor, plain) + MacOf(o.cursor, plain))
        == before + (Woven(parts, tags) + (Crypt(o.cursor, plain) + MacOf(o.cursor, plain)));
  }

  lemma WholePacket(o: Out, m: Message)
    requires o.cursor.keys.Some?
    ensures |Plain(PacketFor(o, m))| % 16 == 0 && |Plain(PacketFor(o, m))| == 4 + PacketLength(PacketFor(o, m))
  {
    var p := PacketFor(o, m);
    assert Excess(16, 6 + |m.body| + |p.pad|) == 0;
  }

  /** The tags and packets sent, in primitive terms. */
  ghost predicate Sealed(k: Keys, first: U32, ms: seq<Message>, tags: seq<seq<Byte>>, plains: seq<seq<Byte>>) {
    && |tags| == |plains| == |ms|
    && forall i :: 0 <= i < |ms| ==>
         && |tags[i]| == k.macLen && TagAt(tags[i], 0, k, (first + i) % 0x1_0000_0000, plains[i])
         && IsPacket(plains[i], ms[i])
  }

  lemma SealedSnoc(k: Keys, first: U32, ms: seq<Message>, tags: seq<seq<Byte>>, plains: seq<seq<Byte>>,
                   m: Message, tag: seq<Byte>, plain: seq<Byte>)
    requires Sealed(k, first, ms, tags, plains)
    requires |tag| == k.macLen && TagAt(tag, 0, k, (first + |ms|) % 0x1_0000_0000, plain)
    requires IsPacket(plain, m)
    ensures Sealed(k, first, ms + [m], tags + [tag], plains + [plain])
  {
    hide IsPacket, TagAt;
  }

  lemma TagOf(c: Cursor, k: Keys, plain: seq<Byte>)
    requires c.keys == Some(k) && k.macEnabled
    ensures |MacOf(c, plain)| == k.macLen && TagAt(MacOf(c, plain), 0, k, c.seqnr, plain)
  {
  }

  lemma {:induction false} SentUnder(o: Out, k: Keys, ms: seq<Message>)
    returns (parts: seq<seq<Byte>>, tags: seq<seq<Byte>>, plains: seq<seq<Byte>>)
    requires o.cursor.keys == Some(k) && o.cursor.ctr == k.iv && k.macEnabled
    requires !SendAll(o, ms).ended && forall i :: 0 <= i < |ms| ==> ms[i].kind != MSG_NEWKEYS
    ensures Under(k, o.cursor.seqnr, o.output, SendAll(o, ms), parts, tags, plains)
    ensures Sealed(k, o.cursor.seqnr, ms, tags, plains)
    decreases |ms|
  {
    hide SendWrapped, Under, Sealed, Plain, PacketFor, MacOf, Crypt;
    if ms == [] {
      parts, tags, plains := [], [], [];
      NoneUnder(o, k);
    } else {
      var n := |ms| - 1;
      EndedBefore(o, ms);
      var ps, ts, qs := SentUnder(o, k, ms[..n]);
      var s, m := SendAll(o, ms[..n]), ms[n];
      var plain := Plain(PacketFor(s, m));
      OneUnder(k, o.cursor.seqnr, o.output, s, m, ps, ts, qs);
      UnderHas(k, o.cursor.seqnr, o.output, s, ps, ts, qs);
      SealedHas(k, o.cursor.seqnr, ms[..n], ts, qs);
      TagOf(s.cursor, k, plain);
      PacketIs(s, m);
      SealedSnoc(k, o.cursor.seqnr, ms[..n], ts, qs, m, MacOf(s.cursor, plain), plain);
      assert ms[..n] + [m] == ms;
      parts, tags, plains := ps + [Crypt(s.cursor, plain)], ts + [MacOf(s.cursor, plain)], qs + [plain];
    }
  }

  lemma PacketIs(o: Out, m: Message)
    ensures 4 <= |PacketFor(o, m).pad| < 256 && IsPacket(Plain(PacketFor(o, m)), m)
  {
    hide IsPacket, Plain;
    PlainIsPacket(PacketFor(o, m));
  }

  lemma UnderHas(k: Keys, first: U32, before: seq<Byte>, t: Out,
                 parts: seq<seq<Byte>>, tags: seq<seq<Byte>>, plains: seq<seq<Byte>>)
    requires Under(k, first, before, t, parts, tags, plains)
    ensures t.cursor.keys == Some(k) && t.cursor.seqnr == (first + |plains|) % 0x1_0000_0000
  {
  }

  lemma SealedHas(k: Keys, first: U32, ms: seq<Message>, tags: seq<seq<Byte>>, plains: seq<seq<Byte>>)
    requires Sealed(k, first, ms, tags, plains)
    ensures |plains| == |ms|
  {
  }

  lemma NoneUnder(o: Out, k: Keys)
    requires o.cursor.keys == Some(k) && o.cursor.ctr == k.iv
    ensures Under(k, o.cursor.seqnr, o.output, o, [], [], [])
    ensures Sealed(k, o.cursor.seqnr, [], [], [])
  {
    assert o.output + [] == o.output;
  }

  /** All that is sent under one set of keys.  Right after `set_newkeys` and up to the next
      NEWKEYS, the output grows by ciphertexts, each with its tag behind it; the
      ciphertexts together are one counter-mode stream from the IV over the packets
      together, so no block of the key stream serves twice; and tag `i` is the MAC of the
      sequence number, counting on, and the whole packet. */
  lemma OneStreamPerKey(o: Out, k: Keys, ms: seq<Message>)
    returns (parts: seq<seq<Byte>>, tags: seq<seq<Byte>>, plains: seq<seq<Byte>>)
    requires o.slot == Some(k) && k.macEnabled && !SendAll(SwitchedOut(o), ms).ended
    requires forall i :: 0 <= i < |ms| ==> ms[i].kind != MSG_NEWKEYS
    ensures |parts| == |tags| == |plains| == |ms|
    ensures SendAll(SwitchedOut(o), ms).output == o.output + Woven(parts, tags)
    ensures Concat(parts) == CtrCrypt(k.aes, k.iv, Concat(plains))
    ensures Sealed(k, o.cursor.seqnr, ms, tags, plains)
  {
    hide SendWrapped, Sealed, Woven, Concat, CtrCrypt;
    parts, tags, plains := SentUnder(SwitchedOut(o), k, ms);
    SealedHas(k, o.cursor.seqnr, ms, tags, plains);
  }

  // ----------------------------------------------------------------- receiving

  /** The bytes `w` are a packet with `m`, encrypted at `c` and with its own tag. */
  ghost predicate Authentic(w: seq<Byte>, c: Cursor, m: Message) {
    exists plain: seq<Byte> ::
      && IsPacket(plain, m) && |plain| <= |w|
      && w[..|plain|] == (if c.keys.Some? then CtrCrypt(c.keys.value.aes, c.ctr, plain) else plain)
      && (c.keys.Some? && c.keys.value.macEnabled ==> TagAt(w, |plain|, c.keys.value, c.seqnr, plain))
  }

  lemma EncodedIsAuthentic(w: seq<Byte>, c: Cursor, m: Message)
    requires Read.Encodes(w, c, m)
    ensures Authentic(w, c, m)
  {
    hide IsPacket, CtrCrypt, Plain, MacOf;
    var p: Packet :| p.msg == m && 4 <= |p.pad| < 256 && w == Wire(c, p);
    PlainIsPacket(p);
    var plain := Plain(p);
    assert w[..|plain|] == Crypt(c, plain);
    if c.keys.Some? && c.keys.value.macEnabled {
      TagOf(c, c.keys.value, plain);
      TagBehind(Crypt(c, plain), MacOf(c, plain), c.keys.value, c.seqnr, plain);
    }
  }

  lemma TagBehind(a: seq<Byte>, tag: seq<Byte>, k: Keys, seqnr: U32, plain: seq<Byte>)
    requires TagAt(tag, 0, k, seqnr, plain) && |a| == |plain|
    ensures TagAt(a + tag, |plain|, k, seqnr, plain)
  {
    forall j | 0 <= j < k.macLen ensures (a + tag)[|plain| + j] == k.mac(seqnr, plain, j) {
      assert (a + tag)[|plain| + j] == tag[0 + j];
    }
  }

  /** Nothing gets past a reader without its tag: in every run, over whatever bytes, each
      packet returned is there with the MAC of its own number and all its bytes,
      encrypted where the one before it ended. */
  lemma OnlyAuthenticReturned(arrivals: seq<Read.Arrival>, i: nat)
    requires i < |Read.Run(Read.FRESH, arrivals).taken|
    ensures var x := Read.Run(Read.FRESH, arrivals).taken[i];
      Authentic(x.wire, x.cursor, x.msg) && x.cursor.seqnr == i % 0x1_0000_0000
  {
    hide Authentic, Read.Encodes, Read.Step, Read.Chained;
    Read.ReaderIsSound(arrivals);
    var x := Read.Run(Read.FRESH, arrivals).taken[i];
    EncodedIsAuthentic(x.wire, x.cursor, x.msg);
  }

  /** If the only tags in the bytes taken for a packet are those made for the pairs in
      `made`, then what is returned is one of them, with its own sequence number. */
  lemma OnlyMadeIsReturned(arrivals: seq<Read.Arrival>, i: nat, k: Keys, made: iset<(U32, seq<Byte>)>)
    requires i < |Read.Run(Read.FRESH, arrivals).taken| && k.macEnabled
    requires var x := Read.Run(Read.FRESH, arrivals).taken[i];
      && x.cursor.keys == Some(k)
      && forall at: nat, seqnr: U32, plain: seq<Byte> ::
           TagAt(x.wire, at, k, seqnr, plain) ==> (seqnr, plain) in made
    ensures var x := Read.Run(Read.FRESH, arrivals).taken[i];
      exists plain: seq<Byte> :: (i % 0x1_0000_0000, plain) in made && IsPacket(plain, x.msg)
  {
    hide IsPacket, CtrCrypt, Read.Run, TagAt;
    OnlyAuthenticReturned(arrivals, i);
    var x := Read.Run(Read.FRESH, arrivals).taken[i];
    var plain: seq<Byte> :| IsPacket(plain, x.msg) && |plain| <= |x.wire|
                            && TagAt(x.wire, |plain|, k, x.cursor.seqnr, plain);
    assert (i % 0x1_0000_0000, plain) in made;
  }

  /** The decrypted first block says this length. */
  function SaidLength(k: Keys, ctr: seq<Byte>, x: seq<Byte>): (n: U32)
    requires |x| >= 16
  {
    GetU32(CtrCrypt(k.aes, ctr, x))
  }

  lemma FirstBlockSays(r: In, k: Keys, x: seq<Byte>, rest: seq<Byte>)
    requires r.status.Open? && r.length == 0 && r.cursor.keys == Some(k) && |x| >= 16 && r.input == x + rest
    ensures var b := BeginPacket(r); var q := CtrCrypt(k.aes, r.cursor.ctr, x);
      && b.incoming == q[..16] && b.length == SaidLength(k, r.cursor.ctr, x)
      && (b.status.Open? ==> b.input == x[16..] + rest && Crypt(b.cursor, x[16..]) == q[16..])
  {
    hide CtrCrypt;
    assert x == x[..16] + x[16..] && r.input[..16] == x[..16] && r.input[16..] == x[16..] + rest;
    CtrCryptConcat(k.aes, r.cursor.ctr, x[..16], x[16..]);
    var q := CtrCrypt(k.aes, r.cursor.ctr, x);
    assert q[..16] == CtrCrypt(k.aes, r.cursor.ctr, x[..16]);
    GetU32Prefix(q[..16], q[16..]);
    assert q[..16] + q[16..] == q;
  }

  /** A packet changed on the way, or moved to another place in the sequence.  The reader is
      handed any bytes `x` as long as the packet `plain`, then the tag made of `plain` and
      the number `seqnr`.  If `x` does not decrypt to that very packet at that very
      number, and the two do not have the same MAC by accident, nothing is returned and
      the connection is given up: for a length out of range, for its alignment, or, if the
      length is as it was, for its MAC.  Where the bytes are cut does not matter. */
  lemma ChangedIsRefused(r: In, k: Keys, seqnr: U32, plain: seq<Byte>, x: seq<Byte>, tag: seq<Byte>, rest: seq<Byte>)
    requires r.status.Open? && r.length == 0 && r.cursor.keys == Some(k) && k.macEnabled
    requires |x| == |plain| >= 16 && |tag| == k.macLen && TagAt(tag, 0, k, seqnr, plain) && r.input == x + tag + rest
    requires var q := CtrCrypt(k.aes, r.cursor.ctr, x);
      exists j :: 0 <= j < k.macLen && k.mac(r.cursor.seqnr, q, j) != k.mac(seqnr, plain, j)
    ensures var (t, res) := Poll(r); var n := SaidLength(k, r.cursor.ctr, x);
      && (n < 5 || n > 256 * 1024 ==> res.Nothing? && t.status == Closed(BadLength))
      && (5 <= n <= 256 * 1024 && (n + 4) % 16 != 0 ==> res.Nothing? && t.status == Closed(BadAlignment))
      && (5 <= n <= 256 * 1024 && n + 4 == |plain| && |plain| % 16 == 0 ==> res.Nothing? && t.status == Closed(BadMac))
  {
    hide CtrCrypt, GetU32, FinishPacket, BeginPacket;
    assert r.input == x + (tag + rest);
    FirstBlockSays(r, k, x, tag + rest);
    BeginStatus(r);
    var b := BeginPacket(r);
    if b.status.Open? {
      if (b.length + 4) % 16 != 0 {
        MisalignedEnds(b);
      } else if b.length + 4 == |plain| {
        WrongTagEnds(b, k, seqnr, plain, CtrCrypt(k.aes, r.cursor.ctr, x), x[16..], tag, rest);
      }
    }
  }

  lemma BeginStatus(r: In)
    requires r.status.Open? && r.length == 0 && |r.input| >= BlockSize(r.cursor.keys)
    ensures var b := BeginPacket(r);
      && (if b.length < 5 || b.length > 256 * 1024 then b.status == Closed(BadLength) else b.status.Open?)
      && b.cursor.keys == r.cursor.keys && b.cursor.seqnr == r.cursor.seqnr
      && |b.incoming| == BlockSize(r.cursor.keys)
  {
    hide Crypt, GetU32;
  }

  lemma MisalignedEnds(b: In)
    requires b.status.Open? && 5 <= b.length <= 256 * 1024 && b.cursor.keys.Some? && |b.incoming| == 16
    requires (b.length + 4) % 16 != 0
    ensures FinishPacket(b).1.Nothing? && FinishPacket(b).0.status == Closed(BadAlignment)
  {
    hide CheckMac;
  }

  lemma WrongTagEnds(b: In, k: Keys, seqnr: U32, plain: seq<Byte>, q: seq<Byte>, y: seq<Byte>,
                     tag: seq<Byte>, rest: seq<Byte>)
    requires b.status.Open? && 5 <= b.length <= 256 * 1024 && b.cursor.keys == Some(k) && k.macEnabled
    requires |b.incoming| == 16 && |q| == |plain| == b.length + 4 && (b.length + 4) % 16 == 0
    requires b.incoming == q[..16] && Crypt(b.cursor, y) == q[16..] && b.input == y + (tag + rest)
    requires |tag| == k.macLen && TagAt(tag, 0, k, seqnr, plain)
    requires exists j :: 0 <= j < k.macLen && k.mac(b.cursor.seqnr, q, j) != k.mac(seqnr, plain, j)
    ensures FinishPacket(b).1.Nothing? && FinishPacket(b).0.status == Closed(BadMac)
  {
    hide Crypt, Deliver, Counted;
    var need := b.length + 4 - 16;
    assert |y| == need && b.input[..need] == y && b.input[need..] == tag + rest && (tag + rest)[..k.macLen] == tag;
    assert b.incoming + Crypt(b.cursor, b.input[..need]) == q;
    var j :| 0 <= j < k.macLen && k.mac(b.cursor.seqnr, q, j) != k.mac(seqnr, plain, j);
    assert tag[0 + j] == k.mac(seqnr, plain, j) && MacOf(b.cursor, q)[j] == k.mac(b.cursor.seqnr, q, j);
  }
}
