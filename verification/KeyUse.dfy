/** What each packet takes from its key and from the generator: padding no longer than
    need be, of bytes drawn once, and no more than 2^32 packets under one key
    (section 6 of RFC 4253, section 3.1 of RFC 4344). */
module KeyUse {
  import opened Bytes
  import opened Messages
  import opened Packets
  import opened RekeyQueue

  /** How many packets of a log went out under one key. */
  function UnderKey(log: seq<Packet>, epoch: nat): (n: nat) {
    if log == [] then 0
    else
      var k := |log| - 1;
      UnderKey(log[..k], epoch) + if log[k].epoch == epoch then 1 else 0
  }

  /** How many words of the generator the padding of a log took: none before the first key. */
  function Words(log: seq<Packet>): (n: nat) {
    if log == [] then 0
    else
      var k := |log| - 1;
      Words(log[..k]) + if log[k].epoch == 0 then 0 else (|log[k].pad| + 3) / 4
  }

  lemma LogSnoc(log: seq<Packet>, p: Packet, epoch: nat)
    ensures UnderKey(log + [p], epoch) == UnderKey(log, epoch) + if p.epoch == epoch then 1 else 0
    ensures Words(log + [p]) == Words(log) + if p.epoch == 0 then 0 else (|p.pad| + 3) / 4
  {
    assert (log + [p])[..|log|] == log;
  }

  /** The padding is the generator's next bytes, low byte of each word first; zeros before
      the first key. */
  predicate PadDrawn(p: Packet, random: nat -> U32, from: nat) {
    forall j :: 0 <= j < |p.pad| ==>
      p.pad[j] == if p.epoch == 0 then 0 else PutU32(random(from + j / 4))[3 - j % 4]
  }

  /** It is the shortest of at least four bytes that fills a block: 16 bytes under a key,
      8 before. */
  predicate PadLeast(p: Packet) {
    var whole := 6 + |p.msg.body| + |p.pad|;
    4 <= |p.pad| && if p.epoch == 0 then |p.pad| < 12 && whole % 8 == 0 else |p.pad| < 20 && whole % 16 == 0
  }

  // ------------------------------------------------------------------- padding

  predicate Drawn(o: Out) {
    && o.drawn == Words(o.log) && (o.cursor.keys.Some? <==> o.cursor.epoch > 0)
    && forall i :: 0 <= i < |o.log| ==> PadDrawn(o.log[i], o.random, Words(o.log[..i])) && PadLeast(o.log[i])
  }

  lemma LowByte(high: nat, low: Byte)
    ensures (high * 0x100 + low) % 256 == low && (high * 0x100 + low) / 256 == high
  {
  }

  lemma WordBytes(word: U32, k: int)
    requires 0 <= k < 4
    ensures RandomByte(word, k) == PutU32(word)[3 - k]
  {
    hide PutU32;
    var p := PutU32(word);
    var two := p[0] as int * 0x100 + p[1] as int;
    var three := two * 0x100 + p[2] as int;
    LowByte(three, p[3]);
    LowByte(two, p[2]);
    LowByte(p[0], p[1]);
    assert word == three * 0x100 + p[3] as int;
    assert word / 0x1_0000 == word / 256 / 256 && word / 0x100_0000 == word / 256 / 256 / 256;
  }

  lemma PadByte(o: Out, m: Message, j: nat)
    requires j < |PacketFor(o, m).pad| && (o.cursor.keys.Some? <==> o.cursor.epoch > 0)
    ensures var p := PacketFor(o, m);
      p.pad[j] == if p.epoch == 0 then 0 else PutU32(o.random(o.drawn + j / 4))[3 - j % 4]
  {
    hide RandomByte, PutU32, PadLen;
    if o.cursor.keys.Some? {
      WordBytes(o.random(o.drawn + j / 4), j % 4);
    }
  }

  lemma PacketDrawn(o: Out, m: Message)
    requires o.cursor.keys.Some? <==> o.cursor.epoch > 0
    ensures PadDrawn(PacketFor(o, m), o.random, o.drawn)
  {
    hide PacketFor, PutU32;
    var p := PacketFor(o, m);
    forall j | 0 <= j < |p.pad|
      ensures p.pad[j] == if p.epoch == 0 then 0 else PutU32(o.random(o.drawn + j / 4))[3 - j % 4]
    {
      PadByte(o, m, j);
    }
  }

  lemma PacketLeast(o: Out, m: Message)
    requires o.cursor.keys.Some? <==> o.cursor.epoch > 0
    ensures PadLeast(PacketFor(o, m))
  {
    hide RandomPad;
    var len := 6 + |m.body|;
    assert |PacketFor(o, m).pad| == PadLen(BlockSize(o.cursor.keys), len);
    ExcessPadded(BlockSize(o.cursor.keys), len);
  }

  lemma SendEffect(o: Out, m: Message)
    requires !o.ended
    ensures var t, p := SendWrapped(o, m), PacketFor(o, m);
      && t.log == o.log + [p] && t.random == o.random
      && t.drawn == o.drawn + (if o.cursor.keys.Some? then (|p.pad| + 3) / 4 else 0)
      && (t.cursor.epoch == o.cursor.epoch ==> t.cursor.keys.Some? == o.cursor.keys.Some?)
      && (t.cursor.epoch != o.cursor.epoch ==>
            t.cursor.epoch == o.cursor.epoch + 1 && t.cursor.keys.Some? && t.cursor.packets == 0
            && o.cursor.packets + 1 < TWO32)
      && (t.cursor.epoch == o.cursor.epoch && !t.ended ==> t.cursor.packets == o.cursor.packets + 1)
      && (t.ended ==> t.cursor.epoch == o.cursor.epoch && (o.cursor.packets + 1 == TWO32 || m.kind == MSG_NEWKEYS))
  {
    hide PacketFor, Wire;
  }

  lemma SendEnded(o: Out, m: Message)
    requires o.ended
    ensures SendWrapped(o, m) == o
  {
  }

  lemma SendDrawn(o: Out, m: Message)
    requires Drawn(o)
    ensures Drawn(SendWrapped(o, m))
  {
    hide PacketFor, SendWrapped, PadDrawn, PadLeast, Words;
    if o.ended {
      SendEnded(o, m);
    } else {
      var t, p := SendWrapped(o, m), PacketFor(o, m);
      SendEffect(o, m);
      PacketDrawn(o, m);
      PacketLeast(o, m);
      LogSnoc(o.log, p, 0);
      forall i | 0 <= i < |t.log| ensures PadDrawn(t.log[i], t.random, Words(t.log[..i])) && PadLeast(t.log[i]) {
        assert t.log[..i] == o.log[..i];
        if i == |o.log| {
          assert o.log[..i] == o.log;
        }
      }
    }
  }

  // ----------------------------------------------------------- packets per key

  ghost predicate Counts(o: Out) {
    && (forall e: nat :: UnderKey(o.log, e) <= TWO32)
    && (forall e: nat :: e > o.cursor.epoch ==> UnderKey(o.log, e) == 0)
    && (!o.ended ==> UnderKey(o.log, o.cursor.epoch) == o.cursor.packets)
    && (o.ended ==> UnderKey(o.log, o.cursor.epoch) == TWO32
                    || (o.log != [] && o.log[|o.log| - 1].msg.kind == MSG_NEWKEYS))
  }

  lemma SendCounts(o: Out, m: Message)
    requires Counts(o)
    ensures Counts(SendWrapped(o, m))
  {
    hide PacketFor, SendWrapped, UnderKey;
    if o.ended {
      SendEnded(o, m);
    } else {
      var t, p := SendWrapped(o, m), PacketFor(o, m);
      SendEffect(o, m);
      forall e: nat ensures UnderKey(t.log, e) == UnderKey(o.log, e) + if e == o.cursor.epoch then 1 else 0 {
        LogSnoc(o.log, p, e);
      }
    }
  }

  // -------------------------------------------------------------------- all runs

  ghost predicate Orderly(o: Out) {
    Drawn(o) && Counts(o)
  }

  lemma {:induction false} FlushOrderly(s: Sender)
    requires Orderly(s.out)
    ensures Orderly(Flush(s).out) && Flush(s).out.random == s.out.random
    decreases |s.queue|
  {
    hide Drawn, Counts, SendWrapped;
    if s.queue != [] && !s.out.ended {
      SendDrawn(s.out, s.queue[0]);
      SendCounts(s.out, s.queue[0]);
      SendEffect(s.out, s.queue[0]);
      FlushOrderly(s.(queue := s.queue[1..], out := SendWrapped(s.out, s.queue[0])));
    }
  }

  lemma StepOrderly(s: Sender, a: Action)
    requires Orderly(s.out)
    ensures Orderly(Step(s, a).out) && Step(s, a).out.random == s.out.random
  {
    hide SendWrapped, Flush, PadDrawn, PadLeast, Words, UnderKey;
    match a
    case DeriveKeys(k) =>
    case Send(m) =>
      if !s.out.ended && !(s.rekeying && !IsTransport(m.kind)) {
        SendDrawn(s.out, m);
        SendCounts(s.out, m);
        SendEffect(s.out, m);
        var c := SendNow(s, m);
        if m.kind == MSG_NEWKEYS && !c.out.ended {
          FlushOrderly(c.(rekeying := false));
        }
      }
  }

  lemma {:induction false} RunOrderly(s: Sender, actions: seq<Action>)
    requires Orderly(s.out)
    ensures Orderly(Run(s, actions).out) && Run(s, actions).out.random == s.out.random
    decreases |actions|
  {
    hide Orderly, Step;
    if actions != [] {
      StepOrderly(s, actions[0]);
      RunOrderly(Step(s, actions[0]), actions[1..]);
    }
  }

  /** In every run, each packet's padding is the shortest that fills its last block, and its
      bytes are those of the generator, in order, no word of it used for two packets. */
  lemma PaddingIsFresh(random: nat -> U32, actions: seq<Action>, i: nat)
    requires i < |Run(Fresh(random), actions).out.log|
    ensures var log := Run(Fresh(random), actions).out.log;
      PadDrawn(log[i], random, Words(log[..i])) && PadLeast(log[i])
  {
    hide Step, PadDrawn, PadLeast, Words;
    FreshOrderly(random);
    RunOrderly(Fresh(random), actions);
  }

  lemma FreshOrderly(random: nat -> U32)
    ensures Orderly(Fresh(random).out) && Fresh(random).out.random == random
  {
  }

  /** In every run no key is used for more than 2^32 packets: while the process runs, for
      fewer; and it ends only there, or at a NEWKEYS without new keys. */
  lemma KeysAreRetired(random: nat -> U32, actions: seq<Action>, epoch: nat)
    ensures var o := Run(Fresh(random), actions).out;
      && UnderKey(o.log, epoch) <= TWO32
      && (!o.ended ==> UnderKey(o.log, o.cursor.epoch) < TWO32)
      && (o.ended ==> UnderKey(o.log, o.cursor.epoch) == TWO32
                      || (o.log != [] && o.log[|o.log| - 1].msg.kind == MSG_NEWKEYS))
  {
    hide Step, UnderKey, Drawn;
    FreshOrderly(random);
    RunOrderly(Fresh(random), actions);
  }
}
