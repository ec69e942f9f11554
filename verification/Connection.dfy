/** The packet methods of `CoreConnection`, updating its fields in place, each
    proved against its function in Packets and RekeyQueue.  The two directions
    share no field and are two classes here. */
module Connection {
  import opened Options
  import opened Bytes
  import opened Messages
  import opened Cipher
  import opened Packets
  import opened RekeyQueue

  /** A word after `k` of its bytes were used. */
  function Shifted(word: U32, k: nat): (w: U32) {
    match k
    case 0 => word
    case 1 => word / 0x100
    case 2 => word / 0x1_0000
    case _ => word / 0x100_0000
  }

  lemma EmittedFields(o: Out, m: Message)
    ensures var p, r := PacketFor(o, m), Emitted(o, m);
      && r.output == o.output + Wire(o.cursor, p) && r.cursor == Counted(o.cursor, 4 + PacketLength(p))
      && r.drawn == o.drawn + (if o.cursor.keys.Some? then (|p.pad| + 3) / 4 else 0)
      && r.slot == o.slot && r.ended == o.ended && r.random == o.random
  {
    hide PacketFor, Counted;
  }

  /** A MAC as `mac_compute` fills it in. */
  method MacCompute(k: Keys, seqnr: U32, data: seq<Byte>) returns (m: seq<Byte>)
    ensures forall c: Cursor :: c.keys == Some(k) && c.seqnr == seqnr && k.macEnabled ==> m == MacOf(c, data)
  {
    m := seq(k.macLen, (i: int) requires 0 <= i < k.macLen => k.mac(seqnr, data, i));
  }

  class Writer {
    var keys: Option<Keys>           // newkeys[MODE_OUT]
    var counter: array<Byte>         // the counter in send_context
    var seqnr: U32                   // p_send.seqnr
    var packets: U32                 // p_send.packets
    var slot: Option<Keys>           // current_keys[MODE_OUT]
    var output: seq<Byte>
    var rekeying: bool               // send2_rekeying
    var outgoing: seq<Message>
    var ended: bool                  // the process has exited
    const random: nat -> U32         // what arc4random will return
    var drawn: nat
    ghost var out: Out               // the packet level these fields hold
    ghost var asked: seq<Asked>

    ghost predicate CursorIs(c: Cursor)
      reads this, counter
    {
      keys == c.keys && counter[..] == c.ctr && seqnr == c.seqnr && packets == c.packets
    }

    ghost predicate Valid()
      reads this, counter
    {
      && CursorIs(out.cursor) && slot == out.slot && output == out.output
      && ended == out.ended && random == out.random && drawn == out.drawn
    }

    ghost function Sending(): (s: Sender)
      reads this
    {
      Sender(out, rekeying, outgoing, asked)
    }

    constructor (random: nat -> U32)
      ensures Valid() && fresh(counter) && Sending() == Fresh(random)
    {
      keys, seqnr, packets, slot, output := None, 0, 0, None, [];
      rekeying, outgoing, ended, drawn, asked := false, [], false, 0, [];
      this.random := random;
      out := Out(START, None, [], false, random, 0, []);
      counter := new Byte[0];
      new;
      assert counter[..] == [];
    }

    /** Lines 917-937: padding from the generator, four bytes a word. */
    method RandomPadding(n: nat) returns (pad: seq<Byte>)
      modifies this`drawn
      ensures pad == RandomPad(random, old(drawn), n)
      ensures drawn == old(drawn) + (n + 3) / 4
    {
      pad := [];
      ghost var start := drawn;
      var rnd, i := 0, 0;
      while i < n
        invariant 0 <= i <= n
        invariant drawn == start + (i + 3) / 4
        invariant i % 4 != 0 ==> rnd == Shifted(random(start + i / 4), i % 4)
        invariant pad == RandomPad(random, start, i)
      {
        if i % 4 == 0 {
          rnd := random(drawn);
          drawn := drawn + 1;
        }
        assert rnd == Shifted(random(start + i / 4), i % 4);
        pad := pad + [rnd % 256];
        rnd := rnd / 256;
        i := i + 1;
      }
    }

    method Pad(blockSize: nat, len: nat) returns (pad: seq<Byte>)
      requires blockSize == if keys.Some? then 16 else 8
      modifies this`drawn
      ensures var n := PadLen(blockSize, len);
        && pad == (if keys.Some? then RandomPad(random, old(drawn), n) else Zeros(n))
        && drawn == old(drawn) + if keys.Some? then (n + 3) / 4 else 0
    {
      var padLen := PadLen(blockSize, len);
      if keys.Some? {
        pad := RandomPadding(padLen);
      } else {
        pad := Zeros(padLen);
      }
    }

    /** `cipher_crypt` on send_context. */
    method Encrypt(data: seq<Byte>, ghost c: Cursor) returns (dest: seq<Byte>)
      requires CursorIs(c)
      modifies counter
      ensures dest == Crypt(c, data) && CursorIs(Skip(c, |data|))
    {
      if keys.None? {
        dest := data;
      } else {
        dest := SshAesCtr(keys.value.aes, counter, data);
      }
    }

    method Mac(plain: seq<Byte>, ghost c: Cursor) returns (mac: seq<Byte>)
      requires CursorIs(c)
      ensures mac == MacOf(c, plain)
    {
      mac := [];
      if keys.Some? && keys.value.macEnabled {
        mac := MacCompute(keys.value, seqnr, plain);
      }
    }

    /** `set_newkeys`: take the derived keys, start a cipher context. */
    method SetNewkeys()
      requires Valid()
      modifies this`keys, this`slot, this`counter, this`packets, this`ended, this`out
      ensures counter == old(counter) || fresh(counter)
      ensures Valid() && out == SwitchedOut(old(out))
    {
      if slot.None? {
        ended := true;
      } else {
        var k := slot.value;
        keys, slot := Some(k), None;
        counter := new Byte[|k.iv|](i requires 0 <= i < |k.iv| => k.iv[i]);
        assert counter[..] == k.iv;
        packets := 0;
      }
      out := SwitchedOut(out);
    }

    /** Lines 904-981: pad, authenticate, encrypt, count. */
    method Emit(m: Message)
      requires Valid()
      modifies this`output, this`out, this`drawn, this`seqnr, this`packets, counter
      ensures Valid() && out == Emitted(old(out), m)
    {
      hide Crypt, MacOf, Skip, RandomPad, PadLen, Zeros, PutU32, Emitted;
      EmittedFields(out, m);
      var blockSize := if keys.Some? then 16 else 8;
      var len := 6 + |m.body|;
      ghost var c, p := out.cursor, PacketFor(out, m);
      var pad := Pad(blockSize, len);
      assert pad == p.pad;
      var plain := PutU32(len + |pad| - 4) + [|pad|, m.kind] + m.body + pad;
      assert plain == Plain(p);
      var mac := Mac(plain, c);
      var cipher := Encrypt(plain, c);
      output := output + (cipher + mac);
      seqnr := (seqnr + 1) % 0x1_0000_0000;
      packets := (packets + 1) % 0x1_0000_0000;
      assert CursorIs(Counted(c, |plain|));
      assert cipher + mac == Wire(c, p);
      out := Emitted(out, m);
    }

    /** `packet_send2_wrapped`, on the message put together in outgoing_packet. */
    method PacketSend2Wrapped(m: Message)
      requires Valid() && !ended
      modifies this`output, this`out, this`drawn, this`seqnr, this`packets, this`keys, this`slot,
               this`counter, this`ended, counter
      ensures counter == old(counter) || fresh(counter)
      ensures Valid() && out == SendWrapped(old(out), m)
    {
      hide Emitted, SwitchedOut;
      Emit(m);
      if packets == 0 {
        ended := true;
        out := out.(ended := true);
      } else if m.kind == MSG_NEWKEYS {
        SetNewkeys();
      }
    }

    method FlushOutgoing()
      requires Valid()
      modifies this, counter
      ensures counter == old(counter) || fresh(counter)
      ensures Valid() && Sending() == Flush(old(Sending()))
    {
      hide SendWrapped;
      ghost var done := Flush(Sending());
      while outgoing != [] && !ended
        invariant Valid() && (counter == old(counter) || fresh(counter))
        invariant Flush(Sending()) == done
        decreases |outgoing|
      {
        var m := outgoing[0];
        outgoing := outgoing[1..];
        PacketSend2Wrapped(m);
      }
    }

    /** `packet_send2`. */
    method PacketSend2(m: Message)
      requires Valid() && !ended
      modifies this, counter
      ensures counter == old(counter) || fresh(counter)
      ensures Valid() && Sending() == PacketSend(old(Sending()), m)
    {
      hide SendWrapped;
      hide Flush;
      if !IsTransport(m.kind) {
        asked := asked + [Asked(m, out.cursor.epoch, rekeying)];
        if rekeying {
          outgoing := outgoing + [m];
          return;
        }
      }
      if m.kind == MSG_KEXINIT {
        rekeying := true;
      }
      PacketSend2Wrapped(m);
      if m.kind == MSG_NEWKEYS && !ended {
        rekeying := false;
        FlushOutgoing();
      }
    }
  }

  class Reader {
    var keys: Option<Keys>           // newkeys[MODE_IN]
    var counter: array<Byte>         // the counter in receive_context
    var seqnr: U32                   // p_read.seqnr
    var packets: U32                 // p_read.packets
    var slot: Option<Keys>           // current_keys[MODE_IN]
    var input: seq<Byte>
    var length: U32                  // poll2_packet_length
    var incoming: seq<Byte>          // incoming_packet
    var status: Status
    ghost var view: In               // what these fields hold

    ghost predicate CursorIs(c: Cursor)
      reads this, counter
    {
      keys == c.keys && counter[..] == c.ctr && seqnr == c.seqnr && packets == c.packets
    }

    /** Once the connection is given up, the other fields are never looked at. */
    ghost predicate Valid()
      reads this, counter
    {
      && InShape(view) && status == view.status
      && (status.Open? ==>
            && CursorIs(view.cursor) && slot == view.slot && input == view.input
            && length == view.length && incoming == view.incoming)
    }

    constructor ()
      ensures Valid() && fresh(counter) && view == In(START, None, [], 0, [], Open)
    {
      keys, seqnr, packets, slot, input := None, 0, 0, None, [];
      length, incoming, status := 0, [], Open;
      view := In(START, None, [], 0, [], Open);
      counter := new Byte[0];
      new;
      assert counter[..] == [];
    }

    /** `cipher_crypt` on receive_context. */
    method Decrypt(data: seq<Byte>, ghost c: Cursor) returns (dest: seq<Byte>)
      requires CursorIs(c)
      modifies counter
      ensures dest == Crypt(c, data) && CursorIs(Skip(c, |data|))
    {
      if keys.None? {
        dest := data;
      } else {
        dest := SshAesCtr(keys.value.aes, counter, data);
      }
    }

    method Mac(plain: seq<Byte>, ghost c: Cursor) returns (mac: seq<Byte>)
      requires keys == c.keys && seqnr == c.seqnr
      ensures mac == MacOf(c, plain)
    {
      mac := [];
      if keys.Some? && keys.value.macEnabled {
        mac := MacCompute(keys.value, seqnr, plain);
      }
    }

    /** Lines 333-361. */
    method Begin()
      requires Valid() && status.Open? && length == 0 && |input| >= BlockSize(keys)
      modifies this`incoming, this`length, this`status, this`input, this`view, counter
      ensures Valid() && view == BeginPacket(old(view))
    {
      hide Crypt, GetU32, Skip;
      var blockSize := if keys.Some? then 16 else 8;
      incoming := Decrypt(input[..blockSize], view.cursor);
      length := GetU32(incoming);
      view := BeginPacket(view);
      if length < 1 + 4 || length > 256 * 1024 {
        status := Closed(BadLength);
      } else {
        input := input[blockSize..];
      }
    }

    /** Lines 363-453. */
    method Finish() returns (res: Polled)
      requires Valid() && status.Open? && length != 0
      modifies this, counter
      ensures counter == old(counter) || fresh(counter)
      ensures Valid() && (view, res) == FinishPacket(old(view))
    {
      hide CheckMac;
      var blockSize := if keys.Some? then 16 else 8;
      var need := if length + 4 < blockSize then length + 4 - blockSize + 0x1_0000_0000
                  else length + 4 - blockSize;
      var macLen := if keys.Some? && keys.value.macEnabled then keys.value.macLen else 0;
      if (if blockSize == 8 then need % 8 else need % 16) != 0 {
        status := Closed(BadAlignment);
        view, res := view.(status := status), Nothing;
      } else if |input| < need + macLen {
        res := Nothing;
      } else {
        res := Take(need, macLen);
      }
    }

    /** Lines 374-407. */
    method Take(need: nat, macLen: nat) returns (res: Polled)
      requires Valid() && status.Open? && length != 0 && macLen == MacSize(keys)
      requires |input| >= need + macLen && |incoming| + need == 4 + length
      modifies this, counter
      ensures counter == old(counter) || fresh(counter)
      ensures Valid() && (view, res) == CheckMac(old(view), need)
    {
      hide Crypt, MacOf, Deliver, Skip;
      ghost var was := view;
      var rest := Decrypt(input[..need], was.cursor);
      var plain := incoming + rest;
      input := input[need..];
      var mac := Mac(plain, was.cursor);
      if input[..macLen] != mac {
        status := Closed(BadMac);
        view, res := was.(status := status), Nothing;
      } else {
        input := input[macLen..];
        var number := seqnr;
        seqnr := (seqnr + 1) % 0x1_0000_0000;
        packets := (packets + 1) % 0x1_0000_0000;
        assert CursorIs(Counted(was.cursor, need));
        view := was.(input := input, cursor := Counted(was.cursor, need));
        res := Strip(plain, number);
      }
    }

    /** Lines 409-453. */
    method Strip(plain: seq<Byte>, number: U32) returns (res: Polled)
      requires Valid() && status.Open? && 5 <= |plain| < 0xa0_0000
      modifies this`status, this`view, this`length, this`incoming, this`keys, this`slot, this`counter, this`packets
      ensures counter == old(counter) || fresh(counter)
      ensures Valid() && (view, res) == Deliver(old(view), plain, number)
    {
      ghost var (next, want) := Deliver(view, plain, number);
      res := Nothing;
      var padLen: int := plain[4];
      if packets == 0 {
        status := Closed(TooManyPackets);
      } else if padLen < 4 || |plain| - 5 < padLen || |plain| - 5 - padLen < 1 {
        status := Closed(BadPadding);
      } else {
        var kind := plain[5];
        if !IsKnown(kind) {
          status := Closed(BadType);
        } else if kind == MSG_NEWKEYS && slot.None? {
          status := Closed(NoKeys);
        } else {
          incoming := plain[6..|plain| - padLen];
          length := 0;
          res := Got(Message(kind, incoming), number);
          if kind == MSG_NEWKEYS {
            var k := slot.value;
            keys, slot := Some(k), None;
            counter := new Byte[|k.iv|](i requires 0 <= i < |k.iv| => k.iv[i]);
            assert counter[..] == k.iv;
            packets := 0;
          }
        }
      }
      view := next;
    }

    /** `packet_read_poll2`. */
    method PacketReadPoll2() returns (res: Polled)
      requires Valid() && status.Open?
      modifies this, counter
      ensures counter == old(counter) || fresh(counter)
      ensures Valid() && (view, res) == Poll(old(view))
    {
      hide BeginPacket, FinishPacket;
      res := Nothing;
      if length == 0 {
        if |input| < BlockSize(keys) { return; }
        Begin();
        if status.Closed? { return; }
      }
      res := Finish();
    }
  }
}
